/** The heap of the implicit allocator: headers only, found by walking over the blocks. */
module ImplicitState {
  import opened HeapLayout
  import opened HeapMemory
  import opened HeapUse

  ghost predicate HeaderAt(m: Words, l: Layout, b: nat)
    requires b in l
  {
    2 <= l[b].size && b + l[b].size <= |m| && m[b] == Tag(l[b])
  }

  ghost predicate Headers(m: Words, l: Layout) { forall b {:trigger HeaderAt(m, l, b)} :: b in l ==> HeaderAt(m, l, b) }

  /** The words of a block after its header. */
  function Body(m: Words, b: nat, size: nat): Words { if 1 <= size && b + size <= |m| then m[b + 1..b + size] else [] }

  ghost predicate BodiesKept(m: Words, m': Words, l: Layout) {
    |m| == |m'| && forall b :: b in l && l[b].used ==> Body(m', b, l[b].size) == Body(m, b, l[b].size)
  }

  ghost predicate BodiesKeptBut(m: Words, m': Words, l: Layout, b: nat) {
    |m| == |m'| && forall a :: a in l && l[a].used && a != b ==> Body(m', a, l[a].size) == Body(m, a, l[a].size)
  }

  /** The invariant. `tail` is the last block; the allocator's own idea of it, `last`, may point further on, into that
      block. */
  ghost predicate ImplicitOk(m: Words, l: Layout, brk: nat, first: nat, tail: nat, last: nat) {
    && Tiled(l, brk) && Ends(l, brk, first, tail) && brk <= |m| && Headers(m, l)
    && (if brk == 1 then last == 0 else tail <= last < brk)
  }

  lemma HeaderOf(m: Words, l: Layout, b: nat)
    requires Headers(m, l) && b in l
    ensures HeaderAt(m, l, b)
  {
  }

  /** What the allocator reads in a block, and where the next one is. */
  lemma Reading(m: Words, l: Layout, brk: nat, first: nat, tail: nat, last: nat, b: nat)
    requires ImplicitOk(m, l, brk, first, tail, last) && b in l
    ensures HeaderAt(m, l, b) && SizeOf(m[b]) == l[b].size && (IsAllocated(m[b]) <==> l[b].used)
    ensures 1 <= b <= last && b % 2 == 1 && l[b].size % 2 == 0 && brk % 2 == 1 && last != 0
    ensures var n := b + l[b].size; if n < brk then n in l && n <= last else n == brk && n > last
  {
    hide Tiled, Headers;
    HeaderOf(m, l, b);
    At(l, brk, b);
    At(l, brk, tail);
    if b != tail { Separate(l, brk, b, tail); }
    var n := b + l[b].size;
    if n < brk {
      At(l, brk, n);
      if n != tail { Separate(l, brk, n, tail); }
    }
  }

  lemma Starting(m: Words, l: Layout, brk: nat, first: nat, tail: nat, last: nat)
    requires ImplicitOk(m, l, brk, first, tail, last)
    ensures last != 0 ==> first == 1 && first in l && first <= last
    ensures last == 0 ==> brk == 1 && first == 0 && l == map[]
    ensures brk % 2 == 1 && 1 <= brk <= |m|
  {
    hide Tiled, Headers;
    if brk > 1 {
      At(l, brk, tail);
      FirstThere(l, brk);
    }
    forall b | b in l ensures brk > 1 { At(l, brk, b); }
  }

  // ---------- Writing headers ----------

  /** A write inside one block, other than by its own header, is outside every other block. */
  lemma OtherBlock(m: Words, l: Layout, brk: nat, b: nat, k: nat, v: nat, c: nat)
    requires Tiled(l, brk) && b in l && c in l && b != c && HeaderAt(m, l, b) && HeaderAt(m, l, c)
    requires b <= k < b + l[b].size
    ensures k < |m| && HeaderAt(m[k := v], l, c) && Body(m[k := v], c, l[c].size) == Body(m, c, l[c].size)
  {
    hide Tiled;
    Separate(l, brk, b, c);
  }

  lemma OwnBody(m: Words, b: nat, size: nat, v: nat)
    requires b < |m|
    ensures Body(m[b := v], b, size) == Body(m, b, size)
  {
  }

  lemma SetUsedStep(m: Words, l: Layout, brk: nat, first: nat, tail: nat, last: nat, b: nat, used: bool)
    requires ImplicitOk(m, l, brk, first, tail, last) && b in l
    ensures b < |m|
    ensures var l' := SetUsed(l, b, used); var m' := m[b := Tag(l'[b])];
            ImplicitOk(m', l', brk, first, tail, last) && BodiesKept(m, m', l)
  {
    hide Tiled, Body, Ends;
    HeaderOf(m, l, b);
    SetUsedTiled(l, brk, first, tail, b, used);
    var l' := SetUsed(l, b, used);
    var m' := m[b := Tag(l'[b])];
    forall c | c in l ensures HeaderAt(m', l', c) && Body(m', c, l[c].size) == Body(m, c, l[c].size) {
      HeaderOf(m, l, c);
      if c != b { OtherBlock(m, l, brk, b, b, Tag(l'[b]), c); } else { OwnBody(m, b, l[b].size, Tag(l'[b])); }
    }
  }

  lemma SplitStep(m: Words, l: Layout, brk: nat, first: nat, tail: nat, last: nat, b: nat, size: nat)
    requires ImplicitOk(m, l, brk, first, tail, last) && CanSplit(l, b, size) && !l[b].used
    ensures b + size < |m|
    ensures var l' := Split(l, b, size); var n := b + size; var m' := m[b := size][n := l[b].size - size];
            && ImplicitOk(m', l', brk, first, if n > tail then n else tail, if n > last then n else last)
            && BodiesKept(m, m', l) && SameUsed(l, l')
  {
    hide Tiled, Body, Ends, SameUsed;
    HeaderOf(m, l, b);
    SplitTiled(l, brk, b, size);
    SplitEnds(l, brk, first, tail, b, size);
    SplitNew(l, brk, b, size);
    SplitKeys(l, b, size);
    SplitSameUsed(l, brk, b, size);
    var l', n := Split(l, b, size), b + size;
    var m1 := m[b := size];
    var m' := m1[n := l[b].size - size];
    forall c | c in l'
      ensures HeaderAt(m', l', c) && (c in l && l[c].used ==> Body(m', c, l[c].size) == Body(m, c, l[c].size))
    {
      if c in l && c != b {
        HeaderOf(m, l, c);
        OtherBlock(m, l, brk, b, b, size, c);
        SplitBody(m, m1, l, brk, b, size, c);
      }
    }
    NewLast(l, brk, first, tail, b, size);
  }

  lemma NewLast(l: Layout, brk: nat, first: nat, tail: nat, b: nat, size: nat)
    requires Tiled(l, brk) && Ends(l, brk, first, tail) && CanSplit(l, b, size)
    ensures brk > 1 && b + size < brk
  {
    hide Tiled;
    At(l, brk, b);
  }

  lemma SplitBody(m: Words, m1: Words, l: Layout, brk: nat, b: nat, size: nat, c: nat)
    requires Tiled(l, brk) && CanSplit(l, b, size) && c in l && c != b && HeaderAt(m, l, b) && HeaderAt(m1, l, c)
    requires |m1| == |m|
    requires Body(m1, c, l[c].size) == Body(m, c, l[c].size)
    ensures var l' := Split(l, b, size); var m' := m1[b + size := l[b].size - size];
            c in l' && HeaderAt(m', l', c) && Body(m', c, l[c].size) == Body(m, c, l[c].size)
  {
    hide Tiled;
    SplitNew(l, brk, b, size);
    Separate(l, brk, b, c);
  }

  lemma MergeStep(m: Words, l: Layout, brk: nat, first: nat, tail: nat, last: nat, a: nat)
    requires ImplicitOk(m, l, brk, first, tail, last) && CanMerge(l, a) && !l[a].used && !l[a + l[a].size].used
    ensures a < |m|
    ensures var n := a + l[a].size; var l' := Merge(l, a); var m' := m[a := l[a].size + l[n].size];
            && ImplicitOk(m', l', brk, first, if n == tail then a else tail, last)
            && BodiesKept(m, m', l) && SameUsed(l, l') && a in l' && !l'[a].used && l'[a].size == l[a].size + l[n].size
  {
    hide Tiled, Body, Ends, SameUsed;
    var n := a + l[a].size;
    HeaderOf(m, l, a);
    HeaderOf(m, l, n);
    MergeTiled(l, brk, a);
    MergeEnds(l, brk, first, tail, a);
    MergeKeys(l, brk, a);
    MergeSameUsed(l, brk, a);
    var l', v := Merge(l, a), l[a].size + l[n].size;
    var m' := m[a := v];
    forall c | c in l
      ensures c != n ==> HeaderAt(m', l', c)
      ensures l[c].used ==> Body(m', c, l[c].size) == Body(m, c, l[c].size)
    {
      HeaderOf(m, l, c);
      if c != a { OtherBlock(m, l, brk, a, a, v, c); }
    }
    TailIn(l, brk, first, tail, a);
  }

  lemma TailIn(l: Layout, brk: nat, first: nat, tail: nat, a: nat)
    requires Tiled(l, brk) && Ends(l, brk, first, tail) && CanMerge(l, a)
    ensures brk > 1 && a + l[a].size > a
  {
    hide Tiled;
    At(l, brk, a);
  }

  lemma AppendStep(m: Words, l: Layout, brk: nat, first: nat, tail: nat, last: nat, size: nat)
    requires ImplicitOk(m, l, brk, first, tail, last) && size % 2 == 0 && 2 <= size && brk + size <= |m|
    ensures (first == 0 <==> brk == 1) && (first != 0 ==> first == 1)
    ensures var l' := Append(l, brk, tail, size); var m' := m[brk := size + 1];
            ImplicitOk(m', l', brk + size, 1, brk, brk) && BodiesKept(m, m', l) && OneMore(l, l', brk)
            && brk in l' && l'[brk].size == size && brk % 2 == 1
  {
    hide Tiled, Body, OneMore;
    AppendTiled(l, brk, first, tail, size);
    AppendNew(l, brk, first, tail);
    AppendOneMore(l, brk, first, tail, size);
    var l', m' := Append(l, brk, tail, size), m[brk := size + 1];
    forall c | c in l ensures HeaderAt(m', l', c) && Body(m', c, l[c].size) == Body(m, c, l[c].size) {
      HeaderOf(m, l, c);
      At(l, brk, c);
      BeyondBody(m, brk, size + 1, c, l[c].size);
    }
  }

  lemma BeyondBody(m: Words, k: nat, v: nat, b: nat, size: nat)
    requires k < |m| && b + size <= k
    ensures Body(m[k := v], b, size) == Body(m, b, size)
  {
  }

  /** A client's write inside the body of one block. */
  lemma ClientStep(m: Words, m': Words, l: Layout, brk: nat, first: nat, tail: nat, last: nat, b: nat)
    requires ImplicitOk(m, l, brk, first, tail, last) && b in l && |m'| == |m|
    requires forall k :: 0 <= k < |m| && (k <= b || k >= b + l[b].size) ==> m'[k] == m[k]
    ensures ImplicitOk(m', l, brk, first, tail, last) && BodiesKeptBut(m, m', l, b)
  {
    hide Tiled;
    HeaderOf(m, l, b);
    forall c | c in l ensures HeaderAt(m', l, c) && (c != b ==> Body(m', c, l[c].size) == Body(m, c, l[c].size)) {
      HeaderOf(m, l, c);
      if c != b { Separate(l, brk, b, c); }
    }
  }

  // ---------- Combining steps ----------

  lemma BodiesAcross(m: Words, m': Words, m'': Words, l: Layout, l': Layout)
    requires BodiesKept(m, m', l) && SameUsed(l, l') && BodiesKept(m', m'', l')
    ensures BodiesKept(m, m'', l)
  {
    hide Body;
  }

  lemma BodiesRefl(m: Words, l: Layout)
    ensures BodiesKept(m, m, l)
  {
  }

  /** The allocated block `b` was replaced by `b'`, whose body begins with that of `b`; other bodies are as they were.
      */
  ghost predicate Replaced(m: Words, m': Words, l: Layout, l': Layout, b: nat, b': nat) {
    && b in l && l[b].used && b' in l' && l'[b'].used && b' != b && !(b' in l && l[b'].used)
    && (forall a :: a in l && l[a].used && a != b ==> a in l' && l'[a].used && l'[a].size == l[a].size)
    && (forall a :: a in l' && l'[a].used && a != b' ==> a != b && a in l && l[a].used)
    && BodiesKeptBut(m, m', l, b) && Body(m, b, l[b].size) <= Body(m', b', l'[b'].size)
  }

  lemma ReplacedBy(m: Words, m1: Words, m2: Words, m3: Words, l: Layout, l1: Layout, l3: Layout, b: nat, b': nat)
    requires b in l && l[b].used && OneMore(l, l1, b') && b' != b && OneMore(l3, l1, b)
    requires BodiesKept(m, m1, l) && b' in l1 && BodiesKeptBut(m1, m2, l1, b') && BodiesKept(m2, m3, l1)
    requires Body(m1, b, l1[b].size) <= Body(m2, b', l1[b'].size)
    ensures Replaced(m, m3, l, l3, b, b')
  {
    hide Body;
  }

  lemma CopiedInto(m1: Words, m2: Words, l1: Layout, b': nat, b: nat, n: nat)
    requires |m1| == |m2| && b in l1 && b' in l1 && n + 1 == l1[b].size <= l1[b'].size
    requires b + l1[b].size <= |m1| && b' + l1[b'].size <= |m1|
    requires m2[b' + 1..b' + 1 + n] == m1[b + 1..b + 1 + n]
    ensures Body(m1, b, l1[b].size) <= Body(m2, b', l1[b'].size)
  {
    var p, q := Body(m1, b, l1[b].size), Body(m2, b', l1[b'].size);
    forall i | 0 <= i < n ensures q[i] == p[i] {
      assert m2[b' + 1..b' + 1 + n][i] == m1[b + 1..b + 1 + n][i];
    }
  }

  // ---------- Coalescing ----------

  /** No free block that begins before `x` is followed by a free one. */
  ghost predicate SpacedBelow(l: Layout, x: nat) {
    forall b :: b in l && b < x && !l[b].used && b + l[b].size in l ==> l[b + l[b].size].used
  }

  lemma MergeSpacedBelow(l: Layout, brk: nat, a: nat)
    requires Tiled(l, brk) && CanMerge(l, a) && SpacedBelow(l, a) && !l[a].used && !l[a + l[a].size].used
    ensures SpacedBelow(Merge(l, a), a)
  {
    hide Tiled;
    MergeKeys(l, brk, a);
    At(l, brk, a);
    At(l, brk, a + l[a].size);
    forall b | b in Merge(l, a) && b < a && !Merge(l, a)[b].used && b + Merge(l, a)[b].size in Merge(l, a)
      ensures Merge(l, a)[b + Merge(l, a)[b].size].used
    {
      At(l, brk, b);
      Separate(l, brk, b, a);
    }
  }

  lemma StepSpacedBelow(l: Layout, brk: nat, a: nat)
    requires Tiled(l, brk) && a in l && SpacedBelow(l, a)
    requires (l[a].used || (a + l[a].size in l ==> l[a + l[a].size].used))
    ensures SpacedBelow(l, a + l[a].size)
  {
    hide Tiled;
    forall b | b in l && b < a + l[a].size ensures b <= a { if b != a { Separate(l, brk, a, b); At(l, brk, b); } }
  }

  lemma AllSpaced(l: Layout, brk: nat)
    requires Tiled(l, brk) && SpacedBelow(l, brk)
    ensures Spaced(l, {})
  {
    hide Tiled;
    forall b | b in l ensures b < brk { At(l, brk, b); }
  }

  /** Blocks before the next one are those up to this one. */
  lemma NothingBetween(l: Layout, brk: nat, a: nat, b: nat)
    requires Tiled(l, brk) && a in l && b in l && b < a + l[a].size
    ensures b <= a
  {
    hide Tiled;
    if b != a { At(l, brk, b); Separate(l, brk, a, b); }
  }
}

/** How blocks tile the heap. Addresses and sizes are in words of 8 bytes, from the start of the heap: word 0 is
    padding, so that 0 can stand for NULL, and payloads start at even addresses, which are the multiples of 16 bytes.
    */
module HeapLayout {

  /** 100 MB, in words. */
  const MAX_HEAP: nat := 0xC8_0000

  /** A block by its start: its size with header and any footer, whether it is allocated, and the block before it. */
  datatype Block = Block(size: nat, used: bool, prev: nat)

  type Layout = map<nat, Block>

  ghost predicate BlockOk(l: Layout, brk: nat, b: nat)
    requires b in l
  {
    var k := l[b];
    && b % 2 == 1 && k.size % 2 == 0 && k.size >= 2 && b + k.size <= brk
    && (b + k.size < brk ==> b + k.size in l && l[b + k.size].prev == b)
    && (if b == 1 then k.prev == 0 else k.prev in l && k.prev + l[k.prev].size == b)
  }

  /** Blocks follow each other from word 1 to the break, and do not overlap. */
  ghost predicate Tiled(l: Layout, brk: nat) {
    && brk >= 1 && (brk > 1 ==> 1 in l)
    && (forall b {:trigger BlockOk(l, brk, b)} :: b in l ==> BlockOk(l, brk, b))
    && (forall a, b {:trigger Apart(l, a, b)} :: a in l && b in l && a < b ==> Apart(l, a, b))
  }

  ghost predicate Apart(l: Layout, a: nat, b: nat)
    requires a in l
  {
    a + l[a].size <= b
  }

  /** The first and the last block, NULL when there is none. */
  ghost predicate Ends(l: Layout, brk: nat, first: nat, last: nat) {
    if brk == 1 then first == 0 && last == 0 else first == 1 && last in l && last + l[last].size == brk
  }

  /** No two adjacent blocks are free, but for those in `out`. */
  ghost predicate Spaced(l: Layout, out: set<nat>) {
    forall b :: b in l && !l[b].used && b !in out ==>
      b + l[b].size in l && b + l[b].size !in out ==> l[b + l[b].size].used
  }

  lemma At(l: Layout, brk: nat, b: nat)
    requires Tiled(l, brk) && b in l
    ensures BlockOk(l, brk, b) && 1 <= b < brk
  {
  }

  lemma Separate(l: Layout, brk: nat, a: nat, b: nat)
    requires Tiled(l, brk) && a in l && b in l && a != b
    ensures a + l[a].size <= b || b + l[b].size <= a
  {
    assert if a < b then Apart(l, a, b) else Apart(l, b, a);
  }

  /** Every word below the break lies in exactly one block. */
  lemma Covers(l: Layout, brk: nat, x: nat) returns (b: nat)
    requires Tiled(l, brk) && 1 <= x < brk
    ensures b in l && b <= x < b + l[b].size
    ensures forall a :: a in l && a <= x < a + l[a].size ==> a == b
  {
    hide Tiled;
    b := 1;
    assert 1 in l by { assert Tiled(l, brk); FirstThere(l, brk); }
    At(l, brk, 1);
    while x >= b + l[b].size
      invariant b in l && b <= x && BlockOk(l, brk, b)
      decreases x - b
    {
      b := b + l[b].size;
      At(l, brk, b);
    }
    forall a | a in l && a <= x < a + l[a].size ensures a == b {
      if a != b { Separate(l, brk, a, b); }
    }
  }

  lemma FirstThere(l: Layout, brk: nat)
    requires Tiled(l, brk) && brk > 1
    ensures 1 in l
  {
  }

  // ---------- Splitting, merging, extending ----------

  ghost function Split(l: Layout, b: nat, size: nat): Layout
    requires b in l && size <= l[b].size
  {
    var n, e := b + size, b + l[b].size;
    var l' := l[b := l[b].(size := size)][n := Block(l[b].size - size, false, b)];
    if e in l then l'[e := l[e].(prev := n)] else l'
  }

  ghost predicate CanSplit(l: Layout, b: nat, size: nat) {
    b in l && size % 2 == 0 && 2 <= size && size + 2 <= l[b].size
  }

  lemma SplitNew(l: Layout, brk: nat, b: nat, size: nat)
    requires Tiled(l, brk) && CanSplit(l, b, size)
    ensures b + size !in l
  {
    hide Tiled;
    if b + size in l { Separate(l, brk, b, b + size); }
  }

  lemma SplitBlock(l: Layout, brk: nat, b: nat, size: nat, a: nat)
    requires Tiled(l, brk) && CanSplit(l, b, size) && a in Split(l, b, size)
    ensures BlockOk(Split(l, b, size), brk, a)
  {
    hide Tiled, Split, BlockOk;
    SplitKeys(l, b, size);
    if a == b {
      SplitFirst(l, brk, b, size);
    } else if a == b + size {
      SplitSecond(l, brk, b, size);
    } else {
      SplitAside(l, brk, b, size, a);
    }
  }

  lemma SplitFirst(l: Layout, brk: nat, b: nat, size: nat)
    requires Tiled(l, brk) && CanSplit(l, b, size)
    ensures b in Split(l, b, size) && BlockOk(Split(l, b, size), brk, b)
  {
    hide Tiled, Split;
    At(l, brk, b);
    SplitAt(l, b, size, b);
    SplitAt(l, b, size, b + size);
    if b != 1 { SplitAt(l, b, size, l[b].prev); }
  }

  lemma SplitSecond(l: Layout, brk: nat, b: nat, size: nat)
    requires Tiled(l, brk) && CanSplit(l, b, size)
    ensures b + size in Split(l, b, size) && BlockOk(Split(l, b, size), brk, b + size)
  {
    hide Tiled, Split;
    SplitNew(l, brk, b, size);
    At(l, brk, b);
    SplitAt(l, b, size, b);
    SplitAt(l, b, size, b + size);
    if b + l[b].size < brk { SplitAt(l, b, size, b + l[b].size); }
  }

  lemma SplitAside(l: Layout, brk: nat, b: nat, size: nat, a: nat)
    requires Tiled(l, brk) && CanSplit(l, b, size) && a in l && a != b
    ensures a in Split(l, b, size) && BlockOk(Split(l, b, size), brk, a)
  {
    hide Tiled, Split;
    SplitNew(l, brk, b, size);
    At(l, brk, b);
    At(l, brk, a);
    SplitAt(l, b, size, a);
    SplitAt(l, b, size, b + size);
    if a + l[a].size < brk { SplitAt(l, b, size, a + l[a].size); }
    if a != 1 { SplitAt(l, b, size, l[a].prev); }
  }

  /** The blocks after a split, one by one. */
  lemma SplitAt(l: Layout, b: nat, size: nat, c: nat)
    requires CanSplit(l, b, size) && (c in l || c == b + size)
    ensures var n, e := b + size, b + l[b].size;
            && c in Split(l, b, size)
            && Split(l, b, size)[c] ==
               if c == e then l[e].(prev := n)
               else if c == n then Block(l[b].size - size, false, b)
               else if c == b then l[b].(size := size)
               else l[c]
  {
  }

  lemma SplitApart(l: Layout, brk: nat, b: nat, size: nat, a: nat, c: nat)
    requires Tiled(l, brk) && CanSplit(l, b, size) && a in Split(l, b, size) && c in Split(l, b, size) && a < c
    ensures Apart(Split(l, b, size), a, c)
  {
    hide Tiled;
    SplitNew(l, brk, b, size);
    var n := b + size;
    var a', c' := if a == n then b else a, if c == n then b else c;
    if a' != c' { Separate(l, brk, a', c'); }
    At(l, brk, a');
    At(l, brk, c');
  }

  lemma SplitTiled(l: Layout, brk: nat, b: nat, size: nat)
    requires Tiled(l, brk) && CanSplit(l, b, size)
    ensures Tiled(Split(l, b, size), brk)
  {
    hide BlockOk, Apart, Split;
    var l' := Split(l, b, size);
    forall a | a in l' ensures BlockOk(l', brk, a) { SplitBlock(l, brk, b, size, a); }
    forall a, c | a in l' && c in l' && a < c ensures Apart(l', a, c) { SplitApart(l, brk, b, size, a, c); }
    assert 1 in l ==> 1 in l' by { SplitKeys(l, b, size); }
  }

  lemma SplitKeys(l: Layout, b: nat, size: nat)
    requires CanSplit(l, b, size)
    ensures Split(l, b, size).Keys == l.Keys + {b + size}
  {
  }

  lemma SplitEnds(l: Layout, brk: nat, first: nat, last: nat, b: nat, size: nat)
    requires Tiled(l, brk) && Ends(l, brk, first, last) && CanSplit(l, b, size)
    ensures Ends(Split(l, b, size), brk, first, if b + size > last then b + size else last)
  {
    hide Tiled;
    At(l, brk, b);
    SplitNew(l, brk, b, size);
    if last != b && last in l {
      At(l, brk, last);
      Separate(l, brk, b, last);
    }
  }

  /** The first part may touch a free block, the new part may not. */
  lemma SplitSpaced(l: Layout, brk: nat, b: nat, size: nat)
    requires Tiled(l, brk) && Spaced(l, {}) && CanSplit(l, b, size) && !l[b].used
    ensures Spaced(Split(l, b, size), {b})
  {
    hide Tiled, Spaced;
    var l' := Split(l, b, size);
    forall a | a in l' && !l'[a].used && a !in {b} && a + l'[a].size in l' && a + l'[a].size !in {b}
      ensures l'[a + l'[a].size].used
    {
      SplitNeighbour(l, brk, b, size, a);
    }
    SpacedIntro(l', {b});
  }

  lemma SpacedIntro(l: Layout, out: set<nat>)
    requires forall b :: b in l && !l[b].used && b !in out ==>
               b + l[b].size in l && b + l[b].size !in out ==> l[b + l[b].size].used
    ensures Spaced(l, out)
  {
  }

  lemma NextUsed(l: Layout, out: set<nat>, b: nat)
    requires Spaced(l, out) && b in l && !l[b].used && b !in out && b + l[b].size in l && b + l[b].size !in out
    ensures l[b + l[b].size].used
  {
  }

  lemma SplitNeighbour(l: Layout, brk: nat, b: nat, size: nat, a: nat)
    requires Tiled(l, brk) && Spaced(l, {}) && CanSplit(l, b, size) && !l[b].used
    requires var l' := Split(l, b, size);
             a in l' && !l'[a].used && a != b && a + l'[a].size in l' && a + l'[a].size != b
    ensures var l' := Split(l, b, size); l'[a + l'[a].size].used
  {
    hide Tiled, Spaced;
    SplitNew(l, brk, b, size);
    At(l, brk, b);
    if a == b + size {
      NextUsed(l, {}, b);
    } else {
      At(l, brk, a);
      Separate(l, brk, a, b);
      NextUsed(l, {}, a);
    }
  }

  ghost function Merge(l: Layout, a: nat): Layout
    requires a in l && a + l[a].size in l
  {
    var n := a + l[a].size;
    var e := n + l[n].size;
    var l' := (l - {n})[a := l[a].(size := l[a].size + l[n].size)];
    if e in l then l'[e := l[e].(prev := a)] else l'
  }

  ghost predicate CanMerge(l: Layout, a: nat) { a in l && a + l[a].size in l }

  lemma MergeBlock(l: Layout, brk: nat, a: nat, b: nat)
    requires Tiled(l, brk) && CanMerge(l, a) && b in Merge(l, a)
    ensures BlockOk(Merge(l, a), brk, b)
  {
    hide Tiled, Merge;
    var n := a + l[a].size;
    MergeKeys(l, brk, a);
    At(l, brk, a);
    At(l, brk, n);
    At(l, brk, b);
    MergeAt(l, a, a);
    MergeAt(l, a, b);
    if b == a {
      if n + l[n].size < brk { MergeAt(l, a, n + l[n].size); }
    } else if b + l[b].size < brk {
      MergeAt(l, a, b + l[b].size);
    }
    if b != 1 && l[b].prev != n { MergeAt(l, a, l[b].prev); }
  }

  /** The blocks after a merge, one by one. */
  lemma MergeAt(l: Layout, a: nat, c: nat)
    requires CanMerge(l, a) && l[a].size > 0 && l[a + l[a].size].size > 0 && c in l && c != a + l[a].size
    ensures var n := a + l[a].size; var e := n + l[n].size;
            && c in Merge(l, a)
            && Merge(l, a)[c] ==
               if c == e then l[e].(prev := a)
               else if c == a then l[a].(size := l[a].size + l[n].size)
               else l[c]
  {
  }

  lemma MergeApart(l: Layout, brk: nat, a: nat, b: nat, c: nat)
    requires Tiled(l, brk) && CanMerge(l, a) && b in Merge(l, a) && c in Merge(l, a) && b < c
    ensures Apart(Merge(l, a), b, c)
  {
    hide Tiled;
    At(l, brk, a);
    At(l, brk, c);
    Separate(l, brk, b, c);
    if a + l[a].size != c { Separate(l, brk, a + l[a].size, c); }
  }

  lemma MergeKeys(l: Layout, brk: nat, a: nat)
    requires Tiled(l, brk) && CanMerge(l, a)
    ensures Merge(l, a).Keys == l.Keys - {a + l[a].size}
  {
    hide Tiled;
    At(l, brk, a);
    At(l, brk, a + l[a].size);
  }

  lemma MergeTiled(l: Layout, brk: nat, a: nat)
    requires Tiled(l, brk) && CanMerge(l, a)
    ensures Tiled(Merge(l, a), brk)
  {
    hide BlockOk, Apart, Merge;
    var l' := Merge(l, a);
    MergeKeys(l, brk, a);
    At(l, brk, a);
    assert l[a].size > 0 by { SizePositive(l, brk, a); }
    forall b | b in l' ensures BlockOk(l', brk, b) { MergeBlock(l, brk, a, b); }
    forall b, c | b in l' && c in l' && b < c ensures Apart(l', b, c) { MergeApart(l, brk, a, b, c); }
  }

  lemma SizePositive(l: Layout, brk: nat, a: nat)
    requires a in l && BlockOk(l, brk, a)
    ensures l[a].size >= 2
  {
  }

  lemma MergeEnds(l: Layout, brk: nat, first: nat, last: nat, a: nat)
    requires Tiled(l, brk) && Ends(l, brk, first, last) && CanMerge(l, a)
    ensures Ends(Merge(l, a), brk, first, if a + l[a].size == last then a else last)
  {
    hide Tiled;
    At(l, brk, a);
    At(l, brk, a + l[a].size);
  }

  ghost function Append(l: Layout, brk: nat, last: nat, size: nat): Layout { l[brk := Block(size, true, last)] }

  lemma AppendNew(l: Layout, brk: nat, first: nat, last: nat)
    requires Tiled(l, brk) && Ends(l, brk, first, last)
    ensures brk !in l && brk % 2 == 1
  {
    hide Tiled;
    if brk in l { At(l, brk, brk); }
    if brk > 1 { At(l, brk, last); }
  }

  lemma AppendBlock(l: Layout, brk: nat, first: nat, last: nat, size: nat, b: nat)
    requires Tiled(l, brk) && Ends(l, brk, first, last) && size % 2 == 0 && size >= 2 && b in Append(l, brk, last, size)
    ensures BlockOk(Append(l, brk, last, size), brk + size, b)
  {
    hide Tiled;
    AppendNew(l, brk, first, last);
    if b != brk {
      At(l, brk, b);
      if b + l[b].size == brk && b != last { At(l, brk, last); Separate(l, brk, b, last); }
    }
    if brk > 1 { At(l, brk, last); }
  }

  lemma AppendApart(l: Layout, brk: nat, first: nat, last: nat, size: nat, b: nat, c: nat)
    requires Tiled(l, brk) && Ends(l, brk, first, last) && size % 2 == 0 && size >= 2
    requires b in Append(l, brk, last, size) && c in Append(l, brk, last, size) && b < c
    ensures Apart(Append(l, brk, last, size), b, c)
  {
    hide Tiled;
    AppendNew(l, brk, first, last);
    if b != brk { At(l, brk, b); }
    if c != brk { At(l, brk, c); }
    if b != brk && c != brk { Separate(l, brk, b, c); }
  }

  lemma AppendTiled(l: Layout, brk: nat, first: nat, last: nat, size: nat)
    requires Tiled(l, brk) && Ends(l, brk, first, last) && size % 2 == 0 && size >= 2
    ensures Tiled(Append(l, brk, last, size), brk + size) && Ends(Append(l, brk, last, size), brk + size, 1, brk)
  {
    hide BlockOk, Apart;
    var l' := Append(l, brk, last, size);
    forall b | b in l' ensures BlockOk(l', brk + size, b) { AppendBlock(l, brk, first, last, size, b); }
    forall b, c | b in l' && c in l' && b < c ensures Apart(l', b, c) { AppendApart(l, brk, first, last, size, b, c); }
  }

  lemma AppendSpaced(l: Layout, brk: nat, first: nat, last: nat, size: nat)
    requires Tiled(l, brk) && Ends(l, brk, first, last) && Spaced(l, {})
    ensures Spaced(Append(l, brk, last, size), {})
  {
    hide Tiled;
    AppendNew(l, brk, first, last);
  }

  ghost function SetUsed(l: Layout, b: nat, used: bool): Layout
    requires b in l
  {
    l[b := l[b].(used := used)]
  }

  lemma SetUsedTiled(l: Layout, brk: nat, first: nat, last: nat, b: nat, used: bool)
    requires Tiled(l, brk) && Ends(l, brk, first, last) && b in l
    ensures Tiled(SetUsed(l, b, used), brk) && Ends(SetUsed(l, b, used), brk, first, last)
  {
    var l' := SetUsed(l, b, used);
    forall a | a in l' ensures BlockOk(l', brk, a) { SetUsedBlock(l, brk, b, used, a); }
    forall a, c | a in l' && c in l' && a < c ensures Apart(l', a, c) { assert Apart(l, a, c); }
  }

  lemma SetUsedBlock(l: Layout, brk: nat, b: nat, used: bool, a: nat)
    requires Tiled(l, brk) && b in l && a in l
    ensures BlockOk(SetUsed(l, b, used), brk, a)
  {
    hide Tiled;
    At(l, brk, a);
  }
}

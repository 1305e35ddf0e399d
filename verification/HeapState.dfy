/** The whole state of the explicit allocator, and what each of its steps keeps. */
module HeapState {
  import opened HeapLayout
  import opened HeapMemory
  import opened HeapUse

  /** The heap's invariant; the free blocks in `out` are not in the list at the moment. */
  ghost predicate HeapOk(m: Words, l: Layout, list: seq<nat>, out: set<nat>, brk: nat, first: nat, last: nat,
                         head: nat) {
    && Tiled(l, brk) && Ends(l, brk, first, last) && brk <= |m| && Tagged(m, l)
    && Chain(m, list) && Members(l, list, out) && head == Head(list)
  }

  lemma SplitStep(m: Words, l: Layout, list: seq<nat>, brk: nat, first: nat, last: nat, head: nat, b: nat, size: nat)
    requires HeapOk(m, l, list, {}, brk, first, last, head) && CanSplit(l, b, size) && 4 <= size
    requires size + 4 <= l[b].size && !l[b].used
    ensures b + l[b].size <= |m|
    ensures HeapOk(WriteSplit(m, b, size, l[b].size), Split(l, b, size), list, {b + size}, brk, first,
                   if b + size > last then b + size else last, head)
    ensures Kept(m, WriteSplit(m, b, size, l[b].size), l) && SameUsed(l, Split(l, b, size))
  {
    hide Tiled, Tagged, Ends, Chain, Members, Kept, LinksKept, SameUsed;
    SplitTagged(m, l, brk, b, size);
    SplitTiled(l, brk, b, size);
    SplitEnds(l, brk, first, last, b, size);
    SplitSameUsed(l, brk, b, size);
    ChainFrame(m, WriteSplit(m, b, size, l[b].size), l, list, {});
    SplitMembers(l, brk, list, b, size);
  }

  lemma SplitMembers(l: Layout, brk: nat, list: seq<nat>, b: nat, size: nat)
    requires Tiled(l, brk) && Members(l, list, {}) && CanSplit(l, b, size) && !l[b].used
    ensures Members(Split(l, b, size), list, {b + size})
  {
    hide Tiled;
    SplitNew(l, brk, b, size);
    var l', out := Split(l, b, size), {b + size};
    forall i | 0 <= i < |list| ensures FreeBlock(l', out, list[i]) { assert FreeBlock(l, {}, list[i]); }
    forall a | FreeBlock(l', out, a) ensures a in list { assert FreeBlock(l, {}, a); }
  }

  lemma MergeStep(m: Words, l: Layout, list: seq<nat>, out: set<nat>, brk: nat, first: nat, last: nat, head: nat,
                  a: nat)
    requires HeapOk(m, l, list, out, brk, first, last, head) && CanMerge(l, a) && !l[a].used
    requires var n := a + l[a].size; !l[n].used && n in out
    ensures 4 <= l[a].size + l[a + l[a].size].size <= |m| - a
    ensures var n := a + l[a].size; var m' := WriteTag(m, a, l[a].size + l[n].size, false);
            && HeapOk(m', Merge(l, a), list, out - {n}, brk, first, if n == last then a else last, head)
            && Kept(m, m', l) && SameUsed(l, Merge(l, a))
  {
    hide Tiled, Tagged, Ends, Chain, Members, Kept, LinksKept, SameUsed;
    var n := a + l[a].size;
    MergeTagged(m, l, brk, a);
    MergeTiled(l, brk, a);
    MergeEnds(l, brk, first, last, a);
    MergeSameUsed(l, brk, a);
    ChainFrame(m, WriteTag(m, a, l[a].size + l[n].size, false), l, list, out);
    MergeMembers(l, brk, list, out, a);
  }

  lemma MergeMembers(l: Layout, brk: nat, list: seq<nat>, out: set<nat>, a: nat)
    requires Tiled(l, brk) && Members(l, list, out) && CanMerge(l, a) && !l[a].used
    requires var n := a + l[a].size; !l[n].used && n in out
    ensures Members(Merge(l, a), list, out - {a + l[a].size})
  {
    hide Tiled;
    MergeKeys(l, brk, a);
    var n := a + l[a].size;
    var l', out' := Merge(l, a), out - {n};
    forall i | 0 <= i < |list| ensures FreeBlock(l', out', list[i]) { assert FreeBlock(l, out, list[i]); }
    forall b | FreeBlock(l', out', b) ensures b in list { assert FreeBlock(l, out, b); }
  }

  lemma PushStep(m: Words, l: Layout, list: seq<nat>, out: set<nat>, brk: nat, first: nat, last: nat, head: nat, f: nat)
    requires HeapOk(m, l, list, out, brk, first, last, head) && f in out && f in l && !l[f].used
    ensures f != 0 && f + 2 < |m| && (list == [] || list[0] + 1 < |m|) && (head == 0 <==> list == [])
    ensures var m' := PushFront(m, list, f);
            HeapOk(m', l, [f] + list, out - {f}, brk, first, last, f) && Kept(m, m', l)
  {
    hide Tiled, Tagged, Ends, Chain, Members, Kept;
    At(l, brk, f);
    if list != [] { NodePositive(l, brk, list, out, 0); }
    PushFrontChain(m, l, brk, list, out, f);
    PushKept(m, l, brk, list, out, f);
  }

  lemma PushKept(m: Words, l: Layout, brk: nat, list: seq<nat>, out: set<nat>, f: nat)
    requires Tiled(l, brk) && Tagged(m, l) && Members(l, list, out) && f in l && !l[f].used
    requires f + 2 < |m| && (list == [] || list[0] + 1 < |m|)
    ensures Tagged(PushFront(m, list, f), l) && Kept(m, PushFront(m, list, f), l)
  {
    hide Tiled, Tagged, Kept;
    if list == [] {
      LinkWrite(m, l, brk, f, f + 1, 0);
      LinkWrite(m[f + 1 := 0], l, brk, f, f + 2, 0);
      KeptTrans(m, m[f + 1 := 0], PushFront(m, list, f), l);
    } else {
      assert FreeBlock(l, out, list[0]);
      var m1 := m[f + 2 := list[0]];
      var m2 := m1[list[0] + 1 := f];
      LinkWrite(m, l, brk, f, f + 2, list[0]);
      LinkWrite(m1, l, brk, list[0], list[0] + 1, f);
      LinkWrite(m2, l, brk, f, f + 1, 0);
      KeptTrans(m, m1, m2, l);
      KeptTrans(m, m2, PushFront(m, list, f), l);
    }
  }

  lemma UnlinkStep(m: Words, l: Layout, list: seq<nat>, out: set<nat>, brk: nat, first: nat, last: nat, head: nat,
                   i: nat, clear: bool)
    requires HeapOk(m, l, list, out, brk, first, last, head) && i < |list|
    ensures forall j :: 0 <= j < |list| ==> list[j] + 2 < |m| && list[j] != 0
    ensures m[list[i] + 2] == NextOf(list, i) && (i > 0 ==> m[list[i] + 1] == list[i - 1])
    ensures (i == 0 <==> list[i] == head)
    ensures i > 0 ==> list[i - 1] + 4 <= list[i] || list[i] + 4 <= list[i - 1]
    ensures var m' := Unlink(m, list, i, clear); var list' := Without(list, i);
            HeapOk(m', l, list', out + {list[i]}, brk, first, last, if i == 0 then NextOf(list, 0) else head)
                && Kept(m, m', l)
  {
    hide Tiled, Tagged, Ends, Kept;
    ChainAt(m, list, i);
    Different(m, l, brk, list, out, i - 1, i);
    UnlinkChain(m, l, brk, list, out, i, clear);
    WithoutMembers(l, list, out, i);
    UnlinkKept(m, l, brk, list, out, i, clear);
    forall j | 0 <= j < |list| ensures list[j] != 0 { NodePositive(l, brk, list, out, j); }
  }

  lemma UnlinkKept(m: Words, l: Layout, brk: nat, list: seq<nat>, out: set<nat>, i: nat, clear: bool)
    requires Tiled(l, brk) && Tagged(m, l) && Members(l, list, out) && i < |list|
    requires forall j :: 0 <= j < |list| ==> list[j] + 2 < |m|
    ensures Tagged(Unlink(m, list, i, clear), l) && Kept(m, Unlink(m, list, i, clear), l)
  {
    hide Tiled, Tagged, Kept, Payload;
    var right := NextOf(list, i);
    KeptRefl(m, l);
    if i + 1 < |list| { assert FreeBlock(l, out, list[i + 1]); }
    if i == 0 {
      if clear && right != 0 { LinkWrite(m, l, brk, right, right + 1, 0); }
    } else {
      assert FreeBlock(l, out, list[i - 1]);
      LinkWrite(m, l, brk, list[i - 1], list[i - 1] + 2, right);
      var m1 := m[list[i - 1] + 2 := right];
      if right != 0 {
        LinkWrite(m1, l, brk, right, right + 1, list[i - 1]);
        KeptTrans(m, m1, m1[right + 1 := list[i - 1]], l);
      }
    }
  }

  /** A free block outside the list is allocated. */
  lemma AllocateStep(m: Words, l: Layout, list: seq<nat>, brk: nat, first: nat, last: nat, head: nat, b: nat)
    requires HeapOk(m, l, list, {b}, brk, first, last, head) && b in l && !l[b].used
    ensures 1 <= l[b].size <= |m| - b && m[b] == Tag(l[b])
    ensures var m' := WriteTag(m, b, l[b].size, true); var l' := SetUsed(l, b, true);
            HeapOk(m', l', list, {}, brk, first, last, head) && Kept(m, m', l) && OneMore(l, l', b)
            && (Spaced(l, {b}) ==> Spaced(l', {}))
  {
    hide Tiled, Tagged, Ends, Chain, Members, Kept, LinksKept, OneMore;
    SetUsedTagged(m, l, brk, b, true);
    SetUsedTiled(l, brk, first, last, b, true);
    ChainFrame(m, WriteTag(m, b, l[b].size, true), l, list, {b});
    NotListed(l, list, {b}, b);
    UsedMembers(l, list, {b}, {}, b, true);
    AllocateOneMore(l, b);
    UsedSpaced(l, b);
  }

  lemma NotListed(l: Layout, list: seq<nat>, out: set<nat>, b: nat)
    requires Members(l, list, out) && !FreeBlock(l, out, b)
    ensures b !in list
  {
    forall i | 0 <= i < |list| ensures list[i] != b { assert FreeBlock(l, out, list[i]); }
  }

  lemma UsedSpaced(l: Layout, b: nat)
    requires b in l && !l[b].used
    ensures Spaced(l, {b}) ==> Spaced(SetUsed(l, b, true), {})
  {
  }

  lemma UsedMembers(l: Layout, list: seq<nat>, out: set<nat>, out': set<nat>, b: nat, used: bool)
    requires b in l && Members(l, list, out) && b !in list
    requires if used then out == out' + {b} else out' == out + {b}
    ensures Members(SetUsed(l, b, used), list, out')
  {
    var l' := SetUsed(l, b, used);
    forall i | 0 <= i < |list| ensures FreeBlock(l', out', list[i]) { assert FreeBlock(l, out, list[i]); }
    forall a | FreeBlock(l', out', a) ensures a in list { assert FreeBlock(l, out, a); }
  }

  /** An allocated block is freed, but not yet in the list. */
  lemma ReleaseStep(m: Words, l: Layout, list: seq<nat>, brk: nat, first: nat, last: nat, head: nat, b: nat)
    requires HeapOk(m, l, list, {}, brk, first, last, head) && b in l && l[b].used && Spaced(l, {})
    ensures 1 <= l[b].size <= |m| - b && m[b] == Tag(l[b])
    ensures var m' := WriteTag(m, b, l[b].size, false); var l' := SetUsed(l, b, false);
            HeapOk(m', l', list, {b}, brk, first, last, head) && Kept(m, m', l) && OneMore(l', l, b) && Spaced(l', {b})
  {
    hide Tiled, Tagged, Ends, Chain, Kept, LinksKept, OneMore;
    SetUsedTagged(m, l, brk, b, false);
    SetUsedTiled(l, brk, first, last, b, false);
    ChainFrame(m, WriteTag(m, b, l[b].size, false), l, list, {});
    NotListed(l, list, {}, b);
    UsedMembers(l, list, {}, {b}, b, false);
    FreeOneLess(l, b);
  }

  lemma AppendStep(m: Words, l: Layout, list: seq<nat>, brk: nat, first: nat, last: nat, head: nat, size: nat)
    requires HeapOk(m, l, list, {}, brk, first, last, head) && Spaced(l, {}) && size % 2 == 0 && 4 <= size
    requires brk + size <= |m|
    ensures (first == 0 <==> brk == 1) && (first != 0 ==> first == 1)
    ensures var m' := WriteTag(m, brk, size, true); var l' := Append(l, brk, last, size);
            HeapOk(m', l', list, {}, brk + size, 1, brk, head) && Spaced(l', {}) && Kept(m, m', l)
                && OneMore(l, l', brk)
  {
    hide Tiled, Tagged, Chain, Members, Kept, LinksKept, OneMore, Spaced;
    AppendTagged(m, l, brk, first, last, size);
    AppendTiled(l, brk, first, last, size);
    AppendSpaced(l, brk, first, last, size);
    ChainFrame(m, WriteTag(m, brk, size, true), l, list, {});
    AppendMembers(l, brk, first, last, list, size);
    AppendOneMore(l, brk, first, last, size);
  }

  lemma AppendMembers(l: Layout, brk: nat, first: nat, last: nat, list: seq<nat>, size: nat)
    requires Tiled(l, brk) && Ends(l, brk, first, last) && Members(l, list, {})
    ensures Members(Append(l, brk, last, size), list, {})
  {
    hide Tiled;
    AppendNew(l, brk, first, last);
    var l' := Append(l, brk, last, size);
    forall i | 0 <= i < |list| ensures FreeBlock(l', {}, list[i]) { assert FreeBlock(l, {}, list[i]); }
    forall a | FreeBlock(l', {}, a) ensures a in list { assert FreeBlock(l, {}, a); }
  }

  /** A client's write inside a payload. */
  lemma ClientStep(m: Words, m': Words, l: Layout, list: seq<nat>, brk: nat, first: nat, last: nat, head: nat, b: nat)
    requires HeapOk(m, l, list, {}, brk, first, last, head) && b in l && l[b].used && WithinPayload(m, m', l, b)
    ensures HeapOk(m', l, list, {}, brk, first, last, head) && KeptBut(m, m', l, b)
  {
    hide Tiled, Tagged, Ends, Chain, Members, LinksKept, KeptBut;
    PayloadWrite(m, m', l, brk, b);
    ChainFrame(m, m', l, list, {});
  }

  // ---------- Neighbours ----------

  /** The word before a block is the footer of the block before it. */
  lemma LeftNeighbour(m: Words, l: Layout, list: seq<nat>, out: set<nat>, brk: nat, first: nat, last: nat, head: nat,
                      b: nat)
    requires HeapOk(m, l, list, out, brk, first, last, head) && b in l
    ensures b != first ==> 1 <= b <= |m| && m[b - 1] - m[b - 1] % 2 <= b
    ensures b != first ==> var p := b - (m[b - 1] - m[b - 1] % 2);
              p in l && p < b && p + l[p].size == b && 0 <= p < |m| && m[p] == Tag(l[p])
  {
    hide Tiled, Chain, Members, Tagged;
    At(l, brk, b);
    if b != first {
      var p := l[b].prev;
      At(l, brk, p);
      HasTag(m, l, p);
    }
  }

  lemma HasTag(m: Words, l: Layout, b: nat)
    requires Tagged(m, l) && b in l
    ensures TagAt(m, l, b)
  {
  }

  lemma TagParts(k: Block)
    requires k.size % 2 == 0
    ensures Tag(k) - Tag(k) % 2 == k.size && (Tag(k) % 2 == 1 <==> k.used)
  {
  }

  /** A block other than the last has a neighbour on the right. */
  lemma RightNeighbour(m: Words, l: Layout, list: seq<nat>, out: set<nat>, brk: nat, first: nat, last: nat, head: nat,
                       b: nat)
    requires HeapOk(m, l, list, out, brk, first, last, head) && b in l
    ensures b + l[b].size <= |m| && 4 <= l[b].size && l[b].size % 2 == 0 && m[b] == Tag(l[b]) && b != 0 && b % 2 == 1
    ensures b < last ==> var n := b + l[b].size; n in l && n < |m| && m[n] == Tag(l[n]) && l[n].size % 2 == 0
    ensures b >= last ==> b + l[b].size !in l
  {
    hide Tiled, Chain, Members, Tagged;
    At(l, brk, b);
    HasTag(m, l, b);
    At(l, brk, last);
    if b < last {
      Separate(l, brk, b, last);
      At(l, brk, b + l[b].size);
      HasTag(m, l, b + l[b].size);
    } else {
      if b != last { Separate(l, brk, b, last); }
      if b + l[b].size in l { At(l, brk, b + l[b].size); }
    }
  }

  // ---------- Spacing during coalescing ----------

  lemma MergeLeftSpaced(l: Layout, brk: nat, b: nat)
    requires Tiled(l, brk) && b in l && !l[b].used && Spaced(l, {b})
    requires l[b].prev in l && l[b].prev + l[l[b].prev].size == b && !l[l[b].prev].used
    ensures Spaced(Merge(l, l[b].prev), {l[b].prev})
    ensures LeftUsed(Merge(l, l[b].prev), l[b].prev)
  {
    hide Tiled, Spaced;
    var a := l[b].prev;
    var l' := Merge(l, a);
    MergeKeys(l, brk, a);
    At(l, brk, a);
    At(l, brk, b);
    forall c | c in l' && !l'[c].used && c !in {a} && c + l'[c].size in l' && c + l'[c].size !in {a}
      ensures l'[c + l'[c].size].used
    {
      NextUsed(l, {b}, c);
    }
    SpacedIntro(l', {a});
    forall c | c in l' && c + l'[c].size == a ensures l'[c].used {
      At(l, brk, c);
      if !l[c].used { NextUsed(l, {b}, c); }
    }
  }

  /** No free block ends where `a` begins. */
  ghost predicate LeftUsed(l: Layout, a: nat) { forall c :: c in l && c + l[c].size == a ==> l[c].used }

  lemma MergeRightSpaced(l: Layout, brk: nat, a: nat)
    requires Tiled(l, brk) && CanMerge(l, a) && !l[a].used && !l[a + l[a].size].used && Spaced(l, {a}) && LeftUsed(l, a)
    ensures Spaced(Merge(l, a), {})
  {
    hide Tiled, Spaced;
    var n := a + l[a].size;
    var l' := Merge(l, a);
    MergeKeys(l, brk, a);
    At(l, brk, a);
    At(l, brk, n);
    forall c | c in l' && !l'[c].used && c !in {} && c + l'[c].size in l' && c + l'[c].size !in {}
      ensures l'[c + l'[c].size].used
    {
      At(l, brk, c);
      if c == a { NextUsed(l, {a}, n); }
      else if c + l[c].size != a { NextUsed(l, {a}, c); }
    }
    SpacedIntro(l', {});
  }

  lemma AloneSpaced(l: Layout, a: nat)
    requires a in l && Spaced(l, {a}) && LeftUsed(l, a) && (a + l[a].size in l ==> l[a + l[a].size].used)
    ensures Spaced(l, {})
  {
  }
}

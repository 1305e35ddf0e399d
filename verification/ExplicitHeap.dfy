/** The allocator with an explicit free list: boundary tags, last-in first-out list, splitting, and coalescing on free.
    */
module ExplicitHeap {
  import opened Common
  import opened HeapBytes
  import opened HeapLayout
  import opened HeapMemory
  import opened HeapUse
  import opened HeapState

  const MIN_BLOCK: nat := 4

  /** The words of the block for a request in bytes: header, footer and payload, rounded up to 16 bytes. */
  function BlockWords(size: nat): (w: nat)
    ensures w % 2 == 0 && size + 16 <= 8 * w < size + 32 && (size >= 1 ==> w >= MIN_BLOCK)
  {
    (size + 16 + 15) / 16 * 2
  }

  /** What `find_fit` does to the block it takes: the rest of a large block becomes a block of its own. */
  ghost function Trimmed(l: Layout, b: nat, size: nat): Layout
    requires b in l
  {
    if l[b].size >= size + MIN_BLOCK then Split(l, b, size) else l
  }

  /** What taking the block at `i` does to the list: the rest of a large block is listed in front. */
  ghost function Taken(l: Layout, list: seq<nat>, i: nat, size: nat): seq<nat>
    requires i < |list| && list[i] in l
  {
    (if l[list[i]].size >= size + 4 then [list[i] + size] else []) + Minus(list, list[i])
  }

  /** Is there a free block right before this one? */
  ghost predicate LeftFree(l: Layout, b: nat)
    requires b in l
  {
    l[b].prev in l && !l[l[b].prev].used
  }

  /** The list without the block after this one, if that is free. */
  ghost function RightOut(l: Layout, list: seq<nat>, b: nat): seq<nat>
    requires b in l
  {
    var n := b + l[b].size;
    if n in l && !l[n].used then Minus(list, n) else list
  }

  /** What freeing a block does to the list. A free block after it is merged, and leaves the list. A free block before
      it takes it in, and stays where it is; otherwise the block is listed in front. */
  ghost function Freed(l: Layout, list: seq<nat>, b: nat): seq<nat>
    requires b in l
  {
    (if LeftFree(l, b) then [] else [b]) + RightOut(l, list, b)
  }

  /** Is this the first block of the list that is large enough? */
  ghost predicate FirstFit(l: Layout, list: seq<nat>, i: nat, size: nat) {
    && i < |list| && list[i] in l && l[list[i]].size >= size
    && forall j :: 0 <= j < i ==> list[j] in l && l[list[j]].size < size
  }

  /** The block before this one takes it in, if it is free. */
  ghost function MergedLeft(l: Layout, b: nat): Layout
    requires b in l
  {
    if LeftFree(l, b) && l[b].prev + l[l[b].prev].size == b then Merge(l, l[b].prev) else l
  }

  /** A block takes in the one after it, if that is free. */
  ghost function MergedRight(l: Layout, b: nat): Layout {
    if b in l && b + l[b].size in l && !l[b + l[b].size].used then Merge(l, b) else l
  }

  /** What freeing a block does to the blocks. */
  ghost function Coalesced(l: Layout, b: nat): Layout
    requires b in l
  {
    MergedRight(MergedLeft(l, b), if LeftFree(l, b) then l[b].prev else b)
  }

  /** What `mm_malloc` does when it answers a block: the first fit is taken out of the list, or the heap grows. */
  ghost predicate Granted(l: Layout, list: seq<nat>, brk: nat, l': Layout, list': seq<nat>, brk': nat, b: nat,
                          size: nat)
  {
    if brk' == brk then
      && (exists i: nat :: FirstFit(l, list, i, size) && list[i] == b && list' == Taken(l, list, i, size))
      && b in l && b in Trimmed(l, b, size) && l' == SetUsed(Trimmed(l, b, size), b, true)
    else NoneFits(l, size) && b == brk && brk' == brk + size && list' == list && Grown(l, l', b, size)
  }

  /** What `mm_free` does. */
  ghost predicate Released(l: Layout, list: seq<nat>, l': Layout, list': seq<nat>, b: nat) {
    b in l && list' == Freed(l, list, b) && l' == Coalesced(SetUsed(l, b, false), b)
  }

  /** What `mm_realloc` does when it moves a block: first the new one is granted, then the old one is released. */
  ghost predicate Regranted(l: Layout, list: seq<nat>, brk: nat, l': Layout, list': seq<nat>, brk': nat, b: nat,
                            b': nat, size: nat)
  {
    exists l1, list1 :: Granted(l, list, brk, l1, list1, brk', b', size) && Released(l1, list1, l', list', b)
  }

  lemma Index(list: seq<nat>, f: nat) returns (i: nat)
    requires f in list
    ensures i < |list| && list[i] == f
  {
    i :| 0 <= i < |list| && list[i] == f;
  }

  class ExplicitHeap {
    const mem: array<nat>
    var brk: nat
    var first: nat
    var last: nat
    var freeFirst: nat
    ghost var layout: Layout
    ghost var list: seq<nat>

    /** The invariant, but for free blocks in `out` that are not listed. */
    ghost predicate Consistent(out: set<nat>)
      reads this, mem
    {
      mem.Length == MAX_HEAP && HeapOk(mem[..], layout, list, out, brk, first, last, freeFirst)
    }

    /** The invariant of every run. */
    ghost predicate Valid()
      reads this, mem
    {
      Consistent({}) && Spaced(layout, {})
    }

    /** `mm_init`, on a heap that holds garbage. */
    constructor ()
      ensures Valid() && layout == map[] && fresh(mem)
    {
      mem := new nat[MAX_HEAP];
      brk, first, last, freeFirst := 1, 0, 0, 0;
      layout, list := map[], [];
    }

    /** `mem_sbrk`: it refuses to shrink the heap. */
    method Sbrk(words: int) returns (ok: bool, start: nat)
      modifies `brk
      ensures ok <==> 0 <= words && old(brk) + words <= MAX_HEAP
      ensures start == old(brk) && brk == if ok then old(brk) + words else old(brk)
    {
      start := brk;
      ok := words >= 0 && brk + words <= MAX_HEAP;
      if ok { brk := brk + words; }
    }

    method SetHeader(b: nat, size: nat, used: bool)
      requires 1 <= size && b + size <= mem.Length
      modifies mem
      ensures mem[..] == WriteTag(old(mem[..]), b, size, used)
    {
      var tag := size + if used then 1 else 0;
      mem[b] := tag;
      mem[b + size - 1] := tag;
    }

    method AddFreeNode(f: nat, ghost out: set<nat>)
      requires Consistent(out) && f in out && f in layout && !layout[f].used
      modifies mem, `freeFirst, `list
      ensures Consistent(out - {f}) && Kept(old(mem[..]), mem[..], layout)
      ensures list == [f] + old(list)
    {
      hide HeapOk, Kept;
      PushStep(mem[..], layout, list, out, brk, first, last, freeFirst, f);
      HeadIs(mem[..], layout, list, out, brk, first, last, freeFirst);
      ghost var m := mem[..];
      if freeFirst == 0 {
        freeFirst := f;
        mem[f + 1] := 0;
        mem[f + 2] := 0;
      } else {
        mem[f + 2] := freeFirst;
        mem[freeFirst + 1] := f;
        freeFirst := f;
        mem[f + 1] := 0;
      }
      assert mem[..] == PushFront(m, list, f);
      list := [f] + list;
    }

    method RemoveFreeNode(f: nat, ghost i: nat, ghost out: set<nat>)
      requires Consistent(out) && i < |list| && list[i] == f
      modifies mem, `freeFirst, `list
      ensures Consistent(out + {f}) && Kept(old(mem[..]), mem[..], layout)
      ensures list == Without(old(list), i)
    {
      hide HeapOk, Kept;
      UnlinkStep(mem[..], layout, list, out, brk, first, last, freeFirst, i, true);
      ghost var m := mem[..];
      if f == freeFirst {
        freeFirst := mem[freeFirst + 2];
        if freeFirst != 0 { mem[freeFirst + 1] := 0; }
      } else {
        if mem[f + 1] != 0 { mem[mem[f + 1] + 2] := mem[f + 2]; }
        if mem[f + 2] != 0 { mem[mem[f + 2] + 1] := mem[f + 1]; }
      }
      assert mem[..] == Unlink(m, list, i, true);
      list := Without(list, i);
    }

    /** `find_fit`: takes the first block of the list that is large enough, splitting it when the rest can be a block,
        and leaves it free but out of the list. */
    method FindFit(size: nat) returns (block: nat, ghost at: nat)
      requires Valid() && size % 2 == 0 && size >= MIN_BLOCK
      modifies mem, `last, `freeFirst, `layout, `list
      ensures block == 0 ==>
              Valid() && mem[..] == old(mem[..]) && layout == old(layout) && list == old(list) && NoneFits(layout, size)
      ensures block != 0 ==> Consistent({block}) && Spaced(layout, {block}) && block in layout && !layout[block].used
      ensures block != 0 ==> FirstFit(old(layout), old(list), at, size) && old(list)[at] == block
                             && layout == Trimmed(old(layout), block, size)
                             && list == Taken(old(layout), old(list), at, size)
      ensures SameUsed(old(layout), layout) && Kept(old(mem[..]), mem[..], old(layout))
    {
      hide HeapOk, Kept, Spaced, SameUsed;
      SameUsedRefl(layout);
      KeptRefl(mem[..], layout);
      HeadIs(mem[..], layout, list, {}, brk, first, last, freeFirst);
      var curr := freeFirst;
      ghost var i := 0;
      while curr != 0
        invariant 0 <= i <= |list| && curr == (if i < |list| then list[i] else 0)
        invariant mem[..] == old(mem[..]) && layout == old(layout) && list == old(list) && Valid() && last == old(last)
        invariant forall j :: 0 <= j < i ==> list[j] in layout && layout[list[j]].size < size
        decreases |list| - i
      {
        Listed(mem[..], layout, list, {}, brk, first, last, freeFirst, i);
        TagParts(layout[curr]);
        if SizeOf(mem[curr]) >= size {
          TakeFit(curr, size, i);
          return curr, i;
        }
        curr := mem[curr + 2];
        i := i + 1;
      }
      if i < |list| { Listed(mem[..], layout, list, {}, brk, first, last, freeFirst, i); }
      NothingFits(size);
      return 0, 0;
    }

    lemma NothingFits(size: nat)
      requires Valid() && forall j :: 0 <= j < |list| ==> list[j] in layout && layout[list[j]].size < size
      ensures NoneFits(layout, size)
    {
      forall b | b in layout && !layout[b].used ensures layout[b].size < size {
        assert FreeBlock(layout, {}, b);
      }
    }

    /** The body of the loop in `find_fit`, for the block that fits. */
    method TakeFit(curr: nat, size: nat, ghost i: nat)
      requires Valid() && size % 2 == 0 && size >= MIN_BLOCK
      requires i < |list| && list[i] == curr && curr in layout && layout[curr].size >= size
      modifies mem, `last, `freeFirst, `layout, `list
      ensures Consistent({curr}) && Spaced(layout, {curr}) && curr in layout && !layout[curr].used
      ensures layout == Trimmed(old(layout), curr, size) && list == Taken(old(layout), old(list), i, size)
      ensures SameUsed(old(layout), layout) && Kept(old(mem[..]), mem[..], old(layout))
    {
      hide HeapOk, Kept, Spaced, SameUsed;
      Listed(mem[..], layout, list, {}, brk, first, last, freeFirst, i);
      TagParts(layout[curr]);
      var total := SizeOf(mem[curr]);
      ListDistinct(layout, list, {}) by { HeapMembers(mem[..], layout, list, {}, brk, first, last, freeFirst); }
      MinusWithout(list, i);
      if total - size >= MIN_BLOCK {
        SplitFit(curr, size, total, i);
      } else {
        SameUsedRefl(layout);
        UnlinkFit(curr, i);
        assert {} + {curr} == {curr};
        SpacedMore(layout, curr);
      }
    }

    method SplitFit(curr: nat, size: nat, total: nat, ghost i: nat)
      requires Valid() && CanSplit(layout, curr, size) && size >= MIN_BLOCK
      requires total == layout[curr].size >= size + MIN_BLOCK
      requires i < |list| && list[i] == curr && !layout[curr].used
      modifies mem, `last, `freeFirst, `layout, `list
      ensures Consistent({curr}) && Spaced(layout, {curr}) && curr in layout && !layout[curr].used
      ensures layout == Split(old(layout), curr, size) && list == [curr + size] + Without(old(list), i)
      ensures SameUsed(old(layout), layout) && Kept(old(mem[..]), mem[..], old(layout))
    {
      hide HeapOk, Kept, Spaced, SameUsed, Split;
      ghost var m, l := mem[..], layout;
      SplitStep(m, l, list, brk, first, last, freeFirst, curr, size);
      SplitSpaced(l, brk, curr, size) by { HeapTiled(m, l, list, {}, brk, first, last, freeFirst); }
      SplitParts(l, brk, curr, size) by { HeapTiled(m, l, list, {}, brk, first, last, freeFirst); }
      SetHeader(curr, size, false);
      var next := curr + size;
      SetHeader(next, total - size, false);
      layout := Split(l, curr, size);
      if next > last { last := next; }
      ghost var m1 := mem[..];
      RemoveFreeNode(curr, i, {next});
      ghost var m2 := mem[..];
      assert {next} + {curr} == {next, curr} && {next, curr} - {next} == {curr};
      AddFreeNode(next, {next, curr});
      KeptTrans(m1, m2, mem[..], layout);
      KeptAcross(m, m1, mem[..], l, layout);
    }

    /** Without a rest, `find_fit` unlinks the block itself; the new head keeps its left link. */
    method UnlinkFit(curr: nat, ghost i: nat)
      requires Consistent({}) && i < |list| && list[i] == curr
      modifies mem, `freeFirst, `list
      ensures Consistent({} + {curr}) && Kept(old(mem[..]), mem[..], layout)
      ensures list == Without(old(list), i)
    {
      hide HeapOk, Kept;
      UnlinkStep(mem[..], layout, list, {}, brk, first, last, freeFirst, i, false);
      ghost var m := mem[..];
      if curr == freeFirst {
        freeFirst := mem[curr + 2];
      } else {
        mem[mem[curr + 1] + 2] := mem[curr + 2];
        if mem[curr + 2] != 0 { mem[mem[curr + 2] + 1] := mem[curr + 1]; }
      }
      assert mem[..] == Unlink(m, list, i, false);
      list := Without(list, i);
    }

    /** `coalesce`: merge a free block with its free neighbours, and list the result. */
    method Coalesce(block: nat)
      requires Consistent({block}) && Spaced(layout, {block}) && block in layout && !layout[block].used
      modifies mem, `last, `freeFirst, `layout, `list
      ensures Valid() && SameUsed(old(layout), layout) && Kept(old(mem[..]), mem[..], old(layout))
      ensures list == Freed(old(layout), old(list), block) && layout == Coalesced(old(layout), block)
    {
      hide HeapOk, Kept, Spaced, SameUsed, LeftUsed, Merge, RightOut, LeftFree, MergedLeft, MergedRight;
      ghost var m, l := mem[..], layout;
      var cur, listed := CoalesceLeft(block);
      ghost var m1, l1 := mem[..], layout;
      CoalesceRight(cur, listed);
      KeptAcross(m, m1, mem[..], l, l1);
      SameUsedTrans(l, l1, layout);
      ghost var m2, l2 := mem[..], layout;
      if !listed {
        AddFreeNode(cur, {cur});
        assert {cur} - {cur} == {};
        KeptAcross(m1, m2, mem[..], l1, l2);
        KeptAcross(m, m1, mem[..], l, l1);
      }
    }

    method CoalesceLeft(block: nat) returns (cur: nat, listed: bool)
      requires Consistent({block}) && Spaced(layout, {block}) && block in layout && !layout[block].used
      modifies mem, `last, `layout
      ensures Consistent(if listed then {} else {cur}) && Spaced(layout, {cur}) && LeftUsed(layout, cur)
      ensures cur in layout && !layout[cur].used
      ensures listed <==> old(LeftFree(layout, block))
      ensures RightOut(layout, list, cur) == old(RightOut(layout, list, block))
      ensures cur == (if listed then old(layout)[block].prev else block) && layout == old(MergedLeft(layout, block))
      ensures SameUsed(old(layout), layout) && Kept(old(mem[..]), mem[..], old(layout))
    {
      hide HeapOk, Kept, Spaced, SameUsed, Merge, LeftUsed;
      cur, listed := block, false;
      ghost var m, l := mem[..], layout;
      SameUsedRefl(l);
      KeptRefl(m, l);
      LeftNeighbour(m, l, list, {block}, brk, first, last, freeFirst, block);
      RightNeighbour(m, l, list, {block}, brk, first, last, freeFirst, block);
      HeapTiled(m, l, list, {block}, brk, first, last, freeFirst);
      if block != first {
        var left := block - SizeOf(mem[block - 1]);
        TagsEven(l, brk, left);
        TagParts(l[left]);
        TagParts(l[block]);
        if !IsAllocated(mem[left]) {
          MergeStep(m, l, list, {block}, brk, first, last, freeFirst, left);
          PrevIs(l, brk, left, block);
          RightAfterMerge(l, brk, list, left);
          MergeLeftSpaced(l, brk, block);
          MergedFree(l, left);
          SetHeader(left, SizeOf(mem[left]) + SizeOf(mem[block]), false);
          if block == last { last := left; }
          layout := Merge(l, left);
          assert {block} - {block} == {};
          return left, true;
        }
        LeftIs(l, brk, left, block);
        PrevIs(l, brk, left, block);
      } else {
        FirstAlone(l, brk, first, last, block);
      }
    }

    method CoalesceRight(cur: nat, listed: bool)
      requires Consistent(if listed then {} else {cur}) && Spaced(layout, {cur}) && LeftUsed(layout, cur)
      requires cur in layout && !layout[cur].used
      modifies mem, `last, `freeFirst, `layout, `list
      ensures Consistent(if listed then {} else {cur}) && Spaced(layout, {}) && cur in layout && !layout[cur].used
      ensures list == old(RightOut(layout, list, cur)) && layout == old(MergedRight(layout, cur))
      ensures SameUsed(old(layout), layout) && Kept(old(mem[..]), mem[..], old(layout))
    {
      hide HeapOk, Kept, Spaced, SameUsed, LeftUsed, Merge;
      ghost var out := if listed then {} else {cur};
      ghost var m, l := mem[..], layout;
      SameUsedRefl(l);
      KeptRefl(m, l);
      RightNeighbour(m, l, list, out, brk, first, last, freeFirst, cur);
      TagParts(l[cur]);
      if cur < last {
        var right := cur + SizeOf(mem[cur]);
        TagParts(l[right]);
        if !IsAllocated(mem[right]) {
          MergeRight(cur, right, out);
          return;
        }
      }
      AloneSpaced(l, cur);
    }

    method MergeRight(cur: nat, right: nat, ghost out: set<nat>)
      requires Consistent(out) && Spaced(layout, {cur}) && LeftUsed(layout, cur) && out <= {cur}
      requires cur in layout && !layout[cur].used && right == cur + layout[cur].size && right in layout
      requires !layout[right].used
      modifies mem, `last, `freeFirst, `layout, `list
      ensures Consistent(out) && Spaced(layout, {}) && cur in layout && !layout[cur].used
      ensures list == Minus(old(list), right) && layout == old(Merge(layout, cur))
      ensures SameUsed(old(layout), layout) && Kept(old(mem[..]), mem[..], old(layout))
    {
      hide HeapOk, Kept, Spaced, SameUsed, LeftUsed, Merge;
      ghost var m, l := mem[..], layout;
      HeapTiled(m, l, list, out, brk, first, last, freeFirst);
      SizesEven(l, brk, cur, right);
      ghost var i := ListedAt(m, l, list, out, brk, first, last, freeFirst, right);
      ListDistinct(l, list, out) by { HeapMembers(m, l, list, out, brk, first, last, freeFirst); }
      MinusWithout(list, i);
      RemoveFreeNode(right, i, out);
      ghost var m1 := mem[..];
      MergeStep(m1, l, list, out + {right}, brk, first, last, freeFirst, cur);
      MergeRightSpaced(l, brk, cur);
      MergedFree(l, cur);
      TagsOf(m1, l, list, out + {right}, brk, first, last, freeFirst, cur, right);
      SetHeader(cur, SizeOf(mem[cur]) + SizeOf(mem[right]), false);
      if right == last { last := cur; }
      layout := Merge(l, cur);
      assert out + {right} - {right} == out;
      KeptTrans(m, m1, mem[..], l);
    }

    lemma Tiles()
      requires Valid()
      ensures Tiled(layout, brk)
    {
    }

    /** Is this the payload of an allocated block? */
    ghost predicate Live(ptr: nat)
      reads this
    {
      ptr >= 1 && ptr - 1 in layout && layout[ptr - 1].used
    }

    /** `mm_malloc`. A block that fits is taken from the list, the first one; otherwise the heap grows; when it cannot,
        the result is NULL and nothing has changed. The payloads of the other allocated blocks are as they were. */
    method Malloc(size: nat) returns (ptr: nat)
      requires Valid() && size >= 1
      modifies this, mem
      ensures Valid() && Kept(old(mem[..]), mem[..], old(layout))
      ensures ptr == 0 ==> mem[..] == old(mem[..]) && layout == old(layout) && list == old(list) && brk == old(brk)
      ensures ptr == 0 <==> old(Full(layout, brk, BlockWords(size)))
      ensures ptr != 0 ==> ptr % 2 == 0 && OneMore(old(layout), layout, ptr - 1)
      ensures ptr != 0 ==> BlockWords(size) <= layout[ptr - 1].size < BlockWords(size) + MIN_BLOCK
      ensures ptr != 0 ==>
                Granted(old(layout), old(list), old(brk), layout, list, brk, ptr - 1, BlockWords(size))
      ensures ptr != 0 && layout[ptr - 1].size != BlockWords(size) ==>
                && brk == old(brk) && ptr - 1 in old(layout) && old(layout)[ptr - 1].size == layout[ptr - 1].size
                && layout[ptr - 1].size < BlockWords(size) + 4
    {
      hide HeapOk, Kept, Spaced, SameUsed, OneMore, Trimmed, Append, Tiled, Full, Taken;
      ghost var m, l := mem[..], layout;
      var words := BlockWords(size);
      FullWhenSpaced(l, brk, words) by { HeapTiled(m, l, list, {}, brk, first, last, freeFirst); }
      var block, at := FindFit(words);
      if block != 0 {
        FitSize(l, brk, block,
            words) by { HeapTiled(m, l, old(list), {}, old(brk), old(first), old(last), old(freeFirst)); }
        Allocate(block, m, l);
        assert FirstFit(l, old(list), at, words);
        Listed(m, l, old(list), {}, old(brk), old(first), old(last), old(freeFirst), at);
        return block + 1;
      }
      var ok, start := Sbrk(words);
      if !ok { return 0; }
      AppendStep(mem[..], layout, list, start, first, last, freeFirst, words);
      AppendGrown(layout, start, last, words);
      AppendOdd(layout, start, first, last,
          words) by { HeapTiled(mem[..], layout, list, {}, start, first, last, freeFirst); }
      if first == 0 { first := start; }
      layout := Append(layout, start, last, words);
      last := start;
      SetHeader(start, words, true);
      return start + 1;
    }

    /** The end of `mm_malloc` for a block from the list. */
    method Allocate(block: nat, ghost m: Words, ghost l: Layout)
      requires Consistent({block}) && Spaced(layout, {block}) && block in layout && !layout[block].used
      requires SameUsed(l, layout) && Kept(m, mem[..], l)
      modifies mem, `layout
      ensures Valid() && Kept(m, mem[..], l) && OneMore(l, layout, block) && block % 2 == 1
      ensures layout == SetUsed(old(layout), block, true)
    {
      hide HeapOk, Kept, Spaced, SameUsed, OneMore;
      AllocateStep(mem[..], layout, list, brk, first, last, freeFirst, block);
      RightNeighbour(mem[..], layout, list, {block}, brk, first, last, freeFirst, block);
      TagParts(layout[block]);
      ghost var m1, l1 := mem[..], layout;
      SetHeader(block, SizeOf(mem[block]), true);
      layout := SetUsed(layout, block, true);
      KeptAcross(m, m1, mem[..], l, l1);
      OneMoreAfter(l, l1, layout, block);
    }

    /** `mm_free`. */
    method Free(ptr: nat)
      requires Valid() && (ptr == 0 || Live(ptr))
      modifies mem, `last, `freeFirst, `layout, `list
      ensures Valid()
      ensures ptr == 0 ==> mem[..] == old(mem[..]) && layout == old(layout) && list == old(list)
      ensures ptr != 0 ==> OneMore(layout, old(layout), ptr - 1) && KeptBut(old(mem[..]), mem[..], old(layout), ptr - 1)
      ensures ptr != 0 ==> list == Freed(old(layout), old(list), ptr - 1)
      ensures ptr != 0 ==> layout == Coalesced(SetUsed(old(layout), ptr - 1, false), ptr - 1)
    {
      hide HeapOk, Kept, KeptBut, Spaced, SameUsed, OneMore, Freed, Coalesced;
      if ptr == 0 { return; }
      var block := ptr - 1;
      ghost var m, l := mem[..], layout;
      ReleaseStep(m, l, list, brk, first, last, freeFirst, block);
      RightNeighbour(m, l, list, {}, brk, first, last, freeFirst, block);
      TagParts(l[block]);
      SetHeader(block, SizeOf(mem[block]), false);
      layout := SetUsed(layout, block, false);
      ghost var m1, l1 := mem[..], layout;
      FreedAlike(l, list, brk, block) by { HeapTiled(m, l, list, {}, brk, first, last, freeFirst); }
      Coalesce(block);
      KeptAfterFree(m, m1, mem[..], l, l1, block);
      OneMoreAfter(l, l1, layout, block);
    }

    /** `mm_realloc`: the payload of the block, as far as both sizes reach, is in the result; a block that is large
        enough is not moved; NULL means that there was no room, and nothing has changed. */
    method Realloc(oldPtr: nat, size: nat) returns (ptr: nat)
      requires Valid() && (if oldPtr == 0 then size >= 1 else Live(oldPtr))
      modifies this, mem
      ensures Valid()
      ensures oldPtr == 0 && ptr != 0 ==>
              OneMore(old(layout), layout, ptr - 1) && Kept(old(mem[..]), mem[..], old(layout))
      ensures oldPtr != 0 && size == 0 ==>
                ptr == 0 && OneMore(layout, old(layout), oldPtr - 1)
                    && KeptBut(old(mem[..]), mem[..], old(layout), oldPtr - 1)
      ensures (ptr == 0 && size != 0) || (oldPtr != 0 && ptr == oldPtr) ==>
                mem[..] == old(mem[..]) && layout == old(layout) && list == old(list) && brk == old(brk)
      ensures size != 0 && oldPtr != 0 ==> (ptr == oldPtr <==> old(layout[oldPtr - 1].size) >= BlockWords(size))
      ensures size != 0 && (oldPtr == 0 || ptr != oldPtr) ==> (ptr == 0 <==> old(Full(layout, brk, BlockWords(size))))
      ensures ptr != 0 ==> Live(ptr) && layout[ptr - 1].size >= BlockWords(size)
      ensures oldPtr != 0 && ptr != 0 && ptr != oldPtr ==>
              && Moved(old(mem[..]), mem[..], old(layout), layout, oldPtr - 1, ptr - 1)
              && Regranted(old(layout), old(list), old(brk), layout, list, brk, oldPtr - 1, ptr - 1, BlockWords(size))
      ensures oldPtr == 0 && ptr != 0 ==>
                Granted(old(layout), old(list), old(brk), layout, list, brk, ptr - 1, BlockWords(size))
      ensures oldPtr != 0 && size == 0 ==> Released(old(layout), old(list), layout, list, oldPtr - 1)
    {
      hide HeapOk, Kept, KeptBut, Spaced, SameUsed, Moved, Full, Granted, Freed, Coalesced, Regranted;
      if oldPtr == 0 {
        ptr := Malloc(size);
        return;
      }
      if size == 0 {
        Free(oldPtr);
        return 0;
      }
      var block := oldPtr - 1;
      RightNeighbour(mem[..], layout, list, {}, brk, first, last, freeFirst, block);
      TagParts(layout[block]);
      if SizeOf(mem[block]) >= BlockWords(size) {
        return oldPtr;
      }
      ptr := Move(oldPtr, size);
    }

    /** The end of `mm_realloc`: a larger block, with a copy of the payload. */
    method Move(oldPtr: nat, size: nat) returns (ptr: nat)
      requires Valid() && Live(oldPtr) && layout[oldPtr - 1].size < BlockWords(size) && size >= 1
      modifies this, mem
      ensures Valid() && ptr != oldPtr
      ensures ptr == 0 <==> old(Full(layout, brk, BlockWords(size)))
      ensures ptr == 0 ==> mem[..] == old(mem[..]) && layout == old(layout) && list == old(list) && brk == old(brk)
      ensures ptr != 0 ==> Live(ptr) && layout[ptr - 1].size >= BlockWords(size)
      ensures ptr != 0 ==> Moved(old(mem[..]), mem[..], old(layout), layout, oldPtr - 1, ptr - 1)
      ensures ptr != 0 ==>
                Regranted(old(layout), old(list), old(brk), layout, list, brk, oldPtr - 1, ptr - 1, BlockWords(size))
    {
      hide HeapOk, Kept, KeptBut, Spaced, SameUsed, Moved, OneMore, Full, Granted, Freed, Coalesced;
      ghost var m, l := mem[..], layout;
      ghost var ob, nb := oldPtr - 1, 0;
      ptr := Malloc(size);
      if ptr == 0 { return; }
      nb := ptr - 1;
      ghost var m1, l1, list1 := mem[..], layout, list;
      var block := oldPtr - 1;
      MoveRoom(m1, l, l1, list, brk, first, last, freeFirst, ob, nb);
      var n := SizeOf(mem[block]) - 2;
      CopyWords(mem, ptr, oldPtr, n);
      ghost var m2 := mem[..];
      CopiedWithin(m1, m2, l1, nb, ob, n);
      ClientStep(m1, m2, l1, list, brk, first, last, freeFirst, nb);
      Free(oldPtr);
      MovedBy(m, m1, m2, mem[..], l, l1, layout, ob, nb);
      StillLive(l, l1, layout, ob, nb);
      assert Granted(l, old(list), old(brk), l1, list1, brk, nb, BlockWords(size))
             && Released(l1, list1, layout, list, ob);
    }

    /** A client's store to a byte of its payload. */
    method WriteByte(ptr: nat, offset: nat, value: Byte)
      requires Valid() && Live(ptr) && offset / 8 + 2 < layout[ptr - 1].size
      modifies mem
      ensures Valid() && ptr + offset / 8 < mem.Length && KeptBut(old(mem[..]), mem[..], layout, ptr - 1)
      ensures mem[..] == ByteStored(old(mem[..]), ptr, offset, value)
    {
      hide HeapOk, Spaced, KeptBut, SetByte;
      ghost var m := mem[..];
      RightNeighbour(m, layout, list, {}, brk, first, last, freeFirst, ptr - 1);
      mem[ptr + offset / 8] := SetByte(mem[ptr + offset / 8], offset % 8, value);
      ClientStep(m, mem[..], layout, list, brk, first, last, freeFirst, ptr - 1);
    }

    /** `mm_checkheap`: it never finds a header that differs from its footer, or a free list of the wrong length. */
    method CheckHeap() returns (ok: bool)
      requires Valid()
      ensures ok
    {
      hide HeapOk, Spaced, Tiled, FreeBelow;
      HeapTiled(mem[..], layout, list, {}, brk, first, last, freeFirst);
      FirstBelow(layout, brk, first, last);
      var freeBlocks := 0;
      var curr := first;
      while last != 0 && curr <= last
        invariant if last == 0 then curr == first else if curr <= last then curr in layout else curr == brk
        invariant freeBlocks == |FreeBelow(layout, curr)|
        decreases last + 1 - curr
      {
        RightNeighbour(mem[..], layout, list, {}, brk, first, last, freeFirst, curr);
        FootersAgree(mem[..], layout, list, {}, brk, first, last, freeFirst, curr);
        TagParts(layout[curr]);
        StepBelow(layout, brk, first, last, curr);
        var size := SizeOf(mem[curr]);
        if mem[curr] != mem[curr + size - 1] { return false; }
        if !IsAllocated(mem[curr]) { freeBlocks := freeBlocks + 1; }
        curr := curr + size;
      }
      var length := 0;
      var node := freeFirst;
      HeadIs(mem[..], layout, list, {}, brk, first, last, freeFirst);
      while node != 0
        invariant 0 <= length <= |list| && node == (if length < |list| then list[length] else 0)
        decreases |list| - length
      {
        Listed(mem[..], layout, list, {}, brk, first, last, freeFirst, length);
        node := mem[node + 2];
        length := length + 1;
      }
      if length < |list| { Listed(mem[..], layout, list, {}, brk, first, last, freeFirst, length); }
      AllFree(mem[..], layout, list, brk, first, last, freeFirst, curr);
      return length == freeBlocks;
    }
  }

  // ---------- Last in, first out ----------

  /** A block that is freed between allocated ones is the first to be taken again. */
  method FreeThenMalloc(heap: ExplicitHeap, ptr: nat, size: nat) returns (again: nat)
    requires heap.Valid() && heap.Live(ptr) && size >= 1 && BlockWords(size) <= heap.layout[ptr - 1].size
    requires var b, n := ptr - 1, ptr - 1 + heap.layout[ptr - 1].size;
             !LeftFree(heap.layout, b) && (n in heap.layout ==> heap.layout[n].used)
    modifies heap, heap.mem
    ensures heap.Valid() && again == ptr
  {
    hide ExplicitHeap.Valid, ExplicitHeap.Consistent, Granted, Full, KeptBut, OneMore, NoneFits;
    ghost var l, list := heap.layout, heap.list;
    heap.Tiles();
    NotMerged(l, heap.brk, list, ptr - 1);
    heap.Free(ptr);
    heap.Tiles();
    FirstIsTaken(heap.layout, heap.list, heap.brk, BlockWords(size));
    again := heap.Malloc(size);
  }

  lemma NotMerged(l: Layout, brk: nat, list: seq<nat>, b: nat)
    requires Tiled(l, brk) && b in l && l[b].used && !LeftFree(l, b) && (b + l[b].size in l ==> l[b + l[b].size].used)
    ensures Freed(l, list, b) == [b] + list
    ensures Coalesced(SetUsed(l, b, false), b) == SetUsed(l, b, false)
  {
    hide Tiled;
    At(l, brk, b);
    if l[b].prev in l { At(l, brk, l[b].prev); }
  }

  /** When the head of the list is large enough, it is what `mm_malloc` takes. */
  lemma FirstIsTaken(l: Layout, list: seq<nat>, brk: nat, size: nat)
    requires Tiled(l, brk) && list != [] && list[0] in l && !l[list[0]].used && l[list[0]].size >= size
    ensures !Full(l, brk, size)
    ensures forall l', list', brk', b :: Granted(l, list, brk, l', list', brk', b, size) ==> b == list[0]
  {
    BlockIsRoom(l, brk, list[0], size);
  }

  // ---------- What operations do to payloads ----------

  /** The allocated block `b` was replaced by `b'`, which begins with its payload; other payloads are as they were. */
  ghost predicate Moved(m: Words, m': Words, l: Layout, l': Layout, b: nat, b': nat) {
    && b in l && l[b].used && b' in l' && l'[b'].used && b' != b && !(b' in l && l[b'].used)
    && (forall a :: a in l && l[a].used && a != b ==> a in l' && l'[a].used && l'[a].size == l[a].size)
    && (forall a :: a in l' && l'[a].used && a != b' ==> a != b && a in l && l[a].used)
    && KeptBut(m, m', l, b) && Payload(m, b, l[b].size) <= Payload(m', b', l'[b'].size)
  }

  lemma KeptAfterFree(m: Words, m1: Words, m2: Words, l: Layout, l1: Layout, b: nat)
    requires Kept(m, m1, l) && OneMore(l1, l, b) && Kept(m1, m2, l1)
    ensures KeptBut(m, m2, l, b)
  {
    hide Payload;
  }

  lemma FitSize(l: Layout, brk: nat, b: nat, size: nat)
    requires Tiled(l, brk) && b in l && l[b].size >= size && size % 2 == 0 && size >= MIN_BLOCK
    ensures b in Trimmed(l, b, size) && size <= Trimmed(l, b, size)[b].size < size + MIN_BLOCK
    ensures Trimmed(l, b, size)[b].size == if l[b].size < size + 4 then l[b].size else size
  {
    hide Tiled;
    if l[b].size >= size + MIN_BLOCK { SplitNew(l, brk, b, size); }
  }

  lemma AppendOdd(l: Layout, brk: nat, first: nat, last: nat, size: nat)
    requires Tiled(l, brk) && Ends(l, brk, first, last)
    ensures brk % 2 == 1 && brk in Append(l, brk, last, size)
    ensures Append(l, brk, last, size)[brk] == Block(size, true, last)
  {
    AppendNew(l, brk, first, last);
  }

  /** The two blocks of a move are apart, and the new one has room. */
  lemma MoveRoom(m: Words, l: Layout, l1: Layout, list: seq<nat>, brk: nat, first: nat, last: nat, head: nat, b: nat,
                 b': nat)
    requires HeapOk(m, l1, list, {}, brk, first, last, head) && OneMore(l, l1, b') && b in l && l[b].used
    requires l[b].size <= l1[b'].size
    ensures b in l1 && l1[b].used && l1[b].size == l[b].size && b' in l1 && l1[b'].used && b != b'
    ensures b < |m| && SizeOf(m[b]) == l[b].size >= 4
    ensures b + l1[b].size <= |m| && b' + l1[b'].size <= |m|
    ensures b + l1[b].size <= b' || b' + l1[b'].size <= b
  {
    hide Chain, Members, Tagged, Tiled;
    TagsOf(m, l1, list, {}, brk, first, last, head, b, b');
    HasTag(m, l1, b);
    HasTag(m, l1, b');
    SizesEven(l1, brk, b, b');
    Separate(l1, brk, b, b');
  }

  lemma CopiedWithin(m1: Words, m2: Words, l1: Layout, b': nat, b: nat, n: nat)
    requires |m1| == |m2| && b in l1 && b' in l1 && n + 2 == l1[b].size <= l1[b'].size
    requires b + l1[b].size <= |m1| && b' + l1[b'].size <= |m1|
    requires m2[b' + 1..b' + 1 + n] == m1[b + 1..b + 1 + n]
    requires forall k :: 0 <= k < |m1| && !(b' + 1 <= k < b' + 1 + n) ==> m2[k] == m1[k]
    ensures WithinPayload(m1, m2, l1, b') && Payload(m1, b, l1[b].size) <= Payload(m2, b', l1[b'].size)
  {
    var p, q := Payload(m1, b, l1[b].size), Payload(m2, b', l1[b'].size);
    forall i | 0 <= i < n ensures q[i] == p[i] {
      assert m2[b' + 1..b' + 1 + n][i] == m1[b + 1..b + 1 + n][i];
    }
  }

  lemma MovedBy(m: Words, m1: Words, m2: Words, m3: Words, l: Layout, l1: Layout, l3: Layout, b: nat, b': nat)
    requires b in l && l[b].used && OneMore(l, l1, b') && b' != b && OneMore(l3, l1, b)
    requires Kept(m, m1, l) && b' in l1 && KeptBut(m1, m2, l1, b') && KeptBut(m2, m3, l1, b)
    requires Payload(m1, b, l1[b].size) <= Payload(m2, b', l1[b'].size)
    ensures Moved(m, m3, l, l3, b, b')
  {
    hide Payload;
  }

  lemma StillLive(l: Layout, l1: Layout, l3: Layout, b: nat, b': nat)
    requires OneMore(l, l1, b') && b' != b && OneMore(l3, l1, b)
    ensures b' in l3 && l3[b'].used && b' in l1 && l3[b'].size == l1[b'].size
  {
  }

  // ---------- Counting free blocks ----------

  ghost function FreeBelow(l: Layout, x: nat): set<nat> { set b | b in l && !l[b].used && b < x }

  lemma FirstBelow(l: Layout, brk: nat, first: nat, last: nat)
    requires Tiled(l, brk) && Ends(l, brk, first, last)
    ensures |FreeBelow(l, first)| == 0 && (last != 0 ==> 1 in l && first == 1 <= last)
    ensures (last == 0 ==> brk == 1 && first == 0)
  {
    hide Tiled;
    if brk > 1 { At(l, brk, last); FirstThere(l, brk); }
    forall b | b in l ensures b >= first { At(l, brk, b); }
    assert FreeBelow(l, first) == {};
  }

  lemma StepBelow(l: Layout, brk: nat, first: nat, last: nat, b: nat)
    requires Tiled(l, brk) && Ends(l, brk, first, last) && b in l && b <= last
    ensures |FreeBelow(l, b + l[b].size)| == |FreeBelow(l, b)| + if l[b].used then 0 else 1
    ensures if b + l[b].size <= last then b + l[b].size in l else b + l[b].size == brk
  {
    hide Tiled;
    At(l, brk, b);
    At(l, brk, last);
    if b != last { Separate(l, brk, b, last); }
    forall c | c in l && c < b + l[b].size && c != b ensures c < b { Separate(l, brk, b, c); }
    assert FreeBelow(l, b + l[b].size) == FreeBelow(l, b) + if l[b].used then {} else {b};
  }

  lemma FootersAgree(m: Words, l: Layout, list: seq<nat>, out: set<nat>, brk: nat, first: nat, last: nat, head: nat,
                     b: nat)
    requires HeapOk(m, l, list, out, brk, first, last, head) && b in l
    ensures l[b].size >= 4 && b + l[b].size <= |m| && m[b] == Tag(l[b]) && m[b + l[b].size - 1] == m[b]
  {
    hide Tiled, Chain, Members;
    HasTag(m, l, b);
  }

  lemma AllFree(m: Words, l: Layout, list: seq<nat>, brk: nat, first: nat, last: nat, head: nat, curr: nat)
    requires HeapOk(m, l, list, {}, brk, first, last, head)
    requires last != 0 ==> curr == brk
    requires last == 0 ==> curr == first
    ensures |FreeBelow(l, curr)| == |list|
  {
    hide Tiled, Chain, Tagged;
    if brk > 1 { At(l, brk, last); }
    forall b | b in l ensures b < curr { At(l, brk, b); }
    forall b | b in FreeBelow(l, curr) ensures b in list { assert FreeBlock(l, {}, b); }
    forall i | 0 <= i < |list| ensures list[i] in FreeBelow(l, curr) { assert FreeBlock(l, {}, list[i]); }
    CountDistinct(list, FreeBelow(l, curr));
  }

  lemma {:induction false} CountDistinct(s: seq<nat>, x: set<nat>)
    requires Distinct(s) && (forall i :: 0 <= i < |s| ==> s[i] in x) && (forall b :: b in x ==> b in s)
    ensures |x| == |s|
  {
    if s == [] {
      assert x == {};
    } else {
      var rest := s[..|s| - 1];
      var b := s[|s| - 1];
      forall c | c in x - {b} ensures c in rest {
        var i :| 0 <= i < |s| && s[i] == c;
        assert rest[i] == c;
      }
      CountDistinct(rest, x - {b});
    }
  }

  // ---------- Facts the methods need ----------

  lemma HeadIs(m: Words, l: Layout, list: seq<nat>, out: set<nat>, brk: nat, first: nat, last: nat, head: nat)
    requires HeapOk(m, l, list, out, brk, first, last, head)
    ensures head == Head(list)
  {
  }

  lemma HeapTiled(m: Words, l: Layout, list: seq<nat>, out: set<nat>, brk: nat, first: nat, last: nat, head: nat)
    requires HeapOk(m, l, list, out, brk, first, last, head)
    ensures Tiled(l, brk) && Ends(l, brk, first, last)
  {
  }

  /** A listed block: its header, and the link to the next one. */
  lemma Listed(m: Words, l: Layout, list: seq<nat>, out: set<nat>, brk: nat, first: nat, last: nat, head: nat, i: nat)
    requires HeapOk(m, l, list, out, brk, first, last, head) && i < |list|
    ensures var b := list[i];
            && b in l && !l[b].used && b + 3 < |m| && m[b] == Tag(l[b]) && m[b + 2] == NextOf(list, i) && b != 0
            && l[b].size % 2 == 0
    ensures forall j :: 0 <= j < |list| ==> list[j] != 0
  {
    hide Tiled, Tagged, Chain;
    assert FreeBlock(l, out, list[i]);
    HasTag(m, l, list[i]);
    ChainAt(m, list, i);
    At(l, brk, list[i]);
    forall j | 0 <= j < |list| ensures list[j] != 0 { NodePositive(l, brk, list, out, j); }
  }

  lemma ListedAt(m: Words, l: Layout, list: seq<nat>, out: set<nat>, brk: nat, first: nat, last: nat, head: nat,
                 b: nat) returns (i: nat)
    requires HeapOk(m, l, list, out, brk, first, last, head) && FreeBlock(l, out, b)
    ensures i < |list| && list[i] == b
  {
    hide Tiled, Tagged, Chain;
    i := Index(list, b);
  }

  lemma HeapMembers(m: Words, l: Layout, list: seq<nat>, out: set<nat>, brk: nat, first: nat, last: nat, head: nat)
    requires HeapOk(m, l, list, out, brk, first, last, head)
    ensures Members(l, list, out)
  {
  }

  lemma ListDistinct(l: Layout, list: seq<nat>, out: set<nat>)
    requires Members(l, list, out)
    ensures Distinct(list)
  {
  }

  /** Merging a block with the one before it leaves the block after it where it is. */
  lemma RightAfterMerge(l: Layout, brk: nat, list: seq<nat>, a: nat)
    requires Tiled(l, brk) && CanMerge(l, a)
    ensures a in Merge(l, a) && RightOut(Merge(l, a), list, a) == RightOut(l, list, a + l[a].size)
  {
    hide Tiled;
    At(l, brk, a);
    At(l, brk, a + l[a].size);
  }

  /** Whether the block itself is marked as allocated does not matter for where it goes. */
  lemma FreedAlike(l: Layout, list: seq<nat>, brk: nat, b: nat)
    requires Tiled(l, brk) && b in l
    ensures Freed(SetUsed(l, b, false), list, b) == Freed(l, list, b)
  {
    hide Tiled;
    At(l, brk, b);
    if l[b].prev in l { At(l, brk, l[b].prev); }
  }

  lemma SpacedMore(l: Layout, b: nat)
    requires Spaced(l, {})
    ensures Spaced(l, {b})
  {
  }

  lemma SplitParts(l: Layout, brk: nat, b: nat, size: nat)
    requires Tiled(l, brk) && CanSplit(l, b, size) && !l[b].used
    ensures var l' := Split(l, b, size); b in l' && !l'[b].used && b + size in l' && !l'[b + size].used && b + size != b
    ensures b + size != 0 && b != 0
  {
    hide Tiled;
    SplitNew(l, brk, b, size);
    At(l, brk, b);
  }

  lemma TagsEven(l: Layout, brk: nat, b: nat)
    requires Tiled(l, brk) && b in l
    ensures l[b].size % 2 == 0 && l[b].size >= 2 && b >= 1
  {
    hide Tiled;
    At(l, brk, b);
  }

  lemma SizesEven(l: Layout, brk: nat, a: nat, b: nat)
    requires Tiled(l, brk) && a in l && b in l
    ensures l[a].size % 2 == 0 && l[a].size >= 2 && l[b].size % 2 == 0 && l[b].size >= 2
  {
    TagsEven(l, brk, a);
    TagsEven(l, brk, b);
  }

  lemma TagsOf(m: Words, l: Layout, list: seq<nat>, out: set<nat>, brk: nat, first: nat, last: nat, head: nat, a: nat,
               b: nat)
    requires HeapOk(m, l, list, out, brk, first, last, head) && a in l && b in l
    ensures a < |m| && b < |m| && SizeOf(m[a]) == l[a].size && SizeOf(m[b]) == l[b].size
  {
    hide Tiled, Tagged, Chain, Members;
    HasTag(m, l, a);
    HasTag(m, l, b);
    SizesEven(l, brk, a, b);
    TagParts(l[a]);
    TagParts(l[b]);
  }

  lemma PrevIs(l: Layout, brk: nat, a: nat, b: nat)
    requires Tiled(l, brk) && a in l && b in l && a + l[a].size == b
    ensures l[b].prev == a
  {
    hide Tiled;
    At(l, brk, a);
    At(l, brk, b);
  }

  /** Only the block before it ends where a block begins. */
  lemma LeftIs(l: Layout, brk: nat, a: nat, b: nat)
    requires Tiled(l, brk) && a in l && b in l && a + l[a].size == b && l[a].used
    ensures LeftUsed(l, b)
  {
    hide Tiled;
    forall c | c in l && c + l[c].size == b ensures l[c].used {
      if c != a { At(l, brk, c); At(l, brk, a); Separate(l, brk, c, a); }
    }
  }

  lemma FirstAlone(l: Layout, brk: nat, first: nat, last: nat, b: nat)
    requires Tiled(l, brk) && Ends(l, brk, first, last) && b in l && b == first
    ensures LeftUsed(l, b) && !LeftFree(l, b)
  {
    hide Tiled;
    At(l, brk, b);
    if l[b].prev in l { At(l, brk, l[b].prev); }
    forall c | c in l ensures c + l[c].size != b { At(l, brk, c); }
  }

  lemma MergedFree(l: Layout, a: nat)
    requires CanMerge(l, a) && !l[a].used && l[a].size > 0 && l[a + l[a].size].size > 0
    ensures a in Merge(l, a) && !Merge(l, a)[a].used
  {
  }
}

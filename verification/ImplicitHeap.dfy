/** The allocator without a free list: first fit by address, and coalescing at the next request. */
module ImplicitHeap {
  import opened HeapBytes
  import opened HeapLayout
  import opened HeapMemory
  import opened HeapUse
  import opened ImplicitState

  const MIN_BLOCK: nat := 2

  /** The words of the block for a request in bytes: header and payload, rounded up to 16 bytes. */
  function BlockWords(size: nat): (w: nat)
    ensures w % 2 == 0 && w >= MIN_BLOCK && size + 8 <= 8 * w < size + 24
  {
    (size + 8 + 15) / 16 * 2
  }

  /** The block taken is cut to size exactly. */
  ghost function Trimmed(l: Layout, b: nat, size: nat): Layout
    requires b in l
  {
    if l[b].size >= size + MIN_BLOCK then Split(l, b, size) else l
  }

  /** The free block of the lowest address that is large enough. */
  ghost predicate LowestFit(l: Layout, b: nat, size: nat) {
    && b in l && !l[b].used && l[b].size >= size
    && forall a :: a in l && a < b && !l[a].used ==> l[a].size < size
  }

  /** The same allocated blocks, and between two of them at most one free block. */
  ghost predicate Merged(l: Layout, merged: Layout, brk: nat) {
    Tiled(merged, brk) && Spaced(merged, {}) && SameUsed(l, merged)
  }

  /** What `mm_malloc` does when it answers a block, after coalescing: the lowest fit is cut to size, or the heap grows.
      */
  ghost predicate Granted(merged: Layout, brk: nat, l': Layout, brk': nat, b: nat, size: nat) {
    if brk' == brk then
      && LowestFit(merged, b, size) && b in Trimmed(merged, b, size)
      && l' == SetUsed(Trimmed(merged, b, size), b, true)
    else NoneFits(merged, size) && b == brk && brk' == brk + size && Grown(merged, l', b, size)
  }

  /** What `mm_realloc` does when it moves a block: first the new one is granted, then the old one is marked free. */
  ghost predicate Regranted(merged: Layout, brk: nat, l': Layout, brk': nat, b: nat, b': nat, size: nat) {
    b in l' && !l'[b].used && Granted(merged, brk, SetUsed(l', b, true), brk', b', size)
  }

  class ImplicitHeap {
    const mem: array<nat>
    var brk: nat
    var first: nat
    var last: nat
    ghost var tail: nat        // the last block
    ghost var layout: Layout

    /** The invariant of every run: among others, tail <= last < brk, though `last` need not be a block. */
    ghost predicate Valid()
      reads this, mem
    {
      mem.Length == MAX_HEAP && ImplicitOk(mem[..], layout, brk, first, tail, last)
    }

    ghost predicate Live(ptr: nat)
      reads this
    {
      ptr >= 1 && ptr - 1 in layout && layout[ptr - 1].used
    }

    /** `mm_init`, on a heap that holds garbage. */
    constructor ()
      ensures Valid() && layout == map[] && fresh(mem)
    {
      mem := new nat[MAX_HEAP];
      brk, first, last, tail := 1, 0, 0, 0;
      layout := map[];
    }

    method SetHeader(b: nat, size: nat, used: bool)
      requires b < mem.Length
      modifies mem
      ensures mem[..] == old(mem[..])[b := size + if used then 1 else 0]
    {
      mem[b] := size + if used then 1 else 0;
    }

    /** `coalesce`: afterwards no two free blocks are adjacent; the heap is no larger, and no payload is touched. It may
        read the word at the break, which is still inside the region. */
    method Coalesce()
      requires Valid()
      modifies mem, `layout, `tail
      ensures Valid() && Spaced(layout, {}) && SameUsed(old(layout), layout)
      ensures BodiesKept(old(mem[..]), mem[..], old(layout))
    {
      hide ImplicitOk, BodiesKept, SameUsed, Spaced, SpacedBelow;
      Starting(mem[..], layout, brk, first, tail, last);
      SameUsedRefl(layout);
      BodiesRefl(mem[..], layout);
      NoneBelow(mem[..], layout, brk, first, tail, last);
      var curr := first;
      while last != 0 && curr <= last
        invariant Valid() && SameUsed(old(layout), layout) && BodiesKept(old(mem[..]), mem[..], old(layout))
        invariant last != 0 ==> if curr <= last then curr in layout else curr == brk
        invariant last == 0 ==> curr == first && layout == map[]
        invariant SpacedBelow(layout, curr)
        decreases last + 1 - curr
      {
        Reading(mem[..], layout, brk, first, tail, last, curr);
        if !IsAllocated(mem[curr]) {
          ghost var l, m := layout, mem[..];
          MergeOnwards(curr);
          BodiesAcross(old(mem[..]), m, mem[..], old(layout), l);
          SameUsedTrans(old(layout), l, layout);
          Reading(mem[..], layout, brk, first, tail, last, curr);
        }
        StepSpacedBelow(layout, brk, curr) by { TiledOf(mem[..], layout, brk, first, tail, last); }
        curr := curr + SizeOf(mem[curr]);
      }
      if last != 0 { AllSpaced(layout, brk) by { TiledOf(mem[..], layout, brk, first, tail, last); } }
      else { EmptySpaced(layout); }
    }

    /** The inner loop of `coalesce`: merge a free block with the free blocks after it. */
    method MergeOnwards(curr: nat)
      requires Valid() && curr in layout && !layout[curr].used && SpacedBelow(layout, curr) && last != 0
      modifies mem, `layout, `tail
      ensures Valid() && curr in layout && !layout[curr].used && SpacedBelow(layout, curr)
      ensures curr + layout[curr].size in layout ==> layout[curr + layout[curr].size].used
      ensures SameUsed(old(layout), layout) && BodiesKept(old(mem[..]), mem[..], old(layout))
    {
      hide ImplicitOk, BodiesKept, SameUsed, SpacedBelow, Merge;
      SameUsedRefl(layout);
      BodiesRefl(mem[..], layout);
      Reading(mem[..], layout, brk, first, tail, last, curr);
      var next := curr + SizeOf(mem[curr]);
      BreakInside(mem[..], layout, brk, first, tail, last);
      while !IsAllocated(mem[next]) && next <= last && last != 0
        invariant Valid() && curr in layout && !layout[curr].used && SpacedBelow(layout, curr) && last != 0
        invariant next == curr + layout[curr].size && next <= brk < MAX_HEAP
        invariant if next < brk then next in layout && next <= last else next > last
        invariant SameUsed(old(layout), layout) && BodiesKept(old(mem[..]), mem[..], old(layout))
        decreases brk - next
      {
        ghost var l, m := layout, mem[..];
        Reading(m, l, brk, first, tail, last, curr);
        Reading(m, l, brk, first, tail, last, next);
        MergeStep(m, l, brk, first, tail, last, curr);
        MergeSpacedBelow(l, brk, curr) by { TiledOf(m, l, brk, first, tail, last); }
        SetHeader(curr, SizeOf(mem[curr]) + SizeOf(mem[next]), false);
        if next == tail { tail := curr; }
        layout := Merge(l, curr);
        BodiesAcross(old(mem[..]), m, mem[..], old(layout), l);
        SameUsedTrans(old(layout), l, layout);
        Reading(mem[..], layout, brk, first, tail, last, curr);
        next := curr + SizeOf(mem[curr]);
      }
      if next in layout { Reading(mem[..], layout, brk, first, tail, last, next); }
    }

    /** `find_fit`: the fitting block of the lowest address, split exactly. */
    method FindFit(size: nat) returns (block: nat)
      requires Valid() && size % 2 == 0 && size >= MIN_BLOCK
      modifies mem, `last, `layout, `tail
      ensures Valid() && SameUsed(old(layout), layout) && BodiesKept(old(mem[..]), mem[..], old(layout))
      ensures block == 0 ==> layout == old(layout) && NoneFits(layout, size)
      ensures block != 0 ==> LowestFit(old(layout), block, size) && layout == Trimmed(old(layout), block, size)
      ensures block != 0 ==> block in layout && !layout[block].used && layout[block].size == size && block % 2 == 1
    {
      hide ImplicitOk, BodiesKept, SameUsed;
      Starting(mem[..], layout, brk, first, tail, last);
      SameUsedRefl(layout);
      BodiesRefl(mem[..], layout);
      FirstIsLowest(mem[..], layout, brk, first, tail, last);
      var curr := first;
      while last != 0 && curr <= last
        invariant Valid() && layout == old(layout) && mem[..] == old(mem[..])
        invariant last != 0 ==> if curr <= last then curr in layout else curr == brk
        invariant last == 0 ==> layout == map[]
        invariant forall b :: b in layout && b < curr && !layout[b].used ==> layout[b].size < size
        decreases last + 1 - curr
      {
        Reading(mem[..], layout, brk, first, tail, last, curr);
        if !IsAllocated(mem[curr]) && SizeOf(mem[curr]) >= size {
          TrimFit(curr, size);
          return curr;
        }
        forall b | b in layout && b < curr + layout[curr].size && !layout[b].used ensures layout[b].size < size {
          NothingBetween(layout, brk, curr, b) by { TiledOf(mem[..], layout, brk, first, tail, last); }
        }
        curr := curr + SizeOf(mem[curr]);
      }
      forall b | b in layout && !layout[b].used ensures layout[b].size < size {
        Reading(mem[..], layout, brk, first, tail, last, b);
      }
      return 0;
    }

    method TrimFit(curr: nat, size: nat)
      requires Valid() && size % 2 == 0 && size >= MIN_BLOCK && curr in layout && !layout[curr].used
      requires layout[curr].size >= size
      modifies mem, `last, `layout, `tail
      ensures Valid() && SameUsed(old(layout), layout) && BodiesKept(old(mem[..]), mem[..], old(layout))
      ensures layout == Trimmed(old(layout), curr, size)
      ensures curr in layout && !layout[curr].used && layout[curr].size == size
    {
      hide ImplicitOk, BodiesKept, SameUsed;
      SameUsedRefl(layout);
      BodiesRefl(mem[..], layout);
      Reading(mem[..], layout, brk, first, tail, last, curr);
      var total := SizeOf(mem[curr]);
      if total - size >= MIN_BLOCK {
        ghost var l := layout;
        SplitStep(mem[..], l, brk, first, tail, last, curr, size);
        SetHeader(curr, size, false);
        assert SizeOf(mem[curr]) == size;
        var next := curr + SizeOf(mem[curr]);
        SetHeader(next, total - size, false);
        if next > last { last := next; }
        layout := Split(l, curr, size);
        if next > tail { tail := next; }
        SplitOff(l, brk, curr, size);
      }
    }

    /** `mm_malloc`. The heap is coalesced, then the lowest block that fits is cut to size; only when none fits the
        heap grows. `merged` is the layout between the two. */
    method Malloc(size: nat) returns (ptr: nat, ghost merged: Layout)
      requires Valid()
      modifies this, mem
      ensures Valid() && BodiesKept(old(mem[..]), mem[..], old(layout))
      ensures Merged(old(layout), merged, old(brk))
      ensures ptr == 0 ==> layout == merged && brk == old(brk)
      ensures ptr == 0 <==> old(Full(layout, brk, BlockWords(size)))
      ensures ptr != 0 ==>
              ptr % 2 == 0 && OneMore(old(layout), layout, ptr - 1) && layout[ptr - 1].size == BlockWords(size)
      ensures ptr != 0 ==> Granted(merged, old(brk), layout, brk, ptr - 1, BlockWords(size))
    {
      hide ImplicitOk, BodiesKept, SameUsed, OneMore, Spaced, Trimmed, LowestFit, Append, Tiled, NoneFits, Full;
      ghost var m, l := mem[..], layout;
      Coalesce();
      ghost var m1, l1 := mem[..], layout;
      TiledOf(m1, l1, brk, first, tail, last);
      merged := l1;
      var words := BlockWords(size);
      SameFull(l, l1, brk, words);
      FullWhenSpaced(l1, brk, words);
      var block := FindFit(words);
      ghost var m2, l2 := mem[..], layout;
      BodiesAcross(m, m1, m2, l, l1);
      SameUsedTrans(l, l1, l2);
      if block != 0 {
        Fits(l1, block, words);
        Reading(m2, l2, brk, first, tail, last, block);
        SetUsedStep(m2, l2, brk, first, tail, last, block, true);
        AllocateOneMore(l2, block);
        SetHeader(block, SizeOf(mem[block]), true);
        layout := SetUsed(l2, block, true);
        BodiesAcross(m, m2, mem[..], l, l2);
        OneMoreAfter(l, l2, layout, block);
        return block + 1, merged;
      }
      if brk + words > MAX_HEAP { return 0, merged; }
      var start := brk;
      AppendStep(m2, l2, brk, first, tail, last, words);
      AppendGrown(l2, brk, tail, words);
      brk := brk + words;
      if first == 0 { first := start; }
      layout := Append(l2, start, tail, words);
      last := start;
      tail := start;
      SetHeader(start, words, true);
      BodiesAcross(m, m2, mem[..], l, l2);
      OneMoreAfter(l, l2, layout, start);
      return start + 1, merged;
    }

    /** A client's store to a byte of its block. */
    method WriteByte(ptr: nat, offset: nat, value: Byte)
      requires Valid() && Live(ptr) && offset / 8 + 1 < layout[ptr - 1].size
      modifies mem
      ensures Valid() && ptr + offset / 8 < mem.Length && BodiesKeptBut(old(mem[..]), mem[..], layout, ptr - 1)
      ensures mem[..] == ByteStored(old(mem[..]), ptr, offset, value)
    {
      hide ImplicitOk, BodiesKeptBut, SetByte;
      ghost var m := mem[..];
      Reading(m, layout, brk, first, tail, last, ptr - 1);
      mem[ptr + offset / 8] := SetByte(mem[ptr + offset / 8], offset % 8, value);
      ClientStep(m, mem[..], layout, brk, first, tail, last, ptr - 1);
    }

    /** `mm_free`: only the header changes. */
    method Free(ptr: nat)
      requires Valid() && (ptr == 0 || Live(ptr))
      modifies mem, `layout
      ensures Valid() && BodiesKept(old(mem[..]), mem[..], old(layout))
      ensures ptr == 0 ==> layout == old(layout) && mem[..] == old(mem[..])
      ensures ptr != 0 ==> OneMore(layout, old(layout), ptr - 1) && layout == SetUsed(old(layout), ptr - 1, false)
      ensures ptr != 0 ==>
                ptr - 1 < mem.Length && mem[..] == old(mem[..])[ptr - 1 := old(layout)[ptr - 1].size]
    {
      hide ImplicitOk, BodiesKept, OneMore;
      BodiesRefl(mem[..], layout);
      if ptr == 0 { return; }
      var block := ptr - 1;
      Reading(mem[..], layout, brk, first, tail, last, block);
      SetUsedStep(mem[..], layout, brk, first, tail, last, block, false);
      FreeOneLess(layout, block);
      SetHeader(block, SizeOf(mem[block]), false);
      layout := SetUsed(layout, block, false);
    }

    /** `mm_realloc`. `merged` is the layout after coalescing, if a block is asked for. */
    method Realloc(oldPtr: nat, size: nat) returns (ptr: nat, ghost merged: Layout)
      requires Valid() && (oldPtr == 0 || Live(oldPtr))
      modifies this, mem
      ensures Valid()
      ensures oldPtr == 0 && ptr != 0 ==>
                OneMore(old(layout), layout, ptr - 1)
                && Granted(merged, old(brk), layout, brk, ptr - 1, BlockWords(size))
      ensures oldPtr == 0 || size == 0 || ptr == 0 || ptr == oldPtr ==> BodiesKept(old(mem[..]), mem[..], old(layout))
      ensures oldPtr != 0 && size == 0 ==> ptr == 0 && OneMore(layout, old(layout), oldPtr - 1)
      ensures oldPtr != 0 && size == 0 ==> layout == SetUsed(old(layout), oldPtr - 1, false)
      ensures oldPtr == 0 || (size != 0 && ptr != oldPtr) ==> Merged(old(layout), merged, old(brk))
      ensures ptr == 0 && (oldPtr == 0 || size != 0) ==> layout == merged && brk == old(brk)
      ensures size != 0 && ptr == 0 ==> SameUsed(old(layout), layout) && brk == old(brk)
      ensures size != 0 && oldPtr != 0 ==> (ptr == oldPtr <==> old(layout[oldPtr - 1].size) >= BlockWords(size))
      ensures oldPtr == 0 || (size != 0 && ptr != oldPtr) ==> (ptr == 0 <==> old(Full(layout, brk, BlockWords(size))))
      ensures oldPtr != 0 && ptr == oldPtr ==> layout == old(layout)
      ensures ptr != 0 ==> Live(ptr) && layout[ptr - 1].size >= BlockWords(size)
      ensures oldPtr != 0 && ptr != 0 && ptr != oldPtr ==>
                && Replaced(old(mem[..]), mem[..], old(layout), layout, oldPtr - 1, ptr - 1)
                && Regranted(merged, old(brk), layout, brk, oldPtr - 1, ptr - 1, BlockWords(size))
    {
      hide ImplicitOk, BodiesKept, SameUsed, Replaced, Full, Merged, Granted, Regranted;
      BodiesRefl(mem[..], layout);
      merged := layout;
      if oldPtr == 0 {
        ptr, merged := Malloc(size);
        MergedSame(old(layout), merged, old(brk));
        return;
      }
      if size == 0 {
        Free(oldPtr);
        return 0, merged;
      }
      var block := oldPtr - 1;
      Reading(mem[..], layout, brk, first, tail, last, block);
      if SizeOf(mem[block]) >= BlockWords(size) {
        return oldPtr, merged;
      }
      ptr, merged := Move(oldPtr, size);
    }

    method Move(oldPtr: nat, size: nat) returns (ptr: nat, ghost merged: Layout)
      requires Valid() && Live(oldPtr) && layout[oldPtr - 1].size < BlockWords(size)
      modifies this, mem
      ensures Valid() && ptr != oldPtr
      ensures ptr == 0 <==> old(Full(layout, brk, BlockWords(size)))
      ensures ptr == 0 ==>
              SameUsed(old(layout), layout) && BodiesKept(old(mem[..]), mem[..], old(layout)) && brk == old(brk)
      ensures ptr != 0 ==> Live(ptr) && layout[ptr - 1].size >= BlockWords(size)
      ensures ptr != 0 ==> Replaced(old(mem[..]), mem[..], old(layout), layout, oldPtr - 1, ptr - 1)
      ensures Merged(old(layout), merged, old(brk))
      ensures if ptr == 0 then layout == merged
              else Regranted(merged, old(brk), layout, brk, oldPtr - 1, ptr - 1, BlockWords(size))
    {
      hide ImplicitOk, BodiesKept, BodiesKeptBut, SameUsed, Replaced, OneMore, Merged, Granted, Full;
      ghost var m, l := mem[..], layout;
      ghost var ob := oldPtr - 1;
      ptr, merged := Malloc(size);
      if ptr == 0 {
        MergedSame(l, merged, old(brk));
        return;
      }
      ghost var nb := ptr - 1;
      ghost var m1, l1 := mem[..], layout;
      BothBlocks(l, l1, ob, nb);
      Reading(m1, l1, brk, first, tail, last, ob);
      Reading(m1, l1, brk, first, tail, last, nb);
      Separate(l1, brk, ob, nb) by { TiledOf(m1, l1, brk, first, tail, last); }
      var n := SizeOf(mem[oldPtr - 1]) - 1;
      CopyWords(mem, ptr, oldPtr, n);
      ghost var m2 := mem[..];
      CopiedInto(m1, m2, l1, nb, ob, n);
      ClientStep(m1, m2, l1, brk, first, tail, last, nb);
      Free(oldPtr);
      ReplacedBy(m, m1, m2, mem[..], l, l1, layout, ob, nb);
      NewStays(l, l1, layout, ob, nb);
      MarkedBack(l1, ob);
    }
  }

  lemma MarkedBack(l: Layout, b: nat)
    requires b in l && l[b].used
    ensures SetUsed(SetUsed(l, b, false), b, true) == l
  {
  }

  lemma MergedSame(l: Layout, merged: Layout, brk: nat)
    requires Merged(l, merged, brk)
    ensures SameUsed(l, merged)
  {
  }

  lemma Fits(l: Layout, b: nat, size: nat)
    requires LowestFit(l, b, size)
    ensures !NoneFits(l, size)
  {
  }

  lemma TiledOf(m: Words, l: Layout, brk: nat, first: nat, tail: nat, last: nat)
    requires ImplicitOk(m, l, brk, first, tail, last)
    ensures Tiled(l, brk)
  {
  }

  /** The break is an odd number of words, so it is never the end of the region. */
  lemma BreakInside(m: Words, l: Layout, brk: nat, first: nat, tail: nat, last: nat)
    requires ImplicitOk(m, l, brk, first, tail, last) && |m| == MAX_HEAP
    ensures brk < MAX_HEAP
  {
    Starting(m, l, brk, first, tail, last);
  }

  lemma NoneBelow(m: Words, l: Layout, brk: nat, first: nat, tail: nat, last: nat)
    requires ImplicitOk(m, l, brk, first, tail, last)
    ensures SpacedBelow(l, first)
  {
    hide Tiled, Headers;
    forall b | b in l ensures b >= first { At(l, brk, b); }
  }

  lemma FirstIsLowest(m: Words, l: Layout, brk: nat, first: nat, tail: nat, last: nat)
    requires ImplicitOk(m, l, brk, first, tail, last)
    ensures forall b :: b in l ==> b >= first
  {
    hide Tiled, Headers;
    forall b | b in l ensures b >= first { At(l, brk, b); }
  }

  lemma EmptySpaced(l: Layout)
    requires l == map[]
    ensures Spaced(l, {})
  {
  }

  lemma SplitOff(l: Layout, brk: nat, b: nat, size: nat)
    requires CanSplit(l, b, size) && !l[b].used
    ensures b in Split(l, b, size) && !Split(l, b, size)[b].used && Split(l, b, size)[b].size == size
  {
  }

  lemma BothBlocks(l: Layout, l1: Layout, b: nat, b': nat)
    requires OneMore(l, l1, b') && b in l && l[b].used
    ensures b in l1 && l1[b].used && l1[b].size == l[b].size && b' in l1 && l1[b'].used && b != b'
  {
  }

  lemma NewStays(l: Layout, l1: Layout, l3: Layout, b: nat, b': nat)
    requires OneMore(l, l1, b') && b' != b && OneMore(l3, l1, b)
    ensures b' in l3 && l3[b'].used && b' in l1 && l3[b'].size == l1[b'].size
  {
  }
}

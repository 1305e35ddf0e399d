/** Either allocator, as its clients see it: pointers, each to words of its own. */
module Allocators {
  import opened HeapBytes
  import opened HeapLayout
  import opened HeapMemory
  import opened HeapUse
  import HeapState
  import opened ImplicitState
  import E = ExplicitHeap
  import I = ImplicitHeap

  // ---------- What is behind pointers ----------

  /** The words of each allocated block behind its header, by the header's place, which is one word before the pointer
      handed out. */
  type View = map<nat, Words>

  /** The words of a block between its header and its footer, if there is one. */
  function Behind(m: Words, b: nat, size: nat, footer: nat): Words {
    if 1 + footer <= size && b + size <= |m| then m[b + 1..b + size - footer] else []
  }

  ghost function ViewOf(m: Words, l: Layout, footer: nat): View {
    map b | b in l && l[b].used :: Behind(m, b, l[b].size, footer)
  }

  ghost predicate BehindKept(m: Words, m': Words, l: Layout, footer: nat, but: set<nat>) {
    && |m| == |m'|
    && forall b :: b in l && l[b].used && b !in but ==>
        Behind(m', b, l[b].size, footer) == Behind(m, b, l[b].size, footer)
  }

  /** There is a block with so many bytes. */
  ghost predicate Big(v: View, b: nat, size: nat) { b in v && 8 * |v[b]| >= size }

  /** One more block. */
  ghost predicate Gained(v: View, v': View, b: nat) {
    && b !in v && v'.Keys == v.Keys + {b}
    && forall c :: c in v ==> v'[c] == v[c]
  }

  /** A block is replaced by another, which begins with its words. */
  ghost predicate Exchanged(v: View, v': View, b: nat, b': nat) {
    && b in v && b' !in v && v'.Keys == v.Keys - {b} + {b'}
    && (forall c :: c in v && c != b ==> v'[c] == v[c])
    && v[b] <= v'[b']
  }

  /** What `realloc` does to a block: size 0 frees it; one that is large enough stays; otherwise it is moved, or all
      is as it was. */
  ghost predicate Reallocated(v: View, v': View, oldPtr: nat, size: nat, ptr: nat) {
    && oldPtr >= 1
    && (size == 0 ==> ptr == 0 && v' == v - {oldPtr - 1})
    && (size != 0 ==> (ptr == oldPtr <==> Big(v, oldPtr - 1, size)))
    && (size != 0 && (ptr == 0 || ptr == oldPtr) ==> v' == v)
    && (ptr != 0 && ptr != oldPtr ==> Exchanged(v, v', oldPtr - 1, ptr - 1))
    && (ptr != 0 ==> Big(v', ptr - 1, size))
  }

  lemma ReallocatedBy(v: View, v': View, oldPtr: nat, size: nat, ptr: nat)
    requires oldPtr >= 1 && (size == 0 ==> ptr == 0) && (size != 0 ==> (ptr == oldPtr <==> Big(v, oldPtr - 1, size)))
    requires size == 0 ==> v' == v - {oldPtr - 1}
    requires size != 0 && (ptr == 0 || ptr == oldPtr) ==> v' == v
    requires ptr != 0 && ptr != oldPtr ==> Exchanged(v, v', oldPtr - 1, ptr - 1)
    requires ptr != 0 ==> Big(v', ptr - 1, size)
    ensures Reallocated(v, v', oldPtr, size, ptr)
  {
  }

  lemma SameView(m: Words, m': Words, l: Layout, l': Layout, footer: nat)
    requires BehindKept(m, m', l, footer, {}) && SameUsed(l, l')
    ensures ViewOf(m', l', footer) == ViewOf(m, l, footer)
  {
    hide Behind;
  }

  lemma ViewGained(m: Words, m': Words, l: Layout, l': Layout, footer: nat, b: nat)
    requires BehindKept(m, m', l, footer, {}) && OneMore(l, l', b)
    ensures Gained(ViewOf(m, l, footer), ViewOf(m', l', footer), b)
  {
    hide Behind;
  }

  lemma ViewLost(m: Words, m': Words, l: Layout, l': Layout, footer: nat, b: nat)
    requires BehindKept(m, m', l, footer, {b}) && OneMore(l', l, b)
    ensures ViewOf(m', l', footer) == ViewOf(m, l, footer) - {b}
  {
    hide Behind;
  }

  lemma ViewExchanged(m: Words, m': Words, l: Layout, l': Layout, footer: nat, b: nat, b': nat)
    requires BehindKept(m, m', l, footer, {b})
    requires b in l && l[b].used && b' in l' && l'[b'].used && b' != b && !(b' in l && l[b'].used)
    requires forall a :: a in l && l[a].used && a != b ==> a in l' && l'[a].used && l'[a].size == l[a].size
    requires forall a :: a in l' && l'[a].used && a != b' ==> a != b && a in l && l[a].used
    requires Behind(m, b, l[b].size, footer) <= Behind(m', b', l'[b'].size, footer)
    ensures Exchanged(ViewOf(m, l, footer), ViewOf(m', l', footer), b, b')
  {
    hide Behind;
  }

  lemma ViewStored(m: Words, m': Words, l: Layout, footer: nat, b: nat, i: nat, value: Byte)
    requires b in l && l[b].used && i / 8 + 1 + footer < l[b].size && b + l[b].size <= |m|
    requires m' == ByteStored(m, b + 1, i, value) && BehindKept(m, m', l, footer, {b})
    ensures b in ViewOf(m, l, footer) && i < 8 * |ViewOf(m, l, footer)[b]|
    ensures ViewOf(m', l, footer) == ViewOf(m, l, footer)[b := WithByte(ViewOf(m, l, footer)[b], i, value)]
  {
    hide SetByte;
    var size := l[b].size;
    assert Behind(m', b, size, footer) == WithByte(Behind(m, b, size, footer), i, value);
    StoredAt(m, m', l, footer, b);
  }

  lemma StoredAt(m: Words, m': Words, l: Layout, footer: nat, b: nat)
    requires b in l && l[b].used && BehindKept(m, m', l, footer, {b})
    ensures ViewOf(m', l, footer) == ViewOf(m, l, footer)[b := Behind(m', b, l[b].size, footer)]
  {
    hide Behind;
  }

  lemma ViewAt(m: Words, l: Layout, footer: nat, b: nat)
    requires b in ViewOf(m, l, footer)
    ensures b in l && l[b].used && ViewOf(m, l, footer)[b] == Behind(m, b, l[b].size, footer)
  {
  }

  lemma PayloadBehind(m: Words, b: nat, size: nat)
    ensures Payload(m, b, size) == Behind(m, b, size, 1) && Body(m, b, size) == Behind(m, b, size, 0)
  {
  }

  lemma KeptBehind(m: Words, m': Words, l: Layout, b: nat)
    ensures Kept(m, m', l) ==> BehindKept(m, m', l, 1, {})
    ensures KeptBut(m, m', l, b) ==> BehindKept(m, m', l, 1, {b})
    ensures BodiesKept(m, m', l) ==> BehindKept(m, m', l, 0, {})
    ensures BodiesKeptBut(m, m', l, b) ==> BehindKept(m, m', l, 0, {b})
  {
    hide Behind, Payload, Body;
    forall a | a in l
      ensures Payload(m, a, l[a].size) == Behind(m, a, l[a].size, 1)
      ensures Body(m, a, l[a].size) == Behind(m, a, l[a].size, 0)
      ensures Payload(m', a, l[a].size) == Behind(m', a, l[a].size, 1)
      ensures Body(m', a, l[a].size) == Behind(m', a, l[a].size, 0)
    {
      PayloadBehind(m, a, l[a].size);
      PayloadBehind(m', a, l[a].size);
    }
  }

  lemma GainedExplicit(m: Words, m': Words, l: Layout, l': Layout, b: nat)
    requires Kept(m, m', l) && OneMore(l, l', b)
    ensures Gained(ViewOf(m, l, 1), ViewOf(m', l', 1), b)
  {
    hide Kept, OneMore, ViewOf, Gained;
    KeptBehind(m, m', l, b);
    ViewGained(m, m', l, l', 1, b);
  }

  lemma GainedImplicit(m: Words, m': Words, l: Layout, l': Layout, b: nat)
    requires BodiesKept(m, m', l) && OneMore(l, l', b)
    ensures Gained(ViewOf(m, l, 0), ViewOf(m', l', 0), b)
  {
    hide BodiesKept, OneMore, ViewOf, Gained;
    KeptBehind(m, m', l, b);
    ViewGained(m, m', l, l', 0, b);
  }

  lemma SameImplicit(m: Words, m': Words, l: Layout, l': Layout)
    requires BodiesKept(m, m', l) && SameUsed(l, l')
    ensures ViewOf(m', l', 0) == ViewOf(m, l, 0)
  {
    hide BodiesKept, SameUsed, ViewOf;
    KeptBehind(m, m', l, 0);
    SameView(m, m', l, l', 0);
  }

  lemma FreedExplicit(m: Words, m': Words, l: Layout, l': Layout, b: nat)
    requires KeptBut(m, m', l, b) && OneMore(l', l, b)
    ensures ViewOf(m', l', 1) == ViewOf(m, l, 1) - {b}
  {
    hide KeptBut, OneMore, ViewOf;
    KeptBehind(m, m', l, b);
    ViewLost(m, m', l, l', 1, b);
  }

  lemma FreedImplicit(m: Words, m': Words, l: Layout, l': Layout, b: nat)
    requires BodiesKept(m, m', l) && OneMore(l', l, b)
    ensures ViewOf(m', l', 0) == ViewOf(m, l, 0) - {b}
  {
    hide BodiesKept, OneMore, ViewOf;
    KeptBehind(m, m', l, b);
    ViewLost(m, m', l, l', 0, b);
  }

  lemma ViewMoved(m: Words, m': Words, l: Layout, l': Layout, b: nat, b': nat)
    requires E.Moved(m, m', l, l', b, b')
    ensures Exchanged(ViewOf(m, l, 1), ViewOf(m', l', 1), b, b')
  {
    hide Behind, Payload, ViewOf, KeptBut, Exchanged;
    KeptBehind(m, m', l, b);
    PayloadBehind(m, b, l[b].size);
    PayloadBehind(m', b', l'[b'].size);
    ViewExchanged(m, m', l, l', 1, b, b');
  }

  lemma ViewReplaced(m: Words, m': Words, l: Layout, l': Layout, b: nat, b': nat)
    requires Replaced(m, m', l, l', b, b')
    ensures Exchanged(ViewOf(m, l, 0), ViewOf(m', l', 0), b, b')
  {
    hide Behind, Body, ViewOf, BodiesKeptBut, Exchanged;
    KeptBehind(m, m', l, b);
    PayloadBehind(m, b, l[b].size);
    PayloadBehind(m', b', l'[b'].size);
    ViewExchanged(m, m', l, l', 0, b, b');
  }

  // ---------- The operations ----------

  datatype Allocator = Explicit(e: E.ExplicitHeap) | Implicit(i: I.ImplicitHeap) {
    ghost function Repr(): set<object> {
      match this
      case Explicit(e) => {e, e.mem}
      case Implicit(i) => {i, i.mem}
    }

    ghost predicate Valid()
      reads Repr()
    {
      match this
      case Explicit(e) => e.Valid()
      case Implicit(i) => i.Valid()
    }

    ghost function Blocks(): View
      reads Repr()
    {
      match this
      case Explicit(e) => ViewOf(e.mem[..], e.layout, 1)
      case Implicit(i) => ViewOf(i.mem[..], i.layout, 0)
    }

    /** There is no room for a block of so many bytes, and the region cannot grow by so much. */
    ghost predicate Full(size: nat)
      reads Repr()
    {
      match this
      case Explicit(e) => HeapUse.Full(e.layout, e.brk, E.BlockWords(size))
      case Implicit(i) => HeapUse.Full(i.layout, i.brk, I.BlockWords(size))
    }

    method Malloc(size: nat) returns (ptr: nat)
      requires Valid() && size >= 1
      modifies Repr()
      ensures Valid()
      ensures (ptr == 0 <==> old(Full(size))) && (ptr == 0 ==> Full(size))
      ensures ptr == 0 ==> Blocks() == old(Blocks())
      ensures ptr != 0 ==> Gained(old(Blocks()), Blocks(), ptr - 1) && Big(Blocks(), ptr - 1, size)
    {
      hide Kept, OneMore, SameUsed, Gained, Big, ViewOf, BodiesKept, HeapUse.Full, E.ExplicitHeap.Valid,
           I.ImplicitHeap.Valid, SetUsed, Split, Spaced, Tiled, NoneFits;
      match this {
        case Explicit(e) =>
          ghost var m, l := e.mem[..], e.layout;
          ptr := e.Malloc(size);
          if ptr != 0 {
            NewBlock(l, e.layout, ptr - 1);
            ExplicitBig(e, ptr - 1, size);
            GainedExplicit(m, e.mem[..], l, e.layout, ptr - 1);
          }
        case Implicit(i) =>
          ghost var m, l := i.mem[..], i.layout;
          ghost var merged;
          ptr, merged := i.Malloc(size);
          if ptr == 0 {
            SameImplicit(m, i.mem[..], l, i.layout);
            SameFull(l, i.layout, i.brk, I.BlockWords(size));
          } else {
            NewBlock(l, i.layout, ptr - 1);
            ImplicitBig(i, ptr - 1, size);
            GainedImplicit(m, i.mem[..], l, i.layout, ptr - 1);
          }
      }
    }

    method Free(ptr: nat)
      requires Valid() && (ptr == 0 || ptr - 1 in Blocks())
      modifies Repr()
      ensures Valid()
      ensures Blocks() == if ptr == 0 then old(Blocks()) else old(Blocks()) - {ptr - 1}
    {
      hide KeptBut, OneMore, BodiesKept, E.ExplicitHeap.Valid, I.ImplicitHeap.Valid, Behind;
      match this {
        case Explicit(e) =>
          ghost var m, l := e.mem[..], e.layout;
          e.Free(ptr);
          if ptr != 0 { FreedExplicit(m, e.mem[..], l, e.layout, ptr - 1); }
        case Implicit(i) =>
          ghost var m, l := i.mem[..], i.layout;
          i.Free(ptr);
          if ptr != 0 { FreedImplicit(m, i.mem[..], l, i.layout, ptr - 1); }
      }
    }

    /** `realloc` of a block of its own; size 0 frees it. */
    method Realloc(oldPtr: nat, size: nat) returns (ptr: nat)
      requires Valid() && oldPtr >= 1 && oldPtr - 1 in Blocks()
      modifies Repr()
      ensures Valid()
      ensures size == 0 ==> ptr == 0 && Blocks() == old(Blocks()) - {oldPtr - 1}
      ensures size != 0 ==> (ptr == oldPtr <==> old(Big(Blocks(), oldPtr - 1, size)))
      ensures size != 0 && ptr != oldPtr ==> (ptr == 0 <==> old(Full(size)))
      ensures size != 0 && ptr == 0 ==> Full(size)
      ensures size != 0 && (ptr == 0 || ptr == oldPtr) ==> Blocks() == old(Blocks())
      ensures ptr != 0 && ptr != oldPtr ==> Exchanged(old(Blocks()), Blocks(), oldPtr - 1, ptr - 1)
      ensures ptr != 0 ==> Big(Blocks(), ptr - 1, size)
    {
      hide E.ExplicitHeap.Valid, I.ImplicitHeap.Valid, ViewOf, Exchanged, Big, HeapUse.Full;
      match this {
        case Explicit(e) => ptr := ReallocExplicit(e, oldPtr, size);
        case Implicit(i) => ptr := ReallocImplicit(i, oldPtr, size);
      }
    }

    /** A client's store to a byte behind a pointer. */
    method Store(ptr: nat, offset: nat, value: Byte)
      requires Valid() && ptr >= 1 && ptr - 1 in Blocks() && offset < 8 * |Blocks()[ptr - 1]|
      modifies Repr()
      ensures Valid()
      ensures Blocks() == old(Blocks())[ptr - 1 := WithByte(old(Blocks())[ptr - 1], offset, value)]
    {
      hide WithByte, ViewOf, E.ExplicitHeap.Valid, I.ImplicitHeap.Valid;
      match this {
        case Explicit(e) => StoreExplicit(e, ptr, offset, value);
        case Implicit(i) => StoreImplicit(i, ptr, offset, value);
      }
    }
  }

  method ReallocExplicit(e: E.ExplicitHeap, oldPtr: nat, size: nat) returns (ptr: nat)
    requires e.Valid() && oldPtr >= 1 && oldPtr - 1 in ViewOf(e.mem[..], e.layout, 1)
    modifies e, e.mem
    ensures e.Valid()
    ensures Reallocated(old(ViewOf(e.mem[..], e.layout, 1)), ViewOf(e.mem[..], e.layout, 1), oldPtr, size, ptr)
    ensures size != 0 && ptr != oldPtr ==> (ptr == 0 <==> old(HeapUse.Full(e.layout, e.brk, E.BlockWords(size))))
    ensures size != 0 && ptr == 0 ==> HeapUse.Full(e.layout, e.brk, E.BlockWords(size))
  {
    hide KeptBut, OneMore, E.ExplicitHeap.Valid, Behind, Payload, Exchanged, Big, HeapUse.Full, Reallocated, ViewOf,
         E.Moved, Kept, Tiled, Spaced, E.BlockWords;
    ghost var m, l, v := e.mem[..], e.layout, ViewOf(e.mem[..], e.layout, 1);
    ViewAt(m, l, 1, oldPtr - 1);
    ExplicitBig(e, oldPtr - 1, size);
    ptr := e.Realloc(oldPtr, size);
    if ptr != 0 { ExplicitBig(e, ptr - 1, size); }
    if ptr != 0 && ptr != oldPtr {
      ViewMoved(m, e.mem[..], l, e.layout, oldPtr - 1, ptr - 1);
    } else if size == 0 {
      FreedExplicit(m, e.mem[..], l, e.layout, oldPtr - 1);
    }
    ReallocatedBy(v, ViewOf(e.mem[..], e.layout, 1), oldPtr, size, ptr);
  }

  method ReallocImplicit(i: I.ImplicitHeap, oldPtr: nat, size: nat) returns (ptr: nat)
    requires i.Valid() && oldPtr >= 1 && oldPtr - 1 in ViewOf(i.mem[..], i.layout, 0)
    modifies i, i.mem
    ensures i.Valid()
    ensures Reallocated(old(ViewOf(i.mem[..], i.layout, 0)), ViewOf(i.mem[..], i.layout, 0), oldPtr, size, ptr)
    ensures size != 0 && ptr != oldPtr ==> (ptr == 0 <==> old(HeapUse.Full(i.layout, i.brk, I.BlockWords(size))))
    ensures size != 0 && ptr == 0 ==> HeapUse.Full(i.layout, i.brk, I.BlockWords(size))
  {
    hide BodiesKept, BodiesKeptBut, OneMore, SameUsed, I.ImplicitHeap.Valid, Behind, Body, Exchanged, Big, HeapUse.Full,
         Reallocated, ViewOf, Replaced, Tiled, Spaced, I.BlockWords, I.Merged, I.Regranted, I.Granted;
    ghost var m, l, v := i.mem[..], i.layout, ViewOf(i.mem[..], i.layout, 0);
    ViewAt(m, l, 0, oldPtr - 1);
    ImplicitBig(i, oldPtr - 1, size);
    ghost var merged;
    ptr, merged := i.Realloc(oldPtr, size);
    if ptr != 0 { ImplicitBig(i, ptr - 1, size); }
    if ptr != 0 && ptr != oldPtr {
      ViewReplaced(m, i.mem[..], l, i.layout, oldPtr - 1, ptr - 1);
    } else if size == 0 {
      FreedImplicit(m, i.mem[..], l, i.layout, oldPtr - 1);
    } else {
      SameUsedRefl(l);
      SameImplicit(m, i.mem[..], l, i.layout);
      SameFull(l, i.layout, i.brk, I.BlockWords(size));
    }
    ReallocatedBy(v, ViewOf(i.mem[..], i.layout, 0), oldPtr, size, ptr);
  }

  method StoreExplicit(e: E.ExplicitHeap, ptr: nat, offset: nat, value: Byte)
    requires e.Valid() && ptr >= 1
    requires var v := ViewOf(e.mem[..], e.layout, 1); ptr - 1 in v && offset < 8 * |v[ptr - 1]|
    modifies e.mem
    ensures e.Valid()
    ensures var v := old(ViewOf(e.mem[..], e.layout, 1));
            ViewOf(e.mem[..], e.layout, 1) == v[ptr - 1 := WithByte(v[ptr - 1], offset, value)]
  {
    hide KeptBut, WithByte, ByteStored, ViewOf, E.ExplicitHeap.Valid;
    ghost var m, l := e.mem[..], e.layout;
    ViewAt(m, l, 1, ptr - 1);
    e.WriteByte(ptr, offset, value);
    KeptBehind(m, e.mem[..], l, ptr - 1);
    ViewStored(m, e.mem[..], l, 1, ptr - 1, offset, value);
  }

  method StoreImplicit(i: I.ImplicitHeap, ptr: nat, offset: nat, value: Byte)
    requires i.Valid() && ptr >= 1
    requires var v := ViewOf(i.mem[..], i.layout, 0); ptr - 1 in v && offset < 8 * |v[ptr - 1]|
    modifies i.mem
    ensures i.Valid()
    ensures var v := old(ViewOf(i.mem[..], i.layout, 0));
            ViewOf(i.mem[..], i.layout, 0) == v[ptr - 1 := WithByte(v[ptr - 1], offset, value)]
  {
    hide BodiesKeptBut, WithByte, ByteStored, ViewOf, I.ImplicitHeap.Valid;
    ghost var m, l := i.mem[..], i.layout;
    ViewAt(m, l, 0, ptr - 1);
    i.WriteByte(ptr, offset, value);
    KeptBehind(m, i.mem[..], l, ptr - 1);
    ViewStored(m, i.mem[..], l, 0, ptr - 1, offset, value);
  }

  /** A block has the words for a request exactly when it has the bytes. */
  lemma ExplicitBig(e: E.ExplicitHeap, b: nat, size: nat)
    requires e.Valid() && b in e.layout && e.layout[b].used
    ensures Big(ViewOf(e.mem[..], e.layout, 1), b, size) <==> e.layout[b].size >= E.BlockWords(size)
  {
    HeapState.RightNeighbour(e.mem[..], e.layout, e.list, {}, e.brk, e.first, e.last, e.freeFirst, b);
    RoundedUp(e.layout[b].size, size + 16);
  }

  lemma ImplicitBig(i: I.ImplicitHeap, b: nat, size: nat)
    requires i.Valid() && b in i.layout && i.layout[b].used
    ensures Big(ViewOf(i.mem[..], i.layout, 0), b, size) <==> i.layout[b].size >= I.BlockWords(size)
  {
    Reading(i.mem[..], i.layout, i.brk, i.first, i.tail, i.last, b);
    RoundedUp(i.layout[b].size, size + 8);
  }

  lemma RoundedUp(words: nat, bytes: nat)
    requires words % 2 == 0
    ensures words >= (bytes + 15) / 16 * 2 <==> 8 * words >= bytes
  {
  }
}

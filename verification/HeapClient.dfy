/** A client of an allocator: the bytes it wrote into its blocks are what it finds there, over any sequence of
    requests. */
module HeapClient {
  import opened HeapBytes
  import opened Allocators
  import ExplicitHeap
  import ImplicitHeap

  /** The bytes in each of the client's blocks, by a number of the client's choice. */
  type Store = map<nat, seq<Byte>>

  /** A block is requested and filled, resized (new bytes are filled with a given value, and size 0 releases it),
      written to, or released. */
  datatype Op = Request(id: nat, bytes: seq<Byte>) | Resize(id: nat, count: nat, fill: Byte) | Put(id: nat, index: nat,
      value: Byte)
              | Release(id: nat)

  function Repeat(v: Byte, n: nat): (s: seq<Byte>)
    ensures |s| == n && forall i :: 0 <= i < n ==> s[i] == v
  {
    seq(n, i => v)
  }

  function Resized(bytes: seq<Byte>, count: nat, fill: Byte): seq<Byte> {
    if count <= |bytes| then bytes[..count] else bytes + Repeat(fill, count - |bytes|)
  }

  function Changed(bytes: seq<Byte>, index: nat, value: Byte): seq<Byte>
    requires index < |bytes|
  {
    bytes[index := value]
  }

  function Adjusted(s: Store, id: nat, count: nat, fill: Byte): Store
    requires id in s
  {
    if count == 0 then s - {id} else s[id := Resized(s[id], count, fill)]
  }

  /** What each request means; one that makes no sense does nothing. */
  function Apply(s: Store, op: Op): Store {
    match op
    case Request(id, bytes) => if id in s || bytes == [] then s else s[id := bytes]
    case Resize(id, count, fill) => if id in s then Adjusted(s, id, count, fill) else s
    case Put(id, index, value) => if id in s && index < |s[id]| then s[id := Changed(s[id], index, value)] else s
    case Release(id) => s - {id}
  }

  function ApplyAll(s: Store, ops: seq<Op>): Store {
    if ops == [] then s else Apply(ApplyAll(s, ops[..|ops| - 1]), ops[|ops| - 1])
  }

  // ---------- The store in the heap ----------

  /** What is behind a pointer begins with these bytes. */
  ghost predicate Holds(v: View, p: nat, bytes: seq<Byte>) { p >= 1 && p - 1 in v && bytes <= BytesOf(v[p - 1]) }

  /** The allocated blocks are those of the client, one for each of its numbers, with its bytes in them. */
  ghost predicate Represents(v: View, at: map<nat, nat>, s: Store) {
    && at.Keys == s.Keys
    && (forall id :: id in s ==> Holds(v, at[id], s[id]))
    && (forall i, j :: i in at && j in at && i != j ==> at[i] != at[j])
    && (forall b :: b in v ==> exists id :: id in at && at[id] == b + 1)
  }

  lemma IsHeld(v: View, at: map<nat, nat>, s: Store, id: nat)
    requires Represents(v, at, s) && id in s
    ensures id in at && Holds(v, at[id], s[id]) && at[id] >= 1 && at[id] - 1 in v && |s[id]| <= 8 * |v[at[id] - 1]|
  {
    hide BytesOf;
  }

  lemma HoldsIn(v: View, p: nat, bytes: seq<Byte>)
    requires Holds(v, p, bytes)
    ensures p >= 1 && p - 1 in v
  {
  }

  lemma HoldsKept(v: View, v': View, p: nat, bytes: seq<Byte>)
    requires Holds(v, p, bytes) && p - 1 in v' && v'[p - 1] == v[p - 1]
    ensures Holds(v', p, bytes)
  {
    hide BytesOf;
  }

  lemma HoldsMoved(v: View, v': View, p: nat, p': nat, bytes: seq<Byte>)
    requires Holds(v, p, bytes) && p' >= 1 && p' - 1 in v' && v[p - 1] <= v'[p' - 1]
    ensures Holds(v', p', bytes)
  {
    hide BytesOf;
    BytesPrefix(v[p - 1], v'[p' - 1]);
  }

  lemma HoldsNothing(v: View, p: nat)
    requires p >= 1 && p - 1 in v
    ensures Holds(v, p, [])
  {
    hide BytesOf;
  }

  /** A new block for a new number. */
  lemma Added(v: View, v': View, at: map<nat, nat>, s: Store, id: nat, p: nat, bytes: seq<Byte>)
    requires Represents(v, at, s) && id !in s && p >= 1 && Gained(v, v', p - 1) && Holds(v', p, bytes)
    ensures Represents(v', at[id := p], s[id := bytes])
  {
    hide Holds, Gained;
    AddedApart(v, v', at, s, id, p);
    AddedFound(v, v', at, s, id, p);
    var at', s' := at[id := p], s[id := bytes];
    forall i | i in s' ensures Holds(v', at'[i], s'[i]) {
      if i != id { AddedHeld(v, v', at[i], s[i], p); }
    }
  }

  lemma AddedHeld(v: View, v': View, p: nat, bytes: seq<Byte>, p': nat)
    requires Holds(v, p, bytes) && p' >= 1 && Gained(v, v', p' - 1)
    ensures Holds(v', p, bytes)
  {
    hide Holds;
    HoldsIn(v, p, bytes);
    HoldsKept(v, v', p, bytes);
  }

  lemma AddedApart(v: View, v': View, at: map<nat, nat>, s: Store, id: nat, p: nat)
    requires Represents(v, at, s) && id !in s && p >= 1 && Gained(v, v', p - 1)
    ensures var at' := at[id := p]; forall i, j :: i in at' && j in at' && i != j ==> at'[i] != at'[j]
  {
    hide Holds;
    forall i | i in at ensures at[i] != p { HoldsIn(v, at[i], s[i]); }
  }

  lemma AddedFound(v: View, v': View, at: map<nat, nat>, s: Store, id: nat, p: nat)
    requires Represents(v, at, s) && id !in s && p >= 1 && Gained(v, v', p - 1)
    ensures var at' := at[id := p]; forall b :: b in v' ==> exists i :: i in at' && at'[i] == b + 1
  {
    hide Holds;
    var at' := at[id := p];
    forall b | b in v' ensures exists i :: i in at' && at'[i] == b + 1 {
      if b == p - 1 { assert at'[id] == b + 1; }
      else { var i :| i in at && at[i] == b + 1; assert at'[i] == b + 1; }
    }
  }

  /** The block of a number is gone. */
  lemma Removed(v: View, at: map<nat, nat>, s: Store, id: nat)
    requires Represents(v, at, s) && id in s && at[id] >= 1
    ensures Represents(v - {at[id] - 1}, at - {id}, s - {id})
  {
    hide Holds;
    var v', at', s' := v - {at[id] - 1}, at - {id}, s - {id};
    forall i | i in s' ensures Holds(v', at'[i], s'[i]) {
      HoldsIn(v, at[i], s[i]);
      HoldsKept(v, v', at[i], s[i]);
    }
    forall b | b in v' ensures exists i :: i in at' && at'[i] == b + 1 {
      var i :| i in at && at[i] == b + 1;
      assert i != id;
      assert at'[i] == b + 1;
    }
  }

  /** The block of a number was moved. */
  lemma Relocated(v: View, v': View, at: map<nat, nat>, s: Store, id: nat, p: nat)
    requires Represents(v, at, s) && id in s && at[id] >= 1 && p >= 1 && Exchanged(v, v', at[id] - 1, p - 1)
    ensures Represents(v', at[id := p], s)
  {
    hide Represents, Holds;
    IsHeld(v, at, s, id);
    HoldsMoved(v, v', at[id], p, s[id]);
    Removed(v, at, s, id);
    Added(v - {at[id] - 1}, v', at - {id}, s - {id}, id, p, s[id]);
    assert (at - {id})[id := p] == at[id := p] && (s - {id})[id := s[id]] == s;
  }

  /** The bytes of one number changed inside its block. */
  lemma Rewritten(v: View, v': View, at: map<nat, nat>, s: Store, id: nat, bytes: seq<Byte>)
    requires Represents(v, at, s) && id in s && at[id] >= 1 && v'.Keys == v.Keys && Holds(v', at[id], bytes)
    requires forall b :: b in v && b != at[id] - 1 ==> v'[b] == v[b]
    ensures Represents(v', at, s[id := bytes])
  {
    hide Holds;
    var s' := s[id := bytes];
    forall i | i in s' ensures Holds(v', at[i], s'[i]) {
      if i != id { HoldsIn(v, at[i], s[i]); HoldsKept(v, v', at[i], s[i]); }
    }
  }

  /** One byte more, or another one. */
  lemma Written(v: View, p: nat, bytes: seq<Byte>, index: nat, value: Byte)
    requires Holds(v, p, bytes) && index < 8 * |v[p - 1]|
    ensures var v' := v[p - 1 := WithByte(v[p - 1], index, value)];
            && (index < |bytes| ==> Holds(v', p, Changed(bytes, index, value)))
            && (index == |bytes| ==> Holds(v', p, bytes + [value]))
  {
    hide BytesOf, WithByte;
    StoreByte(v[p - 1], index, value);
  }

  lemma SameRoom(words: seq<nat>, i: nat, value: Byte)
    requires i < 8 * |words|
    ensures |WithByte(words, i, value)| == |words|
  {
  }

  lemma Shorter(v: View, p: nat, bytes: seq<Byte>, n: nat)
    requires Holds(v, p, bytes) && n <= |bytes|
    ensures Holds(v, p, bytes[..n])
  {
    hide BytesOf;
  }

  lemma BigIsBlock(v: View, b: nat, size: nat)
    requires Big(v, b, size)
    ensures b in v
  {
  }

  lemma NoBlocks(v: View)
    requires v == map[]
    ensures Represents(v, map[], map[])
  {
  }

  class Client {
    const heap: Allocator
    var at: map<nat, nat>        // the block of each number,
    var length: map<nat, nat>    // and how many bytes of it are in use
    ghost var store: Store

    ghost predicate Valid()
      reads this, heap.Repr()
    {
      && this !in heap.Repr() && heap.Valid() && Represents(heap.Blocks(), at, store)
      && length.Keys == store.Keys && forall id :: id in store ==> length[id] == |store[id]|
    }

    constructor OfExplicit()
      ensures Valid() && store == map[] && fresh(heap.Repr())
    {
      hide Represents, ExplicitHeap.ExplicitHeap.Valid;
      var e := new ExplicitHeap.ExplicitHeap();
      heap := Explicit(e);
      at, length, store := map[], map[], map[];
      new;
      NoBlocks(heap.Blocks());
    }

    constructor OfImplicit()
      ensures Valid() && store == map[] && fresh(heap.Repr())
    {
      hide Represents, ImplicitHeap.ImplicitHeap.Valid;
      var i := new ImplicitHeap.ImplicitHeap();
      heap := Implicit(i);
      at, length, store := map[], map[], map[];
      new;
      NoBlocks(heap.Blocks());
    }

    /** The request asks for more memory than the number's block has, if any, and there is no room for so much. */
    ghost predicate Refused(op: Op)
      reads this, heap.Repr()
    {
      match op
      case Request(id, bytes) => id !in store && bytes != [] && heap.Full(|bytes|)
      case Resize(id, count, _) => RefusesMore(id, count)
      case _ => false
    }

    ghost predicate RefusesMore(id: nat, count: nat)
      reads this, heap.Repr()
    {
      id in at && at[id] >= 1 && count > 0 && !Big(heap.Blocks(), at[id] - 1, count) && heap.Full(count)
    }

    /** One request. It is granted unless there is no room for it; then nothing is lost. */
    method Step(op: Op) returns (done: bool)
      requires Valid()
      modifies this, heap.Repr()
      ensures Valid() && store == if done then Apply(old(store), op) else old(store)
      ensures (done <==> !old(Refused(op))) && (!done ==> Refused(op))
    {
      hide Represents, Allocator.Valid, Allocator.Blocks, Allocator.Full, Resized, Changed, Big;
      match op {
        case Request(id, bytes) =>
          Known(id);
          if id in at || bytes == [] { done := true; } else { done := Obtain(id, bytes); }
        case Resize(id, count, fill) =>
          Known(id);
          if id in at { done := Adjust(id, count, fill); } else { done := true; }
        case Put(id, index, value) => PutByte(id, index, value); done := true;
        case Release(id) => GiveBack(id); done := true;
      }
    }

    lemma Known(id: nat)
      requires Valid()
      ensures id in at <==> id in store
    {
    }

    /** Writes bytes one by one after those already there. */
    method FillUp(id: nat, bytes: seq<Byte>)
      requires Valid() && id in store && id in at && at[id] >= 1
      requires Big(heap.Blocks(), at[id] - 1, |store[id]| + |bytes|)
      modifies this`store, this`length, heap.Repr()
      ensures Valid() && store == old(store)[id := old(store)[id] + bytes]
    {
      hide Valid, Big;
      ghost var before, store0 := store[id], store;
      var i := 0;
      assert before + bytes[..0] == before && store0[id := before] == store0;
      while i < |bytes|
        invariant 0 <= i <= |bytes| && Valid() && store == store0[id := before + bytes[..i]]
        invariant at[id] >= 1 && Big(heap.Blocks(), at[id] - 1, |before| + |bytes|)
      {
        WriteNext(id, bytes[i], |before| + |bytes|);
        i := i + 1;
        assert before + bytes[..i - 1] + [bytes[i - 1]] == before + bytes[..i];
      }
      assert bytes[..|bytes|] == bytes;
    }

    method WriteNext(id: nat, value: Byte, ghost room: nat)
      requires Valid() && id in store && id in at && at[id] >= 1 && Big(heap.Blocks(), at[id] - 1, room)
      requires |store[id]| < room
      modifies this`store, this`length, heap.Repr()
      ensures Valid() && store == old(store)[id := old(store)[id] + [value]] && Big(heap.Blocks(), at[id] - 1, room)
    {
      hide Holds, Represents, Allocator.Valid, Allocator.Blocks, WithByte;
      ghost var v := heap.Blocks();
      IsHeld(v, at, store, id);
      heap.Store(at[id], length[id], value);
      Written(v, at[id], store[id], length[id], value);
      SameRoom(v[at[id] - 1], length[id], value);
      Rewritten(v, heap.Blocks(), at, store, id, store[id] + [value]);
      store, length := store[id := store[id] + [value]], length[id := length[id] + 1];
    }

    method Obtain(id: nat, bytes: seq<Byte>) returns (done: bool)
      requires Valid() && id !in store && bytes != []
      modifies this, heap.Repr()
      ensures Valid() && store == if done then old(store)[id := bytes] else old(store)
      ensures (done <==> !old(heap.Full(|bytes|))) && (!done ==> heap.Full(|bytes|))
    {
      hide Holds, Represents, Allocator.Valid, Allocator.Blocks, Gained, Allocator.Full, Big;
      ghost var v := heap.Blocks();
      var p := heap.Malloc(|bytes|);
      if p == 0 { return false; }
      BigIsBlock(heap.Blocks(), p - 1, |bytes|);
      HoldsNothing(heap.Blocks(), p);
      Added(v, heap.Blocks(), at, store, id, p, []);
      at, length, store := at[id := p], length[id := 0], store[id := []];
      FillUp(id, bytes);
      assert [] + bytes == bytes;
      return true;
    }

    method Adjust(id: nat, count: nat, fill: Byte) returns (done: bool)
      requires Valid() && id in store
      modifies this, heap.Repr()
      ensures Valid() && store == if !done then old(store) else Adjusted(old(store), id, count, fill)
      ensures (done <==> !old(RefusesMore(id, count))) && (!done ==> RefusesMore(id, count))
    {
      hide Holds, Represents, Allocator.Valid, Allocator.Blocks, Exchanged, Allocator.Full, Big;
      ghost var v := heap.Blocks();
      IsHeld(v, at, store, id);
      var p := heap.Realloc(at[id], count);
      if count == 0 {
        Removed(v, at, store, id);
        at, length, store := at - {id}, length - {id}, store - {id};
        return true;
      }
      if p == 0 { return false; }
      if p != at[id] {
        Relocated(v, heap.Blocks(), at, store, id, p);
        at := at[id := p];
      }
      if count <= length[id] {
        Cut(id, count);
      } else {
        FillUp(id, Repeat(fill, count - length[id]));
      }
      return true;
    }

    method Cut(id: nat, count: nat)
      requires Valid() && id in store && count <= |store[id]|
      modifies this`store, this`length
      ensures Valid() && store == old(store)[id := old(store)[id][..count]]
    {
      hide Holds, Represents, Allocator.Valid, Allocator.Blocks;
      IsHeld(heap.Blocks(), at, store, id);
      Shorter(heap.Blocks(), at[id], store[id], count);
      Rewritten(heap.Blocks(), heap.Blocks(), at, store, id, store[id][..count]);
      store, length := store[id := store[id][..count]], length[id := count];
    }

    method PutByte(id: nat, index: nat, value: Byte)
      requires Valid()
      modifies this`store, heap.Repr()
      ensures Valid() && store == Apply(old(store), Put(id, index, value))
    {
      hide Holds, Represents, Allocator.Valid, Allocator.Blocks, WithByte;
      Known(id);
      if id in at && index < length[id] {
        ghost var v := heap.Blocks();
        IsHeld(v, at, store, id);
        heap.Store(at[id], index, value);
        Written(v, at[id], store[id], index, value);
        Rewritten(v, heap.Blocks(), at, store, id, Changed(store[id], index, value));
        store := store[id := Changed(store[id], index, value)];
      }
    }

    method GiveBack(id: nat)
      requires Valid()
      modifies this, heap.Repr()
      ensures Valid() && store == old(store) - {id}
    {
      hide Holds, Represents, Allocator.Valid, Allocator.Blocks;
      Known(id);
      if id in at {
        ghost var v := heap.Blocks();
        IsHeld(v, at, store, id);
        heap.Free(at[id]);
        Removed(v, at, store, id);
        at, length, store := at - {id}, length - {id}, store - {id};
      }
    }

    /** A whole run, up to the first request that must be refused: the blocks hold what the requests before it say,
        whatever the allocator did meanwhile, and only want of room ends a run. */
    method Run(ops: seq<Op>) returns (count: nat)
      requires Valid()
      modifies this, heap.Repr()
      ensures Valid() && count <= |ops| && store == ApplyAll(old(store), ops[..count])
      ensures count < |ops| ==> Refused(ops[count])
    {
      hide Represents, Allocator.Valid, Allocator.Blocks, Apply, Refused;
      count := 0;
      ghost var start := store;
      while count < |ops|
        invariant Valid() && 0 <= count <= |ops| && store == ApplyAll(start, ops[..count])
      {
        var done := Step(ops[count]);
        if !done { return; }
        count := count + 1;
        assert ops[..count][..count - 1] == ops[..count - 1];
      }
    }
  }
}

/** What the allocator's clients see of the heap: the allocated blocks and their payloads. */
module HeapUse {
  import opened HeapLayout
  import opened HeapMemory

  /** The same blocks are allocated, with the same sizes. */
  ghost predicate SameUsed(l: Layout, l': Layout) {
    && (forall b :: b in l && l[b].used ==> b in l' && l'[b].used && l'[b].size == l[b].size)
    && (forall b :: b in l' && l'[b].used ==> b in l && l[b].used)
  }

  /** One more block is allocated. */
  ghost predicate OneMore(l: Layout, l': Layout, b: nat) {
    && b in l' && l'[b].used && !(b in l && l[b].used)
    && (forall a :: a in l && l[a].used ==> a in l' && l'[a].used && l'[a].size == l[a].size)
    && (forall a :: a in l' && l'[a].used && a != b ==> a in l && l[a].used)
  }

  lemma NewBlock(l: Layout, l': Layout, b: nat)
    requires OneMore(l, l', b)
    ensures b in l' && l'[b].used
  {
  }

  lemma SameUsedRefl(l: Layout)
    ensures SameUsed(l, l)
  {
  }

  lemma SameUsedTrans(l: Layout, l': Layout, l'': Layout)
    requires SameUsed(l, l') && SameUsed(l', l'')
    ensures SameUsed(l, l'')
  {
  }

  lemma KeptAcross(m: Words, m': Words, m'': Words, l: Layout, l': Layout)
    requires Kept(m, m', l) && SameUsed(l, l') && Kept(m', m'', l')
    ensures Kept(m, m'', l)
  {
    hide Payload;
  }

  lemma SplitSameUsed(l: Layout, brk: nat, b: nat, size: nat)
    requires Tiled(l, brk) && CanSplit(l, b, size) && !l[b].used
    ensures SameUsed(l, Split(l, b, size))
  {
    hide Tiled;
    SplitNew(l, brk, b, size);
  }

  lemma MergeSameUsed(l: Layout, brk: nat, a: nat)
    requires Tiled(l, brk) && CanMerge(l, a) && !l[a].used && !l[a + l[a].size].used
    ensures SameUsed(l, Merge(l, a))
  {
    hide Tiled;
    At(l, brk, a);
    At(l, brk, a + l[a].size);
  }

  lemma AllocateOneMore(l: Layout, b: nat)
    requires b in l && !l[b].used
    ensures OneMore(l, SetUsed(l, b, true), b)
  {
  }

  lemma FreeOneLess(l: Layout, b: nat)
    requires b in l && l[b].used
    ensures OneMore(SetUsed(l, b, false), l, b)
  {
  }

  lemma AppendOneMore(l: Layout, brk: nat, first: nat, last: nat, size: nat)
    requires Tiled(l, brk) && Ends(l, brk, first, last)
    ensures OneMore(l, Append(l, brk, last, size), brk)
  {
    hide Tiled;
    AppendNew(l, brk, first, last);
  }

  lemma OneMoreAfter(l: Layout, l': Layout, l'': Layout, b: nat)
    ensures SameUsed(l, l') && OneMore(l', l'', b) ==> OneMore(l, l'', b)
    ensures OneMore(l, l', b) && SameUsed(l', l'') ==> OneMore(l, l'', b)
    ensures OneMore(l', l, b) && SameUsed(l', l'') ==> OneMore(l'', l, b)
  {
  }

  /** Payloads of allocated blocks begin at multiples of 16 bytes, lie inside the heap, and do not overlap. */
  lemma PayloadsApart(l: Layout, brk: nat, a: nat, b: nat)
    requires Tiled(l, brk) && a in l && b in l && a != b
    ensures (a + 1) % 2 == 0 && 1 <= a && a + l[a].size <= brk
    ensures a + l[a].size - 1 <= b + 1 || b + l[b].size - 1 <= a + 1
  {
    hide Tiled;
    At(l, brk, a);
    At(l, brk, b);
    Separate(l, brk, a, b);
  }

  // ---------- Room ----------

  /** So many words from `a` on are below the break and in no allocated block. */
  ghost predicate Room(l: Layout, brk: nat, a: nat, words: nat) {
    1 <= a && a + words <= brk && forall b :: b in l && l[b].used ==> b + l[b].size <= a || a + words <= b
  }

  /** So many words are nowhere free in one stretch, and the region has not so many left beyond the break. */
  ghost predicate Full(l: Layout, brk: nat, words: nat) {
    (forall a: nat :: !Room(l, brk, a, words)) && brk + words > MAX_HEAP
  }

  ghost predicate NoneFits(l: Layout, words: nat) { forall b :: b in l && !l[b].used ==> l[b].size < words }

  /** The blocks are the same, but for a new allocated one. */
  ghost predicate Grown(l: Layout, l': Layout, b: nat, size: nat) {
    b in l' && l' == l[b := l'[b]] && l'[b].used && l'[b].size == size
  }

  lemma AppendGrown(l: Layout, brk: nat, last: nat, size: nat)
    ensures Grown(l, Append(l, brk, last, size), brk, size)
  {
  }

  lemma SameFull(l: Layout, l': Layout, brk: nat, words: nat)
    requires SameUsed(l, l')
    ensures Full(l, brk, words) <==> Full(l', brk, words)
  {
    forall a: nat ensures Room(l, brk, a, words) <==> Room(l', brk, a, words) {}
  }

  lemma NextBlock(l: Layout, brk: nat, b: nat)
    requires Tiled(l, brk) && b in l && b + l[b].size < brk
    ensures var n := b + l[b].size; n in l && n < n + l[n].size
  {
    hide Tiled;
    At(l, brk, b);
    At(l, brk, b + l[b].size);
  }

  /** Where no two free blocks are adjacent, a stretch of free words lies in one of them. */
  lemma RoomInBlock(l: Layout, brk: nat, a: nat, words: nat) returns (b: nat)
    requires Tiled(l, brk) && Spaced(l, {}) && words > 0 && Room(l, brk, a, words)
    ensures b in l && !l[b].used && l[b].size >= words
  {
    hide Tiled;
    b := Covers(l, brk, a);
    At(l, brk, b);
    if b + l[b].size < brk { NextBlock(l, brk, b); }
  }

  lemma BlockIsRoom(l: Layout, brk: nat, b: nat, words: nat)
    requires Tiled(l, brk) && b in l && !l[b].used && l[b].size >= words
    ensures Room(l, brk, b, words)
  {
    hide Tiled;
    At(l, brk, b);
    forall c | c in l && l[c].used ensures c + l[c].size <= b || b + words <= c { Separate(l, brk, b, c); }
  }

  lemma FullWhenSpaced(l: Layout, brk: nat, words: nat)
    requires Tiled(l, brk) && Spaced(l, {}) && words > 0
    ensures Full(l, brk, words) <==> NoneFits(l, words) && brk + words > MAX_HEAP
  {
    hide Tiled, Spaced, Room;
    if NoneFits(l, words) {
      forall a: nat ensures !Room(l, brk, a, words) {
        if Room(l, brk, a, words) { var b := RoomInBlock(l, brk, a, words); }
      }
    } else {
      var b :| b in l && !l[b].used && l[b].size >= words;
      BlockIsRoom(l, brk, b, words);
    }
  }

  // ---------- Writes by a client ----------

  /** The memories differ only inside the payload of one block. */
  ghost predicate WithinPayload(m: Words, m': Words, l: Layout, b: nat)
    requires b in l
  {
    |m'| == |m| && forall k :: 0 <= k < |m| && (k <= b || k >= b + l[b].size - 1) ==> m'[k] == m[k]
  }

  /** The payloads of all allocated blocks but one are the same. */
  ghost predicate KeptBut(m: Words, m': Words, l: Layout, b: nat) {
    |m| == |m'| && forall a :: a in l && l[a].used && a != b ==> Payload(m', a, l[a].size) == Payload(m, a, l[a].size)
  }

  lemma PayloadWriteAt(m: Words, m': Words, l: Layout, brk: nat, b: nat, a: nat)
    requires Tiled(l, brk) && Tagged(m, l) && b in l && WithinPayload(m, m', l, b) && a in l
    ensures TagAt(m', l, a) && a + 2 < |m|
    ensures a != b ==>
            Payload(m', a, l[a].size) == Payload(m, a, l[a].size) && m'[a + 1] == m[a + 1] && m'[a + 2] == m[a + 2]
  {
    hide Tiled;
    assert TagAt(m, l, a) && TagAt(m, l, b);
    if a != b { Separate(l, brk, a, b); }
  }

  /** A client that writes inside one payload disturbs nothing else. */
  lemma PayloadWrite(m: Words, m': Words, l: Layout, brk: nat, b: nat)
    requires Tiled(l, brk) && Tagged(m, l) && b in l && l[b].used && WithinPayload(m, m', l, b)
    ensures Tagged(m', l) && LinksKept(m, m', l) && KeptBut(m, m', l, b)
  {
    hide Tiled, Tagged, Payload;
    forall a | a in l ensures TagAt(m', l, a) && a + 2 < |m| &&
      (a != b ==>
         Payload(m', a, l[a].size) == Payload(m, a, l[a].size) && m'[a + 1] == m[a + 1] && m'[a + 2] == m[a + 2])
    {
      PayloadWriteAt(m, m', l, brk, b, a);
    }
    assert Tagged(m', l) by { TaggedIntro(m', l); }
  }

  lemma TaggedIntro(m: Words, l: Layout)
    requires forall b :: b in l ==> TagAt(m, l, b)
    ensures Tagged(m, l)
  {
  }

  /** `memcpy` between separate ranges, by words. */
  method CopyWords(mem: array<nat>, to: nat, from: nat, n: nat)
    requires to + n <= mem.Length && from + n <= mem.Length && (to + n <= from || from + n <= to)
    modifies mem
    ensures mem[to..to + n] == old(mem[from..from + n])
    ensures forall k :: 0 <= k < mem.Length && !(to <= k < to + n) ==> mem[k] == old(mem[k])
  {
    ghost var was := mem[..];
    var i := 0;
    while i < n
      invariant 0 <= i <= n
      invariant forall k :: to <= k < to + i ==> mem[k] == was[k - to + from]
      invariant forall k :: 0 <= k < mem.Length && !(to <= k < to + i) ==> mem[k] == was[k]
    {
      mem[to + i] := mem[from + i];
      i := i + 1;
    }
  }
}

/** The words of the heap: the header and footer of each block, and the links of the free list. */
module HeapMemory {
  import opened Common
  import opened HeapLayout

  type Words = seq<nat>

  /** A header or footer: the size, and in the low bit whether the block is allocated. */
  function Tag(k: Block): nat { k.size + if k.used then 1 else 0 }

  /** `get_size` and `is_allocated`, of a header or footer. */
  function SizeOf(tag: nat): nat { tag - tag % 2 }

  predicate IsAllocated(tag: nat) { tag % 2 == 1 }

  ghost predicate TagAt(m: Words, l: Layout, b: nat)
    requires b in l
  {
    4 <= l[b].size && b + l[b].size <= |m| && m[b] == Tag(l[b]) && m[b + l[b].size - 1] == Tag(l[b])
  }

  /** Each block has its tag in the header and again in the footer. */
  ghost predicate Tagged(m: Words, l: Layout) { forall b {:trigger TagAt(m, l, b)} :: b in l ==> TagAt(m, l, b) }

  /** The words of a block between header and footer. */
  function Payload(m: Words, b: nat, size: nat): Words {
    if 2 <= size && b + size <= |m| then m[b + 1..b + size - 1] else []
  }

  /** The payloads of allocated blocks are the same in both memories. */
  ghost predicate Kept(m: Words, m': Words, l: Layout) {
    |m| == |m'| && forall b :: b in l && l[b].used ==> Payload(m', b, l[b].size) == Payload(m, b, l[b].size)
  }

  // ---------- The free list ----------

  ghost predicate FreeBlock(l: Layout, out: set<nat>, b: nat) { b in l && !l[b].used && b !in out }

  /** The list holds each free block once, but for those in `out`. */
  ghost predicate Members(l: Layout, list: seq<nat>, out: set<nat>) {
    && Distinct(list)
    && (forall i :: 0 <= i < |list| ==> FreeBlock(l, out, list[i]))
    && (forall b {:trigger FreeBlock(l, out, b)} :: FreeBlock(l, out, b) ==> b in list)
  }

  function Head(list: seq<nat>): nat { if list == [] then 0 else list[0] }

  function NextOf(list: seq<nat>, i: nat): nat { if i + 1 < |list| then list[i + 1] else 0 }

  /** Word 1 of a free block is the left link, word 2 the right one. The left link of the head may hold anything. */
  ghost predicate LinkAt(m: Words, list: seq<nat>, i: nat)
    requires i < |list|
  {
    list[i] + 2 < |m| && m[list[i] + 2] == NextOf(list, i) && (i > 0 ==> m[list[i] + 1] == list[i - 1])
  }

  ghost predicate Chain(m: Words, list: seq<nat>) {
    forall i {:trigger LinkAt(m, list, i)} :: 0 <= i < |list| ==> LinkAt(m, list, i)
  }

  /** The links in free blocks are the same in both memories. */
  ghost predicate LinksKept(m: Words, m': Words, l: Layout) {
    |m| == |m'| && forall b :: b in l && !l[b].used && b + 2 < |m| ==> m'[b + 1] == m[b + 1] && m'[b + 2] == m[b + 2]
  }

  lemma ChainFrame(m: Words, m': Words, l: Layout, list: seq<nat>, out: set<nat>)
    requires Chain(m, list) && Members(l, list, out) && LinksKept(m, m', l)
    ensures Chain(m', list)
  {
    forall i | 0 <= i < |list| ensures LinkAt(m', list, i) {
      assert LinkAt(m, list, i) && FreeBlock(l, out, list[i]);
    }
  }

  // ---------- Writing a word ----------

  lemma PayloadOutside(m: Words, k: nat, v: nat, b: nat, size: nat)
    requires k < |m| && (k <= b || k >= b + size - 1)
    ensures Payload(m[k := v], b, size) == Payload(m, b, size)
  {
  }

  lemma TagOutside(m: Words, l: Layout, k: nat, v: nat, b: nat)
    requires k < |m| && b in l && TagAt(m, l, b) && k != b && k != b + l[b].size - 1
    ensures TagAt(m[k := v], l, b)
  {
  }

  /** Writing a link of a free block disturbs no tag and no payload. */
  lemma LinkWrite(m: Words, l: Layout, brk: nat, f: nat, k: nat, v: nat)
    requires Tiled(l, brk) && Tagged(m, l) && f in l && !l[f].used && (k == f + 1 || k == f + 2)
    ensures k < |m| && Tagged(m[k := v], l) && Kept(m, m[k := v], l)
  {
    hide Tiled, Payload;
    assert TagAt(m, l, f);
    forall b | b in l ensures TagAt(m[k := v], l, b)
        && (l[b].used ==> Payload(m[k := v], b, l[b].size) == Payload(m, b, l[b].size)) {
      assert TagAt(m, l, b);
      if b != f {
        Separate(l, brk, b, f);
        PayloadOutside(m, k, v, b, l[b].size);
      }
      TagOutside(m, l, k, v, b);
    }
  }

  lemma KeptTrans(m: Words, m': Words, m'': Words, l: Layout)
    requires Kept(m, m', l) && Kept(m', m'', l)
    ensures Kept(m, m'', l)
  {
    hide Payload;
  }

  lemma KeptRefl(m: Words, l: Layout)
    ensures Kept(m, m, l)
  {
  }

  // ---------- Writing headers and footers ----------

  function WriteTag(m: Words, b: nat, size: nat, used: bool): Words
    requires 1 <= size && b + size <= |m|
  {
    var t := Tag(Block(size, used, 0));
    m[b := t][b + size - 1 := t]
  }

  /** A block apart from the written tag is not disturbed. */
  lemma TagApart(m: Words, l: Layout, b: nat, size: nat, used: bool, c: nat)
    requires 4 <= size && b + size <= |m| && c in l && TagAt(m, l, c)
    requires c + l[c].size <= b || b + size <= c
    ensures var m' := WriteTag(m, b, size, used);
            TagAt(m', l, c) && Payload(m', c, l[c].size) == Payload(m, c, l[c].size) && m'[c + 1] == m[c + 1]
                && m'[c + 2] == m[c + 2]
  {
  }

  lemma SetUsedTagged(m: Words, l: Layout, brk: nat, b: nat, used: bool)
    requires Tiled(l, brk) && Tagged(m, l) && b in l
    ensures TagAt(m, l, b)
    ensures var m' := WriteTag(m, b, l[b].size, used);
            Tagged(m', SetUsed(l, b, used)) && Kept(m, m', l) && LinksKept(m, m', l)
  {
    hide Tiled, Payload;
    assert TagAt(m, l, b);
    var l', m' := SetUsed(l, b, used), WriteTag(m, b, l[b].size, used);
    forall c | c in l
      ensures TagAt(m', l', c) && Payload(m', c, l[c].size) == Payload(m, c, l[c].size) && m'[c + 1] == m[c + 1]
      ensures m'[c + 2] == m[c + 2]
    {
      assert TagAt(m, l, c);
      if c != b {
        Separate(l, brk, b, c);
        TagApart(m, l, b, l[b].size, used, c);
        assert TagAt(m', l, c);
      } else {
        OwnPayload(m, b, l[b].size, used);
      }
    }
  }

  lemma OwnPayload(m: Words, b: nat, size: nat, used: bool)
    requires 4 <= size && b + size <= |m|
    ensures Payload(WriteTag(m, b, size, used), b, size) == Payload(m, b, size)
  {
  }

  /** The tags of both parts of a split block. */
  function WriteSplit(m: Words, b: nat, size: nat, total: nat): Words
    requires 1 <= size < total && b + total <= |m|
  {
    WriteTag(WriteTag(m, b, size, false), b + size, total - size, false)
  }

  lemma SplitTagged(m: Words, l: Layout, brk: nat, b: nat, size: nat)
    requires Tiled(l, brk) && Tagged(m, l) && CanSplit(l, b, size) && 4 <= size && size + 4 <= l[b].size && !l[b].used
    ensures TagAt(m, l, b)
    ensures var m' := WriteSplit(m, b, size, l[b].size);
            Tagged(m', Split(l, b, size)) && Kept(m, m', l) && LinksKept(m, m', l)
  {
    hide Tiled, Payload;
    assert TagAt(m, l, b);
    SplitNew(l, brk, b, size);
    SplitKeys(l, b, size);
    var l', m' := Split(l, b, size), WriteSplit(m, b, size, l[b].size);
    forall c | c in l'
      ensures TagAt(m', l', c)
      ensures c in l ==> (l[c].used ==> Payload(m', c, l[c].size) == Payload(m, c, l[c].size))
                         && m'[c + 1] == m[c + 1] && m'[c + 2] == m[c + 2]
    {
      if c in l && c != b { SplitOther(m, l, brk, b, size, c); }
    }
  }

  lemma SplitOther(m: Words, l: Layout, brk: nat, b: nat, size: nat, c: nat)
    requires Tiled(l, brk) && Tagged(m, l) && CanSplit(l, b, size) && 4 <= size && size + 4 <= l[b].size
    requires c in l && c != b && TagAt(m, l, b)
    ensures var m' := WriteSplit(m, b, size, l[b].size);
            TagAt(m', Split(l, b, size), c) && Payload(m', c, l[c].size) == Payload(m, c, l[c].size)
            && m'[c + 1] == m[c + 1] && m'[c + 2] == m[c + 2]
  {
    hide Tiled, Payload;
    SplitNew(l, brk, b, size);
    assert TagAt(m, l, c);
    Separate(l, brk, b, c);
    TagApart(m, l, b, size, false, c);
    TagApart(WriteTag(m, b, size, false), l, b + size, l[b].size - size, false, c);
    assert TagAt(WriteSplit(m, b, size, l[b].size), l, c);
  }

  lemma MergeTagged(m: Words, l: Layout, brk: nat, a: nat)
    requires Tiled(l, brk) && Tagged(m, l) && CanMerge(l, a) && !l[a].used && !l[a + l[a].size].used
    ensures 4 <= l[a].size + l[a + l[a].size].size <= |m| - a
    ensures var m' := WriteTag(m, a, l[a].size + l[a + l[a].size].size, false);
            Tagged(m', Merge(l, a)) && Kept(m, m', l) && LinksKept(m, m', l)
  {
    hide Tiled, Payload, Merge, WriteTag, TagAt;
    var n := a + l[a].size;
    assert TagAt(m, l, a) && TagAt(m, l, n);
    MergeSelf(m, l, brk, a);
    var l', m' := Merge(l, a), WriteTag(m, a, l[a].size + l[n].size, false);
    MergeKeys(l, brk, a);
    forall c | c in l
      ensures c != n ==> TagAt(m', l', c)
      ensures l[c].used ==> Payload(m', c, l[c].size) == Payload(m, c, l[c].size)
      ensures c + 2 < |m| ==> m'[c + 1] == m[c + 1] && m'[c + 2] == m[c + 2]
    {
      if c != a && c != n { MergeOther(m, l, brk, a, c); }
    }
  }

  /** The merged block itself. */
  lemma MergeSelf(m: Words, l: Layout, brk: nat, a: nat)
    requires Tiled(l, brk) && CanMerge(l, a) && !l[a].used && !l[a + l[a].size].used
    requires TagAt(m, l, a) && TagAt(m, l, a + l[a].size)
    ensures 4 <= l[a].size + l[a + l[a].size].size <= |m| - a
    ensures var m', n := WriteTag(m, a, l[a].size + l[a + l[a].size].size, false), a + l[a].size;
            && |m'| == |m| && a in Merge(l, a) && TagAt(m', Merge(l, a), a)
            && m'[a + 1] == m[a + 1] && m'[a + 2] == m[a + 2] && m'[n + 1] == m[n + 1] && m'[n + 2] == m[n + 2]
  {
    hide Tiled;
  }

  lemma MergeOther(m: Words, l: Layout, brk: nat, a: nat, c: nat)
    requires Tiled(l, brk) && Tagged(m, l) && CanMerge(l, a) && c in l && c != a && c != a + l[a].size
    requires TagAt(m, l, a) && TagAt(m, l, a + l[a].size)
    ensures var m' := WriteTag(m, a, l[a].size + l[a + l[a].size].size, false);
            c in Merge(l, a) && TagAt(m', Merge(l, a), c) && Payload(m', c, l[c].size) == Payload(m, c, l[c].size)
            && m'[c + 1] == m[c + 1] && m'[c + 2] == m[c + 2]
  {
    hide Tiled, Payload;
    var n := a + l[a].size;
    assert TagAt(m, l, c);
    Separate(l, brk, a, c);
    Separate(l, brk, n, c);
    TagApart(m, l, a, l[a].size + l[n].size, false, c);
    assert TagAt(WriteTag(m, a, l[a].size + l[n].size, false), l, c);
  }

  lemma AppendTagged(m: Words, l: Layout, brk: nat, first: nat, last: nat, size: nat)
    requires Tiled(l, brk) && Ends(l, brk, first, last) && Tagged(m, l) && 4 <= size && brk + size <= |m|
    ensures var m' := WriteTag(m, brk, size, true);
            Tagged(m', Append(l, brk, last, size)) && Kept(m, m', l) && LinksKept(m, m', l)
  {
    hide Tiled, Payload;
    AppendNew(l, brk, first, last);
    var l', m' := Append(l, brk, last, size), WriteTag(m, brk, size, true);
    forall c | c in l
      ensures TagAt(m', l', c) && Payload(m', c, l[c].size) == Payload(m, c, l[c].size) && m'[c + 1] == m[c + 1]
      ensures m'[c + 2] == m[c + 2]
    {
      At(l, brk, c);
      assert TagAt(m, l, c);
      TagApart(m, l, brk, size, true, c);
      assert TagAt(m', l, c);
    }
  }

  // ---------- Links ----------

  /** Free blocks are at least four words apart, so their links do not overlap. */
  lemma NodesApart(m: Words, l: Layout, brk: nat, a: nat, b: nat)
    requires Tiled(l, brk) && Tagged(m, l) && a in l && b in l && a != b
    ensures a + 4 <= b || b + 4 <= a
  {
    hide Tiled;
    assert TagAt(m, l, a) && TagAt(m, l, b);
    Separate(l, brk, a, b);
  }

  /** `add_free_node`. */
  function PushFront(m: Words, list: seq<nat>, f: nat): Words
    requires f + 2 < |m| && (list == [] || list[0] + 1 < |m|)
  {
    if list == [] then m[f + 1 := 0][f + 2 := 0]
    else m[f + 2 := list[0]][list[0] + 1 := f][f + 1 := 0]
  }

  lemma PushFrontChain(m: Words, l: Layout, brk: nat, list: seq<nat>, out: set<nat>, f: nat)
    requires Tiled(l, brk) && Tagged(m, l) && Chain(m, list) && Members(l, list, out) && f in out && f in l
    requires !l[f].used
    ensures f + 2 < |m| && (list == [] || list[0] + 1 < |m|)
    ensures Chain(PushFront(m, list, f), [f] + list) && Members(l, [f] + list, out - {f})
  {
    hide Tiled, Tagged;
    assert f + 2 < |m| by { NodeInside(m, l, f); }
    if list != [] { assert FreeBlock(l, out, list[0]); NodeInside(m, l, list[0]); NodesApart(m, l, brk, f, list[0]); }
    var m', list' := PushFront(m, list, f), [f] + list;
    forall i | 0 <= i < |list'| ensures LinkAt(m', list', i) {
      if i > 0 { PushFrontAt(m, l, brk, list, out, f, i - 1); }
    }
    PushMembers(l, list, out, f);
  }

  lemma PushFrontAt(m: Words, l: Layout, brk: nat, list: seq<nat>, out: set<nat>, f: nat, i: nat)
    requires Tiled(l, brk) && Tagged(m, l) && Chain(m, list) && Members(l, list, out) && f in out && f in l
    requires i < |list|
    requires f + 2 < |m| && list[0] + 1 < |m|
    ensures LinkAt(PushFront(m, list, f), [f] + list, i + 1)
  {
    hide Tiled, Tagged;
    assert FreeBlock(l, out, list[i]) && FreeBlock(l, out, list[0]) && LinkAt(m, list, i);
    NodesApart(m, l, brk, f, list[i]);
    NodesApart(m, l, brk, f, list[0]);
    if i > 0 { NodesApart(m, l, brk, list[0], list[i]); }
    assert NextOf([f] + list, i + 1) == NextOf(list, i);
  }

  lemma PushMembers(l: Layout, list: seq<nat>, out: set<nat>, f: nat)
    requires Members(l, list, out) && f in out && f in l && !l[f].used
    ensures Members(l, [f] + list, out - {f})
  {
    var list', out' := [f] + list, out - {f};
    forall i | 0 <= i < |list'| ensures FreeBlock(l, out', list'[i]) && (i > 0 ==> list'[i] != f) {
      if i > 0 { assert FreeBlock(l, out, list[i - 1]); }
    }
    forall b | FreeBlock(l, out', b) ensures b in list' {
      if b != f { assert FreeBlock(l, out, b); } else { assert list'[0] == f; }
    }
  }

  lemma NodeInside(m: Words, l: Layout, f: nat)
    requires Tagged(m, l) && f in l
    ensures f + 3 < |m|
  {
    assert TagAt(m, l, f);
  }

  /** The list without one of its blocks. */
  function Minus(list: seq<nat>, b: nat): seq<nat> {
    if list == [] then []
    else if list[0] == b then Minus(list[1..], b)
    else [list[0]] + Minus(list[1..], b)
  }

  lemma {:induction false} MinusWithout(list: seq<nat>, i: nat)
    requires Distinct(list) && i < |list|
    ensures Minus(list, list[i]) == Without(list, i)
  {
    var rest := list[1..];
    if i == 0 {
      MinusNothing(rest, list[0]);
    } else {
      MinusWithout(rest, i - 1);
      assert Without(list, i) == [list[0]] + Without(rest, i - 1);
    }
  }

  lemma {:induction false} MinusNothing(list: seq<nat>, b: nat)
    requires b !in list
    ensures Minus(list, b) == list
  {
    if list != [] {
      MinusNothing(list[1..], b);
      assert list == [list[0]] + list[1..];
    }
  }

  function Without(list: seq<nat>, i: nat): seq<nat>
    requires i < |list|
  {
    list[..i] + list[i + 1..]
  }

  /** Unlinking node `i`; the new head's left link is cleared (`clear`), or left as it was. */
  function Unlink(m: Words, list: seq<nat>, i: nat, clear: bool): Words
    requires i < |list| && forall j :: 0 <= j < |list| ==> list[j] + 2 < |m|
  {
    var right := NextOf(list, i);
    if i == 0 then (if clear && right != 0 then m[right + 1 := 0] else m)
    else
      var m1 := m[list[i - 1] + 2 := right];
      if right != 0 then m1[right + 1 := list[i - 1]] else m1
  }

  lemma WithoutMembers(l: Layout, list: seq<nat>, out: set<nat>, i: nat)
    requires Members(l, list, out) && i < |list|
    ensures Members(l, Without(list, i), out + {list[i]})
  {
    var list', out' := Without(list, i), out + {list[i]};
    forall j | 0 <= j < |list'| ensures FreeBlock(l, out', list'[j]) {
      var k := if j < i then j else j + 1;
      assert list'[j] == list[k] && FreeBlock(l, out, list[k]);
    }
    forall b | FreeBlock(l, out', b) ensures b in list' {
      assert FreeBlock(l, out, b);
      var k :| 0 <= k < |list| && list[k] == b;
      assert list'[if k < i then k else k - 1] == b;
    }
  }

  lemma UnlinkChain(m: Words, l: Layout, brk: nat, list: seq<nat>, out: set<nat>, i: nat, clear: bool)
    requires Tiled(l, brk) && Tagged(m, l) && Chain(m, list) && Members(l, list, out) && i < |list|
    ensures forall j :: 0 <= j < |list| ==> list[j] + 2 < |m|
    ensures Chain(Unlink(m, list, i, clear), Without(list, i))
  {
    hide Tiled, Tagged;
    forall j | 0 <= j < |list| ensures list[j] + 2 < |m| { assert FreeBlock(l, out, list[j]); NodeInside(m, l,
        list[j]); }
    var list' := Without(list, i);
    forall j | 0 <= j < |list'| ensures LinkAt(Unlink(m, list, i, clear), list', j) {
      UnlinkAt(m, l, brk, list, out, i, clear, j);
    }
  }

  lemma WithoutAt(list: seq<nat>, i: nat, j: nat)
    requires i < |list| && j < |list| - 1
    ensures var list' := Without(list, i); var k := if j < i then j else j + 1;
            && |list'| == |list| - 1 && list'[j] == list[k]
            && NextOf(list', j) == (if j + 1 == i then NextOf(list, i) else NextOf(list, k))
            && (j > 0 ==> list'[j - 1] == if j == i then list[i - 1] else list[k - 1])
  {
  }

  lemma UnlinkAt(m: Words, l: Layout, brk: nat, list: seq<nat>, out: set<nat>, i: nat, clear: bool, j: nat)
    requires Tiled(l, brk) && Tagged(m, l) && Chain(m, list) && Members(l, list, out) && i < |list| && j < |list| - 1
    requires forall j :: 0 <= j < |list| ==> list[j] + 2 < |m|
    ensures LinkAt(Unlink(m, list, i, clear), Without(list, i), j)
  {
    hide Tiled, Tagged, Without, Members, Chain;
    var k := if j < i then j else j + 1;
    WithoutAt(list, i, j);
    ChainAt(m, list, k);
    Different(m, l, brk, list, out, i - 1, k);
    Different(m, l, brk, list, out, i + 1, k);
    Different(m, l, brk, list, out, i - 1, i + 1);
    if i + 1 < |list| { NodePositive(l, brk, list, out, i + 1); }
  }

  lemma NodePositive(l: Layout, brk: nat, list: seq<nat>, out: set<nat>, i: nat)
    requires Tiled(l, brk) && Members(l, list, out) && i < |list|
    ensures list[i] != 0
  {
    assert FreeBlock(l, out, list[i]);
    At(l, brk, list[i]);
  }

  lemma ChainAt(m: Words, list: seq<nat>, i: nat)
    requires Chain(m, list) && i < |list|
    ensures LinkAt(m, list, i)
  {
  }

  lemma Different(m: Words, l: Layout, brk: nat, list: seq<nat>, out: set<nat>, i: int, j: int)
    requires Tiled(l, brk) && Tagged(m, l) && Members(l, list, out)
    ensures 0 <= i < |list| && 0 <= j < |list| && i != j ==> list[i] + 4 <= list[j] || list[j] + 4 <= list[i]
  {
    hide Tiled, Tagged;
    if 0 <= i < |list| && 0 <= j < |list| && i != j {
      assert FreeBlock(l, out, list[i]) && FreeBlock(l, out, list[j]);
      assert list[i] != list[j];
      NodesApart(m, l, brk, list[i], list[j]);
    }
  }
}

/** The page-table pages of a tree, children before parents. */
module PostOrder {
  import opened Common
  import opened PageTable
  import opened PageWalk

  /** The pages beneath the entries of a table page from one index on, each after the pages beneath it. */
  function EntriesFrom(t: Tables, page: nat, level: nat, i: nat): seq<nat>
    decreases level, 512 - i
  {
    if level == 0 || i >= 512 then []
    else
      var e := EntryAt(t, page, i);
      (if IsTable(e) then EntriesFrom(t, e.frame, level - 1, 0) + [e.frame] else []) + EntriesFrom(t, page, level,
          i + 1)
  }

  /** All the pages of a tree but its root. */
  function Pages(t: Tables, root: nat): seq<nat> { EntriesFrom(t, root, 3, 0) }

  /** The page at a level on the way to an address. */
  function PathPage(t: Tables, root: nat, va: nat, level: nat): nat
    requires level <= 3
    decreases 3 - level
  {
    if level == 3 then root else EntryAt(t, PathPage(t, root, va, level + 1), PageIndex(va, level + 1)).frame
  }

  /** Is there a table page at this level on the way to an address? */
  predicate Reaches(t: Tables, root: nat, va: nat, level: nat)
    requires level <= 3
    decreases 3 - level
  {
    level == 3 || (Reaches(t, root, va, level + 1)
        && IsTable(EntryAt(t, PathPage(t, root, va, level + 1), PageIndex(va, level + 1))))
  }

  /** What follows the page beneath the entry at an address: the later entries of its table page, this page,
      and so on upwards. */
  function Rest(t: Tables, root: nat, va: nat, level: nat): seq<nat>
    requires level <= 3
    decreases 3 - level
  {
    EntriesFrom(t, PathPage(t, root, va, level), level, PageIndex(va, level) + 1) + Upwards(t, root, va, level)
  }

  function Upwards(t: Tables, root: nat, va: nat, level: nat): seq<nat>
    requires level <= 3
    decreases 3 - level, 0
  {
    if level == 3 then [] else [PathPage(t, root, va, level)] + Rest(t, root, va, level + 1)
  }

  /** What follows from the entry at an address on, that entry included. */
  function From(t: Tables, root: nat, va: nat, level: nat): seq<nat>
    requires level <= 3
  {
    EntriesFrom(t, PathPage(t, root, va, level), level, PageIndex(va, level)) + Upwards(t, root, va, level)
  }

  // The definitions, one step at a time.

  lemma EntriesStep(t: Tables, page: nat, level: nat, i: nat)
    requires 0 < level && i < 512
    ensures var e := EntryAt(t, page, i);
            EntriesFrom(t, page, level, i)
            == (if IsTable(e) then EntriesFrom(t, e.frame, level - 1, 0) + [e.frame] else []) + EntriesFrom(t, page,
                level, i + 1)
  {
    hide IsTable, EntryAt;
  }

  lemma EntriesEnd(t: Tables, page: nat, level: nat, i: nat)
    requires level == 0 || i == 512
    ensures EntriesFrom(t, page, level, i) == []
  {
  }

  lemma PathStep(t: Tables, root: nat, va: nat, level: nat)
    requires level < 3
    ensures var e := EntryAt(t, PathPage(t, root, va, level + 1), PageIndex(va, level + 1));
            PathPage(t, root, va, level) == e.frame
                && (Reaches(t, root, va, level) <==> Reaches(t, root, va, level + 1) && IsTable(e))
  {
    hide IsTable, EntryAt, PageIndex;
  }

  lemma UpwardsStep(t: Tables, root: nat, va: nat, level: nat)
    requires level < 3
    ensures Upwards(t, root, va, level) == [PathPage(t, root, va, level)] + Rest(t, root, va, level + 1)
    ensures Rest(t, root, va, level + 1)
            == EntriesFrom(t, PathPage(t, root, va, level + 1), level + 1, PageIndex(va, level + 1) + 1) + Upwards(t,
                root, va, level + 1)
  {
    hide EntriesFrom, PathPage, PageIndex, IsTable;
  }

  // ---------- Moves of the traversal ----------

  /** Only the part of the address above a level matters to what lies above. */
  lemma {:induction false} SameAbove(t: Tables, root: nat, va: nat, va': nat, level: nat)
    requires level <= 3 && va / Span(level + 1) == va' / Span(level + 1)
    ensures PathPage(t, root, va, level) == PathPage(t, root, va', level)
    ensures Reaches(t, root, va, level) == Reaches(t, root, va', level)
    ensures Upwards(t, root, va, level) == Upwards(t, root, va', level)
    decreases 3 - level
  {
    if level < 3 {
      hide EntriesFrom, IsTable, Span, PathPage, Reaches, EntryAt, PageIndex, Upwards, Rest;
      QuotientUp(va, va', level + 1, level + 2);
      UpwardsStep(t, root, va, level);
      UpwardsStep(t, root, va', level);
      SameAbove(t, root, va, va', level + 1);
      PathStep(t, root, va, level);
      PathStep(t, root, va', level);
      SameIndex(va, va', level + 1);
    } else {
      hide EntriesFrom, IsTable, Rest;
    }
  }

  lemma SameIndex(va: nat, va': nat, level: nat)
    requires level <= 3 && va / Span(level) == va' / Span(level)
    ensures PageIndex(va, level) == PageIndex(va', level)
  {
  }

  /** A hole adds nothing. */
  lemma SkipHole(t: Tables, root: nat, va: nat, level: nat)
    requires 0 < level <= 3 && !IsTable(EntryAt(t, PathPage(t, root, va, level), PageIndex(va, level)))
    ensures From(t, root, va, level) == Rest(t, root, va, level)
  {
    hide IsTable, PathPage, Upwards, EntriesFrom, EntryAt, PageIndex;
    EntriesStep(t, PathPage(t, root, va, level), level, PageIndex(va, level));
  }

  /** Going down at the start of a region. */
  lemma Descend(t: Tables, root: nat, va: nat, level: nat)
    requires 0 < level <= 3 && Offset(va, level) == 0
    requires IsTable(EntryAt(t, PathPage(t, root, va, level), PageIndex(va, level)))
    ensures From(t, root, va, level) == From(t, root, va, level - 1) && Offset(va, level - 1) == 0
    ensures level == 1 ==> From(t, root, va, level) == [PathPage(t, root, va, 0)] + Rest(t, root, va, 1)
  {
    hide IsTable, Span, PageIndex, EntriesFrom, EntryAt, PathPage, Reaches, Offset, Upwards, Rest;
    FirstIndex(va, level - 1);
    UpwardsStep(t, root, va, level - 1);
    var page, i := PathPage(t, root, va, level), PageIndex(va, level);
    EntriesStep(t, page, level, i);
    PathStep(t, root, va, level - 1);
    var child := PathPage(t, root, va, level - 1);
    if level == 1 { EntriesEnd(t, child, 0, 0); }
    Reassociate(EntriesFrom(t, child, level - 1, 0), child, EntriesFrom(t, page, level, i + 1),
        Upwards(t, root, va, level));
  }

  lemma Reassociate(a: seq<nat>, x: nat, b: seq<nat>, c: seq<nat>)
    ensures ((a + [x]) + b) + c == a + ([x] + (b + c))
  {
  }

  lemma FirstIndex(va: nat, level: nat)
    requires level <= 2 && Offset(va, level + 1) == 0
    ensures PageIndex(va, level) == 0 && Offset(va, level) == 0
  {
    var n := va / Span(level + 1);
    if level == 0 { assert va == 0x1000 * (512 * n); }
    else if level == 1 { assert va == 0x20_0000 * (512 * n); }
    else { assert va == 0x4000_0000 * (512 * n); }
    assert va / Span(level) == 512 * n;
  }

  /** To the next entry of the same table page. */
  lemma Sideways(t: Tables, root: nat, va: nat, va': nat, level: nat)
    requires level <= 3 && va' == (va / Span(level) + 1) * Span(level) && va' / Span(level + 1) == va / Span(level + 1)
    ensures From(t, root, va', level) == Rest(t, root, va, level)
    ensures PathPage(t, root, va', level) == PathPage(t, root, va, level)
    ensures Reaches(t, root, va', level) == Reaches(t, root, va, level)
    ensures PageIndex(va', level) == PageIndex(va, level) + 1 && Offset(va', level) == 0
  {
    SameAbove(t, root, va, va', level);
    NextIndex(va, va', level);
  }

  lemma NextIndex(va: nat, va': nat, level: nat)
    requires level <= 3 && va' == (va / Span(level) + 1) * Span(level)
    ensures Offset(va', level) == 0
    ensures va' / Span(level + 1) == va / Span(level + 1) ==> PageIndex(va', level) == PageIndex(va, level) + 1
    ensures va' / Span(level + 1) != va / Span(level + 1) ==> PageIndex(va, level) == 511
  {
    var q := va / Span(level);
    assert va' / Span(level) == q + 1 && Offset(va', level) == 0 by {
      if level == 0 {} else if level == 1 {} else if level == 2 {} else {}
    }
    QuotientStep(va, level);
    QuotientStep(va', level);
  }

  /** From the last entry of a table page to that page. */
  lemma EndOfPage(t: Tables, root: nat, va: nat, level: nat)
    requires level <= 3 && PageIndex(va, level) == 511
    ensures Rest(t, root, va, level) == Upwards(t, root, va, level)
  {
    hide PathPage, Upwards, PageIndex, EntriesFrom;
    EntriesEnd(t, PathPage(t, root, va, level), level, 512);
  }

  lemma {:induction false} ReachesAbove(t: Tables, root: nat, va: nat, level: nat, above: nat)
    requires level <= above <= 3 && Reaches(t, root, va, level)
    ensures Reaches(t, root, va, above)
    decreases above - level
  {
    hide IsTable, EntryAt, PathPage, PageIndex;
    if level < above { ReachesAbove(t, root, va, level + 1, above); }
  }

  // ---------- The pages on the way up are still to come ----------

  lemma {:induction false} AboveToCome(t: Tables, root: nat, va: nat, level: nat, above: nat)
    requires level <= above < 3
    ensures PathPage(t, root, va, above) in Upwards(t, root, va, level)
    decreases above - level
  {
    hide EntriesFrom, PathPage, PageIndex;
    if level < above {
      AboveToCome(t, root, va, level + 1, above);
      var up := EntriesFrom(t, PathPage(t, root, va, level + 1), level + 1, PageIndex(va, level + 1) + 1);
      InLast(PathPage(t, root, va, above), PathPage(t, root, va, level), up, Upwards(t, root, va, level + 1));
    } else {
      assert Upwards(t, root, va, level)[0] == PathPage(t, root, va, above);
    }
  }

  lemma InLast(q: nat, a: nat, b: seq<nat>, c: seq<nat>)
    requires q in c
    ensures q in [a] + (b + c)
  {
    var k :| 0 <= k < |c| && c[k] == q;
    assert ([a] + (b + c))[1 + |b| + k] == q;
  }

  // ---------- Each page of a tree comes exactly once ----------

  /** A page stands in the part of the tree that covers these addresses, below this level. */
  ghost predicate Within(shape: Shape, root: nat, q: nat, level: nat, from: nat, to: nat) {
    q in shape && shape[q].root == root && shape[q].level < level && from <= shape[q].start < to
  }

  ghost predicate AllWithin(s: seq<nat>, shape: Shape, root: nat, level: nat, from: nat, to: nat) {
    forall k :: 0 <= k < |s| ==> Within(shape, root, s[k], level, from, to)
  }

  /** Where the addresses of an entry begin, in a table for the addresses from `start` on. */
  function EntryStart(start: nat, level: nat, i: nat): nat
    requires level <= 3
  {
    start + i * Span(level)
  }

  lemma {:induction false} EntriesWithin(t: Tables, shape: Shape, root: nat, page: nat, level: nat, i: nat)
    requires Forest(t, shape) && level <= 3 && i <= 512 && page in shape && shape[page].level == level
    requires shape[page].root == root
    ensures AllWithin(EntriesFrom(t, page, level, i), shape, root, level,
                      EntryStart(shape[page].start, level, i), EntryStart(shape[page].start, level, 512))
    ensures Distinct(EntriesFrom(t, page, level, i))
    decreases level, 512 - i
  {
    hide IsTable, EntryStart, EntriesFrom, Forest, EntryAt, AllWithin, Distinct;
    if level > 0 && i < 512 {
      EntriesStep(t, page, level, i);
      var e, s := EntryAt(t, page, i), shape[page].start;
      EntriesWithin(t, shape, root, page, level, i + 1);
      var later := EntriesFrom(t, page, level, i + 1);
      NextStart(s, level, i);
      Wider(later, shape, root, level, EntryStart(s, level, i + 1), EntryStart(s, level, i), EntryStart(s, level, 512));
      if IsTable(e) {
        ChildPlace(t, shape, page, i);
        EntriesWithin(t, shape, root, e.frame, level - 1, 0);
        ChildSpan(s, level, i);
        Joined(EntriesFrom(t, e.frame, level - 1, 0), e.frame, later, shape, root, level, EntryStart(s, level, i),
               EntryStart(s, level, i + 1), EntryStart(s, level, 512));
      } else {
        assert EntriesFrom(t, page, level, i) == later;
      }
    } else {
      EntriesEnd(t, page, level, i);
      var s := shape[page].start;
      NoneWithin(shape, root, level, EntryStart(s, level, i), EntryStart(s, level, 512));
    }
  }

  lemma NoneWithin(shape: Shape, root: nat, level: nat, from: nat, to: nat)
    ensures AllWithin([], shape, root, level, from, to) && Distinct<nat>([])
  {
  }

  lemma ChildPlace(t: Tables, shape: Shape, page: nat, i: nat)
    requires Forest(t, shape) && page in shape && i < 512 && 0 < shape[page].level <= 3
    requires IsTable(EntryAt(t, page, i))
    ensures var f := EntryAt(t, page, i).frame; var place := shape[page];
            f in shape && shape[f] == Place(place.root, place.level - 1, EntryStart(place.start, place.level, i))
  {
    assert PlacedEntry(t, shape, page, i);
  }

  lemma NextStart(start: nat, level: nat, i: nat)
    requires level <= 3 && i < 512
    ensures EntryStart(start, level, i) < EntryStart(start, level, i + 1) <= EntryStart(start, level, 512)
  {
    if level == 0 {} else if level == 1 {} else if level == 2 {} else {}
  }

  /** The table an entry leads to is for the addresses of that entry. */
  lemma ChildSpan(start: nat, level: nat, i: nat)
    requires 0 < level <= 3
    ensures var s := EntryStart(start, level, i);
            EntryStart(s, level - 1, 0) == s && EntryStart(s, level - 1, 512) == EntryStart(start, level, i + 1)
  {
    if level == 1 {} else if level == 2 {} else {}
  }

  lemma Wider(s: seq<nat>, shape: Shape, root: nat, level: nat, from: nat, from': nat, to: nat)
    requires AllWithin(s, shape, root, level, from, to) && from' <= from
    ensures AllWithin(s, shape, root, level, from', to)
  {
    forall k | 0 <= k < |s| ensures Within(shape, root, s[k], level, from', to) {
      assert Within(shape, root, s[k], level, from, to);
    }
  }

  /** A child's subtree, the child, and the later entries make one sequence without repetition. */
  lemma Joined(a: seq<nat>, child: nat, b: seq<nat>, shape: Shape, root: nat, level: nat, from: nat, mid: nat, to: nat)
    requires 0 < level && from < mid <= to && child in shape && shape[child] == Place(root, level - 1, from)
    requires AllWithin(a, shape, root, level - 1, from, mid) && Distinct(a)
    requires AllWithin(b, shape, root, level, mid, to) && Distinct(b)
    ensures AllWithin((a + [child]) + b, shape, root, level, from, to) && Distinct((a + [child]) + b)
  {
    var s := (a + [child]) + b;
    forall k | 0 <= k < |s|
      ensures Within(shape, root, s[k], level, from, to)
      ensures k < |a| ==> Within(shape, root, s[k], level - 1, from, mid)
      ensures k > |a| ==> shape[s[k]].start >= mid
    {
      if k < |a| { assert s[k] == a[k] && Within(shape, root, a[k], level - 1, from, mid); }
      else if k == |a| { assert s[k] == child; }
      else { assert s[k] == b[k - |a| - 1] && Within(shape, root, b[k - |a| - 1], level, mid, to); }
    }
    forall i, j | 0 <= i < j < |s| ensures s[i] != s[j] {
      if j < |a| { assert s[i] == a[i] && s[j] == a[j]; }
      else if i > |a| { assert s[i] == b[i - |a| - 1] && s[j] == b[j - |a| - 1]; }
      else if i < |a| && j == |a| { assert Within(shape, root, s[i], level - 1, from, mid); }
    }
  }

  /** No page of the tree comes twice, and the root does not come at all. */
  lemma PagesDistinct(t: Tables, shape: Shape, root: nat)
    requires Forest(t, shape) && Root(shape, root)
    ensures Distinct(Pages(t, root)) && root !in Pages(t, root)
  {
    EntriesWithin(t, shape, root, root, 3, 0);
    var s := Pages(t, root);
    forall k | 0 <= k < |s| ensures s[k] != root {
      assert Within(shape, root, s[k], 3, EntryStart(0, 3, 0), EntryStart(0, 3, 512));
    }
  }

  // ---------- Every page comes, after the pages beneath it ----------

  ghost predicate Before(s: seq<nat>, a: nat, b: nat) { exists i, j :: 0 <= i < j < |s| && s[i] == a && s[j] == b }

  /** The pages beneath one entry stand together, followed by its own page. */
  lemma {:induction false} SplitAt(t: Tables, page: nat, level: nat, from: nat, i: nat) returns (a: seq<nat>,
                                   b: seq<nat>)
    requires 0 < level && from <= i < 512 && IsTable(EntryAt(t, page, i))
    ensures var f := EntryAt(t, page, i).frame;
            EntriesFrom(t, page, level, from) == a + (EntriesFrom(t, f, level - 1, 0) + [f]) + b
    decreases i - from
  {
    hide IsTable, EntriesFrom, EntryAt;
    EntriesStep(t, page, level, from);
    if from == i {
      a, b := [], EntriesFrom(t, page, level, i + 1);
    } else {
      var e := EntryAt(t, page, from);
      var first := if IsTable(e) then EntriesFrom(t, e.frame, level - 1, 0) + [e.frame] else [];
      var a', b' := SplitAt(t, page, level, from + 1, i);
      var f := EntryAt(t, page, i).frame;
      a, b := first + a', b';
      assert first + (a' + (EntriesFrom(t, f, level - 1, 0) + [f]) + b') ==
          a + (EntriesFrom(t, f, level - 1, 0) + [f]) + b;
    }
  }

  /** What is beneath a page on the path stands in one piece in the whole. */
  lemma {:induction false} PieceOfWhole(t: Tables, root: nat, va: nat, level: nat) returns (a: seq<nat>, b: seq<nat>)
    requires level < 3 && Reaches(t, root, va, level)
    ensures var q := PathPage(t, root, va, level); Pages(t, root) == a + (EntriesFrom(t, q, level, 0) + [q]) + b
    decreases 3 - level
  {
    hide IsTable, EntriesFrom, EntryAt, PathPage, PageIndex, Reaches;
    PathStep(t, root, va, level);
    PathStep(t, root, va, 2);
    assert PathPage(t, root, va, 3) == root by { RootPath(t, root, va); }
    var q, up := PathPage(t, root, va, level), PathPage(t, root, va, level + 1);
    var a', b' := SplitAt(t, up, level + 1, 0, PageIndex(va, level + 1));
    if level == 2 {
      a, b := a', b';
    } else {
      var a'', b'' := PieceOfWhole(t, root, va, level + 1);
      a, b := a'' + a', b' + ([up] + b'');
      var m := EntriesFrom(t, q, level, 0) + [q];
      Regroup(a'', a', m, b', up, b'');
    }
  }

  lemma RootPath(t: Tables, root: nat, va: nat)
    ensures PathPage(t, root, va, 3) == root && Reaches(t, root, va, 3)
  {
  }

  lemma Regroup(a: seq<nat>, b: seq<nat>, m: seq<nat>, c: seq<nat>, x: nat, d: seq<nat>)
    ensures a + ((b + m + c) + [x]) + d == (a + b) + m + (c + ([x] + d))
  {
  }

  /** Every table page that a walk reaches comes, and before every page above it. */
  lemma PageComes(t: Tables, root: nat, va: nat, level: nat)
    requires level < 3 && Reaches(t, root, va, level)
    ensures PathPage(t, root, va, level) in Pages(t, root)
    ensures forall above :: level < above < 3 ==>
            Before(Pages(t, root), PathPage(t, root, va, level), PathPage(t, root, va, above))
  {
    hide IsTable, EntriesFrom, EntryAt, PathPage, PageIndex, Reaches;
    var a, b := PieceOfWhole(t, root, va, level);
    assert Pages(t, root)[|a| + |EntriesFrom(t, PathPage(t, root, va, level), level, 0)|] ==
        PathPage(t, root, va, level);
    forall above | level < above < 3
      ensures Before(Pages(t, root), PathPage(t, root, va, level), PathPage(t, root, va, above))
    {
      ChildFirst(t, root, va, level, above);
    }
  }

  lemma {:induction false} InPiece(t: Tables, root: nat, va: nat, level: nat, above: nat)
    requires level < above <= 3 && Reaches(t, root, va, level)
    ensures PathPage(t, root, va, level) in EntriesFrom(t, PathPage(t, root, va, above), above, 0)
    decreases above - level
  {
    hide IsTable, EntriesFrom, EntryAt, PathPage, PageIndex, Reaches;
    ReachesAbove(t, root, va, level, above - 1);
    PathStep(t, root, va, above - 1);
    var q := PathPage(t, root, va, above - 1);
    var a, b := SplitAt(t, PathPage(t, root, va, above), above, 0, PageIndex(va, above));
    var inner := EntriesFrom(t, q, above - 1, 0);
    var s := EntriesFrom(t, PathPage(t, root, va, above), above, 0);
    if level < above - 1 {
      InPiece(t, root, va, level, above - 1);
      var k :| 0 <= k < |inner| && inner[k] == PathPage(t, root, va, level);
      assert s[|a| + k] == inner[k];
    } else {
      assert s[|a| + |inner|] == q;
    }
  }

  lemma ChildFirst(t: Tables, root: nat, va: nat, level: nat, above: nat)
    requires level < above < 3 && Reaches(t, root, va, level)
    ensures Before(Pages(t, root), PathPage(t, root, va, level), PathPage(t, root, va, above))
  {
    hide IsTable, EntriesFrom, EntryAt, PathPage, PageIndex, Reaches;
    ReachesAbove(t, root, va, level, above);
    var up := PathPage(t, root, va, above);
    var a, b := PieceOfWhole(t, root, va, above);
    var inner, s := EntriesFrom(t, up, above, 0), Pages(t, root);
    InPiece(t, root, va, level, above);
    var k :| 0 <= k < |inner| && inner[k] == PathPage(t, root, va, level);
    assert s[|a| + k] == inner[k] && s[|a| + |inner|] == up;
  }
}

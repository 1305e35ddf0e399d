/** `ptiter`, the traversal of the page-table pages of a tree. It keeps no stack: to come back to a page it walks down
    again from the root. */
module PtIter {
  import opened Common
  import opened PageTable
  import opened PageWalk
  import opened PostOrder
  import opened VmIter

  /** The pages of the tree that are still to come, and the root, are as they were. The others may hold anything. */
  ghost predicate Agree(now: Tables, tree: Tables, root: nat, seen: seq<nat>) {
    forall q :: (q == root || q in Pages(tree, root)) && q !in seen ==> q in now && q in tree && now[q] == tree[q]
  }

  /** A position of the traversal, with what is still to come: just handed out the page beneath the current entry
      (`skip`), or going through new entries (`stop` 1), or on the way back to the page at level `stop - 1`. */
  ghost predicate Progress(tree: Tables, root: nat, seen: seq<nat>, va: nat, level: nat, stop: nat, skip: bool) {
    && 1 <= level <= 3 && 1 <= stop <= 3 && va < SPACE && Reaches(tree, root, va, level)
    && (if stop > 1 then !skip && level >= stop && Reaches(tree, root, va, stop - 1)
                         && seen + Upwards(tree, root, va, stop - 1) == Pages(tree, root)
        else if skip then seen + Rest(tree, root, va, level) == Pages(tree, root)
        else Offset(va, level) == 0 && seen + From(tree, root, va, level) == Pages(tree, root))
  }

  lemma NotSeen(seen: seq<nat>, x: seq<nat>, pages: seq<nat>, q: nat)
    requires seen + x == pages && Distinct(pages) && q in x
    ensures q !in seen && q in pages
  {
    var k :| 0 <= k < |x| && x[k] == q;
    assert pages[|seen| + k] == q;
    forall i | 0 <= i < |seen| ensures seen[i] != q { assert pages[i] == seen[i]; }
  }

  /** The page that is read next has not been handed out. */
  lemma ReadsUnseen(tree: Tables, shape: Shape, root: nat, seen: seq<nat>, va: nat, level: nat, stop: nat, skip: bool)
    requires Forest(tree, shape) && Root(shape, root) && Progress(tree, root, seen, va, level, stop, skip)
    ensures var q := PathPage(tree, root, va, level); q !in seen && (q == root || q in Pages(tree, root))
  {
    hide Forest, PathPage, Upwards, EntriesFrom, Reaches, Pages, Distinct, Offset, Root, PageIndex, IsTable;
    PagesDistinct(tree, shape, root);
    var q, pages := PathPage(tree, root, va, level), Pages(tree, root);
    if level == 3 {
      RootPath(tree, root, va);
      assert root !in seen by { PrefixOf(tree, root, seen, va, level, stop, skip); }
    } else {
      var from := if stop > 1 then stop - 1 else level;
      AboveToCome(tree, root, va, from, level);
      var x := if stop > 1 then Upwards(tree, root, va, from)
               else if skip then Rest(tree, root, va, level) else From(tree, root, va, level);
      assert q in x by { if stop == 1 { InTail(x, Upwards(tree, root, va, level), q); } }
      NotSeen(seen, x, pages, q);
    }
  }

  lemma InTail(x: seq<nat>, y: seq<nat>, q: nat)
    requires q in y && |y| <= |x| && x[|x| - |y|..] == y
    ensures q in x
  {
    var k :| 0 <= k < |y| && y[k] == q;
    assert x[|x| - |y|..][k] == x[|x| - |y| + k];
  }

  lemma PrefixOf(tree: Tables, root: nat, seen: seq<nat>, va: nat, level: nat, stop: nat, skip: bool)
    requires Progress(tree, root, seen, va, level, stop, skip)
    ensures seen <= Pages(tree, root)
  {
    hide PathPage, Upwards, Rest, From, Reaches, Pages, Offset;
  }

  /** Down to the next level. */
  lemma GoDown(tree: Tables, root: nat, seen: seq<nat>, va: nat, level: nat, stop: nat)
    requires Progress(tree, root, seen, va, level, stop, false) && level != stop
    requires IsTable(EntryAt(tree, PathPage(tree, root, va, level), PageIndex(va, level)))
    ensures Progress(tree, root, seen, va, level - 1, stop, false) && level >= 2
    ensures PathPage(tree, root, va, level - 1) ==
            EntryAt(tree, PathPage(tree, root, va, level), PageIndex(va, level)).frame
  {
    hide PathPage, Upwards, Rest, From, Reaches, Pages, Offset, IsTable, EntryAt, PageIndex;
    PathStep(tree, root, va, level - 1);
    if stop == 1 { Descend(tree, root, va, level); }
  }

  /** The entry where the traversal stops: the page beneath it comes next. */
  lemma Arrive(tree: Tables, root: nat, seen: seq<nat>, va: nat, level: nat)
    requires Progress(tree, root, seen, va, level, level, false)
    requires IsTable(EntryAt(tree, PathPage(tree, root, va, level), PageIndex(va, level)))
    ensures var q := EntryAt(tree, PathPage(tree, root, va, level), PageIndex(va, level)).frame;
            q == PathPage(tree, root, va, level - 1) && Reaches(tree, root, va, level - 1)
            && Progress(tree, root, seen + [q], va, level, 1, true)
  {
    hide PathPage, Rest, From, Reaches, Pages, Offset, IsTable, EntryAt, PageIndex;
    PathStep(tree, root, va, level - 1);
    if level == 1 { Descend(tree, root, va, level); }
    var q := PathPage(tree, root, va, level - 1);
    assert seen + ([q] + Rest(tree, root, va, level)) == (seen + [q]) + Rest(tree, root, va, level);
  }

  /** On the way back up the entries are tables: only new entries can be passed over. */
  lemma PassOver(tree: Tables, root: nat, seen: seq<nat>, va: nat, level: nat, stop: nat, skip: bool)
    requires Progress(tree, root, seen, va, level, stop, skip)
    requires skip || !IsTable(EntryAt(tree, PathPage(tree, root, va, level), PageIndex(va, level)))
    ensures stop == 1 && seen + Rest(tree, root, va, level) == Pages(tree, root)
  {
    hide PathPage, Rest, Upwards, From, Reaches, Pages, Offset, IsTable, EntryAt, PageIndex;
    if stop > 1 {
      ReachesAbove(tree, root, va, stop - 1, level - 1);
      PathStep(tree, root, va, level - 1);
    } else if !skip {
      SkipHole(tree, root, va, level);
    }
  }

  /** To the next entry, or back to the page whose last entry this was, or to the end. */
  lemma Onwards(tree: Tables, root: nat, seen: seq<nat>, va: nat, level: nat, va': nat)
    requires 1 <= level <= 3 && va < SPACE && Reaches(tree, root, va, level)
    requires seen + Rest(tree, root, va, level) == Pages(tree, root)
    requires va' == (va / Span(level) + 1) * Span(level)
    ensures va' / Span(level + 1) == va / Span(level + 1) ==>
              Progress(tree, root, seen, va', level, 1, false) && va < va' < SPACE
              && PathPage(tree, root, va', level) == PathPage(tree, root, va, level)
                  && PageIndex(va', level) == PageIndex(va, level) + 1
    ensures va' / Span(level + 1) != va / Span(level + 1) ==>
              if level == 3 then seen == Pages(tree, root) else Progress(tree, root, seen, va, 3, level + 1, false)
  {
    hide PathPage, Rest, From, Reaches, Pages, Offset, IsTable, EntryAt, PageIndex;
    if va' / Span(level + 1) == va / Span(level + 1) {
      Sideways(tree, root, va, va', level);
      WithinSpace(va, va', level);
    } else {
      NextIndex(va, va', level);
      EndOfPage(tree, root, va, level);
      RootPath(tree, root, va);
    }
  }

  lemma WithinSpace(va: nat, va': nat, level: nat)
    requires level <= 3 && va < SPACE && va' == (va / Span(level) + 1) * Span(level)
    requires va' / Span(level + 1) == va / Span(level + 1)
    ensures va < va' < SPACE
  {
    QuotientUp(va, va', level + 1, 4);
    if level == 0 {} else if level == 1 {} else if level == 2 {} else {}
  }

  lemma Start(tree: Tables, root: nat)
    ensures Progress(tree, root, [], 0, 3, 1, false) && PathPage(tree, root, 0, 3) == root
  {
    hide EntriesFrom;
    assert PageIndex(0, 3) == 0;
    assert [] + (Pages(tree, root) + []) == Pages(tree, root);
  }

  lemma AgreeAtFirst(tree: Tables, shape: Shape, root: nat)
    requires Forest(tree, shape) && Root(shape, root)
    ensures Agree(tree, tree, root, []) && root in tree
  {
    hide IsTable, EntriesFrom;
    EntriesWithin(tree, shape, root, root, 3, 0);
    forall q | q in Pages(tree, root) ensures q in tree {
      var k :| 0 <= k < |Pages(tree, root)| && Pages(tree, root)[k] == q;
      assert Within(shape, root, Pages(tree, root)[k], 3, EntryStart(0, 3, 0), EntryStart(0, 3, 512));
    }
  }

  lemma AgreeAfter(now: Tables, tree: Tables, root: nat, seen: seq<nat>, q: nat, junk: Table)
    requires Agree(now, tree, root, seen)
    ensures Agree(now, tree, root, seen + [q]) && Agree(now[q := junk], tree, root, seen + [q])
  {
    hide Pages;
    assert q in seen + [q] by { assert (seen + [q])[|seen|] == q; }
    forall p | p in seen ensures p in seen + [q] {}
  }

  lemma AgreeRoot(now: Tables, tree: Tables, root: nat, seen: seq<nat>)
    requires Agree(now, tree, root, seen) && root !in seen
    ensures root in now && root in tree && now[root] == tree[root]
  {
  }

  class PtIter {
    const mem: Memory
    const root: nat
    var page: nat
    var index: nat
    var level: nat
    var va: nat
    ghost const tree: Tables      // the page tables when the traversal started
    ghost const shape: Shape
    ghost var seen: seq<nat>      // the pages handed out so far, the current one last

    predicate Done()
      reads this
    {
      va > VA_NONCANONMAX
    }

    /** `pa()`, as a page number. */
    function Current(): nat
      requires index < 512
      reads this, mem
    {
      EntryAt(mem.tables, page, index).frame
    }

    /** The iterator points to the table entry of the last page handed out. */
    ghost predicate Valid()
      reads this
    {
      && Forest(tree, shape) && Root(shape, root)
      && (if Done() then seen == Pages(tree, root)
          else Progress(tree, root, seen, va, level, 1, true) && At() && seen != []
               && EntryAt(tree, page, index).frame == seen[|seen| - 1])
    }

    /** The entry pointer is where the address says. */
    ghost predicate At()
      reads this
    {
      1 <= level <= 3 && va < SPACE && page == PathPage(tree, root, va, level) && index == PageIndex(va, level)
    }

    /** The page that the iterator reports is the last one handed out. */
    lemma ReportsLast()
      requires Valid() && !Done() && Agree(mem.tables, tree, root, seen)
      ensures index < 512 && seen != [] && Current() == seen[|seen| - 1]
    {
      hide Forest, Progress, Reaches, PathPage;
      ReadsUnseen(tree, shape, root, seen, va, level, 1, true);
    }

    constructor (mem: Memory, root: nat)
      requires mem.Valid() && Root(mem.shape, root)
      ensures Valid() && this.mem == mem && this.root == root && tree == mem.tables
      ensures |seen| == if Done() then 0 else 1
    {
      hide Forest, Progress, Reaches, PathPage, IsTable, Agree, Root, PageIndex, Pages, EntryAt, Span;
      this.mem, this.root := mem, root;
      tree, shape, seen := mem.tables, mem.shape, [];
      level, va := 3, 0;
      page, index := root, PageIndex(0, 3);
      new;
      Start(tree, root);
      AgreeAtFirst(mem.tables, shape, root);
      Down(false);
    }

    /** `down`: on to the next page. Whatever the pages handed out so far hold by now, they are not read. */
    method Down(skip: bool)
      requires Forest(tree, shape) && Root(shape, root) && Agree(mem.tables, tree, root, seen)
      requires Progress(tree, root, seen, va, level, 1, skip) && At()
      modifies this`page, this`index, this`level, this`va, this`seen
      ensures Valid()
      ensures Done() ==> seen == old(seen)
      ensures !Done() ==> |seen| == |old(seen)| + 1 && old(seen) <= seen
    {
      hide Forest, Progress, Reaches, PathPage, IsTable, Agree, Root, PageIndex, Pages, EntryAt, Span, Rest, Offset;
      var stop := 1;
      var skipping := skip;
      while true
        invariant Forest(tree, shape) && Root(shape, root) && Agree(mem.tables, tree, root, seen)
        invariant seen == old(seen) && 1 <= stop <= 3
        invariant Progress(tree, root, seen, va, level, stop, skipping) && At()
        decreases SPACE - va, 4 - stop, level
      {
        var e := EntryAt(mem.tables, page, index);
        ReadsTree(stop, skipping);
        if IsTable(e) && !skipping {
          if level == stop {
            Arrive(tree, root, seen, va, level);
            seen := seen + [e.frame];
            return;
          }
          GoDown(tree, root, seen, va, level, stop);
          level := level - 1;
          page := e.frame;
          index := PageIndex(va, level);
        } else {
          PassOver(tree, root, seen, va, level, stop, skipping);
          var next := (va / Span(level) + 1) * Span(level);
          StillThere(stop, skipping);
          Onwards(tree, root, seen, va, level, next);
          if next / Span(level + 1) != va / Span(level + 1) {
            if level == 3 {
              va := VA_NONCANONMAX + 1;
              return;
            }
            stop := level + 1;
            level := 3;
            RootPath(tree, root, va);
            page, index := root, PageIndex(va, level);
          } else {
            index := index + 1;
            va := next;
          }
          skipping := false;
        }
      }
    }

    /** The entry read is the one of the tree at the start. */
    lemma ReadsTree(stop: nat, skipping: bool)
      requires Forest(tree, shape) && Root(shape, root) && Agree(mem.tables, tree, root, seen)
      requires Progress(tree, root, seen, va, level, stop, skipping) && At()
      ensures index < 512 && EntryAt(mem.tables, page, index) == EntryAt(tree, page, index)
    {
      hide Forest, Progress, Reaches, PathPage, IsTable, Root;
      ReadsUnseen(tree, shape, root, seen, va, level, stop, skipping);
    }

    lemma StillThere(stop: nat, skipping: bool)
      requires Progress(tree, root, seen, va, level, stop, skipping)
      ensures 1 <= level <= 3 && va < SPACE && Reaches(tree, root, va, level)
    {
    }

    /** `next`. */
    method Next()
      requires Valid() && !Done() && Agree(mem.tables, tree, root, seen)
      modifies this`page, this`index, this`level, this`va, this`seen
      ensures Valid()
      ensures Done() ==> seen == old(seen)
      ensures !Done() ==> |seen| == |old(seen)| + 1 && old(seen) <= seen
    {
      Down(true);
    }
  }

  /** The documented loop that frees a tree: every page is freed, and put to other use, before the next one is looked
      for. It frees each page of the tree but the root once, those beneath a page before it. */
  method FreeTree(mem: Memory, root: nat, junk: nat -> Table) returns (freed: seq<nat>)
    requires mem.Valid() && Root(mem.shape, root)
    modifies mem`tables
    ensures freed == Pages(old(mem.tables), root) && Distinct(freed) && root !in freed
    ensures root in mem.tables && root in old(mem.tables) && mem.tables[root] == old(mem.tables)[root]
  {
    hide Forest, Agree, Pages, EntryAt, Progress, PathPage, Root, Distinct;
    PagesDistinct(mem.tables, mem.shape, root);
    AgreeAtFirst(mem.tables, mem.shape, root);
    var it := new PtIter(mem, root);
    freed := [];
    while !it.Done()
      invariant it.Valid() && fresh(it) && it.mem == mem && it.root == root && it.tree == old(mem.tables)
      invariant Agree(mem.tables, it.tree, root, freed)
      invariant it.Done() ==> it.seen == freed
      invariant !it.Done() ==> |it.seen| == |freed| + 1 && it.seen == freed + [it.seen[|freed|]]
      decreases |Pages(it.tree, root)| - |freed|
    {
      PrefixOf(it.tree, root, it.seen, it.va, it.level, 1, true);
      AgreeAfter(mem.tables, it.tree, root, freed, it.seen[|freed|], junk(0));
      it.ReportsLast();
      var q := it.Current();
      AgreeAfter(mem.tables, it.tree, root, freed, q, junk(q));
      freed := freed + [q];
      mem.tables := mem.tables[q := junk(q)];
      it.Next();
    }
    AgreeRoot(mem.tables, it.tree, root, freed);
  }
}

/** How many tables an address space needs: walks of one region stop at the same level, and a small tree has five
    pages. */
module PageBudget {
  import opened PageTable
  import opened PageWalk
  import opened VmIter

  const PROC_START_ADDR: nat := 0x10_0000
  const MEMSIZE_VIRTUAL: nat := 0x30_0000
  const STACK_PAGE: nat := MEMSIZE_VIRTUAL - 0x1000

  /** The page-table pages of a process that stays below MEMSIZE_VIRTUAL: a root, three on the way to address 0, one
      for the stack. */
  const TREE_PAGES: nat := 5

  // ---------- Regions ----------

  /** All walks of a 2 MB region stop at the same level. */
  lemma RegionLevel(t: Tables, root: nat, va: nat, va': nat)
    requires va / Span(1) == va' / Span(1)
    ensures Walk(t, root, va').level == Walk(t, root, va).level
  {
    var s := Walk(t, root, va);
    QuotientUp(va, va', 1, s.level + 1);
    ResumeWalk(t, root, 3, ALL, va, va');
    DownStops(t, root, 3, ALL, va);
    if s.level > 0 { QuotientUp(va, va', 1, s.level); }
  }

  /** Where one walk gets down to a level, so do the walks of all addresses that share its table there. */
  lemma {:induction false} DownTogether(t: Tables, page: nat, level: nat, perm: Flags, va: nat, va': nat, k: nat)
    requires k <= level <= 3 && va / Span(k + 1) == va' / Span(k + 1) && Down(t, page, level, perm, va).level <= k
    ensures Down(t, page, level, perm, va').level <= k
    decreases level
  {
    var e := EntryAt(t, page, PageIndex(va, level));
    if k < level {
      QuotientUp(va, va', k + 1, level);
      DownTogether(t, e.frame, level - 1, Restrict(perm, e), va, va', k);
    }
  }

  /** The levels of the two regions a process lives in, once address 0 can be mapped without a new table. */
  lemma RegionLevels(t: Tables, root: nat, va: nat)
    requires Walk(t, root, 0).level == 0 && va < MEMSIZE_VIRTUAL
    ensures Walk(t, root, STACK_PAGE).level <= 1
    ensures Walk(t, root, va).level == if va < 0x20_0000 then 0 else Walk(t, root, STACK_PAGE).level
  {
    hide Walk;
    StackLevel(t, root);
    RegionLevel(t, root, if va < 0x20_0000 then 0 else STACK_PAGE, va);
  }

  lemma StackLevel(t: Tables, root: nat)
    requires Walk(t, root, 0).level == 0
    ensures Walk(t, root, STACK_PAGE).level <= 1
  {
    DownTogether(t, root, 3, ALL, 0, STACK_PAGE, 1);
  }

  lemma LowLevel(t: Tables, root: nat, va: nat)
    requires va < 0x20_0000
    ensures Walk(t, root, va).level == Walk(t, root, 0).level
  {
    RegionLevel(t, root, 0, va);
  }

  // ---------- Counting tables ----------

  /** A walk passes a table page of every level it leaves behind. */
  lemma {:induction false} PassesLevel(t: Tables, shape: Shape, root: nat, page: nat, level: nat, perm: Flags, va: nat,
                                       k: nat)
    returns (q: nat)
    requires Forest(t, shape) && k <= level <= 3 && OnPath(shape, root, page, level, va)
    requires Down(t, page, level, perm, va).level <= k
    ensures OnPath(shape, root, q, k, va)
    decreases level
  {
    q := page;
    if k < level {
      var e := EntryAt(t, page, PageIndex(va, level));
      ChildOnPath(t, shape, root, page, level, va);
      q := PassesLevel(t, shape, root, e.frame, level - 1, Restrict(perm, e), va, k);
    }
  }

  lemma NotThereBefore(shape: Shape, shape': Shape, root: nat, page: nat)
    requires Rooted(shape) && Grown(shape, shape') && root !in shape && page in shape' && shape'[page].root == root
    ensures page !in shape
  {
  }

  lemma FiveMore(a: set<nat>, b: set<nat>, p: nat, q: nat, r: nat, s: nat, u: nat)
    requires a <= b && {p, q, r, s, u} <= b && {p, q, r, s, u} !! a
    requires p != q && p != r && p != s && p != u && q != r && q != s && q != u && r != s && r != u && s != u
    ensures |b| >= |a| + 5
  {
    var five := {p, q, r, s, u};
    assert |five| == 5;
    assert |a + five| == |a| + 5;
    var rest := b - (a + five);
    assert b == (a + five) + rest;
  }

  lemma WalkIsDown(t: Tables, root: nat, va: nat)
    ensures Walk(t, root, va) == Down(t, root, 3, ALL, va)
  {
  }

  lemma KeysGrow(shape: Shape, shape': Shape)
    requires Grown(shape, shape')
    ensures shape.Keys <= shape'.Keys
  {
  }

  lemma PlacesApart(shape: Shape, root: nat, a: nat, b: nat, c: nat, d: nat)
    requires OnPath(shape, root, root, 3, 0) && OnPath(shape, root, a, 2, 0) && OnPath(shape, root, b, 1, 0)
    requires OnPath(shape, root, c, 0, 0) && OnPath(shape, root, d, 0, STACK_PAGE)
    ensures root != a && root != b && root != c && root != d && a != b && a != c && a != d && b != c && b != d && c != d
    ensures {root, a, b, c, d} <= shape.Keys
    ensures forall page :: page in {root, a, b, c, d} ==> shape[page].root == root
  {
    assert shape[c].start == 0 && shape[d].start == 0x20_0000;
  }

  /** A tree that was not there before, from which address 0 and the stack page can be reached, takes five pages. */
  lemma TreeOfFive(t: Tables, shape: Shape, t': Tables, shape': Shape, root: nat)
    requires Rooted(shape) && t.Keys == shape.Keys && Grown(shape, shape') && root !in shape
    requires Forest(t', shape') && Root(shape', root)
    requires Walk(t', root, 0).level == 0 && Walk(t', root, STACK_PAGE).level == 0
    ensures |t'.Keys| >= |t.Keys| + TREE_PAGES
  {
    hide Down, Walk, Rooted, Forest, Floor, Span, OnPath, Grown;
    WalkIsDown(t', root, 0);
    WalkIsDown(t', root, STACK_PAGE);
    ForestKeys(t', shape');
    RootOnPath(shape', root, 0);
    RootOnPath(shape', root, STACK_PAGE);
    var a := PassesLevel(t', shape', root, root, 3, ALL, 0, 2);
    var b := PassesLevel(t', shape', root, root, 3, ALL, 0, 1);
    var c := PassesLevel(t', shape', root, root, 3, ALL, 0, 0);
    var d := PassesLevel(t', shape', root, root, 3, ALL, STACK_PAGE, 0);
    PlacesApart(shape', root, a, b, c, d);
    forall page | page in {root, a, b, c, d} ensures page !in shape { NotThereBefore(shape, shape', root, page); }
    assert t.Keys <= t'.Keys by { assert Grown(shape, shape'); KeysGrow(shape, shape'); }
    FiveMore(t.Keys, t'.Keys, root, a, b, c, d);
  }
}

/** What keeps processes apart: which physical pages each page table lets user code reach. */
module Isolation {
  import opened Common
  import opened PageTable
  import opened PageWalk
  import opened PageRange
  import opened VmIter
  import opened PageBudget

  const CONSOLE_PAGE: nat := 0xB8

  /** The page that an allocation which failed seems to have given: `kalloc` answers a null pointer. */
  const NULL_PAGE: nat := 0

  /** The page-table roots of the processes, by process number. */
  type Roots = seq<Option<nat>>

  predicate UserReaches(x: Translation, frame: nat) { x.Mapped? && Has(x.perm, U) && x.pa / 0x1000 == frame }

  /** Can user code running on this tree reach a physical page? */
  ghost predicate UserMaps(t: Tables, root: nat, frame: nat) {
    exists va: nat :: va < WORD && UserReaches(Translate(t, root, va), frame)
  }

  // ---------- The invariant ----------

  /** A user-reachable page is the console or belongs to this process. */
  predicate Belongs(x: Translation, pid: nat, owner: map<nat, nat>) {
    x.Mapped? && Has(x.perm, U) ==>
      var frame := x.pa / 0x1000; frame == CONSOLE_PAGE || (frame in owner && owner[frame] == pid)
  }

  ghost predicate Private(t: Tables, roots: Roots, owner: map<nat, nat>) {
    forall pid: nat, va: nat :: pid < |roots| && roots[pid].Some? && va < WORD ==>
      Belongs(Translate(t, roots[pid].value, va), pid, owner)
  }

  /** Each process has its own tree. */
  ghost predicate OwnTrees(shape: Shape, roots: Roots) {
    && (forall i :: 0 <= i < |roots| && roots[i].Some? ==> Root(shape, roots[i].value))
    && (forall i, j :: 0 <= i < j < |roots| && roots[i].Some? ==> roots[i] != roots[j])
  }

  /** Owned pages are in use, and hold no table. Page 0 has an owner only when no page is free any more. */
  ghost predicate Owned(kernelEnd: nat, counts: seq<nat>, tables: set<nat>, owner: map<nat, nat>) {
    && CONSOLE_PAGE !in tables && NULL_PAGE !in tables
    && (NULL_PAGE in owner ==> FreePages(kernelEnd, counts) == {})
    && forall f :: f in owner && f != NULL_PAGE ==>
         f < |counts| && counts[f] > 0 && f !in tables && Memory.AllocatablePage(f, kernelEnd)
  }

  /** Tables grant everything, and there are no large pages: any page can be mapped with any permissions. */
  ghost predicate PlainAt(t: Tables, root: nat, va: nat) {
    var s := Walk(t, root, va);
    s.perm == ALL && (s.level > 0 ==> !Present(StopEntry(t, s, va)))
  }

  ghost predicate Plain(t: Tables, root: nat) { forall va: nat :: PlainAt(t, root, va) }

  ghost predicate AllPlain(t: Tables, roots: Roots) {
    forall i :: 0 <= i < |roots| && roots[i].Some? ==> Plain(t, roots[i].value)
  }

  /** What user code may reach of physical memory: not the kernel's code and data, which begin at 256 KB, not its stack
      below 512 KB, and of the addresses for devices, from 640 KB to 1 MB, only the console. */
  predicate ForUsers(frame: nat, kernelEnd: nat) {
    || frame == 0xB8
    || (!(0x40 <= frame < kernelEnd) && frame != 0x7F && !(0xA0 <= frame < 0x100) && frame < 0x200)
  }

  /** A physical page that user code of a process reaches is for users and holds no table, and only the console is
      reached by two processes. */
  ghost predicate SeparatedAt(t: Tables, roots: Roots, kernelEnd: nat, pid: nat, frame: nat)
    requires pid < |roots| && roots[pid].Some?
  {
    UserMaps(t, roots[pid].value, frame) ==>
      && ForUsers(frame, kernelEnd) && frame !in t
      && forall pid': nat ::
          pid' < |roots| && pid' != pid && roots[pid'].Some? && UserMaps(t, roots[pid'].value, frame) ==>
           frame == CONSOLE_PAGE
  }

  ghost predicate Separated(t: Tables, roots: Roots, kernelEnd: nat) {
    forall pid: nat, frame: nat :: pid < |roots| && roots[pid].Some? ==> SeparatedAt(t, roots, kernelEnd, pid, frame)
  }

  lemma AllocatableForUsers(frame: nat, kernelEnd: nat)
    requires frame == CONSOLE_PAGE || frame == NULL_PAGE || Memory.AllocatablePage(frame, kernelEnd)
    ensures ForUsers(frame, kernelEnd)
  {
  }

  lemma ProcessIsolated(t: Tables, roots: Roots, owner: map<nat, nat>, kernelEnd: nat, counts: seq<nat>, pid: nat,
                        frame: nat)
    requires Private(t, roots, owner) && Owned(kernelEnd, counts, t.Keys, owner)
    requires pid < |roots| && roots[pid].Some?
    ensures SeparatedAt(t, roots, kernelEnd, pid, frame)
  {
    hide Translate, Has, Memory.AllocatablePage, FreePages, ForUsers;
    if UserMaps(t, roots[pid].value, frame) {
      var va: nat :| va < WORD && UserReaches(Translate(t, roots[pid].value, va), frame);
      assert Belongs(Translate(t, roots[pid].value, va), pid, owner);
      AllocatableForUsers(frame, kernelEnd);
      forall pid': nat | pid' < |roots| && pid' != pid && roots[pid'].Some? && UserMaps(t, roots[pid'].value, frame)
        ensures frame == CONSOLE_PAGE
      {
        var va': nat :| va' < WORD && UserReaches(Translate(t, roots[pid'].value, va'), frame);
        assert Belongs(Translate(t, roots[pid'].value, va'), pid', owner);
      }
    }
  }

  /** Isolation follows from the invariant, page 0 included. */
  lemma ProcessesIsolated(t: Tables, roots: Roots, owner: map<nat, nat>, kernelEnd: nat, counts: seq<nat>)
    requires Private(t, roots, owner) && Owned(kernelEnd, counts, t.Keys, owner)
    ensures Separated(t, roots, kernelEnd)
  {
    hide SeparatedAt, Private, Owned;
    forall pid: nat, frame: nat | pid < |roots| && roots[pid].Some?
      ensures SeparatedAt(t, roots, kernelEnd, pid, frame)
    {
      ProcessIsolated(t, roots, owner, kernelEnd, counts, pid, frame);
    }
  }

  // ---------- The invariant is kept by mapping ----------

  /** What a mapping may do: anything that is not for user code, or a page of the process itself, or the console. */
  predicate MayGive(pa: Target, p: Flags, pid: nat, owner: map<nat, nat>) {
    Maps(p) && Has(p, U) && pa.At? ==> pa.frame == CONSOLE_PAGE || (pa.frame in owner && owner[pa.frame] == pid)
  }

  lemma MayGiveOwn(frame: nat, pid: nat, owner: map<nat, nat>)
    requires frame in owner && owner[frame] == pid && frame < 0x10_0000
    ensures MayGive(At(frame, 0), PWU, pid, owner) && Fits(At(frame, 0), PWU) && Maps(PWU) && PWU != 0
  {
  }

  lemma MapKeepsPrivate(shape: Shape, t: Tables, shape': Shape, t': Tables, roots: Roots, owner: map<nat, nat>,
                        pid: nat, va: nat, pa: Target, p: Flags, level: nat, r: int)
    requires OwnTrees(shape, roots) && Private(t, roots, owner) && MayGive(pa, p, pid, owner)
    requires pid < |roots| && roots[pid].Some? && va < WORD && va % 0x1000 == 0
    requires MapOutcome(shape, t, shape', t', roots[pid].value, va, pa, p, level, r)
    ensures Private(t', roots, owner)
  {
    hide Translate, Has, Maps, Walk, WalksOn;
    forall q: nat, a: nat | q < |roots| && roots[q].Some? && a < WORD
      ensures Belongs(Translate(t', roots[q].value, a), q, owner)
    {
      var root := roots[q].value;
      assert Root(shape, root) && (q != pid ==> root != roots[pid].value);
      if q != pid || a / 0x1000 != va / 0x1000 {
        assert Translate(t', root, a) == Translate(t, root, a);
      } else {
        MappedBelongs(shape, t, shape', t', root, owner, pid, va, a, pa, p, level, r);
      }
    }
  }

  lemma MappedBelongs(shape: Shape, t: Tables, shape': Shape, t': Tables, root: nat, owner: map<nat, nat>,
                      pid: nat, va: nat, a: nat, pa: Target, p: Flags, level: nat, r: int)
    requires Root(shape, root) && va < WORD && a < WORD && a / 0x1000 == va / 0x1000 && MayGive(pa, p, pid, owner)
    requires MapOutcome(shape, t, shape', t', root, va, pa, p, level, r)
    requires Belongs(Translate(t, root, a), pid, owner)
    ensures Belongs(Translate(t', root, a), pid, owner)
  {
    hide Translate, Has, Walk, WalksOn;
    WholePage(t', root, va, a);
    if r == 0 && Maps(p) {
      assert Translate(t', root, va) == Mapped(pa.frame * 0x1000, p);
    }
  }

  lemma PlainStays(shape: Shape, t: Tables, t': Tables, root: nat)
    requires Root(shape, root) && Plain(t, root) && Deepened(shape, t, t')
    ensures Plain(t', root)
  {
    hide Walk, Present, EntryAt;
    forall va: nat ensures PlainAt(t', root, va) {
      assert PlainAt(t, root, va) && WalksOn(t, t', root, va);
    }
  }

  lemma MapKeepsPlain(shape: Shape, t: Tables, t': Tables, roots: Roots)
    requires OwnTrees(shape, roots) && AllPlain(t, roots) && Deepened(shape, t, t')
    ensures AllPlain(t', roots)
  {
    hide PlainAt, WalksOn;
    forall i | 0 <= i < |roots| && roots[i].Some? ensures Plain(t', roots[i].value) {
      PlainStays(shape, t, t', roots[i].value);
    }
  }

  lemma MapKeepsOwned(kernelEnd: nat, before: seq<nat>, after: seq<nat>, tables: set<nat>, tables': set<nat>,
                      owner: map<nat, nat>)
    requires Owned(kernelEnd, before, tables, owner) && CountsKept(kernelEnd, before, after, tables, tables')
    ensures Owned(kernelEnd, after, tables', owner)
  {
    assert FreePages(kernelEnd, after) <= FreePages(kernelEnd, before);
  }

  /** A new table takes a page that nobody owns. */
  lemma NewTableCounts(kernelEnd: nat, counts: seq<nat>, r: nat, tables: set<nat>, owner: map<nat, nat>)
    requires r < |counts| && counts[r] == 0 && Memory.AllocatablePage(r, kernelEnd)
    requires Owned(kernelEnd, counts, tables, owner)
    ensures Owned(kernelEnd, counts[r := 1], tables + {r}, owner)
  {
    TakenPage(kernelEnd, counts, r);
  }

  lemma NullUnowned(kernelEnd: nat, counts: seq<nat>, tables: set<nat>, owner: map<nat, nat>, page: nat)
    requires Owned(kernelEnd, counts, tables, owner) && page in FreePages(kernelEnd, counts)
    ensures NULL_PAGE !in owner
  {
  }

  /** A process without a tree reaches nothing. */
  lemma RootDropped(shape: Shape, t: Tables, roots: Roots, pid: nat, owner: map<nat, nat>)
    requires OwnTrees(shape, roots) && AllPlain(t, roots) && Private(t, roots, owner) && pid < |roots|
    ensures var roots' := roots[pid := None];
            OwnTrees(shape, roots') && AllPlain(t, roots') && Private(t, roots', owner)
  {
    hide Translate, PlainAt, Belongs;
  }

  /** A page that was free is handed to a process. */
  lemma PageHanded(t: Tables, roots: Roots, kernelEnd: nat, counts: seq<nat>, owner: map<nat, nat>, frame: nat,
                   pid: nat)
    requires Private(t, roots, owner) && Owned(kernelEnd, counts, t.Keys, owner)
    requires frame < |counts| && counts[frame] == 0 && Memory.AllocatablePage(frame, kernelEnd) && frame !in t
    ensures frame !in owner && NULL_PAGE !in owner && frame != NULL_PAGE
    ensures Private(t, roots, owner[frame := pid]) && Owned(kernelEnd, counts[frame := 1], t.Keys, owner[frame := pid])
  {
    hide Translate, Has;
    TakenPage(kernelEnd, counts, frame);
    OwnerAdded(t, roots, owner, frame, pid);
  }

  /** When no page is left a process seems to be handed page 0. Only one process can be. */
  lemma NullHanded(t: Tables, roots: Roots, kernelEnd: nat, counts: seq<nat>, owner: map<nat, nat>, pid: nat)
    requires Private(t, roots, owner) && Owned(kernelEnd, counts, t.Keys, owner) && FreePages(kernelEnd, counts) == {}
    requires NULL_PAGE in owner ==> owner[NULL_PAGE] == pid
    ensures Private(t, roots, owner[NULL_PAGE := pid]) && Owned(kernelEnd, counts, t.Keys, owner[NULL_PAGE := pid])
  {
    hide Translate, Has;
    OwnerAdded(t, roots, owner, NULL_PAGE, pid);
  }

  lemma OwnerAdded(t: Tables, roots: Roots, owner: map<nat, nat>, frame: nat, pid: nat)
    requires Private(t, roots, owner) && (frame in owner ==> owner[frame] == pid)
    ensures Private(t, roots, owner[frame := pid])
  {
    hide Translate, Has;
    forall q: nat, va: nat | q < |roots| && roots[q].Some? && va < WORD
      ensures Belongs(Translate(t, roots[q].value, va), q, owner[frame := pid])
    {
      assert Belongs(Translate(t, roots[q].value, va), q, owner);
    }
  }

  lemma TreesGrow(shape: Shape, shape': Shape, roots: Roots)
    requires OwnTrees(shape, roots) && Grown(shape, shape')
    ensures OwnTrees(shape', roots)
  {
  }

  // ---------- A new tree ----------

  ghost function AddRoot(shape: Shape, r: nat): Shape { shape[r := Place(r, 3, 0)] }

  lemma AddRootForest(t: Tables, shape: Shape, r: nat)
    requires Forest(t, shape) && r !in t
    ensures Forest(t[r := ZeroTable()], AddRoot(shape, r)) && Root(AddRoot(shape, r), r)
  {
    var t', shape' := t[r := ZeroTable()], AddRoot(shape, r);
    forall q, i: nat | q in shape' && i < 512 ensures PlacedEntry(t', shape', q, i) {
      if q != r { assert PlacedEntry(t, shape, q, i); }
    }
  }

  lemma AddRootRooted(shape: Shape, r: nat)
    requires Rooted(shape) && r !in shape
    ensures Rooted(AddRoot(shape, r))
  {
  }

  lemma {:induction false} AddRootDown(t: Tables, shape: Shape, r: nat, root: nat, page: nat, level: nat, perm: Flags,
                                       va: nat)
    requires Forest(t, shape) && r !in t && level <= 3 && OnPath(shape, root, page, level, va)
    ensures Down(t[r := ZeroTable()], page, level, perm, va) == Down(t, page, level, perm, va)
    decreases level
  {
    var e := EntryAt(t, page, PageIndex(va, level));
    if level > 0 && IsTable(e) {
      ChildOnPath(t, shape, root, page, level, va);
      AddRootDown(t, shape, r, root, e.frame, level - 1, Restrict(perm, e), va);
    }
  }

  lemma AddRootSame(t: Tables, shape: Shape, r: nat, root: nat, va: nat)
    requires Forest(t, shape) && r !in t && Root(shape, root)
    ensures var t' := t[r := ZeroTable()]; Translate(t', root, va) == Translate(t, root, va) && WalksOn(t, t', root, va)
  {
    hide Forest, Down, Present, IsTable;
    ForestKeys(t, shape);
    RootOnPath(shape, root, va);
    AddRootDown(t, shape, r, root, root, 3, ALL, va);
    DownOnPath(t, shape, root, root, 3, ALL, va);
  }

  lemma AddRootEvolved(t: Tables, shape: Shape, r: nat)
    requires Forest(t, shape) && r !in t
    ensures Evolved(shape, t, AddRoot(shape, r), t[r := ZeroTable()])
  {
    hide Forest, Translate, WalksOn;
    ForestKeys(t, shape);
    var t' := t[r := ZeroTable()];
    forall root, va: nat | Root(shape, root) ensures WalksOn(t, t', root, va) {
      AddRootSame(t, shape, r, root, va);
    }
    forall root, va: nat | Root(shape, root) && va < WORD ensures Translate(t', root, va) == Translate(t, root, va) {
      AddRootSame(t, shape, r, root, va);
    }
  }

  /** A new tree maps nothing. */
  lemma NewRootEmpty(t: Tables, r: nat, va: nat)
    requires r in t && t[r] == ZeroTable()
    ensures PlainAt(t, r, va) && Translate(t, r, va) == Unmapped && Walk(t, r, va).level == 3
  {
    assert !IsTable(ZERO) && !Present(ZERO) && Perm(ZERO, ALL) == 0;
    assert EntryAt(t, r, PageIndex(va, 3)) == ZERO;
  }

  lemma AddRootKeeps(t: Tables, shape: Shape, r: nat, roots: Roots, pid: nat, owner: map<nat, nat>)
    requires Forest(t, shape) && r !in t && OwnTrees(shape, roots) && AllPlain(t, roots) && pid < |roots|
    ensures var t' := t[r := ZeroTable()]; var roots' := roots[pid := Some(r)];
            && OwnTrees(AddRoot(shape, r), roots') && AllPlain(t', roots')
            && (Private(t, roots, owner) ==> Private(t', roots', owner))
  {
    hide Forest, Translate, PlainAt, WalksOn, Has;
    var t', roots' := t[r := ZeroTable()], roots[pid := Some(r)];
    ForestKeys(t, shape);
    AddRootEvolved(t, shape, r);
    AddRootForest(t, shape, r);
    forall i | 0 <= i < |roots'| && roots'[i].Some? ensures Plain(t', roots'[i].value) {
      if i == pid {
        forall va: nat ensures PlainAt(t', r, va) { NewRootEmpty(t', r, va); }
      } else {
        PlainStays(shape, t, t', roots[i].value);
      }
    }
    if Private(t, roots, owner) {
      forall q: nat, va: nat | q < |roots'| && roots'[q].Some? && va < WORD
        ensures Belongs(Translate(t', roots'[q].value, va), q, owner)
      {
        if q == pid { NewRootEmpty(t', r, va); }
        else { assert Belongs(Translate(t, roots[q].value, va), q, owner); }
      }
    }
  }

  /** Everything a new tree leaves as it should be. */
  lemma NewTree(t: Tables, shape: Shape, r: nat, roots: Roots, pid: nat, owner: map<nat, nat>, kernelEnd: nat,
                counts: seq<nat>)
    requires Forest(t, shape) && Rooted(shape) && OwnTrees(shape, roots) && AllPlain(t, roots) && pid < |roots|
    requires Private(t, roots, owner) && Owned(kernelEnd, counts, t.Keys, owner)
    requires r !in t && r < |counts| && counts[r] == 0 && Memory.AllocatablePage(r, kernelEnd)
    ensures NULL_PAGE !in owner
    ensures var t' := t[r := ZeroTable()]; var shape' := AddRoot(shape, r); var roots' := roots[pid := Some(r)];
            && Forest(t', shape') && Rooted(shape') && OwnTrees(shape', roots') && AllPlain(t', roots')
                && Private(t', roots', owner)
            && Owned(kernelEnd, counts[r := 1], t'.Keys, owner) && t'.Keys == t.Keys + {r}
            && Evolved(shape, t, shape', t') && Walk(t', r, 0).level == 3
            && forall va: nat :: va < WORD ==> Translate(t', r, va) == Unmapped
  {
    hide Forest, Rooted, Translate, Private, Owned, OwnTrees, AllPlain, Evolved, Walk, FreePages,
         Memory.AllocatablePage;
    var t' := t[r := ZeroTable()];
    ForestKeys(t, shape);
    AddRootForest(t, shape, r);
    AddRootRooted(shape, r);
    AddRootEvolved(t, shape, r);
    AddRootKeeps(t, shape, r, roots, pid, owner);
    NewTableCounts(kernelEnd, counts, r, t.Keys, owner);
    TakenPage(kernelEnd, counts, r);
    NullUnowned(kernelEnd, counts, t.Keys, owner, r);
    assert t'.Keys == t.Keys + {r};
    NewRootEmpty(t', r, 0);
    forall va: nat | va < WORD ensures Translate(t', r, va) == Unmapped { NewRootEmpty(t', r, va); }
  }

  // ---------- No new table is needed ----------

  /** Walks for all addresses a process may ask for reach the level of single pages. */
  ghost predicate Covered(t: Tables, root: nat) { forall va: nat :: va < 0x40_0000 ==> Walk(t, root, va).level == 0 }

  /** One page below 2 MB and the stack page are enough. */
  lemma CoverByTwo(t: Tables, root: nat)
    requires Walk(t, root, 0).level == 0 && Walk(t, root, MEMSIZE_VIRTUAL - 0x1000).level == 0
    ensures Covered(t, root)
  {
    hide Walk;
    forall va: nat | va < 0x40_0000 ensures Walk(t, root, va).level == 0 {
      RegionLevel(t, root, if va < 0x20_0000 then 0 else MEMSIZE_VIRTUAL - 0x1000, va);
    }
  }

  lemma StaysCovered(shape: Shape, t: Tables, t': Tables, root: nat)
    requires Root(shape, root) && Deepened(shape, t, t') && Covered(t, root)
    ensures Covered(t', root)
  {
    hide Walk, Present, EntryAt;
    forall va: nat | va < 0x40_0000 ensures Walk(t', root, va).level == 0 {
      assert WalksOn(t, t', root, va);
    }
  }
}

/** Process memory in the kernel: setting up processes, and the system call that allocates a page. */
module Kernel {
  import opened Common
  import opened PageTable
  import opened PageRange
  import opened VmIter
  import opened PageBudget
  import opened Isolation
  import opened AddressSpace
  import opened ImageCopy

  const NPROC: nat := 16

  datatype ProcState = Free | Runnable

  datatype Proc = Proc(pagetable: Option<nat>, state: ProcState, entry: nat, stack: nat)

  /** What comes of a system call: an answer, or the kernel stops. */
  datatype Outcome = Answer(r: int) | Panic

  function RootsOf(ps: seq<Proc>): Roots { seq(|ps|, i requires 0 <= i < |ps| => ps[i].pagetable) }

  /** No copy of these segments goes to where the kernel cannot write. */
  ghost predicate Stands(t: Tables, ps: seq<Proc>, pid: nat, segments: seq<Segment>) {
    pid < |ps| && ps[pid].pagetable.Some? && !Stops(t, ps[pid].pagetable.value, segments)
  }

  /** The copies of these segments go to the pages of the segments. */
  ghost predicate InPlace(t: Tables, ps: seq<Proc>, pid: nat, segments: seq<Segment>) {
    pid < |ps| && ps[pid].pagetable.Some? && AllLanded(t, ps[pid].pagetable.value, segments)
  }

  ghost predicate AllStand(t: Tables, ps: seq<Proc>, programs: seq<Program>, n: nat)
    requires n <= |programs|
  {
    forall p: nat :: p < n ==> Stands(t, ps, p + 1, programs[p].segments)
  }

  ghost predicate AllInPlace(t: Tables, ps: seq<Proc>, programs: seq<Program>, n: nat)
    requires n <= |programs|
  {
    forall p: nat :: p < n ==> InPlace(t, ps, p + 1, programs[p].segments)
  }

  /** The other processes have the trees they had, and these translate as they did. */
  ghost predicate OthersSame(t: Tables, ps: seq<Proc>, t': Tables, ps': seq<Proc>, pid: nat) {
    && |ps'| == |ps|
    && forall q :: 0 <= q < |ps| && q != pid ==>
         ps'[q] == ps[q] && (ps[q].pagetable.Some? ==> SameTree(t, t', ps[q].pagetable.value))
  }

  lemma NoneStand(t: Tables, ps: seq<Proc>, programs: seq<Program>)
    ensures AllStand(t, ps, programs, 0) && AllInPlace(t, ps, programs, 0)
  {
  }

  lemma FewerStand(t: Tables, ps: seq<Proc>, programs: seq<Program>, n: nat)
    requires n <= |programs| && AllStand(t, ps, programs, |programs|)
    ensures AllStand(t, ps, programs, n)
  {
    hide Stands;
  }

  /** Setting up the next process moves no image of those before. */
  lemma ImagesStay(t: Tables, ps: seq<Proc>, t': Tables, ps': seq<Proc>, programs: seq<Program>, n: nat)
    requires n < |programs| < |ps| && forall p :: 0 <= p < |programs| ==> Bounded(programs[p].segments)
    requires OthersSame(t, ps, t', ps', n + 1)
    ensures AllStand(t', ps', programs, n + 1) <==>
              AllStand(t, ps, programs, n) && Stands(t', ps', n + 1, programs[n].segments)
    ensures AllInPlace(t', ps', programs, n + 1) <==>
              AllInPlace(t, ps, programs, n) && InPlace(t', ps', n + 1, programs[n].segments)
  {
    hide SameTree, Stops, AllLanded, Bounded;
    forall p: nat | p < n
      ensures Stands(t', ps', p + 1, programs[p].segments) <==> Stands(t, ps, p + 1, programs[p].segments)
      ensures InPlace(t', ps', p + 1, programs[p].segments) <==> InPlace(t, ps, p + 1, programs[p].segments)
    {
      if ps[p + 1].pagetable.Some? { ImageStays(t, t', ps[p + 1].pagetable.value, programs[p].segments); }
    }
    assert AllStand(t', ps', programs, n + 1) <==>
             AllStand(t', ps', programs, n) && Stands(t', ps', n + 1, programs[n].segments);
    assert AllInPlace(t', ps', programs, n + 1) <==>
             AllInPlace(t', ps', programs, n) && InPlace(t', ps', n + 1, programs[n].segments);
  }

  /** `memory_map`: map one page with an iterator of its own. */
  method MemoryMap(mem: Memory, root: nat, va: nat, pa: Target, p: Flags) returns (r: int)
    requires mem.Valid() && Root(mem.shape, root) && va < WORD && va % 0x1000 == 0 && Canonical(va) && Fits(pa, p)
    requires PlainAt(mem.tables, root, va)
    modifies mem, mem.refcount
    ensures mem.Valid()
    ensures MapOutcome(old(mem.shape), old(mem.tables), mem.shape, mem.tables, root, va, pa, p,
                       Walk(old(mem.tables), root, va).level, r)
    ensures CountsKept(mem.kernelEnd, old(mem.refcount[..]), mem.refcount[..], old(mem.tables.Keys), mem.tables.Keys)
    ensures Took(old(mem.InStock()), mem.InStock(), if p == 0 then 0 else Walk(old(mem.tables), root, va).level, r == 0)
  {
    hide Forest, Rooted, Walk, Translate, EntryAt, MapOutcome, CountsKept, Canonical, Fits, Took, FreePages;
    var it := new VmIter(mem, root, va);
    PlainMayMap(it, pa, p);
    r := it.TryMap(pa, p);
  }

  lemma PlainMayMap(it: VmIter, pa: Target, p: Flags)
    requires it.Valid() && Canonical(it.va) && it.va % 0x1000 == 0 && Fits(pa, p)
    requires PlainAt(it.mem.tables, it.root, it.va)
    ensures it.MayMap(pa, p) && it.level == Walk(it.mem.tables, it.root, it.va).level
  {
    hide Forest, Rooted, Walk, Fits;
    assert Grants(ALL, p);
  }

  class Kernel {
    const mem: Memory
    const ptable: array<Proc>
    var current: nat
    ghost var owner: map<nat, nat>   // which process each page handed to user code belongs to

    ghost predicate Sound()
      reads this, mem, mem.refcount, ptable
    {
      && mem.Valid() && ptable.Length == NPROC && current < NPROC
      && OwnTrees(mem.shape, RootsOf(ptable[..])) && AllPlain(mem.tables, RootsOf(ptable[..]))
    }

    /** User code of a process reaches only the console and the pages of that process, and these hold no tables. */
    ghost predicate Isolated()
      reads this`owner, mem, mem.refcount, ptable
    {
      && Private(mem.tables, RootsOf(ptable[..]), owner)
      && Owned(mem.kernelEnd, mem.refcount[..], mem.tables.Keys, owner)
    }

    predicate HasTree(pid: nat)
      reads ptable
    {
      pid < ptable.Length && ptable[pid].pagetable.Some?
    }

    function RootOf(pid: nat): nat
      requires HasTree(pid)
      reads ptable
    {
      ptable[pid].pagetable.value
    }

    /** At what level the walk to an address stops: so many tables are missing for a mapping there. */
    ghost function LevelAt(pid: nat, va: nat): (level: nat)
      requires HasTree(pid)
      reads mem, ptable
      ensures level <= 3
    {
      Walk(mem.tables, RootOf(pid), va).level
    }

    /** Page 0 was handed to no other process. */
    ghost predicate NullFor(pid: nat)
      reads this`owner
    {
      NULL_PAGE in owner ==> owner[NULL_PAGE] == pid
    }

    /** The process can be given any page without a new table. */
    ghost predicate ReadyFor(pid: nat)
      reads mem, ptable
    {
      HasTree(pid) && Covered(mem.tables, RootOf(pid))
    }

    /** The process has all it was set up with. */
    ghost predicate Populated(pid: nat, program: Program)
      reads this`owner, mem, ptable
    {
      && HasTree(pid) && ptable[pid] == Proc(Some(RootOf(pid)), Runnable, program.entry, MEMSIZE_VIRTUAL)
      && Loaded(mem.tables, RootOf(pid), pid, owner, program.segments)
    }

    constructor (kernelEnd: nat, root: nat)
      requires KERNEL_START <= root < kernelEnd <= KERNEL_STACK
      ensures Sound() && Isolated() && fresh(mem) && fresh(mem.refcount) && fresh(ptable)
      ensures forall pid :: 0 <= pid < NPROC ==> ptable[pid].state == Free
      ensures mem.kernelEnd == kernelEnd && mem.refcount.Length == NPAGES
      ensures forall i :: 0 <= i < NPAGES ==> mem.refcount[i] == 0
    {
      hide Forest, Rooted, Memory.AllocatablePage, FreePages, Belongs, Translate, Plain, Root;
      KernelPages(kernelEnd, root);
      mem := new Memory(kernelEnd, root);
      ptable := new Proc[NPROC](i => Proc(None, Free, 0, 0));
      current, owner := 0, map[];
    }

    static lemma KernelPages(kernelEnd: nat, root: nat)
      requires KERNEL_START <= root < kernelEnd <= KERNEL_STACK
      ensures !Memory.AllocatablePage(root, kernelEnd) && root < 0x10_0000 && root != CONSOLE_PAGE && root != NULL_PAGE
    {
    }

    /** One mapping in the tree of a process. */
    method Map(pid: nat, va: nat, pa: Target, p: Flags) returns (r: int)
      requires Sound() && Isolated() && HasTree(pid) && va < WORD && va % 0x1000 == 0 && Canonical(va) && Fits(pa, p)
      requires MayGive(pa, p, pid, owner)
      modifies mem, mem.refcount
      ensures Sound() && Isolated()
      ensures Advanced(old(mem.shape), old(mem.tables), mem.shape, mem.tables, RootOf(pid))
      ensures MapOutcome(old(mem.shape), old(mem.tables), mem.shape, mem.tables, RootOf(pid), va, pa, p,
              old(LevelAt(pid, va)), r)
      ensures CountsKept(mem.kernelEnd, old(mem.refcount[..]), mem.refcount[..], old(mem.tables.Keys), mem.tables.Keys)
      ensures Took(old(mem.InStock()), mem.InStock(), if p == 0 then 0 else old(LevelAt(pid, va)), r == 0)
    {
      hide Forest, Rooted, Walk, Translate, EntryAt, CountsKept, Canonical, Fits, PlainAt, Belongs, MapOutcome, WalksOn,
           MayGive, Took, FreePages, SameOutside;
      ghost var shape, t, roots, counts := mem.shape, mem.tables, RootsOf(ptable[..]), mem.refcount[..];
      var root := RootOf(pid);
      assert roots[pid] == ptable[pid].pagetable;
      assert Plain(t, root);
      r := MemoryMap(mem, root, va, pa, p);
      OutcomeAdvances(shape, t, mem.shape, mem.tables, root, va, pa, p, Walk(t, root, va).level, r);
      TreesGrow(shape, mem.shape, roots);
      MapKeepsPlain(shape, t, mem.tables, roots);
      MapKeepsPrivate(shape, t, mem.shape, mem.tables, roots, owner, pid, va, pa, p, Walk(t, root, va).level, r);
      MapKeepsOwned(mem.kernelEnd, counts, mem.refcount[..], t.Keys, mem.tables.Keys, owner);
    }

    /** `kalloc_pagetable`, for a process: an empty tree, when there is a page for it. No other tree changes. */
    method KallocPagetable(pid: nat) returns (made: bool)
      requires Sound() && Isolated() && pid < NPROC
      modifies mem, mem.refcount, ptable
      ensures Sound() && Isolated()
      ensures made <==> HasTree(pid)
      ensures made <==> old(mem.Free()) != {}
      ensures made ==> Least(old(mem.Free()), RootOf(pid))
      ensures made ==> mem.InStock() == Stock(old(mem.Free()) - {RootOf(pid)}, old(mem.InStock()).tables + 1)
      ensures !made ==> mem.InStock() == old(mem.InStock()) && mem.tables == old(mem.tables)
      ensures made ==> RootOf(pid) !in old(mem.tables) && NULL_PAGE !in owner
      ensures made ==> forall va: nat :: va < WORD ==> Translate(mem.tables, RootOf(pid), va) == Unmapped
      ensures made ==> LevelAt(pid, 0) == 3
      ensures forall q :: 0 <= q < NPROC && q != pid ==> ptable[q] == old(ptable[q])
      ensures ptable[pid] == old(ptable[pid]).(pagetable := ptable[pid].pagetable)
      ensures Evolved(old(mem.shape), old(mem.tables), mem.shape, mem.tables)
    {
      hide Forest, Rooted, Translate, Walk, FreePages, Private, Owned, OwnTrees, AllPlain, Evolved, AddRoot,
           Memory.AllocatablePage;
      ghost var shape, t, roots, counts := mem.shape, mem.tables, RootsOf(ptable[..]), mem.refcount[..];
      var page := mem.Kalloc();
      made := page.Some?;
      if made {
        var r := page.value;
        mem.tables := mem.tables[r := ZeroTable()];
        mem.shape := AddRoot(mem.shape, r);
        ptable[pid] := ptable[pid].(pagetable := Some(r));
        NewTree(t, shape, r, roots, pid, owner, mem.kernelEnd, counts);
        TakenPage(mem.kernelEnd, counts, r);
        LeastTaken(mem.kernelEnd, counts, r);
        assert RootsOf(ptable[..]) == roots[pid := Some(r)];
      } else {
        NoPageFree(mem.kernelEnd, counts);
        ptable[pid] := ptable[pid].(pagetable := None);
        assert RootsOf(ptable[..]) == roots[pid := None];
        RootDropped(shape, t, roots, pid, owner);
        EvolvedRefl(shape, t);
      }
    }

    /** `kalloc`, recording whose page it is. */
    method TakePage(pid: nat) returns (ptr: Option<nat>)
      requires Sound() && Isolated() && pid < NPROC
      modifies mem.refcount, `owner
      ensures Sound() && Isolated()
      ensures ptr.Some? <==> old(mem.Free()) != {}
      ensures ptr.Some? ==> Least(old(mem.Free()), ptr.value)
      ensures ptr.Some? ==> mem.InStock() == Stock(old(mem.Free()) - {ptr.value}, old(mem.InStock()).tables)
      ensures ptr.Some? ==> owner == old(owner)[ptr.value := pid] && ptr.value !in old(owner) && NULL_PAGE !in owner
      ensures ptr.Some? ==> mem.Allocatable(ptr.value) && ptr.value !in mem.tables && ptr.value < NPAGES
                            && old(mem.refcount[ptr.value]) == 0
                                && mem.refcount[..] == old(mem.refcount[..])[ptr.value := 1]
      ensures ptr.None? ==> mem.refcount[..] == old(mem.refcount[..]) && owner == old(owner) && mem.Free() == {}
    {
      hide Forest, Rooted, PlainAt, Belongs, FreePages, Private, Owned, OwnTrees, AllPlain;
      ghost var counts := mem.refcount[..];
      ptr := mem.Kalloc();
      if ptr.Some? {
        TakenPage(mem.kernelEnd, counts, ptr.value);
        LeastTaken(mem.kernelEnd, counts, ptr.value);
        PageHanded(mem.tables, RootsOf(ptable[..]), mem.kernelEnd, counts, owner, ptr.value, pid);
        owner := owner[ptr.value := pid];
      } else {
        NoPageFree(mem.kernelEnd, counts);
      }
    }

    /** `kalloc`, where nobody looks at the result: when no page is left, page 0 is the process's from now on. */
    method TakeAnyPage(pid: nat) returns (ptr: Option<nat>, ghost frame: nat)
      requires Sound() && Isolated() && NullFor(pid) && pid < NPROC
      modifies mem.refcount, `owner
      ensures Sound() && Isolated() && NullFor(pid)
      ensures frame == (if ptr.Some? then ptr.value else NULL_PAGE) && frame < 0x10_0000
      ensures owner == old(owner)[frame := pid] && (frame in old(owner) ==> old(owner)[frame] == pid)
      ensures ptr.None? <==> old(mem.Free()) == {}
      ensures ptr.Some? ==> Least(old(mem.Free()), ptr.value) && NULL_PAGE !in owner && mem.Allocatable(ptr.value)
                            && old(ptr.value < NPAGES && mem.refcount[ptr.value] == 0)
      ensures mem.InStock() == Stock(if ptr.Some? then old(mem.Free()) - {frame} else {}, old(mem.InStock()).tables)
    {
      hide Forest, Rooted, Translate, Private, Owned, OwnTrees, AllPlain, FreePages, Least;
      ptr := TakePage(pid);
      frame := if ptr.Some? then ptr.value else NULL_PAGE;
      if ptr.None? {
        NullHanded(mem.tables, RootsOf(ptable[..]), mem.kernelEnd, mem.refcount[..], owner, pid);
        owner := owner[NULL_PAGE := pid];
      }
    }

    /** Allocate a page for a process and map it, looking at neither result. When no page is left it is page 0 that is
        mapped, unless a table was missing as well. */
    method AllocPage(pid: nat, va: nat) returns (ptr: Option<nat>, r: int)
      requires Sound() && Isolated() && NullFor(pid) && HasTree(pid) && va < WORD && va % 0x1000 == 0 && Canonical(va)
      modifies mem, mem.refcount, `owner
      ensures Sound() && Isolated() && NullFor(pid)
      ensures Advanced(old(mem.shape), old(mem.tables), mem.shape, mem.tables, RootOf(pid))
      ensures OwnerGrown(old(owner), owner)
      ensures Gave(old(mem.InStock()), mem.InStock(), old(LevelAt(pid, va)), ptr, r == 0)
      ensures SameElsewhere(old(mem.shape), old(mem.tables), mem.tables, RootOf(pid), va)
      ensures Provided(old(mem.InStock()), mem.InStock(), 1, old(LevelAt(pid, 0)) == 0 && va < MEMSIZE_VIRTUAL,
                       old(LevelAt(pid, STACK_PAGE)), LevelAt(pid, STACK_PAGE), ptr.Some? && r == 0)
      ensures LevelAt(pid, 0) <= old(LevelAt(pid, 0))
      ensures r == 0 || r == -1
      ensures r == 0 ==> LevelAt(pid, va) == 0
      ensures ptr.Some? ==>
              NULL_PAGE !in owner && mem.Allocatable(ptr.value)
              && old(ptr.value < NPAGES && mem.refcount[ptr.value] == 0)
      ensures r == 0 ==>
              Translate(mem.tables, RootOf(pid), va) ==
              Mapped((if ptr.Some? then ptr.value else NULL_PAGE) * 0x1000, PWU)
      ensures r == 0 && ptr.None? <==> old(mem.Free()) == {} && old(LevelAt(pid, va)) == 0
      ensures StillGiven(old(mem.tables), mem.tables, RootOf(pid), pid, old(owner), owner)
      ensures va >= PROC_START_ADDR ==> SameBelow(old(mem.tables), mem.tables, RootOf(pid))
      ensures r == 0 ==> Given(mem.tables, RootOf(pid), va, va + 0x1000, pid, owner)
    {
      hide Sound, Isolated, Forest, Rooted, Walk, Translate, EntryAt, Canonical, PlainAt, Belongs, WalksOn, CountsKept,
           MapOutcome, StillGiven, SameBelow, Given, FreePages, Advanced, Provided, Least, Lowest, SameElsewhere, Maps,
           Fits, MayGive, Memory.Valid, Root, Took, OwnerGrown;
      ghost var shape, t, owner0, level, s0 := mem.shape, mem.tables, owner, LevelAt(pid, va), mem.InStock();
      SoundTree(pid);
      TreesMatch();
      ghost var page;
      ptr, page := TakeAnyPage(pid);
      var frame := if ptr.Some? then ptr.value else NULL_PAGE;
      ghost var s1 := mem.InStock();
      MayGiveOwn(frame, pid, owner);
      r := Map(pid, va, At(frame, 0), PWU);
      WhenTook(s1, mem.InStock(), level, r == 0);
      OwnerGrownByOwn(owner0, frame, pid);
      if r == 0 { MappedLevel(shape, t, mem.shape, mem.tables, RootOf(pid), va, At(frame, 0), PWU, level, r); }
      OutcomeResult(shape, t, mem.shape, mem.tables, RootOf(pid), va, At(frame, 0), PWU, level, r);
      PageAdded(shape, t, mem.shape, mem.tables, RootOf(pid), pid, va, frame, level, r, owner0, owner);
      AdvancedWalk(shape, t, mem.shape, mem.tables, RootOf(pid), 0, RootOf(pid));
      AdvancedWalk(shape, t, mem.shape, mem.tables, RootOf(pid), STACK_PAGE, RootOf(pid));
      PageProvided(t, mem.tables, RootOf(pid), va, s0, mem.InStock(), ptr, r == 0);
    }

    lemma SoundTree(pid: nat)
      requires Sound() && HasTree(pid)
      ensures Root(mem.shape, RootOf(pid))
    {
      assert RootsOf(ptable[..])[pid] == ptable[pid].pagetable;
    }

    /** Map all addresses below the processes' for the kernel only. */
    method MapKernelSpace(pid: nat) returns (whole: bool)
      requires Sound() && Isolated() && HasTree(pid)
      modifies mem, mem.refcount
      ensures Sound() && Isolated()
      ensures Advanced(old(mem.shape), old(mem.tables), mem.shape, mem.tables, RootOf(pid))
      ensures Took(old(mem.InStock()), mem.InStock(), old(LevelAt(pid, 0)), whole)
      ensures whole ==> LevelAt(pid, 0) == 0 && KernelSpace(mem.tables, RootOf(pid), PROC_START_ADDR)
    {
      hide Forest, Rooted, Walk, Translate, EntryAt, PlainAt, Belongs, WalksOn, CountsKept, MapOutcome, OwnTrees,
           AllPlain, Private, Owned, Advanced, SameElsewhere, KernelSpace, FreePages;
      ghost var shape0, t0, s0 := mem.shape, mem.tables, mem.InStock();
      AdvancedRefl(shape0, t0, RootOf(pid));
      NotForUser(P | W);
      whole := true;
      var va := 0;
      KernelSpaceEmpty(t0, RootOf(pid));
      while va < PROC_START_ADDR
        invariant va % 0x1000 == 0 && va <= PROC_START_ADDR
        invariant Sound() && Isolated() && HasTree(pid)
        invariant Advanced(shape0, t0, mem.shape, mem.tables, RootOf(pid))
        invariant va == 0 ==> whole && mem.InStock() == s0 && mem.tables == t0
        invariant va > 0 ==> Took(s0, mem.InStock(), old(LevelAt(pid, 0)), whole) && (whole ==> LevelAt(pid, 0) == 0)
        invariant whole ==> KernelSpace(mem.tables, RootOf(pid), va)
      {
        ghost var shape1, t1 := mem.shape, mem.tables;
        SoundTree(pid);
        LowLevel(t1, RootOf(pid), va);
        var r := Map(pid, va, At(va / 0x1000, 0), P | W);
        AdvancedTrans(shape0, t0, shape1, t1, mem.shape, mem.tables, RootOf(pid));
        AdvancedWalk(shape1, t1, mem.shape, mem.tables, RootOf(pid), 0, RootOf(pid));
        KernelPageMapped(shape1, t1, mem.shape, mem.tables, RootOf(pid), va, r);
        whole := whole && r == 0;
        va := va + 0x1000;
      }
    }

    /** Everything below the processes' addresses, and the console. */
    method MapSystemPages(pid: nat) returns (whole: bool)
      requires Sound() && Isolated() && HasTree(pid)
      modifies mem, mem.refcount
      ensures Sound() && Isolated()
      ensures Advanced(old(mem.shape), old(mem.tables), mem.shape, mem.tables, RootOf(pid))
      ensures Took(old(mem.InStock()), mem.InStock(), old(LevelAt(pid, 0)), whole)
      ensures whole ==> LevelAt(pid, 0) == 0 && SystemSpace(mem.tables, RootOf(pid))
    {
      hide Forest, Rooted, Walk, Translate, EntryAt, PlainAt, Belongs, WalksOn, CountsKept, MapOutcome, OwnTrees,
           AllPlain, Private, Owned, Advanced, SystemSpace, KernelSpace, SameElsewhere, FreePages;
      ghost var shape0, t0 := mem.shape, mem.tables;
      whole := MapKernelSpace(pid);
      ghost var shape1, t1 := mem.shape, mem.tables;
      SoundTree(pid);
      ghost var root := RootOf(pid);
      assert !Maps(0) && Maps(PWU);
      var r := Map(pid, 0, At(0, 0), 0);
      ghost var shape2, t2 := mem.shape, mem.tables;
      OutcomeResult(shape1, t1, shape2, t2, root, 0, At(0, 0), 0, Walk(t1, root, 0).level, r);
      SoundTree(pid);
      AdvancedWalk(shape1, t1, shape2, t2, root, 0, root);
      LowLevel(t2, root, CONSOLE_PAGE * 0x1000);
      r := Map(pid, CONSOLE_PAGE * 0x1000, At(CONSOLE_PAGE, 0), PWU);
      OutcomeResult(shape2, t2, mem.shape, mem.tables, root, CONSOLE_PAGE * 0x1000, At(CONSOLE_PAGE, 0), PWU,
                    Walk(t2, root, CONSOLE_PAGE * 0x1000).level, r);
      AdvancedTrans(shape0, t0, shape1, t1, shape2, t2, root);
      AdvancedTrans(shape0, t0, shape2, t2, mem.shape, mem.tables, root);
      AdvancedWalk(shape2, t2, mem.shape, mem.tables, root, 0, root);
      whole := whole && r == 0;
      if whole { SystemSpaceMade(shape1, t1, t2, mem.tables, shape2, root); }
    }

    /** What loading segments is about. */
    ghost function Now(): Space
      reads this`owner, mem, mem.refcount
    {
      Space(mem.shape, mem.tables, owner, mem.InStock())
    }

    /** Allocate and map the pages of one segment. `complete`: there was a page, and a mapping, for each address. */
    method LoadSegment(pid: nat, seg: Segment) returns (complete: bool)
      requires Sound() && Isolated() && NullFor(pid) && HasTree(pid) && seg.va + seg.size <= VA_LOWMAX + 1
      modifies mem, mem.refcount, `owner
      ensures Sound() && Isolated() && NullFor(pid)
      ensures Advanced(old(mem.shape), old(mem.tables), mem.shape, mem.tables, RootOf(pid))
      ensures OwnerGrown(old(owner), owner)
      ensures Provided(old(mem.InStock()), mem.InStock(), PagesOf(seg),
                       old(LevelAt(pid, 0)) == 0 && seg.va + seg.size <= MEMSIZE_VIRTUAL,
                       old(LevelAt(pid, STACK_PAGE)), LevelAt(pid, STACK_PAGE), complete)
      ensures LevelAt(pid, 0) <= old(LevelAt(pid, 0))
      ensures StillGiven(old(mem.tables), mem.tables, RootOf(pid), pid, old(owner), owner)
      ensures seg.va >= PROC_START_ADDR ==> SameBelow(old(mem.tables), mem.tables, RootOf(pid))
      ensures complete ==> SegmentGiven(mem.tables, RootOf(pid), seg, pid, owner)
      ensures complete && NULL_PAGE !in old(owner) ==> NULL_PAGE !in owner
      ensures SameOff(old(mem.tables), mem.tables, RootOf(pid), Start(seg), EndOf(seg))
      ensures complete && old(LevelAt(pid, 0)) == 0 && seg.va + seg.size <= 0x20_0000 ==>
                SegmentLanded(old(mem.Free()), mem.Free(), mem.tables, RootOf(pid), seg)
    {
      hide Sound, Isolated, NullFor, Forest, Rooted, Walk, Translate, EntryAt, PlainAt, Belongs, WalksOn, CountsKept,
           OwnTrees, AllPlain, Private, Owned, Advanced, StillGiven, SameBelow, Given, FreePages, Provided, Gave, Took,
           OwnerGrown, Canonical, PagesOf, Root, SameOff, SameElsewhere, EndOf, LoadedTo, SegmentLanded,
           SegmentGiven, PageAt;
      ghost var x, root, n, frames: seq<nat> := Now(), RootOf(pid), 0, [];
      SoundTree(pid);
      LoadNothing(x, root, pid, seg);
      complete := true;
      var a := seg.va / 0x1000 * 0x1000;
      FirstPage(seg);
      while a < seg.va + seg.size
        invariant a == PageAt(seg, n) && (n > 0 ==> a < seg.va + seg.size + 0x1000)
        invariant Sound() && Isolated() && NullFor(pid) && HasTree(pid)
        invariant LoadedTo(x, Now(), root, pid, seg, n, frames, complete)
      {
        ghost var y := Now();
        PageAtNext(seg, n);
        SoundTree(pid);
        var ptr, r := AllocPage(pid, a);
        LoadPage(x, y, Now(), root, pid, seg, n, frames, complete, ptr, r == 0);
        complete := complete && ptr.Some? && r == 0;
        frames := if ptr.Some? then frames + [ptr.value] else frames;
        n := n + 1;
        a := a + 0x1000;
      }
      LoadWhole(x, Now(), root, pid, seg, n, frames, complete);
    }

    /** The segments one after the other. `pages` are those that were free at some time, `skip` how many of them are
        gone. */
    method LoadProgram(pid: nat, segments: seq<Segment>, ghost pages: set<nat>,
                       ghost skip: nat) returns (complete: bool)
      requires Sound() && Isolated() && NullFor(pid) && HasTree(pid) && Bounded(segments)
      requires Lowest(pages, mem.Free()) && |mem.Free()| + skip == |pages|
      modifies mem, mem.refcount, `owner
      ensures Sound() && Isolated() && NullFor(pid)
      ensures Advanced(old(mem.shape), old(mem.tables), mem.shape, mem.tables, RootOf(pid))
      ensures OwnerGrown(old(owner), owner)
      ensures Provided(old(mem.InStock()), mem.InStock(), PagesOfAll(segments),
                       old(LevelAt(pid, 0)) == 0 && Confined(segments),
                       old(LevelAt(pid, STACK_PAGE)), LevelAt(pid, STACK_PAGE), complete)
      ensures LevelAt(pid, 0) <= old(LevelAt(pid, 0))
      ensures StillGiven(old(mem.tables), mem.tables, RootOf(pid), pid, old(owner), owner)
      ensures AllHigh(segments) ==> SameBelow(old(mem.tables), mem.tables, RootOf(pid))
      ensures complete ==> AllGiven(mem.tables, RootOf(pid), segments, pid, owner)
      ensures complete && NULL_PAGE !in old(owner) ==> NULL_PAGE !in owner
      ensures complete && old(LevelAt(pid, 0)) == 0 && LowApart(segments) ==>
                (AllLanded(mem.tables, RootOf(pid), segments) <==> Tidy(pages, skip, segments))
    {
      hide Sound, Isolated, NullFor, Forest, Rooted, Walk, Translate, EntryAt, PlainAt, Belongs, WalksOn, CountsKept,
           OwnTrees, AllPlain, Private, Owned, Advanced, StillGiven, SameBelow, SegmentGiven, FreePages, Provided,
           PagesOf, OwnerGrown, AllGiven, Confined, Bounded, PagesOfAll, LandUpTo, SameOff, SegmentLanded, Lowest,
           LowApart, AllLanded, Tidy, EndOf, Start;
      ghost var shape0, t0, owner0, s0, root := mem.shape, mem.tables, owner, mem.InStock(), RootOf(pid);
      ghost var level, low := LevelAt(pid, STACK_PAGE), LevelAt(pid, 0) == 0 && Confined(segments);
      ghost var here := LevelAt(pid, 0) == 0 && LowApart(segments);
      AdvancedRefl(shape0, t0, root);
      NothingGiven(t0, root, pid, owner0, 0);
      NothingTaken(s0, low, LevelAt(pid, STACK_PAGE));
      OwnerGrownRefl(owner0);
      NoSegmentGiven(t0, root, pid, owner0);
      complete := true;
      var i := 0;
      assert segments[..i] == [];
      NoneLandUpTo(t0, root, pages, skip, segments);
      while i < |segments|
        invariant 0 <= i <= |segments|
        invariant Sound() && Isolated() && NullFor(pid) && HasTree(pid)
        invariant Advanced(shape0, t0, mem.shape, mem.tables, root) && OwnerGrown(owner0, owner)
        invariant Provided(s0, mem.InStock(), PagesOfAll(segments[..i]), low, level, LevelAt(pid, STACK_PAGE), complete)
        invariant LevelAt(pid, 0) <= old(LevelAt(pid, 0))
        invariant StillGiven(t0, mem.tables, root, pid, owner0, owner)
        invariant AllHigh(segments) ==> SameBelow(t0, mem.tables, root)
        invariant complete ==> AllGiven(mem.tables, root, segments[..i], pid, owner)
        invariant complete && NULL_PAGE !in owner0 ==> NULL_PAGE !in owner
        invariant Lowest(pages, mem.Free())
        invariant complete && here ==> LandUpTo(mem.tables, root, pages, skip, segments, i)
        invariant complete && here ==> |mem.Free()| + skip + PagesOfAll(segments[..i]) == |pages|
      {
        ghost var shape1, t1, owner1, s1 := mem.shape, mem.tables, owner, mem.InStock();
        OneMoreSegment(segments, i);
        if here { LowSegment(segments, i); }
        var c := LoadSegment(pid, segments[i]);
        AdvancedTrans(shape0, t0, shape1, t1, mem.shape, mem.tables, root);
        OwnerGrownTrans(owner0, owner1, owner);
        ProgramStep(t0, t1, mem.tables, root, pid, owner0, owner1, owner, segments, i, complete, c);
        LoadedStock(s0, s1, mem.InStock(), pages, segments, i, low,
                    Walk(t1, root, 0).level == 0 && segments[i].va + segments[i].size <= MEMSIZE_VIRTUAL,
                    level, Walk(t1, root, STACK_PAGE).level, LevelAt(pid, STACK_PAGE), complete, c);
        complete := complete && c;
        if complete && here { LandStep(t1, mem.tables, root, pages, skip, segments, i, s1.free, mem.Free()); }
        i := i + 1;
      }
      assert segments[..|segments|] == segments;
      if complete && here { LandedWhenTidy(mem.tables, root, pages, skip, segments); }
    }

    /** Copying the image of each segment, through the physical address of its first page. */
    method CopySegments(pid: nat, segments: seq<Segment>) returns (stops: bool)
      requires Sound() && HasTree(pid) && Bounded(segments)
      ensures stops <==> Stops(mem.tables, RootOf(pid), segments)
    {
      hide Sound, Forest, Rooted, Walk, Translate, EntryAt, Faults, Root, Memory.Valid;
      SoundTree(pid);
      TreesMatch();
      var i := 0;
      while i < |segments|
        invariant 0 <= i <= |segments|
        invariant forall j :: 0 <= j < i ==> !CopyFaults(mem.tables, RootOf(pid), segments[j])
      {
        var it := new VmIter(mem, RootOf(pid), segments[i].va);
        var pa := it.CurrentPa();
        WhereMapped(it, pid);
        if segments[i].size > 0 &&
           (pa.None? || pa.value < 0x1000 || pa.value + segments[i].size > MEMSIZE_PHYSICAL) {
          CopyStops(mem.tables, RootOf(pid), segments[i], pa);
          return true;
        }
        CopyStops(mem.tables, RootOf(pid), segments[i], pa);
        i := i + 1;
      }
      return false;
    }

    /** The iterator reports a physical address exactly when there is a translation: a tree has no other entries. */
    lemma WhereMapped(it: VmIter, pid: nat)
      requires Sound() && HasTree(pid) && it.Valid() && it.mem == mem && it.root == RootOf(pid)
      ensures var x := Translate(mem.tables, RootOf(pid), it.va);
              it.CurrentPa() == if x.Mapped? then Some(x.pa) else None
    {
      hide Forest, Walk, Translate;
      it.ReportsTranslation();
      assert RootsOf(ptable[..])[pid] == ptable[pid].pagetable;
      assert PlainAt(mem.tables, RootOf(pid), it.va);
      PresentPlain(it);
    }

    lemma PresentPlain(it: VmIter)
      requires it.Valid() && PlainAt(it.mem.tables, it.root, it.va)
      ensures Present(it.Current()) ==> it.CurrentPerm() != 0
    {
      hide Walk;
      var f := it.Current().flags;
      assert f & P == P ==> (f & ALL) & P == P && f & ALL != 0;
      assert !Present(ZERO);
    }

    /** The part of `process_setup` up to the stack. `fine`: every allocation gave a page and every mapping could be
        made. `clean`: every copy lands in the pages of its own segment; when one does not, other pages are overwritten,
        or the kernel stops. */
    method LoadImage(pid: nat, segments: seq<Segment>, ghost pages: set<nat>)
        returns (fine: bool, stops: bool, ghost clean: bool)
      requires Sound() && Isolated() && NULL_PAGE !in owner && HasTree(pid) && Bounded(segments) && LevelAt(pid, 0) == 3
      requires Lowest(pages, mem.Free()) && |mem.Free()| + 1 == |pages|
      modifies mem, mem.refcount, `owner
      ensures Sound() && Isolated() && NullFor(pid)
      ensures Advanced(old(mem.shape), old(mem.tables), mem.shape, mem.tables, RootOf(pid))
      ensures OwnerGrown(old(owner), owner)
      ensures Imaged(old(mem.InStock()), mem.InStock(), PagesOfAll(segments), Confined(segments),
                     LevelAt(pid, STACK_PAGE), fine)
      ensures fine ==> LevelAt(pid, 0) == 0 && NULL_PAGE !in owner
      ensures fine ==> AllGiven(mem.tables, RootOf(pid), segments, pid, owner)
      ensures fine && AllHigh(segments) ==> SystemSpace(mem.tables, RootOf(pid))
      ensures clean <==> AllLanded(mem.tables, RootOf(pid), segments)
      ensures stops <==> Stops(mem.tables, RootOf(pid), segments)
      ensures fine && clean ==> !stops
      ensures fine && LowApart(segments) ==> (clean <==> Tidy(pages, 4, segments))
    {
      hide Sound, Isolated, Forest, Rooted, Walk, Translate, EntryAt, PlainAt, Belongs, WalksOn, CountsKept, MapOutcome,
           OwnTrees, AllPlain, Private, Owned, Advanced, SystemSpace, AllGiven, Given, StillGiven, SameBelow, Provided,
           OwnerGrown, Confined, Bounded, PagesOfAll, AllHigh, Imaged, FreePages, Lowest, LowApart, AllLanded, Tidy,
           Stops;
      ghost var shape1, t1, s1 := mem.shape, mem.tables, mem.InStock();
      var whole := MapSystemPages(pid);
      ghost var shape2, t2, s2, owner2, level2 := mem.shape, mem.tables, mem.InStock(), owner, LevelAt(pid, STACK_PAGE);
      ghost var root, low := RootOf(pid), LevelAt(pid, 0) == 0 && Confined(segments);
      LowestTrans(pages, s1.free, s2.free);
      if whole { StackLevel(t2, root); }
      var all := LoadProgram(pid, segments, pages, |pages| - |s2.free|);
      AdvancedTrans(shape1, t1, shape2, t2, mem.shape, mem.tables, root);
      fine := whole && all;
      ImagedBy(s1, s2, mem.InStock(), PagesOfAll(segments), Confined(segments), low, level2, LevelAt(pid, STACK_PAGE),
               whole, all);
      if fine && AllHigh(segments) { SystemSpaceStays(t2, mem.tables, root); }
      clean := AllLanded(mem.tables, root, segments);
      stops := CopySegments(pid, segments);
      if fine && clean { CleanGoesOn(pid, segments); }
    }

    lemma CleanGoesOn(pid: nat, segments: seq<Segment>)
      requires Sound() && Isolated() && HasTree(pid) && NULL_PAGE !in owner
      requires AllGiven(mem.tables, RootOf(pid), segments, pid, owner) && AllLanded(mem.tables, RootOf(pid), segments)
      ensures !Stops(mem.tables, RootOf(pid), segments)
    {
      hide Forest, Rooted, OwnTrees, AllPlain, Private, Owned, AllGiven, AllLanded, Stops;
      NoCopyFaults(mem.tables, RootOf(pid), segments, pid, owner, mem.kernelEnd, mem.refcount[..]);
    }

    /** The part of `process_setup` that fills a new tree. `up`: the kernel did not stop. */
    method Populate(pid: nat, segments: seq<Segment>, ghost pages: set<nat>)
        returns (up: bool, complete: bool, ghost clean: bool)
      requires Sound() && Isolated() && NULL_PAGE !in owner && HasTree(pid) && Bounded(segments) && LevelAt(pid, 0) == 3
      requires Lowest(pages, mem.Free()) && |mem.Free()| + 1 == |pages|
      modifies mem, mem.refcount, `owner
      ensures Sound() && Isolated()
      ensures Advanced(old(mem.shape), old(mem.tables), mem.shape, mem.tables, RootOf(pid))
      ensures OwnerGrown(old(owner), owner)
      ensures up ==> Filled(old(mem.InStock()), mem.InStock(), PagesOfAll(segments) + 1, Confined(segments), complete)
      ensures !up ==> !complete && Stopped(old(mem.InStock()), mem.InStock(), PagesOfAll(segments) + 1,
                                           Confined(segments), clean)
      ensures complete ==> LevelAt(pid, 0) == 0 && LevelAt(pid, STACK_PAGE) == 0 && NULL_PAGE !in owner
      ensures complete ==> Loaded(mem.tables, RootOf(pid), pid, owner, segments)
      ensures Enough(old(mem.InStock()), PagesOfAll(segments) + 1) && LowApart(segments) ==>
                (clean <==> Tidy(pages, 4, segments))
      ensures BelowStack(segments) ==> (clean <==> AllLanded(mem.tables, RootOf(pid), segments))
      ensures BelowStack(segments) ==> (up <==> !Stops(mem.tables, RootOf(pid), segments))
      ensures !up ==> Stops(mem.tables, RootOf(pid), segments)
    {
      hide Sound, Isolated, Forest, Rooted, Walk, Translate, EntryAt, PlainAt, Belongs, WalksOn, CountsKept, MapOutcome,
           OwnTrees, AllPlain, Private, Owned, Advanced, SystemSpace, AllGiven, Given, StillGiven, SameBelow, Provided,
           OwnerGrown, Confined, Bounded, PagesOfAll, AllHigh, Filled, Imaged, FreePages, Lowest, LowApart, AllLanded,
           Tidy, Enough, Stopped, Gave, SameElsewhere, BelowStack, Stops;
      ghost var shape1, t1, s1, owner1 := mem.shape, mem.tables, mem.InStock(), owner;
      var fine, stops;
      fine, stops, clean := LoadImage(pid, segments, pages);
      ghost var shape3, t3, s3, owner3, level3 := mem.shape, mem.tables, mem.InStock(), owner, LevelAt(pid, STACK_PAGE);
      ghost var root, low := RootOf(pid), LevelAt(pid, 0) == 0;
      if LowApart(segments) { LowConfined(segments); }
      EnoughIsFine(s1, s3, PagesOfAll(segments), Confined(segments), level3, fine);
      if stops {
        StoppedBy(s1, s3, PagesOfAll(segments), Confined(segments), level3, fine, clean);
        return false, false, clean;
      }
      up := true;
      SoundTree(pid);
      var ptr, r := AllocPage(pid, STACK_PAGE);
      AdvancedTrans(shape1, t1, shape3, t3, mem.shape, mem.tables, root);
      OwnerGrownTrans(owner1, owner3, owner);
      complete := fine && ptr.Some? && r == 0;
      FilledBy(s1, s3, mem.InStock(), PagesOfAll(segments), Confined(segments), low, level3, LevelAt(pid, STACK_PAGE),
               fine, ptr.Some? && r == 0);
      if complete {
        if AllHigh(segments) { SystemSpaceStays(t3, mem.tables, root); }
        AllGivenStays(t3, mem.tables, root, segments, pid, owner3, owner);
      }
      if BelowStack(segments) { LandedBelow(shape3, t3, mem.tables, root, segments); }
    }

    method MarkRunnable(pid: nat, entry: nat, stack: nat)
      requires Sound() && Isolated() && HasTree(pid)
      modifies ptable
      ensures Sound() && Isolated()
      ensures ptable[pid] == Proc(old(ptable[pid].pagetable), Runnable, entry, stack)
      ensures forall q :: 0 <= q < NPROC && q != pid ==> ptable[q] == old(ptable[q])
    {
      hide Forest, Rooted, OwnTrees, AllPlain, Private, Owned;
      ghost var roots := RootsOf(ptable[..]);
      ptable[pid] := ptable[pid].(state := Runnable, entry := entry, stack := stack);
      assert RootsOf(ptable[..]) == roots;
    }

    /** The trees of the processes are roots, each another one. */
    lemma SoundTrees()
      requires Sound()
      ensures forall q :: 0 <= q < NPROC && HasTree(q) ==> Root(mem.shape, RootOf(q))
      ensures forall q, q' :: 0 <= q < NPROC && 0 <= q' < NPROC && q != q' && HasTree(q) && HasTree(q') ==>
              RootOf(q) != RootOf(q')
    {
      hide Forest, Rooted, AllPlain;
      ghost var roots := RootsOf(ptable[..]);
      assert forall q :: 0 <= q < NPROC ==> roots[q] == ptable[q].pagetable;
    }

    /** `process_setup` before the process is marked runnable. */
    method MakeSpace(pid: nat, segments: seq<Segment>) returns (up: bool, complete: bool, ghost clean: bool)
      requires Sound() && Isolated() && pid < NPROC && Bounded(segments)
      modifies mem, mem.refcount, ptable, `owner
      ensures Sound() && Isolated()
      ensures SetUp(old(mem.Free()), mem.Free(), segments, HasTree(pid), up, complete, clean)
      ensures complete ==> ReadyFor(pid) && Loaded(mem.tables, RootOf(pid), pid, owner, segments) && NULL_PAGE !in owner
      ensures HasTree(pid) && BelowStack(segments) ==> (clean <==> InPlace(mem.tables, ptable[..], pid, segments))
      ensures BelowStack(segments) ==> (up <==> Stands(mem.tables, ptable[..], pid, segments))
      ensures Stands(mem.tables, ptable[..], pid, segments) ==> up
      ensures !HasTree(pid) ==> mem.tables == old(mem.tables) && owner == old(owner)
      ensures HasTree(pid) ==> Advanced(old(mem.shape), old(mem.tables), mem.shape, mem.tables, RootOf(pid))
      ensures HasTree(pid) ==> OwnerGrown(old(owner), owner) && RootOf(pid) !in old(mem.tables)
      ensures forall q :: 0 <= q < NPROC && q != pid ==> ptable[q] == old(ptable[q])
      ensures ptable[pid] == old(ptable[pid]).(pagetable := ptable[pid].pagetable)
    {
      hide Sound, Isolated, Forest, Rooted, Walk, Translate, Evolved, Private, Owned, Advanced, Covered, Loaded,
           OwnerGrown, Bounded, Confined, PagesOfAll, Filled, Root, Stopped, Enough, LowApart, Tidy, BelowStack, Stops,
           AllLanded, SetUp, FreePages, Lowest;
      ghost var shape0, t0, s0 := mem.shape, mem.tables, mem.InStock();
      TreesMatch();
      var made := KallocPagetable(pid);
      if !made {
        NotSetUp(s0.free, segments);
        return false, false, true;
      }
      ghost var shape1, t1, s1, root := mem.shape, mem.tables, mem.InStock(), RootOf(pid);
      EvolvedAdvances(shape0, t0, shape1, t1, root);
      RootTaken(s0.free, root);
      up, complete, clean := Populate(pid, segments, s0.free);
      AdvancedTrans(shape0, t0, shape1, t1, mem.shape, mem.tables, root);
      if complete { ReadyTree(pid, shape0, t0); }
      SetUpBy(s0, root, s1, mem.InStock(), segments, up, complete, clean);
    }

    lemma ReadyTree(pid: nat, shape: Shape, t: Tables)
      requires Sound() && HasTree(pid) && LevelAt(pid, 0) == 0 && LevelAt(pid, STACK_PAGE) == 0
      requires Advanced(shape, t, mem.shape, mem.tables, RootOf(pid)) && RootOf(pid) !in t && t.Keys == shape.Keys
      requires Rooted(shape)
      ensures ReadyFor(pid) && mem.InStock().tables >= |t.Keys| + TREE_PAGES
    {
      hide Forest, Rooted, Walk, Covered, Advanced, Rooted;
      SoundTree(pid);
      AdvancedGrown(shape, t, mem.shape, mem.tables, RootOf(pid));
      TreeOfFive(t, shape, mem.tables, mem.shape, RootOf(pid));
      CoverByTwo(mem.tables, RootOf(pid));
    }

    /** `process_setup`. `up`: the kernel did not stop, for want of a root or at a copy to where it cannot write.
        `complete`: every allocation gave a page and every mapping could be made. `clean`: every copy landed in the
        pages of its own segment. */
    method ProcessSetup(pid: nat, program: Program) returns (up: bool, complete: bool, ghost clean: bool)
      requires Sound() && Isolated() && pid < NPROC && Bounded(program.segments)
      modifies mem, mem.refcount, ptable, `owner
      ensures Sound() && Isolated()
      ensures SetUp(old(mem.Free()), mem.Free(), program.segments, HasTree(pid), up, complete, clean)
      ensures complete ==> ReadyFor(pid) && Populated(pid, program) && NULL_PAGE !in owner
      ensures HasTree(pid) && BelowStack(program.segments) ==>
              (clean <==> InPlace(mem.tables, ptable[..], pid, program.segments))
      ensures BelowStack(program.segments) ==> (up <==> Stands(mem.tables, ptable[..], pid, program.segments))
      ensures Stands(mem.tables, ptable[..], pid, program.segments) ==> up
      ensures up ==> ptable[pid].state == Runnable
      ensures forall q :: 0 <= q < NPROC && q != pid ==> ptable[q] == old(ptable[q])
      ensures forall q: nat :: q < NPROC && q != pid && old(HasTree(q)) ==> HasTree(q)
      ensures forall q: nat :: q < NPROC && q != pid && old(ReadyFor(q)) ==> ReadyFor(q)
      ensures forall q: nat, g: Program :: q < NPROC && q != pid && Bounded(g.segments) && old(Populated(q, g)) ==>
              Populated(q, g)
      ensures OthersSame(old(mem.tables), old(ptable[..]), mem.tables, ptable[..], pid)
    {
      hide Sound, Isolated, Forest, Rooted, Walk, Translate, Private, Owned, Advanced, Covered, Loaded, OwnerGrown,
           Bounded, Root, FreePages, SetUp, BelowStack, AllLanded, Stops, SameTree;
      ghost var shape0, t0, ps, owner0 := mem.shape, mem.tables, ptable[..], owner;
      SoundTrees();
      TreesMatch();
      up, complete, clean := MakeSpace(pid, program.segments);
      UpTree(mem.Free(), old(mem.Free()), program.segments, HasTree(pid), up, complete, clean);
      if up {
        MarkRunnable(pid, program.entry, MEMSIZE_VIRTUAL);
      }
      if !HasTree(pid) {
        forall q | 0 <= q < |ps| && q != pid
          ensures ptable[..][q] == ps[q] && (ps[q].pagetable.Some? ==> SameTree(t0, mem.tables, ps[q].pagetable.value))
        {
          assert ptable[q] == ps[q];
          if ps[q].pagetable.Some? { SameTreeRefl(t0, ps[q].pagetable.value); }
        }
        return;
      }
      forall q: nat | q < NPROC && q != pid ensures ptable[..][q] == ps[q] { assert ptable[q] == ps[q]; }
      forall q: nat | q < NPROC && q != pid && old(HasTree(q))
        ensures SameTree(t0, mem.tables, ps[q].pagetable.value)
        ensures old(ReadyFor(q)) ==> ReadyFor(q)
        ensures forall g: Program :: Bounded(g.segments) && old(Populated(q, g)) ==> Populated(q, g)
      {
        assert ptable[q] == ps[q];
        RootIsTable(shape0, RootOf(q));
        StillUsable(q, shape0, t0, owner0, RootOf(pid));
      }
    }

    /** A process still has what it had, after an operation on another tree. */
    lemma StillUsable(q: nat, shape: Shape, t: Tables, owner0: map<nat, nat>, root: nat)
      requires HasTree(q) && Root(shape, RootOf(q)) && RootOf(q) != root
      requires Advanced(shape, t, mem.shape, mem.tables, root) && OwnerGrown(owner0, owner)
      ensures Covered(t, RootOf(q)) ==> ReadyFor(q)
      ensures SameTree(t, mem.tables, RootOf(q))
      ensures forall segments :: Bounded(segments) && Loaded(t, RootOf(q), q, owner0, segments) ==>
                Loaded(mem.tables, RootOf(q), q, owner, segments)
    {
      hide Advanced, Covered, Loaded, OwnerGrown, Bounded, Deepened, Grown, SameTree;
      AdvancedGrown(shape, t, mem.shape, mem.tables, root);
      OtherTree(shape, t, mem.shape, mem.tables, root, RootOf(q));
      if Covered(t, RootOf(q)) { StaysCovered(shape, t, mem.tables, RootOf(q)); }
      forall segments | Bounded(segments) && Loaded(t, RootOf(q), q, owner0, segments)
        ensures Loaded(mem.tables, RootOf(q), q, owner, segments)
      {
        KeepsLoaded(shape, t, mem.shape, mem.tables, root, RootOf(q), q, owner0, owner, segments);
      }
    }

    lemma TreesMatch()
      requires Sound()
      ensures mem.Valid() && current < NPROC == ptable.Length && mem.tables.Keys == mem.shape.Keys && Rooted(mem.shape)
    {
    }

    /** The page at this physical address was free and is now the process's, at `addr`, for reading and writing;
        no other page of any process is mapped differently, and only new tables took further pages. */
    ghost predicate PageGiven(pa: nat, addr: nat, shape: Shape, t: Tables, counts: seq<nat>)
      requires HasTree(current)
      reads this, mem, mem.refcount, ptable
    {
      var frame := pa / 0x1000;
      && pa % 0x1000 == 0 && mem.Allocatable(frame) && frame < |counts| && counts[frame] == 0 && frame !in t
      && CountsKept(mem.kernelEnd, counts[frame := 1], mem.refcount[..], t.Keys, mem.tables.Keys)
      && Translate(mem.tables, RootOf(current), addr) == Mapped(pa, PWU)
      && SameElsewhere(shape, t, mem.tables, RootOf(current), addr)
    }

    /** `syscall_page_alloc`, for any address. When no page is free it answers -1 and changes nothing. Otherwise it
        looks at nothing: the kernel stops at an assertion of `try_map` when the address is no page's, and at the
        write through (void*) -1 when the tables could not be made; or the answer is 0, and the address is mapped to a
        page that was free, which is the one cleared. */
    method SyscallPageAlloc(addr: nat) returns (out: Outcome, cleared: Option<nat>)
      requires Sound() && Isolated() && HasTree(current) && addr < WORD
      modifies mem, mem.refcount, `owner
      ensures Sound() && Isolated()
      ensures out in {Answer(0), Answer(-1), Panic}
      ensures out == Answer(-1) <==> |old(mem.Free())| == 0
      ensures out == Answer(0) <==>
              addr % 0x1000 == 0 && Canonical(addr) && old(LevelAt(current, addr)) < |old(mem.Free())|
      ensures out == Answer(-1) ==>
              mem.tables == old(mem.tables) && mem.refcount[..] == old(mem.refcount[..]) && owner == old(owner)
      ensures out == Answer(0) <==> cleared.Some?
      ensures cleared.Some? ==> PageGiven(cleared.value, addr, old(mem.shape), old(mem.tables), old(mem.refcount[..]))
      ensures cleared.Some? ==> |mem.Free()| == |old(mem.Free())| - 1 - old(LevelAt(current, addr))
      ensures forall q: nat :: q < NPROC && old(ReadyFor(q)) ==> ReadyFor(q)
      ensures out.Answer? && addr >= PROC_START_ADDR ==>
                forall q: nat, g: Program :: q < NPROC && Bounded(g.segments) && old(Populated(q, g)) ==>
                    Populated(q, g)
    {
      hide Sound, Isolated, Forest, Rooted, Walk, Translate, EntryAt, PlainAt, Belongs, WalksOn, Advanced, Covered,
           Loaded, OwnerGrown, Bounded, FreePages, CountsKept, MapOutcome, Root, Canonical, StillGiven, SameBelow,
           SameElsewhere, Given, Memory.Valid, PageGiven, Maps, Fits, MayGive, Took;
      ghost var shape, t, owner0, counts := mem.shape, mem.tables, owner, mem.refcount[..];
      SoundTrees();
      TreesMatch();
      var ptr := TakePage(current);
      if ptr.None? {
        return Answer(-1), None;
      }
      if addr % 0x1000 != 0 || !Canonical(addr) {
        return Panic, None;
      }
      ghost var root, level := RootOf(current), LevelAt(current, addr);
      MayGiveOwn(ptr.value, current, owner);
      ghost var s1 := mem.InStock();
      var r := Map(current, addr, At(ptr.value, 0), PWU);
      WhenTook(s1, mem.InStock(), level, r == 0);
      OutcomeResult(shape, t, mem.shape, mem.tables, root, addr, At(ptr.value, 0), PWU, level, r);
      PageAdded(shape, t, mem.shape, mem.tables, root, current, addr, ptr.value, level, r, owner0, owner);
      OwnerGrownByOwn(owner0, ptr.value, current);
      SoundTree(current);
      TreesMatch();
      var it := new VmIter(mem, RootOf(current), addr);
      var pa := it.CurrentPa();
      AfterMapping(it, r);
      UsersKeep(shape, t, owner0, addr);
      if r == 0 { FrameGiven(ptr.value, addr, shape, t, counts); }
      if pa.None? {
        return Panic, None;
      }
      return Answer(0), pa;
    }

    lemma FrameGiven(frame: nat, addr: nat, shape: Shape, t: Tables, counts: seq<nat>)
      requires HasTree(current) && mem.Allocatable(frame) && frame < |counts| && counts[frame] == 0 && frame !in t
      requires CountsKept(mem.kernelEnd, counts[frame := 1], mem.refcount[..], t.Keys, mem.tables.Keys)
      requires Translate(mem.tables, RootOf(current), addr) == Mapped(frame * 0x1000, PWU)
      requires SameElsewhere(shape, t, mem.tables, RootOf(current), addr)
      ensures PageGiven(frame * 0x1000, addr, shape, t, counts)
    {
      hide Translate, CountsKept, SameElsewhere, Memory.AllocatablePage;
    }

    /** What `memory_virtual_to_physical` finds after the mapping. */
    lemma AfterMapping(it: VmIter, r: int)
      requires Sound() && HasTree(current) && it.Valid() && it.mem == mem && it.root == RootOf(current)
      requires Canonical(it.va)
      requires r == 0 ==> Translate(mem.tables, RootOf(current), it.va).Mapped?
      requires r == -1 ==> LevelAt(current, it.va) > 0
      ensures r == -1 ==> it.CurrentPa() == None
      ensures r == 0 ==> it.CurrentPa() == Some(Translate(mem.tables, RootOf(current), it.va).pa)
    {
      hide Forest, Rooted, Walk, Translate;
      it.ReportsTranslation();
      assert RootsOf(ptable[..])[current] == ptable[current].pagetable;
      assert PlainAt(mem.tables, RootOf(current), it.va);
    }

    lemma UsersKeep(shape: Shape, t: Tables, owner0: map<nat, nat>, addr: nat)
      requires HasTree(current) && Advanced(shape, t, mem.shape, mem.tables, RootOf(current))
      requires OwnerGrown(owner0, owner)
      requires StillGiven(t, mem.tables, RootOf(current), current, owner0, owner)
      requires addr >= PROC_START_ADDR ==> SameBelow(t, mem.tables, RootOf(current))
      requires forall q :: 0 <= q < ptable.Length && HasTree(q) ==>
               Root(shape, RootOf(q)) && (q != current ==> RootOf(q) != RootOf(current))
      ensures forall q: nat :: HasTree(q) && Covered(t, RootOf(q)) ==> ReadyFor(q)
      ensures addr >= PROC_START_ADDR ==>
                forall q: nat, segments ::
                    HasTree(q) && Bounded(segments) && Loaded(t, RootOf(q), q, owner0, segments) ==>
                  Loaded(mem.tables, RootOf(q), q, owner, segments)
    {
      hide Advanced, Covered, Loaded, OwnerGrown, Bounded, Deepened, Grown, StillGiven, SameBelow, Root;
      AdvancedGrown(shape, t, mem.shape, mem.tables, RootOf(current));
      forall q: nat | HasTree(q)
          && Covered(t, RootOf(q)) ensures ReadyFor(q) { StaysCovered(shape, t, mem.tables, RootOf(q)); }
      if addr >= PROC_START_ADDR {
        forall q: nat, segments | HasTree(q) && Bounded(segments) && Loaded(t, RootOf(q), q, owner0, segments)
          ensures Loaded(mem.tables, RootOf(q), q, owner, segments)
        {
          KeepsLoaded(shape, t, mem.shape, mem.tables, RootOf(current), RootOf(q), q, owner0, owner, segments);
        }
      }
    }

    /** The calls are for addresses the system call is documented for. */
    static predicate Documented(calls: seq<(nat, nat)>) { forall c :: 0 <= c < |calls| ==> ForProcesses(calls[c].1) }

    static predicate ForProcesses(addr: nat) { PROC_START_ADDR <= addr < MEMSIZE_VIRTUAL && addr % 0x1000 == 0 }

    /** The processes 1, 2, ... are set up and have what they were set up with. */
    ghost predicate Serving(programs: seq<Program>)
      reads this`owner, mem, ptable
    {
      && (forall pid: nat :: 1 <= pid <= |programs| ==> ReadyFor(pid))
      && (forall p: nat :: p < |programs| ==> Populated(p + 1, programs[p]))
    }

    lemma Served(programs: seq<Program>, pid: nat)
      requires Serving(programs) && 1 <= pid <= |programs|
      ensures ReadyFor(pid)
    {
    }

    lemma OneMoreServed(programs: seq<Program>, p: nat)
      requires p < |programs| && Serving(programs[..p]) && ReadyFor(p + 1) && Populated(p + 1, programs[p])
      ensures Serving(programs[..p + 1])
    {
      hide ReadyFor, Populated;
      forall pid: nat | 1 <= pid <= p + 1 ensures ReadyFor(pid) { assert pid <= p ==> ReadyFor(pid); }
      var now := programs[..p + 1];
      forall q: nat | q < |now| ensures Populated(q + 1, now[q]) {
        assert q < p ==> now[q] == programs[..p][q];
      }
    }

    /** Set up the processes, until the kernel stops. */
    method SetUpAll(programs: seq<Program>) returns (up: bool, complete: bool, ghost clean: bool)
      requires Sound() && Isolated() && |programs| < NPROC && forall p :: 0 <= p < |programs| ==>
               Bounded(programs[p].segments)
      modifies mem, mem.refcount, ptable, `owner
      ensures Sound() && Isolated()
      ensures AllSetUp(old(mem.Free()), mem.Free(), programs, |programs|, up, complete, clean)
      ensures up ==> forall pid: nat :: 1 <= pid <= |programs| ==> HasTree(pid)
      ensures complete ==> Serving(programs)
      ensures AllBelowStack(programs) ==> (up <==> AllStand(mem.tables, ptable[..], programs, |programs|))
      ensures AllBelowStack(programs) && up ==> (clean <==> AllInPlace(mem.tables, ptable[..], programs, |programs|))
    {
      hide Sound, Isolated, ReadyFor, Populated, FreePages, Bounded, SetUp, AllSetUp, LowApart, BelowStack, Stands,
           InPlace, AllStand, AllInPlace, OthersSame;
      ghost var pages := mem.Free();
      NoneStand(mem.tables, ptable[..], programs);
      up, complete, clean := true, true, true;
      var p := 0;
      assert programs[..0] == [];
      NoneSetUp(pages, programs);
      while p < |programs| && up
        invariant 0 <= p <= |programs| && Sound() && Isolated()
        invariant AllSetUp(pages, mem.Free(), programs, p, up, complete, clean)
        invariant up ==> forall pid: nat :: 1 <= pid <= p ==> HasTree(pid)
        invariant complete ==> Serving(programs[..p])
        invariant AllBelowStack(programs) ==> (up <==> AllStand(mem.tables, ptable[..], programs, p))
        invariant AllBelowStack(programs) && up ==> (clean <==> AllInPlace(mem.tables, ptable[..], programs, p))
      {
        TreesMatch();
        ghost var now, t, ps := mem.Free(), mem.tables, ptable[..];
        assert programs[..p + 1][..p] == programs[..p];
        var u, c;
        ghost var k;
        u, c, k := ProcessSetup(p + 1, programs[p]);
        UpTree(mem.Free(), now, programs[p].segments, HasTree(p + 1), u, c, k);
        OneMoreSetUp(pages, now, mem.Free(), programs, p, HasTree(p + 1), complete, clean, u, c, k);
        ImagesStay(t, ps, mem.tables, ptable[..], programs, p);
        up, complete, clean := u, complete && c, clean && k;
        if complete { OneMoreServed(programs, p); }
        p := p + 1;
      }
      AllOrStopped(pages, mem.Free(), programs, p, up, complete, clean);
      if AllStand(mem.tables, ptable[..], programs, |programs|) {
        FewerStand(mem.tables, ptable[..], programs, p);
      }
      assert programs[..|programs|] == programs;
    }

    /** `run`, as far as memory goes. */
    method Run(pid: nat)
      requires Sound() && Isolated() && HasTree(pid)
      modifies `current
      ensures Sound() && Isolated() && current == pid
    {
      hide Memory.Valid, OwnTrees, AllPlain, Private, Owned;
      current := pid;
    }

    /** `syscall`, for a page: what one process asks for, and what that leaves of all of them. */
    method Syscall(pid: nat, addr: nat, ghost programs: seq<Program>) returns (out: Outcome)
      requires Sound() && Isolated() && HasTree(pid) && addr < WORD
      requires |programs| < NPROC && forall p :: 0 <= p < |programs| ==> Bounded(programs[p].segments)
      modifies this, mem, mem.refcount
      ensures Sound() && Isolated()
      ensures out in {Answer(0), Answer(-1), Panic}
      ensures ForProcesses(addr) && (old(ReadyFor(pid)) || |old(mem.Free())| == 0) ==>
                && out == Answer(if |old(mem.Free())| > 0 then 0 else -1)
                && |mem.Free()| == if |old(mem.Free())| > 0 then |old(mem.Free())| - 1 else 0
      ensures ForProcesses(addr) && out.Answer? && old(Serving(programs)) ==> Serving(programs)
    {
      hide Sound, Isolated, FreePages, Bounded, Covered, Walk, PageGiven, Canonical, Populated;
      Run(pid);
      if ForProcesses(addr) && ReadyFor(pid) {
        DocumentedLevel(mem.tables, RootOf(pid), addr);
        LowCanonical(addr);
      }
      var pa;
      out, pa := SyscallPageAlloc(addr);
      if ForProcesses(addr) && out.Answer? && old(Serving(programs)) {
        forall q: nat | 1 <= q <= |programs| ensures ReadyFor(q) { assert old(ReadyFor(q)); }
        forall p: nat | p < |programs| ensures Populated(p + 1,
            programs[p]) { assert old(Populated(p + 1, programs[p])); }
      }
    }

    /** Answer system calls, until one stops the kernel. */
    method Serve(calls: seq<(nat, nat)>, ghost programs: seq<Program>) returns (answers: seq<int>)
      requires Sound() && Isolated() && |programs| < NPROC
      requires forall p :: 0 <= p < |programs| ==> Bounded(programs[p].segments)
      requires forall pid: nat :: 1 <= pid <= |programs| ==> HasTree(pid)
      requires forall c :: 0 <= c < |calls| ==> 1 <= calls[c].0 <= |programs| && calls[c].1 < WORD
      modifies this, mem, mem.refcount
      ensures Sound() && Isolated()
      ensures |answers| <= |calls|
      ensures Documented(calls) && (old(Serving(programs)) || |old(mem.Free())| == 0) ==>
                |answers| == |calls| && forall c :: 0 <= c < |calls| ==>
                    answers[c] == if c < |old(mem.Free())| then 0 else -1
      ensures Documented(calls) && old(Serving(programs)) ==> Serving(programs)
    {
      hide Sound, Isolated, FreePages, Bounded, Covered, Loaded, Serving, ForProcesses;
      ghost var free, fit := |mem.Free()|, Documented(calls) && (Serving(programs) || |mem.Free()| == 0);
      answers := [];
      var panic := false;
      while |answers| < |calls| && !panic
        invariant |answers| <= |calls| && Sound() && Isolated()
        invariant Documented(calls) && old(Serving(programs)) ==> Serving(programs)
        invariant fit ==> !panic && |mem.Free()| == (if |answers| < free then free - |answers| else 0)
        invariant fit ==> forall c :: 0 <= c < |answers| ==> answers[c] == if c < free then 0 else -1
        decreases |calls| - |answers|, !panic
      {
        var call := calls[|answers|];
        if Serving(programs) { Served(programs, call.0); }
        var out := Syscall(call.0, call.1, programs);
        match out {
          case Answer(r) => answers := answers + [r];
          case Panic => panic := true;
        }
      }
    }

    /** A run of the system: processes are set up, then they allocate pages, in any order and at any addresses, until
        there are no more calls or the kernel stops. Whatever the machine's memory, processes are isolated in every
        state. With memory for all that the programs need, and only then, all of them are set up, unless the copy of a
        program's image goes astray, which for low programs depends on the pages left; with documented addresses every
        call is then answered, and the answer is 0 just as long as pages are left. */
    method Session(programs: seq<Program>, calls: seq<(nat, nat)>)
        returns (up: bool, complete: bool, ghost clean: bool, answers: seq<int>)
      requires Sound() && Isolated() && |programs| < NPROC && forall p :: 0 <= p < |programs| ==>
               Bounded(programs[p].segments)
      requires forall c :: 0 <= c < |calls| ==> 1 <= calls[c].0 <= |programs| && calls[c].1 < WORD
      modifies this, mem, mem.refcount, ptable
      ensures Sound() && Isolated() && Separated(mem.tables, RootsOf(ptable[..]), mem.kernelEnd)
      ensures complete ==> up
      ensures AllConfined(programs) ==> (complete <==> up && |old(mem.Free())| >= PagesForAll(programs))
      ensures AllConfined(programs) && clean ==> (complete <==> |old(mem.Free())| >= PagesForAll(programs))
      ensures AllLow(programs) ==>
                (complete && clean <==>
                 |old(mem.Free())| >= PagesForAll(programs) && AllTidy(old(mem.Free()), programs, |programs|))
      ensures AllConfined(programs) && up ==>
                programs == [] || |old(mem.Free())| > PagesForAll(programs[..|programs| - 1])
      ensures complete && Documented(calls) ==> Serving(programs)
      ensures AllConfined(programs) && up && clean && Documented(calls) ==>
                && |answers| == |calls|
                && forall c :: 0 <= c < |calls| ==>
                    answers[c] == if c < |old(mem.Free())| - PagesForAll(programs) then 0 else -1
    {
      hide Sound, FreePages, Bounded, PagesForAll, Serving, AllConfined, Private, Owned, Documented, Separated,
           AllSetUp, AllTidy, AllLow;
      answers := [];
      ghost var pages := mem.Free();
      up, complete, clean := SetUpAll(programs);
      WhenSetUp(pages, mem.Free(), programs, up, complete, clean);
      if up {
        answers := Serve(calls, programs);
      }
      ProcessesIsolated(mem.tables, RootsOf(ptable[..]), owner, mem.kernelEnd, mem.refcount[..]);
    }
  }

  /** A run in which there are pages enough, and yet the image of the only process is not copied to its place. */
  method ImageScattered() returns (up: bool, complete: bool, ghost clean: bool)
    ensures !clean && (up ==> complete)
  {
    hide Kernel.Sound, Kernel.Isolated, FreePages, Tidy, Confined, LowApart, Bounded, PagesOfAll, BelowStack;
    var segments := [SPREAD];
    var k := new Kernel(KERNEL_START + 8, KERNEL_START);
    Scattered(k.mem.kernelEnd, k.mem.refcount[..]);
    SpreadFits(segments);
    LowConfined(segments);
    up, complete, clean := k.ProcessSetup(1, Program(segments, PROC_START_ADDR));
  }
}

/** The page allocator and `vmiter`, the iterator that reads and installs mappings. */
module VmIter {
  import opened Common
  import opened PageTable
  import opened PageWalk
  import opened PageRange

  const NPAGES: nat := 0x200
  const KERNEL_START: nat := 0x40
  const KERNEL_STACK: nat := 0x7F

  /** Physical memory: the page-table pages in it, and a reference count for every page. */
  class Memory {
    var tables: Tables
    const refcount: array<nat>  // how many uses, by page number
    const kernelEnd: nat        // the page after the kernel's data
    ghost var shape: Shape

    constructor (kernelEnd: nat, root: nat)
      requires root < 0x10_0000 && (root >= NPAGES || !AllocatablePage(root, kernelEnd))
      ensures Valid() && fresh(refcount) && this.kernelEnd == kernelEnd
      ensures tables == map[root := ZeroTable()] && Root(shape, root)
      ensures forall i :: 0 <= i < NPAGES ==> refcount[i] == 0
    {
      refcount := new nat[NPAGES](i => 0);
      this.kernelEnd := kernelEnd;
      tables := map[root := ZeroTable()];
      shape := map[root := Place(root, 3, 0)];
    }

    /** allocatable_physical_address: not reserved, not the kernel's, not its stack. */
    static predicate AllocatablePage(page: nat, kernelEnd: nat) {
      && page >= 1 && !(0xA0 <= page < 0x100)
      && (page < KERNEL_START || page >= kernelEnd) && page != KERNEL_STACK && page < NPAGES
    }

    predicate Allocatable(page: nat) { AllocatablePage(page, kernelEnd) }

    /** Tables form disjoint trees, and no table page can be allocated again. */
    ghost predicate Valid()
      reads this, refcount
    {
      && Forest(tables, shape) && Rooted(shape) && refcount.Length == NPAGES
      && forall page :: page in tables ==> page < 0x10_0000 && (Allocatable(page) ==> refcount[page] > 0)
    }

    /** The pages that can be allocated. */
    ghost function Free(): set<nat>
      reads refcount
    {
      FreePages(kernelEnd, refcount[..])
    }

    /** The pages that are left, and how many hold tables. */
    ghost function InStock(): Stock
      reads this, refcount
    {
      Stock(Free(), |tables.Keys|)
    }

    /** Allocates the lowest page that is not in use, out of 2 MB but for page 0, the kernel's code and data, its stack,
        and the addresses for devices. */
    method Kalloc() returns (r: Option<nat>)
      requires Valid()
      modifies refcount
      ensures Valid()
      ensures r.Some? ==> r.value < NPAGES && Allocatable(r.value) && old(refcount[r.value]) == 0 && r.value !in tables
      ensures r.Some? ==> refcount[..] == old(refcount[..])[r.value := 1]
      ensures r.None? ==> refcount[..] == old(refcount[..])
      ensures r.Some? ==>
                1 <= r.value < 0x200 && !(0x40 <= r.value < kernelEnd) && r.value != 0x7F && !(0xA0 <= r.value < 0x100)
      ensures forall i :: 1 <= i < (if r.Some? then r.value else 0x200) ==>
                old(refcount[i]) > 0 || 0x40 <= i < kernelEnd || i == 0x7F || 0xA0 <= i < 0x100
      ensures forall i :: 0 <= i < NPAGES && Allocatable(i) && (r.Some? ==> i < r.value) ==> old(refcount[i]) > 0
    {
      var page := 0;
      while page != NPAGES
        invariant 0 <= page <= NPAGES
        invariant refcount[..] == old(refcount[..])
        invariant forall i :: 0 <= i < page && Allocatable(i) ==> old(refcount[i]) > 0
      {
        if Allocatable(page) && refcount[page] == 0 {
          refcount[page] := refcount[page] + 1;
          return Some(page);
        }
        page := page + 1;
      }
      return None;
    }
  }

  /** The pages that can be allocated, and how many pages hold tables. */
  datatype Stock = Stock(free: set<nat>, tables: nat)

  /** The lowest of some pages. */
  ghost predicate Least(pages: set<nat>, page: nat) { page in pages && forall q :: q in pages ==> page <= q }

  /** What is left when pages are taken lowest first. */
  ghost predicate Lowest(before: set<nat>, after: set<nat>) {
    after <= before && forall p, q :: p in before && p !in after && q in after ==> p < q
  }

  lemma LowestTrans(a: set<nat>, b: set<nat>, c: set<nat>)
    requires Lowest(a, b) && Lowest(b, c)
    ensures Lowest(a, c)
  {
  }

  lemma LowestRefl(a: set<nat>)
    ensures Lowest(a, a)
  {
  }

  /** The pages that can be allocated, by reference counts. */
  ghost function FreePages(kernelEnd: nat, counts: seq<nat>): set<nat> {
    set i | 0 <= i < |counts| && Memory.AllocatablePage(i, kernelEnd) && counts[i] == 0
  }

  lemma TakenPage(kernelEnd: nat, counts: seq<nat>, page: nat)
    requires page < |counts| && Memory.AllocatablePage(page, kernelEnd) && counts[page] == 0
    ensures page in FreePages(kernelEnd, counts)
    ensures FreePages(kernelEnd, counts[page := 1]) == FreePages(kernelEnd, counts) - {page}
  {
    hide Memory.AllocatablePage;
  }

  lemma LeastTaken(kernelEnd: nat, counts: seq<nat>, page: nat)
    requires page < |counts| && Memory.AllocatablePage(page, kernelEnd) && counts[page] == 0
    requires forall i :: 0 <= i < page && Memory.AllocatablePage(i, kernelEnd) ==> counts[i] > 0
    ensures var f := FreePages(kernelEnd, counts); Least(f, page) && Lowest(f, f - {page})
  {
    hide Memory.AllocatablePage;
  }

  lemma NoPageFree(kernelEnd: nat, counts: seq<nat>)
    requires forall i :: 0 <= i < |counts| && Memory.AllocatablePage(i, kernelEnd) ==> counts[i] > 0
    ensures FreePages(kernelEnd, counts) == {}
  {
    hide Memory.AllocatablePage;
  }

  /** Later tables whose places include the earlier ones. */
  ghost predicate Grown(shape: Shape, shape': Shape) {
    forall page :: page in shape ==> page in shape' && shape'[page] == shape[page]
  }

  /** No address of any tree translates differently. */
  ghost predicate SameTranslations(shape: Shape, t: Tables, t': Tables) {
    forall root, va: nat :: Root(shape, root) && va < WORD ==> Translate(t', root, va) == Translate(t, root, va)
  }

  /** A walk reaches at least as deep as before, gathers the same permissions, and meets no new large page. */
  ghost predicate WalksOn(t: Tables, t': Tables, root: nat, va: nat) {
    var s, s' := Walk(t, root, va), Walk(t', root, va);
    s'.level <= s.level && s'.perm == s.perm
    && ((s.level > 0 ==> !Present(StopEntry(t, s, va))) ==> (s'.level > 0 ==> !Present(StopEntry(t', s', va))))
  }

  ghost predicate Deepened(shape: Shape, t: Tables, t': Tables) {
    forall root, va: nat :: Root(shape, root) ==> WalksOn(t, t', root, va)
  }

  /** Tables were at most added, changing no translation. */
  ghost predicate Evolved(shape: Shape, t: Tables, shape': Shape, t': Tables) {
    Grown(shape, shape') && SameTranslations(shape, t, t') && Deepened(shape, t, t')
  }

  lemma EvolvedRefl(shape: Shape, t: Tables)
    ensures Evolved(shape, t, shape, t)
  {
    hide Walk, Translate, Present, EntryAt;
  }

  /** No page but the one around `va` in the tree of `root` translates differently. */
  ghost predicate SameElsewhere(shape: Shape, t: Tables, t': Tables, root: nat, va: nat) {
    && Deepened(shape, t, t')
    && forall root', va': nat :: Root(shape, root') && va' < WORD && (root' != root || va' / 0x1000 != va / 0x1000) ==>
         Translate(t', root', va') == Translate(t, root', va')
  }

  /** A physical address for a new mapping: (uintptr_t) -1, or a page number and low bits. */
  datatype Target = Nowhere | At(frame: nat, low: Flags)

  /** The physical address suits the permissions: a page's address for a present mapping. */
  predicate Fits(pa: Target, p: Flags) {
    && (Maps(p) ==> pa.At? && pa.low == 0)
    && (!Maps(p) ==> (pa.At? && pa.low & P == 0) || (pa.Nowhere? && p == 0))
    && (pa.At? ==> pa.frame < 0x10_0000)
  }

  /** The permissions are no less restrictive than the tables above. */
  predicate Grants(perm: Flags, p: Flags) { p & (perm ^ ALL) & PWU == 0 }

  class VmIter {
    const mem: Memory
    const root: nat
    var zero: bool      // the entry pointer is the static zero entry
    var page: nat       // otherwise it points into this table page,
    var index: nat      // at this entry
    var level: nat
    var perm: Flags
    var va: nat

    /** The iterator is where a fresh walk from the root would be: level, entry and permissions. */
    ghost predicate Consistent()
      reads this, mem
    {
      if Canonical(va) then
        var s := Walk(mem.tables, root, va);
        !zero && level == s.level && page == s.page && perm == s.perm && index == PageIndex(va, s.level)
      else zero && level == 3 && perm == 0
    }

    ghost predicate Valid()
      reads this, mem, mem.refcount
    {
      mem.Valid() && Root(mem.shape, root) && va < WORD && level <= 3 && index < 512 && Consistent()
    }

    function Current(): Entry
      requires index < 512
      reads this, mem
    {
      if zero then ZERO else EntryAt(mem.tables, page, index)
    }

    /** `perm()`: 0 unless the mapping is present. */
    function CurrentPerm(): Flags
      requires index < 512
      reads this, mem
    {
      Perm(Current(), perm)
    }

    /** `pa()`, None for (uintptr_t) -1. */
    function CurrentPa(): Option<nat>
      requires index < 512 && level <= 3
      reads this, mem
    {
      if Present(Current()) then Some(PhysicalAddress(Current(), level, va)) else None
    }

    function LastVa(): nat
      requires level <= 3
      reads this
    {
      (va / Span(level) + 1) * Span(level)
    }

    /** What the accessors report is the translation of the current address. */
    lemma ReportsTranslation()
      requires Valid()
      ensures var t := Translate(mem.tables, root, va);
              && (t.Unmapped? <==> CurrentPerm() == 0)
              && (t.Mapped? ==> t.perm == CurrentPerm() && CurrentPa() == Some(t.pa))
    {
      if Canonical(va) && CurrentPerm() != 0 {
        PermPresent(Current(), perm);
      } else if !Canonical(va) {
        assert Perm(ZERO, 0) == 0;
      }
    }

    constructor (mem: Memory, root: nat, va: nat)
      requires mem.Valid() && Root(mem.shape, root) && va < WORD
      ensures Valid() && this.mem == mem && this.root == root && this.va == va
    {
      this.mem := mem;
      this.root := root;
      zero, page, index, level, perm, this.va := false, root, 0, 3, ALL, 0;
      new;
      FindFromRoot(va);
    }

    /** `down`: follow table entries from the current one. It never meets an entry that points beyond 4 GB. */
    method Down()
      requires mem.Valid() && level <= 3 && va < WORD && index < 512
      requires zero ==> level == 3 && perm == 0
      requires !zero ==> index == PageIndex(va, level) && OnPath(mem.shape, root, page, level, va)
      modifies this`page, this`index, this`level, this`perm
      ensures zero ==> level == 3 && perm == 0 && index == old(index)
      ensures !zero ==> var r := PageTable.Down(mem.tables, old(page), old(level), old(perm), va);
                        level == r.level && page == r.page && perm == r.perm && index == PageIndex(va, level)
    {
      hide Memory.Valid, IsTable, EntryAt, PageIndex, PageTable.Down, OnPath, Restrict;
      while level > 0 && IsTable(Current())
        invariant level <= 3 && index < 512
        invariant zero ==> level == 3 && perm == 0 && index == old(index)
        invariant !zero ==> index == PageIndex(va, level) && OnPath(mem.shape, root, page, level, va)
        invariant !zero ==>
          PageTable.Down(mem.tables, old(page), old(level), old(perm), va) ==
              PageTable.Down(mem.tables, page, level, perm, va)
        decreases level
      {
        ZeroNotTable();
        var e := Current();
        Follows();
        perm := Restrict(perm, e);
        level := level - 1;
        page := e.frame;
        index := PageIndex(va, level);
      }
      if !zero { EndsHere(); }
      assert Current().frame < 0x10_0000 by { FrameInRange(); }
    }

    lemma EndsHere()
      requires level <= 3 && index < 512 && !zero && index == PageIndex(va, level)
      requires level == 0 || !IsTable(Current())
      ensures var r := PageTable.Down(mem.tables, page, level, perm, va);
              level == r.level && page == r.page && perm == r.perm
    {
      hide IsTable;
    }

    /** A table entry leads to the next table on the path, and the walk goes on there. */
    lemma Follows()
      requires mem.Valid() && 0 < level <= 3 && va < WORD && index < 512 && !zero && IsTable(Current())
      requires index == PageIndex(va, level) && OnPath(mem.shape, root, page, level, va)
      ensures var e := Current();
              && PageIndex(va, level - 1) < 512 && OnPath(mem.shape, root, e.frame, level - 1, va)
              && PageTable.Down(mem.tables, page, level, perm, va) ==
                 PageTable.Down(mem.tables, e.frame, level - 1, Restrict(perm, e), va)
    {
      hide IsTable, Rooted, Restrict;
      ChildOnPath(mem.tables, mem.shape, root, page, level, va);
    }

    lemma FrameInRange()
      requires mem.Valid() && index < 512 && level <= 3
      requires !zero ==> OnPath(mem.shape, root, page, level, va)
      ensures Current().frame < 0x10_0000
    {
      hide Rooted;
    }

    method FindFromRoot(va': nat)
      requires mem.Valid() && Root(mem.shape, root) && va' < WORD
      modifies this
      ensures Valid() && va == va'
    {
      hide Forest, Rooted, IsTable, Translate;
      level := 3;
      if Canonical(va') {
        perm := ALL;
        zero, page, index := false, root, PageIndex(va', level);
      } else {
        perm := 0;
        zero, index := true, 0;
      }
      va := va';
      RootOnPath(mem.shape, root, va);
      Down();
    }

    /** `real_find`: when the new address lies in the region of the current table page, only move the entry
        pointer. Either way the iterator ends where a fresh walk would. */
    method RealFind(va': nat)
      requires Valid() && va' < WORD
      modifies this
      ensures Valid() && va == va'
    {
      hide Forest, Rooted, IsTable, Translate, EntryAt, Canonical, PageTable.Down, OnPath, Span, PageIndex, Walk, Root;
      if level == 3 || va / Span(level + 1) != va' / Span(level + 1) {
        FindFromRoot(va');
      } else {
        SameRegion(va');
        var curidx := index;
        index := index + PageIndex(va', level) - curidx;
        va := va';
        Down();
      }
    }

    /** In the region of the current table page, a walk to another address goes on from here. */
    lemma SameRegion(va': nat)
      requires Valid() && va' < WORD && level < 3 && va / Span(level + 1) == va' / Span(level + 1)
      ensures !zero && Canonical(va') && PageIndex(va', level) < 512 && OnPath(mem.shape, root, page, level, va')
      ensures PageTable.Down(mem.tables, page, level, perm, va') == Walk(mem.tables, root, va')
    {
      hide Forest, Rooted, IsTable, Translate, EntryAt, Canonical, PageTable.Down, Span, PageIndex, Floor, Root;
      SameRegionCanonical(va, va', level);
      RootOnPath(mem.shape, root, va);
      DownOnPath(mem.tables, mem.shape, root, root, 3, ALL, va);
      ResumeWalk(mem.tables, root, 3, ALL, va, va');
      SameFloor(va, va', level + 1);
    }

    /** `next_range`: the first address after the current range (address arithmetic is modulo 2^64). */
    method NextRange()
      requires Valid()
      modifies this
      ensures Valid() && va == old(LastVa()) % WORD
    {
      RealFind(LastVa() % WORD);
    }

    /** `next`: the next page, or the next range when the current range is a hole. */
    method Next()
      requires Valid()
      modifies this
      ensures Valid()
      ensures va == (if old(level > 0
              && CurrentPerm() == 0) then old(LastVa()) else (old(va) / 0x1000 + 1) * 0x1000) % WORD
    {
      hide Memory.Valid, Consistent, CurrentPerm;
      var l := 0;
      if level > 0 && CurrentPerm() == 0 {
        l := level;
      }
      RealFind((va / Span(l) + 1) * Span(l) % WORD);
    }

    /** A copy of an iterator. */
    constructor Copy(it: VmIter)
      requires it.Valid()
      ensures Valid() && mem == it.mem && root == it.root && va == it.va && level == it.level
      ensures CurrentPerm() == it.CurrentPerm()
    {
      mem, root := it.mem, it.root;
      zero, page, index, level, perm, va := it.zero, it.page, it.index, it.level, it.perm, it.va;
    }

    /** The sizes for which `range_perm` looks at all it should: the range is longer than the current mapping range,
        or stays inside it, or does not even begin with a mapping. */
    predicate Accurate(size: nat)
      reads this, mem
      requires index < 512 && level <= 3
    {
      !Maps(CurrentPerm()) || size > Span(level) || Offset(va, level) + size <= Span(level)
    }

    lemma ReportsPermission()
      requires Valid()
      ensures CurrentPerm() == PermissionAt(mem.tables, root, va)
      ensures Maps(CurrentPerm()) ==> Canonical(va)
    {
      ReportsTranslation();
    }

    /** `range_perm`: the intersection of the permissions of a range of addresses, or 0 when one is not mapped.
        Otherwise than documented, a range no longer than the current mapping range is not followed beyond it. */
    method RangePerm(size: nat) returns (p: Flags)
      requires Valid() && size < WORD
      ensures size > 0 && Accurate(size) ==> IsIntersection(mem.tables, root, va, va + size, p)
      ensures size == 0 || !Accurate(size) ==> p == CurrentPerm()
      ensures size > 0 && !Accurate(size) ==>
                (IsIntersection(mem.tables, root, va, va + size, p) <==> GrantedOn(mem.tables, root, va, va + size, p))
      ensures size == 0 ==> (IsIntersection(mem.tables, root, va, va, p) <==> p == ALL)
    {
      hide Forest, Rooted, Walk, Translate, PermissionAt, IsIntersection, Maps, Perm, Canonical, EntryAt, Consistent,
           CurrentPerm, Root, Offset;
      p := CurrentPerm();
      ReportsPermission();
      NoneOrMapped();
      var rsz := Span(level);
      if size == 0 {
        OfNothing(mem.tables, root, va, p);
      } else {
        OnlyTheFirst(mem.tables, root, va, va + size);
      }
      if Maps(p) && size > rsz {
        var limit := if va < 0x8000_0000_0000_0000 then VA_LOWMAX + 1 else WORD;
        if size > limit - va {
          PastTheEnd(mem.tables, root, va, va + size, limit);
          return 0;
        }
        p := RangeLoop(size);
        if !Maps(p) { NotAllMapped(mem.tables, root, va, va + size, va + size, p); }
      } else if Maps(p) && size > 0 && Accurate(size) {
        IntersectionOfOne(mem.tables, root, va);
        InsideOneRange(size, p);
      } else if size > 0 && !Maps(p) {
        IntersectionOfOne(mem.tables, root, va);
        NotAllMapped(mem.tables, root, va, va + 1, va + size, p);
      }
      if !Maps(p) {
        p := 0;
      }
    }

    lemma NoneOrMapped()
      requires index < 512
      ensures Maps(CurrentPerm()) || CurrentPerm() == 0
    {
    }

    lemma LevelOfWalk()
      requires Consistent() && level <= 3
      ensures Canonical(va) ==> level == Walk(mem.tables, root, va).level
    {
    }

    lemma InsideOneRange(size: nat, p: Flags)
      requires Valid() && Canonical(va) && 0 < size <= Span(level) - Offset(va, level)
      requires IsIntersection(mem.tables, root, va, va + 1, p)
      ensures IsIntersection(mem.tables, root, va, va + size, p)
    {
      hide Walk, IsIntersection, Canonical;
      LevelOfWalk();
      FloorWithin(va, level);
      RestOfRange(mem.tables, root, va, va, va + size, p);
    }

    lemma ScanStart(size: nat)
      requires Valid() && Maps(CurrentPerm()) && size > 0
      ensures Scanned(mem.tables, root, va, va + size, va, level, size + Offset(va, level), CurrentPerm())
    {
      hide Walk, IsIntersection, Canonical, Offset, CurrentPerm, Maps, PermissionAt;
      ReportsPermission();
      IntersectionOfOne(mem.tables, root, va);
      LevelOfWalk();
    }

    method RangeLoop(size: nat) returns (p: Flags)
      requires Valid() && Maps(CurrentPerm()) && Span(level) < size && va + size <= WORD
      ensures IsIntersection(mem.tables, root, va, va + size, p)
    {
      hide Forest, Rooted, Walk, Translate, PermissionAt, IsIntersection, Maps, Canonical, EntryAt, Consistent,
           CurrentPerm, Span, Root, Offset, Scanned;
      var it := new VmIter.Copy(this);
      p := CurrentPerm();
      ScanStart(size);
      var rsz := Span(level);
      var sz := size + Offset(va, level);
      var more := true;
      while more
        invariant it.Valid() && it.mem == mem && it.root == root && fresh(it)
        invariant rsz == Span(it.level) && (more <==> Maps(p) && sz > rsz)
        invariant Scanned(mem.tables, root, va, va + size, it.va, it.level, sz, p)
        decreases sz
      {
        ghost var x, l, z, q := it.va, it.level, sz, p;
        sz := sz - rsz;
        it.NextRange();
        it.ReportsPermission();
        p := p & it.CurrentPerm();
        it.LevelOfWalk();
        ScanStep(mem.tables, root, va, va + size, x, l, z, q, it.va, it.level);
        rsz := Span(it.level);
        more := Maps(p) && sz > rsz;
      }
      ScanEnd(mem.tables, root, va, va + size, it.va, it.level, sz, p);
    }

    /** The kernel assertions at the start of `try_map`, which stop the machine when they fail. */
    ghost predicate MayMap(pa: Target, p: Flags)
      reads this, mem
      requires index < 512
    {
      && va % 0x1000 == 0
      && Fits(pa, p) && Grants(perm, p)
      && (p != 0 ==> Canonical(va) && (level > 0 ==> !Present(Current())))
    }

    /** One round of `try_map`: clear the new page, point the current entry at it, and go down into it. */
    method InstallTable(added: nat)
      requires Valid() && level > 0 && Canonical(va) && !Present(Current())
      requires added !in mem.tables && added < 0x10_0000 && (mem.Allocatable(added) ==> mem.refcount[added] > 0)
      modifies this, mem`tables, mem`shape
      ensures Valid() && va == old(va) && level == old(level) - 1 && perm == old(perm) && !Present(Current())
      ensures Evolved(old(mem.shape), old(mem.tables), mem.shape, mem.tables)
      ensures mem.tables.Keys == old(mem.tables.Keys) + {added}
    {
      hide Evolved, Translate, Walk, Forest, Rooted, PageTable.Down;
      InstallWalk(mem.tables, mem.shape, root, page, index, added, level, perm, va);
      AddTableRooted(mem.shape, page, index, added);
      mem.tables := AddTable(mem.tables, page, index, added);
      mem.shape := AddPlace(mem.shape, page, index, added);
      Down();
    }

    /** The end of `try_map`: write the entry of a page. */
    method WriteLeaf(e: Entry)
      requires Valid() && level == 0 && Canonical(va) && e.frame < 0x10_0000
      modifies mem`tables
      ensures Valid() && mem.tables.Keys == old(mem.tables.Keys) && Current() == e
      ensures SameElsewhere(mem.shape, old(mem.tables), mem.tables, root, va)
    {
      ghost var t, shape := mem.tables, mem.shape;
      RootOnPath(shape, root, va);
      DownOnPath(t, shape, root, root, 3, ALL, va);
      LeafWriteForest(t, shape, page, index, e);
      LeafWriteDown(t, shape, page, index, e, root, root, 3, ALL, va);
      LeafWriteEverywhere(t, shape, root, page, va, e);
      mem.tables := SetEntry(mem.tables, page, index, e);
    }

    /** Allocate a page and make it the next table. */
    method AddOneTable() returns (done: bool)
      requires Valid() && level > 0 && Canonical(va) && !Present(Current())
      modifies this, mem, mem.refcount
      ensures Valid() && va == old(va) && perm == old(perm) && !Present(Current())
      ensures level == if done then old(level) - 1 else old(level)
      ensures Evolved(old(mem.shape), old(mem.tables), mem.shape, mem.tables)
      ensures CountsKept(mem.kernelEnd, old(mem.refcount[..]), mem.refcount[..], old(mem.tables.Keys), mem.tables.Keys)
      ensures done <==> |old(mem.Free())| > 0
      ensures |mem.tables.Keys| == |old(mem.tables.Keys)| + if done then 1 else 0
      ensures |mem.Free()| == |old(mem.Free())| - if done then 1 else 0
      ensures Lowest(old(mem.Free()), mem.Free())
    {
      hide Walk, Translate, PageTable.Down, FreePages, Forest, Rooted, Evolved, CountsKept, Consistent, Present, Root,
           Grown, Perm, IsTable, EntryAt, Memory.AllocatablePage, Lowest;
      ghost var counts := mem.refcount[..];
      ghost var keys := mem.tables.Keys;
      var pt := mem.Kalloc();
      done := pt.Some?;
      if done {
        TakenPage(mem.kernelEnd, counts, pt.value);
        LeastTaken(mem.kernelEnd, counts, pt.value);
        InstallTable(pt.value);
        OneTableCounts(mem.kernelEnd, counts, pt.value, keys);
      } else {
        NoPageFree(mem.kernelEnd, counts);
        LowestRefl(FreePages(mem.kernelEnd, counts));
        CountsRefl(mem.kernelEnd, counts, keys);
        EvolvedRefl(mem.shape, mem.tables);
      }
    }

    /** The loop of `try_map`: add tables until the current entry stands for a single page. */
    method AddTables(p: Flags) returns (done: bool)
      requires Valid() && (p != 0 ==> Canonical(va) && (level > 0 ==> !Present(Current())))
      modifies this, mem, mem.refcount
      ensures Valid() && va == old(va) && perm == old(perm) && (done && p != 0 ==> level == 0)
      ensures (!done ==> p != 0 && level > 0)
      ensures p == 0 || old(level) == 0 ==> done && mem.tables == old(mem.tables) && level == old(level)
      ensures Evolved(old(mem.shape), old(mem.tables), mem.shape, mem.tables)
      ensures CountsKept(mem.kernelEnd, old(mem.refcount[..]), mem.refcount[..], old(mem.tables.Keys), mem.tables.Keys)
      ensures Took(old(mem.InStock()), mem.InStock(), if p == 0 then 0 else old(level), done)
    {
      hide Walk, Translate, PageTable.Down, Forest, Rooted, IsTable, Present, FreePages, CountsKept, Evolved, Lowest;
      ghost var shape0, tables0, counts0 := mem.shape, mem.tables, mem.refcount[..];
      EvolvedRefl(shape0, tables0);
      CountsRefl(mem.kernelEnd, counts0, tables0.Keys);
      LowestRefl(mem.Free());
      done := true;
      while level > 0 && p != 0 && done
        invariant Valid() && va == old(va) && perm == old(perm) && level <= old(level)
        invariant p != 0 ==> Canonical(va) && (level > 0 ==> !Present(Current()))
        invariant p == 0 || old(level) == 0 ==> mem.tables == tables0 && level == old(level) && done
        invariant !done ==> p != 0 && level > 0 && |mem.Free()| == 0
        invariant Evolved(shape0, tables0, mem.shape, mem.tables)
        invariant CountsKept(mem.kernelEnd, counts0, mem.refcount[..], tables0.Keys, mem.tables.Keys)
        invariant Lowest(old(mem.Free()), mem.Free())
        invariant |mem.Free()| == |old(mem.Free())| - (old(level) - level)
        invariant |mem.tables.Keys| == |old(mem.tables.Keys)| + (old(level) - level)
        decreases level, done
      {
        ghost var shape1, tables1, counts1 := mem.shape, mem.tables, mem.refcount[..];
        ghost var free1 := mem.Free();
        done := AddOneTable();
        LowestTrans(old(mem.Free()), free1, mem.Free());
        EvolvedTrans(shape0, shape1, mem.shape, tables0, tables1, mem.tables);
        CountsTrans(mem.kernelEnd, counts0, counts1, mem.refcount[..], tables0.Keys, tables1.Keys, mem.tables.Keys);
      }
    }

    /** `try_map`: install a mapping, adding tables on the way; -1 exactly when there is no memory for one. */
    method TryMap(pa: Target, p: Flags) returns (r: int)
      requires Valid() && MayMap(pa, p)
      modifies this, mem, mem.refcount
      ensures Valid() && va == old(va)
      ensures MapOutcome(old(mem.shape), old(mem.tables), mem.shape, mem.tables, root, va, pa, p, old(level), r)
      ensures CountsKept(mem.kernelEnd, old(mem.refcount[..]), mem.refcount[..], old(mem.tables.Keys), mem.tables.Keys)
      ensures Took(old(mem.InStock()), mem.InStock(), if p == 0 then 0 else old(level), r == 0)
    {
      hide Walk, Translate, PageTable.Down, Forest, Rooted, CountsKept, SameElsewhere, Evolved, Grants, MapOutcome,
           Consistent, Canonical, EntryAt, FreePages, Took, Root, Present, Grown, Perm, Fits, Maps, Memory.Valid;
      ghost var shape0, tables0, level0 := mem.shape, mem.tables, level;
      var target := if pa == Nowhere then At(0, 0) else pa;
      WrittenFits(pa, p);
      var done := AddTables(p);
      ghost var tables1 := mem.tables;
      if !done {
        NotAtLevelZero();
        OutcomeFailed(shape0, tables0, mem.shape, tables1, root, va, pa, p, level0);
        return -1;
      }
      if level == 0 {
        WritePage(target, p);
        AtLevelZero();
        OutcomeMapped(shape0, tables0, mem.shape, tables1, mem.tables, root, va, pa, p, level0);
      } else {
        OutcomeNothing(shape0, tables0, mem.shape, tables1, root, va, pa, p, level0);
      }
      return 0;
    }

    method WritePage(target: Target, p: Flags)
      requires Valid() && level == 0 && va % 0x1000 == 0 && Fits(target, p) && Grants(perm, p) && target.At?
      modifies mem`tables
      ensures Valid() && mem.tables.Keys == old(mem.tables.Keys)
      ensures SameElsewhere(mem.shape, old(mem.tables), mem.tables, root, va)
      ensures Translate(mem.tables, root, va) == if Maps(p) then Mapped(target.frame * 0x1000, p) else Unmapped
    {
      hide Walk, Translate, PageTable.Down, Forest, Rooted, SameElsewhere;
      LevelZeroCanonical();
      WriteLeaf(Entry(target.frame, target.low | p));
      NewMapping(target.frame, target.low, p);
    }

    lemma AtLevelZero()
      requires Consistent() && level == 0
      ensures Walk(mem.tables, root, va).level == 0
    {
    }

    lemma NotAtLevelZero()
      requires Consistent() && Canonical(va) && level > 0
      ensures Walk(mem.tables, root, va).level > 0
    {
    }

    lemma LevelZeroCanonical()
      requires Consistent() && level == 0
      ensures Canonical(va)
    {
    }

    /** What the new entry makes of the current address. */
    lemma NewMapping(frame: nat, low: Flags, p: Flags)
      requires Valid() && level == 0 && va % 0x1000 == 0 && Current() == Entry(frame, low | p)
      requires Grants(perm, p) && Fits(At(frame, low), p)
      ensures Translate(mem.tables, root, va) == if Maps(p) then Mapped(frame * 0x1000, p) else Unmapped
    {
      DownPermBits(mem.tables, root, 3, ALL, va);
      GrantedPerm(frame, low, p, perm);
      ReportsTranslation();
    }
  }

  /** New tables take pages that were free, and no other reference count changes. */
  ghost predicate CountsKept(kernelEnd: nat, before: seq<nat>, after: seq<nat>, tables: set<nat>, tables': set<nat>) {
    && |before| == |after| && tables <= tables'
    && (forall i :: 0 <= i < |before| && !(i in tables' && i !in tables) ==> after[i] == before[i])
    && (forall i :: i in tables' && i !in tables ==>
          i < |before| && before[i] == 0 && after[i] == 1 && Memory.AllocatablePage(i, kernelEnd))
  }

  lemma OneTableCounts(kernelEnd: nat, counts: seq<nat>, page: nat, tables: set<nat>)
    requires page < |counts| && counts[page] == 0 && Memory.AllocatablePage(page, kernelEnd) && page !in tables
    ensures CountsKept(kernelEnd, counts, counts[page := 1], tables, tables + {page})
  {
  }

  lemma CountsRefl(kernelEnd: nat, counts: seq<nat>, tables: set<nat>)
    ensures CountsKept(kernelEnd, counts, counts, tables, tables)
  {
  }

  /** What `need` further tables take from the pages that are free: the mapping can be made exactly when there are
      enough, and otherwise all of them have become tables. */
  ghost predicate Took(before: Stock, after: Stock, need: nat, done: bool) {
    && (done <==> need <= |before.free|)
    && |after.free| == (if done then |before.free| - need else 0)
    && |after.free| + after.tables == |before.free| + before.tables
    && Lowest(before.free, after.free)
  }

  lemma WhenTook(before: Stock, after: Stock, need: nat, done: bool)
    requires Took(before, after, need, done)
    ensures (done <==> need <= |before.free|) && (done ==> |after.free| == |before.free| - need)
  {
  }

  lemma GrantedPerm(frame: nat, low: Flags, p: Flags, perm: Flags)
    requires perm | PWU == ALL && Grants(perm, p) && Fits(At(frame, low), p)
    ensures Perm(Entry(frame, low | p), perm) == if Maps(p) then p else 0
  {
    if Maps(p) {
      assert (0 | p) & perm == p;
    } else {
      assert (low | p) & P == 0;
      NotPresentUnmapped(Entry(frame, low | p), perm);
    }
  }

  /** Everything the tables promise after a table was added where a walk stopped. */
  lemma InstallWalk(t: Tables, shape: Shape, root: nat, page: nat, index: nat, added: nat, level: nat, perm: Flags,
                    va: nat)
    requires Forest(t, shape) && Root(shape, root) && 0 < level <= 3 && index == PageIndex(va, level)
    requires Walk(t, root, va) == Stop(level, page, perm) && !Present(EntryAt(t, page, index))
    requires added !in t && added < 0x10_0000
    ensures page in t && page in shape && 0 < shape[page].level <= 3 && added !in shape
    ensures var t' := AddTable(t, page, index, added); var shape' := AddPlace(shape, page, index, added);
            && Forest(t', shape') && Evolved(shape, t, shape', t') && Root(shape', root)
            && OnPath(shape', root, page, level, va)
            && Walk(t', root, va) == Stop(level - 1, added, perm)
            && PageTable.Down(t', page, level, perm, va) == Stop(level - 1, added, perm)
            && !Present(EntryAt(t', added, PageIndex(va, level - 1)))
  {
    hide Translate, Evolved, PageTable.Down;
    RootOnPath(shape, root, va);
    DownOnPath(t, shape, root, root, 3, ALL, va);
    AddTableForest(t, shape, page, index, added);
    AddTableDown(t, shape, page, index, added, root, root, 3, ALL, va);
    AddTableHit(t, page, index, added, level, perm, va);
    AddTableEverywhere(t, shape, page, index, added);
    assert !Present(ZERO);
  }

  lemma AddTableWalksOn(t: Tables, shape: Shape, page: nat, index: nat, added: nat, root: nat, va: nat)
    requires Forest(t, shape) && page in shape && shape[page].level > 0 && index < 512 && added !in t
    requires !Present(t[page][index]) && Root(shape, root)
    ensures WalksOn(t, AddTable(t, page, index, added), root, va)
  {
    hide Forest, Rooted, PageTable.Down, Present, IsTable;
    RootOnPath(shape, root, va);
    AddTableDown(t, shape, page, index, added, root, root, 3, ALL, va);
    DownOnPath(t, shape, root, root, 3, ALL, va);
    assert !Present(ZERO) by { ZeroAbsent(); }
    assert page in t && t.Keys == shape.Keys by { ForestKeys(t, shape); }
  }

  lemma ZeroAbsent()
    ensures !Present(ZERO)
  {
  }

  lemma ForestKeys(t: Tables, shape: Shape)
    requires Forest(t, shape)
    ensures t.Keys == shape.Keys && forall page :: page in shape ==> shape[page].level <= 3
  {
  }

  lemma LeafWriteWalksOn(t: Tables, shape: Shape, root: nat, page: nat, index: nat, e: Entry, va: nat)
    requires Forest(t, shape) && page in shape && shape[page].level == 0 && index < 512 && Root(shape, root)
    ensures WalksOn(t, SetEntry(t, page, index, e), root, va)
  {
    hide Forest, Rooted, PageTable.Down, Present, IsTable;
    RootOnPath(shape, root, va);
    ForestKeys(t, shape);
    LeafWriteDown(t, shape, page, index, e, root, root, 3, ALL, va);
    DownOnPath(t, shape, root, root, 3, ALL, va);
  }

  lemma AddTableEverywhere(t: Tables, shape: Shape, page: nat, index: nat, added: nat)
    requires Forest(t, shape) && page in shape && shape[page].level > 0 && index < 512 && added !in t
    requires !Present(t[page][index])
    ensures Evolved(shape, t, AddPlace(shape, page, index, added), AddTable(t, page, index, added))
  {
    hide Forest, Rooted, Translate, Walk, Present, WalksOn;
    ForestKeys(t, shape);
    forall root, va: nat | Root(shape, root) ensures WalksOn(t, AddTable(t, page, index, added), root, va) {
      AddTableWalksOn(t, shape, page, index, added, root, va);
    }
    forall root, va: nat | Root(shape, root) && va < WORD
      ensures Translate(AddTable(t, page, index, added), root, va) == Translate(t, root, va)
    {
      AddTableTranslates(t, shape, page, index, added, root, va);
    }
  }

  lemma LeafWriteEverywhere(t: Tables, shape: Shape, root: nat, page: nat, va: nat, e: Entry)
    requires Forest(t, shape) && OnPath(shape, root, page, 0, va) && va < WORD && Canonical(va)
    ensures SameElsewhere(shape, t, SetEntry(t, page, PageIndex(va, 0), e), root, va)
  {
    hide Forest, Rooted, Translate, Walk, WalksOn;
    ForestKeys(t, shape);
    forall root', va': nat | Root(shape, root') ensures WalksOn(t, SetEntry(t, page, PageIndex(va, 0), e), root', va') {
      LeafWriteWalksOn(t, shape, root', page, PageIndex(va, 0), e, va');
    }
    forall root', va': nat | Root(shape, root') && va' < WORD && (root' != root || va' / 0x1000 != va / 0x1000)
      ensures Translate(SetEntry(t, page, PageIndex(va, 0), e), root', va') == Translate(t, root', va')
    {
      LeafWriteElsewhere(t, shape, root, page, va, e, root', va');
    }
  }

  lemma ZeroNotTable()
    ensures !IsTable(ZERO)
  {
  }

  lemma PermPresent(e: Entry, perm: Flags)
    requires Perm(e, perm) != 0
    ensures Present(e)
  {
    assert (e.flags & perm) & P == P ==> e.flags & P == P;
  }

  lemma SameFloor(va: nat, va': nat, level: nat)
    requires 0 < level <= 3 && va / Span(level) == va' / Span(level)
    ensures Floor(va % SPACE, level) == Floor(va' % SPACE, level)
  {
    QuotientUp(va, va', level, 4);
    SpaceQuotient(va, level);
    SpaceQuotient(va', level);
  }

  /** What `try_map` promises: the page at `va` is mapped as asked, or -1 and nothing has changed; no other page of
      any tree is affected; tables were only added. (With permissions 0 a large page or a hole is left alone.) */
  ghost predicate MapOutcome(shape: Shape, t: Tables, shape': Shape, t': Tables, root: nat, va: nat,
                             pa: Target, p: Flags, level: nat, r: int) {
    && (r == 0 || r == -1)
    && Grown(shape, shape') && SameElsewhere(shape, t, t', root, va)
    && (r == -1 ==> p != 0 && Evolved(shape, t, shape', t') && Walk(t', root, va).level > 0)
    && (r == 0 && Maps(p) ==> pa.At? && Translate(t', root, va) == Mapped(pa.frame * 0x1000, p))
    && (r == 0 && !Maps(p) && (p != 0 || level == 0) ==> Translate(t', root, va) == Unmapped)
    && (p == 0 && level > 0 ==> r == 0 && t' == t)
    && (level == 0 ==> r == 0 && t'.Keys == t.Keys)
    && (r == 0 && p != 0 ==> Walk(t', root, va).level == 0)
  }

  lemma WrittenFits(pa: Target, p: Flags)
    requires Fits(pa, p)
    ensures Fits(if pa == Nowhere then At(0, 0) else pa, p) && (Maps(p) ==> pa.At?)
  {
    assert 0 & P == 0;
  }

  lemma OutcomeFailed(shape: Shape, t: Tables, shape': Shape, t': Tables, root: nat, va: nat, pa: Target, p: Flags,
                      level: nat)
    requires Evolved(shape, t, shape', t') && p != 0 && level > 0 && Walk(t', root, va).level > 0
    ensures MapOutcome(shape, t, shape', t', root, va, pa, p, level, -1)
  {
    EvolvedElsewhere(shape, t, shape', t', root, va);
  }

  lemma OutcomeNothing(shape: Shape, t: Tables, shape': Shape, t': Tables, root: nat, va: nat, pa: Target, p: Flags,
                       level: nat)
    requires Evolved(shape, t, shape', t') && p == 0 && level > 0 && t' == t
    ensures MapOutcome(shape, t, shape', t', root, va, pa, p, level, 0)
  {
    EvolvedElsewhere(shape, t, shape', t', root, va);
    assert !Maps(0);
  }

  lemma OutcomeMapped(shape: Shape, t: Tables, shape': Shape, t': Tables, t'': Tables, root: nat, va: nat, pa: Target,
                      p: Flags, level: nat)
    requires Evolved(shape, t, shape', t') && SameElsewhere(shape', t', t'', root, va) && t''.Keys == t'.Keys
    requires Fits(pa, p) && (level == 0 ==> t' == t) && (p == 0 ==> level == 0)
    requires Walk(t'', root, va).level == 0
    requires Translate(t'', root, va) == if Maps(p) then Mapped(pa.frame * 0x1000, p) else Unmapped
    ensures MapOutcome(shape, t, shape', t'', root, va, pa, p, level, 0)
  {
    ElsewhereAfterGrowth(shape, shape', t, t', t'', root, va);
  }

  lemma EvolvedElsewhere(shape: Shape, t: Tables, shape': Shape, t': Tables, root: nat, va: nat)
    requires Evolved(shape, t, shape', t')
    ensures SameElsewhere(shape, t, t', root, va) && Grown(shape, shape')
  {
    hide Translate, WalksOn;
  }

  lemma DeepenedTrans(shape: Shape, shape': Shape, t: Tables, t': Tables, t'': Tables)
    requires Grown(shape, shape') && Deepened(shape, t, t') && Deepened(shape', t', t'')
    ensures Deepened(shape, t, t'')
  {
    hide Walk, Present, EntryAt;
    forall root, va: nat | Root(shape, root) ensures WalksOn(t, t'', root, va) {
      assert Root(shape', root);
      assert WalksOn(t, t', root, va) && WalksOn(t', t'', root, va);
    }
  }

  lemma ElsewhereAfterGrowth(shape: Shape, shape': Shape, t: Tables, t': Tables, t'': Tables, root: nat, va: nat)
    requires Evolved(shape, t, shape', t') && SameElsewhere(shape', t', t'', root, va)
    ensures SameElsewhere(shape, t, t'', root, va)
  {
    hide Translate, WalksOn;
    DeepenedTrans(shape, shape', t, t', t'');
    forall root', va': nat | Root(shape, root') && va' < WORD && (root' != root || va' / 0x1000 != va / 0x1000)
      ensures Translate(t'', root', va') == Translate(t, root', va')
    {
      assert Root(shape', root');
    }
  }

  lemma EvolvedTrans(shape: Shape, shape': Shape, shape'': Shape, t: Tables, t': Tables, t'': Tables)
    requires Evolved(shape, t, shape', t') && Evolved(shape', t', shape'', t'')
    ensures Evolved(shape, t, shape'', t'')
  {
    hide Translate, WalksOn;
    DeepenedTrans(shape, shape', t, t', t'');
    forall root, va: nat | Root(shape, root) && va < WORD ensures Translate(t'', root, va) == Translate(t, root, va) {
      assert Root(shape', root);
    }
  }

  lemma CountsTrans(kernelEnd: nat, a: seq<nat>, b: seq<nat>, c: seq<nat>, x: set<nat>, y: set<nat>, z: set<nat>)
    requires CountsKept(kernelEnd, a, b, x, y) && CountsKept(kernelEnd, b, c, y, z)
    ensures CountsKept(kernelEnd, a, c, x, z)
  {
  }

  // ---------- A range that is overlooked ----------

  lemma FreshTables(t: Tables, root: nat, shape: Shape)
    requires t == map[root := ZeroTable()]
    ensures forall va: nat :: va < WORD ==> Translate(t, root, va) == Unmapped
    ensures Walk(t, root, 0) == Stop(3, root, ALL) && !Present(StopEntry(t, Walk(t, root, 0), 0))
  {
    assert !IsTable(ZERO) && !Present(ZERO) && Perm(ZERO, ALL) == 0;
    forall va: nat ensures EntryAt(t, root, PageIndex(va, 3)) == ZERO {}
  }

  lemma ThreeFree(kernelEnd: nat, counts: seq<nat>)
    requires |counts| == NPAGES && forall i :: 0 <= i < NPAGES ==> counts[i] == 0
    ensures |FreePages(kernelEnd, counts)| >= 3
  {
    var f := FreePages(kernelEnd, counts);
    assert {1, 2, 3} <= f;
    assert f == {1, 2, 3} + (f - {1, 2, 3});
  }

  lemma SinglePage(it: VmIter)
    requires it.Valid() && Walk(it.mem.tables, it.root, 0).level == 0 && it.va == 0xFFF && Maps(it.CurrentPerm())
    ensures !it.Accurate(2)
  {
    ResumeWalk(it.mem.tables, it.root, 3, ALL, 0, 0xFFF);
  }

  lemma RefusedByHole(t: Tables, root: nat, frame: nat)
    requires Translate(t, root, 0xFFF) == Mapped(frame * 0x1000 + 0xFFF, PWU) && Translate(t, root, 0x1000) == Unmapped
    ensures PermissionAt(t, root, 0xFFF) == PWU && Maps(PWU) && !IsIntersection(t, root, 0xFFF, 0x1001, PWU)
  {
    hide Translate;
    OnlyTheFirst(t, root, 0xFFF, 0x1001);
    assert !Has(0, PWU) && Maps(PWU);
    Refused(t, root, 0xFFF, 0x1001, 0x1000, PWU);
  }

  /** A new tree with one page mapped at address 0. */
  method OnePageTree(kernelEnd: nat, root: nat, frame: nat) returns (mem: Memory, it: VmIter)
    requires root < 0x10_0000 && (root >= NPAGES || !Memory.AllocatablePage(root, kernelEnd)) && frame < 0x10_0000
    ensures fresh(mem) && fresh(it) && it.Valid() && it.mem == mem && it.root == root
    ensures Translate(mem.tables, root, 0xFFF) == Mapped(frame * 0x1000 + 0xFFF, PWU)
    ensures Translate(mem.tables, root, 0x1000) == Unmapped && Walk(mem.tables, root, 0).level == 0
  {
    hide Forest, Rooted, Walk, Translate, EntryAt, FreePages, CountsKept;
    mem := new Memory(kernelEnd, root);
    FreshTables(mem.tables, root, mem.shape);
    ThreeFree(kernelEnd, mem.refcount[..]);
    it := new VmIter(mem, root, 0);
    var r := it.TryMap(At(frame, 0), PWU);
    MappedPage(mem.tables, root, 0, 0xFFF, frame, PWU);
  }

  /** Such a tree, asked for the permissions of two bytes over the end of the page: the answer is that both can be read
      and written, but the second is not mapped. */
  method RangeOverlooked(kernelEnd: nat, root: nat, frame: nat) returns (mem: Memory, it: VmIter, p: Flags)
    requires root < 0x10_0000 && (root >= NPAGES || !Memory.AllocatablePage(root, kernelEnd)) && frame < 0x10_0000
    ensures fresh(mem) && fresh(it) && it.Valid() && it.mem == mem && it.root == root && it.va == 0xFFF
    ensures Translate(mem.tables, root, 0xFFF) == Mapped(frame * 0x1000 + 0xFFF, PWU)
    ensures Translate(mem.tables, root, 0x1000) == Unmapped
    ensures !it.Accurate(2) && p == PWU && !IsIntersection(mem.tables, root, 0xFFF, 0x1001, p)
  {
    hide Forest, Rooted, Walk, Translate, EntryAt, FreePages, IsIntersection, VmIter.Accurate, VmIter.Consistent, Root;
    mem, it := OnePageTree(kernelEnd, root, frame);
    it.RealFind(0xFFF);
    it.ReportsPermission();
    RefusedByHole(mem.tables, root, frame);
    SinglePage(it);
    p := it.RangePerm(2);
  }
}

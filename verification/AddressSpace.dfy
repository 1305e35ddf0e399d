/** What a process's address space holds, and what leaves it alone. */
module AddressSpace {
  import opened Common
  import opened PageTable
  import opened PageRange
  import opened VmIter
  import opened PageBudget
  import opened Isolation

  datatype Segment = Segment(va: nat, size: nat)

  datatype Program = Program(segments: seq<Segment>, entry: nat)

  // ---------- Operations on one tree ----------

  /** No tree but this one translates differently. */
  ghost predicate SameOutside(shape: Shape, t: Tables, t': Tables, root: nat) {
    forall root', va: nat :: Root(shape, root') && root' != root && va < WORD ==>
        Translate(t', root', va) == Translate(t, root', va)
  }

  /** Later tables: places are kept, walks go at least as deep, and only one tree has other mappings. */
  ghost predicate Advanced(shape: Shape, t: Tables, shape': Shape, t': Tables, root: nat) {
    Grown(shape, shape') && Deepened(shape, t, t') && SameOutside(shape, t, t', root)
  }

  lemma AdvancedTrans(shape: Shape, t: Tables, shape': Shape, t': Tables, shape'': Shape, t'': Tables, root: nat)
    requires Advanced(shape, t, shape', t', root) && Advanced(shape', t', shape'', t'', root)
    ensures Advanced(shape, t, shape'', t'', root)
  {
    hide WalksOn, Translate;
    DeepenedTrans(shape, shape', t, t', t'');
    forall root', va: nat | Root(shape, root') && root' != root && va < WORD
      ensures Translate(t'', root', va) == Translate(t, root', va)
    {
      assert Root(shape', root');
    }
  }

  lemma AdvancedGrown(shape: Shape, t: Tables, shape': Shape, t': Tables, root: nat)
    requires Advanced(shape, t, shape', t', root)
    ensures Grown(shape, shape') && Deepened(shape, t, t')
  {
  }

  lemma RootIsTable(shape: Shape, root: nat)
    requires Root(shape, root)
    ensures root in shape
  {
  }

  lemma EvolvedAdvances(shape: Shape, t: Tables, shape': Shape, t': Tables, root: nat)
    requires Evolved(shape, t, shape', t')
    ensures Advanced(shape, t, shape', t', root)
  {
    hide WalksOn, Translate;
  }

  lemma AdvancedRefl(shape: Shape, t: Tables, root: nat)
    ensures Advanced(shape, t, shape, t, root)
  {
    EvolvedRefl(shape, t);
    EvolvedAdvances(shape, t, shape, t, root);
  }

  lemma OutcomeAdvances(shape: Shape, t: Tables, shape': Shape, t': Tables, root: nat, va: nat, pa: Target, p: Flags,
                        level: nat, r: int)
    requires MapOutcome(shape, t, shape', t', root, va, pa, p, level, r)
    ensures Advanced(shape, t, shape', t', root) && Grown(shape, shape') && Deepened(shape, t, t')
  {
    hide Translate, WalksOn;
  }

  lemma AdvancedWalk(shape: Shape, t: Tables, shape': Shape, t': Tables, root: nat, va: nat, root': nat)
    requires Advanced(shape, t, shape', t', root') && Root(shape, root)
    ensures Walk(t', root, va).level <= Walk(t, root, va).level
  {
    hide Walk;
    assert WalksOn(t, t', root, va);
  }

  // ---------- What an address space holds ----------

  /** An address in a page of this process, for user code to read and write. */
  ghost predicate GivenAt(t: Tables, root: nat, va: nat, pid: nat, owner: map<nat, nat>) {
    var x := Translate(t, root, va);
    x.Mapped? && x.perm == PWU && x.pa / 0x1000 in owner && owner[x.pa / 0x1000] == pid
  }

  ghost predicate Given(t: Tables, root: nat, from: nat, to: nat, pid: nat, owner: map<nat, nat>) {
    forall va: nat :: from <= va < to ==> GivenAt(t, root, va, pid, owner)
  }

  /** The addresses up to here are mapped to themselves, for the kernel alone. */
  ghost predicate KernelSpace(t: Tables, root: nat, to: nat) {
    forall va: nat :: va < to ==> Translate(t, root, va) == Mapped(va, P | W)
  }

  /** Below the processes' addresses: page 0 traps, the console is for everybody, the rest is the kernel's. */
  function SystemTranslation(va: nat): Translation {
    if va / 0x1000 == 0 then Unmapped else Mapped(va, if va / 0x1000 == CONSOLE_PAGE then PWU else P | W)
  }

  ghost predicate SystemSpace(t: Tables, root: nat) {
    forall va: nat :: va < PROC_START_ADDR ==> Translate(t, root, va) == SystemTranslation(va)
  }

  lemma KernelPageAdded(shape: Shape, t: Tables, t': Tables, root: nat, va: nat)
    requires Root(shape, root) && SameElsewhere(shape, t, t', root, va) && va < PROC_START_ADDR && va % 0x1000 == 0
    requires KernelSpace(t, root, va) && Translate(t', root, va) == Mapped(va / 0x1000 * 0x1000, P | W)
    ensures KernelSpace(t', root, va + 0x1000)
  {
    hide Translate;
    forall a: nat | a < va + 0x1000 ensures Translate(t', root, a) == Mapped(a, P | W) {
      if a / 0x1000 == va / 0x1000 { MappedPage(t', root, va, a, va / 0x1000, P | W); }
    }
  }

  /** Kernel space, with page 0 taken out and the console given to everybody. */
  lemma SystemSpaceMade(shape: Shape, t: Tables, t': Tables, t'': Tables, shape': Shape, root: nat)
    requires KernelSpace(t, root, PROC_START_ADDR) && Root(shape, root) && Root(shape', root)
    requires SameElsewhere(shape, t, t', root, 0) && Translate(t', root, 0) == Unmapped
    requires SameElsewhere(shape', t', t'', root, CONSOLE_PAGE * 0x1000)
    requires Translate(t'', root, CONSOLE_PAGE * 0x1000) == Mapped(CONSOLE_PAGE * 0x1000, PWU)
    ensures SystemSpace(t'', root)
  {
    hide Translate;
    forall va: nat | va < PROC_START_ADDR ensures Translate(t'', root, va) == SystemTranslation(va) {
      if va / 0x1000 == 0 { WholePage(t', root, 0, va); }
      if va / 0x1000 == CONSOLE_PAGE { MappedPage(t'', root, CONSOLE_PAGE * 0x1000, va, CONSOLE_PAGE, PWU); }
    }
  }

  /** No address below the processes' is mapped differently. */
  ghost predicate SameBelow(t: Tables, t': Tables, root: nat) {
    forall va: nat :: va < PROC_START_ADDR ==> Translate(t', root, va) == Translate(t, root, va)
  }

  /** Pages given stay given. */
  ghost predicate StillGiven(t: Tables, t': Tables, root: nat, pid: nat, owner: map<nat, nat>, owner': map<nat, nat>) {
    forall va: nat :: va < WORD && GivenAt(t, root, va, pid, owner) ==> GivenAt(t', root, va, pid, owner')
  }

  lemma PageAdded(shape: Shape, t: Tables, shape': Shape, t': Tables, root: nat, pid: nat, va: nat, frame: nat,
                  level: nat, r: int,
                  owner: map<nat, nat>, owner': map<nat, nat>)
    requires Root(shape, root) && va < WORD && va % 0x1000 == 0
    requires MapOutcome(shape, t, shape', t', root, va, At(frame, 0), PWU, level, r)
    requires owner' == owner[frame := pid] && (frame in owner ==> owner[frame] == pid)
    ensures StillGiven(t, t', root, pid, owner, owner') && (va >= PROC_START_ADDR ==> SameBelow(t, t', root))
    ensures r == 0 ==> Given(t', root, va, va + 0x1000, pid, owner')
  {
    hide Translate, Walk, WalksOn;
    assert Maps(PWU);
    forall a: nat | a < WORD
        && (a / 0x1000 != va / 0x1000 || r == -1) ensures Translate(t', root, a) == Translate(t, root, a) {}
    if r == 0 {
      forall a: nat | va <= a < va + 0x1000 ensures GivenAt(t', root, a, pid, owner') {
        MappedPage(t', root, va, a, frame, PWU);
      }
    }
    forall a: nat | a < WORD && GivenAt(t, root, a, pid, owner) ensures GivenAt(t', root, a, pid, owner') {
      if r == 0 && a / 0x1000 == va / 0x1000 { MappedPage(t', root, va, a, frame, PWU); }
    }
  }

  lemma GivenStays(t: Tables, t': Tables, root: nat, from: nat, to: nat, pid: nat, owner: map<nat, nat>,
                   owner': map<nat, nat>)
    requires Given(t, root, from, to, pid, owner) && StillGiven(t, t', root, pid, owner, owner') && to <= WORD
    ensures Given(t', root, from, to, pid, owner')
  {
    hide GivenAt;
  }

  lemma StillGivenTrans(t: Tables, t': Tables, t'': Tables, root: nat, pid: nat,
                        owner: map<nat, nat>, owner': map<nat, nat>, owner'': map<nat, nat>)
    requires StillGiven(t, t', root, pid, owner, owner') && StillGiven(t', t'', root, pid, owner', owner'')
    ensures StillGiven(t, t'', root, pid, owner, owner'')
  {
    hide GivenAt;
  }

  lemma SystemSpaceStays(t: Tables, t': Tables, root: nat)
    requires SystemSpace(t, root) && SameBelow(t, t', root)
    ensures SystemSpace(t', root)
  {
    hide Translate, SystemTranslation;
  }

  // ---------- What a process gets ----------

  /** The addresses the loader takes. */
  predicate Bounded(segments: seq<Segment>) {
    forall i :: 0 <= i < |segments| ==> segments[i].va + segments[i].size <= VA_LOWMAX + 1
  }

  /** The addresses meant for processes. */
  predicate Confined(segments: seq<Segment>) {
    forall i :: 0 <= i < |segments| ==> segments[i].va + segments[i].size <= MEMSIZE_VIRTUAL
  }

  /** How many pages a segment lies in. */
  function PagesOf(seg: Segment): nat {
    PagesGrow(seg);
    (seg.va + seg.size + 0xFFF) / 0x1000 - seg.va / 0x1000
  }

  lemma PagesGrow(seg: Segment)
    ensures (seg.va + seg.size + 0xFFF) / 0x1000 >= seg.va / 0x1000
  {
  }

  function PagesOfAll(segments: seq<Segment>): nat {
    if segments == [] then 0 else PagesOfAll(segments[..|segments| - 1]) + PagesOf(segments[|segments| - 1])
  }

  lemma OneMoreSegment(segments: seq<Segment>, i: nat)
    requires i < |segments| && Bounded(segments)
    ensures segments[i].va + segments[i].size <= VA_LOWMAX + 1
    ensures Confined(segments) ==> segments[i].va + segments[i].size <= MEMSIZE_VIRTUAL
    ensures PagesOfAll(segments[..i + 1]) == PagesOfAll(segments[..i]) + PagesOf(segments[i])
  {
    assert segments[..i + 1][..i] == segments[..i];
  }

  /** The pages a process takes: its tables, its segments and its stack. */
  function PagesFor(program: Program): nat { TREE_PAGES + PagesOfAll(program.segments) + 1 }

  function PagesForAll(programs: seq<Program>): nat {
    if programs == [] then 0 else PagesForAll(programs[..|programs| - 1]) + PagesFor(programs[|programs| - 1])
  }

  predicate AllConfined(programs: seq<Program>) { forall p :: 0 <= p < |programs| ==> Confined(programs[p].segments) }

  lemma OneMoreProgram(programs: seq<Program>, p: nat)
    requires p < |programs|
    ensures PagesForAll(programs[..p + 1]) == PagesForAll(programs[..p]) + PagesFor(programs[p])
    ensures PagesFor(programs[p]) > 0
  {
    assert programs[..p + 1][..p] == programs[..p];
  }

  lemma {:induction false} PagesMonotone(programs: seq<Program>, i: nat, j: nat)
    requires i <= j <= |programs|
    ensures PagesForAll(programs[..i]) <= PagesForAll(programs[..j])
    decreases j
  {
    if i < j {
      assert programs[..j][..j - 1] == programs[..j - 1];
      PagesMonotone(programs, i, j - 1);
    }
  }

  // ---------- What the pages left suffice for ----------

  /** The lowest page for a process, and the tables to map it. */
  ghost predicate Gave(before: Stock, after: Stock, level: nat, page: Option<nat>, mapped: bool) {
    && (page.Some? ==> Least(before.free, page.value))
    && (page.None? ==> before.free == {})
    && Took(Stock(if page.Some? then before.free - {page.value} else {}, before.tables), after, level, mapped)
  }

  /** Pages given to a process and made into tables, lowest first: all asked for, or all there were. */
  ghost predicate Supplied(before: Stock, after: Stock, frames: nat, complete: bool) {
    && Lowest(before.free, after.free)
    && |after.free| <= |before.free|
    && (complete ==> |after.free| + after.tables + frames == |before.free| + before.tables)
    && (!complete ==> |after.free| == 0)
  }

  /** With a page for each frame, and one for the stack's table while that is missing, nothing fails and as much is
      left over. */
  predicate Ample(before: Stock, after: Stock, frames: nat, level: nat, level': nat, complete: bool) {
    frames + level <= |before.free| ==> complete && |after.free| - level' >= |before.free| - level - frames
  }

  ghost predicate SegmentGiven(t: Tables, root: nat, seg: Segment, pid: nat, owner: map<nat, nat>) {
    Given(t, root, seg.va / 0x1000 * 0x1000, seg.va + seg.size, pid, owner)
  }

  ghost predicate AllGiven(t: Tables, root: nat, segments: seq<Segment>, pid: nat, owner: map<nat, nat>) {
    forall i :: 0 <= i < |segments| ==> SegmentGiven(t, root, segments[i], pid, owner)
  }

  predicate AllHigh(segments: seq<Segment>) { forall i :: 0 <= i < |segments| ==> segments[i].va >= PROC_START_ADDR }

  /** Both; the second for pages at addresses for processes, in a tree that has the tables for address 0. */
  ghost predicate Provided(before: Stock, after: Stock, frames: nat, low: bool, level: nat, level': nat,
                           complete: bool) {
    Supplied(before, after, frames, complete) && (low ==> Ample(before, after, frames, level, level', complete))
  }

  lemma NothingTaken(s: Stock, low: bool, level: nat)
    ensures Provided(s, s, 0, low, level, level, true)
  {
    LowestRefl(s.free);
  }

  lemma LowerHalfPage(q: nat)
    requires q * 0x1000 <= VA_LOWMAX
    ensures q * 0x1000 % 0x1000 == 0 && Canonical(q * 0x1000)
  {
  }

  /** The loop over a segment's pages ends when it has passed them all. */
  lemma AllPages(seg: Segment, n: nat)
    requires var a := (seg.va / 0x1000 + n) * 0x1000;
             seg.va + seg.size <= a && (n > 0 ==> a < seg.va + seg.size + 0x1000)
    ensures n == PagesOf(seg)
  {
    var end, q := seg.va + seg.size, seg.va / 0x1000 + n;
    assert n == 0 ==> end == seg.va && seg.va == q * 0x1000;
    assert q * 0x1000 <= end + 0xFFF < (q + 1) * 0x1000;
  }

  lemma LoadedStock(a: Stock, b: Stock, c: Stock, pages: set<nat>, segments: seq<Segment>, i: nat, low: bool,
                    low': bool, level: nat, level': nat, level'': nat, complete: bool, complete': bool)
    requires i < |segments| && Bounded(segments) && (low ==> Confined(segments)) && Lowest(pages, b.free)
    requires Provided(a, b, PagesOfAll(segments[..i]), low, level, level', complete)
    requires Provided(b, c, PagesOf(segments[i]), low', level', level'', complete') && (low ==> low')
    ensures Provided(a, c, PagesOfAll(segments[..i + 1]), low, level, level'', complete && complete')
    ensures Lowest(pages, c.free)
  {
    hide PagesOf, PagesOfAll, Lowest, Bounded, Confined;
    OneMoreSegment(segments, i);
    ProvidedTrans(a, b, c, PagesOfAll(segments[..i]), PagesOf(segments[i]), low, low', level, level', level'', complete,
                  complete');
    LowestTrans(pages, b.free, c.free);
  }

  lemma ProvidedTrans(a: Stock, b: Stock, c: Stock, frames: nat, frames': nat, low: bool, low': bool, level: nat,
                      level': nat, level'': nat,
                      complete: bool, complete': bool)
    requires Provided(a, b, frames, low, level, level', complete)
    requires Provided(b, c, frames', low', level', level'', complete')
    ensures Provided(a, c, frames + frames', low && low', level, level'', complete && complete')
  {
    hide Lowest;
    LowestTrans(a.free, b.free, c.free);
  }

  lemma PageSupplied(before: Stock, after: Stock, level: nat, page: Option<nat>, mapped: bool)
    requires Gave(before, after, level, page, mapped)
    ensures Supplied(before, after, 1, page.Some? && mapped)
    ensures page.Some? ==>
            |before.free| > 0 && Took(Stock(before.free - {page.value}, before.tables), after, level, mapped)
    ensures page.Some? ==> |before.free - {page.value}| == |before.free| - 1
  {
    if page.Some? {
      var rest := before.free - {page.value};
      assert Lowest(before.free, rest);
      LowestTrans(before.free, rest, after.free);
    } else {
      assert after.free == {};
    }
  }

  lemma PageProvided(t: Tables, t': Tables, root: nat, va: nat, before: Stock, after: Stock, page: Option<nat>,
                     mapped: bool)
    requires Gave(before, after, Walk(t, root, va).level, page, mapped)
    requires mapped ==> Walk(t', root, va).level == 0
    requires Walk(t', root, 0).level <= Walk(t, root, 0).level
    requires Walk(t', root, STACK_PAGE).level <= Walk(t, root, STACK_PAGE).level
    ensures Provided(before, after, 1, Walk(t, root, 0).level == 0 && va < MEMSIZE_VIRTUAL,
                     Walk(t, root, STACK_PAGE).level, Walk(t', root, STACK_PAGE).level, page.Some? && mapped)
  {
    hide Walk, Lowest, Least;
    PageSupplied(before, after, Walk(t, root, va).level, page, mapped);
    if Walk(t, root, 0).level == 0 && va < MEMSIZE_VIRTUAL {
      RegionLevels(t, root, va);
      RegionLevels(t', root, va);
    }
  }

  // ---------- Processes leave each other alone ----------

  ghost predicate OwnerGrown(owner: map<nat, nat>, owner': map<nat, nat>) {
    forall f :: f in owner ==> f in owner' && owner'[f] == owner[f]
  }

  lemma OwnerGrownRefl(owner: map<nat, nat>)
    ensures OwnerGrown(owner, owner)
  {
  }

  lemma OwnerGrownByOwn(owner: map<nat, nat>, frame: nat, pid: nat)
    requires frame in owner ==> owner[frame] == pid
    ensures OwnerGrown(owner, owner[frame := pid])
  {
  }

  lemma OwnerGrownTrans(a: map<nat, nat>, b: map<nat, nat>, c: map<nat, nat>)
    requires OwnerGrown(a, b) && OwnerGrown(b, c)
    ensures OwnerGrown(a, c)
  {
  }

  /** What a process has: its segments and a stack page of its own, the console, and nothing else below the processes'
      addresses. */
  ghost predicate Loaded(t: Tables, root: nat, pid: nat, owner: map<nat, nat>, segments: seq<Segment>) {
    && (AllHigh(segments) ==> SystemSpace(t, root))
    && AllGiven(t, root, segments, pid, owner)
    && Given(t, root, STACK_PAGE, MEMSIZE_VIRTUAL, pid, owner)
  }

  lemma LoadedStays(t: Tables, t': Tables, root: nat, pid: nat, owner: map<nat, nat>, owner': map<nat, nat>,
                    segments: seq<Segment>)
    requires Loaded(t, root, pid, owner, segments) && Bounded(segments)
    requires StillGiven(t, t', root, pid, owner, owner') && SameBelow(t, t', root)
    ensures Loaded(t', root, pid, owner', segments)
  {
    hide SystemSpace, AllGiven, Given, StillGiven, SameBelow;
    if AllHigh(segments) { SystemSpaceStays(t, t', root); }
    AllGivenStays(t, t', root, segments, pid, owner, owner');
    GivenStays(t, t', root, STACK_PAGE, MEMSIZE_VIRTUAL, pid, owner, owner');
  }

  /** Other trees keep what they hold. */
  lemma OthersKeep(shape: Shape, t: Tables, t': Tables, root: nat, root': nat, pid: nat, owner: map<nat, nat>,
                   owner': map<nat, nat>)
    requires SameOutside(shape, t, t', root) && OwnerGrown(owner, owner') && Root(shape, root') && root' != root
    ensures StillGiven(t, t', root', pid, owner, owner') && SameBelow(t, t', root')
  {
    hide Translate;
  }

  /** After an operation on one tree, process `pid` still has what it had: its own tree only gained pages, or is
      another one. */
  lemma KeepsLoaded(shape: Shape, t: Tables, shape': Shape, t': Tables, root: nat, root': nat, pid: nat, owner: map<nat,
                    nat>,
                    owner': map<nat, nat>, segments: seq<Segment>)
    requires Advanced(shape, t, shape', t', root) && OwnerGrown(owner, owner') && Root(shape, root')
    requires root' == root ==> StillGiven(t, t', root, pid, owner, owner') && SameBelow(t, t', root)
    requires Loaded(t, root', pid, owner, segments) && Bounded(segments)
    ensures Loaded(t', root', pid, owner', segments)
  {
    hide StillGiven, SameBelow, Loaded, SameOutside, OwnerGrown, WalksOn, Bounded;
    if root' != root { OthersKeep(shape, t, t', root, root', pid, owner, owner'); }
    LoadedStays(t, t', root', pid, owner, owner', segments);
  }

  lemma LowCanonical(va: nat)
    requires va < MEMSIZE_VIRTUAL
    ensures Canonical(va)
  {
  }

  lemma DocumentedLevel(t: Tables, root: nat, va: nat)
    requires Covered(t, root) && va < MEMSIZE_VIRTUAL
    ensures Walk(t, root, va).level == 0
  {
  }

  lemma NothingGiven(t: Tables, root: nat, pid: nat, owner: map<nat, nat>, a: nat)
    ensures Given(t, root, a, a, pid, owner) && StillGiven(t, t, root, pid, owner, owner) && SameBelow(t, t, root)
  {
    hide Translate, GivenAt;
  }

  lemma GivenLess(t: Tables, root: nat, from: nat, to: nat, to': nat, pid: nat, owner: map<nat, nat>)
    requires Given(t, root, from, to, pid, owner) && to' <= to
    ensures Given(t, root, from, to', pid, owner)
  {
    hide GivenAt;
  }

  lemma SameBelowTrans(t: Tables, t': Tables, t'': Tables, root: nat)
    requires SameBelow(t, t', root) && SameBelow(t', t'', root)
    ensures SameBelow(t, t'', root)
  {
    hide Translate;
  }

  /** One more page of a segment. */
  lemma SegmentStep(t: Tables, t': Tables, t'': Tables, root: nat, pid: nat, owner: map<nat, nat>, owner': map<nat,
                    nat>,
                    owner'': map<nat, nat>, start: nat, a: nat, high: bool, whole: bool, r: int)
    requires StillGiven(t, t', root, pid, owner, owner') && StillGiven(t', t'', root, pid, owner', owner'') && a <= WORD
    requires high ==> SameBelow(t, t', root) && SameBelow(t', t'', root)
    requires whole ==> Given(t', root, start, a, pid, owner')
    requires r == 0 ==> Given(t'', root, a, a + 0x1000, pid, owner'')
    ensures StillGiven(t, t'', root, pid, owner, owner'') && (high ==> SameBelow(t, t'', root))
    ensures whole && r == 0 ==> Given(t'', root, start, a + 0x1000, pid, owner'')
  {
    hide GivenAt, StillGiven, SameBelow;
    StillGivenTrans(t, t', t'', root, pid, owner, owner', owner'');
    if high { SameBelowTrans(t, t', t'', root); }
    if whole && r == 0 { GivenStays(t', t'', root, start, a, pid, owner', owner''); }
  }

  /** One more segment of a program. */
  lemma ProgramStep(t: Tables, t': Tables, t'': Tables, root: nat, pid: nat, owner: map<nat, nat>, owner': map<nat,
                    nat>,
                    owner'': map<nat, nat>, segments: seq<Segment>, i: nat, whole: bool, w: bool)
    requires StillGiven(t, t', root, pid, owner, owner') && StillGiven(t', t'', root, pid, owner', owner'')
    requires i < |segments|
    requires AllHigh(segments) ==> SameBelow(t, t', root)
    requires segments[i].va >= PROC_START_ADDR ==> SameBelow(t', t'', root)
    requires Bounded(segments)
    requires whole ==> AllGiven(t', root, segments[..i], pid, owner')
    requires w ==> SegmentGiven(t'', root, segments[i], pid, owner'')
    ensures StillGiven(t, t'', root, pid, owner, owner'') && (AllHigh(segments) ==> SameBelow(t, t'', root))
    ensures whole && w ==> AllGiven(t'', root, segments[..i + 1], pid, owner'')
  {
    hide Given, StillGiven, SameBelow;
    StillGivenTrans(t, t', t'', root, pid, owner, owner', owner'');
    if AllHigh(segments) { SameBelowTrans(t, t', t'', root); }
    if whole && w { AllGivenStays(t', t'', root, segments[..i], pid, owner', owner''); }
  }

  lemma NoSegmentGiven(t: Tables, root: nat, pid: nat, owner: map<nat, nat>)
    ensures AllGiven(t, root, [], pid, owner) && PagesOfAll([]) == 0
  {
  }

  lemma AllGivenStays(t: Tables, t': Tables, root: nat, segments: seq<Segment>, pid: nat, owner: map<nat, nat>,
                      owner': map<nat, nat>)
    requires AllGiven(t, root, segments, pid, owner) && StillGiven(t, t', root, pid, owner, owner')
    requires Bounded(segments)
    ensures AllGiven(t', root, segments, pid, owner')
  {
    hide Given, StillGiven;
    forall j | 0 <= j < |segments| ensures SegmentGiven(t', root, segments[j], pid, owner') {
      assert SegmentGiven(t, root, segments[j], pid, owner);
      GivenStays(t, t', root, segments[j].va / 0x1000 * 0x1000, segments[j].va + segments[j].size, pid, owner, owner');
    }
  }

  lemma OutcomeResult(shape: Shape, t: Tables, shape': Shape, t': Tables, root: nat, va: nat, pa: Target, p: Flags,
                      level: nat, r: int)
    requires MapOutcome(shape, t, shape', t', root, va, pa, p, level, r)
    ensures (r == 0 || r == -1) && SameElsewhere(shape, t, t', root, va) && (r == -1 ==> Walk(t', root, va).level > 0)
    ensures r == 0 && Maps(p) ==> pa.At? && Translate(t', root, va) == Mapped(pa.frame * 0x1000, p)
    ensures level == 0 ==> r == 0 && (!Maps(p) ==> Translate(t', root, va) == Unmapped)
  {
    hide Translate, WalksOn, Walk;
  }

  lemma MappedLevel(shape: Shape, t: Tables, shape': Shape, t': Tables, root: nat, va: nat, pa: Target, p: Flags,
                    level: nat, r: int)
    requires MapOutcome(shape, t, shape', t', root, va, pa, p, level, r) && r == 0 && p != 0
    ensures Walk(t', root, va).level == 0
  {
    hide Translate, WalksOn, Walk;
  }

  lemma KernelSpaceEmpty(t: Tables, root: nat)
    ensures KernelSpace(t, root, 0)
  {
  }

  lemma KernelPageMapped(shape: Shape, t: Tables, shape': Shape, t': Tables, root: nat, va: nat, r: int)
    requires Root(shape, root) && va < PROC_START_ADDR && va % 0x1000 == 0
    requires MapOutcome(shape, t, shape', t', root, va, At(va / 0x1000, 0), P | W, Walk(t, root, va).level, r)
    ensures r == 0 ==> Walk(t', root, va).level == 0
    ensures r == 0 && KernelSpace(t, root, va) ==> KernelSpace(t', root, va + 0x1000)
  {
    hide Translate, WalksOn, Walk, MapOutcome, KernelSpace;
    NotForUser(P | W);
    OutcomeResult(shape, t, shape', t', root, va, At(va / 0x1000, 0), P | W, Walk(t, root, va).level, r);
    if r == 0 {
      MappedLevel(shape, t, shape', t', root, va, At(va / 0x1000, 0), P | W, Walk(t, root, va).level, r);
      if KernelSpace(t, root, va) { KernelPageAdded(shape, t, t', root, va); }
    }
  }

  lemma NotForUser(p: Flags)
    requires p == P | W
    ensures !Has(p, U) && Maps(p) && p != 0
  {
  }

  /** Filling a new tree, up to the count of its tables: when it fails nothing is left; and it does not fail when there
      are the pages, and four more for tables, which then is all that is taken. */
  ghost predicate Filled(before: Stock, after: Stock, frames: nat, confined: bool, complete: bool) {
    && Supplied(before, after, frames, complete)
    && (confined && frames + TREE_PAGES - 1 <= |before.free| ==>
        complete && |after.free| >= |before.free| - frames - (TREE_PAGES - 1))
  }

  /** The same before the stack page: `level` is what the stack's tables still lack. */
  ghost predicate Imaged(before: Stock, after: Stock, frames: nat, confined: bool, level: nat, fine: bool) {
    && Supplied(before, after, frames, fine)
    && (confined && frames + TREE_PAGES - 1 <= |before.free| ==>
        fine && |after.free| - level >= |before.free| - frames - (TREE_PAGES - 1))
  }

  lemma ImagedBy(before: Stock, mapped: Stock, after: Stock, frames: nat, confined: bool, low: bool, level: nat,
                 level': nat, whole: bool, all: bool)
    requires Took(before, mapped, 3, whole) && (whole ==> level <= 1 && low == confined)
    requires Provided(mapped, after, frames, low, level, level', all)
    ensures Imaged(before, after, frames, confined, level', whole && all)
  {
    hide Lowest;
    LowestTrans(before.free, mapped.free, after.free);
  }

  predicate Enough(before: Stock, frames: nat) { frames + TREE_PAGES - 1 <= |before.free| }

  /** The kernel stopped: a copy went astray, or there were not enough pages, and none is left. */
  predicate Stopped(before: Stock, after: Stock, frames: nat, confined: bool, clean: bool) {
    clean ==> after.free == {} && (confined ==> !Enough(before, frames))
  }

  lemma StoppedBy(before: Stock, after: Stock, frames: nat, confined: bool, level: nat, fine: bool, clean: bool)
    requires Imaged(before, after, frames, confined, level, fine) && !(fine && clean)
    ensures Stopped(before, after, frames + 1, confined, clean)
  {
  }

  lemma EnoughIsFine(before: Stock, after: Stock, frames: nat, confined: bool, level: nat, fine: bool)
    requires Imaged(before, after, frames, confined, level, fine)
    ensures confined && Enough(before, frames + 1) ==> fine
  {
  }

  lemma FilledBy(before: Stock, loaded: Stock, after: Stock, frames: nat, confined: bool, low: bool, level: nat,
                 level': nat, fine: bool, last: bool)
    requires Imaged(before, loaded, frames, confined, level, fine) && (fine ==> low)
    requires Provided(loaded, after, 1, low, level, level', last)
    ensures Filled(before, after, frames + 1, confined, fine && last)
  {
    hide Lowest;
    LowestTrans(before.free, loaded.free, after.free);
  }

  /** The budget of `process_setup`: exactly with so many pages left is every step possible. */
  lemma SetupBudget(before: Stock, root: nat, made: Stock, after: Stock, frames: nat, confined: bool, complete: bool)
    requires Least(before.free, root) && made == Stock(before.free - {root}, before.tables + 1)
    requires Filled(made, after, frames, confined, complete)
    requires complete ==> after.tables >= before.tables + TREE_PAGES
    ensures complete ==> |before.free| >= TREE_PAGES + frames
    ensures confined ==> (complete <==> |before.free| >= TREE_PAGES + frames)
    ensures confined && complete ==> |after.free| == |before.free| - TREE_PAGES - frames
    ensures !complete ==> after.free == {}
    ensures Lowest(before.free, after.free)
  {
    assert |made.free| == |before.free| - 1;
    assert Lowest(before.free, made.free);
    LowestTrans(before.free, made.free, after.free);
  }
}

/** Copying a program's image: the loader goes through the physical address of each segment's first page, as if the
    pages after it followed in physical memory too. */
module ImageCopy {
  import opened Common
  import opened PageTable
  import opened PageRange
  import opened VmIter
  import opened PageBudget
  import opened Isolation
  import opened AddressSpace

  const MEMSIZE_PHYSICAL: nat := NPAGES * 0x1000

  // ---------- Where a copy goes ----------

  /** The byte for this address is copied to where the address leads. */
  ghost predicate CopiedTo(t: Tables, root: nat, seg: Segment, va: nat)
    requires seg.va <= va
  {
    var x, y := Translate(t, root, seg.va), Translate(t, root, va);
    x.Mapped? && y.Mapped? && y.pa == x.pa + (va - seg.va)
  }

  ghost predicate Landed(t: Tables, root: nat, seg: Segment) {
    forall va: nat :: seg.va <= va < seg.va + seg.size ==> CopiedTo(t, root, seg, va)
  }

  ghost predicate AllLanded(t: Tables, root: nat, segments: seq<Segment>) {
    forall i :: 0 <= i < |segments| ==> Landed(t, root, segments[i])
  }

  /** The kernel can write to all of physical memory but page 0; anywhere else a copy stops it. */
  predicate Faults(x: Translation, size: nat) {
    size > 0 && (x.Unmapped? || x.pa < 0x1000 || x.pa + size > MEMSIZE_PHYSICAL)
  }

  ghost predicate CopyFaults(t: Tables, root: nat, seg: Segment) { Faults(Translate(t, root, seg.va), seg.size) }

  lemma CopyStops(t: Tables, root: nat, seg: Segment, pa: Option<nat>)
    requires var x := Translate(t, root, seg.va); pa == if x.Mapped? then Some(x.pa) else None
    ensures CopyFaults(t, root, seg) <==>
              seg.size > 0 && (pa.None? || pa.value < 0x1000 || pa.value + seg.size > MEMSIZE_PHYSICAL)
  {
    hide Translate;
  }

  // ---------- Pages one after the other ----------

  /** The pages of a range of addresses. */
  ghost predicate PagesAre(t: Tables, root: nat, start: nat, frames: seq<nat>) {
    forall k: nat :: k < |frames| ==> Translate(t, root, start + k * 0x1000) == Mapped(frames[k] * 0x1000, PWU)
  }

  predicate InOrder(frames: seq<nat>) { forall k :: 0 <= k < |frames| ==> frames[k] == frames[0] + k }

  /** The `n` lowest pages follow each other. */
  ghost predicate Row(pages: set<nat>, first: nat, n: nat) {
    Least(pages, first) && forall page :: first <= page < first + n ==> page in pages
  }

  ghost predicate Consecutive(pages: set<nat>, n: nat) { exists first :: Row(pages, first, n) }

  function SetOf(frames: seq<nat>): set<nat> { set f | f in frames }

  /** Pages taken one by one, always the lowest. */
  ghost predicate Taken(pages: set<nat>, frames: seq<nat>) {
    forall k :: 0 <= k < |frames| ==> Least(pages - SetOf(frames[..k]), frames[k])
  }

  lemma TakeOne(pages: set<nat>, frames: seq<nat>, page: nat)
    requires Taken(pages, frames) && Least(pages - SetOf(frames), page)
    ensures Taken(pages, frames + [page]) && pages - SetOf(frames) - {page} == pages - SetOf(frames + [page])
  {
    var frames' := frames + [page];
    forall k | 0 <= k < |frames'| ensures Least(pages - SetOf(frames'[..k]), frames'[k]) {
      assert frames'[..k] == if k < |frames| then frames[..k] else frames;
    }
  }

  lemma {:induction false} TakenFrom(pages: set<nat>, frames: seq<nat>, first: nat, k: nat)
    requires Taken(pages, frames) && k < |frames| && Row(pages, first, |frames|)
    ensures forall j :: 0 <= j <= k ==> frames[j] == first + j
  {
    if k > 0 { TakenFrom(pages, frames, first, k - 1); }
    var rest := pages - SetOf(frames[..k]);
    assert Least(rest, frames[k]);
    forall j | 0 <= j < k ensures frames[..k][j] == first + j {}
    assert first + k in rest;
    forall q | first <= q < first + k ensures q !in rest {
      assert frames[..k][q - first] == q;
    }
  }

  /** Pages taken lowest first come in order exactly when the lowest ones follow each other. */
  lemma OrderIff(pages: set<nat>, frames: seq<nat>)
    requires Taken(pages, frames) && frames != []
    ensures InOrder(frames) <==> Consecutive(pages, |frames|)
  {
    assert frames[..0] == [] && pages - SetOf([]) == pages;
    assert Least(pages, frames[0]);
    if InOrder(frames) {
      forall page | frames[0] <= page < frames[0] + |frames| ensures page in pages {
        var k := page - frames[0];
        assert Least(pages - SetOf(frames[..k]), frames[k]);
      }
      assert Row(pages, frames[0], |frames|);
    }
    if Consecutive(pages, |frames|) {
      var first :| Row(pages, first, |frames|);
      TakenFrom(pages, frames, first, |frames| - 1);
    }
  }

  // ---------- The pages of a segment ----------

  lemma PageIn(seg: Segment, k: nat)
    requires seg.size > 0 && k < PagesOf(seg)
    ensures var va := if k == 0 then seg.va else (seg.va / 0x1000 + k) * 0x1000;
            seg.va <= va < seg.va + seg.size && va / 0x1000 == seg.va / 0x1000 + k
  {
  }

  lemma AddressIn(seg: Segment, va: nat)
    requires seg.va <= va < seg.va + seg.size
    ensures 0 <= va / 0x1000 - seg.va / 0x1000 < PagesOf(seg)
  {
  }

  lemma PageOf(t: Tables, root: nat, start: nat, frames: seq<nat>, va: nat)
    requires PagesAre(t, root, start, frames) && start % 0x1000 == 0 && va < WORD
    requires 0 <= va / 0x1000 - start / 0x1000 < |frames|
    ensures Translate(t, root, va) == Mapped(frames[va / 0x1000 - start / 0x1000] * 0x1000 + va % 0x1000, PWU)
  {
    hide Translate;
    var k := va / 0x1000 - start / 0x1000;
    var page := start + k * 0x1000;
    assert page == va / 0x1000 * 0x1000;
    MappedPage(t, root, page, va, frames[k], PWU);
  }

  /** The copy of a segment lands in its own pages exactly when these follow each other. */
  lemma LandedIff(t: Tables, root: nat, seg: Segment, frames: seq<nat>)
    requires PagesAre(t, root, seg.va / 0x1000 * 0x1000, frames) && |frames| == PagesOf(seg)
    requires seg.size > 0 && seg.va + seg.size <= WORD
    ensures Landed(t, root, seg) <==> InOrder(frames)
  {
    hide Translate, PagesAre, PagesOf;
    var start := seg.va / 0x1000 * 0x1000;
    AddressIn(seg, seg.va);
    PageOf(t, root, start, frames, seg.va);
    if InOrder(frames) {
      forall va: nat | seg.va <= va < seg.va + seg.size ensures CopiedTo(t, root, seg, va) {
        AddressIn(seg, va);
        PageOf(t, root, start, frames, va);
      }
    }
    if Landed(t, root, seg) {
      forall k | 0 <= k < |frames| ensures frames[k] == frames[0] + k {
        PageIn(seg, k);
        var va := if k == 0 then seg.va else (seg.va / 0x1000 + k) * 0x1000;
        PageOf(t, root, start, frames, va);
        assert CopiedTo(t, root, seg, va);
      }
    }
  }

  /** The first `n` pages of a range, and, when no table was missing, that they were taken lowest first and nothing
      else. */
  ghost predicate Tracked(pages: set<nat>, rest: set<nat>, t: Tables, root: nat, start: nat, n: nat, frames: seq<nat>,
                          low: bool) {
    && |frames| == n && PagesAre(t, root, start, frames)
    && (low ==> Taken(pages, frames) && rest == pages - SetOf(frames))
  }

  lemma TrackNothing(pages: set<nat>, t: Tables, root: nat, start: nat, low: bool)
    ensures Tracked(pages, pages, t, root, start, 0, [], low)
  {
    hide Translate;
    assert SetOf([]) == {};
  }

  lemma TrackStep(pages: set<nat>, shape: Shape, t: Tables, t': Tables, root: nat, start: nat, n: nat, frames: seq<nat>,
                  low: bool, before: Stock, after: Stock, level: nat, page: nat)
    requires Tracked(pages, before.free, t, root, start, n, frames, low) && start % 0x1000 == 0 && Root(shape, root)
    requires Gave(before, after, level, Some(page), true) && (low ==> level == 0)
    requires var a := start + n * 0x1000;
             a < WORD && SameElsewhere(shape, t, t', root, a) && Translate(t', root, a) == Mapped(page * 0x1000, PWU)
    ensures Tracked(pages, after.free, t', root, start, n + 1, frames + [page], low)
  {
    hide Translate, WalksOn, PagesAre, Taken, SetOf;
    PagesStay(shape, t, t', root, start, frames, page);
    if low {
      SameSize(after.free, before.free - {page});
      TakeOne(pages, frames, page);
    }
  }

  lemma SameSize(a: set<nat>, b: set<nat>)
    requires a <= b && |a| == |b|
    ensures a == b
  {
    assert b == a + (b - a);
  }

  lemma {:induction false} TakenCount(pages: set<nat>, frames: seq<nat>)
    requires Taken(pages, frames)
    ensures |pages - SetOf(frames)| + |frames| == |pages|
    decreases |frames|
  {
    if frames == [] {
      assert pages - SetOf([]) == pages;
    } else {
      var n := |frames| - 1;
      var before := frames[..n];
      forall k | 0 <= k < n ensures Least(pages - SetOf(before[..k]), before[k]) { assert before[..k] == frames[..k]; }
      TakenCount(pages, before);
      var rest := pages - SetOf(before);
      assert Least(rest, frames[n]);
      assert frames == before + [frames[n]];
      TakeOne(pages, before, frames[n]);
      assert |rest - {frames[n]}| == |rest| - 1;
    }
  }

  /** What a segment that was loaded holds. */
  lemma SegmentTracked(pages: set<nat>, rest: set<nat>, t: Tables, root: nat, seg: Segment, frames: seq<nat>, low: bool)
    requires Tracked(pages, rest, t, root, seg.va / 0x1000 * 0x1000, PagesOf(seg), frames, low)
    requires seg.va + seg.size <= WORD
    ensures low && seg.size > 0 ==> (Landed(t, root, seg) <==> Consecutive(pages, PagesOf(seg)))
    ensures low ==> |rest| + PagesOf(seg) == |pages|
  {
    hide Translate, PagesAre, Taken, SetOf, PagesOf, Landed, Consecutive, InOrder;
    if low {
      TakenCount(pages, frames);
      if seg.size > 0 {
        SomePages(seg);
        LandedIff(t, root, seg, frames);
        OrderIff(pages, frames);
      }
    }
  }

  lemma SomePages(seg: Segment)
    requires seg.size > 0
    ensures PagesOf(seg) > 0
  {
    AddressIn(seg, seg.va);
  }

  // ---------- What loading leaves alone ----------

  /** Outside these addresses the tree translates as before. */
  ghost predicate SameOff(t: Tables, t': Tables, root: nat, from: nat, to: nat) {
    forall va: nat :: va < WORD && (va < from || va >= to) ==> Translate(t', root, va) == Translate(t, root, va)
  }

  lemma SameOffStep(shape: Shape, t: Tables, t': Tables, t'': Tables, root: nat, from: nat, a: nat)
    requires SameOff(t, t', root, from, a) && SameElsewhere(shape, t', t'', root, a) && Root(shape, root)
    requires from <= a && a % 0x1000 == 0
    ensures SameOff(t, t'', root, from, a + 0x1000)
  {
    hide Translate, WalksOn;
    forall va: nat | va < WORD && (va < from || va >= a + 0x1000)
      ensures Translate(t'', root, va) == Translate(t, root, va)
    {
      assert va / 0x1000 != a / 0x1000;
    }
  }

  lemma LandedStays(t: Tables, t': Tables, root: nat, seg: Segment, from: nat, to: nat)
    requires SameOff(t, t', root, from, to) && seg.va + seg.size <= WORD
    requires seg.va + seg.size <= from || to <= seg.va
    ensures Landed(t', root, seg) <==> Landed(t, root, seg)
  {
    hide Translate;
    if seg.size > 0 {
      forall va: nat | seg.va <= va < seg.va + seg.size
        ensures CopiedTo(t', root, seg, va) <==> CopiedTo(t, root, seg, va)
      {
      }
    }
  }

  lemma PagesStay(shape: Shape, t: Tables, t': Tables, root: nat, start: nat, frames: seq<nat>, page: nat)
    requires PagesAre(t, root, start, frames) && start % 0x1000 == 0 && Root(shape, root)
    requires var a := start + |frames| * 0x1000;
             a < WORD && SameElsewhere(shape, t, t', root, a) && Translate(t', root, a) == Mapped(page * 0x1000, PWU)
    ensures PagesAre(t', root, start, frames + [page])
  {
    hide Translate, WalksOn;
    var a, frames' := start + |frames| * 0x1000, frames + [page];
    forall k: nat | k < |frames'| ensures Translate(t', root, start + k * 0x1000) == Mapped(frames'[k] * 0x1000, PWU) {
      if k < |frames| { assert (start + k * 0x1000) / 0x1000 != a / 0x1000; }
    }
  }

  function EndOf(seg: Segment): nat { (seg.va + seg.size + 0xFFF) / 0x1000 * 0x1000 }

  lemma EndAfter(seg: Segment, n: nat)
    requires n == PagesOf(seg)
    ensures (seg.va / 0x1000 + n) * 0x1000 == EndOf(seg)
  {
  }

  lemma SameOffRefl(t: Tables, root: nat, from: nat)
    ensures SameOff(t, t, root, from, from)
  {
  }

  // ---------- Loading a segment ----------

  /** What a process and the kernel have, as far as loading segments is concerned. */
  datatype Space = Space(shape: Shape, t: Tables, owner: map<nat, nat>, stock: Stock)

  function Start(seg: Segment): nat { seg.va / 0x1000 * 0x1000 }

  function PageAt(seg: Segment, n: nat): nat { (seg.va / 0x1000 + n) * 0x1000 }

  /** All tables are there for the segment, in a tree that has them for address 0. */
  ghost predicate Here(t: Tables, root: nat, seg: Segment) {
    Walk(t, root, 0).level == 0 && seg.va + seg.size <= 0x20_0000
  }

  /** From `x` to `y` the first `n` pages of a segment were loaded. */
  ghost predicate LoadedTo(x: Space, y: Space, root: nat, pid: nat, seg: Segment, n: nat, frames: seq<nat>,
                           complete: bool)
  {
    && Advanced(x.shape, x.t, y.shape, y.t, root) && OwnerGrown(x.owner, y.owner)
    && Provided(x.stock, y.stock, n, Walk(x.t, root, 0).level == 0 && seg.va + seg.size <= MEMSIZE_VIRTUAL,
                Walk(x.t, root, STACK_PAGE).level, Walk(y.t, root, STACK_PAGE).level, complete)
    && Walk(y.t, root, 0).level <= Walk(x.t, root, 0).level
    && StillGiven(x.t, y.t, root, pid, x.owner, y.owner)
    && (seg.va >= PROC_START_ADDR ==> SameBelow(x.t, y.t, root))
    && SameOff(x.t, y.t, root, Start(seg), PageAt(seg, n))
    && (complete ==> Given(y.t, root, Start(seg), PageAt(seg, n), pid, y.owner))
    && (complete && NULL_PAGE !in x.owner ==> NULL_PAGE !in y.owner)
    && (complete ==> Tracked(x.stock.free, y.stock.free, y.t, root, Start(seg), n, frames, Here(x.t, root, seg)))
  }

  /** One page was allocated for address `a` and mapped there, or not. */
  ghost predicate PageLoaded(x: Space, y: Space, root: nat, pid: nat, a: nat, page: Option<nat>, mapped: bool) {
    && Advanced(x.shape, x.t, y.shape, y.t, root) && OwnerGrown(x.owner, y.owner)
    && Gave(x.stock, y.stock, Walk(x.t, root, a).level, page, mapped)
    && SameElsewhere(x.shape, x.t, y.t, root, a)
    && Provided(x.stock, y.stock, 1, Walk(x.t, root, 0).level == 0 && a < MEMSIZE_VIRTUAL,
                Walk(x.t, root, STACK_PAGE).level, Walk(y.t, root, STACK_PAGE).level, page.Some? && mapped)
    && Walk(y.t, root, 0).level <= Walk(x.t, root, 0).level
    && (page.Some? ==> NULL_PAGE !in y.owner)
    && (mapped ==>
          Translate(y.t, root, a) == Mapped((if page.Some? then page.value else NULL_PAGE) * 0x1000, PWU))
    && StillGiven(x.t, y.t, root, pid, x.owner, y.owner)
    && (a >= PROC_START_ADDR ==> SameBelow(x.t, y.t, root))
    && (mapped ==> Given(y.t, root, a, a + 0x1000, pid, y.owner))
  }

  lemma LoadNothing(x: Space, root: nat, pid: nat, seg: Segment)
    ensures LoadedTo(x, x, root, pid, seg, 0, [], true)
  {
    hide Walk, Translate, Advanced, OwnerGrown, Provided, StillGiven, SameBelow, SameOff, Given, Tracked;
    AdvancedRefl(x.shape, x.t, root);
    OwnerGrownRefl(x.owner);
    NothingGiven(x.t, root, pid, x.owner, Start(seg));
    NothingTaken(x.stock, Walk(x.t, root, 0).level == 0 && seg.va + seg.size <= MEMSIZE_VIRTUAL,
                 Walk(x.t, root, STACK_PAGE).level);
    SameOffRefl(x.t, root, Start(seg));
    TrackNothing(x.stock.free, x.t, root, Start(seg), Here(x.t, root, seg));
  }

  lemma FirstPage(seg: Segment)
    ensures PageAt(seg, 0) == seg.va / 0x1000 * 0x1000
  {
  }

  lemma PageAtNext(seg: Segment, n: nat)
    requires PageAt(seg, n) < seg.va + seg.size && seg.va + seg.size <= VA_LOWMAX + 1
    ensures PageAt(seg, n) % 0x1000 == 0 && Canonical(PageAt(seg, n)) && PageAt(seg, n) < WORD
    ensures PageAt(seg, n + 1) == PageAt(seg, n) + 0x1000 && Start(seg) % 0x1000 == 0
    ensures PageAt(seg, n) == Start(seg) + n * 0x1000
    ensures seg.va >= PROC_START_ADDR ==> PageAt(seg, n) >= PROC_START_ADDR
  {
    LowerHalfPage(seg.va / 0x1000 + n);
  }

  lemma LoadPage(x: Space, y: Space, z: Space, root: nat, pid: nat, seg: Segment, n: nat, frames: seq<nat>,
                 complete: bool, page: Option<nat>, mapped: bool)
    requires LoadedTo(x, y, root, pid, seg, n, frames, complete) && Root(x.shape, root) && Root(y.shape, root)
    requires PageAt(seg, n) < seg.va + seg.size && seg.va + seg.size <= VA_LOWMAX + 1
    requires PageLoaded(y, z, root, pid, PageAt(seg, n), page, mapped)
    ensures LoadedTo(x, z, root, pid, seg, n + 1, if page.Some? then frames + [page.value] else frames,
                     complete && page.Some? && mapped)
  {
    hide Walk, Translate, Advanced, OwnerGrown, Provided, StillGiven, SameBelow, SameOff, Given, Tracked, Root, Gave,
         SameElsewhere, Canonical, Start, PageAt;
    PageAtNext(seg, n);
    var a := PageAt(seg, n);
    AdvancedTrans(x.shape, x.t, y.shape, y.t, z.shape, z.t, root);
    OwnerGrownTrans(x.owner, y.owner, z.owner);
    SegmentStep(x.t, y.t, z.t, root, pid, x.owner, y.owner, z.owner, Start(seg), a, seg.va >= PROC_START_ADDR, complete,
                if mapped then 0 else -1);
    LoadProvided(x, y, z, root, seg, n, a, complete, page.Some? && mapped);
    SameOffStep(y.shape, x.t, y.t, z.t, root, Start(seg), a);
    if complete && page.Some? && mapped {
      if Here(x.t, root, seg) { LowLevel(y.t, root, a); }
      TrackStep(x.stock.free, y.shape, y.t, z.t, root, Start(seg), n, frames, Here(x.t, root, seg), y.stock, z.stock,
                Walk(y.t, root, a).level, page.value);
    }
  }

  lemma LoadProvided(x: Space, y: Space, z: Space, root: nat, seg: Segment, n: nat, a: nat, complete: bool, given: bool)
    requires Walk(y.t, root, 0).level <= Walk(x.t, root, 0).level && a < seg.va + seg.size
    requires Provided(x.stock, y.stock, n, Walk(x.t, root, 0).level == 0 && seg.va + seg.size <= MEMSIZE_VIRTUAL,
                      Walk(x.t, root, STACK_PAGE).level, Walk(y.t, root, STACK_PAGE).level, complete)
    requires Provided(y.stock, z.stock, 1, Walk(y.t, root, 0).level == 0 && a < MEMSIZE_VIRTUAL,
                      Walk(y.t, root, STACK_PAGE).level, Walk(z.t, root, STACK_PAGE).level, given)
    ensures Provided(x.stock, z.stock, n + 1,
                     Walk(x.t, root, 0).level == 0 && seg.va + seg.size <= MEMSIZE_VIRTUAL,
                     Walk(x.t, root, STACK_PAGE).level, Walk(z.t, root, STACK_PAGE).level, complete && given)
  {
    hide Walk, Lowest;
    ProvidedTrans(x.stock, y.stock, z.stock, n, 1,
                  Walk(x.t, root, 0).level == 0 && seg.va + seg.size <= MEMSIZE_VIRTUAL,
                  Walk(y.t, root, 0).level == 0 && a < MEMSIZE_VIRTUAL, Walk(x.t, root, STACK_PAGE).level,
                  Walk(y.t, root, STACK_PAGE).level, Walk(z.t, root, STACK_PAGE).level, complete, given);
  }

  /** A segment was loaded. */
  lemma LoadWhole(x: Space, y: Space, root: nat, pid: nat, seg: Segment, n: nat, frames: seq<nat>, complete: bool)
    requires LoadedTo(x, y, root, pid, seg, n, frames, complete) && seg.va + seg.size <= VA_LOWMAX + 1
    requires seg.va + seg.size <= PageAt(seg, n) && (n > 0 ==> PageAt(seg, n) < seg.va + seg.size + 0x1000)
    ensures Advanced(x.shape, x.t, y.shape, y.t, root) && OwnerGrown(x.owner, y.owner)
    ensures Provided(x.stock, y.stock, PagesOf(seg),
                     Walk(x.t, root, 0).level == 0 && seg.va + seg.size <= MEMSIZE_VIRTUAL,
                     Walk(x.t, root, STACK_PAGE).level, Walk(y.t, root, STACK_PAGE).level, complete)
    ensures Walk(y.t, root, 0).level <= Walk(x.t, root, 0).level
    ensures StillGiven(x.t, y.t, root, pid, x.owner, y.owner)
    ensures seg.va >= PROC_START_ADDR ==> SameBelow(x.t, y.t, root)
    ensures complete ==> SegmentGiven(y.t, root, seg, pid, y.owner)
    ensures complete && NULL_PAGE !in x.owner ==> NULL_PAGE !in y.owner
    ensures SameOff(x.t, y.t, root, Start(seg), EndOf(seg))
    ensures complete && Here(x.t, root, seg) ==> SegmentLanded(x.stock.free, y.stock.free, y.t, root, seg)
  {
    hide Walk, Translate, Advanced, OwnerGrown, Provided, StillGiven, SameBelow, SameOff, Given, Tracked, PagesOf,
         EndOf, Landed, Consecutive;
    AllPages(seg, n);
    EndAfter(seg, n);
    if complete {
      GivenLess(y.t, root, Start(seg), PageAt(seg, n), seg.va + seg.size, pid, y.owner);
      SegmentTracked(x.stock.free, y.stock.free, y.t, root, seg, frames, Here(x.t, root, seg));
    }
  }

  /** A segment takes as many pages as it lies in, and its copy will land in them exactly if the lowest ones that were
      left follow each other. */
  ghost predicate SegmentLanded(before: set<nat>, after: set<nat>, t: Tables, root: nat, seg: Segment) {
    && |after| + PagesOf(seg) == |before|
    && (seg.size > 0 ==> (Landed(t, root, seg) <==> Consecutive(before, PagesOf(seg))))
  }

  // ---------- What memory must look like ----------

  function Below(pages: set<nat>, p: nat): set<nat> { set q | q in pages && q < p }

  /** The pages that are left when the `k` lowest are gone. */
  function Left(pages: set<nat>, k: nat): set<nat> { set p | p in pages && |Below(pages, p)| >= k }

  /** Taking pages lowest first, it only matters how many. */
  lemma LeftUnique(pages: set<nat>, rest: set<nat>, k: nat)
    requires Lowest(pages, rest) && |rest| + k == |pages|
    ensures rest == Left(pages, k)
  {
    var gone := pages - rest;
    assert pages == gone + rest;
    assert |gone| == k;
    forall p | p in pages ensures p in rest <==> |Below(pages, p)| >= k {
      if p in rest {
        FewerThan(gone, Below(pages, p));
      } else {
        assert Below(pages, p) <= gone - {p};
        FewerThan(Below(pages, p), gone - {p});
      }
    }
  }

  lemma FewerThan(a: set<nat>, b: set<nat>)
    requires a <= b
    ensures |a| <= |b|
  {
    assert b == a + (b - a);
  }

  /** For each segment the pages it gets follow each other, when loading begins with the `skip` lowest pages gone. */
  ghost predicate Tidy(pages: set<nat>, skip: nat, segments: seq<Segment>) {
    forall i :: 0 <= i < |segments| && segments[i].size > 0 ==>
      Consecutive(Left(pages, skip + PagesOfAll(segments[..i])), PagesOf(segments[i]))
  }

  /** All below 2 MB, and no page in two of them. */
  predicate LowApart(segments: seq<Segment>) {
    && (forall i :: 0 <= i < |segments| ==> segments[i].va + segments[i].size <= 0x20_0000)
    && (forall i, j :: 0 <= i < j < |segments| ==> Apart(segments[i], segments[j]))
  }

  predicate Apart(a: Segment, b: Segment) {
    (a.va + a.size + 0xFFF) / 0x1000 <= b.va / 0x1000 || (b.va + b.size + 0xFFF) / 0x1000 <= a.va / 0x1000
  }

  /** Does the copy of a segment land in its own pages just when memory is as it should be? */
  ghost predicate LandsAs(t: Tables, root: nat, pages: set<nat>, skip: nat, segments: seq<Segment>, i: nat)
    requires i < |segments|
  {
    segments[i].size > 0 ==>
      (Landed(t, root, segments[i]) <==>
       Consecutive(Left(pages, skip + PagesOfAll(segments[..i])), PagesOf(segments[i])))
  }

  ghost predicate LandUpTo(t: Tables, root: nat, pages: set<nat>, skip: nat, segments: seq<Segment>, n: nat)
    requires n <= |segments|
  {
    forall i: nat :: i < n ==> LandsAs(t, root, pages, skip, segments, i)
  }

  lemma NextPages(segments: seq<Segment>, n: nat)
    requires n < |segments|
    ensures PagesOfAll(segments[..n + 1]) == PagesOfAll(segments[..n]) + PagesOf(segments[n])
  {
    assert segments[..n + 1][..n] == segments[..n];
  }

  lemma LandStep(t: Tables, t': Tables, root: nat, pages: set<nat>, skip: nat, segments: seq<Segment>, n: nat,
                 rest: set<nat>, rest': set<nat>)
    requires n < |segments| && LandUpTo(t, root, pages, skip, segments, n) && LowApart(segments)
    requires SameOff(t, t', root, Start(segments[n]), EndOf(segments[n]))
    requires Lowest(pages, rest) && |rest| + skip + PagesOfAll(segments[..n]) == |pages|
    requires SegmentLanded(rest, rest', t', root, segments[n])
    ensures LandUpTo(t', root, pages, skip, segments, n + 1)
    ensures |rest'| + skip + PagesOfAll(segments[..n + 1]) == |pages|
  {
    hide Landed, Consecutive, Left, PagesOf, PagesOfAll, SameOff, Lowest;
    NextPages(segments, n);
    LeftUnique(pages, rest, skip + PagesOfAll(segments[..n]));
    forall i: nat | i < n + 1 ensures LandsAs(t', root, pages, skip, segments, i) {
      if i < n {
        assert LandsAs(t, root, pages, skip, segments, i);
        assert Apart(segments[i], segments[n]);
        LandedStays(t, t', root, segments[i], Start(segments[n]), EndOf(segments[n]));
      }
    }
  }

  lemma LandedWhenTidy(t: Tables, root: nat, pages: set<nat>, skip: nat, segments: seq<Segment>)
    requires LandUpTo(t, root, pages, skip, segments, |segments|)
    ensures AllLanded(t, root, segments) <==> Tidy(pages, skip, segments)
  {
    hide Landed, Consecutive, Left, PagesOf, PagesOfAll;
    forall i | 0 <= i < |segments|
      ensures Landed(t, root, segments[i]) <==>
                (segments[i].size > 0 ==>
                  Consecutive(Left(pages, skip + PagesOfAll(segments[..i])), PagesOf(segments[i])))
    {
      assert LandsAs(t, root, pages, skip, segments, i);
      if segments[i].size == 0 { NothingLands(t, root, segments[i]); }
    }
  }

  lemma NothingLands(t: Tables, root: nat, seg: Segment)
    requires seg.size == 0
    ensures Landed(t, root, seg)
  {
  }

  /** A copy that lands in pages of the process does not stop the kernel. */
  lemma LandedNoFault(t: Tables, root: nat, seg: Segment, pid: nat, owner: map<nat, nat>, kernelEnd: nat,
                      counts: seq<nat>)
    requires SegmentGiven(t, root, seg, pid, owner) && Landed(t, root, seg) && NULL_PAGE !in owner
    requires Owned(kernelEnd, counts, t.Keys, owner)
    ensures !Faults(Translate(t, root, seg.va), seg.size)
  {
    hide Translate;
    if seg.size > 0 {
      var last := seg.va + seg.size - 1;
      assert GivenAt(t, root, seg.va, pid, owner) && GivenAt(t, root, last, pid, owner);
      assert CopiedTo(t, root, seg, last);
    }
  }

  lemma NoCopyFaults(t: Tables, root: nat, segments: seq<Segment>, pid: nat, owner: map<nat, nat>, kernelEnd: nat,
                     counts: seq<nat>)
    requires AllGiven(t, root, segments, pid, owner) && AllLanded(t, root, segments) && NULL_PAGE !in owner
    requires Owned(kernelEnd, counts, t.Keys, owner) && |counts| <= NPAGES
    ensures !Stops(t, root, segments)
  {
    hide Translate, SegmentGiven, Landed, Owned;
    forall i | 0 <= i < |segments| ensures !CopyFaults(t, root, segments[i]) {
      LandedNoFault(t, root, segments[i], pid, owner, kernelEnd, counts);
    }
  }

  lemma NoneLandUpTo(t: Tables, root: nat, pages: set<nat>, skip: nat, segments: seq<Segment>)
    ensures LandUpTo(t, root, pages, skip, segments, 0)
  {
  }

  lemma LowSegment(segments: seq<Segment>, i: nat)
    requires LowApart(segments) && i < |segments|
    ensures segments[i].va + segments[i].size <= 0x20_0000
  {
  }

  lemma LowConfined(segments: seq<Segment>)
    requires LowApart(segments)
    ensures Confined(segments)
  {
  }

  /** Some copy goes to where the kernel cannot write. */
  ghost predicate Stops(t: Tables, root: nat, segments: seq<Segment>) {
    exists i :: 0 <= i < |segments| && CopyFaults(t, root, segments[i])
  }

  /** No segment reaches the stack page. */
  predicate BelowStack(segments: seq<Segment>) {
    forall i :: 0 <= i < |segments| ==> segments[i].va + segments[i].size <= STACK_PAGE
  }

  /** The stack page moves no segment. */
  lemma LandedBelow(shape: Shape, t: Tables, t': Tables, root: nat, segments: seq<Segment>)
    requires SameElsewhere(shape, t, t', root, STACK_PAGE) && Root(shape, root) && BelowStack(segments)
    ensures AllLanded(t', root, segments) <==> AllLanded(t, root, segments)
    ensures Stops(t', root, segments) <==> Stops(t, root, segments)
  {
    hide Translate, WalksOn, Landed, SameOff, SameElsewhere, CopyFaults;
    SameOffRefl(t, root, STACK_PAGE);
    SameOffStep(shape, t, t, t', root, STACK_PAGE, STACK_PAGE);
    forall i | 0 <= i < |segments|
      ensures Landed(t', root, segments[i]) <==> Landed(t, root, segments[i])
      ensures CopyFaults(t', root, segments[i]) <==> CopyFaults(t, root, segments[i])
    {
      LandedStays(t, t', root, segments[i], STACK_PAGE, STACK_PAGE + 0x1000);
      FaultStays(t, t', root, segments[i], STACK_PAGE, STACK_PAGE + 0x1000);
    }
  }

  lemma FaultStays(t: Tables, t': Tables, root: nat, seg: Segment, from: nat, to: nat)
    requires SameOff(t, t', root, from, to) && seg.va + seg.size <= WORD
    requires seg.va + seg.size <= from || to <= seg.va
    ensures CopyFaults(t', root, seg) <==> CopyFaults(t, root, seg)
  {
    hide Translate;
  }

  /** No address of the tree is mapped differently. */
  ghost predicate SameTree(t: Tables, t': Tables, root: nat) {
    forall va: nat :: va < WORD ==> Translate(t', root, va) == Translate(t, root, va)
  }

  lemma SameTreeRefl(t: Tables, root: nat)
    ensures SameTree(t, t, root)
  {
    hide Translate;
  }

  lemma OtherTree(shape: Shape, t: Tables, shape': Shape, t': Tables, root: nat, root': nat)
    requires Advanced(shape, t, shape', t', root) && Root(shape, root') && root' != root
    ensures SameTree(t, t', root')
  {
    hide Translate, WalksOn;
  }

  lemma ImageStays(t: Tables, t': Tables, root: nat, segments: seq<Segment>)
    requires SameTree(t, t', root) && Bounded(segments)
    ensures AllLanded(t', root, segments) <==> AllLanded(t, root, segments)
    ensures Stops(t', root, segments) <==> Stops(t, root, segments)
  {
    hide Translate, WalksOn, Landed, SameOff, CopyFaults;
    assert SameOff(t, t', root, WORD, WORD) by { TreeOff(t, t', root); }
    forall i | 0 <= i < |segments|
      ensures Landed(t', root, segments[i]) <==> Landed(t, root, segments[i])
      ensures CopyFaults(t', root, segments[i]) <==> CopyFaults(t, root, segments[i])
    {
      LandedStays(t, t', root, segments[i], WORD, WORD);
      FaultStays(t, t', root, segments[i], WORD, WORD);
    }
  }

  lemma TreeOff(t: Tables, t': Tables, root: nat)
    requires SameTree(t, t', root)
    ensures SameOff(t, t', root, WORD, WORD)
  {
    hide Translate;
  }

  // ---------- Memory that is not tidy ----------

  /** Sixty pages from the first address for processes on. */
  const SPREAD: Segment := Segment(PROC_START_ADDR, 60 * 0x1000)

  function Range(a: nat, b: nat): (r: set<nat>)
    requires a <= b
    ensures |r| == b - a && forall i :: i in r <==> a <= i < b
    decreases b
  {
    if a == b then {} else Range(a, b - 1) + {b - 1}
  }

  lemma SpreadFits(segments: seq<Segment>)
    requires segments == [SPREAD]
    ensures LowApart(segments) && Bounded(segments) && BelowStack(segments) && PagesOfAll(segments) == 60
    ensures PagesOf(SPREAD) == 60 && PagesOfAll(segments[..0]) == 0
  {
    assert segments[..0] == [];
    assert segments[..1] == segments;
  }

  /** When nothing is allocated yet, there is room for such a segment, but not in one row below the kernel. */
  lemma Scattered(kernelEnd: nat, counts: seq<nat>)
    requires |counts| == NPAGES && forall i :: 0 <= i < NPAGES ==> counts[i] == 0
    requires KERNEL_START < kernelEnd <= KERNEL_STACK
    ensures var pages := FreePages(kernelEnd, counts); |pages| >= 256 && !Tidy(pages, 4, [SPREAD])
  {
    hide PagesOf, PagesOfAll, Consecutive, FreePages, Left, Range;
    var pages, segments := FreePages(kernelEnd, counts), [SPREAD];
    FreshPages(kernelEnd, counts);
    FewerThan(Range(0x100, 0x200), pages);
    SpreadFits(segments);
    NotInARow(pages);
    assert segments[0] == SPREAD && SPREAD.size > 0;
    assert !Consecutive(Left(pages, 4 + PagesOfAll(segments[..0])), PagesOf(segments[0]));
  }

  lemma FreshPages(kernelEnd: nat, counts: seq<nat>)
    requires |counts| == NPAGES && forall i :: 0 <= i < NPAGES ==> counts[i] == 0
    requires KERNEL_START < kernelEnd <= KERNEL_STACK
    ensures var pages := FreePages(kernelEnd, counts);
            && 0 !in pages && KERNEL_START !in pages
            && Range(1, KERNEL_START) <= pages && Range(0x100, 0x200) <= pages
  {
    hide Range;
  }

  lemma NotInARow(pages: set<nat>)
    requires 0 !in pages && KERNEL_START !in pages && Range(1, KERNEL_START) <= pages
    ensures !Consecutive(Left(pages, 4), 60)
  {
    hide Range, Left;
    var left := Left(pages, 4);
    forall p: nat | p <= KERNEL_START ensures p in left <==> 5 <= p < KERNEL_START { LeftBelow(pages, p); }
    forall first: nat ensures !Row(left, first, 60) {
      assert 5 in left && KERNEL_START !in left;
    }
  }

  lemma LeftBelow(pages: set<nat>, p: nat)
    requires 0 !in pages && KERNEL_START !in pages && Range(1, KERNEL_START) <= pages && p <= KERNEL_START
    ensures p in Left(pages, 4) <==> 5 <= p < KERNEL_START
  {
    hide Range;
    assert p > 0 ==> Below(pages, p) == Range(1, p);
  }

  // ---------- What comes of setting up a process ----------

  /** When the kernel does not stop, everything is there exactly if there were the pages. It stops only for want of
      pages or at a copy gone astray. For low segments, copies go where they should exactly when memory is tidy. */
  ghost predicate SetUp(before: set<nat>, after: set<nat>, segments: seq<Segment>, made: bool, up: bool, complete: bool,
                        clean: bool) {
    var need := TREE_PAGES + PagesOfAll(segments) + 1;
    && (made <==> |before| > 0) && (up ==> made) && (complete ==> up)
    && (up ==> Lowest(before, after))
    && (complete ==> |before| >= need)
    && (Confined(segments) ==> (complete <==> up && |before| >= need))
    && (Confined(segments) && complete ==> |after| == |before| - need)
    && (!complete && (up || clean) ==> |after| == 0)
    && (Confined(segments) && clean && |before| >= need ==> complete)
    && (LowApart(segments) && |before| >= need ==> (clean <==> Tidy(before, 4, segments)))
  }

  lemma NotSetUp(pages: set<nat>, segments: seq<Segment>)
    requires pages == {}
    ensures SetUp(pages, pages, segments, false, false, false, true)
  {
  }

  lemma RootTaken(pages: set<nat>, root: nat)
    requires Least(pages, root)
    ensures Lowest(pages, pages - {root}) && |pages - {root}| + 1 == |pages|
  {
  }

  lemma SetUpBy(before: Stock, root: nat, made: Stock, after: Stock, segments: seq<Segment>, up: bool, complete: bool,
                clean: bool)
    requires Least(before.free, root) && made == Stock(before.free - {root}, before.tables + 1)
    requires up ==> Filled(made, after, PagesOfAll(segments) + 1, Confined(segments), complete)
    requires !up ==> !complete && Stopped(made, after, PagesOfAll(segments) + 1, Confined(segments), clean)
    requires complete ==> after.tables >= before.tables + TREE_PAGES
    requires Enough(made, PagesOfAll(segments) + 1) && LowApart(segments) ==>
             (clean <==> Tidy(before.free, 4, segments))
    ensures SetUp(before.free, after.free, segments, true, up, complete, clean)
  {
    hide Lowest, Confined, LowApart, Tidy, PagesOfAll, Filled, Least;
    RootTaken(before.free, root);
    if up {
      SetupBudget(before, root, made, after, PagesOfAll(segments) + 1, Confined(segments), complete);
    }
  }

  lemma UpTree(after: set<nat>, before: set<nat>, segments: seq<Segment>, made: bool, up: bool, complete: bool,
               clean: bool)
    requires SetUp(before, after, segments, made, up, complete, clean)
    ensures (up ==> made) && (complete ==> up)
  {
  }

  // ---------- And several ----------

  predicate AllLow(programs: seq<Program>) { forall p :: 0 <= p < |programs| ==> LowApart(programs[p].segments) }

  predicate AllBelowStack(programs: seq<Program>) {
    forall p :: 0 <= p < |programs| ==> BelowStack(programs[p].segments)
  }

  /** Memory is tidy for each of the first `n` programs when its turn comes. */
  ghost predicate AllTidy(pages: set<nat>, programs: seq<Program>, n: nat)
    requires n <= |programs|
  {
    forall p: nat :: p < n ==> TidyFor(pages, programs, p)
  }

  ghost predicate TidyFor(pages: set<nat>, programs: seq<Program>, p: nat)
    requires p < |programs|
  {
    Tidy(Left(pages, PagesForAll(programs[..p])), 4, programs[p].segments)
  }

  /** The first `n` programs are set up. */
  ghost predicate AllSetUp(before: set<nat>, after: set<nat>, programs: seq<Program>, n: nat, up: bool, complete: bool,
                           clean: bool)
    requires n <= |programs|
  {
    var need := PagesForAll(programs[..n]);
    && (complete ==> up) && (up ==> Lowest(before, after))
    && (!complete && (up || clean) ==> |after| == 0)
    && (AllConfined(programs) ==> (complete <==> up && |before| >= need))
    && (AllConfined(programs) && complete ==> |after| == |before| - need)
    && (AllConfined(programs) && clean && |before| >= need ==> complete)
    && (AllConfined(programs) && up && n > 0 ==> |before| > PagesForAll(programs[..n - 1]))
    && (AllLow(programs) && |before| >= need ==> (clean <==> AllTidy(before, programs, n)))
  }

  lemma NoneSetUp(pages: set<nat>, programs: seq<Program>)
    ensures AllSetUp(pages, pages, programs, 0, true, true, true)
  {
    LowestRefl(pages);
    assert programs[..0] == [];
  }

  lemma LowAreConfined(programs: seq<Program>)
    requires AllLow(programs)
    ensures AllConfined(programs)
  {
    hide LowApart, Confined;
    forall p | 0 <= p < |programs| ensures Confined(programs[p].segments) { LowConfined(programs[p].segments); }
  }

  lemma OneMoreSetUp(pages: set<nat>, before: set<nat>, after: set<nat>, programs: seq<Program>, n: nat, made: bool,
                     complete: bool, clean: bool, up': bool, complete': bool, clean': bool)
    requires n < |programs| && AllSetUp(pages, before, programs, n, true, complete, clean)
    requires SetUp(before, after, programs[n].segments, made, up', complete', clean')
    ensures AllSetUp(pages, after, programs, n + 1, up', complete && complete', clean && clean')
  {
    hide Lowest, LowApart, Confined, Tidy, Left, PagesForAll, PagesOfAll;
    OneMoreProgram(programs, n);
    LowestWhenUp(pages, before, after, up');
    if AllLow(programs) {
      LowAreConfined(programs);
      if |pages| >= PagesForAll(programs[..n + 1]) {
        LeftUnique(pages, before, PagesForAll(programs[..n]));
        assert AllTidy(pages, programs, n + 1) <==> AllTidy(pages, programs, n) && TidyFor(pages, programs, n);
      }
    }
  }

  lemma LowestWhenUp(a: set<nat>, b: set<nat>, c: set<nat>, up: bool)
    requires Lowest(a, b) && (up ==> Lowest(b, c))
    ensures up ==> Lowest(a, c)
  {
    if up { LowestTrans(a, b, c); }
  }

  /** Once the kernel has stopped, no further process is set up. */
  lemma AllOrStopped(before: set<nat>, after: set<nat>, programs: seq<Program>, n: nat, up: bool, complete: bool,
                     clean: bool)
    requires n <= |programs| && AllSetUp(before, after, programs, n, up, complete, clean) && (up ==> n == |programs|)
    ensures AllSetUp(before, after, programs, |programs|, up, complete, clean) && (complete ==> up)
  {
    hide Lowest, LowApart, Confined, TidyFor, PagesForAll;
    PagesMonotone(programs, n, |programs|);
    if AllLow(programs) { LowAreConfined(programs); }
  }

  lemma WhenSetUp(before: set<nat>, after: set<nat>, programs: seq<Program>, up: bool, complete: bool, clean: bool)
    requires AllSetUp(before, after, programs, |programs|, up, complete, clean)
    ensures (complete ==> up) && (!complete && up ==> |after| == 0)
    ensures AllConfined(programs) ==> (complete <==> up && |before| >= PagesForAll(programs))
    ensures AllConfined(programs) && complete ==> |after| == |before| - PagesForAll(programs)
    ensures AllConfined(programs) && clean ==> (complete <==> |before| >= PagesForAll(programs))
    ensures AllLow(programs) ==>
              (complete && clean <==> |before| >= PagesForAll(programs) && AllTidy(before, programs, |programs|))
    ensures AllConfined(programs) && up ==> programs == [] || |before| > PagesForAll(programs[..|programs| - 1])
  {
    hide Lowest, LowApart, Confined, TidyFor, PagesForAll;
    assert programs[..|programs|] == programs;
    if AllLow(programs) { LowAreConfined(programs); }
  }
}
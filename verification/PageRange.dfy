/** The permissions common to a range of addresses. */
module PageRange {
  import opened PageTable
  import opened PageWalk

  /** Does `p` contain all the permissions in `desired`? */
  predicate Has(p: Flags, desired: Flags) { p & desired == desired }

  predicate Maps(p: Flags) { p & P == P }

  lemma HasBoth(p: Flags, q: Flags, desired: Flags)
    ensures Has(p & q, desired) <==> Has(p, desired) && Has(q, desired)
  {
    if Has(p & q, desired) {
      HasFirst(p, q, desired);
      assert q & p == p & q;
      HasFirst(q, p, desired);
    } else if Has(p, desired) {
      HasOnly(p, q, desired);
    }
  }

  lemma HasFirst(p: Flags, q: Flags, desired: Flags)
    requires Has(p & q, desired)
    ensures Has(p, desired)
  {
  }

  lemma HasOnly(p: Flags, q: Flags, desired: Flags)
    requires Has(p, desired)
    ensures Has(p & q, desired) <==> Has(q, desired)
  {
    assert (p & q) & desired == q & (p & desired);
  }

  lemma MissingPresent(p: Flags, desired: Flags)
    requires Maps(desired) && !Maps(p)
    ensures !Has(p, desired)
  {
  }

  lemma PresentItself()
    ensures Maps(P) && !Maps(0) && forall p: Flags :: Maps(p) <==> Has(p, P)
  {
  }

  /** What the processor grants at an address. */
  function PermissionAt(t: Tables, root: nat, va: nat): Flags {
    var x := Translate(t, root, va);
    if x.Mapped? then x.perm else 0
  }

  /** Is every address a real one that grants these permissions? */
  ghost predicate GrantedOn(t: Tables, root: nat, from: nat, to: nat, desired: Flags) {
    (from < to ==> to <= WORD) && forall a: nat :: from <= a < to ==> Has(PermissionAt(t, root, a), desired)
  }

  /** `p` is the intersection of the permissions of a range: it contains the present bit, with whatever others,
      exactly when every address of the range grants them. */
  ghost predicate IsIntersection(t: Tables, root: nat, from: nat, to: nat, p: Flags) {
    forall desired: Flags :: Maps(desired) ==> (Has(p, desired) <==> GrantedOn(t, root, from, to, desired))
  }

  lemma Refused(t: Tables, root: nat, from: nat, to: nat, a: nat, desired: Flags)
    requires from <= a < to && (a >= WORD || !Has(PermissionAt(t, root, a), desired))
    ensures !GrantedOn(t, root, from, to, desired)
  {
    var p := PermissionAt(t, root, a);
  }

  lemma IntersectionOfOne(t: Tables, root: nat, va: nat)
    requires va < WORD
    ensures IsIntersection(t, root, va, va + 1, PermissionAt(t, root, va))
  {
    hide Has, Maps, PermissionAt;
  }

  lemma EndUnmapped(t: Tables, root: nat, limit: nat)
    requires limit == VA_LOWMAX + 1
    ensures PermissionAt(t, root, limit) == 0
  {
  }

  lemma PastTheEnd(t: Tables, root: nat, from: nat, to: nat, limit: nat)
    requires from < limit < to && (limit == VA_LOWMAX + 1 || limit == WORD)
    ensures IsIntersection(t, root, from, to, 0)
  {
    hide Has, Maps, PermissionAt;
    PresentItself();
    forall desired: Flags | Maps(desired) ensures !Has(0, desired) && !GrantedOn(t, root, from, to, desired) {
      MissingPresent(0, desired);
      if limit < WORD { EndUnmapped(t, root, limit); }
      Refused(t, root, from, to, limit, desired);
    }
  }

  lemma Narrower(t: Tables, root: nat, from: nat, mid: nat, to: nat, desired: Flags)
    requires mid <= to && !GrantedOn(t, root, from, mid, desired)
    ensures !GrantedOn(t, root, from, to, desired)
  {
    hide Has, PermissionAt;
    if from >= mid || mid <= WORD {
      var a: nat :| from <= a < mid && !Has(PermissionAt(t, root, a), desired);
    }
  }

  lemma NotAllMapped(t: Tables, root: nat, from: nat, mid: nat, to: nat, p: Flags)
    requires mid <= to && !Maps(p) && IsIntersection(t, root, from, mid, p)
    ensures IsIntersection(t, root, from, to, p) && IsIntersection(t, root, from, to, 0)
  {
    hide Has, Maps, PermissionAt;
    PresentItself();
    forall desired: Flags | Maps(desired)
      ensures !Has(p, desired) && !Has(0, desired) && !GrantedOn(t, root, from, to, desired)
    {
      MissingPresent(p, desired);
      MissingPresent(0, desired);
      Narrower(t, root, from, mid, to, desired);
    }
  }

  lemma MappedCanonical(t: Tables, root: nat, x: nat)
    requires Maps(PermissionAt(t, root, x))
    ensures Canonical(x)
  {
  }

  lemma AllMapped(t: Tables, root: nat, from: nat, x: nat, to: nat, p: Flags)
    requires from <= x < to && Maps(p) && IsIntersection(t, root, from, to, p)
    ensures x < WORD && Canonical(x)
  {
    hide Has, Maps, PermissionAt;
    PresentItself();
    assert Has(p, P);
    assert GrantedOn(t, root, from, to, P);
    MappedCanonical(t, root, x);
  }

  /** Inside one mapping range the permissions are the same. */
  lemma UniformRange(t: Tables, root: nat, x: nat, a: nat)
    requires x < WORD && a < WORD && Canonical(x)
    requires var l := Walk(t, root, x).level; x / Span(l) == a / Span(l)
    ensures PermissionAt(t, root, a) == PermissionAt(t, root, x)
  {
    hide Down, Canonical, PhysicalAddress, Perm, EntryAt;
    var s := Walk(t, root, x);
    UniformCanonical(x, a, s.level);
    UniformStop(t, root, x, a);
  }

  lemma UniformCanonical(x: nat, a: nat, level: nat)
    requires x < WORD && a < WORD && level <= 3 && x / Span(level) == a / Span(level)
    ensures Canonical(x) <==> Canonical(a)
  {
    QuotientUp(x, a, level, 3);
    CanonicalByQuotient(x);
    CanonicalByQuotient(a);
  }

  lemma UniformStop(t: Tables, root: nat, x: nat, a: nat)
    requires var l := Walk(t, root, x).level; x / Span(l) == a / Span(l)
    ensures Walk(t, root, a) == Walk(t, root, x)
    ensures PageIndex(a, Walk(t, root, x).level) == PageIndex(x, Walk(t, root, x).level)
  {
    var s := Walk(t, root, x);
    QuotientUp(x, a, s.level, s.level + 1);
    ResumeWalk(t, root, 3, ALL, x, a);
    DownStops(t, root, 3, ALL, x);
  }

  /** The rest of the mapping range around `x` adds nothing. */
  lemma RestOfRange(t: Tables, root: nat, from: nat, x: nat, to: nat, p: Flags)
    requires from <= x < to && x < WORD && Canonical(x) && IsIntersection(t, root, from, x + 1, p)
    requires var l := Walk(t, root, x).level; var s := Span(l); to <= x - Offset(x, l) + s && to <= WORD
    ensures IsIntersection(t, root, from, to, p)
  {
    hide Has, Maps, PermissionAt, Walk, Canonical;
    var l := Walk(t, root, x).level;
    forall a: nat | x < a < to ensures PermissionAt(t, root, a) == PermissionAt(t, root, x) {
      SameQuotient(x, a, l);
      UniformRange(t, root, x, a);
    }
    forall desired: Flags | Maps(desired)
      ensures GrantedOn(t, root, from, x + 1, desired) <==> GrantedOn(t, root, from, to, desired)
    {
      hide Span;
      assert GrantedOn(t, root, from, x + 1, desired) ==> Has(PermissionAt(t, root, x), desired);
    }
  }

  lemma SameQuotient(x: nat, a: nat, level: nat)
    requires level <= 3 && x <= a < x - Offset(x, level) + Span(level)
    ensures x / Span(level) == a / Span(level)
  {
  }

  lemma MultipleAligned(q: nat, level: nat)
    requires level <= 3
    ensures Offset(q * Span(level), level) == 0
  {
    if level == 0 { assert q * 0x1000 % 0x1000 == 0; }
    else if level == 1 { assert q * 0x20_0000 % 0x20_0000 == 0; }
    else if level == 2 { assert q * 0x4000_0000 % 0x4000_0000 == 0; }
    else { assert q * 0x80_0000_0000 % 0x80_0000_0000 == 0; }
  }

  lemma OffsetWithin(x: nat, level: nat)
    requires level <= 3
    ensures x == x / Span(level) * Span(level) + Offset(x, level) && Offset(x, level) < Span(level)
  {
    hide Span;
  }

  lemma NextFloor(x: nat, level: nat)
    requires level <= 3
    ensures var n := (x / Span(level) + 1) * Span(level);
            n == x - Offset(x, level) + Span(level) && Offset(n, level) == 0 && n > x
  {
    hide Span, Offset;
    var q, s := x / Span(level), Span(level);
    MultipleAligned(q + 1, level);
    OffsetWithin(x, level);
    assert (q + 1) * s == q * s + s;
  }

  /** Going from one span to the next either stays in the larger span around it or begins the next larger one. */
  lemma {:induction false} SameOrAligned(x: nat, n: nat, level: nat, level': nat)
    requires level <= level' <= 3 && n == (x / Span(level) + 1) * Span(level)
    ensures n / Span(level') == x / Span(level') || (Offset(n, level') == 0 && n / Span(level') == x / Span(level') + 1)
    decreases level'
  {
    if level == level' {
      NextFloor(x, level);
    } else {
      SameOrAligned(x, n, level, level' - 1);
      QuotientStep(x, level' - 1);
      QuotientStep(n, level' - 1);
      CarryUp(n, level' - 1);
    }
  }

  lemma CarryUp(n: nat, level: nat)
    requires level <= 2
    ensures Offset(n, level) == 0 && n / Span(level) % 512 == 0 <==> Offset(n, level + 1) == 0
  {
    QuotientStep(n, level);
    var q, b := n / Span(level), n / Span(level + 1);
    RestOf(n, level);
    RestOf(n, level + 1);
    assert q - 512 * b == q % 512;
    assert Span(level + 1) * b == Span(level) * (512 * b) by { if level == 0 {} else if level == 1 {} else {} }
    CarryLinear(n, level, q, b);
  }

  lemma RestOf(n: nat, level: nat)
    requires level <= 3
    ensures n % Span(level) == n - Span(level) * (n / Span(level))
  {
  }

  lemma CarryLinear(n: nat, level: nat, q: nat, b: nat)
    requires level <= 2 && Span(level) * q <= n < Span(level) * q + Span(level) && 512 * b <= q < 512 * b + 512
    ensures n - Span(level) * q == 0 && q - 512 * b == 0 <==> n - Span(level) * (512 * b) == 0
  {
    if level == 0 {} else if level == 1 {} else {}
  }

  lemma {:induction false} AlignedBelow(n: nat, level: nat, level': nat)
    requires level' <= level <= 3 && Offset(n, level) == 0
    ensures Offset(n, level') == 0
  {
    if level' < level {
      CarryUp(n, level - 1);
      AlignedBelow(n, level - 1, level');
    }
  }

  /** The address after a mapping range begins the next one, whatever its level. */
  lemma NextBegins(t: Tables, root: nat, x: nat, n: nat)
    requires var l := Walk(t, root, x).level; n == (x / Span(l) + 1) * Span(l)
    ensures Offset(n, Walk(t, root, n).level) == 0
  {
    hide Walk, Span, Offset;
    var l, l' := Walk(t, root, x).level, Walk(t, root, n).level;
    NextFloor(x, l);
    if l' <= l {
      AlignedBelow(n, l, l');
    } else {
      SameOrAligned(x, n, l, l');
      if n / Span(l') == x / Span(l') { UniformStop(t, root, n, x); }
    }
  }

  /** The range around a 64-bit address ends with the address space. */
  lemma FloorWithin(x: nat, level: nat)
    requires level <= 3 && x < WORD
    ensures x - Offset(x, level) + Span(level) <= WORD
  {
  }

  lemma OneMore(t: Tables, root: nat, from: nat, x: nat, p: Flags)
    requires from <= x < WORD && IsIntersection(t, root, from, x, p)
    ensures IsIntersection(t, root, from, x + 1, p & PermissionAt(t, root, x))
  {
    hide Has, Maps, PermissionAt;
    var q := PermissionAt(t, root, x);
    forall desired: Flags | Maps(desired) ensures Has(p & q, desired) <==> GrantedOn(t, root, from, x + 1, desired) {
      HasBoth(p, q, desired);
      assert GrantedOn(t, root, from, x + 1, desired) <==> GrantedOn(t, root, from, x, desired) && Has(q, desired);
    }
  }

  /** A scan of the range up to `to` has reached `x`, whose mapping range is at this level: `size` is what is left,
      counted from the start of that range. */
  ghost predicate Scanned(t: Tables, root: nat, from: nat, to: nat, x: nat, level: nat, size: int, p: Flags) {
    && from <= x < to && level <= 3 && IsIntersection(t, root, from, x + 1, p)
    && (Maps(p) ==> level == Walk(t, root, x).level && size + x == to + Offset(x, level))
  }

  /** One round of the scan. */
  lemma ScanStep(t: Tables, root: nat, from: nat, to: nat, x: nat, level: nat, size: int, p: Flags, next: nat,
                 level': nat)
    requires Scanned(t, root, from, to, x, level, size, p) && Maps(p) && size > Span(level) && to <= WORD
    requires next == (x / Span(level) + 1) * Span(level) % WORD && level' <= 3
    requires Canonical(next) ==> level' == Walk(t, root, next).level
    ensures Scanned(t, root, from, to, next, level', size - Span(level), p & PermissionAt(t, root, next))
  {
    hide Has, Maps, PermissionAt, IsIntersection, Walk, Span, Offset, Canonical;
    NextFloor(x, level);
    AllMapped(t, root, from, x, x + 1, p);
    RestOfRange(t, root, from, x, next, p);
    OneMore(t, root, from, next, p);
    var q := p & PermissionAt(t, root, next);
    if Maps(q) {
      AllMapped(t, root, from, next, next + 1, q);
      NextBegins(t, root, x, next);
    }
  }

  /** The end of the scan: `to` is reached inside the mapping range around `x`, or some address is not mapped. */
  lemma ScanEnd(t: Tables, root: nat, from: nat, to: nat, x: nat, level: nat, size: int, p: Flags)
    requires Scanned(t, root, from, to, x, level, size, p) && (Maps(p) ==> size <= Span(level)) && to <= WORD
    ensures IsIntersection(t, root, from, to, p)
  {
    hide Has, Maps, PermissionAt, IsIntersection, Walk, Span, Offset, Canonical;
    if Maps(p) {
      AllMapped(t, root, from, x, x + 1, p);
      RestOfRange(t, root, from, x, to, p);
    } else {
      NotAllMapped(t, root, from, x + 1, to, p);
    }
  }

  /** When only the first address is looked at, the result is right exactly if the others grant no less. */
  lemma OnlyTheFirst(t: Tables, root: nat, va: nat, to: nat)
    requires va < to
    ensures var p := PermissionAt(t, root, va);
            Maps(p) ==> (IsIntersection(t, root, va, to, p) <==> GrantedOn(t, root, va, to, p))
  {
    hide Maps, Has;
    var p := PermissionAt(t, root, va);
    assert Has(p, p) by { HasItself(p); }
    if Maps(p) && GrantedOn(t, root, va, to, p) {
      forall desired: Flags | Maps(desired) ensures Has(p, desired) <==> GrantedOn(t, root, va, to, desired) {
        if Has(p, desired) {
          GrantedLess(t, root, va, to, p, desired);
        } else {
          Refused(t, root, va, to, va, desired);
        }
      }
    }
  }

  /** Every permission is granted on no addresses. */
  lemma OfNothing(t: Tables, root: nat, va: nat, p: Flags)
    ensures IsIntersection(t, root, va, va, p) <==> p == ALL
  {
    hide PermissionAt;
    assert Maps(ALL) && (Has(p, ALL) <==> p == ALL);
    assert p == ALL ==> forall desired: Flags :: Has(p, desired);
    assert GrantedOn(t, root, va, va, ALL);
  }

  lemma GrantedLess(t: Tables, root: nat, from: nat, to: nat, p: Flags, desired: Flags)
    requires GrantedOn(t, root, from, to, p) && Has(p, desired)
    ensures GrantedOn(t, root, from, to, desired)
  {
    forall a: nat | from <= a < to ensures Has(PermissionAt(t, root, a), desired) {
      HasMore(PermissionAt(t, root, a), p, desired);
    }
  }

  lemma HasItself(p: Flags)
    ensures Has(p, p)
  {
  }

  lemma HasMore(q: Flags, p: Flags, desired: Flags)
    requires Has(q, p) && Has(p, desired)
    ensures Has(q, desired)
  {
  }

  // ---------- A page is mapped as a whole ----------

  lemma WholePage(t: Tables, root: nat, va: nat, va': nat)
    requires va < WORD && va' < WORD && va / 0x1000 == va' / 0x1000
    ensures var x, x' := Translate(t, root, va), Translate(t, root, va');
            x.Mapped? == x'.Mapped?
                && (x.Mapped? ==> x.perm == x'.perm && x.pa / 0x1000 == x'.pa / 0x1000 && x'.pa - x.pa == va' - va)
  {
    hide Walk, Canonical, Perm, EntryAt, PageIndex;
    UniformCanonical(va, va', 0);
    if Canonical(va) {
      var s := Walk(t, root, va);
      QuotientUp(va, va', 0, s.level);
      UniformStop(t, root, va, va');
      SamePhysicalPage(StopEntry(t, s, va), s.level, va, va');
    }
  }

  /** So is the whole range of a walk's level, however large: physical addresses grow with virtual ones, from the frame
      on, without its lowest bit when the page is a large one. */
  lemma WholeRange(t: Tables, root: nat, va: nat, va': nat)
    requires va < WORD && va' < WORD
    requires var l := Walk(t, root, va).level; va / Span(l) == va' / Span(l)
    ensures var x, x' := Translate(t, root, va), Translate(t, root, va');
            x.Mapped? == x'.Mapped? && (x.Mapped? ==> x.perm == x'.perm && x'.pa - x.pa == va' - va)
    ensures var x, s := Translate(t, root, va), Walk(t, root, va);
            x.Mapped? ==>
              var start, frame := x.pa - va % Span(s.level), StopEntry(t, s, va).frame * 0x1000;
              if s.level == 0 then start == frame else start % 0x2000 == 0 && start <= frame < start + 0x2000
  {
    hide Walk, Canonical, Perm, EntryAt, PageIndex, Span;
    var s := Walk(t, root, va);
    UniformCanonical(va, va', s.level);
    if Canonical(va) {
      UniformStop(t, root, va, va');
      SameSpanDistance(va, va', s.level);
    }
  }

  lemma SamePhysicalPage(e: Entry, level: nat, va: nat, va': nat)
    requires level <= 3 && va / 0x1000 == va' / 0x1000
    ensures PhysicalAddress(e, level, va) / 0x1000 == PhysicalAddress(e, level, va') / 0x1000
    ensures PhysicalAddress(e, level, va') - PhysicalAddress(e, level, va) == va' - va
  {
    var frame := if level > 0 then e.frame - e.frame % 2 else e.frame;
    QuotientUp(va, va', 0, level);
    PageWithin(va, level);
    PageWithin(va', level);
    SameSpanDistance(va, va', level);
    assert (frame * 0x1000 + va % Span(level)) / 0x1000 == frame + va % Span(level) / 0x1000;
    assert (frame * 0x1000 + va' % Span(level)) / 0x1000 == frame + va' % Span(level) / 0x1000;
  }

  lemma SameSpanDistance(va: nat, va': nat, level: nat)
    requires level <= 3 && va / Span(level) == va' / Span(level)
    ensures va' % Span(level) - va % Span(level) == va' - va
  {
  }

  lemma PageWithin(va: nat, level: nat)
    requires level <= 3
    ensures va % Span(level) / 0x1000 == va / 0x1000 - va / Span(level) * (Span(level) / 0x1000)
  {
    var n, off := va / Span(level), va % Span(level);
    if level == 0 { assert va == 0x1000 * n + off; }
    else if level == 1 { assert va == 0x1000 * (0x200 * n) + off; }
    else if level == 2 { assert va == 0x1000 * (0x4_0000 * n) + off; }
    else { assert va == 0x1000 * (0x800_0000 * n) + off; }
  }

  /** A mapped page, address by address. */
  lemma MappedPage(t: Tables, root: nat, va: nat, a: nat, frame: nat, p: Flags)
    requires va < WORD && a < WORD && va % 0x1000 == 0 && a / 0x1000 == va / 0x1000
    requires Translate(t, root, va) == Mapped(frame * 0x1000, p)
    ensures Translate(t, root, a) == Mapped(frame * 0x1000 + (a - va), p)
    ensures (frame * 0x1000 + (a - va)) / 0x1000 == frame
  {
    WholePage(t, root, va, a);
  }
}

/** x86-64 four-level page tables in memory, and the walk that translates a virtual address.
    Physical and virtual pages are numbered; an entry is the page number in bits 12 to 51 and the low 12 bits. */
module PageTable {

  /** The low twelve bits of a page-table entry. */
  type Flags = bv12

  const P: Flags := 0x1
  const W: Flags := 0x2
  const U: Flags := 0x4
  const PS: Flags := 0x80
  const PWU: Flags := 0x7
  const ALL: Flags := 0xFFF

  datatype Entry = Entry(frame: nat, flags: Flags)

  const ZERO := Entry(0, 0)

  type Table = s: seq<Entry> | |s| == 512 witness seq(512, i => Entry(0, 0))

  /** The page-table pages in physical memory, by page number. */
  type Tables = map<nat, Table>

  function ZeroTable(): Table { seq(512, i => ZERO) }

  // ---------- Addresses (x86-64.h) ----------

  const VA_LOWMAX: nat := 0x0000_7FFF_FFFF_FFFF
  const VA_HIGHMIN: nat := 0xFFFF_8000_0000_0000
  const VA_NONCANONMAX: nat := 0x0000_FFFF_FFFF_FFFF
  const WORD: nat := 0x1_0000_0000_0000_0000
  const SPACE: nat := 0x1_0000_0000_0000

  /** The number of bytes one entry at this level stands for: 4 KB, 2 MB, 1 GB, 512 GB. */
  function Span(level: nat): nat
    requires level <= 4
    ensures Span(level) > 0
  {
    if level == 0 then 0x1000
    else if level == 1 then 0x20_0000
    else if level == 2 then 0x4000_0000
    else if level == 3 then 0x80_0000_0000
    else 0x1_0000_0000_0000
  }

  function PageIndex(va: nat, level: nat): nat
    requires level <= 3
    ensures PageIndex(va, level) < 512
  {
    va / Span(level) % 512
  }

  /** pageoffset: how far an address lies into its span. */
  function Offset(va: nat, level: nat): nat
    requires level <= 4
  {
    va % Span(level)
  }

  predicate Canonical(va: nat) { va <= VA_LOWMAX || va >= VA_HIGHMIN }

  /** The start of the span around an address. */
  function Floor(va: nat, level: nat): nat
    requires level <= 4
  {
    va / Span(level) * Span(level)
  }

  // ---------- The walk ----------

  predicate IsTable(e: Entry) { e.flags & (P | PS) == P }

  predicate Present(e: Entry) { e.flags & P == P }

  /** What remains of the accumulated permissions below an entry. */
  function Restrict(perm: Flags, e: Entry): Flags { perm & (e.flags | (ALL ^ PWU)) }

  /** The entry of `page` for an address. A page missing from the map reads as zero. */
  function EntryAt(t: Tables, page: nat, index: nat): Entry
    requires index < 512
  {
    if page in t then t[page][index] else ZERO
  }

  /** Where a walk stops: the level and page of the last entry, and the permissions granted by those above. */
  datatype Stop = Stop(level: nat, page: nat, perm: Flags)

  function Down(t: Tables, page: nat, level: nat, perm: Flags, va: nat): (r: Stop)
    requires level <= 3
    ensures r.level <= level
    decreases level
  {
    var e := EntryAt(t, page, PageIndex(va, level));
    if level > 0 && IsTable(e) then Down(t, e.frame, level - 1, Restrict(perm, e), va)
    else Stop(level, page, perm)
  }

  function Walk(t: Tables, root: nat, va: nat): (r: Stop)
    ensures r.level <= 3
  {
    Down(t, root, 3, ALL, va)
  }

  function StopEntry(t: Tables, s: Stop, va: nat): Entry
    requires s.level <= 3
  {
    EntryAt(t, s.page, PageIndex(va, s.level))
  }

  /** The permissions of a mapping: 0 unless every entry on the way is present. */
  function Perm(e: Entry, perm: Flags): Flags {
    var ph := e.flags & perm;
    if ph & P == P then ph else 0
  }

  /** The physical address an entry at a level gives for a virtual one; large pages ignore bit 12. */
  function PhysicalAddress(e: Entry, level: nat, va: nat): nat
    requires level <= 3
  {
    (if level > 0 then e.frame - e.frame % 2 else e.frame) * 0x1000 + va % Span(level)
  }

  /** What the processor makes of an address: nothing, or a physical address with permissions. */
  datatype Translation = Unmapped | Mapped(pa: nat, perm: Flags)

  function Translate(t: Tables, root: nat, va: nat): Translation {
    if !Canonical(va) then Unmapped
    else
      var s := Walk(t, root, va);
      var e := StopEntry(t, s, va);
      var perm := Perm(e, s.perm);
      if perm == 0 then Unmapped else Mapped(PhysicalAddress(e, s.level, va), perm)
  }

  // ---------- Trees ----------

  /** A table page's place: whose tree it is in, its level, and the first address of the region it covers. */
  datatype Place = Place(root: nat, level: nat, start: nat)

  /** A witness that the tables form disjoint trees: one place for each table page. */
  type Shape = map<nat, Place>

  ghost predicate PlacedEntry(t: Tables, shape: Shape, page: nat, index: nat)
    requires page in t && page in shape && shape[page].level <= 3 && index < 512
  {
    var place := shape[page];
    var e := t[page][index];
    place.level > 0 && IsTable(e) ==>
      e.frame in shape && shape[e.frame] == Place(place.root, place.level - 1, place.start + index * Span(place.level))
  }

  /** Every page-table page has exactly one place, and table entries lead to the place they should:
      so no page is shared, and every tree is finite. */
  ghost predicate Forest(t: Tables, shape: Shape) {
    && t.Keys == shape.Keys
    && (forall page :: page in shape ==>
          shape[page].level <= 3 && (shape[page].level == 3 ==> shape[page] == Place(page, 3, 0)))
    && (forall page, index: nat :: page in shape && index < 512 ==> PlacedEntry(t, shape, page, index))
    && (forall page, index: nat :: page in shape && index < 512 ==> t[page][index].frame < 0x10_0000)
  }

  /** A tree's root. */
  ghost predicate Root(shape: Shape, root: nat) { root in shape && shape[root] == Place(root, 3, 0) }

  /** Every table page is in the tree of a root. */
  ghost predicate Rooted(shape: Shape) { forall page :: page in shape ==> Root(shape, shape[page].root) }

  /** A page-table page that stands on the way to an address. */
  ghost predicate OnPath(shape: Shape, root: nat, page: nat, level: nat, va: nat)
    requires level <= 3
  {
    page in shape && shape[page] == Place(root, level, Floor(va % SPACE, level + 1))
  }

  // ---------- Address arithmetic ----------

  lemma IndexOfFloor(va: nat, level: nat)
    requires level <= 3
    ensures Floor(va, level) == Floor(va, level + 1) + PageIndex(va, level) * Span(level)
  {
    var q := va / Span(level);
    assert va / Span(level + 1) == q / 512;
    if level == 0 {} else if level == 1 {} else if level == 2 {} else {}
  }

  lemma Mod512(a: int, q: int)
    ensures (512 * a + q) % 512 == q % 512
  {
    assert q == 512 * (q / 512) + q % 512;
    assert (512 * (a + q / 512) + q % 512) % 512 == q % 512;
  }

  function SpansPerSpace(level: nat): nat
    requires level <= 3
  {
    if level == 0 then 0x10_0000_0000 else if level == 1 then 0x800_0000 else if level == 2 then 0x4_0000 else 0x200
  }

  lemma SpaceQuotient(va: nat, level: nat)
    requires level <= 3
    ensures va / Span(level) == va / SPACE * SpansPerSpace(level) + va % SPACE / Span(level)
  {
    var h, l := va / SPACE, va % SPACE;
    assert va == h * SPACE + l;
    if level == 0 { assert va == (h * 0x10_0000_0000) * 0x1000 + l; }
    else if level == 1 { assert va == (h * 0x800_0000) * 0x20_0000 + l; }
    else if level == 2 { assert va == (h * 0x4_0000) * 0x4000_0000 + l; }
    else { assert va == (h * 0x200) * 0x80_0000_0000 + l; }
  }

  /** The bits above 47 do not matter to the indices. */
  lemma IndexLow(va: nat, level: nat)
    requires level <= 3
    ensures PageIndex(va % SPACE, level) == PageIndex(va, level)
  {
    SpaceQuotient(va, level);
    var h := va / SPACE;
    var a := if level == 0 then h * 0x800_0000 else if level == 1 then h * 0x4_0000 else if level ==
        2 then h * 0x200 else h;
    assert h * SpansPerSpace(level) == 512 * a;
    Mod512(a, va % SPACE / Span(level));
  }
}

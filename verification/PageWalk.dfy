/** How walks behave: they stay on their path, can be resumed part-way, and ignore changes elsewhere. */
module PageWalk {
  import opened PageTable

  // ---------- Walks follow the path of their address ----------

  lemma ChildOnPath(t: Tables, shape: Shape, root: nat, page: nat, level: nat, va: nat)
    requires 0 < level <= 3 && Forest(t, shape) && OnPath(shape, root, page, level, va)
    requires IsTable(EntryAt(t, page, PageIndex(va, level)))
    ensures OnPath(shape, root, EntryAt(t, page, PageIndex(va, level)).frame, level - 1, va)
  {
    var index := PageIndex(va, level);
    assert PlacedEntry(t, shape, page, index);
    IndexLow(va, level);
    IndexOfFloor(va % SPACE, level);
  }

  lemma {:induction false} DownOnPath(t: Tables, shape: Shape, root: nat, page: nat, level: nat, perm: Flags, va: nat)
    requires level <= 3 && Forest(t, shape) && OnPath(shape, root, page, level, va)
    ensures var r := Down(t, page, level, perm, va);
            && OnPath(shape, root, r.page, r.level, va)
            && (r.level > 0 ==> !IsTable(StopEntry(t, r, va)))
    decreases level
  {
    var e := EntryAt(t, page, PageIndex(va, level));
    if level > 0 && IsTable(e) {
      ChildOnPath(t, shape, root, page, level, va);
      DownOnPath(t, shape, root, e.frame, level - 1, Restrict(perm, e), va);
    }
  }

  lemma RootOnPath(shape: Shape, root: nat, va: nat)
    requires Root(shape, root)
    ensures OnPath(shape, root, root, 3, va)
  {
    assert va % SPACE / SPACE == 0;
  }

  // ---------- Resuming a walk ----------

  lemma {:induction false} QuotientUp(va: nat, va': nat, j: nat, k: nat)
    requires j <= k <= 4 && va / Span(j) == va' / Span(j)
    ensures va / Span(k) == va' / Span(k)
    decreases k
  {
    if j < k {
      QuotientUp(va, va', j, k - 1);
      QuotientStep(va, k - 1);
      QuotientStep(va', k - 1);
    }
  }

  lemma QuotientStep(va: nat, k: nat)
    requires k <= 3
    ensures va / Span(k + 1) == va / Span(k) / 512
  {
  }

  /** A walk for one address can be resumed for another one in the same region, at the level where it stopped. */
  lemma {:induction false} ResumeWalk(t: Tables, page: nat, level: nat, perm: Flags, va: nat, va': nat)
    requires level <= 3
    requires var r := Down(t, page, level, perm, va); va / Span(r.level + 1) == va' / Span(r.level + 1)
    ensures var r := Down(t, page, level, perm, va);
            Down(t, page, level, perm, va') == Down(t, r.page, r.level, r.perm, va')
    decreases level
  {
    var e := EntryAt(t, page, PageIndex(va, level));
    if level > 0 && IsTable(e) {
      var r := Down(t, e.frame, level - 1, Restrict(perm, e), va);
      QuotientUp(va, va', r.level + 1, level);
      ResumeWalk(t, e.frame, level - 1, Restrict(perm, e), va, va');
    }
  }

  lemma {:induction false} DownStops(t: Tables, page: nat, level: nat, perm: Flags, va: nat)
    requires level <= 3
    ensures var r := Down(t, page, level, perm, va); r.level > 0 ==> !IsTable(StopEntry(t, r, va))
    decreases level
  {
    var e := EntryAt(t, page, PageIndex(va, level));
    if level > 0 && IsTable(e) { DownStops(t, e.frame, level - 1, Restrict(perm, e), va); }
  }

  lemma SameRegionCanonical(va: nat, va': nat, level: nat)
    requires level <= 2 && va / Span(level + 1) == va' / Span(level + 1) && va < WORD && va' < WORD
    ensures Canonical(va) <==> Canonical(va')
  {
    QuotientUp(va, va', level + 1, 3);
    CanonicalByQuotient(va);
    CanonicalByQuotient(va');
  }

  lemma CanonicalByQuotient(va: nat)
    requires va < WORD
    ensures Canonical(va) <==> (va / Span(3) <= 255 || va / Span(3) >= 0x1FF_FF00)
  {
  }

  /** Permissions above the three that tables restrict stay granted. */
  lemma {:induction false} DownPermBits(t: Tables, page: nat, level: nat, perm: Flags, va: nat)
    requires level <= 3 && perm | PWU == ALL
    ensures Down(t, page, level, perm, va).perm | PWU == ALL
    decreases level
  {
    var e := EntryAt(t, page, PageIndex(va, level));
    if level > 0 && IsTable(e) {
      RestrictBits(perm, e);
      DownPermBits(t, e.frame, level - 1, Restrict(perm, e), va);
    }
  }

  lemma RestrictBits(perm: Flags, e: Entry)
    requires perm | PWU == ALL
    ensures Restrict(perm, e) | PWU == ALL
  {
  }

  // ---------- Writing a page's entry at level 0 ----------

  function SetEntry(t: Tables, page: nat, index: nat, e: Entry): Tables
    requires page in t && index < 512
  {
    t[page := t[page][index := e]]
  }

  lemma LeafWriteForest(t: Tables, shape: Shape, page: nat, index: nat, e: Entry)
    requires Forest(t, shape) && page in shape && shape[page].level == 0 && index < 512 && e.frame < 0x10_0000
    ensures Forest(SetEntry(t, page, index, e), shape)
  {
    var t' := SetEntry(t, page, index, e);
    forall q, i: nat | q in shape && i < 512 ensures PlacedEntry(t', shape, q, i) {
      assert PlacedEntry(t, shape, q, i);
    }
  }

  lemma {:induction false} LeafWriteDown(t: Tables, shape: Shape, page: nat, index: nat, e: Entry,
                                         root: nat, from: nat, level: nat, perm: Flags, va: nat)
    requires Forest(t, shape) && page in shape && shape[page].level == 0 && index < 512
    requires level <= 3 && OnPath(shape, root, from, level, va)
    ensures Down(SetEntry(t, page, index, e), from, level, perm, va) == Down(t, from, level, perm, va)
    decreases level
  {
    var f := EntryAt(t, from, PageIndex(va, level));
    if level > 0 && IsTable(f) {
      ChildOnPath(t, shape, root, from, level, va);
      LeafWriteDown(t, shape, page, index, e, root, f.frame, level - 1, Restrict(perm, f), va);
    }
  }

  lemma SamePage(va: nat, va': nat)
    requires va < WORD && va' < WORD && Canonical(va) && Canonical(va')
    requires Floor(va % SPACE, 1) == Floor(va' % SPACE, 1) && PageIndex(va, 0) == PageIndex(va', 0)
    ensures va / 0x1000 == va' / 0x1000
  {
    IndexLow(va, 0);
    IndexLow(va', 0);
    IndexOfFloor(va % SPACE, 0);
    IndexOfFloor(va' % SPACE, 0);
    SameLow(va, va');
  }

  lemma SameLow(va: nat, va': nat)
    requires va < WORD && va' < WORD && Canonical(va) && Canonical(va')
    requires va % SPACE / 0x1000 == va' % SPACE / 0x1000
    ensures va / 0x1000 == va' / 0x1000
  {
    CanonicalTop(va);
    CanonicalTop(va');
  }

  lemma CanonicalTop(va: nat)
    requires va < WORD && Canonical(va)
    ensures va / 0x1000 ==
            va % SPACE / 0x1000 + (if va % SPACE / 0x1000 >= 0x8_0000_0000 then 0xF_FFF0_0000_0000 else 0)
  {
    if va <= VA_LOWMAX {
      assert va % SPACE == va;
    } else {
      assert va % SPACE == va - 0xFFFF_0000_0000_0000;
    }
  }

  /** Writing the level-0 entry of one address changes the translation of no other page, in any tree. */
  lemma LeafWriteElsewhere(t: Tables, shape: Shape, root: nat, page: nat, va: nat, e: Entry, root': nat, va': nat)
    requires Forest(t, shape) && Root(shape, root') && OnPath(shape, root, page, 0, va)
    requires va < WORD && va' < WORD && Canonical(va) && (root' != root || va / 0x1000 != va' / 0x1000)
    ensures Translate(SetEntry(t, page, PageIndex(va, 0), e), root', va') == Translate(t, root', va')
  {
    RootOnPath(shape, root', va');
    LeafWriteDown(t, shape, page, PageIndex(va, 0), e, root', root', 3, ALL, va');
    DownOnPath(t, shape, root', root', 3, ALL, va');
    var s := Walk(t, root', va');
    if Canonical(va') && s.page == page && PageIndex(va', s.level) == PageIndex(va, 0) {
      SamePage(va, va');
    }
  }

  // ---------- Adding an empty table ----------

  function AddTable(t: Tables, page: nat, index: nat, added: nat): Tables
    requires page in t && index < 512
  {
    SetEntry(t, page, index, Entry(added, PWU))[added := ZeroTable()]
  }

  ghost function AddPlace(shape: Shape, page: nat, index: nat, added: nat): Shape
    requires page in shape && 0 < shape[page].level <= 3
  {
    var place := shape[page];
    shape[added := Place(place.root, place.level - 1, place.start + index * Span(place.level))]
  }

  lemma AddTableForest(t: Tables, shape: Shape, page: nat, index: nat, added: nat)
    requires Forest(t, shape) && page in shape && shape[page].level > 0 && index < 512 && added !in t
    requires added < 0x10_0000
    ensures Forest(AddTable(t, page, index, added), AddPlace(shape, page, index, added))
  {
    var t' := AddTable(t, page, index, added);
    var shape' := AddPlace(shape, page, index, added);
    forall q, i: nat | q in shape' && i < 512 ensures PlacedEntry(t', shape', q, i) {
      if q != added { assert PlacedEntry(t, shape, q, i); }
    }
  }

  lemma AddTableRooted(shape: Shape, page: nat, index: nat, added: nat)
    requires page in shape && 0 < shape[page].level <= 3 && added !in shape && Rooted(shape)
    ensures Rooted(AddPlace(shape, page, index, added))
  {
    var shape' := AddPlace(shape, page, index, added);
    forall q | q in shape' ensures Root(shape', shape'[q].root) {
      assert Root(shape, shape[if q == added then page else q].root);
    }
  }

  /** At the new entry the walk goes down into the empty table and stops there. */
  lemma AddTableHit(t: Tables, page: nat, index: nat, added: nat, level: nat, perm: Flags, va: nat)
    requires page in t && added !in t && 0 < level <= 3 && index == PageIndex(va, level) && !Present(t[page][index])
    ensures Down(t, page, level, perm, va) == Stop(level, page, perm)
    ensures Down(AddTable(t, page, index, added), page, level, perm, va) == Stop(level - 1, added, perm)
  {
    var t' := AddTable(t, page, index, added);
    var e := t[page][index];
    assert e.flags & (P | PS) == P ==> e.flags & P == P;
    assert EntryAt(t', page, index) == Entry(added, PWU) && IsTable(Entry(added, PWU));
    assert Restrict(perm, Entry(added, PWU)) == perm;
    assert EntryAt(t', added, PageIndex(va, level - 1)) == ZERO && !IsTable(ZERO);
  }

  /** A walk in the extended tables: it goes one level further exactly where the new table was added. */
  lemma {:induction false} AddTableDown(t: Tables, shape: Shape, page: nat, index: nat, added: nat,
                                        root: nat, from: nat, level: nat, perm: Flags, va: nat)
    requires Forest(t, shape) && page in shape && shape[page].level > 0 && index < 512 && added !in t
    requires !Present(t[page][index]) && level <= 3 && OnPath(shape, root, from, level, va)
    ensures var r := Down(t, from, level, perm, va);
            Down(AddTable(t, page, index, added), from, level, perm, va)
            == if r.page == page
                && PageIndex(va, r.level) == index then Stop(shape[page].level - 1, added, r.perm) else r
    decreases level
  {
    var e := EntryAt(t, from, PageIndex(va, level));
    if from == page && PageIndex(va, level) == index {
      AddTableHit(t, page, index, added, level, perm, va);
    } else if level > 0 && IsTable(e) {
      ChildOnPath(t, shape, root, from, level, va);
      AddTableDown(t, shape, page, index, added, root, e.frame, level - 1, Restrict(perm, e), va);
    }
  }

  /** Adding an empty table changes no translation. */
  lemma AddTableTranslates(t: Tables, shape: Shape, page: nat, index: nat, added: nat, root: nat, va: nat)
    requires Forest(t, shape) && page in shape && shape[page].level > 0 && index < 512 && added !in t
    requires !Present(t[page][index]) && Root(shape, root)
    ensures Translate(AddTable(t, page, index, added), root, va) == Translate(t, root, va)
  {
    RootOnPath(shape, root, va);
    AddTableDown(t, shape, page, index, added, root, root, 3, ALL, va);
    DownOnPath(t, shape, root, root, 3, ALL, va);
    var s := Walk(t, root, va);
    var t' := AddTable(t, page, index, added);
    if s.page == page && PageIndex(va, s.level) == index {
      NotPresentUnmapped(StopEntry(t, s, va), s.perm);
      NotPresentUnmapped(ZERO, s.perm);
      assert StopEntry(t', Walk(t', root, va), va) == ZERO;
    } else {
      assert StopEntry(t', s, va) == StopEntry(t, s, va);
    }
  }

  lemma NotPresentUnmapped(e: Entry, perm: Flags)
    requires !Present(e)
    ensures Perm(e, perm) == 0
  {
    assert (e.flags & perm) & P == (e.flags & P) & perm;
  }
}

/** `close` (fileio.c:345-433) on any entry and FCB, with no invariant assumed: a merge that can only
    add to what the directory says, or is refused. */
module Closing {
  import opened DiskParams
  import opened DiskMap
  import opened Directory
  import opened Allocation
  import opened Volume

  /** Some block is in use at slot `k` by both maps and they disagree about it. */
  predicate Clash(p: Dpb, fm: Map, dm: Map, k: nat)
    requires k < p.Slots()
  {
    Slot(p, fm, k) != 0 && Slot(p, dm, k) != 0 && Slot(p, fm, k) != Slot(p, dm, k)
  }

  function UnionSlot(p: Dpb, fm: Map, dm: Map, k: nat): nat
    requires k < p.Slots()
  {
    if Slot(p, fm, k) != 0 then Slot(p, fm, k) else Slot(p, dm, k)
  }

  /** Storing a block number that a slot can hold. */
  lemma StoreSlot(p: Dpb, m: Map, k: nat, n: Map, i: nat, j: nat)
    requires k < p.Slots() && i < p.Slots() && j < p.Slots()
    ensures Slot(p, SetSlot(p, m, k, Slot(p, n, j)), i) == if i == k then Slot(p, n, j) else Slot(p, m, i)
  {
  }

  /** The merge succeeds exactly when no slot clashes, and then both maps are the slotwise union. */
  lemma {:induction false} MergeIsUnion(p: Dpb, fm: Map, dm: Map, k: nat)
    requires k <= p.Slots()
    ensures var r := MergeMaps(p, fm, dm, k);
      && (r.2 <==> forall i: nat :: k <= i < p.Slots() ==> !Clash(p, fm, dm, i))
      && (r.2 ==> forall i: nat :: i < p.Slots() ==>
            && Slot(p, r.0, i) == (if i < k then Slot(p, fm, i) else UnionSlot(p, fm, dm, i))
            && Slot(p, r.1, i) == (if i < k then Slot(p, dm, i) else UnionSlot(p, fm, dm, i)))
    decreases p.Slots() - k
  {
    if k < p.Slots() && !Clash(p, fm, dm, k) {
      var fm1 := if Slot(p, dm, k) != 0 && Slot(p, fm, k) == 0 then SetSlot(p, fm, k, Slot(p, dm, k)) else fm;
      var dm1 := if Slot(p, dm, k) == 0 then SetSlot(p, dm, k, Slot(p, fm, k)) else dm;
      forall i: nat | i < p.Slots()
        ensures Slot(p, fm1, i) == if i == k then UnionSlot(p, fm, dm, k) else Slot(p, fm, i)
        ensures Slot(p, dm1, i) == if i == k then UnionSlot(p, fm, dm, k) else Slot(p, dm, i)
      {
        StoreSlot(p, fm, k, dm, i, k);
        StoreSlot(p, dm, k, fm, i, k);
        hide Slot, SetSlot;
      }
      hide Slot, SetSlot;
      assert MergeMaps(p, fm, dm, k) == MergeMaps(p, fm1, dm1, k + 1);
      MergeIsUnion(p, fm1, dm1, k + 1);
      assert forall i: nat :: k < i < p.Slots() ==> (Clash(p, fm1, dm1, i) <==> Clash(p, fm, dm, i));
    }
  }

  /** (extent, record count) pairs in the order close compares them. */
  predicate Before(e: nat, r: nat, e': nat, r': nat) { e < e' || (e == e' && r <= r') }

  /** What a successful close leaves: the union of the maps in FCB and entry, the later of the two
      (extent, record count) pairs, the FCB's s1, a clear archive bit, everything else as it was. */
  ghost predicate Merged(p: Dpb, f: FcbValue, e: Ent, g: FcbValue, c: Ent)
    requires p.WellFormed()
  {
    var ext := CalcExt(p, g.ent.extent, g.ent.dskmap);
    && g == f.(ent := WithMap(f.ent, g.ent.dskmap)) && c.dskmap == g.ent.dskmap
    && (forall k: nat :: k < p.Slots() ==> Slot(p, c.dskmap, k) == UnionSlot(p, f.ent.dskmap, e.dskmap, k))
    && ((c.extent, c.rc) == (e.extent, e.rc) || (c.extent, c.rc) == (ext, f.ent.rc))
    && Before(e.extent, e.rc, c.extent, c.rc) && Before(ext, f.ent.rc, c.extent, c.rc)
    && c.entry == e.entry && c.s2 == e.s2 && c.s1 == f.ent.s1 && c.name == ClearArchive(e.name)
  }

  /** The two outcomes of `close` on a matching entry. */
  lemma CloseIsMerge(p: Dpb, v: Vol, f: FcbValue, i: nat)
    requires Fits(p, v) && i <= p.drm && f.ent.extent < 32
    requires Matches(p, f.ent, EntAt(v.dirbuf, i % 4), true) && EntAt(v.dirbuf, i % 4).extent < 32
    ensures var e := EntAt(v.dirbuf, i % 4);
      var r := CloseAt(p, v, f, i);
      && (r.2 <==> forall k: nat :: k < p.Slots() ==> !Clash(p, f.ent.dskmap, e.dskmap, k))
      && (r.2 ==>
            && Merged(p, f, e, r.1, EntAt(r.0.dirbuf, i % 4))
            && r.0 == DirWr(p, PutDir(v, i, EntAt(r.0.dirbuf, i % 4)), i / 4))
      && (!r.2 ==> r.0.disk == v.disk && r.0.csv == v.csv && r.0.ro)
  {
    hide Matches, Slot, CalcExt, ClosedEntry, MergeMaps, Clash, UnionSlot, PutEnt, EntAt;
    var e := EntAt(v.dirbuf, i % 4);
    var mm := MergeMaps(p, f.ent.dskmap, e.dskmap, 0);
    MergeIsUnion(p, f.ent.dskmap, e.dskmap, 0);
    if mm.2 {
      SlotsDetermineMap(p, mm.0, mm.1);
      var g := f.(ent := WithMap(f.ent, mm.0));
      var c := ClosedEntry(p, g.ent, WithMap(e, mm.0));
      PutGet(v.dirbuf, i % 4, c, i % 4);
      ExtentFits(p, f.ent.extent, mm.0);
      MergedFacts(p, f, e, g);
    }
  }

  lemma ExtentFits(p: Dpb, extent: byte, m: Map)
    requires p.WellFormed() && extent < 32
    ensures CalcExt(p, extent, m) < 32
  {
    hide LastExt, ExtBase;
    ExtentShapes(p);
    BaseBound(p.Extents(), extent, LastExt(p, m));
  }

  lemma BaseBound(x: nat, e: nat, o: nat)
    requires x in {1, 2, 4, 8, 16} && e < 32 && o < x
    ensures ExtBase(e, x) + o < 32
  {
    if x == 1 {} else if x == 2 {} else if x == 4 {} else if x == 8 {} else { assert x == 16; }
  }

  lemma MergedFacts(p: Dpb, f: FcbValue, e: Ent, g: FcbValue)
    requires p.WellFormed() && e.extent < 32 && CalcExt(p, g.ent.extent, g.ent.dskmap) < 32
    requires g == f.(ent := WithMap(f.ent, g.ent.dskmap))
    requires forall k: nat :: k < p.Slots() ==> Slot(p, g.ent.dskmap, k) == UnionSlot(p, f.ent.dskmap, e.dskmap, k)
    ensures Merged(p, f, e, g, ClosedEntry(p, g.ent, WithMap(e, g.ent.dskmap)))
  {
    hide Slot, CalcExt, UnionSlot;
  }

  /** Closing a second time changes nothing at all. */
  lemma SecondCloseIsIdle(p: Dpb, v: Vol, f: FcbValue, i: nat)
    requires Fits(p, v) && i <= p.drm && f.ent.extent < 32 && EntAt(v.dirbuf, i % 4).extent < 32
    requires CloseAt(p, v, f, i).2
    ensures var r := CloseAt(p, v, f, i); CloseAt(p, r.0, r.1, i) == r
  {
    hide ExtBase, LastExt, MergeMaps, PutEnt, EntAt, Clash;
    var e := EntAt(v.dirbuf, i % 4);
    assert Matches(p, f.ent, e, true);
    hide CloseAt, Matches, ClosedEntry, Merged, DirWr, PutDir;
    CloseIsMerge(p, v, f, i);
    var r := CloseAt(p, v, f, i);
    var c := EntAt(r.0.dirbuf, i % 4);
    var m := r.1.ent.dskmap;
    ExtentFits(p, f.ent.extent, r.1.ent.dskmap);
    NamesAfter(f.ent, e, c);
    SameNames(f.ent, r.1.ent, c);
    CalcExtParts(p, r.1.ent.extent, r.1.ent.dskmap);
    BaseQuotient(p.Extents(), r.1.ent.extent, LastExt(p, r.1.ent.dskmap));
    MergeOfSame(p, m, 0);
    ClosedAgain(p, f, e, r.1, c);
    PutSame(r.0.dirbuf, i % 4);
    {
      var c, m := EntAt(r.0.dirbuf, i % 4), r.1.ent.dskmap;
      assert WithMap(r.1.ent, m) == r.1.ent && WithMap(c, m) == c;
    }
    WriteAgain(p, PutDir(v, i, c), i / 4);
  }

  lemma WriteAgain(p: Dpb, v: Vol, s: nat)
    requires Fits(p, v) && s < p.DirSectors()
    ensures DirWr(p, DirWr(p, v, s), s) == DirWr(p, v, s)
  {
    hide Checksum;
  }

  lemma {:induction false} MergeOfSame(p: Dpb, m: Map, k: nat)
    requires k <= p.Slots()
    ensures MergeMaps(p, m, m, k) == (m, m, true)
    decreases p.Slots() - k
  {
    if k < p.Slots() {
      {
        forall i: nat | i < p.Slots() ensures Slot(p, SetSlot(p, m, k, Slot(p, m, k)), i) == Slot(p, m, i) {
          StoreSlot(p, m, k, m, i, k);
        }
        SlotsDetermineMap(p, SetSlot(p, m, k, Slot(p, m, k)), m);
      }
      MergeOfSame(p, m, k + 1);
    }
  }

  lemma SameNames(f: Ent, g: Ent, c: Ent)
    requires NameMatches(f, c) && g.entry == f.entry && g.name == f.name
    ensures NameMatches(g, c)
  {
    forall k: nat | k < 12 ensures ByteMatches(NameByte(g, k), NameByte(c, k)) {
      assert ByteMatches(NameByte(f, k), NameByte(c, k));
    }
  }

  lemma CalcExtParts(p: Dpb, extent: byte, m: Map)
    requires p.WellFormed() && extent < 32
    ensures p.Extents() in {1, 2, 4, 8, 16} && LastExt(p, m) < p.Extents()
    ensures CalcExt(p, extent, m) == ExtBase(extent, p.Extents()) + LastExt(p, m)
  {
    hide LastExt, ExtBase;
    ExtentShapes(p);
  }

  lemma NamesAfter(f: Ent, e: Ent, c: Ent)
    requires NameMatches(f, e) && c.entry == e.entry && c.name == ClearArchive(e.name)
    ensures NameMatches(f, c)
  {
    forall k: nat | k < 12 ensures ByteMatches(NameByte(f, k), NameByte(c, k)) {
      assert ByteMatches(NameByte(f, k), NameByte(e, k));
    }
  }

  lemma BaseQuotient(x: nat, e: nat, o: nat)
    requires x in {1, 2, 4, 8, 16} && e < 32 && o < x
    ensures (ExtBase(e, x) + o) / x == e / x
  {
    if x == 1 {} else if x == 2 {} else if x == 4 {} else if x == 8 {} else { assert x == 16; }
  }

  lemma ClosedAgain(p: Dpb, f: FcbValue, e: Ent, g: FcbValue, c: Ent)
    requires p.WellFormed() && Merged(p, f, e, g, c) && c.extent < 32
    ensures ClosedEntry(p, g.ent, WithMap(c, g.ent.dskmap)) == c
  {
    hide CalcExt, Slot, UnionSlot;
    assert ClearArchive(c.name) == c.name;
  }

  // ---------------------------------------------------------------- what a close can lose

  /** The entry's record count becomes the FCB's exactly when the FCB reaches at least as far as the
      entry does (or the counts are equal anyway). */
  lemma CountSurvivesExactly(p: Dpb, f: Ent, e: Ent)
    requires p.WellFormed() && f.extent < 32 && e.extent < 32
    ensures var c := ClosedEntry(p, f, WithMap(e, f.dskmap));
      c.rc == f.rc <==> Before(e.extent, e.rc, CalcExt(p, f.extent, f.dskmap), f.rc) || f.rc == e.rc
  {
    hide CalcExt;
  }
}

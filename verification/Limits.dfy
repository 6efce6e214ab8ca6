/** What the callers' obligations of `Sessions` are for: how files are damaged without them. */
module Limits {
  import opened DiskParams
  import opened DiskMap
  import opened Directory
  import opened Allocation
  import opened Volume
  import opened RecordIo
  import opened Scanning
  import opened Files
  import opened Blocks
  import opened FileSystem
  import opened Transitions
  import opened Transfers

  /** A write that found the disk full can leave an empty entry whose extent byte is not the first of
      its group (`FullDiskWrite`). If the FCB then writes record `q` of that group and is closed, the
      record can be read from the entry exactly if it does not lie in an extent before the entry's. */
  lemma EmptyEntryHidesRecord(p: Dpb, f: FcbValue, g: FcbValue, e: Ent, q: nat, b: nat)
    requires p.WellFormed() && Tracks(p, f.(ent := f.ent.(extent := e.extent)), e, true)
    requires f.ent.extent < 32 && e.extent < 32 && Group(p, f.ent) == Group(p, e)
    requires q < p.GroupRecs() && q / 128 == f.ent.extent % p.Extents() && 0 < b <= p.dsm
    requires FcbAfter(p, f, g, q, b)
    ensures var c := ClosedEntry(p, g.ent, WithMap(e, g.ent.dskmap));
      && c.dskmap == g.ent.dskmap && BlockOf(p, c.dskmap, q) == b
      && (Readable(p, c.dskmap, c.rc, q) <==> q / 128 >= e.extent % p.Extents())
  {
    hide *;
    PendingParts(p, f, e);
    OneBlockMap(p, f, g, q, b);
    FirstWriteFacts(p, f, g, q, b);
    GroupInjective(p, f.ent, e);
    GroupInjective(p, g.ent, e);
    CalcExtInGroup(p, g.ent, e);
    BaseOrder(p.Extents(), e.extent, q / 128);
    FirstCount(p, q);
    WithMapParts(e, g.ent.dskmap);
    ClosedParts(p, g.ent, WithMap(e, g.ent.dskmap), q);
  }

  lemma PendingParts(p: Dpb, f: FcbValue, e: Ent)
    requires p.WellFormed() && Tracks(p, f.(ent := f.ent.(extent := e.extent)), e, true)
    ensures f.ent.dskmap == EMPTY_MAP && f.ent.rc == 0 == e.rc && p.dsm < 65536
    ensures p.Extents() in {1, 2, 4, 8, 16}
  {
    ExtentShapes(p);
  }

  lemma WithMapParts(e: Ent, m: Map)
    ensures WithMap(e, m).dskmap == m && WithMap(e, m).rc == e.rc && WithMap(e, m).extent == e.extent
  {
  }

  /** The closed entry takes the later of the two ends; a record is readable below it. */
  lemma ClosedParts(p: Dpb, g: Ent, e: Ent, q: nat)
    requires p.WellFormed() && e.extent < 32 && g.dskmap == e.dskmap && e.rc == 0 < g.rc && q < p.GroupRecs()
    ensures var c := ClosedEntry(p, g, e);
      && c.dskmap == e.dskmap && c.rc == (if CalcExt(p, g.extent, g.dskmap) >= e.extent then g.rc else 0)
      && (Readable(p, c.dskmap, c.rc, q) <==> q < LastExt(p, e.dskmap) * 128 + c.rc && BlockOf(p, e.dskmap, q) != 0)
  {
    hide CalcExt, LastExt, BlockOf;
  }

  /** The record count after the first write of an empty map. */
  lemma FirstCount(p: Dpb, q: nat)
    requires p.WellFormed() && q < p.GroupRecs()
    ensures RcAfter(p, EMPTY_MAP, 0, q) == q % 128 + 1
  {
    EmptyLast(p, q);
  }

  lemma FirstWriteFacts(p: Dpb, f: FcbValue, g: FcbValue, q: nat, b: nat)
    requires p.WellFormed() && q < p.GroupRecs() && b < 65536 && FcbAfter(p, f, g, q, b)
    ensures g.ent.extent == f.ent.extent && g.ent.s2 % 64 == f.ent.s2 % 64
    ensures g.ent.rc == RcAfter(p, f.ent.dskmap, f.ent.rc, q)
  {
    hide MapAfter, RcAfter, BlockOf, EndOf;
  }

  /** The first block of an empty map. */
  lemma OneBlockMap(p: Dpb, f: FcbValue, g: FcbValue, q: nat, b: nat)
    requires p.WellFormed() && q < p.GroupRecs() && 0 < b <= p.dsm && f.ent.dskmap == EMPTY_MAP
    requires FcbAfter(p, f, g, q, b)
    ensures LastExt(p, g.ent.dskmap) == q / 128 && BlockOf(p, g.ent.dskmap, q) == b
  {
    var k := MapSlot(p, q);
    EmptyLast(p, q);
    assert g.ent.dskmap == SetSlot(p, EMPTY_MAP, k, b) by { hide SetSlot, RcAfter, Slot, LastExt, BlockOf; }
    SetSlotGet(p, EMPTY_MAP, k, b, k);
    OneBlockExtent(p, k, b);
    hide SetSlot, Slot, LastExt, FcbAfter;
  }

  lemma MapSlot(p: Dpb, q: nat) returns (k: nat)
    requires p.WellFormed() && q < p.GroupRecs()
    ensures k == MapIndex(p, q) && k < p.Slots() && k / p.SlotsPerExtent() == q / 128
  {
    SlotExtent(p, q);
    k := MapIndex(p, q);
  }

  lemma BaseOrder(x: nat, e: nat, o: nat)
    requires x in {1, 2, 4, 8, 16}
    ensures ExtBase(e, x) + o < e <==> o < e % x
    ensures ExtBase(e, x) + o == e <==> o == e % x
  {
    BaseAndRest(x, e);
  }

  /** A map with one block belongs to that block's extent. */
  lemma OneBlockExtent(p: Dpb, k: nat, b: nat)
    requires p.WellFormed() && k < p.Slots() && 0 < b <= p.dsm
    ensures LastExt(p, SetSlot(p, EMPTY_MAP, k, b)) == k / p.SlotsPerExtent()
  {
    forall i: nat | i < p.Slots() ensures Slot(p, SetSlot(p, EMPTY_MAP, k, b), i) == if i == k then b else 0 {
      SetSlotGet(p, EMPTY_MAP, k, b, i);
      EmptySlots(p, i);
    }
    hide Slot, SetSlot, LastSlot;
    LastSlotUnique(p, SetSlot(p, EMPTY_MAP, k, b), k);
  }

  /** With no free directory entry `new_ext` returns 5 and leaves the FCB addressing the new extent
      with the old extent's map and record count: the next write through it goes to the wrong place. */
  lemma DirectoryFullLeavesOldMap(p: Dpb, w: World, j: nat, ran: bool)
    requires Inv(p, w, -1) && j < |w.fcbs| && w.open[j] && !HasFreeEntry(Dir(p, w.v))
    requires var t := Target(w.fcbs[j], ran);
      && !(64 <= t.0 < 128) && At(p, Dir(p, w.v), AtExtent(w.fcbs[j], t.0, t.1)) == p.drm + 1
    ensures var f := w.fcbs[j];
      var t := Target(f, ran);
      var r := NewExt(p, w.v, f, false, ran);
      r.2 == 5 && r.1 == AtExtent(f, t.0, t.1) && r.1.ent.dskmap == f.ent.dskmap && r.1.ent.rc == f.ent.rc
  {
    var f := w.fcbs[j];
    var t := Target(f, ran);
    InvBasics(p, w, -1);
    NewExtCases(p, w.v, f, false, ran);
    Elsewhere(p, w, j, t);
    CloseKeeps(p, w, j);
    var c := CloseFi(p, w.v, f);
    var x := w.(v := c.0);
    StillFull(p, w, j);
    var g := AtExtent(w.fcbs[j], t.0, t.1);
    ContentsKeysOf(p, w, Key(g.ent), Group(p, g.ent));
    ContentsKeysOf(p, x, Key(g.ent), Group(p, g.ent));
    assert Addressed(w.user, AtExtent(f, t.0, t.1));
    hide Inv, CloseFi, HasFreeEntry, Dir, At, FilesOf, SameViews, Agrees, NewExt, Target, DirScan;
    OpenMisses(p, x, AtExtent(f, t.0, t.1));
    var o := DirScan(p, OpenFile, x.v, AtExtent(f, t.0, t.1), false, false);
    assert Steady(p, x.v);
    SteadyLook(p, x.v, o.0);
    CreateScan(p, o.0, AtExtent(f, t.0, t.1));
  }

  /** The target is not the group the FCB is in. */
  lemma Elsewhere(p: Dpb, w: World, j: nat, t: (byte, byte))
    requires Inv(p, w, -1) && j < |w.fcbs| && w.open[j] && t.1 < 32
    requires At(p, Dir(p, w.v), AtExtent(w.fcbs[j], t.0, t.1)) == p.drm + 1
    ensures !(t.0 == w.fcbs[j].ent.s2 % 64 && t.1 / p.Extents() == w.fcbs[j].ent.extent / p.Extents())
  {
    hide GroupNumber, Dpb.WellFormed;
    var f := w.fcbs[j];
    var g := AtExtent(f, t.0, t.1);
    InvBasics(p, w, -1);
    GroupInjective(p, f.ent, g.ent);
    assert Key(g.ent) == Key(f.ent);
    hide Inv, Key, Group;
  }

  /** Closing does not free an entry. */
  lemma StillFull(p: Dpb, w: World, j: nat)
    requires Inv(p, w, -1) && j < |w.fcbs| && w.open[j] && !HasFreeEntry(Dir(p, w.v))
    ensures !HasFreeEntry(Dir(p, CloseFi(p, w.v, w.fcbs[j]).0))
  {
    var f := w.fcbs[j];
    var d := Dir(p, w.v);
    var i := At(p, d, f);
    assert i <= p.drm && Live(d[i]);
    if f.ent.s2 < 128 {
      CloseScan(p, w, f);
      EntryWrite(p, w.v, i, ClosedEntry(p, f.ent, WithMap(d[i], f.ent.dskmap)));
      hide Inv, Dir, DirScan, ClosedEntry;
      var e := ClosedEntry(p, f.ent, WithMap(d[i], f.ent.dskmap));
      assert e.entry == d[i].entry by { ClosedUser(p, f.ent, WithMap(d[i], f.ent.dskmap)); }
      assert forall k :: 0 <= k < |d| ==> d[i := e][k].entry == d[k].entry;
    }
  }

  lemma ClosedUser(p: Dpb, f: Ent, e: Ent)
    requires p.WellFormed()
    ensures ClosedEntry(p, f, e).entry == e.entry
  {
  }

}

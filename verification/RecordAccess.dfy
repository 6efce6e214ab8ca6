/** `bdosrw` as its callers see it: reads and writes of numbered records of a file. */
module RecordAccess {
  import opened DiskParams
  import opened DiskMap
  import opened Directory
  import opened Allocation
  import opened Volume
  import opened RecordIo
  import opened Scanning
  import opened Files
  import opened Blocks
  import opened FileSystem
  import opened Transitions
  import opened Transfers

  predicate Moves(f: FcbValue, mode: Mode) { mode != Sequential || f.cur == 128 }

  /** The record a call is about. */
  function Wanted(f: FcbValue, mode: Mode): nat
  {
    if !Moves(f, mode) then RecordOf(f)
    else
      var t := Target(f, mode != Sequential);
      (t.0 % 64) * 4096 + t.1 * 128 + if mode == Sequential then 0 else f.ran2 % 128
  }

  /** The call asks for a record beyond the largest possible file. */
  predicate PastMaximum(f: FcbValue, mode: Mode)
  {
    Moves(f, mode) && 64 <= Target(f, mode != Sequential).0 < 128
  }

  /** A write there has to create a directory entry first. */
  ghost predicate Creates(p: Dpb, w: World, f: FcbValue, mode: Mode)
    requires Fits(p, w.v)
  {
    Moves(f, mode) && NoEntry(p, w, f, Target(f, mode != Sequential))
  }

  /** It will find the disk full once it has. */
  ghost predicate Cramped(p: Dpb, w: World, f: FcbValue, mode: Mode)
    requires Fits(p, w.v)
  {
    Creates(p, w, f, mode) && !PastMaximum(f, mode) && HasFreeEntry(Dir(p, w.v)) && DiskFull(p, w.v.alv)
  }

  /** Outcome of the positioning half. The FCB is pending exactly if an entry was created. */
  ghost predicate PositionOutcome(p: Dpb, w: World, j: nat, reading: bool, mode: Mode, r: (Vol, FcbValue, nat))
    requires Fits(p, w.v) && Fits(p, r.0) && j < |w.fcbs|
  {
    var f := w.fcbs[j];
    var x := With(w, r.0, j, r.1);
    && SameViews(p, w, x) && r.0.dma == w.v.dma
    && (r.2 == 0 ==>
          && Inv(p, x, if Creates(p, w, f, mode) then j else -1) && (reading ==> !Creates(p, w, f, mode))
          && (Creates(p, w, f, mode) ==> r.1.ent.extent == Target(f, mode != Sequential).1)
          && r.1.cur < 128 && RecordOf(r.1) == Wanted(f, mode) && Key(r.1.ent) == Key(f.ent)
          && r.0.alv == w.v.alv && !PastMaximum(f, mode))
    && (r.2 != 0 ==>
          && Inv(p, x, -1) && (r.2 == 1 <==> mode == Sequential) && r.2 != 2
          && (PastMaximum(f, mode) || (reading && FileView(p, w, Key(f.ent), Wanted(f, mode)) == None)))
  }

  lemma PositionKeeps(p: Dpb, w: World, j: nat, reading: bool, mode: Mode)
    requires Inv(p, w, -1) && j < |w.fcbs| && w.open[j]
    requires mode == Sequential ==> w.fcbs[j].cur <= 128
    requires !reading && Creates(p, w, w.fcbs[j], mode) ==> HasFreeEntry(Dir(p, w.v))
    ensures PositionOutcome(p, w, j, reading, mode, Position(p, w.v, w.fcbs[j], reading, mode))
  {
    var f := w.fcbs[j];
    assert Fits(p, w.v);
    if Moves(f, mode) {
      NewExtKeeps(p, w, j, reading, mode != Sequential);
      PositionMoved(p, w, j, reading, mode);
    } else {
      assert With(w, w.v, j, f) == w && SameViews(p, w, w);
      hide Inv, SameViews, RecordOf;
    }
  }

  /** Record within the extent that a move goes to. */
  function Landing(f: FcbValue, mode: Mode): byte { if mode == Sequential then 0 else f.ran2 % 128 }

  lemma PositionShape(p: Dpb, v: Vol, f: FcbValue, reading: bool, mode: Mode)
    requires Fits(p, v) && Moves(f, mode)
    ensures var n := NewExt(p, v, f, reading, mode != Sequential);
      Position(p, v, f, reading, mode) ==
        if n.2 == 0 then (n.0, n.1.(cur := Landing(n.1, mode)), 0)
        else (n.0, n.1, if mode == Sequential then 1 else n.2)
    ensures var t := Target(f, mode != Sequential);
      && Wanted(f, mode) == (t.0 % 64) * 4096 + t.1 * 128 + Landing(f, mode)
      && (PastMaximum(f, mode) <==> 64 <= t.0 < 128)
  {
    hide NewExt, Target;
  }

  lemma TargetExtent(f: FcbValue, ran: bool)
    requires f.ent.extent < 32
    ensures Target(f, ran).1 < 32
  {
  }

  lemma PositionMoved(p: Dpb, w: World, j: nat, reading: bool, mode: Mode)
    requires Inv(p, w, -1) && j < |w.fcbs| && w.open[j] && Moves(w.fcbs[j], mode)
    requires var ran := mode != Sequential;
      NewExtOutcome(p, w, j, reading, Target(w.fcbs[j], ran), NewExt(p, w.v, w.fcbs[j], reading, ran))
    ensures PositionOutcome(p, w, j, reading, mode, Position(p, w.v, w.fcbs[j], reading, mode))
  {
    hide Inv, SameViews, NewExt, Target, FilesOf, Position, Wanted, PastMaximum, Key, RecordOf, FileView, At, Dir,
      MapOk, NoEntry;
    InvBasics(p, w, -1);
    var f := w.fcbs[j];
    PositionShape(p, w.v, f, reading, mode);
    TargetExtent(f, mode != Sequential);
    var t := Target(f, mode != Sequential);
    var n := NewExt(p, w.v, f, reading, mode != Sequential);
    if n.2 == 0 {
      SetCursor(p, w, j, n, t, Landing(n.1, mode));
    } else {
      AbsentGroup(p, w, f, t, Landing(f, mode));
    }
  }

  /** After a successful move the record field is set. */
  lemma SetCursor(p: Dpb, w: World, j: nat, n: (Vol, FcbValue, nat), t: (byte, byte), c: byte)
    requires Fits(p, w.v) && Fits(p, n.0) && j < |w.fcbs| && j < |w.open| && w.open[j] && c < 128
    requires Arrived(p, w, With(w, n.0, j, n.1), j, t)
    ensures var g := n.1.(cur := c);
      var x := With(w, n.0, j, g);
      && SameViews(p, w, x) && Inv(p, x, if NoEntry(p, w, w.fcbs[j], t) then j else -1) && g.ent.extent == t.1
      && RecordOf(g) == (t.0 % 64) * 4096 + t.1 * 128 + c && Key(g.ent) == Key(w.fcbs[j].ent)
      && n.1.ran2 == w.fcbs[j].ran2
  {
    var x0 := With(w, n.0, j, n.1);
    var g := n.1.(cur := c);
    assert RecordOf(g) == (t.0 % 64) * 4096 + t.1 * 128 + c && Key(g.ent) == Key(w.fcbs[j].ent);
    var pend := if NoEntry(p, w, w.fcbs[j], t) then j else -1;
    assert Inv(p, x0, pend);
    hide Inv, SameViews, Key, RecordOf, NoEntry;
    CursorKeeps(p, x0, pend, j, n.0, g);
    assert With(x0, n.0, j, g) == With(w, n.0, j, g);
    ViewsCompose(p, w, x0, With(w, n.0, j, g));
  }

  /** A file without an entry for a group has none of its records. */
  lemma AbsentGroup(p: Dpb, w: World, f: FcbValue, t: (byte, byte), c: byte)
    requires Fits(p, w.v) && t.1 < 32 && c < 128
    ensures NoEntry(p, w, f, t) ==>
              FileView(p, w, Key(f.ent), (t.0 % 64) * 4096 + t.1 * 128 + c) == None
  {
    hide FilesOf, Key;
    var g := AtExtent(f, t.0, t.1).(cur := c);
    RecordOfFacts(p, g);
  }

  /** Where an FCB is after a transfer: sequential I/O steps to the next record. */
  predicate Stepped(f: FcbValue, mode: Mode, n: nat, g: FcbValue)
  {
    RecordOf(g) == n + (if mode == Sequential then 1 else 0) && g.cur <= 128 && Key(g.ent) == Key(f.ent)
  }

  /** Sequential I/O is about the record the FCB stands at, also when it stands at the end of an extent. */
  lemma SequentialWanted(f: FcbValue)
    requires f.ent.extent < 32 && f.cur <= 128 && !PastMaximum(f, Sequential)
    ensures Wanted(f, Sequential) == RecordOf(f)
  {
  }

  lemma ReadSteps(f: FcbValue, g: FcbValue, mode: Mode)
    requires f.cur < 128 && g.ent == f.ent && g.cur == if mode == Sequential then f.cur + 1 else f.cur
    ensures Stepped(f, mode, RecordOf(f), g)
  {
  }

  lemma WriteSteps(p: Dpb, v: Vol, f: FcbValue, mode: Mode)
    requires Fits(p, v) && f.cur < 128
    ensures var r := WriteRecord(p, v, f, mode);
      && Key(r.1.ent) == Key(f.ent) && r.1.ent.extent == f.ent.extent && (r.2 == 0 ==>
           Stepped(f, mode, RecordOf(f), r.1))
  {
    WriteShape(p, v, f, mode);
    hide WriteRecord, Dpb.WellFormed;
    FlagModule(f.ent.s2);
  }

  lemma WriteShape(p: Dpb, v: Vol, f: FcbValue, mode: Mode)
    requires Fits(p, v) && f.cur < 128
    ensures var r := WriteRecord(p, v, f, mode);
      && r.1.ent.entry == f.ent.entry && r.1.ent.name == f.ent.name && r.1.ent.extent == f.ent.extent
      && (r.1.ent.s2 == f.ent.s2 || r.1.ent.s2 == f.ent.s2 % 128)
      && (r.2 == 0 ==> r.1.cur == if mode == Sequential then f.cur + 1 else f.cur)
  {
    hide GetRc, Slot, SetSlot, Outward, SectorOf, ZeroFill, SetAloc, BlkIndx, Dpb.WellFormed, Dpb.BlockRecs;
  }

  lemma BdosRwShape(p: Dpb, v: Vol, f: FcbValue, reading: bool, mode: Mode)
    requires Fits(p, v) && (mode == Sequential ==> f.cur <= 128)
    ensures var n := Position(p, v, f, reading, mode);
      BdosRw(p, v, f, reading, mode) ==
        if n.2 != 0 then n else if reading then ReadRecord(p, n.0, n.1, mode) else WriteRecord(p, n.0, n.1, mode)
  {
    hide Position, ReadRecord, WriteRecord;
  }

  /** Reading: success means the file has the record, and delivers it; nothing changes. */
  ghost predicate ReadOutcome(p: Dpb, w: World, j: nat, mode: Mode, r: (Vol, FcbValue, nat))
    requires Fits(p, w.v) && Fits(p, r.0) && j < |w.fcbs|
  {
    var f := w.fcbs[j];
    var x := With(w, r.0, j, r.1);
    && Inv(p, x, -1) && SameViews(p, w, x)
    && (PastMaximum(f, mode) ==> r.2 != 0)
    && (!PastMaximum(f, mode) ==>
          FileView(p, w, Key(f.ent), Wanted(f, mode)) == if r.2 == 0 then Some(r.0.dma) else None)
    && (r.2 == 0 ==> Stepped(f, mode, Wanted(f, mode), r.1))
  }

  lemma ReadIsView(p: Dpb, w: World, j: nat, mode: Mode)
    requires Inv(p, w, -1) && j < |w.fcbs| && w.open[j]
    requires mode == Sequential ==> w.fcbs[j].cur <= 128
    ensures ReadOutcome(p, w, j, mode, BdosRw(p, w.v, w.fcbs[j], true, mode))
  {
    hide Stepped, At, Dir, MapOk, FilesOf, Inv, SameViews, FileView, Position, Wanted, PastMaximum, Key, ReadRecord,
      BdosRw, RecordOf, Moves;
    PositionKeeps(p, w, j, true, mode);
    InvBasics(p, w, -1);
    var f := w.fcbs[j];
    BdosRwShape(p, w.v, f, true, mode);
    var n := Position(p, w.v, f, true, mode);
    if n.2 == 0 {
      var x := With(w, n.0, j, n.1);
      ReadReturnsRecord(p, x, j, mode);
      var r := ReadRecord(p, n.0, n.1, mode);
      assert With(x, r.0, j, r.1) == With(w, r.0, j, r.1);
      ViewsCompose(p, w, x, With(w, r.0, j, r.1));
      if r.2 == 0 {
        ReadSteps(n.1, r.1, mode);
        StepsFrom(f, n.1, mode, r.1);
      }
      ViewAt(p, w, x, Key(f.ent), Wanted(f, mode));
    }
  }

  lemma StepsFrom(f: FcbValue, h: FcbValue, mode: Mode, g: FcbValue)
    requires Stepped(h, mode, RecordOf(h), g) && RecordOf(h) == Wanted(f, mode) && Key(h.ent) == Key(f.ent)
    ensures Stepped(f, mode, Wanted(f, mode), g)
  {
  }

  lemma ViewAt(p: Dpb, w: World, x: World, id: FileId, n: nat)
    requires Fits(p, w.v) && Fits(p, x.v) && SameViews(p, w, x)
    ensures FileView(p, x, id, n) == FileView(p, w, id, n)
  {
  }

  /** Writing: success means exactly that record changed; otherwise no file changes. A full disk lets no
      write through that has to create an entry, and leaves that entry pending. */
  ghost predicate WriteResult(p: Dpb, w: World, j: nat, mode: Mode, r: (Vol, FcbValue, nat))
    requires Fits(p, w.v) && Fits(p, r.0) && j < |w.fcbs|
  {
    var f := w.fcbs[j];
    var x := With(w, r.0, j, r.1);
    && (r.2 == 0 ==> !PastMaximum(f, mode) && Stepped(f, mode, Wanted(f, mode), r.1))
    && (r.2 == 0 ==> Inv(p, x, -1) && Wrote(p, w, x, Key(f.ent), Wanted(f, mode), w.v.dma))
    && (r.2 != 0 ==>
         SameViews(p, w, x) && if r.2 == 2 then DiskFull(p, w.v.alv) && !PastMaximum(f, mode) else PastMaximum(f, mode))
    && (r.2 != 0 ==> Inv(p, x, if r.2 == 2 && Creates(p, w, f, mode) then j else -1))
    && (Creates(p, w, f, mode) && !PastMaximum(f, mode) && DiskFull(p, w.v.alv) ==>
          r.2 == 2 && r.1.ent.extent == Target(f, mode != Sequential).1)
  }

  lemma WroteAfterViews(p: Dpb, w: World, x: World, y: World, id: FileId, n: nat, data: Sector)
    requires Fits(p, w.v) && Fits(p, x.v) && Fits(p, y.v) && SameViews(p, w, x) && Wrote(p, x, y, id, n, data)
    ensures Wrote(p, w, y, id, n, data)
  {
    hide FileView;
  }

  lemma WriteIsWrite(p: Dpb, w: World, j: nat, mode: Mode)
    requires Inv(p, w, -1) && j < |w.fcbs| && w.open[j]
    requires mode == Sequential ==> w.fcbs[j].cur <= 128
    requires Creates(p, w, w.fcbs[j], mode) ==> HasFreeEntry(Dir(p, w.v))
    ensures WriteResult(p, w, j, mode, BdosRw(p, w.v, w.fcbs[j], false, mode))
  {
    hide Stepped, At, Dir, MapOk, FilesOf, HasFreeEntry, Inv, SameViews, FileView, Position, Wanted, PastMaximum, Key,
      WriteRecord, DiskFull, Wrote, Creates, Target, RecordOf, BdosRw;
    PositionKeeps(p, w, j, false, mode);
    InvBasics(p, w, -1);
    var f := w.fcbs[j];
    BdosRwShape(p, w.v, f, false, mode);
    var n := Position(p, w.v, f, false, mode);
    if n.2 == 0 {
      var x := With(w, n.0, j, n.1);
      var pend := if Creates(p, w, f, mode) then j else -1;
      WriteChangesRecord(p, x, pend, j, mode);
      var r := WriteRecord(p, n.0, n.1, mode);
      WriteSteps(p, n.0, n.1, mode);
      if r.2 == 0 { StepsFrom(f, n.1, mode, r.1); }
      var y := With(w, r.0, j, r.1);
      assert With(x, r.0, j, r.1) == y;
      if r.2 == 0 { WroteAfterViews(p, w, x, y, Key(f.ent), Wanted(f, mode), w.v.dma); }
      else { ViewsCompose(p, w, x, y); }
    }
  }
}

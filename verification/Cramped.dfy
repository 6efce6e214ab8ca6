/** A drive and two calls after which a random write does the damage `FullDiskWrite` speaks of: 64
    directory entries, one data block, and that block taken. */
module CrampedDrive {
  import opened DiskParams
  import opened DiskMap
  import opened Directory
  import opened Allocation
  import opened Volume
  import opened RecordIo
  import opened Scanning
  import opened Files
  import opened Blocks
  import opened FileSystem
  import opened Transitions
  import opened Transfers
  import opened RecordAccess
  import opened LoginScan
  import opened FileCalls
  import opened Limits
  import opened Sessions

  /** Two extents to an entry. */
  const TINY := Dpb(8, 4, 15, 1, 1, 63, 0)

  predicate IsTiny(p: Dpb)
  {
    p.WellFormed() && p.Slots() == 16 && p.BlockRecs() == 16 && p.Extents() == 2 && p.DirBlocks() == 1 && p.dsm == 1
    && p.drm == 63 && p.cks == 0 && VectorBits(p) == 8 && p.DirSectors() == 16
  }

  /** Entry of file A: one record, in the one block. */
  predicate IsA(p: Dpb, e: Ent)
  {
    e.entry == 0 && e.extent == 0 && e.rc == 1 && e.s2 == 0 && e.name[0] == 65
      && e.dskmap == SetSlot(p, EMPTY_MAP, 0, 1)
  }

  predicate OneFile(p: Dpb, d: seq<Ent>)
  {
    |d| == 64 && IsA(p, d[0]) && forall i :: 0 < i < |d| ==> d[i].entry == FREE
  }

  /** The FCB for file B, which is to be made. Record 384 lies in extent 3. */
  predicate IsB(f: FcbValue)
  {
    f.ent.entry == 0 && f.ent.extent == 0 && Unambiguous(f.ent.name) && f.ent.name[0] == 66
  }

  lemma TinyShape()
    ensures IsTiny(TINY)
  {
    Exp2Values();
  }

  /** A medium that holds just file A. */
  lemma Medium(p: Dpb, a: Ent) returns (v: Vol)
    requires IsTiny(p) && IsA(p, a)
    ensures Fits(p, v) && !v.ro && OneFile(p, Dir(p, v))
  {
    var blank: Sector := seq(128, _ => FREE);
    var disk: seq<Sector> := seq(32, i => blank)[0 := PutEnt(blank, 0, a)];
    v := Vol(disk, seq(8, _ => false), [], 0, blank, 0, false, false, false, blank, false, 0);
    forall i | 0 < i < 64 ensures Dir(p, v)[i].entry == FREE {
      PutGet(blank, 0, a, i % 4);
    }
    PutGet(blank, 0, a, 0);
  }

  /** Only slot 0 of the directory's only map is in use. */
  lemma OneSlot(p: Dpb, d: seq<Ent>)
    requires IsTiny(p) && OneFile(p, d)
    ensures LastExt(p, d[0].dskmap) == 0
    ensures forall k: nat :: k < 16 ==> Slot(p, d[0].dskmap, k) == if k == 0 then 1 else 0
    ensures forall i: nat, k: nat :: i < 64 && k < 16 ==>
      BlockAt(p, Pieces(p, d), i, k) == if i == 0 && k == 0 then 1 else 0
  {
    hide Slot, SetSlot, LastExt, Dpb.WellFormed, Group, Key;
    forall k: nat | k < 16 ensures Slot(p, d[0].dskmap, k) == if k == 0 then 1 else 0 {
      SetSlotGet(p, EMPTY_MAP, 0, 1, k);
      EmptySlots(p, k);
    }
    OneBlockExtent(p, 0, 1);
  }

  lemma MediumConsistent(p: Dpb, v: Vol)
    requires Fits(p, v) && IsTiny(p) && OneFile(p, Dir(p, v))
    ensures Consistent(p, v)
  {
    hide Dir, Slot, SetSlot, LastExt, BlockAt, Dpb.WellFormed, Group, Key;
    var d := Dir(p, v);
    OneSlot(p, d);
    forall i | 0 <= i < |d| ensures EntOk(p, d[i]) && (Live(d[i]) ==> Settled(p, d[i])) {}
    assert Covered(p, Pieces(p, d));
  }

  // ---------------------------------------------------------------- the run

  lemma TakenBlock(p: Dpb, d: seq<Ent>)
    requires IsTiny(p) && OneFile(p, d)
    ensures NamedFrom(p, d, 0, 1) && p.dsm == 1 && p.DirBlocks() == 1 && VectorBits(p) == 8
  {
    hide Slot, Dpb.WellFormed, SetSlot;
    OneSlot(p, d);
    assert Slot(p, d[0].dskmap, 0) == 1 && InMap(p, d[0].dskmap, p.Slots(), 1);
  }

  lemma AllTaken(p: Dpb, a: Vector)
    requires p.dsm == 1 && Sized(p, a)
    ensures a[0] && a[1] ==> DiskFull(p, a)
  {
  }

  /** Keys and groups of the entries there can be. */
  predicate TwoFiles(p: Dpb, d: seq<Ent>, k: nat, id: FileId)
    requires p.Extents() == 2
  {
    && |d| == 64 && 0 < k < 64 && Live(d[0]) && Key(d[0]) != id
    && (forall i :: 0 < i < 64 && i != k ==> d[i].entry == FREE)
    && (d[k].entry == FREE || (Key(d[k]) == id && Group(p, d[k]) == 0))
  }

  lemma NotThere(p: Dpb, d: seq<Ent>, k: nat, id: FileId, g: nat)
    requires p.Extents() == 2 && TwoFiles(p, d, k, id) && (d[k].entry == FREE || 0 < g)
    ensures Find(Pieces(p, d), id, g) == 64 && HasFreeEntry(d)
  {
    hide Group, Key;
    var c := Pieces(p, d);
    assert forall i :: 0 <= i < 64 ==> !IsFor(c[i], id, g);
    assert d[if k == 1 then 2 else 1].entry == FREE;
  }

  lemma KeysDiffer(p: Dpb, d: seq<Ent>, f: FcbValue)
    requires IsTiny(p) && OneFile(p, d) && IsB(f)
    ensures p.Extents() == 2 && p.drm == 63 && d[1].entry == FREE && forall k: nat :: 0 < k < 64 ==>
      TwoFiles(p, d, k, Key(f.ent))
  {
    forall k: nat | 0 < k < 64 ensures TwoFiles(p, d, k, Key(f.ent)) {
      assert Key(d[0])[1] == 65 && Key(f.ent)[1] == 66;
    }
  }

  lemma BlankB(p: Dpb, f: FcbValue)
    requires IsTiny(p) && IsB(f)
    ensures var b := Blank(f);
      && Addressed(0, f) && Addressed(0, b) && Key(b.ent) == Key(f.ent) && b.ent.extent == 0
      && Key(Emptied(b).ent) == Key(f.ent) && Group(p, Emptied(b).ent) == 0 && Emptied(b).ent.extent == 0
  {
    hide Dpb.WellFormed;
  }

  lemma NobodyHasIt(w: World, id: FileId)
    requires w.open == [false]
    ensures forall p: Dpb :: Fits(p, w.v) ==> NoFcbFor(StateOf(p, w), id)
  {
  }

  predicate PutIn(d: seq<Ent>, k: nat, e: Ent, d': seq<Ent>) { 0 < k < |d| == 64 && d' == d[k := e] }

  lemma CreatedDir(p: Dpb, v: Vol, b: FcbValue)
    requires p.drm == 63 && Steady(p, v) && OneFile(p, Dir(p, v)) && HasFreeEntry(Dir(p, v))
    ensures var r := DirScan(p, Callback.CreateFile, v, b, false, true);
      && r.2 < 255 && r.1 == Emptied(b) && r.0.alv == v.alv
      && exists k: nat :: PutIn(Dir(p, v), k, Emptied(b).ent, Dir(p, r.0))
  {
    CreateScan(p, v, b);
    var k := FirstFree(p, Dir(p, v), b.ent);
    SteadyAfterCreate(p, v, CreatedDrive(p, v, k, b), k, Emptied(b).ent);
    hide Dir, HasFreeEntry, DirScan, Steady, FirstFree, DirWr, Dpb.WellFormed, SetSlot;
    assert PutIn(Dir(p, v), k, Emptied(b).ent, Dir(p, CreatedDrive(p, v, k, b)));
  }

  lemma Execute(p: Dpb, w: World, f: FcbValue)
    requires Fits(p, w.v) && w.open == [false] && |w.fcbs| == 1
    ensures var r := DirScan(p, Callback.CreateFile, w.v, Blank(f), false, true);
      r.2 < 255 ==> Exec(p, w, Make(0, f)).0 == With(w, r.0, 0, r.1).(open := [true])
  {
    hide DirScan, Blank;
  }

  /** Making B takes a free entry, and no block. */
  lemma MakeB(p: Dpb, w: World, f: FcbValue)
    requires IsTiny(p) && Inv(p, w, -1) && OneFile(p, Dir(p, w.v)) && w.open == [false] && |w.fcbs| == 1
    requires w.user == 0 && IsB(f)
    ensures Allowed(p, w, Make(0, f))
    ensures var x := Exec(p, w, Make(0, f)).0;
      && Inv(p, x, -1) && x.v.alv == w.v.alv && x == World(x.v, [Emptied(Blank(f))], [true], 0)
      && exists k: nat :: PutIn(Dir(p, w.v), k, Emptied(Blank(f)).ent, Dir(p, x.v))
  {
    hide IsTiny, IsB, Inv, Dir, OneFile, Exec, HasFreeEntry, Addressed, Key, NoFcbFor, TwoFiles, Group, Fits, DirScan,
      Emptied, Blank, FirstFree, SameViews;
    InvBasics(p, w, -1);
    InvDrive(p, w);
    KeysDiffer(p, Dir(p, w.v), f);
    BlankB(p, f);
    NobodyHasIt(w, Key(f.ent));
    var b := Blank(f);
    NotThere(p, Dir(p, w.v), 1, Key(b.ent), Group(p, b.ent));
    CreateKeeps(p, w, 0, b);
    CreatedDir(p, w.v, b);
    Execute(p, w, f);
    var x := Exec(p, w, Make(0, f)).0;
    assert w.open[0 := true] == [true] && w.fcbs[0 := Emptied(b)] == [Emptied(b)];
    PendingHarmless(p, x, 0);
  }

  /** B's FCB pointed at record 384: the third extent of a group that has no entry. */
  function Pointed(f: FcbValue): FcbValue { Fcb(Emptied(Blank(f)).ent, 0, 0, 1, 128) }

  lemma PointedFacts(p: Dpb, f: FcbValue)
    requires IsTiny(p) && IsB(f)
    ensures Target(Pointed(f), true) == (0, 3) && TargetGroup(p, (0, 3)) == 1 && 3 % p.Extents() == 1
    ensures Key(Pointed(f).ent) == Key(f.ent) && Pointed(f).ent.extent == 0
  {
    hide Dpb.WellFormed;
  }

  lemma Missing(p: Dpb, x: World, d: seq<Ent>, f: FcbValue)
    requires IsTiny(p) && IsB(f) && OneFile(p, d) && Inv(p, x, -1) && x.fcbs == [Pointed(f)]
    requires exists k: nat :: PutIn(d, k, Emptied(Blank(f)).ent, Dir(p, x.v))
    requires DiskFull(p, x.v.alv)
    ensures Cramped(p, x, Pointed(f), Random)
  {
    hide IsTiny, IsB, Inv, Dir, OneFile, Key, TwoFiles, Group, Emptied, Blank, Target, TargetGroup, FilesOf, Pointed,
      HasFreeEntry, DiskFull;
    InvBasics(p, x, -1);
    KeysDiffer(p, d, f);
    PointedFacts(p, f);
    var k: nat :| PutIn(d, k, Emptied(Blank(f)).ent, Dir(p, x.v));
    StillTwo(p, d, k, f, Dir(p, x.v));
    NotThere(p, Dir(p, x.v), k, Key(f.ent), 1);
    ContentsKeysOf(p, x, Key(f.ent), 1);
  }

  lemma StillTwo(p: Dpb, d: seq<Ent>, k: nat, f: FcbValue, d': seq<Ent>)
    requires IsTiny(p) && IsB(f) && p.Extents() == 2 && 0 < k < 64 && TwoFiles(p, d, k, Key(f.ent))
    requires PutIn(d, k, Emptied(Blank(f)).ent, d')
    ensures TwoFiles(p, d', k, Key(f.ent))
  {
    BlankB(p, f);
    hide Key, Group;
  }

  lemma PointStep(p: Dpb, y: World, f: FcbValue)
    requires Inv(p, y, -1) && y == World(y.v, [Emptied(Blank(f))], [true], 0)
    ensures Fits(p, y.v)
    ensures var op := Point(0, 0, 0, 1, 128);
      Allowed(p, y, op) && Exec(p, y, op).0 == y.(fcbs := [Pointed(f)]) && Inv(p, y.(fcbs := [Pointed(f)]), -1)
  {
    hide Inv, Emptied, Blank;
    InvBasics(p, y, -1);
    PointOk(p, y, Point(0, 0, 0, 1, 128));
    assert y.fcbs[0 := Pointed(f)] == [Pointed(f)];
  }

  lemma RunTwo(p: Dpb, w: World, a: Op, b: Op)
    requires Fits(p, w.v) && Allowed(p, w, a) && Allowed(p, Exec(p, w, a).0, b)
    ensures AllowedRun(p, w, [a, b]) && Run(p, w, map[], [a, b]).0 == Exec(p, Exec(p, w, a).0, b).0
  {
    hide Exec, Noted, Inv, Creates, Fresh, Settling, Agrees;
    var w1 := Exec(p, w, a).0;
    var ops := [a, b];
    assert ops[1..] == [b] && [b][1..] == [];
    assert AllowedRun(p, w1, [b]);
    assert forall log: Log :: Run(p, w1, log, [b]).0 == Exec(p, w1, b).0;
  }

  lemma FromMedium(p: Dpb, v: Vol, f: FcbValue, data: Sector)
    requires IsTiny(p) && Fits(p, v) && !v.ro && OneFile(p, Dir(p, v)) && IsB(f)
    ensures var w := World(Login(p, v), [f], [false], 0);
      Damaged(p, w, [Make(0, f), Point(0, 0, 0, 1, 128)], Write(0, Random, data))
  {
    hide IsTiny, IsB, Inv, Dir, OneFile, Login, Exec, Emptied, Blank, Allowed, DiskFull, Cramped, Target, Noted;
    MediumConsistent(p, v);
    LoginStarts(p, v, [f], 0);
    LoginEffect(p, v);
    assert seq(1, _ => false) == [false];
    TakenBlock(p, Dir(p, v));
    AllTaken(p, Login(p, v).alv);
    var w := World(Login(p, v), [f], [false], 0);
    MakeB(p, w, f);
    var y := Exec(p, w, Make(0, f)).0;
    PointStep(p, y, f);
    var x := y.(fcbs := [Pointed(f)]);
    RunTwo(p, w, Make(0, f), Point(0, 0, 0, 1, 128));
    Missing(p, x, Dir(p, v), f);
    FullDiskWrite(p, x, 0, Random, data);
    PointedFacts(p, f);
  }

  /** After an allowed run from `w` the call `op` returns 2 and breaks the invariant. */
  ghost predicate Damaged(p: Dpb, w: World, calls: seq<Op>, op: Op)
  {
    && Inv(p, w, -1) && AllowedRun(p, w, calls)
    && var x := Run(p, w, map[], calls).0;
    && Callable(x, op) && Exec(p, x, op).1 == 2 && !Inv(p, Exec(p, x, op).0, -1)
  }

  /** The damage is within reach: log in a medium that holds one file, make another, point its FCB at
      record 384, and write. */
  lemma DamageInReach(data: Sector) returns (w: World, calls: seq<Op>)
    ensures Damaged(TINY, w, calls, Write(0, Random, data))
  {
    hide IsTiny, SetSlot, Damaged, Login, OneFile;
    var m := SetSlot(TINY, EMPTY_MAP, 0, 1);
    var f := Fcb(DirEnt(0, seq(11, _ => 66), 0, 0, 0, 0, EMPTY_MAP), 0, 0, 0, 0);
    TinyShape();
    var v := Medium(TINY, DirEnt(0, seq(11, _ => 65), 0, 0, 0, 1, m));
    FromMedium(TINY, v, f, data);
    w, calls := World(Login(TINY, v), [f], [false], 0), [Make(0, f), Point(0, 0, 0, 1, 128)];
  }
}

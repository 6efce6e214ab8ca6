/** Whole runs: any sequence of file-system calls that keeps the callers' side of the bargain treats
    every file as a sparse map from record number to record. */
module Sessions {
  import opened DiskParams
  import opened DiskMap
  import opened Directory
  import opened Allocation
  import opened Volume
  import opened RecordIo
  import opened Scanning
  import opened Files
  import opened Blocks
  import opened FileSystem
  import opened Transitions
  import opened Transfers
  import opened RecordAccess
  import opened LoginScan
  import opened FileCalls
  import opened Erasing
  import opened Truncation

  /** A call, or a step a program takes by itself on FCB slot `j`: `Point` sets its record fields,
      `Release` stops using it. `Relogin` is a disk reset and the login that follows. */
  datatype Op =
    | Make(j: nat, f: FcbValue)
    | Open(j: nat, f: FcbValue)
    | Close(j: nat)
    | Release(j: nat)
    | Point(j: nat, cur: byte, ran0: byte, ran1: byte, ran2: byte)
    | Read(j: nat, mode: Mode)
    | Write(j: nat, mode: Mode, data: Sector)
    | Erase(f: FcbValue)
    | Truncate(f: FcbValue)
    | Relogin

  /** The call names FCB slots that exist, and there is such a call. */
  predicate Callable(w: World, op: Op)
  {
    && |w.open| == |w.fcbs|
    && (op.Make? || op.Open? || op.Close? || op.Release? || op.Point? || op.Read? || op.Write? ==> op.j < |w.fcbs|)
    && (op.Read? ==> op.mode != ZeroFilling)
    && (op.Read? || op.Write? ==> op.mode == Sequential ==> w.fcbs[op.j].cur <= 128)
  }

  /** World and return code after the call. */
  function Exec(p: Dpb, w: World, op: Op): (r: (World, nat))
    requires Fits(p, w.v) && Callable(w, op)
    ensures Fits(p, r.0.v)
  {
    match op
    case Make(j, f) =>
      var r := MakeCall(p, w.v, f);
      Taken(w, j, r)
    case Open(j, f) =>
      var r := OpenCall(p, w.v, f);
      Taken(w, j, r)
    case Close(j) =>
      var r := CloseFi(p, w.v, w.fcbs[j]);
      (With(w, r.0, j, r.1), r.2)
    case Release(j) => (w.(open := w.open[j := false]), 0)
    case Point(j, cur, ran0, ran1, ran2) =>
      (With(w, w.v, j, Fcb(w.fcbs[j].ent, cur, ran0, ran1, ran2)), 0)
    case Read(j, mode) =>
      var r := BdosRw(p, w.v, w.fcbs[j], true, mode);
      (With(w, r.0, j, r.1), r.2)
    case Write(j, mode, data) =>
      var r := BdosRw(p, w.v.(dma := data), w.fcbs[j], false, mode);
      (With(w, r.0, j, r.1), r.2)
    case Erase(f) =>
      var r := DeleteCall(p, w.v, f);
      (w.(v := r.0), r.2)
    case Truncate(f) =>
      var r := TruncateFi(p, w.v, f);
      (w.(v := r.0), r.2)
    case Relogin => (w.(v := Login(p, w.v.(logged := false, crit := false))), 0)
  }

  /** A successful make or open puts the FCB into its slot. */
  function Taken(w: World, j: nat, r: (Vol, FcbValue, nat)): (World, nat)
    requires j < |w.fcbs| == |w.open|
  {
    if r.2 < 255 then (With(w, r.0, j, r.1).(open := w.open[j := true]), r.2) else (w.(v := r.0), r.2)
  }

  /** An FCB that names a file nobody has open. */
  ghost predicate Fresh(p: Dpb, w: World, f: FcbValue)
    requires Fits(p, w.v)
  {
    Addressed(w.user, f) && NoFcbFor(StateOf(p, w), Key(f.ent))
  }

  /** The callers' obligations: names are unique and unambiguous, a file has one FCB at a time, an FCB
      is given up only after closing, and a write that has to create a directory entry finds a free
      one and, on a full disk, creates the first extent of an entry (see `FullDiskWrite`). */
  ghost predicate Allowed(p: Dpb, w: World, op: Op)
    requires Fits(p, w.v)
  {
    && Callable(w, op)
    && match op
       case Make(j, f) => !w.open[j] && Fresh(p, w, f) && At(p, Dir(p, w.v), Blank(f)) == p.drm + 1
       case Open(j, f) => !w.open[j] && Fresh(p, w, f)
       case Close(j) => w.open[j]
       case Release(j) => w.open[j] && At(p, Dir(p, w.v), w.fcbs[j]) <= p.drm && Agrees(p, w, j)
       case Point(j, _, _, _, _) => w.open[j]
       case Read(j, mode) => w.open[j]
       case Write(j, mode, data) =>
         w.open[j] && (Creates(p, w, w.fcbs[j], mode) ==>
           && HasFreeEntry(Dir(p, w.v))
           && (DiskFull(p, w.v.alv) ==> Target(w.fcbs[j], mode != Sequential).1 % p.Extents() == 0))
       case Erase(f) => Fresh(p, w, f)
       case Truncate(f) => Fresh(p, w, f) && CutsCleanly(p, TruncateOne(UnpackRan(f)), Key(f.ent), FilesOf(p, w))
       case Relogin => Settling(p, w)
  }

  /** Every FCB in use agrees with its directory entry. */
  ghost predicate Settling(p: Dpb, w: World)
    requires Fits(p, w.v)
  {
    |w.open| == |w.fcbs| &&
    forall j: nat :: j < |w.fcbs| && w.open[j] ==> At(p, Dir(p, w.v), w.fcbs[j]) <= p.drm && Agrees(p, w, j)
  }

  // ---------------------------------------------------------------- what each call does to the files

  /** Slot `j` is in use for the file `f` names, at its beginning and the record `cur`. */
  predicate InUse(w: World, j: nat, f: FcbValue, x: World)
  {
    && j < |w.open| && x.open == w.open[j := true] && j < |w.fcbs| == |x.fcbs| && x.fcbs == w.fcbs[j := x.fcbs[j]]
    && var g := x.fcbs[j];
    && Key(g.ent) == Key(f.ent) && RecordOf(g) == g.cur
    && g.ran0 == f.ran0 && g.ran1 == f.ran1 && g.ran2 == f.ran2
  }

  predicate NotTaken(w: World, x: World) { x.open == w.open && x.fcbs == w.fcbs }

  /** After a transfer, slot `j` stands at the record, or with sequential I/O at the next. */
  predicate StepsOn(w: World, j: nat, f: FcbValue, mode: Mode, x: World)
  {
    && x.open == w.open && j < |x.fcbs| == |w.fcbs| && x.fcbs == w.fcbs[j := x.fcbs[j]]
    && RecordAccess.Stepped(f, mode, Wanted(f, mode), x.fcbs[j])
  }

  ghost predicate Effect(p: Dpb, w: World, op: Op, x: World, code: nat)
    requires Fits(p, w.v) && Fits(p, x.v) && Callable(w, op)
  {
    match op
    case Make(j, f) =>
      && SameViews(p, w, x) && (code < 255 <==> HasFreeEntry(Dir(p, w.v)))
      && if code < 255 then InUse(w, j, f, x) && f.cur == x.fcbs[j].cur else NotTaken(w, x)
    case Open(j, f) =>
      && SameViews(p, w, x) && (code < 255 <==> Find(FilesOf(p, w), Key(f.ent), 0) <= p.drm)
      && if code < 255 then InUse(w, j, f, x) && (f.cur != 0xFF ==> f.cur == x.fcbs[j].cur) else NotTaken(w, x)
    case Close(j) => SameViews(p, w, x) && code < 255 && Closed(p, x, j) && NotTaken(w, x)
    case Read(j, mode) =>
      var f := w.fcbs[j];
      && SameViews(p, w, x)
      && (code == 0 ==> !PastMaximum(f, mode) && StepsOn(w, j, f, mode, x))
      && (!PastMaximum(f, mode) ==>
            FileView(p, w, Key(f.ent), Wanted(f, mode)) == if code == 0 then Some(x.v.dma) else None)
    case Write(j, mode, data) =>
      var f := w.fcbs[j];
      if code == 0
      then !PastMaximum(f, mode) && StepsOn(w, j, f, mode, x) && Wrote(p, w, x, Key(f.ent), Wanted(f, mode), data)
      else SameViews(p, w, x) && if code == 2 then DiskFull(p, w.v.alv) else PastMaximum(f, mode)
    case Erase(f) =>
      forall id: FileId, m: nat :: FileView(p, x, id, m) == if id == Key(f.ent) then None else FileView(p, w, id, m)
    case Truncate(f) =>
      if code < 255 then TruncatedViews(p, w, x, Key(f.ent), UnpackRan(f)) else SameViews(p, w, x)
    case _ => SameViews(p, w, x)
  }

  lemma AllowedIsCallable(p: Dpb, w: World, op: Op)
    requires Fits(p, w.v) && Allowed(p, w, op)
    ensures Callable(w, op)
  {
  }

  /** One call: the invariant holds again, and the files change as they should. */
  ghost predicate CallOk(p: Dpb, w: World, op: Op)
    requires Fits(p, w.v) && Callable(w, op)
  {
    var r := Exec(p, w, op);
    Inv(p, r.0, -1) && Effect(p, w, op, r.0, r.1)
  }

  // ---------------------------------------------------------------- the calls one by one

  /** An FCB that has just created an entry needs more care exactly if it did not begin with the entry's
      first extent. */
  lemma PendingHarmless(p: Dpb, w: World, j: nat)
    requires Inv(p, w, j) && j < |w.fcbs| && w.open[j]
    ensures Inv(p, w, -1) <==> w.fcbs[j].ent.extent % p.Extents() == 0
  {
    hide BlocksOk, EntOk, FcbOk, LastExt;
    var s := StateOf(p, w);
    EmptySettled(p);
    if s.fcbs[j].ent.extent % p.Extents() == 0 {
      forall k: nat | k < |s.fcbs| && s.open[k]
        ensures At(p, s.d, s.fcbs[k]) < |s.d| && Tracks(p, s.fcbs[k], s.d[At(p, s.d, s.fcbs[k])], false)
      {
      }
    }
  }

  lemma EmptySettled(p: Dpb)
    requires p.WellFormed()
    ensures LastExt(p, EMPTY_MAP) == 0
  {
    forall k: nat | k < p.Slots() ensures Slot(p, EMPTY_MAP, k) == 0 { EmptySlots(p, k); }
    LastSlotUnique(p, EMPTY_MAP, 0);
    Shapes(p);
  }

  lemma MakeOk(p: Dpb, w: World, j: nat, f: FcbValue)
    requires Inv(p, w, -1) && Allowed(p, w, Make(j, f))
    ensures CallOk(p, w, Make(j, f))
  {
    var b := Blank(f);
    assert Addressed(w.user, b) && Key(b.ent) == Key(f.ent);
    var r := MakeCall(p, w.v, f);
    assert r == DirScan(p, CreateFile, w.v, b, false, true);
    assert Steady(p, w.v);
    if HasFreeEntry(Dir(p, w.v)) {
      CreateKeeps(p, w, j, b);
      var x := With(w, r.0, j, r.1).(open := w.open[j := true]);
      assert x.fcbs[j].ent.extent == 0;
      hide Inv, SameViews, MakeCall, DirScan, At, Dir, Key, NoFcbFor;
      PendingHarmless(p, x, j);
    } else {
      CreateScan(p, w.v, b);
      QuietKeeps(p, w, r.0, -1);
      hide Inv, SameViews, MakeCall, DirScan, At, Dir, Key, NoFcbFor;
    }
  }

  lemma OpenOk(p: Dpb, w: World, j: nat, f: FcbValue)
    requires Inv(p, w, -1) && Allowed(p, w, Open(j, f))
    ensures CallOk(p, w, Open(j, f))
  {
    hide Inv, DirScan, Dir, Key, FilesOf;
    InvBasics(p, w, -1);
    var b := AtExtent(f, 0, 0);
    ContentsKeysOf(p, w, Key(f.ent), 0);
    NoName(p, AtExtent(f, 0, 0), f);
    if At(p, Dir(p, w.v), b) <= p.drm {
      OpenKeeps(p, w, j, b);
      OpenedThere(p, w, b);
    } else {
      OpenMisses(p, w, b);
    }
  }

  lemma NoName(p: Dpb, b: FcbValue, f: FcbValue)
    requires p.WellFormed() && b == AtExtent(f, 0, 0)
    ensures Group(p, b.ent) == 0 && Key(b.ent) == Key(f.ent)
  {
    hide Dpb.WellFormed;
  }

  lemma OpenedThere(p: Dpb, w: World, b: FcbValue)
    requires Inv(p, w, -1) && Addressed(w.user, b) && b.ent.extent == 0 && b.ent.s2 == 0
    requires At(p, Dir(p, w.v), b) <= p.drm
    ensures var g := Opened(b, Dir(p, w.v)[At(p, Dir(p, w.v), b)]);
      && Key(g.ent) == Key(b.ent) && RecordOf(g) == g.cur && (b.cur != 0xFF ==> g.cur == b.cur)
      && g.ran0 == b.ran0 && g.ran1 == b.ran1 && g.ran2 == b.ran2
  {
    OpenedShape(p, w.user, Dir(p, w.v), b);
    hide Inv, Dir, Key, At;
  }

  lemma CloseOk(p: Dpb, w: World, j: nat)
    requires Inv(p, w, -1) && Allowed(p, w, Close(j))
    ensures CallOk(p, w, Close(j)) && Closed(p, Exec(p, w, Close(j)).0, j) && Exec(p, w, Close(j)).1 < 255
  {
    hide Inv, SameViews, Dir, Agrees, At, With, CloseFi;
    InvBasics(p, w, -1);
    CloseKeeps(p, w, j);
    WithSame(w, CloseFi(p, w.v, w.fcbs[j]).0, j);
  }

  lemma WithSame(w: World, v: Vol, j: nat)
    requires j < |w.fcbs|
    ensures With(w, v, j, w.fcbs[j]) == w.(v := v)
  {
    assert w.fcbs[j := w.fcbs[j]] == w.fcbs;
  }

  /** FCB `j` agrees with its entry. */
  ghost predicate Closed(p: Dpb, w: World, j: nat)
    requires Fits(p, w.v)
  {
    j < |w.fcbs| && At(p, Dir(p, w.v), w.fcbs[j]) <= p.drm && Agrees(p, w, j)
  }

  lemma PointOk(p: Dpb, w: World, op: Op)
    requires Inv(p, w, -1) && op.Point? && Allowed(p, w, op)
    ensures CallOk(p, w, op)
  {
    hide Inv, SameViews;
    CursorKeeps(p, w, -1, op.j, w.v, Fcb(w.fcbs[op.j].ent, op.cur, op.ran0, op.ran1, op.ran2));
  }

  lemma ReadOk(p: Dpb, w: World, j: nat, mode: Mode)
    requires Inv(p, w, -1) && Allowed(p, w, Read(j, mode))
    ensures CallOk(p, w, Read(j, mode))
  {
    hide Inv, SameViews, FileView, BdosRw, Wanted, PastMaximum;
    ReadIsView(p, w, j, mode);
  }

  lemma WriteOk(p: Dpb, w: World, j: nat, mode: Mode, data: Sector)
    requires Inv(p, w, -1) && Allowed(p, w, Write(j, mode, data))
    ensures CallOk(p, w, Write(j, mode, data))
  {
    var y := w.(v := w.v.(dma := data));
    DmaKeeps(p, w, data);
    hide Inv, SameViews, FileView, BdosRw, Wanted, PastMaximum, Wrote, Dir, HasFreeEntry, Key, Fits, DiskFull,
      Creates, Target;
    WriteIsWrite(p, y, j, mode);
    WriteSettles(p, w, j, mode, data);
  }

  lemma DmaKeeps(p: Dpb, w: World, data: Sector)
    requires Inv(p, w, -1)
    ensures var y := w.(v := w.v.(dma := data));
      Inv(p, y, -1) && SameViews(p, w, y) && Dir(p, y.v) == Dir(p, w.v)
      && forall j: nat, mode: Mode :: j < |w.fcbs| ==> Creates(p, y, w.fcbs[j], mode) == Creates(p, w, w.fcbs[j], mode)
  {
    var y := w.(v := w.v.(dma := data));
    QuietKeeps(p, w, y.v, -1);
    SteadyDir(p, w.v, y.v);
  }

  /** From the outcome of `bdosrw` to that of the call. */
  lemma WriteSettles(p: Dpb, w: World, j: nat, mode: Mode, data: Sector)
    requires Fits(p, w.v) && Allowed(p, w, Write(j, mode, data))
    requires var y := w.(v := w.v.(dma := data));
      && SameViews(p, w, y) && (Creates(p, y, w.fcbs[j], mode) <==> Creates(p, w, w.fcbs[j], mode))
      && WriteResult(p, y, j, mode, BdosRw(p, y.v, y.fcbs[j], false, mode))
    ensures CallOk(p, w, Write(j, mode, data))
  {
    hide Inv, SameViews, FileView, BdosRw, Wanted, PastMaximum, Wrote, Dir, Creates, Target, HasFreeEntry, Key,
      DiskFull;
    var y := w.(v := w.v.(dma := data));
    var r := BdosRw(p, y.v, w.fcbs[j], false, mode);
    var x := With(w, r.0, j, r.1);
    assert With(y, r.0, j, r.1) == x;
    if r.2 == 0 {
      WroteAfterViews(p, w, y, x, Key(w.fcbs[j].ent), Wanted(w.fcbs[j], mode), data);
    } else {
      ViewsCompose(p, w, y, x);
      if r.2 == 2 && Creates(p, w, w.fcbs[j], mode) { PendingHarmless(p, x, j); }
    }
  }

  /** Sequential writes need no care on a full disk: an extent that is not the first of its group has its
      entry, since the FCB comes from the extent before. */
  lemma SequentialCreatesFirst(p: Dpb, w: World, j: nat)
    requires Inv(p, w, -1) && j < |w.fcbs| && w.open[j] && Creates(p, w, w.fcbs[j], Sequential)
    ensures Target(w.fcbs[j], false).1 % p.Extents() == 0
  {
    hide Inv, NoEntry, Target, Dpb.WellFormed, Dpb.Extents;
    InvBasics(p, w, -1);
    var f := w.fcbs[j];
    var t := Target(f, false);
    NextExtent(p, f);
    if t.1 % p.Extents() != 0 { SameGroupEntry(p, w, j, t); }
  }

  /** The next extent begins a group or stays in this one. */
  lemma NextExtent(p: Dpb, f: FcbValue)
    requires p.WellFormed() && f.ent.extent < 32
    ensures var t := Target(f, false);
      && 0 < p.Extents() && t.1 < 32
      && (t.1 % p.Extents() == 0 || (t.0 == f.ent.s2 % 64 && t.1 / p.Extents() == f.ent.extent / p.Extents()))
  {
    hide Dpb.WellFormed;
    if f.ent.extent < 31 && (f.ent.extent + 1) % p.Extents() != 0 { PreviousExtent(p, f.ent.extent); }
  }

  lemma PreviousExtent(p: Dpb, e: nat)
    requires p.WellFormed() && (e + 1) % p.Extents() != 0
    ensures (e + 1) / p.Extents() == e / p.Extents()
  {
    ExtentShapes(p);
    hide Dpb.WellFormed;
    var x := p.exm + 1;
    if x == 1 {} else if x == 2 {} else if x == 4 {} else if x == 8 {} else { assert x == 16; }
  }

  /** The one case the callers' obligations leave out of a write: on a full disk it returns 2, changes no
      file, and keeps the invariant exactly if the entry it created begins with its first extent. */
  lemma FullDiskWrite(p: Dpb, w: World, j: nat, mode: Mode, data: Sector)
    requires Inv(p, w, -1) && Callable(w, Write(j, mode, data)) && w.open[j] && Cramped(p, w, w.fcbs[j], mode)
    ensures var x := Exec(p, w, Write(j, mode, data));
      && x.1 == 2 && SameViews(p, w, x.0) && Inv(p, x.0, j)
      && |x.0.fcbs| == |w.fcbs| && x.0.fcbs[j].ent.extent == Target(w.fcbs[j], mode != Sequential).1
      && (Inv(p, x.0, -1) <==> Target(w.fcbs[j], mode != Sequential).1 % p.Extents() == 0)
  {
    hide Inv, SameViews, FileView, BdosRw, Wanted, PastMaximum, Wrote, Dir, HasFreeEntry, Key, DiskFull, Creates,
      Target;
    InvBasics(p, w, -1);
    var y := w.(v := w.v.(dma := data));
    DmaKeeps(p, w, data);
    WriteIsWrite(p, y, j, mode);
    var r := BdosRw(p, y.v, w.fcbs[j], false, mode);
    var x := With(w, r.0, j, r.1);
    assert With(y, r.0, j, r.1) == x;
    ViewsCompose(p, w, y, x);
    PendingHarmless(p, x, j);
  }

  lemma EraseOk(p: Dpb, w: World, f: FcbValue)
    requires Inv(p, w, -1) && Allowed(p, w, Erase(f))
    ensures CallOk(p, w, Erase(f))
  {
    hide Inv, FileView, DeleteCall, FilesOf, SomeBelongs, CutOff;
    DeleteIsErase(p, w, f);
  }

  lemma TruncateOk(p: Dpb, w: World, f: FcbValue)
    requires Inv(p, w, -1) && Allowed(p, w, Truncate(f))
    ensures CallOk(p, w, Truncate(f))
  {
    hide Inv, FileView, TruncateFi, FilesOf, CutOff, SameViews, TruncatedViews, SizeFrom, CutSizeFrom;
    TruncateIsCut(p, w, f);
  }

  lemma ReleaseOk(p: Dpb, w: World, j: nat)
    requires Inv(p, w, -1) && Allowed(p, w, Release(j))
    ensures CallOk(p, w, Release(j))
  {
    hide Inv, SameViews, Agrees;
    DetachKeeps(p, w, j);
  }

  // ---------------------------------------------------------------- logging in again

  /** With every FCB closed the directory alone tells what the files are. */
  lemma ClosedContents(p: Dpb, w: World)
    requires Inv(p, w, -1) && Settling(p, w)
    ensures FilesOf(p, w) == Pieces(p, Dir(p, w.v))
  {
    var s := StateOf(p, w);
    hide BlocksOk, Steady, EntOk, FcbOk, Tracks, Settled;
    forall i: nat | i < |s.d| ensures PieceAt(p, s, i) == PieceOf(p, s.d[i]) {
      if Owned(p, s, i) {
        var j: nat :| Owns(p, s, j, i);
        OwnedPiece(p, s, j, i);
      }
    }
  }

  lemma NamedInDirectory(p: Dpb, d: seq<Ent>, b: nat)
    requires b != 0
    ensures Blocks.Named(p, Pieces(p, d), b) <==> NamedFrom(p, d, 0, b)
  {
    var c := Pieces(p, d);
    if Blocks.Named(p, c, b) {
      var i: nat, k: nat :| i < |c| && k < p.Slots() && BlockAt(p, c, i, k) == b;
      assert Live(d[i]) && Slot(p, d[i].dskmap, k) == b;
      assert InMap(p, d[i].dskmap, p.Slots(), b);
    }
    if NamedFrom(p, d, 0, b) {
      var m: nat :| m < |d| && Live(d[m]) && InMap(p, d[m].dskmap, p.Slots(), b);
      var k: nat :| k < p.Slots() && Slot(p, d[m].dskmap, k) == b;
      assert BlockAt(p, c, m, k) == b;
    }
  }

  /** In every reachable state in which all FCBs are closed, the vector kept step by step is the one a
      login from the same medium would rebuild, whatever that login starts from. */
  lemma VectorIsRebuilt(p: Dpb, w: World, u: Vol)
    requires Inv(p, w, -1) && Settling(p, w)
    requires Fits(p, u) && u.disk == w.v.disk && forall b: nat :: p.dsm < b < |u.alv| ==> u.alv[b] == w.v.alv[b]
    ensures Login(p, u).alv == w.v.alv
  {
    LoginEffect(p, u);
    SteadyDir(p, w.v, u);
    ClosedContents(p, w);
    DirectoryFits(p);
    var a, r := w.v.alv, Login(p, u).alv;
    assert VectorExact(p, a, FilesOf(p, w));
    hide Inv, Login, Steady, Settling, FilesOf, NamedFrom, Dir, Pieces, DirScan;
    forall b: nat | b < |a| ensures r[b] == a[b] {
      if 0 < b <= p.dsm { NamedInDirectory(p, Dir(p, w.v), b); }
    }
    assert r == a;
  }

  lemma ReloginOk(p: Dpb, w: World)
    requires Inv(p, w, -1) && Allowed(p, w, Relogin)
    ensures CallOk(p, w, Relogin) && Exec(p, w, Relogin).0.v.alv == w.v.alv
  {
    hide Inv, Login, Dir, Settling, NamedFrom, Steady, SameViews;
    InvBasics(p, w, -1);
    InvDrive(p, w);
    var u := w.v.(logged := false, crit := false);
    LoginEffect(p, u);
    VectorIsRebuilt(p, w, u);
    SteadyDir(p, w.v, u);
    SameStateKeeps(p, w, w.(v := Login(p, u)));
  }

  /** A drive with the same directory, vector and data, logged in and steady, is as good. */
  lemma SameStateKeeps(p: Dpb, w: World, x: World)
    requires Inv(p, w, -1) && Steady(p, x.v) && x == w.(v := x.v) && Dir(p, x.v) == Dir(p, w.v)
    requires x.v.logged && !x.v.ro && x.v.alv == w.v.alv && x.v.disk == w.v.disk
    ensures Inv(p, x, -1) && SameViews(p, w, x)
  {
    hide Dir, FilesOk, ChecksumsCurrent, MarkCovers;
    assert StateOf(p, x) == StateOf(p, w);
    ViewsFromData(p, w, x);
  }

  // ---------------------------------------------------------------- runs

  /** Every allowed call keeps the invariant and does to the files what it should. */
  lemma CallKeeps(p: Dpb, w: World, op: Op)
    requires Inv(p, w, -1) && Allowed(p, w, op)
    ensures CallOk(p, w, op)
  {
    hide Inv, Allowed, CallOk;
    match op
    case Make(j, f) => MakeOk(p, w, j, f);
    case Open(j, f) => OpenOk(p, w, j, f);
    case Close(j) => CloseOk(p, w, j);
    case Release(j) => ReleaseOk(p, w, j);
    case Point(j, cur, ran0, ran1, ran2) => PointOk(p, w, op);
    case Read(j, mode) => ReadOk(p, w, j, mode);
    case Write(j, mode, data) => WriteOk(p, w, j, mode, data);
    case Erase(f) => EraseOk(p, w, f);
    case Truncate(f) => TruncateOk(p, w, f);
    case Relogin => ReloginOk(p, w);
  }

  /** What a run should have left readable: the last record written at each place, unless its file has
      since been erased or cut below it. */
  type Log = map<(FileId, nat), Sector>

  ghost function Noted(log: Log, w: World, op: Op, code: nat): Log
    requires Callable(w, op)
  {
    match op
    case Write(j, mode, data) =>
      if code == 0 then log[(Key(w.fcbs[j].ent), Wanted(w.fcbs[j], mode)) := data] else log
    case Erase(f) => map k | k in log && k.0 != Key(f.ent) :: log[k]
    case Truncate(f) =>
      if code < 255 then map k | k in log && (k.0 != Key(f.ent) || k.1 < UnpackRan(f)) :: log[k] else log
    case _ => log
  }

  ghost predicate LogHolds(p: Dpb, w: World, log: Log)
    requires Fits(p, w.v)
  {
    forall k :: k in log ==> FileView(p, w, k.0, k.1) == Some(log[k])
  }

  /** The calls are made with the callers' obligations met. */
  ghost predicate AllowedRun(p: Dpb, w: World, ops: seq<Op>)
    requires Fits(p, w.v)
    decreases |ops|
  {
    |ops| == 0 || (Allowed(p, w, ops[0]) && AllowedRun(p, Exec(p, w, ops[0]).0, ops[1..]))
  }

  /** World and log after a run. */
  ghost function Run(p: Dpb, w: World, log: Log, ops: seq<Op>): (r: (World, Log))
    requires Fits(p, w.v) && AllowedRun(p, w, ops)
    ensures Fits(p, r.0.v)
    decreases |ops|
  {
    if |ops| == 0 then (w, log)
    else
      var r := Exec(p, w, ops[0]);
      Run(p, r.0, Noted(log, w, ops[0], r.1), ops[1..])
  }

  lemma LogStep(p: Dpb, w: World, log: Log, op: Op)
    requires Fits(p, w.v) && LogHolds(p, w, log) && Callable(w, op) && CallOk(p, w, op)
    ensures var r := Exec(p, w, op); LogHolds(p, r.0, Noted(log, w, op, r.1))
  {
    hide Inv, FileView, Exec, Key, Wanted, PastMaximum, UnpackRan, DiskFull;
    var r := Exec(p, w, op);
  }

  /** Over every run: the invariant holds at the end, and every record written and not since erased or
      cut off reads back as written. */
  lemma {:induction false} RunKeeps(p: Dpb, w: World, log: Log, ops: seq<Op>)
    requires Inv(p, w, -1) && LogHolds(p, w, log) && AllowedRun(p, w, ops)
    ensures var r := Run(p, w, log, ops); Inv(p, r.0, -1) && LogHolds(p, r.0, r.1)
    decreases |ops|
  {
    if |ops| > 0 {
      CallKeeps(p, w, ops[0]);
      LogStep(p, w, log, ops[0]);
      var r := Exec(p, w, ops[0]);
      hide Inv, LogHolds, Exec, Allowed, Noted, Effect;
      RunKeeps(p, r.0, Noted(log, w, ops[0], r.1), ops[1..]);
    }
  }

  /** At any point of any run, reading a record the run has written returns it. */
  lemma LoggedRecordReadsBack(p: Dpb, w: World, log: Log, ops: seq<Op>, j: nat, mode: Mode)
    requires Inv(p, w, -1) && LogHolds(p, w, log) && AllowedRun(p, w, ops)
    requires Allowed(p, Run(p, w, log, ops).0, Read(j, mode))
    requires var r := Run(p, w, log, ops);
      var f := r.0.fcbs[j];
      !PastMaximum(f, mode) && (Key(f.ent), Wanted(f, mode)) in r.1
    ensures var r := Run(p, w, log, ops);
      var f := r.0.fcbs[j];
      var x := Exec(p, r.0, Read(j, mode));
      x.1 == 0 && x.0.v.dma == r.1[(Key(f.ent), Wanted(f, mode))]
  {
    hide Inv, Exec, FileView, SameViews, Run, AllowedRun, Allowed, Wanted, PastMaximum, Key, StepsOn, NoEntry;
    InvBasics(p, w, -1);
    RunKeeps(p, w, log, ops);
    var r := Run(p, w, log, ops);
    AllowedIsCallable(p, r.0, Read(j, mode));
    CallKeeps(p, r.0, Read(j, mode));
  }

  /** In every state a run reaches: no block is named by two map slots, counting directory entries and
      the FCBs that stand for them; none named is a directory block; the vector marks exactly the
      directory and the named blocks; every checksum is current, no live entry lies above the
      high-water mark, and the drive has not been made read-only. */
  lemma ReachableState(p: Dpb, w: World, log: Log, ops: seq<Op>)
    requires Inv(p, w, -1) && LogHolds(p, w, log) && AllowedRun(p, w, ops)
    ensures var x := Run(p, w, log, ops).0;
      var c := FilesOf(p, x);
      && (forall i: nat, k: nat, i': nat, k': nat ::
            i < |c| && k < p.Slots() && i' < |c| && k' < p.Slots()
              && BlockAt(p, c, i, k) == BlockAt(p, c, i', k') != 0 ==>
              i == i' && k == k')
      && (forall i: nat, k: nat :: i < |c| && k < p.Slots() && BlockAt(p, c, i, k) != 0 ==>
            p.DirBlocks() <= BlockAt(p, c, i, k) <= p.dsm && x.v.alv[BlockAt(p, c, i, k)])
      && (forall b: nat :: b <= p.dsm && x.v.alv[b] ==> b < p.DirBlocks() || Blocks.Named(p, c, b))
      && (forall s: nat :: s < p.cks && s < p.DirSectors() ==> x.v.csv[s] == Checksum(x.v.disk[s]))
      && (forall i: nat :: i <= p.drm && Live(Dir(p, x.v)[i]) ==> i <= x.v.hiwater)
      && x.v.logged && !x.v.ro
  {
    hide FilesOk, FilesOf, BlockAt, Run, AllowedRun, LogHolds, Covered, RcOk, Unique, Dir;
    RunKeeps(p, w, log, ops);
    var x := Run(p, w, log, ops).0;
    var c := FilesOf(p, x);
    assert Sized(p, x.v.alv);
    forall i: nat, k: nat | i < |c| && k < p.Slots() && BlockAt(p, c, i, k) != 0
      ensures Blocks.Named(p, c, BlockAt(p, c, i, k))
    {
    }
  }

  // ---------------------------------------------------------------- where runs start

  /** A medium whose directory makes sense. */
  ghost predicate Consistent(p: Dpb, v: Vol)
    requires Fits(p, v)
  {
    var d := Dir(p, v);
    var c := Pieces(p, d);
    && (forall i :: 0 <= i < |d| ==> EntOk(p, d[i]) && (Live(d[i]) ==> Settled(p, d[i])))
    && Unique(c) && Disjoint(p, c) && InData(p, c) && Covered(p, c)
  }

  /** Logging in any consistent medium starts a run: no FCB is open yet. */
  lemma LoginStarts(p: Dpb, v: Vol, fcbs: seq<FcbValue>, user: byte)
    requires Fits(p, v) && Consistent(p, v) && !v.ro
    ensures Inv(p, World(Login(p, v), fcbs, seq(|fcbs|, _ => false), user), -1)
  {
    hide Login, Dir, Steady, EntOk, Settled;
    var r := Login(p, v);
    var w := World(r, fcbs, seq(|fcbs|, _ => false), user);
    LoginEffect(p, v);
    var d := Dir(p, v);
    assert Dir(p, r) == d && Steady(p, r) && r.logged && !r.ro;
    var s := StateOf(p, w);
    assert forall i: nat :: !Owned(p, s, i);
    assert FilesOf(p, w) == Pieces(p, d);
    assert FilesOk(p, user, s, -1);
    {
      var c := Pieces(p, d);
      DirectoryFits(p);
      forall b: nat | 0 < b <= p.dsm ensures Blocks.Named(p, c, b) <==> NamedFrom(p, d, 0, b) { NamedInDirectory(p, d,
        b); }
      hide Pieces, Blocks.Named;
      assert VectorExact(p, r.alv, c);
      assert RcOk(c) by { RcOfPieces(p, d); }
    }
  }

  lemma RcOfPieces(p: Dpb, d: seq<Ent>)
    requires forall i :: 0 <= i < |d| ==> EntOk(p, d[i])
    ensures RcOk(Pieces(p, d))
  {
    hide MapOk;
  }

  /** A freshly formatted medium is consistent and holds no record. */
  lemma BlankMedium(p: Dpb, v: Vol)
    requires Fits(p, v) && forall i :: 0 <= i <= p.drm ==> Dir(p, v)[i].entry == FREE
    ensures Consistent(p, v)
  {
    hide Dir, MapOk, Settled;
    var c := Pieces(p, Dir(p, v));
    assert forall i :: 0 <= i < |c| ==> c[i] == Gap;
    assert forall i: nat, k: nat :: i < |c| && k < p.Slots() ==> BlockAt(p, c, i, k) == 0;
  }
}

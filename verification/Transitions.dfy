/** Closing, moving between extents and transferring records keep the invariant, and change what
    files contain only where a record is written. */
module Transitions {
  import opened DiskParams
  import opened DiskMap
  import opened Directory
  import opened Allocation
  import opened Volume
  import opened RecordIo
  import opened Scanning
  import opened Files
  import opened Blocks
  import opened FileSystem

  // ---------------------------------------------------------------- directory writes

  /** Writing entry `i` leaves the data sectors alone. */
  lemma EntryWrite(p: Dpb, v: Vol, i: nat, e: Ent)
    requires Fits(p, v) && ChecksumsCurrent(p, v) && i <= p.drm
    ensures var r := DirWr(p, PutDir(AtIndex(p, v, i), i, e), i / 4);
      && ChecksumsCurrent(p, r) && Dir(p, r) == Dir(p, v)[i := e]
      && r.alv == v.alv && r.hiwater == v.hiwater && r.ro == v.ro && r.logged == v.logged
      && r.crit == v.crit && r.dma == v.dma && r.srchpos == i
      && (forall s: nat :: s < |v.disk| && DataSector(p, s) ==> r.disk[s] == v.disk[s])
  {
    DirWrEffect(p, AtIndex(p, v, i), i, e);
    SteadyDir(p, v, AtIndex(p, v, i));
    DirectoryFits(p);
    hide Dir, DirWr;
  }

  lemma SteadyDir(p: Dpb, v: Vol, r: Vol)
    requires Fits(p, v) && Fits(p, r) && r.disk == v.disk
    ensures Dir(p, r) == Dir(p, v)
  {
  }

  /** Differences that matter to nobody: scan position, buffers, the critical flag. */
  ghost predicate Quiet(v: Vol, r: Vol)
  {
    r == v.(dirbuf := r.dirbuf, srchpos := r.srchpos, crit := r.crit, dma := r.dma,
            truncFound := r.truncFound, truncCode := r.truncCode)
  }

  lemma QuietKeeps(p: Dpb, w: World, r: Vol, pend: int)
    requires Inv(p, w, pend) && Quiet(w.v, r)
    ensures var x := w.(v := r); Inv(p, x, pend) && StateOf(p, x) == StateOf(p, w) && SameViews(p, w, x)
  {
    SteadyDir(p, w.v, r);
    var x := w.(v := r);
    assert StateOf(p, x) == StateOf(p, w);
    ViewsFromData(p, w, x);
  }

  // ---------------------------------------------------------------- closing

  /** The FCB and its entry agree. */
  ghost predicate Agrees(p: Dpb, w: World, j: nat)
    requires Fits(p, w.v) && j < |w.fcbs| && At(p, Dir(p, w.v), w.fcbs[j]) <= p.drm
  {
    var e := Dir(p, w.v)[At(p, Dir(p, w.v), w.fcbs[j])];
    PieceOf(p, e) == FcbPiece(p, w.fcbs[j]) && Settled(p, e)
  }

  /** `close_fi` succeeds, leaves the FCB alone, brings its entry up to date and changes no file. */
  lemma CloseKeeps(p: Dpb, w: World, j: nat)
    requires Inv(p, w, -1) && j < |w.fcbs| && w.open[j]
    ensures var c := CloseFi(p, w.v, w.fcbs[j]);
      var x := w.(v := c.0);
      && c.2 < 255 && c.1 == w.fcbs[j]
      && Inv(p, x, -1) && FilesOf(p, x) == FilesOf(p, w) && SameViews(p, w, x)
      && At(p, Dir(p, x.v), w.fcbs[j]) == At(p, Dir(p, w.v), w.fcbs[j]) <= p.drm
      && Agrees(p, x, j)
      && c.0.dma == w.v.dma && c.0.alv == w.v.alv
      && (HasFreeEntry(Dir(p, w.v)) ==> HasFreeEntry(Dir(p, x.v)))
  {
    var f := w.fcbs[j];
    var d := Dir(p, w.v);
    var i := At(p, d, f);
    if f.ent.s2 < 128 {
      CloseScan(p, w, f);
      CloseWrites(p, w, j);
    }
  }

  lemma CloseWrites(p: Dpb, w: World, j: nat)
    requires Inv(p, w, -1) && j < |w.fcbs| && w.open[j]
    ensures var i := At(p, Dir(p, w.v), w.fcbs[j]);
      i <= p.drm &&
      var x := w.(v := ClosedDrive(p, w.v, i, w.fcbs[j]));
      && Inv(p, x, -1) && FilesOf(p, x) == FilesOf(p, w) && SameViews(p, w, x)
      && At(p, Dir(p, x.v), w.fcbs[j]) == i
      && Agrees(p, x, j)
      && x.v.dma == w.v.dma && x.v.alv == w.v.alv
      && (HasFreeEntry(Dir(p, w.v)) ==> HasFreeEntry(Dir(p, x.v)))
  {
    var f := w.fcbs[j];
    var d := Dir(p, w.v);
    var i := At(p, d, f);
    var e := ClosedEntry(p, f.ent, WithMap(d[i], f.ent.dskmap));
    ClosedEntryFacts(p, f.ent, d[i]);
    EntryWrite(p, w.v, i, e);
    assert EntOk(p, e) && Tracks(p, f, e, false);
    hide ClosedEntry, EntOk, Tracks, Reaches, Settled, FcbOk;
    RewriteEntry(p, w.user, StateOf(p, w), j, e);
    var x := w.(v := ClosedDrive(p, w.v, i, f));
    assert StateOf(p, x) == StateOf(p, w).(d := d[i := e]);
    SameMark(p, w.v, x.v, i);
    ViewsFromData(p, w, x);
    FreeRemains(d, i, e);
  }

  lemma FreeRemains(d: seq<Ent>, i: nat, e: Ent)
    requires i < |d| && Live(d[i])
    ensures HasFreeEntry(d) ==> HasFreeEntry(d[i := e])
  {
    if HasFreeEntry(d) {
      var k :| 0 <= k < |d| && d[k].entry == FREE;
      assert d[i := e][k].entry == FREE;
    }
  }

  /** Replacing a live entry by a live one cannot outrun the high-water mark. */
  lemma SameMark(p: Dpb, v: Vol, r: Vol, i: nat)
    requires Steady(p, v) && Fits(p, r) && ChecksumsCurrent(p, r) && r.hiwater == v.hiwater && i <= p.drm
    requires Dir(p, r) == Dir(p, v)[i := Dir(p, r)[i]] && (Live(Dir(p, r)[i]) ==> Live(Dir(p, v)[i]))
    ensures Steady(p, r)
  {
    hide Dir, ChecksumsCurrent;
  }

  // ---------------------------------------------------------------- moving to another extent

  /** World `w` with drive `v` and FCB `f` in slot `j`. */
  function With(w: World, v: Vol, j: nat, f: FcbValue): World
    requires j < |w.fcbs|
  {
    w.(v := v, fcbs := w.fcbs[j := f])
  }

  lemma FlaggedModule(s2: byte)
    ensures (s2 % 128 + 128) % 64 == s2 % 64
  {
  }

  /** The copied entry makes a proper FCB for the extent that was asked for. */
  lemma OpenedFacts(p: Dpb, user: byte, d: seq<Ent>, f: FcbValue)
    requires p.WellFormed() && Addressed(user, f) && At(p, d, f) < |d| && EntOk(p, d[At(p, d, f)])
    ensures var o := Opened(f, d[At(p, d, f)]);
      && FcbOk(p, user, o) && Key(o.ent) == Key(f.ent) && Group(p, o.ent) == Group(p, f.ent)
      && At(p, d, o) == At(p, d, f)
      && FcbPiece(p, o) == PieceOf(p, d[At(p, d, f)])
  {
    var e := d[At(p, d, f)];
    assert IsFor(PieceOf(p, e), Key(f.ent), Group(p, f.ent));
    GroupInjective(p, f.ent, e);
    FlaggedModule(e.s2);
    OpenedName(p, user, f, e);
    hide MapOk, Group, Key, Dpb.WellFormed, Unambiguous;
  }

  lemma OpenedName(p: Dpb, user: byte, f: FcbValue, e: Ent)
    requires Addressed(user, f) && Live(e) && Key(e) == Key(f.ent)
    ensures e.entry == user && Unambiguous(e.name)
  {
    assert Key(f.ent)[0] == user % 128 && Key(e)[0] == e.entry % 128;
    forall i | 0 <= i < 11 ensures e.name[i] % 128 != 0x3F {
      assert Key(f.ent)[i + 1] == f.ent.name[i] % 128 && Key(e)[i + 1] == e.name[i] % 128;
    }
  }

  /** Opening an existing extent: the FCB takes over its entry and no file changes. */
  lemma OpenKeeps(p: Dpb, w: World, j: nat, f: FcbValue)
    requires Inv(p, w, -1) && j < |w.fcbs| && !w.open[j]
    requires Addressed(w.user, f) && NoFcbFor(StateOf(p, w), Key(f.ent))
    requires At(p, Dir(p, w.v), f) <= p.drm
    ensures var o := DirScan(p, OpenFile, w.v, f, false, false);
      var x := With(w, o.0, j, o.1).(open := w.open[j := true]);
      && o.2 < 255 && o.1 == Opened(f, Dir(p, w.v)[At(p, Dir(p, w.v), f)])
      && Inv(p, x, -1) && FilesOf(p, x) == FilesOf(p, w) && SameViews(p, w, x)
      && o.0.dma == w.v.dma && o.0.alv == w.v.alv
  {
    var d := Dir(p, w.v);
    OpenScan(p, w, f);
    OpenedFacts(p, w.user, d, f);
    var i := At(p, d, f);
    var v := AtIndex(p, w.v, i).(crit := true);
    QuietKeeps(p, w, v, -1);
    hide FcbOk, EntOk;
    Attach(p, w.user, StateOf(p, w), j, Opened(f, d[i]));
    var x := With(w, v, j, Opened(f, d[i])).(open := w.open[j := true]);
    SteadyDir(p, w.v, v);
    assert StateOf(p, x) == State(d, x.fcbs, x.open);
    ViewsFromData(p, w, x);
  }

  /** A failed open has only looked. */
  lemma OpenMisses(p: Dpb, w: World, f: FcbValue)
    requires Inv(p, w, -1) && Addressed(w.user, f) && At(p, Dir(p, w.v), f) == p.drm + 1
    ensures var o := DirScan(p, OpenFile, w.v, f, false, false);
      var x := w.(v := o.0);
      && o.2 == 255 && o.1 == f && OnlyLooked(w.v, o.0)
      && Inv(p, x, -1) && StateOf(p, x) == StateOf(p, w) && SameViews(p, w, x)
  {
    OpenScan(p, w, f);
    QuietKeeps(p, w, DirScan(p, OpenFile, w.v, f, false, false).0, -1);
  }

  /** Creating an extent: a free entry becomes an empty piece of the file; no file changes. */
  lemma CreateKeeps(p: Dpb, w: World, j: nat, f: FcbValue)
    requires Inv(p, w, -1) && j < |w.fcbs| && !w.open[j]
    requires Addressed(w.user, f) && NoFcbFor(StateOf(p, w), Key(f.ent))
    requires At(p, Dir(p, w.v), f) == p.drm + 1 && HasFreeEntry(Dir(p, w.v))
    ensures var c := DirScan(p, CreateFile, w.v, f, false, true);
      var x := With(w, c.0, j, c.1).(open := w.open[j := true]);
      && c.2 < 255 && c.1 == Emptied(f)
      && Inv(p, x, j) && SameViews(p, w, x) && At(p, Dir(p, x.v), c.1) <= p.drm
      && c.0.dma == w.v.dma && c.0.alv == w.v.alv
  {
    var d := Dir(p, w.v);
    var k := FirstFree(p, d, f.ent);
    CreateScan(p, w.v, f);
    var c := Emptied(f);
    var r := CreatedDrive(p, w.v, k, f);
    EntryWrite(p, w.v, k, c.ent);
    forall k: nat | k < p.Slots() ensures Slot(p, EMPTY_MAP, k) == 0 { EmptySlots(p, k); }
    assert FcbOk(p, w.user, c) && Key(c.ent) == Key(f.ent) && Group(p, c.ent) == Group(p, f.ent);
    Create(p, w.user, StateOf(p, w), j, k, c);
    var x := With(w, r, j, c).(open := w.open[j := true]);
    SteadyAfterCreate(p, w.v, r, k, c.ent);
    assert StateOf(p, x) == State(d[k := c.ent], x.fcbs, x.open);
    ContentsKeys(p, StateOf(p, w), Key(c.ent), Group(p, c.ent));
    EmptyPiece(p, w.v.alv, FilesOf(p, w), k, FcbPiece(p, c));
    ViewsFromLocate(p, w, x);
  }

  lemma SteadyAfterCreate(p: Dpb, v: Vol, r: Vol, k: nat, e: Ent)
    requires Steady(p, v) && Fits(p, r) && k <= p.drm
    requires r == DirWr(p, PutDir(AtIndex(p, v, k), k, e), k / 4)
                    .(hiwater := if k > v.hiwater then k else v.hiwater, crit := true)
    ensures Steady(p, r) && Dir(p, r) == Dir(p, v)[k := e]
  {
    EntryWrite(p, v, k, e);
    SteadyDir(p, DirWr(p, PutDir(AtIndex(p, v, k), k, e), k / 4), r);
  }

  /** Views depend only on where records are and on the data sectors. */
  lemma ViewsFromLocate(p: Dpb, w: World, x: World)
    requires Fits(p, w.v) && Fits(p, x.v) && InData(p, FilesOf(p, w)) && InData(p, FilesOf(p, x))
    requires forall id: FileId, n: nat :: Locate(p, FilesOf(p, x), id, n) == Locate(p, FilesOf(p, w), id, n)
    requires forall s: nat :: s < |w.v.disk| && DataSector(p, s) ==> x.v.disk[s] == w.v.disk[s]
    ensures SameViews(p, w, x)
  {
    hide Locate;
    forall id: FileId, n: nat ensures FileView(p, x, id, n) == FileView(p, w, id, n) {
      ViewIsLocate(p, FilesOf(p, w), w.v.disk, id, n);
      ViewIsLocate(p, FilesOf(p, x), x.v.disk, id, n);
    }
  }

  /** Dropping an FCB that agrees with its entry. */
  lemma DetachKeeps(p: Dpb, w: World, j: nat)
    requires Inv(p, w, -1) && j < |w.fcbs| && w.open[j] && At(p, Dir(p, w.v), w.fcbs[j]) <= p.drm
    requires Agrees(p, w, j)
    ensures var x := w.(open := w.open[j := false]);
      && Inv(p, x, -1) && FilesOf(p, x) == FilesOf(p, w) && SameViews(p, w, x)
      && NoFcbFor(StateOf(p, x), Key(w.fcbs[j].ent))
  {
    hide FcbOk, EntOk, Tracks, Settled;
    Detach(p, w.user, StateOf(p, w), j);
    DetachedAlone(StateOf(p, w), j);
    var x := w.(open := w.open[j := false]);
    assert StateOf(p, x) == StateOf(p, w).(open := x.open);
    ViewsFromData(p, w, x);
  }

  /** Group that `new_ext` is asked for. */
  function TargetGroup(p: Dpb, t: (byte, byte)): nat { GroupNumber(t.0 % 64, t.1 % 32, p.Extents()) }

  /** No entry of the file covers target `t` yet: a write that goes there has to create one. */
  ghost predicate NoEntry(p: Dpb, w: World, f: FcbValue, t: (byte, byte))
    requires Fits(p, w.v)
  {
    Find(FilesOf(p, w), Key(f.ent), TargetGroup(p, t)) == p.drm + 1
  }

  /** What a successful `new_ext` leaves in FCB slot `j`: pending exactly if it created the entry. */
  ghost predicate Arrived(p: Dpb, w: World, x: World, j: nat, t: (byte, byte))
    requires Fits(p, w.v) && Fits(p, x.v) && j < |w.fcbs| && j < |x.fcbs|
  {
    var f, g := w.fcbs[j], x.fcbs[j];
    && Inv(p, x, if NoEntry(p, w, f, t) then j else -1) && SameViews(p, w, x)
    && g.ent.extent == t.1 && g.ent.s2 % 64 == t.0 % 64 && Key(g.ent) == Key(f.ent)
    && g.ran0 == f.ran0 && g.ran1 == f.ran1 && g.ran2 == f.ran2 && x.v.dma == w.v.dma
  }

  lemma ViewsCompose(p: Dpb, w: World, x: World, y: World)
    requires Fits(p, w.v) && Fits(p, x.v) && Fits(p, y.v)
    requires SameViews(p, w, x) && SameViews(p, x, y)
    ensures SameViews(p, w, y)
  {
    hide FileView;
  }

  /** FCB `j` is at rest: its entry is up to date, so it may move to another extent. */
  ghost predicate AtRest(p: Dpb, w: World, j: nat)
  {
    && Inv(p, w, -1) && j < |w.fcbs| && w.open[j]
    && At(p, Dir(p, w.v), w.fcbs[j]) <= p.drm && Agrees(p, w, j)
  }

  lemma TargetFcb(p: Dpb, w: World, j: nat, t: (byte, byte))
    requires AtRest(p, w, j) && t.1 < 32
    ensures var f0 := AtExtent(w.fcbs[j], t.0, t.1);
      && Addressed(w.user, f0) && Key(f0.ent) == Key(w.fcbs[j].ent) && Group(p, f0.ent) == TargetGroup(p, t)
  {
  }

  /** What the scan of `openfile` looks for is what the file lacks. */
  lemma EntryAt(p: Dpb, w: World, j: nat, t: (byte, byte))
    requires AtRest(p, w, j) && t.1 < 32
    ensures At(p, Dir(p, w.v), AtExtent(w.fcbs[j], t.0, t.1)) == p.drm + 1 <==> NoEntry(p, w, w.fcbs[j], t)
  {
    hide FilesOf, Inv, Agrees, Key, Group, Addressed, Dir;
    TargetFcb(p, w, j, t);
    var f0 := AtExtent(w.fcbs[j], t.0, t.1);
    ContentsKeysOf(p, w, Key(f0.ent), Group(p, f0.ent));
  }

  lemma MoveToExisting(p: Dpb, w: World, j: nat, t: (byte, byte), reading: bool)
    requires AtRest(p, w, j) && t.1 < 32
    requires At(p, Dir(p, w.v), AtExtent(w.fcbs[j], t.0, t.1)) <= p.drm
    ensures var r := ChangeExt(p, w.v, w.fcbs[j], t, reading);
      var x := With(w, r.0, j, r.1);
      r.2 == 0 && Arrived(p, w, x, j, t) && !NoEntry(p, w, w.fcbs[j], t) && x.v.alv == w.v.alv
  {
    EntryAt(p, w, j, t);
    var f0 := AtExtent(w.fcbs[j], t.0, t.1);
    TargetFcb(p, w, j, t);
    var u := w.(open := w.open[j := false]);
    DetachKeeps(p, w, j);
    OpenKeeps(p, u, j, f0);
    assert EntOk(p, Dir(p, w.v)[At(p, Dir(p, w.v), f0)]);
    OpenedShape(p, w.user, Dir(p, w.v), f0);
    var o := DirScan(p, OpenFile, w.v, f0, false, false);
    WithOpen(w, o.0, j, o.1);
    hide SameViews, DirScan, FilesOf, Inv, Agrees, Key, Group, Opened, Dir, At, Addressed, NoEntry;
    ViewsCompose(p, w, u, With(w, o.0, j, o.1));
  }

  lemma MoveToNew(p: Dpb, w: World, j: nat, t: (byte, byte))
    requires AtRest(p, w, j) && t.1 < 32 && HasFreeEntry(Dir(p, w.v))
    requires At(p, Dir(p, w.v), AtExtent(w.fcbs[j], t.0, t.1)) == p.drm + 1
    ensures var r := ChangeExt(p, w.v, w.fcbs[j], t, false);
      var x := With(w, r.0, j, r.1);
      r.2 == 0 && Arrived(p, w, x, j, t) && x.v.alv == w.v.alv
  {
    hide Dir, At, Agrees;
    EntryAt(p, w, j, t);
    var f0 := AtExtent(w.fcbs[j], t.0, t.1);
    TargetFcb(p, w, j, t);
    var u := w.(open := w.open[j := false]);
    DetachKeeps(p, w, j);
    {
      assert |u.open| == |u.fcbs|;
      OpenMisses(p, u, f0);
      var o := DirScan(p, OpenFile, u.v, f0, false, false);
      var u1 := u.(v := o.0);
      CreateKeeps(p, u1, j, f0);
      var c := DirScan(p, CreateFile, o.0, f0, false, true);
      assert With(u1, c.0, j, c.1).(open := u1.open[j := true]) == With(u, c.0, j, c.1).(open := u.open[j := true]);
      ViewsCompose(p, u, u1, With(u, c.0, j, c.1).(open := u.open[j := true]));
    }
    assert w.open == u.open[j := true];
    var c := DirScan(p, CreateFile, DirScan(p, OpenFile, w.v, f0, false, false).0, f0, false, true);
    WithOpen(w, c.0, j, c.1);
    hide With;
    ViewsCompose(p, w, u, With(w, c.0, j, c.1));
  }

  lemma WithOpen(w: World, v: Vol, j: nat, f: FcbValue)
    requires j < |w.fcbs| == |w.open| && w.open[j]
    ensures With(w.(open := w.open[j := false]), v, j, f).(open := w.open[j := false][j := true]) == With(w, v, j, f)
  {
    assert w.open[j := false][j := true] == w.open;
  }

  lemma OpenedShape(p: Dpb, user: byte, d: seq<Ent>, f: FcbValue)
    requires p.WellFormed() && Addressed(user, f) && At(p, d, f) < |d| && EntOk(p, d[At(p, d, f)])
    ensures var o := Opened(f, d[At(p, d, f)]);
      && o.ent.extent == f.ent.extent && o.ent.s2 % 64 == f.ent.s2 % 64 && Key(o.ent) == Key(f.ent)
      && o.ran0 == f.ran0 && o.ran1 == f.ran1 && o.ran2 == f.ran2
  {
    OpenedFacts(p, user, d, f);
    GroupInjective(p, Opened(f, d[At(p, d, f)]).ent, f.ent);
    hide Group, Key;
  }

  lemma ContentsKeysOf(p: Dpb, w: World, id: FileId, g: nat)
    requires Inv(p, w, -1)
    ensures Find(FilesOf(p, w), id, g) == Find(Pieces(p, Dir(p, w.v)), id, g)
  {
    ContentsKeys(p, StateOf(p, w), id, g);
  }

  // ---------------------------------------------------------------- new_ext

  /** Outcomes of `new_ext` under the invariant. It never fails to close (code 3). */
  ghost predicate NewExtOutcome(p: Dpb, w: World, j: nat, reading: bool, t: (byte, byte), r: (Vol, FcbValue, nat))
    requires Fits(p, w.v) && Fits(p, r.0) && j < |w.fcbs|
  {
    var x := With(w, r.0, j, r.1);
    && (r.2 == 6 <==> 64 <= t.0 < 128)
    && (r.2 == 0 || (r.2 == 4 && reading) || r.2 == 6)
    && r.0.dma == w.v.dma
    && (r.2 == 0 ==> Arrived(p, w, x, j, t) && (reading ==> !NoEntry(p, w, w.fcbs[j], t)) && x.v.alv == w.v.alv)
    && (r.2 != 0 ==> r.1 == w.fcbs[j] && Inv(p, x, -1) && SameViews(p, w, x))
    && (r.2 == 4 ==> NoEntry(p, w, w.fcbs[j], t))
  }

  /** `new_ext` changes no file, for sequential and random access alike. */
  lemma NewExtKeeps(p: Dpb, w: World, j: nat, reading: bool, ran: bool)
    requires Inv(p, w, -1) && j < |w.fcbs| && w.open[j]
    requires reading || HasFreeEntry(Dir(p, w.v)) || !NoEntry(p, w, w.fcbs[j], Target(w.fcbs[j], ran))
    ensures NewExtOutcome(p, w, j, reading, Target(w.fcbs[j], ran), NewExt(p, w.v, w.fcbs[j], reading, ran))
  {
    var f := w.fcbs[j];
    NewExtCases(p, w.v, f, reading, ran);
    assert With(w, w.v, j, f) == w && SameViews(p, w, w);
    hide Inv, NewExt, Arrived, CloseFi, ChangeExt, SameViews, Target, FilesOf, Dir, HasFreeEntry, NoEntry;
    var t := Target(f, ran);
    if 64 <= t.0 < 128 {
    } else if t.0 == f.ent.s2 % 64 && t.1 / p.Extents() == f.ent.extent / p.Extents() {
      NewExtStays(p, w, j, reading, t);
    } else {
      CloseKeeps(p, w, j);
      var x := w.(v := CloseFi(p, w.v, w.fcbs[j]).0);
      assert AtRest(p, x, j) && Fits(p, w.v) && (NoEntry(p, w, w.fcbs[j], t) <==> NoEntry(p, x, w.fcbs[j], t));
      var r := ChangeExt(p, x.v, w.fcbs[j], t, reading);
      assert NewExtOutcome(p, x, j, reading, t, r) by { MoveOutcome(p, x, j, reading, t); }
      assert NoEntry(p, w, w.fcbs[j], t) <==> NoEntry(p, x, w.fcbs[j], t);
      ViewsCompose(p, w, x, With(x, r.0, j, r.1));
      assert With(x, r.0, j, r.1) == With(w, r.0, j, r.1);
    }
  }

  /** The three ways through `new_ext`, for extents below 32. */
  lemma NewExtCases(p: Dpb, v: Vol, f: FcbValue, reading: bool, ran: bool)
    requires Fits(p, v) && f.ent.extent < 32
    ensures var t := Target(f, ran);
      var c := CloseFi(p, v, f);
      && t.1 < 32
      && NewExt(p, v, f, reading, ran) ==
           if 64 <= t.0 < 128 then (v, f, 6)
           else if t.0 == f.ent.s2 % 64 && t.1 / p.Extents() == f.ent.extent / p.Extents()
           then (v, AtExtent(f, f.ent.s2, t.1), 0)
           else if c.2 >= 255 then (c.0, c.1, 3) else ChangeExt(p, c.0, c.1, t, reading)
  {
    hide CloseFi, ChangeExt;
    var t := Target(f, ran);
    assert t.1 % 32 == t.1 && f.ent.extent % 32 == f.ent.extent;
  }

  lemma NewExtStays(p: Dpb, w: World, j: nat, reading: bool, t: (byte, byte))
    requires Inv(p, w, -1) && j < |w.fcbs| && w.open[j] && t.1 < 32
    requires t.0 == w.fcbs[j].ent.s2 % 64 && t.1 / p.Extents() == w.fcbs[j].ent.extent / p.Extents()
    ensures NewExtOutcome(p, w, j, reading, t, (w.v, AtExtent(w.fcbs[j], w.fcbs[j].ent.s2, t.1), 0))
  {
    var f := w.fcbs[j];
    var g := AtExtent(f, f.ent.s2, t.1);
    GroupInjective(p, f.ent, g.ent);
    assert Key(g.ent) == Key(f.ent) && FcbPiece(p, g) == FcbPiece(p, f);
    var s := StateOf(p, w);
    var i := At(p, s.d, f);
    assert Owns(p, s, j, i);
    OwnedPiece(p, s, j, i);
    assert FcbOk(p, w.user, g) && Tracks(p, g, s.d[i], false);
    Update(p, w.user, s, -1, j, g, -1);
    var x := With(w, w.v, j, g);
    assert Contents(p, s)[i := FcbPiece(p, g)] == Contents(p, s);
    assert StateOf(p, x) == s.(fcbs := s.fcbs[j := g]);
    ViewsFromData(p, w, x);
    SmallModule(t.0);
    SameGroupEntry(p, w, j, t);
  }

  /** The entry of its own group is there. */
  lemma SameGroupEntry(p: Dpb, w: World, j: nat, t: (byte, byte))
    requires Inv(p, w, -1) && j < |w.fcbs| && w.open[j] && t.1 < 32
    requires t.0 == w.fcbs[j].ent.s2 % 64 && t.1 / p.Extents() == w.fcbs[j].ent.extent / p.Extents()
    ensures !NoEntry(p, w, w.fcbs[j], t)
  {
    hide Inv, FilesOf, Key, Dir, Group, TargetGroup;
    InvBasics(p, w, -1);
    var f := w.fcbs[j];
    SameTarget(p, f, t);
    ContentsKeysOf(p, w, Key(f.ent), Group(p, f.ent));
  }

  lemma SameTarget(p: Dpb, f: FcbValue, t: (byte, byte))
    requires p.WellFormed() && t.1 < 32 && f.ent.extent < 32
    requires t.0 == f.ent.s2 % 64 && t.1 / p.Extents() == f.ent.extent / p.Extents()
    ensures TargetGroup(p, t) == Group(p, f.ent)
  {
    hide GroupNumber, Dpb.WellFormed;
    ExtentShapes(p);
    SmallModule(t.0);
    assert f.ent.extent % 32 == f.ent.extent && t.1 % 32 == t.1 && f.ent.s2 % 64 % 64 == f.ent.s2 % 64;
    GroupNumberInjective(t.0, t.0, t.1, f.ent.extent, p.exm + 1);
  }

  lemma SmallModule(x: nat)
    requires x < 64
    ensures x % 64 == x
  {
  }

  lemma MoveOutcome(p: Dpb, x: World, j: nat, reading: bool, t: (byte, byte))
    requires AtRest(p, x, j) && t.1 < 32 && !(64 <= t.0 < 128)
    requires reading || HasFreeEntry(Dir(p, x.v)) || !NoEntry(p, x, x.fcbs[j], t)
    ensures NewExtOutcome(p, x, j, reading, t, ChangeExt(p, x.v, x.fcbs[j], t, reading))
  {
    EntryAt(p, x, j, t);
    assert Fits(p, x.v);
    hide Inv, Agrees, SameViews, HasFreeEntry, FilesOf, Dir, At, AtRest, ChangeExt, NoEntry;
    if At(p, Dir(p, x.v), AtExtent(x.fcbs[j], t.0, t.1)) <= p.drm {
      MoveToExisting(p, x, j, t, reading);
    } else if reading {
      var f0 := AtExtent(x.fcbs[j], t.0, t.1);
      TargetFcb(p, x, j, t);
      OpenMisses(p, x, f0);
      EntryAt(p, x, j, t);
      var o := DirScan(p, OpenFile, x.v, f0, false, false);
      assert AtExtent(f0, x.fcbs[j].ent.s2, x.fcbs[j].ent.extent) == x.fcbs[j];
      assert With(x, o.0, j, x.fcbs[j]) == x.(v := o.0);
    } else {
      MoveToNew(p, x, j, t);
    }
  }

}

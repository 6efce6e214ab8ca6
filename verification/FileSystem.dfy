/** The invariant of a drive in use and what each directory scan amounts to while it holds. */
module FileSystem {
  import opened DiskParams
  import opened DiskMap
  import opened Directory
  import opened Allocation
  import opened Volume
  import opened Scanning
  import opened Files
  import opened Blocks

  /** A logged-in drive and the FCBs programs hold, in the form the BDOS sees them during a call. */
  datatype World = World(v: Vol, fcbs: seq<FcbValue>, open: seq<bool>, user: byte)

  function StateOf(p: Dpb, w: World): State
    requires Fits(p, w.v)
  {
    State(Dir(p, w.v), w.fcbs, w.open)
  }

  /** The files on the drive, open FCBs taken into account. */
  ghost function FilesOf(p: Dpb, w: World): (c: seq<Piece>)
    requires Fits(p, w.v)
    ensures |c| == p.drm + 1
  {
    Contents(p, StateOf(p, w))
  }

  /** Record `n` of file `id`, as a reader would get it. */
  ghost function FileView(p: Dpb, w: World, id: FileId, n: nat): Option<Sector>
    requires Fits(p, w.v)
  {
    View(p, FilesOf(p, w), w.v.disk, id, n)
  }

  /** `pend` is the FCB that has just created its entry, or -1 between calls. */
  ghost predicate Inv(p: Dpb, w: World, pend: int)
  {
    && Steady(p, w.v) && w.v.logged && !w.v.ro
    && FilesOk(p, w.user, StateOf(p, w), pend)
    && BlocksOk(p, w.v.alv, FilesOf(p, w))
  }

  lemma InvDrive(p: Dpb, w: World)
    requires Inv(p, w, -1)
    ensures Steady(p, w.v) && p.WellFormed() && w.v.logged && !w.v.ro
  {
    hide Steady, Dpb.WellFormed;
  }

  /** The parts of the invariant that make terms well formed. */
  lemma InvBasics(p: Dpb, w: World, pend: int)
    requires Inv(p, w, pend)
    ensures Fits(p, w.v) && |w.open| == |w.fcbs|
    ensures forall j: nat :: j < |w.fcbs| && w.open[j] ==> w.fcbs[j].ent.extent < 32 && MapOk(p, w.fcbs[j].ent.dskmap)
    ensures forall j: nat :: j < |w.fcbs| && w.open[j] ==> At(p, Dir(p, w.v), w.fcbs[j]) <= p.drm
  {
    hide BlocksOk, MapOk;
  }

  ghost predicate SameViews(p: Dpb, w: World, x: World)
    requires Fits(p, w.v) && Fits(p, x.v)
  {
    forall id: FileId, n: nat :: FileView(p, x, id, n) == FileView(p, w, id, n)
  }

  // ---------------------------------------------------------------- views

  /** Views depend only on the files and the data sectors. */
  lemma ViewsFromData(p: Dpb, w: World, x: World)
    requires Fits(p, w.v) && Fits(p, x.v)
    requires InData(p, FilesOf(p, w)) && FilesOf(p, x) == FilesOf(p, w)
    requires forall s: nat :: s < |w.v.disk| && DataSector(p, s) ==> x.v.disk[s] == w.v.disk[s]
    ensures SameViews(p, w, x)
  {
    forall id: FileId, n: nat ensures FileView(p, x, id, n) == FileView(p, w, id, n) {
      ViewIsLocate(p, FilesOf(p, w), w.v.disk, id, n);
      ViewIsLocate(p, FilesOf(p, x), x.v.disk, id, n);
    }
  }

  // ---------------------------------------------------------------- opening

  /** An FCB that may be passed to `openfile`. */
  ghost predicate Addressed(user: byte, f: FcbValue)
  {
    f.ent.entry == user < 0x10 && Unambiguous(f.ent.name) && f.ent.extent < 32
  }

  /** The first matching entry is the FCB's. */
  lemma FirstIsAt(p: Dpb, cb: Callback, d: seq<Ent>, user: byte, f: FcbValue)
    requires p.WellFormed() && Addressed(user, f) && (cb.OpenFile? || cb.CloseFile?)
    requires forall i :: 0 <= i < |d| ==> EntOk(p, d[i])
    ensures FirstWanted(p, cb, d, f.ent, 0) == At(p, d, f)
    ensures WantsLive(p, cb, d, f.ent)
  {
    forall i: nat | i < |d|
      ensures Wants(p, cb, f.ent, d[i]) <==> IsFor(Pieces(p, d)[i], Key(f.ent), Group(p, f.ent))
    {
      MatchIsKeyEquality(p, f.ent, d[i]);
      assert Key(f.ent)[0] == user % 128 && Key(d[i])[0] == d[i].entry % 128;
    }
    hide Wants, EntOk, Key, Group;
    FindIs(Pieces(p, d), Key(f.ent), Group(p, f.ent), FirstWanted(p, cb, d, f.ent, 0));
  }

  /** `dirscan(openfile, ...)` copies the entry of the FCB's group, if there is one. */
  lemma OpenScan(p: Dpb, w: World, f: FcbValue)
    requires Inv(p, w, -1) && Addressed(w.user, f)
    ensures var d := Dir(p, w.v);
      var i, r := At(p, d, f), DirScan(p, OpenFile, w.v, f, false, false);
      if i < |d| then r == (AtIndex(p, w.v, i).(crit := true), Opened(f, d[i]), i % 4)
      else r == (r.0, f, 255) && OnlyLooked(w.v, r.0)
  {
    var d := Dir(p, w.v);
    var i := At(p, d, f);
    FirstIsAt(p, OpenFile, d, w.user, f);
    ScanIsSearch(p, OpenFile, w.v, f, 0, false);
  }

  // ---------------------------------------------------------------- closing

  /** The drive after `close` has rewritten entry `i` for FCB `f`. */
  function ClosedDrive(p: Dpb, v: Vol, i: nat, f: FcbValue): (r: Vol)
    requires Fits(p, v) && i <= p.drm
    ensures Fits(p, r)
  {
    var e := Dir(p, v)[i];
    DirWr(p, PutDir(AtIndex(p, v, i), i, ClosedEntry(p, f.ent, WithMap(e, f.ent.dskmap))), i / 4)
  }

  /** `dirscan(close, ...)` on an FCB that tracks its entry: the merge cannot fail, and the FCB is
      not changed by it. */
  lemma CloseScan(p: Dpb, w: World, f: FcbValue)
    requires Inv(p, w, -1) && Addressed(w.user, f) && MapOk(p, f.ent.dskmap)
    requires At(p, Dir(p, w.v), f) <= p.drm
    requires Extends(p, Dir(p, w.v)[At(p, Dir(p, w.v), f)].dskmap, f.ent.dskmap)
    ensures var i := At(p, Dir(p, w.v), f);
      DirScan(p, CloseFile, w.v, f, false, false) == (ClosedDrive(p, w.v, i, f), f, i % 4)
  {
    var d := Dir(p, w.v);
    var i := At(p, d, f);
    FirstIsAt(p, CloseFile, d, w.user, f);
    ScanIsSearch(p, CloseFile, w.v, f, 0, false);
    MergeOfExtension(p, f.ent.dskmap, d[i].dskmap, 0);
    assert WithMap(f.ent, f.ent.dskmap) == f.ent;
  }

  // ---------------------------------------------------------------- creating

  function FirstFree(p: Dpb, d: seq<Ent>, f: Ent): (k: nat)
    ensures k <= |d|
  {
    FirstWanted(p, CreateFile, d, f, 0)
  }

  predicate HasFreeEntry(d: seq<Ent>) { exists k :: 0 <= k < |d| && d[k].entry == FREE }

  function Emptied(f: FcbValue): FcbValue
  {
    f.(ent := f.ent.(rc := 0, dskmap := EMPTY_MAP))
  }

  function CreatedDrive(p: Dpb, v: Vol, k: nat, f: FcbValue): (r: Vol)
    requires Fits(p, v) && k <= p.drm
    ensures Fits(p, r)
  {
    DirWr(p, PutDir(AtIndex(p, v, k), k, Emptied(f).ent), k / 4)
      .(hiwater := if k > v.hiwater then k else v.hiwater, crit := true)
  }

  /** `dirscan(create, ...)` takes the first free entry of the whole directory. */
  lemma CreateScan(p: Dpb, v: Vol, f: FcbValue)
    requires Steady(p, v)
    ensures var d := Dir(p, v);
      var k, r := FirstFree(p, d, f.ent), DirScan(p, CreateFile, v, f, false, true);
      && (k < |d| <==> HasFreeEntry(d))
      && (k < |d| ==> d[k].entry == FREE)
      && if k < |d| then r == (CreatedDrive(p, v, k, f), Emptied(f), k % 4)
         else r == (r.0, f, 255) && OnlyLooked(v, r.0)
  {
    var d := Dir(p, v);
    var k := FirstFree(p, d, f.ent);
    ScanIsSearch(p, CreateFile, v, f, 0, true);
    if k < |d| { CreateLanding(p, v, f, k); }
  }

  lemma CreateLanding(p: Dpb, v: Vol, f: FcbValue, k: nat)
    requires Fits(p, v) && k <= p.drm && Dir(p, v)[k].entry == FREE
    ensures Landing(p, CreateFile, AtIndex(p, v, k), f, k, true) == (CreatedDrive(p, v, k, f), Emptied(f), k % 4)
  {
    hide Scan, DirWr;
  }
}

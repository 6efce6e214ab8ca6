/** What a directory scan finds. On a steady drive (checksums current, high-water mark at or above
    every live entry) `dirscan` behaves as a search over the whole directory: the checksum branch is
    never taken, and stopping one entry past the high-water mark loses nothing. */
module Scanning {
  import opened DiskParams
  import opened DiskMap
  import opened Directory
  import opened Allocation
  import opened Volume

  /** The directory on the medium. */
  function Dir(p: Dpb, v: Vol): (d: seq<Ent>)
    requires Fits(p, v)
    ensures |d| == p.drm + 1
  {
    seq(p.drm + 1, i requires 0 <= i <= p.drm => EntAt(v.disk[i / 4], i % 4))
  }

  /** The checksum vector is current. */
  ghost predicate ChecksumsCurrent(p: Dpb, v: Vol)
    requires Fits(p, v)
  {
    forall s: nat :: s < p.cks && s < p.DirSectors() ==> v.csv[s] == Checksum(v.disk[s])
  }

  /** No live entry lies above the high-water mark. */
  ghost predicate MarkCovers(p: Dpb, v: Vol)
    requires Fits(p, v)
  {
    forall i: nat :: i <= p.drm && Live(Dir(p, v)[i]) ==> i <= v.hiwater
  }

  ghost predicate Steady(p: Dpb, v: Vol)
  {
    Fits(p, v) && ChecksumsCurrent(p, v) && MarkCovers(p, v)
  }

  /** The buffer holds the sector of index `i` whenever the scan will not load it itself. */
  ghost predicate Buffered(p: Dpb, v: Vol, i: nat)
    requires Fits(p, v)
  {
    i <= p.drm && i % 4 != 0 ==> v.dirbuf == v.disk[i / 4]
  }

  function AtIndex(p: Dpb, v: Vol, i: nat): (r: Vol)
    requires Fits(p, v) && i <= p.drm
    ensures Fits(p, r)
  {
    v.(dirbuf := v.disk[i / 4], srchpos := i)
  }

  /** `r` is `v` after looking at some sectors. */
  ghost predicate OnlyLooked(v: Vol, r: Vol)
  {
    r == v.(dirbuf := r.dirbuf, srchpos := r.srchpos)
  }

  // ---------------------------------------------------------------- searching callbacks

  /** Callbacks that leave everything alone until they meet an entry they want. */
  predicate Searching(cb: Callback) { cb.OpenFile? || cb.CloseFile? || cb.CreateFile? || cb.FileSize? }

  predicate Wants(p: Dpb, cb: Callback, f: Ent, e: Ent)
  {
    match cb
    case OpenFile => Matches(p, f, e, true)
    case CloseFile => Matches(p, f, e, true)
    case CreateFile => e.entry == FREE
    case FileSize => Matches(p, f, e, false)
    case _ => false
  }

  /** The callback is only interested in live entries. */
  ghost predicate WantsLive(p: Dpb, cb: Callback, d: seq<Ent>, f: Ent)
  {
    forall k :: 0 <= k < |d| && Wants(p, cb, f, d[k]) ==> Live(d[k])
  }

  /** First index from `i` on whose entry is wanted, or drm + 1. */
  function FirstWanted(p: Dpb, cb: Callback, d: seq<Ent>, f: Ent, i: nat): (j: nat)
    requires i <= |d|
    ensures i <= j <= |d|
    ensures j < |d| ==> Wants(p, cb, f, d[j])
    ensures forall k :: i <= k < j ==> !Wants(p, cb, f, d[k])
    decreases |d| - i
  {
    if i == |d| || Wants(p, cb, f, d[i]) then i else FirstWanted(p, cb, d, f, i + 1)
  }

  /** Outcome of a scan that reaches index `j`, given the drive with that entry in its buffer. */
  function Landing(p: Dpb, cb: Callback, v: Vol, f: FcbValue, j: nat, pasthw: bool): (Vol, FcbValue, nat)
    requires Fits(p, v) && j <= p.drm
  {
    var c := Invoke(p, cb, v, f, j);
    if c.2 then (c.0, c.1, j % 4) else Scan(p, cb, c.0, c.1, j + 1, false, pasthw, 255)
  }

  /** A scan runs on from index `i` to the first wanted entry and calls the callback there; without
      one it returns 255 having only looked. It makes no difference whether the scan stops at the
      high-water mark, unless free entries are being looked for. */
  lemma {:induction false} ScanIsSearch(p: Dpb, cb: Callback, v: Vol, f: FcbValue, i: nat, pasthw: bool)
    requires Steady(p, v) && Buffered(p, v, i) && i <= p.drm + 1
    requires Searching(cb)
    requires pasthw || WantsLive(p, cb, Dir(p, v), f.ent)
    ensures var j := FirstWanted(p, cb, Dir(p, v), f.ent, i);
            var r := Scan(p, cb, v, f, i, false, pasthw, 255);
            if j == p.drm + 1 then r == (r.0, f, 255) && OnlyLooked(v, r.0)
            else r == Landing(p, cb, AtIndex(p, v, j), f, j, pasthw)
    decreases p.drm + 1 - i
  {
    hide *;
    NothingLooked(p, v);
    if i == p.drm + 1 || !(pasthw || i <= v.hiwater + 1) {
      ScanEnds(p, cb, v, f, i, pasthw);
    } else {
      ScanStep(p, cb, v, f, i, pasthw);
      if !Wants(p, cb, f.ent, Dir(p, v)[i]) {
        var v1 := AtIndex(p, v, i);
        LookOn(p, v, i);
        Pass(p, cb, v1, f, i, pasthw);
        ScanIsSearch(p, cb, v1, f, i + 1, pasthw);
        SameIndex(p, cb, v, v1, f, i);
      }
    }
  }

  lemma NothingLooked(p: Dpb, v: Vol)
    requires Steady(p, v)
    ensures Fits(p, v) && OnlyLooked(v, v)
  {
  }

  /** A scan that has looked at index `i` goes on from there. */
  lemma LookOn(p: Dpb, v: Vol, i: nat)
    requires Steady(p, v) && i <= p.drm
    ensures var v1 := AtIndex(p, v, i);
      && Steady(p, v1) && Dir(p, v1) == Dir(p, v) && Buffered(p, v1, i + 1) && v1.hiwater == v.hiwater
      && i / 4 < |v.disk| && v1.disk == v.disk && v1.dirbuf == v.disk[i / 4]
      && forall r: Vol :: OnlyLooked(v1, r) ==> OnlyLooked(v, r)
  {
    hide ChecksumsCurrent, MarkCovers, Dpb.WellFormed;
    SteadyLook(p, v, AtIndex(p, v, i));
  }

  lemma ScanEnds(p: Dpb, cb: Callback, v: Vol, f: FcbValue, i: nat, pasthw: bool)
    requires Steady(p, v) && i <= p.drm + 1 && (i == p.drm + 1 || !(pasthw || i <= v.hiwater + 1))
    requires pasthw || WantsLive(p, cb, Dir(p, v), f.ent)
    ensures Scan(p, cb, v, f, i, false, pasthw, 255) == (v, f, 255)
    ensures FirstWanted(p, cb, Dir(p, v), f.ent, i) == p.drm + 1
  {
    hide Wants, Invoke, LoadChecked;
    assert i <= p.drm ==> forall k :: i <= k <= p.drm ==> !Live(Dir(p, v)[k]);
  }

  lemma SameIndex(p: Dpb, cb: Callback, v: Vol, v1: Vol, f: FcbValue, i: nat)
    requires Steady(p, v) && i <= p.drm && v1 == AtIndex(p, v, i)
    ensures forall j: nat :: j <= p.drm ==> AtIndex(p, v1, j) == AtIndex(p, v, j)
  {
  }

  /** Nothing happens at an unwanted entry. */
  lemma Pass(p: Dpb, cb: Callback, v: Vol, f: FcbValue, i: nat, pasthw: bool)
    requires Fits(p, v) && i <= p.drm && Searching(cb)
    requires !Wants(p, cb, f.ent, Dir(p, v)[i]) && v.dirbuf == v.disk[i / 4]
    ensures Landing(p, cb, v, f, i, pasthw) == Scan(p, cb, v, f, i + 1, false, pasthw, 255)
  {
    hide Scan;
    assert Invoke(p, cb, v, f, i) == (v, f, false);
  }

  /** One iteration inside the scanned range. */
  lemma ScanStep(p: Dpb, cb: Callback, v: Vol, f: FcbValue, i: nat, pasthw: bool)
    requires Steady(p, v) && Buffered(p, v, i) && i <= p.drm
    requires pasthw || i <= v.hiwater + 1
    ensures Scan(p, cb, v, f, i, false, pasthw, 255) == Landing(p, cb, AtIndex(p, v, i), f, i, pasthw)
  {
    hide Invoke;
    LoadSteady(p, v, i);
  }

  /** Looking at sectors keeps a drive steady and its directory the same. */
  lemma SteadyLook(p: Dpb, v: Vol, r: Vol)
    requires Steady(p, v) && OnlyLooked(v, r)
    ensures Steady(p, r) && Dir(p, r) == Dir(p, v)
  {
    assert Dir(p, r) == Dir(p, v);
  }

  /** On a steady drive a scan step just has the right sector in the buffer. */
  lemma LoadSteady(p: Dpb, v: Vol, i: nat)
    requires Steady(p, v) && Buffered(p, v, i) && i <= p.drm
    ensures i / 4 < p.DirSectors()
    ensures (if i % 4 == 0 then LoadChecked(p, v, i / 4) else v).(srchpos := i) == AtIndex(p, v, i)
  {
  }

  // ---------------------------------------------------------------- directory updates

  /** Writing entry `i` back changes that entry and nothing else of the directory, and keeps the
      checksums current. */
  lemma DirWrEffect(p: Dpb, v: Vol, i: nat, e: Ent)
    requires Fits(p, v) && ChecksumsCurrent(p, v) && i <= p.drm && v.dirbuf == v.disk[i / 4]
    ensures var r := DirWr(p, PutDir(v, i, e), i / 4);
            && Fits(p, r) && ChecksumsCurrent(p, r)
            && Dir(p, r) == Dir(p, v)[i := e]
            && r == v.(disk := r.disk, csv := r.csv, dirbuf := r.dirbuf)
            && r.disk == v.disk[i / 4 := r.dirbuf]
  {
    var r := DirWr(p, PutDir(v, i, e), i / 4);
    forall k | 0 <= k <= p.drm ensures Dir(p, r)[k] == Dir(p, v)[i := e][k] {
      if k / 4 == i / 4 {
        PutGet(v.dirbuf, i % 4, e, k % 4);
        if k % 4 == i % 4 { assert k == i; }
      }
    }
  }

  /** Data records never touch the directory. */
  lemma DataWriteEffect(p: Dpb, v: Vol, r: Vol)
    requires Fits(p, v) && Fits(p, r) && ChecksumsCurrent(p, v)
    requires r.csv == v.csv
    requires forall s: nat :: s < p.DirSectors() ==> r.disk[s] == v.disk[s]
    ensures ChecksumsCurrent(p, r) && Dir(p, r) == Dir(p, v)
  {
    assert forall i :: 0 <= i <= p.drm ==> i / 4 < p.DirSectors();
  }
}

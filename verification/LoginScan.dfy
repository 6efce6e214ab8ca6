/** Logging a drive in rebuilds the allocation vector from the directory (fileio.c:140-156): what is
    rebuilt is exactly what the BDOS maintains step by step while the drive is in use. */
module LoginScan {
  import opened DiskParams
  import opened DiskMap
  import opened Directory
  import opened Allocation
  import opened Volume
  import opened Scanning
  import opened Files
  import opened Blocks
  import opened FileSystem

  /** Block `b` is named by a slot below `k` of map `m`. */
  ghost predicate InMap(p: Dpb, m: Map, k: nat, b: nat)
    requires k <= p.Slots()
  {
    exists s: nat :: s < k && Slot(p, m, s) == b
  }

  lemma {:induction false} UseSlotsEffect(p: Dpb, a: Vector, m: Map, k: nat)
    requires Sized(p, a) && k <= p.Slots()
    ensures forall b: nat :: b <= p.dsm ==> (UseSlots(p, a, m, k)[b] <==> a[b] || InMap(p, m, k, b))
    ensures forall b: nat :: p.dsm < b < |a| ==> UseSlots(p, a, m, k)[b] == a[b]
  {
    if k > 0 {
      UseSlotsEffect(p, a, m, k - 1);
      forall b: nat | b <= p.dsm ensures InMap(p, m, k, b) <==> InMap(p, m, k - 1, b) || Slot(p, m, k - 1) == b {
        if InMap(p, m, k - 1, b) { var s: nat :| s < k - 1 && Slot(p, m, s) == b; assert s < k; }
        if Slot(p, m, k - 1) == b { assert k - 1 < k; }
      }
    }
  }

  lemma {:induction false} FreeSlotsEffect(p: Dpb, a: Vector, m: Map, k: nat)
    requires Sized(p, a) && k <= p.Slots()
    ensures forall b: nat :: b <= p.dsm ==> (FreeSlots(p, a, m, k)[b] <==> a[b] && (b == 0 || !InMap(p, m, k, b)))
    ensures forall b: nat :: p.dsm < b < |a| ==> FreeSlots(p, a, m, k)[b] == a[b]
    decreases k
  {
    if k > 0 {
      FreeSlotsEffect(p, ClrAloc(p, a, Slot(p, m, k - 1)), m, k - 1);
      forall b: nat | b <= p.dsm ensures InMap(p, m, k, b) <==> InMap(p, m, k - 1, b) || Slot(p, m, k - 1) == b {
        if InMap(p, m, k - 1, b) { var s: nat :| s < k - 1 && Slot(p, m, s) == b; assert s < k; }
        if Slot(p, m, k - 1) == b { assert k - 1 < k; }
      }
    }
  }

  /** Block `b` is named by a live entry from index `i` on. */
  ghost predicate NamedFrom(p: Dpb, d: seq<Ent>, i: nat, b: nat)
  {
    exists m: nat :: i <= m < |d| && Live(d[m]) && InMap(p, d[m].dskmap, p.Slots(), b)
  }

  /** State of a login scan that has reached index `i`; `v0` is the drive at its start. */
  ghost predicate Scanned(p: Dpb, v0: Vol, v: Vol, i: nat)
    requires Fits(p, v0) && Fits(p, v) && i <= p.drm + 1
  {
    && v == v0.(alv := v.alv, csv := v.csv, hiwater := v.hiwater, dirbuf := v.dirbuf, srchpos := v.srchpos)
    && Buffered(p, v, i)
    && (forall s: nat :: s < p.cks && s < p.DirSectors() && 4 * s < i ==> v.csv[s] == Checksum(v.disk[s]))
    && (forall m: nat :: m < i && Live(Dir(p, v)[m]) ==> m <= v.hiwater)
  }

  /** One step of the scan: load the sector if need be, then `alloc`. */
  function AllocAt(p: Dpb, v: Vol, i: nat): (r: Vol)
    requires Fits(p, v) && i <= p.drm
    ensures Fits(p, r)
  {
    Invoke(p, AllocEntry, (if i % 4 == 0 then LoadInit(p, v, i / 4) else v).(srchpos := i), NO_FCB, i).0
  }

  lemma AllocShape(p: Dpb, v: Vol, i: nat)
    requires Fits(p, v) && i <= p.drm && Buffered(p, v, i)
    ensures i / 4 < p.DirSectors()
    ensures var e := Dir(p, v)[i];
      AllocAt(p, v, i) == v.(dirbuf := v.disk[i / 4], srchpos := i,
        csv := if i % 4 == 0 && i / 4 < p.cks then v.csv[i / 4 := Checksum(v.disk[i / 4])] else v.csv,
        hiwater := if Live(e) then i else v.hiwater,
        alv := if Live(e) then UseSlots(p, v.alv, e.dskmap, p.Slots()) else v.alv)
  {
    hide UseSlots, Checksum;
  }

  lemma AllocStep(p: Dpb, v0: Vol, v: Vol, i: nat)
    requires Fits(p, v0) && Fits(p, v) && i <= p.drm && Scanned(p, v0, v, i)
    ensures var e := Dir(p, v)[i];
      var r := AllocAt(p, v, i);
      && Scanned(p, v0, r, i + 1)
      && r.alv == (if Live(e) then UseSlots(p, v.alv, e.dskmap, p.Slots()) else v.alv)
      && r.disk == v.disk
  {
    AllocShape(p, v, i);
    hide UseSlots, Checksum, AllocAt;
    var r := AllocAt(p, v, i);
    assert Dir(p, r) == Dir(p, v);
    assert Buffered(p, r, i + 1) by { if (i + 1) % 4 != 0 { assert (i + 1) / 4 == i / 4; } }
    forall s: nat | s < p.cks && s < p.DirSectors() && 4 * s < i + 1 ensures r.csv[s] == Checksum(r.disk[s]) {
      if 4 * s == i { assert s == i / 4 && i % 4 == 0; }
    }
  }

  /** Vector `r` is `a` with the blocks of the live entries from index `i` on marked. */
  ghost predicate Marks(p: Dpb, d: seq<Ent>, i: nat, a: Vector, r: Vector)
    requires Sized(p, a) && Sized(p, r)
  {
    && (forall b: nat :: b <= p.dsm ==> (r[b] <==> a[b] || NamedFrom(p, d, i, b)))
    && (forall b: nat :: p.dsm < b < |a| ==> r[b] == a[b])
  }

  lemma MarksStep(p: Dpb, d: seq<Ent>, i: nat, a: Vector, r: Vector)
    requires Sized(p, a) && Sized(p, r) && i < |d|
    requires Marks(p, d, i + 1, if Live(d[i]) then UseSlots(p, a, d[i].dskmap, p.Slots()) else a, r)
    ensures Marks(p, d, i, a, r)
  {
    if Live(d[i]) { UseSlotsEffect(p, a, d[i].dskmap, p.Slots()); }
    forall b: nat { NamedFromStep(p, d, i, b); }
    hide UseSlots, NamedFrom, InMap;
  }

  lemma {:induction false} ScanAllocEffect(p: Dpb, v0: Vol, v: Vol, i: nat)
    requires Fits(p, v0) && Fits(p, v) && i <= p.drm + 1 && Scanned(p, v0, v, i)
    ensures var r := ScanAlloc(p, v, i);
      Scanned(p, v0, r, p.drm + 1) && Marks(p, Dir(p, v0), i, v.alv, r.alv)
    decreases p.drm + 1 - i
  {
    if i <= p.drm {
      AllocStep(p, v0, v, i);
      var r := AllocAt(p, v, i);
      assert ScanAlloc(p, v, i) == ScanAlloc(p, r, i + 1);
      hide AllocAt, Scanned, Invoke, LoadInit, ScanAlloc, Dir, Marks;
      ScanAllocEffect(p, v0, r, i + 1);
      SameDirectory(p, v0, v, i);
      MarksStep(p, Dir(p, v0), i, v.alv, ScanAlloc(p, r, i + 1).alv);
    }
  }

  lemma NothingScanned(p: Dpb, v: Vol)
    requires Fits(p, v)
    ensures Scanned(p, v, v, 0) && p.DirBlocks() <= p.dsm + 1
  {
  }

  lemma SameDirectory(p: Dpb, v0: Vol, v: Vol, i: nat)
    requires Fits(p, v0) && Fits(p, v) && i <= p.drm + 1 && Scanned(p, v0, v, i)
    ensures Dir(p, v) == Dir(p, v0)
  {
  }

  lemma NamedFromStep(p: Dpb, d: seq<Ent>, i: nat, b: nat)
    requires i < |d|
    ensures NamedFrom(p, d, i, b) <==> NamedFrom(p, d, i + 1, b) || (Live(d[i]) && InMap(p, d[i].dskmap, p.Slots(), b))
  {
    hide InMap;
  }

  /** What login does to any drive: the vector marks the directory blocks and the blocks named by live
      entries, checksums and high-water mark are current, and the medium is untouched. */
  lemma LoginEffect(p: Dpb, v: Vol)
    requires Fits(p, v)
    ensures var r := Login(p, v);
      && Steady(p, r) && Dir(p, r) == Dir(p, v) && r.logged
      && r == v.(alv := r.alv, csv := r.csv, hiwater := r.hiwater, dirbuf := r.dirbuf, srchpos := r.srchpos,
           logged := true)
      && (forall b: nat :: b <= p.dsm ==> (r.alv[b] <==> b < p.DirBlocks() || NamedFrom(p, Dir(p, v), 0, b)))
      && (forall b: nat :: p.dsm < b < |v.alv| ==> r.alv[b] == v.alv[b])
  {
    var v0 := v.(alv := FreshVector(p, v.alv));
    NothingScanned(p, v0);
    ScanAllocEffect(p, v0, v0, 0);
    assert Dir(p, v0) == Dir(p, v);
    var s := ScanAlloc(p, v0, 0);
    SameDirectory(p, v0, s, p.drm + 1);
    assert Dir(p, Login(p, v)) == Dir(p, s);
  }
}

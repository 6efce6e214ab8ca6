/** The file-level cases of `_bdos` (bdosmain.c:233-505) as functions on values, and file size. */
module FileCalls {
  import opened DiskParams
  import opened DiskMap
  import opened Directory
  import opened Allocation
  import opened Volume
  import opened RecordIo
  import opened Scanning
  import opened Files
  import opened Blocks
  import opened FileSystem
  import opened Transitions

  // ---------------------------------------------------------------- the calls

  /** The FCB of case 22 once extent, s1, s2 and record count are zeroed. */
  function Blank(f: FcbValue): FcbValue
  {
    f.(ent := DirEnt(f.ent.entry, f.ent.name, 0, 0, 0, 0, f.ent.dskmap))
  }

  /** Case 22, make file. */
  function MakeCall(p: Dpb, v: Vol, f: FcbValue): (r: (Vol, FcbValue, nat))
    requires Fits(p, v)
    ensures Fits(p, r.0)
  {
    DirScan(p, CreateFile, v, Blank(f), false, true)
  }

  /** Case 15, open file, without the query for the last record's byte count. */
  function OpenCall(p: Dpb, v: Vol, f: FcbValue): (r: (Vol, FcbValue, nat))
    requires Fits(p, v)
    ensures Fits(p, r.0)
  {
    DirScan(p, OpenFile, v, AtExtent(f, 0, 0), false, false)
  }

  /** Case 19, delete file. */
  function DeleteCall(p: Dpb, v: Vol, f: FcbValue): (r: (Vol, FcbValue, nat))
    requires Fits(p, v)
    ensures Fits(p, r.0)
  {
    DirScan(p, DeleteFile, v, f, true, false)
  }

  // ---------------------------------------------------------------- file size

  lemma SizeCallLooks(p: Dpb, v: Vol, f: FcbValue, i: nat)
    requires Fits(p, v) && i <= p.drm
    ensures Invoke(p, FileSize, v, f, i).0 == v
  {
  }

  /** A successful search for the file's entries stops where it says it does. */
  lemma {:induction false} SizeScanAdvances(p: Dpb, v: Vol, f: FcbValue, i: nat)
    requires Fits(p, v)
    ensures var r := Scan(p, FileSize, v, f, i, false, false, 255); r.2 < 255 ==> i <= r.0.srchpos <= p.drm
    decreases p.drm + 1 - i
  {
    hide LoadChecked, Invoke;
    if i <= v.hiwater + 1 && i <= p.drm {
      var v1 := (if i % 4 == 0 then LoadChecked(p, v, i / 4) else v).(srchpos := i);
      var c := Invoke(p, FileSize, v1, f, i);
      SizeCallLooks(p, v1, f, i);
      if !c.2 { SizeScanAdvances(p, c.0, c.1, i + 1); }
    }
  }

  function Larger(a: nat, b: nat): nat { if a > b then a else b }

  /** `getsize` (fileio.c:734-751): search, then search on from the entry found. */
  function GetSize(p: Dpb, v: Vol, f: FcbValue, i: nat, max: nat): (r: (Vol, FcbValue))
    requires Fits(p, v)
    ensures Fits(p, r.0)
    decreases p.drm + 1 - i
  {
    SizeScanAdvances(p, v, f, i);
    var r := Scan(p, FileSize, v, f, i, false, false, 255);
    if r.2 >= 255 then (r.0, PackRan(r.1, max))
    else GetSize(p, r.0, r.1, r.0.srchpos + 1, Larger(max, UnpackRan(r.1)))
  }

  /** End of the furthest-reaching entry of the file from index `i` on. */
  function LargestEnd(d: seq<Ent>, f: Ent, i: nat): nat
    requires i <= |d|
    decreases |d| - i
  {
    if i == |d| then 0
    else Larger(if NameMatches(f, d[i]) then d[i].rc + ExtSize(d[i]) else 0, LargestEnd(d, f, i + 1))
  }

  lemma PackRoundTrip(f: FcbValue, n: nat)
    requires n < 0x100_0000
    ensures UnpackRan(PackRan(f, n)) == n
    ensures PackRan(f, n).ent == f.ent && PackRan(f, n).cur == f.cur
  {
  }

  lemma EndFits24(e: Ent)
    ensures e.rc + ExtSize(e) < 0x4_0100
  {
  }

  /** The name matched by an FCB does not depend on its record fields. */
  lemma {:induction false} LargestEndSkips(p: Dpb, d: seq<Ent>, f: Ent, i: nat, j: nat)
    requires i <= j <= |d| && forall k :: i <= k < j ==> !NameMatches(f, d[k])
    ensures LargestEnd(d, f, i) == LargestEnd(d, f, j)
    decreases j - i
  {
    if i < j { LargestEndSkips(p, d, f, i + 1, j); }
  }

  lemma SizeLanding(p: Dpb, v: Vol, f: FcbValue, j: nat)
    requires Fits(p, v) && j <= p.drm && Matches(p, f.ent, Dir(p, v)[j], false)
    ensures var e := Dir(p, v)[j];
      Landing(p, FileSize, AtIndex(p, v, j), f, j, false) == (AtIndex(p, v, j), PackRan(f, e.rc + ExtSize(e)), j % 4)
  {
    hide Matches, Scan, PackRan, ExtSize;
  }

  /** One round of the `getsize` loop on a steady drive. */
  lemma SizeRound(p: Dpb, v: Vol, f: FcbValue, i: nat, max: nat)
    requires Steady(p, v) && Buffered(p, v, i) && i <= p.drm + 1
    requires WantsLive(p, FileSize, Dir(p, v), f.ent)
    ensures var d := Dir(p, v);
      var j := FirstWanted(p, FileSize, d, f.ent, i);
      var r := GetSize(p, v, f, i, max);
      if j == p.drm + 1 then OnlyLooked(v, r.0) && r.1 == PackRan(f, max)
      else
        var n := d[j].rc + ExtSize(d[j]);
        r == GetSize(p, AtIndex(p, v, j), PackRan(f, n), j + 1, Larger(max, UnpackRan(PackRan(f, n))))
  {
    hide Landing, ExtSize, PackRan, UnpackRan, Dir, WantsLive, ChecksumsCurrent, MarkCovers, Matches, Scan,
      LargestEnd;
    var d := Dir(p, v);
    var j := FirstWanted(p, FileSize, d, f.ent, i);
    ScanIsSearch(p, FileSize, v, f, i, false);
    if j < p.drm + 1 { SizeLanding(p, v, f, j); }
  }

  lemma LargestEndStep(p: Dpb, d: seq<Ent>, f: Ent, i: nat, j: nat)
    requires i <= |d| && j == FirstWanted(p, FileSize, d, f, i)
    ensures LargestEnd(d, f, i) ==
      if j == |d| then 0 else Larger(d[j].rc + ExtSize(d[j]), LargestEnd(d, f, j + 1))
  {
    hide NameMatches, ExtSize;
    assert forall k :: i <= k < j ==> !NameMatches(f, d[k]);
    LargestEndSkips(p, d, f, i, j);
  }

  /** Repeated continue-scans visit every entry of the file once: `getsize` returns the largest end. */
  lemma {:induction false} GetSizeIsLargestEnd(p: Dpb, v: Vol, f: FcbValue, i: nat, max: nat)
    requires Steady(p, v) && Buffered(p, v, i) && i <= p.drm + 1 && max < 0x100_0000
    requires WantsLive(p, FileSize, Dir(p, v), f.ent)
    ensures var r := GetSize(p, v, f, i, max);
      && OnlyLooked(v, r.0) && r.1.ent == f.ent && r.1.cur == f.cur
      && UnpackRan(r.1) == Larger(max, LargestEnd(Dir(p, v), f.ent, i))
    decreases p.drm + 1 - i
  {
    hide GetSize, NameMatches, Matches, ExtSize, PackRan, UnpackRan, WantsLive, Dir, FirstWanted, LargestEnd,
      ChecksumsCurrent, MarkCovers;
    var d := Dir(p, v);
    var j := FirstWanted(p, FileSize, d, f.ent, i);
    SizeRound(p, v, f, i, max);
    LargestEndStep(p, d, f.ent, i, j);
    PackRoundTrip(f, max);
    if j <= p.drm {
      var n := d[j].rc + ExtSize(d[j]);
      var g := PackRan(f, n);
      var x := AtIndex(p, v, j);
      EndFits24(d[j]);
      PackRoundTrip(f, n);
      SteadyLook(p, v, x);
      assert Buffered(p, x, j + 1) by { if (j + 1) % 4 != 0 { assert (j + 1) / 4 == j / 4; } }
      GetSizeIsLargestEnd(p, x, g, j + 1, Larger(max, n));
    }
  }
}

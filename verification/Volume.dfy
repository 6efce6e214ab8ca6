/** A selected drive as the BDOS sees it, the directory-scan callbacks, and `dirscan` itself, written
    as functions on values. `Machine.dfy` holds the imperative form, proved equal to these. */
module Volume {
  import opened DiskParams
  import opened DiskMap
  import opened Directory
  import opened Allocation

  /** `struct fcb`: 32 bytes laid out as a directory entry, then record fields. */
  datatype FcbValue = Fcb(ent: Ent, cur: byte, ran0: byte, ran1: byte, ran2: byte)

  /** Medium, in-memory vectors and scan state of one drive. `dma` is the caller's record buffer;
      `truncFound` and `truncCode` are the statics of fileio.c:755-757. */
  datatype Vol = Vol(disk: seq<Sector>, alv: Vector, csv: seq<byte>, hiwater: nat,
                     dirbuf: Sector, srchpos: nat, ro: bool, crit: bool, logged: bool,
                     dma: Sector, truncFound: bool, truncCode: nat)

  /** The drive's arrays have the sizes its parameter block calls for. */
  ghost predicate Fits(p: Dpb, v: Vol)
  {
    && p.WellFormed()
    && |v.disk| == (p.dsm + 1) * p.BlockRecs()
    && p.DirSectors() <= |v.disk|
    && |v.alv| == VectorBits(p)
    && |v.csv| == p.cks
  }

  // ---------------------------------------------------------------- directory sectors

  /** 32-bit little-endian word `k` of a sector. */
  function LongAt(s: Sector, k: nat): nat
    requires k < 32
  {
    Long(s[4 * k], s[4 * k + 1], s[4 * k + 2], s[4 * k + 3])
  }

  function Long(b0: int, b1: int, b2: int, b3: int): int
  {
    b0 + 0x100 * b1 + 0x1_0000 * b2 + 0x100_0000 * b3
  }

  function LongSum(s: Sector, k: nat): nat
    requires k <= 32
  {
    if k == 0 then 0 else (LongSum(s, k - 1) + LongAt(s, k - 1)) % 0x1_0000_0000
  }

  /** `dchksum` (dskutil.c:144-169). Only the low byte is returned, so the sign of the 32-bit sum
      never shows. */
  function Checksum(s: Sector): byte
  {
    var l := LongSum(s, 32);
    var m := (l + l / 0x1_0000) % 0x1_0000_0000;
    (m + m / 0x100) % 0x100
  }

  /** `dir_wr` (dskutil.c:124-136). */
  function DirWr(p: Dpb, v: Vol, s: nat): (r: Vol)
    requires Fits(p, v) && s < p.DirSectors()
    ensures Fits(p, r)
  {
    v.(disk := v.disk[s := v.dirbuf],
       csv := if s < p.cks then v.csv[s := Checksum(v.dirbuf)] else v.csv)
  }

  // ---------------------------------------------------------------- callbacks

  /** The functions passed to `dirscan`. */
  datatype Callback = OpenFile | CloseFile | CreateFile | DeleteFile | AllocEntry | FileSize
                    | TruncateOne(nrecs: nat)

  /** The loops at fileio.c:367-404: merge slot by slot in both directions; a slot used by both with
      different blocks stops the merge where it is. */
  function MergeMaps(p: Dpb, fm: Map, dm: Map, k: nat): (r: (Map, Map, bool))
    requires k <= p.Slots()
    decreases p.Slots() - k
  {
    if k == p.Slots() then (fm, dm, true)
    else
      var a, b := Slot(p, fm, k), Slot(p, dm, k);
      if b != 0 then
        if a != 0 then
          if a != b then (fm, dm, false) else MergeMaps(p, fm, dm, k + 1)
        else MergeMaps(p, SetSlot(p, fm, k, b), dm, k + 1)
      else MergeMaps(p, fm, SetSlot(p, dm, k, a), k + 1)
  }

  /** Release the blocks in slots `0..k`, last first. */
  function FreeSlots(p: Dpb, a: Vector, m: Map, k: nat): (r: Vector)
    requires |a| == VectorBits(p) && k <= p.Slots()
    ensures |r| == |a|
    decreases k
  {
    if k == 0 then a else FreeSlots(p, ClrAloc(p, a, Slot(p, m, k - 1)), m, k - 1)
  }

  /** Mark the blocks in slots `0..k` used. */
  function UseSlots(p: Dpb, a: Vector, m: Map, k: nat): (r: Vector)
    requires |a| == VectorBits(p) && k <= p.Slots()
    ensures |r| == |a|
  {
    if k == 0 then a else SetAloc(p, UseSlots(p, a, m, k - 1), Slot(p, m, k - 1))
  }

  /** `extsize` (fileio.c:660-667). */
  function ExtSize(e: Ent): nat { (e.extent % 32) * 128 + (e.s2 % 64) * 4096 }

  /** `trunc_group_base` (fileio.c:821-830). */
  function TruncBase(p: Dpb, e: Ent): nat
  {
    (e.s2 % 64) * 4096 + ExtBase(e.extent % 32, p.Extents()) * 128
  }

  /** First record covered by map slot `k` of an entry whose group starts at `base`
      (fileio.c:795-797). */
  function SlotStart(p: Dpb, base: nat, k: nat): nat
    requires p.bsh <= 7
  {
    base + (k / p.SlotsPerExtent()) * 128 + (k % p.SlotsPerExtent()) * Exp2(p.bsh)
  }

  /** `trunc_free_past` (fileio.c:781-818) on slots `0..k`. */
  function FreePast(p: Dpb, a: Vector, m: Map, base: nat, n: nat, k: nat): (r: (Vector, Map))
    requires p.bsh <= 7 && |a| == VectorBits(p) && k <= p.Slots()
    ensures |r.0| == |a|
  {
    if k == 0 then (a, m)
    else
      var r := FreePast(p, a, m, base, n, k - 1);
      if SlotStart(p, base, k - 1) < n then r
      else (ClrAloc(p, r.0, Slot(p, r.1, k - 1)), SetSlot(p, r.1, k - 1, 0))
  }

  /** `pack_ranrec`: 24 bits, most significant byte first. */
  function PackRan(f: FcbValue, n: nat): FcbValue
  {
    f.(ran0 := (n / 0x1_0000) % 0x100, ran1 := (n / 0x100) % 0x100, ran2 := n % 0x100)
  }

  function UnpackRan(f: FcbValue): nat { 0x1_0000 * f.ran0 + 0x100 * f.ran1 + f.ran2 }

  /** `openfile` (fileio.c:220-254) once the entry has matched. */
  function Opened(f: FcbValue, e: Ent): FcbValue
  {
    f.(ent := e.(extent := f.ent.extent, s2 := e.s2 % 128 + 128),
       cur := if f.cur == 0xFF then e.s1 else f.cur)
  }

  /** Entry after a successful merge (fileio.c:406-419); `f` already holds the merged map. */
  function ClosedEntry(p: Dpb, f: Ent, d: Ent): Ent
    requires p.WellFormed()
  {
    var fext, dext := CalcExt(p, f.extent, f.dskmap), d.extent % 32;
    var larger := fext > dext || (fext == dext && f.rc > d.rc);
    DirEnt(d.entry, ClearArchive(d.name), if larger then fext % 256 else d.extent, f.s1, d.s2,
           if larger then f.rc else d.rc, d.dskmap)
  }

  function ClearArchive(name: seq<byte>): (r: seq<byte>)
    requires |name| == 11
    ensures |r| == 11
  {
    name[10 := name[10] % 128]
  }

  /** Entry after a partial truncation to `n` records (fileio.c:885-891). The test for n == 0 at
      line 880 cannot succeed there: an entry's base is never below 0. */
  function TruncatedEntry(e: Ent, m: Map, n: nat): Ent
    requires 0 < n
  {
    var last := n - 1;
    DirEnt(e.entry, e.name, (last / 128) % 32, 0, e.s2 - e.s2 % 64 + (last / 4096) % 64,
           last % 128 + 1, m)
  }

  function PutDir(v: Vol, i: nat, e: Ent): Vol
  {
    v.(dirbuf := PutEnt(v.dirbuf, i % 4, e))
  }

  function CloseAt(p: Dpb, v: Vol, f: FcbValue, i: nat): (r: (Vol, FcbValue, bool))
    requires Fits(p, v) && i <= p.drm
    ensures Fits(p, r.0)
  {
    var e := EntAt(v.dirbuf, i % 4);
    if !Matches(p, f.ent, e, true) then (v, f, false)
    else
      var mm := MergeMaps(p, f.ent.dskmap, e.dskmap, 0);
      MergedAt(p, v, f, i, e, mm.0, mm.1, mm.2)
  }

  /** `close` after the merge loop, on success or at `badmerge`. */
  function MergedAt(p: Dpb, v: Vol, f: FcbValue, i: nat, e: Ent, fm: Map, dm: Map, ok: bool)
    : (r: (Vol, FcbValue, bool))
    requires Fits(p, v) && i <= p.drm
    ensures Fits(p, r.0)
  {
    if ok then
      (DirWr(p, PutDir(v, i, ClosedEntry(p, WithMap(f.ent, fm), WithMap(e, dm))), i / 4),
       f.(ent := WithMap(f.ent, fm)), true)
    else
      (PutDir(v, i, WithMap(e, dm)).(ro := true), f.(ent := WithMap(f.ent, fm)), false)
  }

  function WithMap(e: Ent, m: Map): Ent { e.(dskmap := m) }

  /** `create` once a free entry is found. */
  function CreateAt(p: Dpb, v: Vol, f: FcbValue, i: nat): (r: (Vol, FcbValue))
    requires Fits(p, v) && i <= p.drm
    ensures Fits(p, r.0)
  {
    var f1 := f.(ent := f.ent.(rc := 0, dskmap := EMPTY_MAP));
    var v1 := DirWr(p, PutDir(v, i, f1.ent), i / 4);
    (v1.(hiwater := if i > v.hiwater then i else v.hiwater, crit := true), f1)
  }

  /** Erase the entry at `i` and release its blocks. */
  function EraseAt(p: Dpb, v: Vol, i: nat): (r: Vol)
    requires Fits(p, v) && i <= p.drm
    ensures Fits(p, r)
  {
    var e := EntAt(v.dirbuf, i % 4);
    DirWr(p, PutDir(v, i, e.(entry := FREE)), i / 4).(alv := FreeSlots(p, v.alv, e.dskmap, p.Slots()))
  }

  /** `truncate_one` (fileio.c:839-900). */
  function TruncateAt(p: Dpb, v: Vol, f: FcbValue, i: nat, n: nat): (r: Vol)
    requires Fits(p, v) && i <= p.drm
    ensures Fits(p, r)
  {
    var e := EntAt(v.dirbuf, i % 4);
    if e.entry >= 0x10 || !Matches(p, f.ent, e, false) then v
    else
      var v0 := v.(truncFound := true);
      if TruncBase(p, e) >= n then EraseAt(p, v0, i)
      else if ExtSize(e) + e.rc > n then
        var r := FreePast(p, v.alv, e.dskmap, TruncBase(p, e), n, p.Slots());
        DirWr(p, PutDir(v0.(alv := r.0), i, TruncatedEntry(e, r.1, n)), i / 4).(truncCode := i % 4)
      else v0
  }

  /** One call of the callback on directory index `i`, whose sector is in the buffer. */
  function Invoke(p: Dpb, cb: Callback, v: Vol, f: FcbValue, i: nat): (r: (Vol, FcbValue, bool))
    requires Fits(p, v) && i <= p.drm
    ensures Fits(p, r.0)
  {
    var e := EntAt(v.dirbuf, i % 4);
    match cb
    case OpenFile =>
      if Matches(p, f.ent, e, true) then (v.(crit := true), Opened(f, e), true) else (v, f, false)
    case CloseFile => CloseAt(p, v, f, i)
    case CreateFile =>
      if e.entry == FREE then (CreateAt(p, v, f, i).0, CreateAt(p, v, f, i).1, true) else (v, f, false)
    case DeleteFile =>
      if Matches(p, f.ent, e, false) then (EraseAt(p, v, i), f, true) else (v, f, false)
    case AllocEntry =>
      if e.entry < 0x10
      then (v.(hiwater := i, alv := UseSlots(p, v.alv, e.dskmap, p.Slots())), f, false)
      else (v, f, false)
    case FileSize =>
      if Matches(p, f.ent, e, false) then (v, PackRan(f, e.rc + ExtSize(e)), true) else (v, f, false)
    case TruncateOne(n) => (TruncateAt(p, v, f, i, n), f, false)
  }

  // ---------------------------------------------------------------- logging a drive in

  /** Scratch FCB standing for the NULL passed by `seldsk`; `alloc` never looks at it. */
  const NO_FCB := Fcb(DirEnt(0, [0, 0, 0, 0, 0, 0, 0, 0, 0, 0, 0], 0, 0, 0, 0, EMPTY_MAP), 0, 0, 0, 0)

  /** Read directory sector `s` and store its checksum (parms & initckv). */
  function LoadInit(p: Dpb, v: Vol, s: nat): (r: Vol)
    requires Fits(p, v) && s < p.DirSectors()
    ensures Fits(p, r)
  {
    v.(dirbuf := v.disk[s],
       csv := if s < p.cks then v.csv[s := Checksum(v.disk[s])] else v.csv)
  }

  /** The scan `seldsk` makes: every entry, checksums stored (parms 0x0e). */
  function ScanAlloc(p: Dpb, v: Vol, i: nat): (r: Vol)
    requires Fits(p, v)
    ensures Fits(p, r)
    decreases p.drm + 1 - i
  {
    if i > p.drm then v
    else
      var v1 := if i % 4 == 0 then LoadInit(p, v, i / 4) else v;
      ScanAlloc(p, Invoke(p, AllocEntry, v1.(srchpos := i), NO_FCB, i).0, i + 1)
  }

  /** Only the directory blocks are marked used. */
  function FreshVector(p: Dpb, a: Vector): (r: Vector)
    ensures |r| == |a|
  {
    seq(|a|, b requires 0 <= b < |a| => if b < p.DirBlocks() then true else if b <= p.dsm then false else a[b])
  }

  /** The login half of `seldsk` (fileio.c:140-156). */
  function Login(p: Dpb, v: Vol): (r: Vol)
    requires Fits(p, v)
    ensures Fits(p, r)
  {
    ScanAlloc(p, v.(alv := FreshVector(p, v.alv)), 0).(logged := true)
  }

  // ---------------------------------------------------------------- dirscan

  /** Read directory sector `s`, checking it against the checksum vector (dskutil.c:212-234). A
      changed medium is made read-only if the drive is critical, else logged in afresh and read
      again; after that the checksum agrees. */
  function LoadChecked(p: Dpb, v: Vol, s: nat): (r: Vol)
    requires Fits(p, v) && s < p.DirSectors()
    ensures Fits(p, r)
  {
    var v1 := v.(dirbuf := v.disk[s]);
    if s < p.cks && v.csv[s] != Checksum(v.disk[s]) then
      var v2 := v1.(hiwater := p.drm);
      if v.crit then v2.(ro := true)
      else
        var v3 := Login(p, v2.(logged := false));
        v3.(dirbuf := v3.disk[s])
    else v1
  }

  /** `dirscan` (dskutil.c:187-254) from index `i` on, for callbacks other than `alloc`; `full` and
      `pasthw` are bits of its parameter, `rtn` the result so far. */
  function Scan(p: Dpb, cb: Callback, v: Vol, f: FcbValue, i: nat, full: bool, pasthw: bool, rtn: nat)
    : (r: (Vol, FcbValue, nat))
    requires Fits(p, v)
    ensures Fits(p, r.0)
    decreases p.drm + 1 - i
  {
    if !(pasthw || i <= v.hiwater + 1) || i > p.drm then (v, f, rtn)
    else
      var v1 := if i % 4 == 0 then LoadChecked(p, v, i / 4) else v;
      var c := Invoke(p, cb, v1.(srchpos := i), f, i);
      if c.2 && !full then (c.0, c.1, i % 4)
      else Scan(p, cb, c.0, c.1, i + 1, full, pasthw, if c.2 then 0 else rtn)
  }

  /** A scan from the beginning. */
  function DirScan(p: Dpb, cb: Callback, v: Vol, f: FcbValue, full: bool, pasthw: bool)
    : (r: (Vol, FcbValue, nat))
    requires Fits(p, v)
    ensures Fits(p, r.0)
  {
    Scan(p, cb, v, f, 0, full, pasthw, 255)
  }
}

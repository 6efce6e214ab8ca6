/** Record I/O (bdosrw.c) and the file-system cases of `_bdos` (bdosmain.c) as functions on values. */
module RecordIo {
  import opened DiskParams
  import opened DiskMap
  import opened Directory
  import opened Allocation
  import opened Volume

  // ---------------------------------------------------------------- extents

  /** Module byte computed for random I/O (bdosrw.c:162): `(ran0 << 4) | (ran1 >> 4)` on signed
      bytes, so `ran1 >> 4` keeps the sign and a set top bit fills the high nibble. */
  function RandomModule(f: FcbValue): byte
  {
    if f.ran1 < 0x80 then (f.ran0 % 16) * 16 + f.ran1 / 16 else 0xF0 + f.ran1 / 16
  }

  /** Extent computed for random I/O (bdosrw.c:163-166). */
  function RandomExtent(f: FcbValue): byte
  {
    2 * (f.ran1 % 16) + f.ran2 / 128
  }

  /** Target (module byte, extent) of `new_ext`; sequential I/O carries extent 31 into the module. */
  function Target(f: FcbValue, ran: bool): (byte, byte)
  {
    if ran then (RandomModule(f), RandomExtent(f))
    else
      var ext := (f.ent.extent + 1) % 256;
      if 32 <= ext < 128 then (f.ent.s2 % 64 + 1, 0) else (f.ent.s2 % 64, ext)
  }

  /** `close_fi` (fileio.c:440-450): nothing to do unless the write flag is clear. */
  function CloseFi(p: Dpb, v: Vol, f: FcbValue): (r: (Vol, FcbValue, nat))
    requires Fits(p, v)
    ensures Fits(p, r.0)
  {
    if f.ent.s2 >= 128 then (v, f, 0) else DirScan(p, CloseFile, v, f, false, false)
  }

  function AtExtent(f: FcbValue, s2: byte, extent: byte): FcbValue
  {
    f.(ent := DirEnt(f.ent.entry, f.ent.name, extent, f.ent.s1, s2, f.ent.rc, f.ent.dskmap))
  }

  /** `new_ext` (bdosrw.c:145-218). A module byte of 128 or more is negative, so it is neither past
      the maximum nor equal to the current module. */
  function NewExt(p: Dpb, v: Vol, f: FcbValue, reading: bool, ran: bool): (r: (Vol, FcbValue, nat))
    requires Fits(p, v)
    ensures Fits(p, r.0)
  {
    var t := Target(f, ran);
    if 64 <= t.0 < 128 then (v, f, 6)
    else if t.0 == f.ent.s2 % 64 && (t.1 % 32) / p.Extents() == (f.ent.extent % 32) / p.Extents() then
      (v, AtExtent(f, f.ent.s2, t.1), 0)
    else
      var c := CloseFi(p, v, f);
      if c.2 >= 255 then (c.0, c.1, 3) else ChangeExt(p, c.0, c.1, t, reading)
  }

  /** Second half of `new_ext`: open the extent, or create it when writing. */
  function ChangeExt(p: Dpb, v: Vol, f: FcbValue, t: (byte, byte), reading: bool)
    : (r: (Vol, FcbValue, nat))
    requires Fits(p, v)
    ensures Fits(p, r.0)
  {
    var o := DirScan(p, OpenFile, v, AtExtent(f, t.0, t.1), false, false);
    if o.2 < 255 then (o.0, o.1, 0)
    else if reading then (o.0, AtExtent(o.1, f.ent.s2, f.ent.extent), 4)
    else
      var c := DirScan(p, CreateFile, o.0, o.1, false, true);
      (c.0, c.1, if c.2 >= 255 then 5 else 0)
  }

  // ---------------------------------------------------------------- records

  /** `count` zero records from the start of block `b` (bdosrw.c:371-376). */
  function ZeroFill(p: Dpb, disk: seq<Sector>, b: nat, count: nat): (r: seq<Sector>)
    requires (b + 1) * p.BlockRecs() <= |disk| && count <= p.BlockRecs()
    ensures |r| == |disk|
    ensures forall s :: 0 <= s < |disk| ==>
              r[s] == if b * p.BlockRecs() <= s < b * p.BlockRecs() + count then ZeroSector() else disk[s]
  {
    if count == 0 then disk
    else ZeroFill(p, disk, b, count - 1)[b * p.BlockRecs() + count - 1 := ZeroSector()]
  }

  /** Kinds of access: the `random` argument of `bdosrw`. */
  datatype Mode = Sequential | Random | ZeroFilling

  /** Positioning half of `bdosrw` (bdosrw.c:311-326). */
  function Position(p: Dpb, v: Vol, f: FcbValue, reading: bool, mode: Mode): (r: (Vol, FcbValue, nat))
    requires Fits(p, v) && (mode == Sequential ==> f.cur <= 128)
    ensures Fits(p, r.0)
    ensures r.2 == 0 ==> r.1.cur < 128
  {
    if mode != Sequential then
      var n := NewExt(p, v, f, reading, true);
      if n.2 != 0 then n else (n.0, n.1.(cur := n.1.ran2 % 128), 0)
    else if f.cur == 128 then
      var n := NewExt(p, v, f, reading, false);
      if n.2 != 0 then (n.0, n.1, 1) else (n.0, n.1.(cur := 0), 0)
    else (v, f, 0)
  }

  /** Transfer half of `bdosrw`, reading (bdosrw.c:328-392 with `reading` set). A block past the end
      of the medium is a device error, which the source puts to the operator; here it ends the call
      like unwritten data. */
  function ReadRecord(p: Dpb, v: Vol, f: FcbValue, mode: Mode): (r: (Vol, FcbValue, nat))
    requires Fits(p, v) && f.cur < 128
    ensures Fits(p, r.0)
  {
    BlkIndxIsDivision(p, f.ent.extent, f.cur);
    var block := Slot(p, f.ent.dskmap, BlkIndx(p, f.ent.extent, f.cur));
    if f.cur >= GetRc(p, f.ent.extent, f.ent.dskmap, f.ent.rc) || block == 0
       || |v.disk| <= SectorOf(p, block, f.cur)
    then (v, f, 1)
    else
      (v.(dma := v.disk[SectorOf(p, block, f.cur)]),
       if mode == Sequential then f.(cur := f.cur + 1) else f, 0)
  }

  /** FCB bytes after the write flag has been cleared, if it is to be (bdosrw.c:335). */
  function Flagged(e: Ent, clear: bool): Ent
  {
    DirEnt(e.entry, e.name, e.extent, e.s1, if clear then e.s2 % 128 else e.s2, e.rc, e.dskmap)
  }

  /** `setblk` (bdosrw.c:102-115). */
  function SetBlk(p: Dpb, e: Ent, index: nat, b: nat): Ent
    requires index < p.Slots() && b < 65536
  {
    DirEnt(e.entry, e.name, e.extent, e.s1, e.s2 % 128, e.rc, SetSlot(p, e.dskmap, index, b))
  }

  /** The drive once block `b` is allocated and, for a zero-fill write, cleared through the directory
      buffer (bdosrw.c:346-380). */
  function NewBlock(p: Dpb, v: Vol, b: nat, mode: Mode): (r: Vol)
    requires Fits(p, v) && b <= p.dsm
    ensures Fits(p, r)
  {
    BlockFits(p, b, 0);
    var v1 := v.(alv := SetAloc(p, v.alv, b));
    if mode == ZeroFilling
    then v1.(dirbuf := ZeroSector(), disk := ZeroFill(p, v.disk, b, p.BlockRecs())) else v1
  }

  /** `do_io` and the bookkeeping after it (bdosrw.c:382-392). */
  function StoreRecord(p: Dpb, v: Vol, f: FcbValue, e: Ent, rc: byte, b: nat, mode: Mode)
    : (r: (Vol, FcbValue, nat))
    requires Fits(p, v) && f.cur < 128
    ensures Fits(p, r.0)
  {
    if |v.disk| <= SectorOf(p, b, f.cur) then (v, f.(ent := e), 1)
    else (v.(disk := v.disk[SectorOf(p, b, f.cur) := v.dma]), Advance(f, e, rc, mode), 0)
  }

  /** Transfer half of `bdosrw`, writing. */
  function WriteRecord(p: Dpb, v: Vol, f: FcbValue, mode: Mode): (r: (Vol, FcbValue, nat))
    requires Fits(p, v) && f.cur < 128
    ensures Fits(p, r.0)
  {
    BlkIndxIsDivision(p, f.ent.extent, f.cur);
    var past := f.cur >= GetRc(p, f.ent.extent, f.ent.dskmap, f.ent.rc);
    var e := Flagged(f.ent, past);
    var rc := if past then f.cur + 1 else e.rc;
    var index := BlkIndx(p, e.extent, f.cur);
    var block := Slot(p, e.dskmap, index);
    if block != 0 then StoreRecord(p, v, f, e, rc, block, mode)
    else
      var left := Slot(p, e.dskmap, if index != 0 then index - 1 else 0);
      match if left <= p.dsm then Outward(p, v.alv, left, left) else None
      case None => (v, f.(ent := e), 2)
      case Some(b) => StoreRecord(p, NewBlock(p, v, b, mode), f, SetBlk(p, e, index, b), rc, b, mode)
  }

  function Advance(f: FcbValue, e: Ent, rc: byte, mode: Mode): FcbValue
    requires f.cur < 128
  {
    f.(ent := DirEnt(e.entry, e.name, e.extent, e.s1, e.s2, rc, e.dskmap),
       cur := if mode == Sequential then f.cur + 1 else f.cur)
  }

  lemma BlockFits(p: Dpb, b: nat, q: nat)
    requires b <= p.dsm
    ensures (b + 1) * p.BlockRecs() <= (p.dsm + 1) * p.BlockRecs()
    ensures SectorOf(p, b, q) < (b + 1) * p.BlockRecs()
  {
  }

  /** `bdosrw` (bdosrw.c:291-393). */
  function BdosRw(p: Dpb, v: Vol, f: FcbValue, reading: bool, mode: Mode): (r: (Vol, FcbValue, nat))
    requires Fits(p, v) && (mode == Sequential ==> f.cur <= 128)
    ensures Fits(p, r.0)
  {
    var q := Position(p, v, f, reading, mode);
    if q.2 != 0 then q
    else if reading then ReadRecord(p, q.0, q.1, mode)
    else WriteRecord(p, q.0, q.1, mode)
  }
}

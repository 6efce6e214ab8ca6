/** The BDOS file system as it runs: arrays and globals updated in place by loops. Every method is
    proved to compute the function on values that carries its name elsewhere in this project. */
module Machine {
  import opened DiskParams
  import opened DiskMap
  import opened Directory
  import opened Volume
  import opened Layout
  import opened Scanning
  import opened RecordIo
  import Allocation
  import LoginScan
  import FileCalls
  import Truncation
  import Addressing
  import FreeSpace

  /** Two arrays are one object. */
  predicate Same(a: object, b: object) { a == b }

  /** No free block, `(UWORD)~0`. */
  const NO_BLOCK := 0xFFFF

  /** The globals of one selected drive (`GBL`, its `dph`, `log_dsk`, `ro_dsk`, `crit_dsk`, and the
      statics of fileio.c:755-757). An FCB is the caller's array of 36 bytes. */
  class Bdos {
    const p: Dpb
    const disk: array<Sector>
    const alv: array<bv8>
    const csv: array<byte>
    const dirbuf: array<byte>
    const dma: array<byte>
    var hiwater: nat
    var srchpos: nat
    var ro: bool
    var crit: bool
    var logged: bool
    var truncFound: bool
    var truncCode: nat

    /** A drive that nobody has logged in yet. */
    constructor (p: Dpb, user: byte)
      requires p.WellFormed()
      ensures Valid() && this.p == p && this.user == user && !logged && !ro
      ensures fresh(disk) && fresh(alv) && fresh(csv) && fresh(dirbuf) && fresh(dma)
    {
      hide Dpb.WellFormed, Dpb.BlockRecs, Dpb.DirSectors;
      DirectoryOnDisk(p);
      this.p, this.user := p, user;
      disk := new Sector[(p.dsm + 1) * p.BlockRecs()](_ => ZeroSector());
      alv := new bv8[p.dsm / 8 + 1](_ => 0);
      csv := new byte[p.cks](_ => 0);
      dirbuf := new byte[128](_ => 0);
      dma := new byte[128](_ => 0);
      hiwater, srchpos, ro, crit, logged, truncFound, truncCode := 0, 0, false, false, false, false, 0;
    }

    ghost predicate Valid()
    {
      && p.WellFormed()
      && disk.Length == (p.dsm + 1) * p.BlockRecs() && p.DirSectors() <= disk.Length
      && alv.Length == p.dsm / 8 + 1 && csv.Length == p.cks
      && dirbuf.Length == 128 && dma.Length == 128
      && dirbuf != csv && dma != dirbuf && dma != csv
      && Apart(dirbuf) && Apart(csv) && Apart(dma) && !Same(alv, disk)
    }

    ghost predicate Apart(b: array<byte>)
    {
      !Same(b, alv) && !Same(b, disk)
    }

    ghost function State(): (v: Vol)
      requires Valid()
      reads this, disk, alv, csv, dirbuf, dma
      ensures Fits(p, v)
    {
      Vol(disk[..], BitsOf(alv[..]), csv[..], hiwater, dirbuf[..], srchpos, ro, crit, logged, dma[..], truncFound,
        truncCode)
    }

    /** An FCB buffer of the caller's own. */
    ghost predicate Fcb36(fcb: array<byte>)
    {
      fcb.Length == FCB_BYTES && fcb != dirbuf && fcb != csv && fcb != dma && Apart(fcb)
    }

    // ------------------------------------------------------------ sectors

    method ReadSector(secnum: nat, buf: array<byte>)
      requires secnum < disk.Length && buf.Length == 128
      modifies buf
      ensures buf[..] == disk[secnum]
    {
      var i := 0;
      var s := disk[secnum];
      while i < 128
        invariant i <= 128 && buf[..i] == s[..i]
      {
        buf[i] := s[i];
        i := i + 1;
      }
      assert buf[..] == buf[..128];
    }

    method WriteSector(secnum: nat, buf: array<byte>)
      requires secnum < disk.Length && buf.Length == 128
      modifies disk
      ensures disk[..] == old(disk[..])[secnum := buf[..]]
    {
      disk[secnum] := buf[..];
    }

    /** `dir_rd` (dskutil.c:110-116). */
    method DirRd(secnum: nat)
      requires Valid() && secnum < disk.Length
      modifies dirbuf
      ensures State() == old(State()).(dirbuf := old(State()).disk[secnum])
    {
      hide Dpb.WellFormed, Fits, BitsOf;
      ReadSector(secnum, dirbuf);
      assert disk[..] == old(disk[..]) && alv[..] == old(alv[..]) && csv[..] == old(csv[..]) && dma[..] == old(dma[..]);
    }

    /** `dchksum` (dskutil.c:144-169). */
    method Dchksum() returns (c: byte)
      requires Valid()
      ensures c == Checksum(dirbuf[..])
    {
      hide Dpb.WellFormed, Fits, LongAt;
      var lsum: nat := 0;
      var i := 0;
      while i < 32
        invariant i <= 32 && lsum == LongSum(dirbuf[..], i)
      {
        lsum := (lsum + LongAt(dirbuf[..], i)) % 0x1_0000_0000;
        i := i + 1;
      }
      lsum := (lsum + lsum / 0x1_0000) % 0x1_0000_0000;
      c := (lsum + lsum / 0x100) % 0x100;
    }

    /** `dir_wr` (dskutil.c:124-136). */
    method DirWr(secnum: nat)
      requires Valid() && secnum < p.DirSectors()
      modifies disk, csv
      ensures State() == Volume.DirWr(p, old(State()), secnum)
    {
      hide Dpb.WellFormed, Fits, BitsOf, Checksum;
      WriteSector(secnum, dirbuf);
      if secnum < p.cks {
        var c := Dchksum();
        csv[secnum] := c;
        assert csv[..] == old(csv[..])[secnum := c];
      } else {
        assert csv[..] == old(csv[..]);
      }
      assert dirbuf[..] == old(dirbuf[..]) && alv[..] == old(alv[..]) && dma[..] == old(dma[..]);
    }

    // ------------------------------------------------------------ allocation vector

    /** `setaloc` (dskutil.c:265-276). */
    method SetAloc(bitnum: nat)
      requires Valid()
      modifies alv
      ensures State() == old(State()).(alv := Allocation.SetAloc(p, old(State()).alv, bitnum))
    {
      hide Dpb.WellFormed, Fits, BitsOf, WithBit, WithoutBit;
      assert disk[..] == old(disk[..]) && dirbuf[..] == old(dirbuf[..]) && csv[..] == old(csv[..])
        && dma[..] == old(dma[..]);
      if bitnum <= p.dsm {
        SetInBytes(alv[..], bitnum);
        alv[bitnum / 8] := WithBit(alv[bitnum / 8], bitnum % 8);
        assert alv[..] == old(alv[..])[bitnum / 8 := WithBit(old(alv[bitnum / 8]), bitnum % 8)];
      }
    }

    /** `clraloc` (dskutil.c:280-288). */
    method ClrAloc(bitnum: nat)
      requires Valid()
      modifies alv
      ensures State() == old(State()).(alv := Allocation.ClrAloc(p, old(State()).alv, bitnum))
    {
      hide Dpb.WellFormed, Fits, BitsOf, WithBit, WithoutBit;
      assert disk[..] == old(disk[..]) && dirbuf[..] == old(dirbuf[..]) && csv[..] == old(csv[..])
        && dma[..] == old(dma[..]);
      if 0 < bitnum <= p.dsm {
        ClearInBytes(alv[..], bitnum);
        alv[bitnum / 8] := WithoutBit(alv[bitnum / 8], bitnum % 8);
        assert alv[..] == old(alv[..])[bitnum / 8 := WithoutBit(old(alv[bitnum / 8]), bitnum % 8)];
      }
    }

    /** `chkaloc` (dskutil.c:292-300). */
    method ChkAloc(i: nat) returns (free: bool)
      requires Valid() && i <= p.dsm
      ensures free == !State().alv[i]
    {
      free := BitClear(alv[i / 8], i % 8);
    }

    /** The search loop of `getaloc` (dskutil.c:322-339). */
    method NearestClear(leftblk: nat) returns (blk: nat)
      requires Valid() && leftblk <= p.dsm
      ensures match Allocation.Outward(p, State().alv, leftblk, leftblk)
        case Some(b) => blk == b <= p.dsm
        case None => blk == NO_BLOCK
    {
      hide Dpb.WellFormed, Fits, BitsOf, BitClear, Allocation.Outward;
      ghost var a := State().alv;
      var l: nat, r: nat := leftblk, leftblk;
      while l > 0 || r < p.dsm
        invariant l <= p.dsm
        invariant Allocation.Outward(p, a, l, r) == Allocation.Outward(p, a, leftblk, leftblk)
        decreases l + if r < p.dsm then p.dsm - r else 0
      {
        OutwardStep(p, a, l, r);
        if l > 0 {
          l := l - 1;
          var free := ChkAloc(l);
          if free { return l; }
        }
        if r < p.dsm {
          r := r + 1;
          var free := ChkAloc(r);
          if free { return r; }
        }
      }
      OutwardStep(p, a, l, r);
      blk := NO_BLOCK;
    }

    /** `getaloc` (dskutil.c:304-346). */
    method GetAloc(leftblk: nat) returns (blk: nat)
      requires Valid() && leftblk <= p.dsm
      modifies alv
      ensures match Allocation.Outward(p, old(State()).alv, leftblk, leftblk)
        case Some(b) => blk == b && State() == old(State()).(alv := Allocation.SetAloc(p, old(State()).alv, b))
        case None => blk == NO_BLOCK && State() == old(State())
    {
      assert p.dsm < 0x8000;
      hide Dpb.WellFormed, Fits, State, Allocation.Outward;
      blk := NearestClear(leftblk);
      if blk != NO_BLOCK { SetAloc(blk); }
    }

    // ------------------------------------------------------------ stores

    /** One byte of an FCB. */
    method Put(fcb: array<byte>, o: nat, x: byte)
      requires Fcb36(fcb) && o < FCB_BYTES
      modifies fcb
      ensures FcbOf(fcb[..]) == Stored(old(FcbOf(fcb[..])), o, x) && fcb[..] == old(fcb[..])[o := x]
    {
      StoreFcbByte(fcb[..], o, x);
      fcb[o] := x;
      assert fcb[..] == old(fcb[..])[o := x];
    }

    /** One byte of directory entry `k` in the buffer. */
    method PutEntByte(k: nat, o: nat, x: byte)
      requires Valid() && k < 4 && o < 32
      modifies dirbuf
      ensures var s := old(State()).dirbuf;
        && State() == old(State()).(dirbuf := PutEnt(s, k, WithByte(EntAt(s, k), o, x)))
        && dirbuf[..] == s[32 * k + o := x]
    {
      hide Dpb.WellFormed, Fits, BitsOf, PutEnt, EntAt, WithByte;
      StoreDirByte(dirbuf[..], k, o, x);
      dirbuf[32 * k + o] := x;
      assert dirbuf[..] == old(dirbuf[..])[32 * k + o := x];
      assert disk[..] == old(disk[..]) && alv[..] == old(alv[..]) && csv[..] == old(csv[..]) && dma[..] == old(dma[..]);
    }

    /** `move(dirp, fcbp, 32)`. */
    method MoveFromDir(fcb: array<byte>, k: nat)
      requires Valid() && Fcb36(fcb) && k < 4
      modifies fcb
      ensures FcbOf(fcb[..]) == old(FcbOf(fcb[..])).(ent := EntAt(dirbuf[..], k))
      ensures State() == old(State())
    {
      hide Dpb.WellFormed, Fits, BitsOf, FcbOf, EntAt;
      var i := 0;
      while i < 32
        invariant i <= 32
        invariant forall j :: 0 <= j < i ==> fcb[j] == dirbuf[32 * k + j]
        invariant forall j :: i <= j < FCB_BYTES ==> fcb[j] == old(fcb[j])
        invariant dirbuf[..] == old(dirbuf[..])
      {
        fcb[i] := dirbuf[32 * k + i];
        i := i + 1;
      }
      MoveToFcb(old(fcb[..]), dirbuf[..], k, fcb[..]);
      Unmoved();
    }

    /** Writing to an FCB does not touch the drive. */
    twostate lemma Unmoved()
      requires Valid()
      requires unchanged(this) && unchanged(disk) && unchanged(alv) && unchanged(csv) && unchanged(dirbuf)
      requires unchanged(dma)
      ensures State() == old(State())
    {
      assert disk[..] == old(disk[..]) && alv[..] == old(alv[..]) && csv[..] == old(csv[..]) && dma[..] == old(dma[..])
        && dirbuf[..] == old(dirbuf[..]);
    }

    /** `move(fcbp, dirp, 32)`. */
    method MoveIntoDir(fcb: array<byte>, k: nat)
      requires Valid() && Fcb36(fcb) && k < 4
      modifies dirbuf
      ensures State() == old(State()).(dirbuf := PutEnt(old(State()).dirbuf, k, FcbOf(fcb[..]).ent))
    {
      hide Dpb.WellFormed, Fits, BitsOf, FcbOf, EntAt, PutEnt;
      var i := 0;
      while i < 32
        invariant i <= 32
        invariant forall j :: 0 <= j < 128 ==>
          dirbuf[j] == if 32 * k <= j < 32 * k + i then fcb[j - 32 * k] else old(dirbuf[j])
      {
        dirbuf[32 * k + i] := fcb[i];
        i := i + 1;
      }
      MoveToDir(fcb[..], old(dirbuf[..]), k, dirbuf[..]);
      assert disk[..] == old(disk[..]) && alv[..] == old(alv[..]) && csv[..] == old(csv[..]) && dma[..] == old(dma[..]);
    }

    // ------------------------------------------------------------ matching

    /** `match` (fileio.c:179-213). */
    method Match(fcb: array<byte>, k: nat, chkExt: bool) returns (m: bool)
      requires Valid() && Fcb36(fcb) && k < 4
      ensures m == Matches(p, FcbOf(fcb[..]).ent, EntAt(State().dirbuf, k), chkExt)
    {
      hide Dpb.WellFormed, Fits;
      FcbFields(fcb[..]);
      DirFields(dirbuf[..], k);
      ghost var f, d := FcbOf(fcb[..]).ent, EntAt(dirbuf[..], k);
      hide FcbOf, EntAt;
      assert forall j: nat :: j < 12 ==> NameByte(f, j) == fcb[j] && NameByte(d, j) == dirbuf[32 * k + j];
      var i := 0;
      while i < 12
        invariant i <= 12 && forall j: nat :: j < i ==> ByteMatches(NameByte(f, j), NameByte(d, j))
      {
        if fcb[i] != 0x3F && fcb[i] % 128 != dirbuf[32 * k + i] % 128 {
          assert !ByteMatches(NameByte(f, i), NameByte(d, i));
          return false;
        }
        i := i + 1;
      }
      if chkExt {
        if fcb[EXTENT] != 0x3F && fcb[EXTENT] / p.Extents() != dirbuf[32 * k + EXTENT] / p.Extents() {
          return false;
        }
        if fcb[S2] % 64 != dirbuf[32 * k + S2] % 64 {
          return false;
        }
      }
      return true;
    }

    // ------------------------------------------------------------ map slots and extents

    /** `blknum` (bdosrw.c:89-99). */
    method BlkNum(fcb: array<byte>, index: nat) returns (b: nat)
      requires Fcb36(fcb) && index < p.Slots()
      ensures b == Slot(p, FcbOf(fcb[..]).ent.dskmap, index)
    {
      FcbFields(fcb[..]);
      b := if p.WordMode() then Word(fcb[DSKMAP + 2 * index], fcb[DSKMAP + 2 * index + 1]) else fcb[DSKMAP + index];
    }

    /** The store of `setblk` (bdosrw.c:111-114). */
    method StoreBlk(fcb: array<byte>, index: nat, block: nat)
      requires Fcb36(fcb) && index < p.Slots() && block < 65536
      modifies fcb
      ensures var f := old(FcbOf(fcb[..]));
        FcbOf(fcb[..]) == f.(ent := WithMap(f.ent, DiskMap.SetSlot(p, f.ent.dskmap, index, block)))
    {
      hide FcbOf;
      if p.WordMode() {
        Put(fcb, DSKMAP + 2 * index, block % 256);
        Put(fcb, DSKMAP + 2 * index + 1, block / 256);
      } else {
        Put(fcb, DSKMAP + index, block % 256);
      }
    }

    /** A slot of directory entry `k` in the buffer. */
    method DirBlk(k: nat, index: nat) returns (b: nat)
      requires Valid() && k < 4 && index < p.Slots()
      ensures b == Slot(p, EntAt(State().dirbuf, k).dskmap, index)
    {
      hide Dpb.WellFormed, Fits, BitsOf, EntAt;
      DirFields(dirbuf[..], k);
      var base := 32 * k + DSKMAP;
      b := if p.WordMode() then Word(dirbuf[base + 2 * index], dirbuf[base + 2 * index + 1]) else dirbuf[base + index];
    }

    method DirStoreBlk(k: nat, index: nat, block: nat)
      requires Valid() && k < 4 && index < p.Slots() && block < 65536
      modifies dirbuf
      ensures var s := old(State()).dirbuf;
        var e := EntAt(s, k);
        State() == old(State()).(dirbuf := PutEnt(s, k, WithMap(e, DiskMap.SetSlot(p, e.dskmap, index, block))))
    {
      hide State, PutEnt, EntAt;
      ghost var s: Sector := State().dirbuf;
      if p.WordMode() {
        PutEntByte(k, DSKMAP + 2 * index, block % 256);
        PutGet(s, k, WithByte(EntAt(s, k), DSKMAP + 2 * index, block % 256), k);
        PutEntByte(k, DSKMAP + 2 * index + 1, block / 256);
        PutTwice(s, k, WithByte(EntAt(s, k), DSKMAP + 2 * index, block % 256),
          WithByte(WithByte(EntAt(s, k), DSKMAP + 2 * index, block % 256), DSKMAP + 2 * index + 1, block / 256));
      } else {
        PutEntByte(k, DSKMAP + index, block % 256);
      }
    }

    /** `calcext` (bdosrw.c:228-255). */
    method CalcExt(fcb: array<byte>) returns (ext: nat)
      requires Valid() && Fcb36(fcb)
      ensures ext == DiskMap.CalcExt(p, FcbOf(fcb[..]).ent.extent, FcbOf(fcb[..]).ent.dskmap)
    {
      hide *;
      CalcExtFacts(fcb);
      ghost var m: Map := fcb[16..32];
      var i: nat := 15;
      while i != 0 && fcb[16 + i] == 0
        invariant i <= 15 && LastByte(m, 15) == LastByte(m, i)
      {
        LastByteStep(m, i);
        assert m[i] == fcb[16 + i];
        i := i - 1;
      }
      LastByteStep(m, i);
      assert m[i] == fcb[16 + i];
      if p.dsm > 255 { i := i / 2; }
      ext := ExtBase(fcb[12] % 32, p.Extents()) + i / p.SlotsPerExtent();
    }

    lemma CalcExtFacts(fcb: array<byte>)
      requires Valid() && Fcb36(fcb)
      ensures fcb.Length == 36 && p.bsh <= 7 && 0 < p.Extents() && 0 < p.SlotsPerExtent()
      ensures DiskMap.CalcExt(p, FcbOf(fcb[..]).ent.extent, FcbOf(fcb[..]).ent.dskmap)
        == ExtBase(fcb[12] % 32, p.Extents())
          + (if p.dsm > 255 then LastByte(fcb[16..32], 15) / 2 else LastByte(fcb[16..32], 15)) / p.SlotsPerExtent()
    {
      hide LastByte, ExtBase;
      FcbFields(fcb[..]);
      Shapes(p);
    }

    /** `get_rc` (bdosrw.c:265-282). */
    method GetRc(fcb: array<byte>) returns (rc: nat)
      requires Valid() && Fcb36(fcb)
      ensures var e := FcbOf(fcb[..]).ent; rc == DiskMap.GetRc(p, e.extent, e.dskmap, e.rc)
    {
      FcbFields(fcb[..]);
      hide FcbOf, DiskMap.CalcExt;
      var ext := CalcExt(fcb);
      rc := if ext == fcb[EXTENT] then fcb[RC] else if ext > fcb[EXTENT] then 128 else 0;
    }

    // ------------------------------------------------------------ callbacks

    /** Assignments to the globals change nothing else. */
    twostate lemma Globals()
      requires Valid()
      requires unchanged(disk) && unchanged(alv) && unchanged(csv) && unchanged(dirbuf) && unchanged(dma)
      ensures State() == old(State()).(hiwater := hiwater, srchpos := srchpos, ro := ro, crit := crit, logged := logged,
        truncFound := truncFound, truncCode := truncCode)
    {
      assert disk[..] == old(disk[..]) && alv[..] == old(alv[..]) && csv[..] == old(csv[..]) && dma[..] == old(dma[..])
        && dirbuf[..] == old(dirbuf[..]);
    }

    /** `openfile` (fileio.c:220-254). */
    method OpenFile(fcb: array<byte>, i: nat) returns (hit: bool)
      requires Valid() && Fcb36(fcb) && i <= p.drm
      modifies this, fcb
      ensures (State(), FcbOf(fcb[..]), hit)
        == Invoke(p, Callback.OpenFile, old(State()), old(FcbOf(fcb[..])), i)
    {
      hide FcbOf, EntAt, Matches, Dpb.WellFormed, Fits;
      FcbFields(fcb[..]);
      ghost var e := EntAt(State().dirbuf, i % 4);
      hit := Match(fcb, i % 4, true);
      if hit {
        var wantLrbc := fcb[CUR] == 0xFF;
        var ext := fcb[EXTENT];
        MoveFromDir(fcb, i % 4);
        Put(fcb, EXTENT, ext);
        FcbFields(fcb[..]);
        Put(fcb, S2, fcb[S2] % 128 + 128);
        FcbFields(fcb[..]);
        if wantLrbc { Put(fcb, CUR, fcb[S1]); }
        label Flag:
        crit := true;
        Globals@Flag();
      }
    }

    /** One round of the merge loops of `close` (fileio.c:373-381, 393-401); false at `badmerge`. */
    method MergeSlot(fcb: array<byte>, k: nat, j: nat) returns (ok: bool)
      requires Valid() && Fcb36(fcb) && k < 4 && j < p.Slots()
      modifies dirbuf, fcb
      ensures var f, s := old(FcbOf(fcb[..])), old(State()).dirbuf;
        var e := EntAt(s, k);
        var a, b := Slot(p, f.ent.dskmap, j), Slot(p, e.dskmap, j);
        var fm := if b != 0 && a == 0 then DiskMap.SetSlot(p, f.ent.dskmap, j, b) else f.ent.dskmap;
        var dm := if b == 0 then DiskMap.SetSlot(p, e.dskmap, j, a) else e.dskmap;
        && ok == !(b != 0 && a != 0 && a != b)
        && FcbOf(fcb[..]) == f.(ent := WithMap(f.ent, fm))
        && State() == old(State()).(dirbuf := PutEnt(s, k, WithMap(e, dm)))
    {
      hide FcbOf, State, EntAt, PutEnt, Slot, DiskMap.SetSlot, Dpb.WellFormed, Fits;
      ghost var f, s: Sector := FcbOf(fcb[..]), State().dirbuf;
      PutSame(s, k);
      assert WithMap(f.ent, f.ent.dskmap) == f.ent && WithMap(EntAt(s, k), EntAt(s, k).dskmap) == EntAt(s, k);
      var a := BlkNum(fcb, j);
      var b := DirBlk(k, j);
      ok := true;
      if b != 0 {
        if a != 0 {
          ok := a == b;
        } else {
          StoreBlk(fcb, j, b);
          Unmoved();
        }
      } else {
        DirStoreBlk(k, j, a);
      }
    }

    /** The merge loops of `close` (fileio.c:367-404). */
    method MergeMaps(fcb: array<byte>, k: nat) returns (ok: bool)
      requires Valid() && Fcb36(fcb) && k < 4
      modifies dirbuf, fcb
      ensures var f, s := old(FcbOf(fcb[..])), old(State()).dirbuf;
        var e := EntAt(s, k);
        var r := Volume.MergeMaps(p, f.ent.dskmap, e.dskmap, 0);
        && FcbOf(fcb[..]) == f.(ent := WithMap(f.ent, r.0)) && ok == r.2
        && State() == old(State()).(dirbuf := PutEnt(s, k, WithMap(e, r.1)))
    {
      hide FcbOf, State, EntAt, PutEnt, Slot, DiskMap.SetSlot, Valid, Volume.MergeMaps, Dpb.WellFormed, Fits, Apart;
      ghost var f, s: Sector := FcbOf(fcb[..]), State().dirbuf;
      ghost var e := EntAt(s, k);
      ghost var fm: Map, dm: Map := f.ent.dskmap, e.dskmap;
      PutSame(s, k);
      SameMap(f.ent);
      SameMap(e);
      var j := 0;
      while j < p.Slots()
        invariant j <= p.Slots()
        invariant FcbOf(fcb[..]) == f.(ent := WithMap(f.ent, fm))
        invariant State() == old(State()).(dirbuf := PutEnt(s, k, WithMap(e, dm)))
        invariant Volume.MergeMaps(p, fm, dm, j) == Volume.MergeMaps(p, f.ent.dskmap, e.dskmap, 0)
      {
        MergeStep(p, fm, dm, j);
        PutGet(s, k, WithMap(e, dm), k);
        ghost var a, b := Slot(p, fm, j), Slot(p, dm, j);
        ghost var dm' := if b == 0 then DiskMap.SetSlot(p, dm, j, a) else dm;
        PutTwice(s, k, WithMap(e, dm), WithMap(e, dm'));
        ok := MergeSlot(fcb, k, j);
        if !ok { return; }
        fm := if b != 0 && a == 0 then DiskMap.SetSlot(p, fm, j, b) else fm;
        dm := dm';
        j := j + 1;
      }
      MergeStep(p, fm, dm, j);
      return true;
    }

    /** Byte `o` of directory entry `k` in the buffer. */
    method EntByte(k: nat, o: nat) returns (x: byte)
      requires Valid() && k < 4 && o < 32
      ensures x == ByteOf(EntAt(State().dirbuf, k), o)
    {
      DirByte(dirbuf[..], k, o);
      x := dirbuf[32 * k + o];
    }

    /** One more store into entry `k`, which so far has become `c` and was loaded by drive `v`. */
    method StoreEntByte(k: nat, o: nat, x: byte, ghost v: Vol, ghost c: Ent)
      requires Valid() && k < 4 && o < 32 && State() == v.(dirbuf := PutEnt(v.dirbuf, k, c))
      modifies dirbuf
      ensures State() == v.(dirbuf := PutEnt(v.dirbuf, k, WithByte(c, o, x)))
    {
      Restore(v.dirbuf, k, c, o, x);
      hide State, PutEnt, EntAt, WithByte;
      PutEntByte(k, o, x);
    }

    /** Extent, record count, s1 and archive bit of entry `k` (fileio.c:406-419). */
    method UpdateEntry(fcb: array<byte>, k: nat)
      requires Valid() && Fcb36(fcb) && k < 4
      modifies dirbuf
      ensures var s := old(State()).dirbuf;
        State() == old(State()).(dirbuf := PutEnt(s, k, ClosedEntry(p, FcbOf(fcb[..]).ent, EntAt(s, k))))
    {
      ghost var v := State();
      ghost var e := EntAt(v.dirbuf, k);
      FcbFields(fcb[..]);
      PutSame(v.dirbuf, k);
      hide FcbOf, State, EntAt, PutEnt, DiskMap.CalcExt, Dpb.WellFormed, Fits, Valid;
      var fcbExt := CalcExt(fcb);
      var dirExt := EntByte(k, EXTENT);
      var dirRc := EntByte(k, RC);
      var typ := EntByte(k, 11);
      ghost var c := e;
      if fcbExt > dirExt % 32 || (fcbExt == dirExt % 32 && fcb[RC] > dirRc) {
        StoreEntByte(k, RC, fcb[RC], v, c);
        c := WithByte(c, RC, fcb[RC]);
        StoreEntByte(k, EXTENT, fcbExt % 256, v, c);
        c := WithByte(c, EXTENT, fcbExt % 256);
      }
      StoreEntByte(k, S1, fcb[S1], v, c);
      c := WithByte(c, S1, fcb[S1]);
      StoreEntByte(k, 11, typ % 128, v, c);
      c := WithByte(c, 11, typ % 128);
      assert c == ClosedEntry(p, FcbOf(fcb[..]).ent, e);
    }

    /** `close` (fileio.c:345-433). */
    method Close(fcb: array<byte>, i: nat) returns (hit: bool)
      requires Valid() && Fcb36(fcb) && i <= p.drm
      modifies this, disk, csv, dirbuf, fcb
      ensures (State(), FcbOf(fcb[..]), hit) == Invoke(p, Callback.CloseFile, old(State()), old(FcbOf(fcb[..])), i)
    {
      hide FcbOf, State, EntAt, PutEnt, Matches, Volume.MergeMaps, Valid, WithMap, Volume.DirWr;
      ghost var v, f := State(), FcbOf(fcb[..]);
      ghost var e := EntAt(v.dirbuf, i % 4);
      ghost var mm := Volume.MergeMaps(p, f.ent.dskmap, e.dskmap, 0);
      hit := Match(fcb, i % 4, true);
      if hit {
        hit := MergeMaps(fcb, i % 4);
        PutGet(v.dirbuf, i % 4, WithMap(e, mm.1), i % 4);
        if hit {
          UpdateEntry(fcb, i % 4);
          PutTwice(v.dirbuf, i % 4, WithMap(e, mm.1), ClosedEntry(p, WithMap(f.ent, mm.0), WithMap(e, mm.1)));
          DirWr(i / 4);
        } else {
          Fields();
          label Bad:
          ro := true;
          Globals@Bad();
        }
      }
    }

    /** `create` (fileio.c:516-543). */
    method Create(fcb: array<byte>, i: nat) returns (hit: bool)
      requires Valid() && Fcb36(fcb) && i <= p.drm
      modifies this, disk, csv, dirbuf, fcb
      ensures (State(), FcbOf(fcb[..]), hit) == Invoke(p, Callback.CreateFile, old(State()), old(FcbOf(fcb[..])), i)
    {
      hide FcbOf, State, EntAt, PutEnt, Valid, Volume.DirWr;
      ghost var f := FcbOf(fcb[..]);
      Fields();
      var entry := EntByte(i % 4, 0);
      hit := entry == FREE;
      if hit {
        ClearMap(fcb);
        Unmoved();
        MoveIntoDir(fcb, i % 4);
        DirWr(i / 4);
        Fields();
        label Flags:
        if i > hiwater { hiwater := i; }
        crit := true;
        Globals@Flags();
      }
    }

    /** Record count and map of a new extent (fileio.c:528-531). */
    method ClearMap(fcb: array<byte>)
      requires Fcb36(fcb)
      modifies fcb
      ensures var f := old(FcbOf(fcb[..])); FcbOf(fcb[..]) == f.(ent := f.ent.(rc := 0, dskmap := EMPTY_MAP))
    {
      hide FcbOf;
      ghost var f := FcbOf(fcb[..]);
      Put(fcb, RC, 0);
      ghost var m := f.ent.dskmap;
      assert f.ent.(rc := 0) == f.ent.(rc := 0, dskmap := m);
      var i := 0;
      while i < 16
        invariant i <= 16 && |m| == 16 && forall j :: 0 <= j < i ==> m[j] == 0
        invariant FcbOf(fcb[..]) == f.(ent := f.ent.(rc := 0, dskmap := m))
      {
        Put(fcb, DSKMAP + i, 0);
        m := m[i := 0];
        i := i + 1;
      }
      assert m == EMPTY_MAP;
    }

    /** The loop that releases an entry's blocks (fileio.c:572-582, 760-779). */
    method FreeAll(k: nat)
      requires Valid() && k < 4
      modifies alv
      ensures var v := old(State());
        State() == v.(alv := FreeSlots(p, v.alv, EntAt(v.dirbuf, k).dskmap, p.Slots()))
    {
      hide State, EntAt, Slot, Valid, Allocation.ClrAloc;
      ghost var v := State();
      ghost var m := EntAt(v.dirbuf, k).dskmap;
      var i: nat := p.Slots();
      while i != 0
        invariant i <= p.Slots() && |State().alv| == |v.alv| && State() == v.(alv := State().alv)
        invariant FreeSlots(p, State().alv, m, i) == FreeSlots(p, v.alv, m, p.Slots())
      {
        i := i - 1;
        var b := DirBlk(k, i);
        ClrAloc(b);
      }
    }

    /** `delete` (fileio.c:550-585). */
    method Delete(fcb: array<byte>, i: nat) returns (hit: bool)
      requires Valid() && Fcb36(fcb) && i <= p.drm
      modifies this, disk, csv, dirbuf, alv
      ensures (State(), FcbOf(fcb[..]), hit) == Invoke(p, Callback.DeleteFile, old(State()), old(FcbOf(fcb[..])), i)
    {
      hide FcbOf, State, EntAt, PutEnt, Matches, Valid, FreeSlots;
      ghost var v := State();
      hit := Match(fcb, i % 4, false);
      if hit {
        PutEntByte(i % 4, 0, FREE);
        PutGet(v.dirbuf, i % 4, WithByte(EntAt(v.dirbuf, i % 4), 0, FREE), i % 4);
        DirWr(i / 4);
        FreeAll(i % 4);
      }
    }

    /** `alloc` (fileio.c:73-99). */
    method Alloc(i: nat)
      requires Valid() && i <= p.drm
      modifies this, alv
      ensures State() == Invoke(p, Callback.AllocEntry, old(State()), NO_FCB, i).0
    {
      hide State, EntAt, Slot, Valid, Allocation.SetAloc;
      ghost var v := State();
      ghost var m := EntAt(v.dirbuf, i % 4).dskmap;
      var entry := EntByte(i % 4, 0);
      if entry < 0x10 {
        Fields();
        hiwater := i;
        Globals();
        var j := 0;
        while j < p.Slots()
          invariant j <= p.Slots() && State() == v.(hiwater := i, alv := UseSlots(p, v.alv, m, j))
        {
          var b := DirBlk(i % 4, j);
          SetAloc(b);
          j := j + 1;
        }
      }
    }

    /** `extsize` (fileio.c:660-667) of a directory entry. */
    method DirExtSize(k: nat) returns (n: nat)
      requires Valid() && k < 4
      ensures n == ExtSize(EntAt(State().dirbuf, k))
    {
      hide State, EntAt, Valid;
      var extent: int := EntByte(k, EXTENT);
      var s2: int := EntByte(k, S2);
      n := (extent % 32) * 128 + (s2 % 64) * 4096;
    }

    /** `pack_ranrec` (fileio.c:677-682). */
    method Pack(fcb: array<byte>, n: nat)
      requires Valid() && Fcb36(fcb)
      modifies fcb
      ensures FcbOf(fcb[..]) == PackRan(old(FcbOf(fcb[..])), n) && State() == old(State())
    {
      hide FcbOf, State, Fits, Valid;
      Put(fcb, RAN0, (n / 0x1_0000) % 0x100);
      Put(fcb, RAN0 + 1, (n / 0x100) % 0x100);
      Put(fcb, RAN0 + 2, n % 0x100);
      Unmoved();
    }

    /** `fsize` (fileio.c:709-728). */
    method Fsize(fcb: array<byte>, i: nat) returns (hit: bool)
      requires Valid() && Fcb36(fcb) && i <= p.drm
      modifies fcb
      ensures (State(), FcbOf(fcb[..]), hit) == Invoke(p, Callback.FileSize, old(State()), old(FcbOf(fcb[..])), i)
    {
      hide FcbOf, State, EntAt, Matches, Valid, PackRan, ExtSize;
      hit := Match(fcb, i % 4, false);
      if hit {
        var rc := EntByte(i % 4, RC);
        var size := DirExtSize(i % 4);
        Pack(fcb, rc + size);
      }
    }

    /** `trunc_free_past` (fileio.c:781-818). */
    method FreePast(k: nat, base: nat, nrecs: nat)
      requires Valid() && k < 4
      modifies alv, dirbuf
      ensures var v := old(State());
        var e := EntAt(v.dirbuf, k);
        var r := Volume.FreePast(p, v.alv, e.dskmap, base, nrecs, p.Slots());
        State() == v.(alv := r.0, dirbuf := PutEnt(v.dirbuf, k, WithMap(e, r.1)))
    {
      hide *;
      ghost var v := State();
      ghost var e := EntAt(v.dirbuf, k);
      AlvFits();
      PutSame(v.dirbuf, k);
      SameMap(e);
      FreePastStarts(p, v.alv, e.dskmap, base, nrecs);
      var i := 0;
      while i < p.Slots()
        invariant i <= p.Slots()
        invariant var r := Volume.FreePast(p, v.alv, e.dskmap, base, nrecs, i);
          State() == v.(alv := r.0, dirbuf := PutEnt(v.dirbuf, k, WithMap(e, r.1)))
      {
        ghost var r := Volume.FreePast(p, v.alv, e.dskmap, base, nrecs, i);
        FreePastStep(p, v.alv, e.dskmap, base, nrecs, i);
        if SlotStart(p, base, i) >= nrecs {
          FreeSlot(k, i, v, WithMap(e, r.1));
          WithMapTwice(e, r.1, DiskMap.SetSlot(p, r.1, i, 0));
        }
        i := i + 1;
      }
    }

    lemma AlvFits()
      requires Valid()
      ensures p.WellFormed() && p.bsh <= 7 && |State().alv| == Allocation.VectorBits(p)
    {
    }

    /** Release the block in slot `i` and clear the slot (fileio.c:802-815). */
    method FreeSlot(k: nat, i: nat, ghost v: Vol, ghost e: Ent)
      requires Valid() && k < 4 && i < p.Slots() && |State().alv| == |v.alv|
      requires State() == v.(alv := State().alv, dirbuf := PutEnt(v.dirbuf, k, e))
      modifies alv, dirbuf
      ensures State() == v.(alv := Allocation.ClrAloc(p, old(State()).alv, Slot(p, e.dskmap, i)),
        dirbuf := PutEnt(v.dirbuf, k, WithMap(e, DiskMap.SetSlot(p, e.dskmap, i, 0))))
    {
      hide State, EntAt, PutEnt, Slot, Valid, WithMap, DiskMap.SetSlot;
      PutGet(v.dirbuf, k, e, k);
      PutTwice(v.dirbuf, k, e, WithMap(e, DiskMap.SetSlot(p, e.dskmap, i, 0)));
      var blk := DirBlk(k, i);
      if blk != 0 { ClrAloc(blk); }
      DirStoreBlk(k, i, 0);
    }

    /** `trunc_group_base` (fileio.c:821-830). */
    method GroupBase(k: nat) returns (n: nat)
      requires Valid() && k < 4
      ensures n == TruncBase(p, EntAt(State().dirbuf, k))
    {
      hide State, EntAt, Valid;
      var extent: int := EntByte(k, EXTENT);
      var s2: int := EntByte(k, S2);
      n := (s2 % 64) * 4096 + ExtBase(extent % 32, p.Extents()) * 128;
    }

    /** `trunc_group_end` (fileio.c:833-837). */
    method GroupEnd(k: nat) returns (n: nat)
      requires Valid() && k < 4
      ensures var e := EntAt(State().dirbuf, k); n == ExtSize(e) + e.rc
    {
      hide State, EntAt, Valid, ExtSize;
      n := DirExtSize(k);
      var rc := EntByte(k, RC);
      n := n + rc;
    }

    /** The partial cut of `truncate_one` (fileio.c:875-897). */
    method CutEntry(i: nat, nrecs: nat)
      requires Valid() && i <= p.drm && 0 < nrecs
      modifies this, disk, csv, dirbuf, alv
      ensures var v := old(State());
        var e := EntAt(v.dirbuf, i % 4);
        var r := Volume.FreePast(p, v.alv, e.dskmap, TruncBase(p, e), nrecs, p.Slots());
        State() == Volume.DirWr(p, PutDir(v.(alv := r.0), i, TruncatedEntry(e, r.1, nrecs)), i / 4).(truncCode := i % 4)
    {
      var k := i % 4;
      ghost var v := State();
      ghost var e := EntAt(v.dirbuf, k);
      hide State, EntAt, PutEnt, Valid, Volume.FreePast, TruncBase;
      var base := GroupBase(k);
      ghost var r := Volume.FreePast(p, v.alv, e.dskmap, base, nrecs, p.Slots());
      FreePast(k, base, nrecs);
      StampEntry(k, nrecs, v.(alv := r.0), WithMap(e, r.1));
      hide TruncatedEntry;
      assert TruncatedEntry(WithMap(e, r.1), r.1, nrecs) == TruncatedEntry(e, r.1, nrecs) by { Restamp(e, r.1, nrecs); }
      DirWr(i / 4);
      label Code:
      truncCode := k;
      Globals@Code();
    }

    /** Size fields of a truncated entry (fileio.c:885-892). */
    method StampEntry(k: nat, nrecs: nat, ghost v: Vol, ghost e: Ent)
      requires Valid() && k < 4 && 0 < nrecs && State() == v.(dirbuf := PutEnt(v.dirbuf, k, e))
      modifies dirbuf
      ensures State() == v.(dirbuf := PutEnt(v.dirbuf, k, TruncatedEntry(e, e.dskmap, nrecs)))
    {
      hide State, EntAt, PutEnt, Valid;
      Restore(v.dirbuf, k, e, S2, 0);
      var last := nrecs - 1;
      var s2 := EntByte(k, S2);
      ghost var c := e;
      StoreEntByte(k, S2, s2 - s2 % 64 + (last / 4096) % 64, v, c);
      c := WithByte(c, S2, s2 - s2 % 64 + (last / 4096) % 64);
      StoreEntByte(k, EXTENT, (last / 128) % 32, v, c);
      c := WithByte(c, EXTENT, (last / 128) % 32);
      StoreEntByte(k, RC, last % 128 + 1, v, c);
      c := WithByte(c, RC, last % 128 + 1);
      StoreEntByte(k, S1, 0, v, c);
    }

    /** The erasing branch of `truncate_one` (fileio.c:864-873). */
    method EraseEntry(i: nat)
      requires Valid() && i <= p.drm
      modifies disk, csv, dirbuf, alv
      ensures State() == EraseAt(p, old(State()), i)
    {
      hide State, EntAt, PutEnt, Valid, FreeSlots;
      ghost var v := State();
      FreeAll(i % 4);
      PutEntByte(i % 4, 0, FREE);
      DirWr(i / 4);
    }

    /** `truncate_one` (fileio.c:839-900). */
    method TruncateOne(fcb: array<byte>, i: nat, nrecs: nat)
      requires Valid() && Fcb36(fcb) && i <= p.drm
      modifies this, disk, csv, dirbuf, alv
      ensures State() == TruncateAt(p, old(State()), FcbOf(fcb[..]), i, nrecs)
    {
      hide FcbOf, State, EntAt, PutEnt, Matches, Valid, FreeSlots, Volume.FreePast, TruncBase, ExtSize,
        TruncatedEntry, EraseAt, Volume.DirWr;
      ghost var v := State();
      ghost var e := EntAt(v.dirbuf, i % 4);
      var entry := EntByte(i % 4, 0);
      if entry >= 0x10 { return; }
      var m := Match(fcb, i % 4, false);
      if !m { return; }
      Fields();
      truncFound := true;
      Globals();
      var gbase := GroupBase(i % 4);
      var gend := GroupEnd(i % 4);
      if gbase >= nrecs {
        EraseEntry(i);
      } else if gend > nrecs {
        CutEntry(i, nrecs);
      }
    }

    // ------------------------------------------------------------ dirscan and login

    /** The FCB behind a pointer that is NULL while a drive is logged in. */
    ghost function FcbAt(fcb: array?<byte>): FcbValue
      requires fcb != null ==> fcb.Length == FCB_BYTES
      reads fcb
    {
      if fcb == null then NO_FCB else FcbOf(fcb[..])
    }

    /** The call through `funcp`. */
    method Call(cb: Callback, fcb: array?<byte>, i: nat) returns (hit: bool)
      requires Valid() && i <= p.drm && (fcb == null <==> cb.AllocEntry?) && (fcb != null ==> Fcb36(fcb))
      modifies this, disk, csv, dirbuf, alv, fcb
      ensures (State(), FcbAt(fcb), hit) == Invoke(p, cb, old(State()), old(FcbAt(fcb)), i)
    {
      hide FcbOf, State, Valid, Invoke;
      match cb
      case OpenFile => hit := OpenFile(fcb, i);
      case CloseFile => hit := Close(fcb, i);
      case CreateFile => hit := Create(fcb, i);
      case DeleteFile => hit := Delete(fcb, i);
      case AllocEntry => Alloc(i); hit := false; NothingFound(p, old(State()), i);
      case FileSize => hit := Fsize(fcb, i);
      case TruncateOne(nrecs) => TruncateOne(fcb, i, nrecs); hit := false; KeepsScanning(p, old(State()),
        FcbOf(fcb[..]), i, nrecs);
    }

    /** Clear the vector; block 0 cannot be cleared (fileio.c:143-145). */
    method ClearVector()
      requires Valid()
      modifies alv
      ensures var v := old(State());
        && |State().alv| == |v.alv| && State() == v.(alv := State().alv)
        && forall b: nat :: b < |v.alv| ==> State().alv[b] == if 0 < b <= p.dsm then false else v.alv[b]
    {
      hide State, Dpb.WellFormed, Fits;
      ghost var v := State();
      var i: nat := p.dsm + 1;
      while i != 0
        invariant i <= p.dsm + 1 && |State().alv| == |v.alv| && State() == v.(alv := State().alv)
        invariant forall b: nat :: b < |v.alv| ==>
          State().alv[b] == if i <= b <= p.dsm && b != 0 then false else v.alv[b]
      {
        i := i - 1;
        ClrAloc(i);
      }
    }

    /** Blocks of the directory, rounded up (fileio.c:147-150). */
    method DirBlockCount() returns (i: nat)
      requires Valid()
      ensures i == p.DirBlocks() <= p.dsm + 1 && 1 <= i
    {
      RoundUp(p.drm + 1, 4 * p.BlockRecs());
      DirectoryFits(p);
      i := (p.drm + 1) / (4 * p.BlockRecs());
      if (p.drm + 1) % (4 * p.BlockRecs()) != 0 { i := i + 1; }
    }

    /** The vector with only the directory marked (fileio.c:143-152). */
    method ResetVector()
      requires Valid()
      modifies alv
      ensures State() == old(State()).(alv := FreshVector(p, old(State()).alv))
    {
      hide State, Dpb.WellFormed, Fits, Dpb.DirBlocks;
      ghost var v := State();
      ClearVector();
      ghost var u := State();
      var i := DirBlockCount();
      while i != 0
        invariant i <= p.DirBlocks() && |State().alv| == |v.alv| && State() == v.(alv := State().alv)
        invariant forall b: nat :: b < |v.alv| ==> State().alv[b] == if i <= b < p.DirBlocks() then true else u.alv[b]
      {
        i := i - 1;
        SetAloc(i);
      }
      assert State().alv == FreshVector(p, v.alv);
    }

    /** `seldsk` (fileio.c:106-157) on the drive already selected. */
    method Seldsk()
      requires Valid()
      modifies this, disk, csv, dirbuf, alv
      ensures State() == if old(logged) then old(State()) else Login(p, old(State()))
      decreases 2, 0
    {
      hide FreshVector, ScanAlloc, BitsOf, Dpb.WellFormed, Fits;
      ghost var v := State();
      if !logged {
        ResetVector();
        assert State() == v.(alv := FreshVector(p, v.alv));
        var rtn := Dirscan(Callback.AllocEntry, null, false, true, true, true);
        assert State() == ScanAlloc(p, v.(alv := FreshVector(p, v.alv)), 0);
        label Done:
        logged := true;
        Globals@Done();
      }
    }

    /** Loading directory sector `dirsec` in `dirscan` (dskutil.c:212-234); the call of itself is the
        jump to `retry`. */
    method LoadDir(dirsec: nat, initckv: bool)
      requires Valid() && dirsec < p.DirSectors()
      modifies this, disk, csv, dirbuf, alv
      ensures State() == if initckv then LoadInit(p, old(State()), dirsec) else LoadChecked(p, old(State()), dirsec)
      decreases if initckv then 0 else 3,
        if !initckv && dirsec < p.cks && csv[dirsec] != Checksum(disk[dirsec]) then 2 else 0
    {
      hide Checksum, Login, State, Dpb.WellFormed, Fits, Dpb.DirSectors;
      ghost var v := State();
      Fields();
      DirRd(dirsec);
      if dirsec < p.cks {
        var c := Dchksum();
        Fields();
        if initckv {
          StoreChecksum(dirsec, c);
        } else if csv[dirsec] != c {
          DiskChanged(dirsec);
        }
      }
    }

    /** What `dirscan` does about a checksum that disagrees. */
    method DiskChanged(dirsec: nat)
      requires Valid() && dirsec < p.DirSectors() && dirsec < p.cks && csv[dirsec] != Checksum(disk[dirsec])
      modifies this, disk, csv, dirbuf, alv
      ensures var v2 := old(State()).(hiwater := p.drm);
        State() == if v2.crit then v2.(ro := true)
          else
            var v3 := Login(p, v2.(logged := false));
            v3.(dirbuf := v3.disk[dirsec])
      decreases 3, 1
    {
      hide Checksum, Login, State, Dpb.WellFormed, Fits, Dpb.DirSectors, LoadChecked;
      ghost var v := State();
      Fields();
      label Mark:
      hiwater := p.drm;
      if crit {
        ro := true;
        Globals@Mark();
      } else {
        logged := false;
        Globals@Mark();
        Relogged(p, State(), dirsec);
        Fields();
        Seldsk();
        Fields();
        LoadDir(dirsec, false);
      }
    }

    lemma FcbLength(fcb: array<byte>)
      requires Fcb36(fcb)
      ensures fcb.Length == FCB_BYTES
    {
    }

    lemma NoFcb(fcb: array?<byte>)
      requires fcb != null ==> fcb.Length == FCB_BYTES
      ensures fcb == null ==> FcbAt(fcb) == NO_FCB
    {
    }

    /** The state in terms of the fields. */
    lemma Fields()
      requires Valid()
      ensures var v := State();
        && v.hiwater == hiwater && v.srchpos == srchpos && v.ro == ro && v.crit == crit && v.logged == logged
        && v.truncFound == truncFound && v.truncCode == truncCode
        && v.csv == csv[..] && v.disk == disk[..] && v.dirbuf == dirbuf[..] && v.dma == dma[..]
    {
    }

    method StoreChecksum(s: nat, c: byte)
      requires Valid() && s < p.cks
      modifies csv
      ensures State() == old(State()).(csv := old(State()).csv[s := c])
    {
      hide Dpb.WellFormed, Fits, BitsOf;
      csv[s] := c;
      assert csv[..] == old(csv[..])[s := c];
      assert disk[..] == old(disk[..]) && alv[..] == old(alv[..]) && dirbuf[..] == old(dirbuf[..])
        && dma[..] == old(dma[..]);
    }

    /** `dirscan` (dskutil.c:187-254). The flags are the bits of its parameter. */
    method Dirscan(cb: Callback, fcb: array?<byte>, cont: bool, full: bool, initckv: bool, pasthw: bool)
      returns (rtn: nat)
      requires Valid() && (fcb == null <==> cb.AllocEntry?) && (fcb != null ==> Fcb36(fcb))
      requires if initckv then cb.AllocEntry? && full && pasthw && !cont else !cb.AllocEntry?
      modifies this, disk, csv, dirbuf, alv, fcb
      ensures (State(), FcbAt(fcb), rtn)
        == ScanFrom(p, cb, old(State()), old(FcbAt(fcb)), if cont then old(srchpos) + 1
          else 0, full, initckv, pasthw, 255)
      decreases if initckv then 1 else 4, 0
    {
      hide *;
      if fcb != null { FcbLength(fcb); }
      NoFcb(fcb);
      Fields();
      ghost var whole := ScanFrom(p, cb, State(), FcbAt(fcb), if cont then srchpos + 1
        else 0, full, initckv, pasthw, 255);
      rtn := 255;
      var i: nat := if cont then srchpos + 1 else 0;
      while pasthw || i <= hiwater + 1
        invariant initckv ==> FcbAt(fcb) == NO_FCB && rtn == 255
        invariant ScanFrom(p, cb, State(), FcbAt(fcb), i, full, initckv, pasthw, rtn) == whole
        decreases p.drm + 1 - i
      {
        Fields();
        ScanSteps(p, cb, State(), FcbAt(fcb), i, full, initckv, pasthw, rtn);
        if i > p.drm { return; }
        var hit := Round(cb, fcb, i, initckv);
        if hit {
          if full { rtn := 0; } else { return i % 4; }
        }
        i := i + 1;
      }
      Fields();
      ScanSteps(p, cb, State(), FcbAt(fcb), i, full, initckv, pasthw, rtn);
    }

    /** One iteration of the loop of `dirscan`. */
    method Round(cb: Callback, fcb: array?<byte>, i: nat, initckv: bool) returns (hit: bool)
      requires Valid() && i <= p.drm && (fcb == null <==> cb.AllocEntry?) && (fcb != null ==> Fcb36(fcb))
      modifies this, disk, csv, dirbuf, alv, fcb
      ensures (State(), FcbAt(fcb), hit) == Visit(p, cb, old(State()), old(FcbAt(fcb)), i, initckv)
      decreases if initckv then 0 else 3, 3
    {
      assert i / 4 < p.DirSectors();
      hide State, FcbOf, Invoke, LoadChecked, LoadInit, Dpb.WellFormed, Fits, Dpb.DirSectors;
      if i % 4 == 0 { LoadDir(i / 4, initckv); }
      label Pos:
      Fields();
      srchpos := i;
      Globals@Pos();
      Fields();
      hit := Call(cb, fcb, i);
    }

    // ------------------------------------------------------------ record I/O

    /** `close_fi` (fileio.c:440-450). */
    method CloseFi(fcb: array<byte>) returns (rtn: nat)
      requires Valid() && Fcb36(fcb)
      modifies this, disk, csv, dirbuf, alv, fcb
      ensures (State(), FcbOf(fcb[..]), rtn) == RecordIo.CloseFi(p, old(State()), old(FcbOf(fcb[..])))
    {
      FcbFields(fcb[..]);
      hide State, FcbOf, Scan;
      if fcb[S2] >= 0x80 { return 0; }
      rtn := Dirscan(Callback.CloseFile, fcb, false, false, false, false);
    }

    /** `blkindx` (bdosrw.c:68-83). */
    method BlkIndx(fcb: array<byte>) returns (i: nat)
      requires Valid() && Fcb36(fcb)
      ensures var f := FcbOf(fcb[..]); i == DiskMap.BlkIndx(p, f.ent.extent, f.cur)
    {
      FcbFields(fcb[..]);
      hide FcbOf, Exp2;
      i := (fcb[EXTENT] % (p.exm + 1)) * Exp2(7 - p.bsh) + fcb[CUR] / Exp2(p.bsh);
    }

    /** Module and extent asked of `new_ext` (bdosrw.c:160-183). */
    method TargetOf(fcb: array<byte>, ran: bool) returns (mod: byte, ext: byte)
      requires Fcb36(fcb)
      ensures (mod, ext) == Target(FcbOf(fcb[..]), ran)
    {
      FcbFields(fcb[..]);
      hide FcbOf;
      var ran0: int, ran1: int := fcb[RAN0], fcb[RAN0 + 1];
      if ran {
        mod := if ran1 < 0x80 then (ran0 % 16) * 16 + ran1 / 16 else 0xF0 + ran1 / 16;
        ext := 2 * (ran1 % 16);
        if fcb[RAN0 + 2] >= 0x80 { ext := ext + 1; }
      } else {
        var next: int := fcb[EXTENT];
        mod := fcb[S2] % 64;
        ext := (next + 1) % 256;
        if 32 <= ext < 128 {
          ext := 0;
          mod := mod + 1;
        }
      }
    }

    /** `new_ext` (bdosrw.c:145-218). */
    method NewExt(fcb: array<byte>, reading: bool, ran: bool) returns (rtn: nat)
      requires Valid() && Fcb36(fcb)
      modifies this, disk, csv, dirbuf, alv, fcb
      ensures (State(), FcbOf(fcb[..]), rtn) == RecordIo.NewExt(p, old(State()), old(FcbOf(fcb[..])), reading, ran)
    {
      hide State, FcbOf, Target, RecordIo.CloseFi, RecordIo.ChangeExt, Dpb.WellFormed, Fits;
      FcbFields(fcb[..]);
      ghost var f := FcbOf(fcb[..]);
      var mod, ext := TargetOf(fcb, ran);
      if 64 <= mod < 128 { return 6; }
      if mod == fcb[S2] % 64 && (ext % 32) / p.Extents() == (fcb[EXTENT] % 32) / p.Extents() {
        Put(fcb, EXTENT, ext);
        Unmoved();
        return 0;
      }
      var closed := CloseFi(fcb);
      if closed >= 255 { return 3; }
      rtn := ChangeExt(fcb, mod, ext, reading);
    }

    /** The part of `new_ext` that opens or creates the extent (bdosrw.c:193-217). */
    method ChangeExt(fcb: array<byte>, mod: byte, ext: byte, reading: bool) returns (rtn: nat)
      requires Valid() && Fcb36(fcb)
      modifies this, disk, csv, dirbuf, alv, fcb
      ensures (State(), FcbOf(fcb[..]), rtn)
        == RecordIo.ChangeExt(p, old(State()), old(FcbOf(fcb[..])), (mod, ext), reading)
    {
      hide State, FcbOf, Scan;
      FcbFields(fcb[..]);
      ghost var v, f := State(), FcbOf(fcb[..]);
      var tMod, tExt := fcb[S2], fcb[EXTENT];
      Put(fcb, S2, mod);
      Put(fcb, EXTENT, ext);
      Unmoved();
      var found := Dirscan(Callback.OpenFile, fcb, false, false, false, false);
      if found >= 255 {
        if reading {
          label Restore:
          Put(fcb, S2, tMod);
          Put(fcb, EXTENT, tExt);
          Unmoved@Restore();
          return 4;
        }
        var created := Dirscan(Callback.CreateFile, fcb, false, false, false, true);
        if created >= 255 { return 5; }
      }
      return 0;
    }

    /** Positioning half of `bdosrw` (bdosrw.c:311-326). */
    method Position(fcb: array<byte>, reading: bool, mode: Mode) returns (rtn: nat)
      requires Valid() && Fcb36(fcb) && (mode == Sequential ==> FcbOf(fcb[..]).cur <= 128)
      modifies this, disk, csv, dirbuf, alv, fcb
      ensures (State(), FcbOf(fcb[..]), rtn) == RecordIo.Position(p, old(State()), old(FcbOf(fcb[..])), reading, mode)
    {
      hide State, FcbOf, RecordIo.NewExt;
      FcbFields(fcb[..]);
      rtn := 0;
      if mode != Sequential {
        rtn := NewExt(fcb, reading, true);
        if rtn != 0 { return; }
        FcbFields(fcb[..]);
        label Cur:
        Put(fcb, CUR, fcb[RAN0 + 2] % 128);
        Unmoved@Cur();
      } else if fcb[CUR] == 128 {
        rtn := NewExt(fcb, reading, false);
        if rtn != 0 { return 1; }
        label Zero:
        Put(fcb, CUR, 0);
        Unmoved@Zero();
      }
    }

    /** Linear sector of a record, as `do_io` computes it (bdosrw.c:123-137). */
    method Lsec(block: nat, rcrd: nat) returns (lsec: nat)
      ensures lsec == SectorOf(p, block, rcrd)
    {
      lsec := block * p.BlockRecs() + rcrd % p.BlockRecs();
    }

    method LoadDma(lsec: nat)
      requires Valid() && lsec < disk.Length
      modifies dma
      ensures State() == old(State()).(dma := old(State()).disk[lsec])
    {
      hide Dpb.WellFormed, Fits, BitsOf;
      ReadSector(lsec, dma);
      assert disk[..] == old(disk[..]) && alv[..] == old(alv[..]) && csv[..] == old(csv[..])
        && dirbuf[..] == old(dirbuf[..]);
    }

    method StoreSector(lsec: nat, buf: array<byte>)
      requires Valid() && lsec < disk.Length && (buf == dma || buf == dirbuf)
      modifies disk
      ensures State() == old(State()).(disk := old(State()).disk[lsec := buf[..]])
    {
      hide Dpb.WellFormed, Fits, BitsOf;
      WriteSector(lsec, buf);
      assert dma[..] == old(dma[..]) && alv[..] == old(alv[..]) && csv[..] == old(csv[..])
        && dirbuf[..] == old(dirbuf[..]);
    }

    /** What `bdosrw` finds at its position: is the record past the end, which slot, which block
        (bdosrw.c:330-347). */
    method LookUp(fcb: array<byte>) returns (past: bool, index: nat, block: nat)
      requires Valid() && Fcb36(fcb) && FcbOf(fcb[..]).cur < 128
      ensures var f := FcbOf(fcb[..]);
        && past == (f.cur >= DiskMap.GetRc(p, f.ent.extent, f.ent.dskmap, f.ent.rc))
        && index == DiskMap.BlkIndx(p, f.ent.extent, f.cur) < p.Slots() && block == Slot(p, f.ent.dskmap, index)
    {
      FcbFields(fcb[..]);
      BlkIndxIsDivision(p, FcbOf(fcb[..]).ent.extent, FcbOf(fcb[..]).cur);
      hide FcbOf, DiskMap.GetRc, DiskMap.BlkIndx, Slot, Dpb.WellFormed, Fits;
      var rc := GetRc(fcb);
      past := fcb[CUR] >= rc;
      index := BlkIndx(fcb);
      block := BlkNum(fcb, index);
    }

    /** `if (!random) fcbp->cur_rec += 1`. */
    method StepRecord(fcb: array<byte>, mode: Mode)
      requires Valid() && Fcb36(fcb) && FcbOf(fcb[..]).cur < 128
      modifies fcb
      ensures var f := old(FcbOf(fcb[..]));
        && FcbOf(fcb[..]) == (if mode == Sequential then f.(cur := f.cur + 1) else f) && State() == old(State())
    {
      FcbFields(fcb[..]);
      hide FcbOf, State, Dpb.WellFormed, Fits;
      if mode == Sequential {
        var next: int := fcb[CUR];
        Put(fcb, CUR, next + 1);
        Unmoved();
      }
    }

    /** Transfer half of `bdosrw`, reading (bdosrw.c:328-392). */
    method ReadRecord(fcb: array<byte>, mode: Mode) returns (rtn: nat)
      requires Valid() && Fcb36(fcb) && FcbOf(fcb[..]).cur < 128
      modifies dma, fcb
      ensures (State(), FcbOf(fcb[..]), rtn) == RecordIo.ReadRecord(p, old(State()), old(FcbOf(fcb[..])), mode)
    {
      hide State, DiskMap.GetRc, DiskMap.BlkIndx, Slot, SectorOf, Dpb.WellFormed, Fits, Valid;
      FcbFields(fcb[..]);
      hide FcbOf;
      Fields();
      var past, index, block := LookUp(fcb);
      if past || block == 0 { return 1; }
      var lsec := Lsec(block, fcb[CUR]);
      if disk.Length <= lsec { return 1; }
      LoadDma(lsec);
      StepRecord(fcb, mode);
      return 0;
    }

    /** Zero records over the whole of block `b`, written from the directory buffer (bdosrw.c:361-379). */
    method ZeroBlock(b: nat)
      requires Valid() && b <= p.dsm
      modifies disk, dirbuf
      ensures State() == Zeroed(p, old(State()), b, p.BlockRecs())
    {
      hide State, Dpb.WellFormed, Fits, ZeroFill;
      ghost var v := State();
      BlockFits(p, b, 0);
      ClearDirbuf();
      Fields();
      ZeroedStart(p, v, b);
      var index := 0;
      while index < p.BlockRecs()
        invariant index <= p.BlockRecs()
        invariant State() == Zeroed(p, v, b, index) && dirbuf[..] == ZeroSector()
      {
        ZeroedStep(p, v, b, index);
        StoreSector(b * p.BlockRecs() + index, dirbuf);
        index := index + 1;
      }
    }

    method ClearDirbuf()
      requires Valid()
      modifies dirbuf
      ensures State() == old(State()).(dirbuf := ZeroSector())
    {
      hide Dpb.WellFormed, Fits, BitsOf;
      var index := 128;
      while index != 0
        invariant 0 <= index <= 128 && forall j :: index <= j < 128 ==> dirbuf[j] == 0
      {
        index := index - 1;
        dirbuf[index] := 0;
      }
      assert dirbuf[..] == ZeroSector();
      assert disk[..] == old(disk[..]) && alv[..] == old(alv[..]) && csv[..] == old(csv[..]) && dma[..] == old(dma[..]);
    }

    /** The block for an unallocated slot (bdosrw.c:346-380): none free, or stored in the FCB, and
        zeroed for a zero-fill write. */
    method AllocateBlock(fcb: array<byte>, index: nat, mode: Mode) returns (blk: nat)
      requires Valid() && Fcb36(fcb) && index < p.Slots()
      modifies alv, disk, dirbuf, fcb
      ensures var v, f := old(State()), old(FcbOf(fcb[..]));
        var left := Slot(p, f.ent.dskmap, if index != 0 then index - 1 else 0);
        match if left <= p.dsm then Allocation.Outward(p, v.alv, left, left) else None
        case None => blk == NO_BLOCK && State() == v && FcbOf(fcb[..]) == f
        case Some(b) =>
          blk == b && State() == NewBlock(p, v, b, mode)
            && FcbOf(fcb[..]) == f.(ent := RecordIo.SetBlk(p, f.ent, index, b))
    {
      hide State, FcbOf, Slot, Dpb.WellFormed, Fits, RecordIo.SetBlk, Allocation.Outward, NewBlock,
        Allocation.SetAloc;
      ghost var v := State();
      blk := TakeBlock(fcb, index);
      if blk == NO_BLOCK { return; }
      NewBlockIs(p, v, blk, mode);
      SetBlk(fcb, index, blk);
      if mode == ZeroFilling { ZeroBlock(blk); }
    }

    /** `getaloc` from the block in the slot before. */
    method TakeBlock(fcb: array<byte>, index: nat) returns (blk: nat)
      requires Valid() && Fcb36(fcb) && index < p.Slots()
      modifies alv
      ensures var v, f := old(State()), FcbOf(fcb[..]);
        var left := Slot(p, f.ent.dskmap, if index != 0 then index - 1 else 0);
        match if left <= p.dsm then Allocation.Outward(p, v.alv, left, left) else None
        case None => blk == NO_BLOCK && State() == v
        case Some(b) => blk == b < NO_BLOCK && State() == v.(alv := Allocation.SetAloc(p, v.alv, b))
    {
      assert p.dsm < 0x8000;
      hide State, FcbOf, Slot, Dpb.WellFormed, Fits, Allocation.Outward, Allocation.SetAloc;
      var left := BlkNum(fcb, if index != 0 then index - 1 else 0);
      if left > p.dsm { return NO_BLOCK; }
      blk := GetAloc(left);
    }

    /** `setblk` (bdosrw.c:102-115). */
    method SetBlk(fcb: array<byte>, index: nat, block: nat)
      requires Valid() && Fcb36(fcb) && index < p.Slots() && block < 65536
      modifies fcb
      ensures var f := old(FcbOf(fcb[..]));
        FcbOf(fcb[..]) == f.(ent := RecordIo.SetBlk(p, f.ent, index, block)) && State() == old(State())
    {
      FcbFields(fcb[..]);
      hide FcbOf, State, DiskMap.SetSlot, Dpb.WellFormed, Fits;
      Put(fcb, S2, fcb[S2] % 128);
      StoreBlk(fcb, index, block);
      Unmoved();
    }

    /** The write itself and the bookkeeping after it (bdosrw.c:382-392). */
    method StoreRecord(fcb: array<byte>, rc: byte, block: nat, mode: Mode, ghost f: FcbValue) returns (rtn: nat)
      requires Valid() && Fcb36(fcb) && f.cur < 128 && FcbOf(fcb[..]) == f.(ent := FcbOf(fcb[..]).ent)
      modifies disk, fcb
      ensures (State(), FcbOf(fcb[..]), rtn)
        == RecordIo.StoreRecord(p, old(State()), f, old(FcbOf(fcb[..])).ent, rc, block, mode)
    {
      hide State, FcbOf, SectorOf, Dpb.WellFormed, Fits;
      FcbFields(fcb[..]);
      Fields();
      var lsec := Lsec(block, fcb[CUR]);
      if disk.Length <= lsec { return 1; }
      StoreSector(lsec, dma);
      label Rc:
      Put(fcb, RC, rc);
      Unmoved@Rc();
      StepRecord(fcb, mode);
      return 0;
    }

    /** Record count to store after a write; a write past the end clears the write flag (bdosrw.c:329-337). */
    method NewCount(fcb: array<byte>, past: bool) returns (rc: byte)
      requires Valid() && Fcb36(fcb) && FcbOf(fcb[..]).cur < 128
      modifies fcb
      ensures var f := old(FcbOf(fcb[..]));
        && FcbOf(fcb[..]) == f.(ent := Flagged(f.ent, past)) && State() == old(State())
        && rc == if past then f.cur + 1 else f.ent.rc
    {
      FcbFields(fcb[..]);
      hide State, FcbOf, Dpb.WellFormed, Fits;
      rc := fcb[RC];
      if past {
        var cur: int := fcb[CUR];
        rc := cur + 1;
        Put(fcb, S2, fcb[S2] % 128);
        Unmoved();
      }
    }

    /** Transfer half of `bdosrw`, writing. */
    method WriteRecord(fcb: array<byte>, mode: Mode) returns (rtn: nat)
      requires Valid() && Fcb36(fcb) && FcbOf(fcb[..]).cur < 128
      modifies alv, disk, dirbuf, fcb
      ensures (State(), FcbOf(fcb[..]), rtn) == RecordIo.WriteRecord(p, old(State()), old(FcbOf(fcb[..])), mode)
    {
      hide State, FcbOf, DiskMap.GetRc, DiskMap.BlkIndx, Slot, SectorOf, Dpb.WellFormed, Fits, RecordIo.StoreRecord,
        NewBlock, RecordIo.SetBlk, Allocation.Outward;
      FcbFields(fcb[..]);
      SmallDrive();
      ghost var f := FcbOf(fcb[..]);
      var past, index, block := LookUp(fcb);
      var rc := NewCount(fcb, past);
      if block == 0 {
        block := AllocateBlock(fcb, index, mode);
        if block == NO_BLOCK { return 2; }
      }
      rtn := StoreRecord(fcb, rc, block, mode, f);
    }

    /** `bdosrw` (bdosrw.c:291-393). */
    method Bdosrw(fcb: array<byte>, reading: bool, mode: Mode) returns (rtn: nat)
      requires Valid() && Fcb36(fcb) && (mode == Sequential ==> FcbOf(fcb[..]).cur <= 128)
      modifies this, disk, csv, dirbuf, alv, dma, fcb
      ensures (State(), FcbOf(fcb[..]), rtn) == BdosRw(p, old(State()), old(FcbOf(fcb[..])), reading, mode)
    {
      hide State, FcbOf, RecordIo.Position, RecordIo.ReadRecord, RecordIo.WriteRecord, Dpb.WellFormed, Fits;
      rtn := Position(fcb, reading, mode);
      if rtn != 0 { return; }
      if reading { rtn := ReadRecord(fcb, mode); } else { rtn := WriteRecord(fcb, mode); }
    }

    // ------------------------------------------------------------ sizes

    /** `unpack_ranrec` (fileio.c:684-689). */
    method Unpack(fcb: array<byte>) returns (n: nat)
      requires Fcb36(fcb)
      ensures n == UnpackRan(FcbOf(fcb[..]))
    {
      FcbFields(fcb[..]);
      var ran0: int, ran1: int := fcb[RAN0], fcb[RAN0 + 1];
      n := 0x1_0000 * ran0 + 0x100 * ran1 + fcb[RAN0 + 2];
    }

    /** `setran` (fileio.c:691-701). */
    method SetRan(fcb: array<byte>)
      requires Valid() && Fcb36(fcb)
      modifies fcb
      ensures FcbOf(fcb[..]) == Addressing.SetRan(old(FcbOf(fcb[..]))) && State() == old(State())
    {
      FcbFields(fcb[..]);
      hide State, FcbOf, PackRan, Dpb.WellFormed, Fits;
      var extent: int, s2: int := fcb[EXTENT], fcb[S2];
      Pack(fcb, fcb[CUR] + (extent % 32) * 128 + (s2 % 64) * 4096);
    }

    /** One scan of `getsize`: from the start or on from the entry found last. */
    method SizeScan(fcb: array<byte>, dsparm: bool, ghost max: nat) returns (rtn: nat)
      requires Valid() && Fcb36(fcb)
      modifies this, disk, csv, dirbuf, alv, fcb
      ensures var i: nat, f := if dsparm then old(srchpos) + 1 else 0, FcbOf(fcb[..]);
        && FileCalls.GetSize(p, old(State()), old(FcbOf(fcb[..])), i, max)
           == SizeAfter(p, State(), f, rtn < 255, if rtn < 255 then FileCalls.Larger(max, UnpackRan(f)) else max)
        && (rtn < 255 ==> i <= srchpos <= p.drm)
    {
      hide State, FcbOf, Scan, SizeAfter, FileCalls.GetSize, ScanFrom, Fits, Valid, UnpackRan;
      ghost var v, f, i: nat := State(), FcbOf(fcb[..]), if dsparm then srchpos + 1 else 0;
      ScanMeaning(p, Callback.FileSize, v, f, i);
      SizeStep(p, v, f, i, max);
      rtn := Dirscan(Callback.FileSize, fcb, dsparm, false, false, false);
      Fields();
    }

    /** One round of `getsize`: a scan and the new maximum. */
    method SizeRound(fcb: array<byte>, dsparm: bool, max: nat) returns (more: bool, max': nat)
      requires Valid() && Fcb36(fcb)
      modifies this, disk, csv, dirbuf, alv, fcb
      ensures var i: nat := if dsparm then old(srchpos) + 1 else 0;
        && FileCalls.GetSize(p, old(State()), old(FcbOf(fcb[..])), i, max)
           == SizeAfter(p, State(), FcbOf(fcb[..]), more, max')
        && (more ==> i <= srchpos <= p.drm)
    {
      hide State, FcbOf, SizeAfter, FileCalls.GetSize, Fits, Valid, UnpackRan;
      var rtn := SizeScan(fcb, dsparm, max);
      more, max' := rtn < 255, max;
      if more {
        var temp := Unpack(fcb);
        if temp > max' { max' := temp; }
      }
    }

    /** `getsize` (fileio.c:734-751). */
    method GetSize(fcb: array<byte>)
      requires Valid() && Fcb36(fcb)
      modifies this, disk, csv, dirbuf, alv, fcb
      ensures (State(), FcbOf(fcb[..])) == FileCalls.GetSize(p, old(State()), old(FcbOf(fcb[..])), 0, 0)
    {
      hide *;
      FcbLength(fcb);
      ghost var size := FileCalls.GetSize(p, State(), FcbOf(fcb[..]), 0, 0);
      var more, max := SizeRound(fcb, false, 0);
      while more
        invariant more ==> srchpos <= p.drm
        invariant SizeAfter(p, State(), FcbOf(fcb[..]), more, max) == size
        decreases if more then p.drm + 1 - srchpos else 0
      {
        NotDone(p, State(), FcbOf(fcb[..]), max);
        Fields();
        more, max := SizeRound(fcb, true, max);
      }
      Done(p, State(), FcbOf(fcb[..]), max);
      Pack(fcb, max);
    }

    /** `truncate_fi` (fileio.c:909-944). */
    method TruncateFi(fcb: array<byte>) returns (rtn: nat)
      requires Valid() && Fcb36(fcb)
      modifies this, disk, csv, dirbuf, alv, fcb
      ensures (State(), FcbOf(fcb[..]), rtn) == Truncation.TruncateFi(p, old(State()), old(FcbOf(fcb[..])))
    {
      hide FcbOf, State, Scan, UnpackRan, FileCalls.GetSize, Dpb.WellFormed, Fits, Valid, Truncated;
      TruncateShape(p, State(), FcbOf(fcb[..]));
      hide Truncation.TruncateFi;
      var want := Unpack(fcb);
      var cur := SizeOf(fcb);
      if want > cur { return 255; }
      if want == cur { return 0; }
      rtn := TruncateScan(fcb, want);
    }

    /** The scan of `truncate_fi` (fileio.c:934-943). */
    method TruncateScan(fcb: array<byte>, want: nat) returns (rtn: nat)
      requires Valid() && Fcb36(fcb)
      modifies this, disk, csv, dirbuf, alv, fcb
      ensures (State(), FcbOf(fcb[..]), rtn) == Truncated(p, old(State()), old(FcbOf(fcb[..])), want)
    {
      hide FcbOf, State, Scan, Dpb.WellFormed, Fits, Valid;
      label Clear:
      Fields();
      truncFound := false;
      truncCode := 0;
      Globals@Clear();
      rtn := Dirscan(Callback.TruncateOne(want), fcb, false, true, false, false);
      Fields();
      if !truncFound { return 255; }
      label Crit:
      crit := true;
      Globals@Crit();
      return truncCode;
    }

    /** The size, found through a copy of the FCB (fileio.c:921-926). */
    method SizeOf(fcb: array<byte>) returns (cur: nat)
      requires Valid() && Fcb36(fcb)
      modifies this, disk, csv, dirbuf, alv
      ensures var s := FileCalls.GetSize(p, old(State()), FcbOf(fcb[..]), 0, 0);
        State() == s.0 && cur == UnpackRan(s.1)
    {
      hide FcbOf, UnpackRan, FileCalls.GetSize, Dpb.WellFormed, Fits, BitsOf;
      var tmp := new byte[FCB_BYTES];
      var i := 0;
      while i < FCB_BYTES
        invariant i <= FCB_BYTES && tmp[..i] == fcb[..i]
        invariant fcb[..] == old(fcb[..]) && State() == old(State())
      {
        tmp[i] := fcb[i];
        i := i + 1;
      }
      assert tmp[..] == fcb[..];
      GetSize(tmp);
      cur := Unpack(tmp);
    }

    /** `free_sp` (fileio.c:951-980), in records. */
    method FreeSp() returns (records: nat)
      requires Valid() && alv.Length % 2 == 0
      ensures |State().alv| == FreeSpace.WordBits(p) && records == FreeSpace.FreeRecords(p, State().alv)
    {
      hide Dpb.WellFormed, Fits, FreeWord, TopBit, BitsOf, Allocation.SwappedBit, Allocation.SwappedFreeBelow, WordAt,
        RecordsBelow, FreeSpace.WordBits, FreeSpace.FreeRecords;
      WholeVector();
      ghost var a := State().alv;
      InWords(p.dsm, 0, alv.Length);
      RecordsStep(p, a, 0);
      var bitmask: bv16, alvword: bv16 := 0, 0;
      records := 0;
      var i := 0;
      while i <= p.dsm
        invariant i <= p.dsm + 1 && i <= 16 * (|a| / 16) && bitmask == TopBit(i % 16)
        invariant i % 16 != 0 ==> alvword == WordAt(alv[..], i / 16)
        invariant records == RecordsBelow(p, a, i)
      {
        InWords(p.dsm, i, alv.Length);
        RecordsStep(p, a, i);
        var free: bool;
        bitmask, alvword, free := TestBit(i, bitmask, alvword);
        if free { records := records + (p.blm + 1); }
        i := i + 1;
      }
      RecordsAll(p, a);
    }

    lemma SmallDrive()
      requires Valid()
      ensures p.dsm < NO_BLOCK
    {
    }

    /** The vector is whole words of bits. */
    lemma WholeVector()
      requires Valid() && alv.Length % 2 == 0
      ensures TopBit(0) == 0 && |State().alv| == 8 * alv.Length && alv.Length == p.dsm / 8 + 1
      ensures |State().alv| == FreeSpace.WordBits(p)
      ensures forall i: nat :: i <= p.dsm ==> Allocation.SwappedBit(i) < |State().alv|
    {
      hide BitsOf, Allocation.FreeBelow, Allocation.SwappedBit, Dpb.WellFormed;
      WholeWords(p.dsm);
      forall i: nat | i <= p.dsm ensures Allocation.SwappedBit(i) < |State().alv| {
        InWords(p.dsm, i, alv.Length);
        SwappedPlace(i);
      }
    }

    /** One round of the loop of `free_sp` (fileio.c:967-975). */
    method TestBit(i: nat, bitmask0: bv16, alvword0: bv16) returns (bitmask: bv16, alvword: bv16, free: bool)
      requires Valid() && i <= p.dsm && 2 * (i / 16) + 1 < alv.Length
      requires bitmask0 == TopBit(i % 16) && (i % 16 != 0 ==> alvword0 == WordAt(alv[..], i / 16))
      ensures bitmask == TopBit((i + 1) % 16) && ((i + 1) % 16 != 0 ==> alvword == WordAt(alv[..], (i + 1) / 16))
      ensures Allocation.SwappedBit(i) < |State().alv| && free == !State().alv[Allocation.SwappedBit(i)]
    {
      SwappedHere(alv[..], i);
      NextBit(i);
      SameWord(i);
      hide Dpb.WellFormed, Fits, FreeWord, TopBit, BitsOf, Allocation.SwappedBit, Shared, Half;
      bitmask, alvword := bitmask0, alvword0;
      if i % 16 == 0 {
        bitmask := 0x8000;
        alvword := FreeWord(alv[2 * (i / 16)], alv[2 * (i / 16) + 1]);
      }
      free := Shared(alvword, bitmask);
      bitmask := Half(bitmask);
    }

    // ------------------------------------------------------------ the calls

    /** `user` is `GBL.user`, put into the FCB's drive byte for the duration of a call. */
    const user: byte

    /** The switch of `_bdos` for the calls that work on a file (bdosmain.c:248-505). */
    method Dispatch(func: nat, fcb: array<byte>) returns (rtn: nat)
      requires Valid() && Fcb36(fcb) && func in FILE_CALLS && (func in {20, 21} ==> FcbOf(fcb[..]).cur <= 128)
      modifies this, disk, csv, dirbuf, alv, dma, fcb
      ensures (State(), FcbOf(fcb[..]), rtn) == Perform(p, old(State()), old(FcbOf(fcb[..])), func)
    {
      hide State, FcbOf, Fits, Scan, BdosRw, FileCalls.GetSize, Truncation.TruncateFi, RecordIo.CloseFi,
        Addressing.SetRan;
      rtn := 0;
      if func == 15 {
        Put(fcb, EXTENT, 0);
        Put(fcb, S2, 0);
        Unmoved();
        rtn := Dirscan(Callback.OpenFile, fcb, false, false, false, false);
      } else if func == 16 {
        rtn := CloseFi(fcb);
      } else if func == 19 {
        rtn := Dirscan(Callback.DeleteFile, fcb, false, true, false, false);
      } else if func == 20 {
        rtn := Bdosrw(fcb, true, Sequential);
      } else if func == 21 {
        rtn := Bdosrw(fcb, false, Sequential);
      } else if func == 22 {
        Put(fcb, EXTENT, 0);
        Put(fcb, S1, 0);
        Put(fcb, S2, 0);
        Put(fcb, RC, 0);
        Unmoved();
        rtn := Dirscan(Callback.CreateFile, fcb, false, false, false, true);
      } else if func == 33 {
        rtn := Bdosrw(fcb, true, Random);
      } else if func == 34 {
        rtn := Bdosrw(fcb, false, Random);
      } else if func == 35 {
        GetSize(fcb);
      } else if func == 36 {
        SetRan(fcb);
      } else if func == 40 {
        rtn := Bdosrw(fcb, false, ZeroFilling);
      } else {
        rtn := TruncateFi(fcb);
      }
    }

    /** `tmp_sel`, the call, and the drive byte put back (bdosmain.c:1467-1472, 1480-1494). */
    method Service(func: nat, fcb: array<byte>) returns (rtn: nat)
      requires Valid() && Fcb36(fcb) && func in FILE_CALLS && (func in {20, 21} ==> FcbOf(fcb[..]).cur <= 128)
      modifies this, disk, csv, dirbuf, alv, dma, fcb
      ensures var f := old(FcbOf(fcb[..]));
        var r := Perform(p, Selected(p, old(State())), WithDrive(f, user), func);
        (State(), FcbOf(fcb[..]), rtn) == (r.0, WithDrive(r.1, f.ent.entry), r.2)
    {
      hide State, FcbOf, Fits, Perform, Login;
      Fields();
      FcbFields(fcb[..]);
      var drive, seen := fcb[0], user;
      Seldsk();
      label User:
      Put(fcb, 0, seen);
      Unmoved@User();
      rtn := Dispatch(func, fcb);
      label Restore:
      Put(fcb, 0, drive);
      Unmoved@Restore();
    }

    /** Call 13, reset disk system, and call 37 for this drive. */
    method Reset()
      requires Valid()
      modifies this
      ensures State() == old(State()).(logged := false, ro := false, crit := false)
    {
      Fields();
      logged := false;
      ro := false;
      crit := false;
      Globals();
    }
  }

  // ---------------------------------------------------------------- the calls on values

  const FILE_CALLS: set<nat> := {15, 16, 19, 20, 21, 22, 33, 34, 35, 36, 40, 99}

  /** What call `func` does. */
  function Perform(p: Dpb, v: Vol, f: FcbValue, func: nat): (r: (Vol, FcbValue, nat))
    requires Fits(p, v) && func in FILE_CALLS && (func in {20, 21} ==> f.cur <= 128)
    ensures Fits(p, r.0)
  {
    if func == 15 then FileCalls.OpenCall(p, v, f)
    else if func == 16 then CloseFi(p, v, f)
    else if func == 19 then FileCalls.DeleteCall(p, v, f)
    else if func == 20 then BdosRw(p, v, f, true, Sequential)
    else if func == 21 then BdosRw(p, v, f, false, Sequential)
    else if func == 22 then FileCalls.MakeCall(p, v, f)
    else if func == 33 then BdosRw(p, v, f, true, Random)
    else if func == 34 then BdosRw(p, v, f, false, Random)
    else if func == 35 then
      var s := FileCalls.GetSize(p, v, f, 0, 0);
      (s.0, s.1, 0)
    else if func == 36 then (v, Addressing.SetRan(f), 0)
    else if func == 40 then BdosRw(p, v, f, false, ZeroFilling)
    else Truncation.TruncateFi(p, v, f)
  }

  /** The drive once selected. */
  function Selected(p: Dpb, v: Vol): (r: Vol)
    requires Fits(p, v)
    ensures Fits(p, r)
  {
    if v.logged then v else Login(p, v)
  }

  function WithDrive(f: FcbValue, drive: byte): FcbValue { f.(ent := f.ent.(entry := drive)) }

  // ---------------------------------------------------------------- steps of the loops

  lemma NothingFound(p: Dpb, v: Vol, i: nat)
    requires Fits(p, v) && i <= p.drm
    ensures var r := Invoke(p, Callback.AllocEntry, v, NO_FCB, i); r.1 == NO_FCB && !r.2
  {
  }

  lemma KeepsScanning(p: Dpb, v: Vol, f: FcbValue, i: nat, n: nat)
    requires Fits(p, v) && i <= p.drm
    ensures Invoke(p, Callback.TruncateOne(n), v, f, i) == (TruncateAt(p, v, f, i, n), f, false)
  {
  }

  lemma RoundUp(x: nat, y: nat)
    requires 0 < y
    ensures (x + y - 1) / y == x / y + if x % y != 0 then 1 else 0
  {
    var k, r := x / y, x % y;
    assert x == k * y + r;
    if r == 0 {
      DivMod2(x + y - 1, k, y - 1, y);
    } else {
      assert x + y - 1 == (k + 1) * y + (r - 1);
      DivMod2(x + y - 1, k + 1, r - 1, y);
    }
  }

  /** After a login the checksum that caused it agrees. */
  lemma Relogged(p: Dpb, v: Vol, s: nat)
    requires Fits(p, v) && s < p.DirSectors() && s < p.cks
    ensures var r := Login(p, v); r.csv[s] == Checksum(r.disk[s]) && LoadChecked(p, r, s) == r.(dirbuf := r.disk[s])
  {
    hide Login, Checksum;
    LoginScan.LoginEffect(p, v);
  }

  /** One iteration of the scanning loop: load the sector if need be, note the position, call. */
  function Visit(p: Dpb, cb: Callback, v: Vol, f: FcbValue, i: nat, initckv: bool): (r: (Vol, FcbValue, bool))
    requires Fits(p, v) && i <= p.drm
    ensures Fits(p, r.0)
  {
    var u := if i % 4 != 0 then v else if initckv then LoadInit(p, v, i / 4) else LoadChecked(p, v, i / 4);
    Invoke(p, cb, u.(srchpos := i), f, i)
  }

  /** `dirscan` from index `i` on, with either meaning of the checksum flag. */
  function ScanFrom(p: Dpb, cb: Callback, v: Vol, f: FcbValue, i: nat, full: bool, initckv: bool, pasthw: bool,
                    rtn: nat)
    : (r: (Vol, FcbValue, nat))
    requires Fits(p, v)
  {
    if initckv then (ScanAlloc(p, v, i), f, rtn) else Scan(p, cb, v, f, i, full, pasthw, rtn)
  }

  lemma ScanSteps(p: Dpb, cb: Callback, v: Vol, f: FcbValue, i: nat, full: bool, initckv: bool, pasthw: bool, rtn: nat)
    requires Fits(p, v) && (initckv ==> cb.AllocEntry? && full && pasthw && f == NO_FCB && rtn == 255)
    ensures ScanFrom(p, cb, v, f, i, full, initckv, pasthw, rtn) ==
      if !(pasthw || i <= v.hiwater + 1) || i > p.drm then (v, f, rtn)
      else
        var c := Visit(p, cb, v, f, i, initckv);
        if c.2 && !full then (c.0, c.1, i % 4)
        else ScanFrom(p, cb, c.0, c.1, i + 1, full, initckv, pasthw, if c.2 then 0 else rtn)
    ensures initckv && i <= p.drm ==> Visit(p, cb, v, f, i, initckv).1 == NO_FCB && !Visit(p, cb, v, f, i, initckv).2
  {
    hide Invoke, LoadChecked, LoadInit;
    if i <= p.drm && initckv { NothingFound(p, (if i % 4 == 0 then LoadInit(p, v, i / 4) else v).(srchpos := i), i); }
  }

  /** Drive with the first `count` records of block `b` zeroed from the directory buffer. */
  function Zeroed(p: Dpb, v: Vol, b: nat, count: nat): (r: Vol)
    requires Fits(p, v) && b <= p.dsm && count <= p.BlockRecs()
    ensures Fits(p, r)
  {
    BlockFits(p, b, 0);
    v.(dirbuf := ZeroSector(), disk := ZeroFill(p, v.disk, b, count))
  }

  lemma NewBlockIs(p: Dpb, v: Vol, b: nat, mode: Mode)
    requires Fits(p, v) && b <= p.dsm
    ensures var u := v.(alv := Allocation.SetAloc(p, v.alv, b));
      NewBlock(p, v, b, mode) == if mode == ZeroFilling then Zeroed(p, u, b, p.BlockRecs()) else u
  {
    BlockFits(p, b, 0);
    hide ZeroFill;
  }

  lemma ZeroedStart(p: Dpb, v: Vol, b: nat)
    requires Fits(p, v) && b <= p.dsm
    ensures Zeroed(p, v, b, 0) == v.(dirbuf := ZeroSector())
  {
  }

  lemma ZeroedStep(p: Dpb, v: Vol, b: nat, k: nat)
    requires Fits(p, v) && b <= p.dsm && k < p.BlockRecs()
    ensures b * p.BlockRecs() + k < |v.disk|
    ensures var r := Zeroed(p, v, b, k);
      Zeroed(p, v, b, k + 1) == r.(disk := r.disk[b * p.BlockRecs() + k := ZeroSector()])
  {
    BlockFits(p, b, 0);
    hide Dpb.WellFormed, Fits;
  }

  /** What is left of `getsize`: another round, or storing the result. */
  function SizeAfter(p: Dpb, v: Vol, f: FcbValue, more: bool, max: nat): (r: (Vol, FcbValue))
    requires Fits(p, v)
  {
    if more then FileCalls.GetSize(p, v, f, v.srchpos + 1, max) else (v, PackRan(f, max))
  }

  lemma NotDone(p: Dpb, v: Vol, f: FcbValue, max: nat)
    requires Fits(p, v)
    ensures SizeAfter(p, v, f, true, max) == FileCalls.GetSize(p, v, f, v.srchpos + 1, max)
  {
  }

  lemma Done(p: Dpb, v: Vol, f: FcbValue, max: nat)
    requires Fits(p, v)
    ensures SizeAfter(p, v, f, false, max) == (v, PackRan(f, max))
  {
  }

  /** `truncate_fi` once the size is known to shrink. */
  function Truncated(p: Dpb, v: Vol, f: FcbValue, want: nat): (r: (Vol, FcbValue, nat))
    requires Fits(p, v)
  {
    var r := Scan(p, Callback.TruncateOne(want), v.(truncFound := false, truncCode := 0), f, 0, true, false, 255);
    if !r.0.truncFound then (r.0, r.1, 255) else (r.0.(crit := true), r.1, r.0.truncCode)
  }

  lemma TruncateShape(p: Dpb, v: Vol, f: FcbValue)
    requires Fits(p, v)
    ensures var want := UnpackRan(f);
      var s := FileCalls.GetSize(p, v, f, 0, 0);
      var cur := UnpackRan(s.1);
      Truncation.TruncateFi(p, v, f) ==
        if want > cur then (s.0, f, 255) else if want == cur then (s.0, f, 0) else Truncated(p, s.0, f, want)
  {
    hide Scan, UnpackRan, FileCalls.GetSize;
  }

  lemma SizeStep(p: Dpb, v: Vol, f: FcbValue, i: nat, max: nat)
    requires Fits(p, v)
    ensures var r := Scan(p, Callback.FileSize, v, f, i, false, false, 255);
      && FileCalls.GetSize(p, v, f, i, max)
         == SizeAfter(p, r.0, r.1, r.2 < 255, if r.2 < 255 then FileCalls.Larger(max, UnpackRan(r.1)) else max)
      && (r.2 < 255 ==> i <= r.0.srchpos <= p.drm)
  {
    hide Scan, UnpackRan, PackRan, Fits;
    FileCalls.SizeScanAdvances(p, v, f, i);
  }

  lemma ScanMeaning(p: Dpb, cb: Callback, v: Vol, f: FcbValue, i: nat)
    requires Fits(p, v)
    ensures ScanFrom(p, cb, v, f, i, false, false, false, 255) == Scan(p, cb, v, f, i, false, false, 255)
  {
    hide Scan;
  }

  // the words of `free_sp`

  /** The complement of the little-endian word with bytes `lo`, `hi`. */
  function FreeWord(lo: bv8, hi: bv8): bv16 { !((lo as bv16) | ((hi as bv16) << 8)) }

  predicate Shared(word: bv16, mask: bv16) { word & mask != 0 }

  function Half(mask: bv16): bv16 { mask >> 1 }

  function WordAt(s: seq<bv8>, w: nat): bv16
  {
    if 2 * w + 1 < |s| then FreeWord(s[2 * w], s[2 * w + 1]) else 0
  }

  function TopBit(k: nat): bv16
    requires k < 16
  {
    if k == 0 then 0 else (0x8000 as bv16) >> k
  }

  lemma NextBit(i: nat)
    ensures Half(if i % 16 == 0 then 0x8000 as bv16 else TopBit(i % 16)) == TopBit((i + 1) % 16)
  {
    var k := i % 16;
    if k == 0 {} else if k == 1 {} else if k == 2 {} else if k == 3 {} else if k == 4 {} else if k == 5 {}
    else if k == 6 {} else if k == 7 {} else if k == 8 {} else if k == 9 {} else if k == 10 {} else if k == 11 {}
    else if k == 12 {} else if k == 13 {} else if k == 14 {} else {}
  }

  lemma SwappedHere(s: seq<bv8>, i: nat)
    requires 2 * (i / 16) + 1 < |s|
    ensures Allocation.SwappedBit(i) < |BitsOf(s)|
    ensures Shared(FreeWord(s[2 * (i / 16)], s[2 * (i / 16) + 1]), if i % 16 == 0 then 0x8000 else TopBit(i % 16))
      == !BitsOf(s)[Allocation.SwappedBit(i)]
  {
    var k, w := i % 16, i / 16;
    WordBit(s[2 * w], s[2 * w + 1], k);
    assert FreeWord(s[2 * w], s[2 * w + 1]) & (if k == 0 then 0x8000 else TopBit(k))
      == !((s[2 * w] as bv16) | ((s[2 * w + 1] as bv16) << 8)) & ((0x8000 as bv16) >> k);
    hide Bit, FreeWord, TopBit;
    SwappedPlace(i);
  }

  lemma SameWord(i: nat)
    ensures (i + 1) % 16 != 0 ==> (i + 1) / 16 == i / 16
  {
  }

  lemma OneMore(k: nat, x: nat)
    ensures k * (x + 1) == k * x + k
  {
  }

  /** Records in the free blocks among the first `n` that `free_sp` looks at. */
  function RecordsBelow(p: Dpb, a: Allocation.Vector, n: nat): nat
    requires n <= 16 * (|a| / 16)
  {
    (p.blm + 1) * Allocation.SwappedFreeBelow(a, n)
  }

  lemma RecordsStep(p: Dpb, a: Allocation.Vector, n: nat)
    requires n < 16 * (|a| / 16) && Allocation.SwappedBit(n) < |a|
    ensures RecordsBelow(p, a, 0) == 0
    ensures RecordsBelow(p, a, n + 1) == RecordsBelow(p, a, n) + if a[Allocation.SwappedBit(n)] then 0 else p.blm + 1
  {
    SwappedStep(a, n + 1);
    SwappedStep(a, 0);
    OneMore(p.blm + 1, Allocation.SwappedFreeBelow(a, n));
    hide Allocation.SwappedBit, Allocation.SwappedFreeBelow;
  }

  lemma RecordsAll(p: Dpb, a: Allocation.Vector)
    requires |a| == FreeSpace.WordBits(p)
    ensures p.dsm + 1 <= 16 * (|a| / 16) && RecordsBelow(p, a, p.dsm + 1) == FreeSpace.FreeRecords(p, a)
  {
  }

  lemma SwappedStep(a: Allocation.Vector, n: nat)
    requires n <= 16 * (|a| / 16)
    ensures Allocation.SwappedFreeBelow(a, n) ==
      if n == 0 then 0
      else Allocation.SwappedFreeBelow(a, n - 1) + if a[Allocation.SwappedBit(n - 1)] then 0 else 1
  {
  }

  lemma DirectoryOnDisk(p: Dpb)
    requires p.WellFormed()
    ensures 0 <= (p.dsm + 1) * p.BlockRecs() && p.DirSectors() <= (p.dsm + 1) * p.BlockRecs()
  {
    hide Dpb.DirBlocks, Dpb.DirSectors, Dpb.BlockRecs, Exp2, Dpb.Slots;
    DirectoryFits(p);
    if p.DirBlocks() < p.dsm + 1 { NextMultiple(p.DirBlocks(), p.dsm + 1, p.BlockRecs()); }
  }

  lemma SameMap(e: Ent)
    ensures WithMap(e, e.dskmap) == e
  {
  }

  lemma FreePastStarts(p: Dpb, a: Allocation.Vector, m: Map, base: nat, n: nat)
    requires p.bsh <= 7 && |a| == Allocation.VectorBits(p)
    ensures Volume.FreePast(p, a, m, base, n, 0) == (a, m)
  {
  }

  lemma FreePastStep(p: Dpb, a: Allocation.Vector, m: Map, base: nat, n: nat, i: nat)
    requires p.bsh <= 7 && |a| == Allocation.VectorBits(p) && i < p.Slots()
    ensures var r := Volume.FreePast(p, a, m, base, n, i);
      Volume.FreePast(p, a, m, base, n, i + 1) == if SlotStart(p, base, i) < n then r
        else (Allocation.ClrAloc(p, r.0, Slot(p, r.1, i)), DiskMap.SetSlot(p, r.1, i, 0))
  {
    hide SlotStart, Slot, DiskMap.SetSlot, Allocation.ClrAloc;
  }

  lemma SwappedPlace(i: nat)
    ensures var b := Allocation.SwappedBit(i);
      b / 8 == 2 * (i / 16) + (if i % 16 < 8 then 1 else 0) && b % 8 == if i % 16 < 8 then i % 16 else i % 16 - 8
  {
  }

  lemma WholeWords(dsm: nat)
    ensures (dsm / 8 + 1) % 2 == 0 ==> 16 * ((dsm + 16) / 16) == 8 * (dsm / 8 + 1)
  {
  }

  /** Block `i` lies in a word the vector has. */
  lemma InWords(dsm: nat, i: nat, bytes: nat)
    requires i <= dsm && bytes == dsm / 8 + 1 && bytes % 2 == 0
    ensures 2 * (i / 16) + 1 < bytes && i < 16 * ((8 * bytes) / 16)
  {
  }

  lemma Restamp(e: Ent, m: Map, n: nat)
    requires 0 < n
    ensures TruncatedEntry(WithMap(e, m), m, n) == TruncatedEntry(e, m, n)
  {
  }

  lemma WithMapTwice(e: Ent, m: Map, n: Map)
    ensures WithMap(WithMap(e, m), n) == WithMap(e, n) && WithMap(e, m).dskmap == m
  {
  }

  /** One round of the merge. */
  lemma MergeStep(p: Dpb, fm: Map, dm: Map, j: nat)
    requires j <= p.Slots()
    ensures Volume.MergeMaps(p, fm, dm, j) ==
      if j == p.Slots() then (fm, dm, true)
      else
        var a, b := Slot(p, fm, j), Slot(p, dm, j);
        if b != 0 && a != 0 && a != b then (fm, dm, false)
        else Volume.MergeMaps(p, if b != 0 && a == 0 then DiskMap.SetSlot(p, fm, j, b) else fm,
          if b == 0 then DiskMap.SetSlot(p, dm, j, a) else dm, j + 1)
  {
    hide Slot, DiskMap.SetSlot;
  }

  /** One step of the outward search. */
  lemma OutwardStep(p: Dpb, a: Allocation.Vector, l: nat, r: nat)
    requires Allocation.Sized(p, a) && l <= p.dsm
    ensures Allocation.Outward(p, a, l, r) ==
      if l == 0 && p.dsm <= r then None
      else if 0 < l && !a[l - 1] then Some(l - 1)
      else if r < p.dsm && !a[r + 1] then Some(r + 1)
      else Allocation.Outward(p, a, if 0 < l then l - 1 else 0, if r < p.dsm then r + 1 else r)
  {
  }
}

/** The CBIOS deblocking layer (disk.c, iosys.c): 128-byte sectors inside 512-byte physical ones, behind
    a one-sector write-through cache, over a device that may fail at any time. */
module Deblocking {
  import opened DiskParams

  const PHYS_SECTOR := 512
  const PER_PHYS := 4

  type Phys = s: seq<byte> | |s| == 512 witness seq(512, _ => 0)

  // ---------------------------------------------------------------- cylinder, head, sector

  /** Physical geometry. */
  datatype Geometry = Geometry(cyls: nat, heads: nat, secs: nat)
  {
    /** What `int13_geometry` can report (disk.c:474-492): six bits of sector, eight of head, ten of
        cylinder. */
    predicate Reportable() { 1 <= secs <= 63 && 1 <= heads <= 256 && 1 <= cyls <= 1024 }

    function Sectors(): nat { cyls * heads * secs }

    /** The divisions of `phys_xfer` (disk.c:604-606). */
    function SecOf(lba: nat): nat
      requires 0 < secs
    {
      lba % secs + 1
    }

    function HeadOf(lba: nat): nat
      requires 0 < secs && 0 < heads
    {
      lba / secs % heads
    }

    function CylOf(lba: nat): nat
      requires 0 < secs && 0 < heads
    {
      Positive(secs, heads);
      Quotient(lba, secs * heads)
    }

    /** Linear address of cylinder `c`, head `h`, sector `s` (counted from 1). */
    function Linear(c: nat, h: nat, s: nat): int { (c * heads + h) * secs + s - 1 }
  }

  lemma Positive(a: nat, b: nat)
    requires 0 < a && 0 < b
    ensures 0 < a * b
  {
  }

  /** CX and the head half of DX as `phys_xfer` packs them (disk.c:604-616). */
  function PackCx(cyl: nat, sec: nat): nat { (cyl % 256) * 256 + (cyl / 256 % 4) * 64 + sec }

  /** The same bits taken apart as int 13h does. */
  function CxCylinder(cx: nat): nat { cx / 256 % 256 + (cx / 64 % 4) * 256 }
  function CxSector(cx: nat): nat { cx % 64 }
  function DxHead(dx: nat): nat { dx / 256 % 256 }
  function DxDrive(dx: nat): nat { dx % 256 }

  lemma CxRoundTrip(cyl: nat, sec: nat)
    requires cyl < 1024 && sec < 64
    ensures CxCylinder(PackCx(cyl, sec)) == cyl && CxSector(PackCx(cyl, sec)) == sec
  {
    var cx := PackCx(cyl, sec);
    assert cx == 64 * (4 * (cyl % 256) + cyl / 256) + sec;
    assert cx / 64 == 4 * (cyl % 256) + cyl / 256;
    assert cx == 256 * (cyl % 256) + (64 * (cyl / 256) + sec);
    assert cx / 256 == cyl % 256;
  }

  lemma DivProduct(x: nat, a: nat, b: nat)
    requires 0 < a && 0 < b
    ensures x / (a * b) == x / a / b
  {
    var q := x / a;
    var k, r := q / b, q % b;
    assert x == q * a + x % a && q == k * b + r;
    assert x == k * (a * b) + (r * a + x % a);
    NextMultiple(r, b, a);
    DivMod2(x, k, r * a + x % a, a * b);
  }

  /** Addresses inside the geometry are determined by their linear number. */
  lemma AddressUnique(g: Geometry, c: nat, h: nat, s: nat, c': nat, h': nat, s': nat)
    requires h < g.heads && h' < g.heads && 1 <= s <= g.secs && 1 <= s' <= g.secs
    requires g.Linear(c, h, s) == g.Linear(c', h', s')
    ensures c == c' && h == h' && s == s'
  {
    var a, a' := c * g.heads + h, c' * g.heads + h';
    if a < a' { NextMultiple(a, a', g.secs); }
    if a' < a { NextMultiple(a', a, g.secs); }
    if c < c' { NextMultiple(c, c', g.heads); }
    if c' < c { NextMultiple(c', c, g.heads); }
  }

  /** Dividing out sector and head gives the one address whose linear number is `lba`. */
  lemma AddressParts(g: Geometry, lba: nat)
    requires g.Reportable()
    ensures 1 <= g.SecOf(lba) <= g.secs && g.HeadOf(lba) < g.heads
    ensures g.Linear(g.CylOf(lba), g.HeadOf(lba), g.SecOf(lba)) == lba
    ensures g.CylOf(lba) < g.cyls <==> lba < g.Sectors()
  {
    var q := lba / g.secs;
    DivProduct(lba, g.secs, g.heads);
    assert lba == q * g.secs + lba % g.secs;
    assert q == (q / g.heads) * g.heads + q % g.heads;
    var c, w := g.CylOf(lba), g.secs * g.heads;
    assert g.Sectors() == g.cyls * w;
    assert lba == c * w + lba % w;
    if c < g.cyls { NextMultiple(c, g.cyls, w); } else if c > g.cyls { NextMultiple(g.cyls, c, w); }
  }

  /** Every address inside the geometry is packed into registers that name exactly it; larger ones are
      refused before anything is packed. */
  lemma PackedAddress(g: Geometry, lba: nat, drive: nat)
    requires g.Reportable() && drive < 256
    ensures g.CylOf(lba) >= g.cyls <==> lba >= g.Sectors()
    ensures var cx, dx := PackCx(g.CylOf(lba), g.SecOf(lba)), g.HeadOf(lba) * 256 + drive;
      lba < g.Sectors() ==>
        && g.Linear(CxCylinder(cx), DxHead(dx), CxSector(cx)) == lba && DxDrive(dx) == drive
        && CxCylinder(cx) < g.cyls && DxHead(dx) < g.heads && 1 <= CxSector(cx) <= g.secs
  {
    AddressParts(g, lba);
    hide Geometry.Linear, Geometry.Sectors, Geometry.CylOf, Geometry.HeadOf, Geometry.SecOf;
    if lba < g.Sectors() {
      CxRoundTrip(g.CylOf(lba), g.SecOf(lba));
      DxRoundTrip(g.HeadOf(lba), drive);
    }
  }

  lemma DxRoundTrip(head: nat, drive: nat)
    requires head < 256 && drive < 256
    ensures DxHead(head * 256 + drive) == head && DxDrive(head * 256 + drive) == drive
  {
  }

  // ---------------------------------------------------------------- sub-sectors

  /** 128-byte sector `k` of a physical sector. */
  function Sub(x: Phys, k: nat): Sector
    requires k < PER_PHYS
  {
    x[128 * k .. 128 * k + 128]
  }

  function PutSub(x: Phys, k: nat, s: Sector): Phys
    requires k < PER_PHYS
  {
    x[..128 * k] + s + x[128 * k + 128..]
  }

  /** A write leaves its three neighbours intact. */
  lemma PutSubSub(x: Phys, k: nat, s: Sector, k': nat)
    requires k < PER_PHYS && k' < PER_PHYS
    ensures Sub(PutSub(x, k, s), k') == if k' == k then s else Sub(x, k')
  {
    var y := PutSub(x, k, s);
    if k' == k {
      assert y[128 * k .. 128 * k + 128] == s;
    } else {
      assert y[128 * k' .. 128 * k' + 128] == x[128 * k' .. 128 * k' + 128];
    }
  }

  type Medium = seq<Phys>

  function WithSector(m: Medium, a: nat, x: Phys): Medium
    requires a < |m|
  {
    m[a := x]
  }

  /** A medium as the BDOS sees it: sector `n`, if there is one. */
  function Flat(m: Medium, n: nat): Sector
    requires n / PER_PHYS < |m|
  {
    Sub(m[n / PER_PHYS], n % PER_PHYS)
  }

  /** The medium after a successful write of sector `n`. */
  function FlatPut(m: Medium, n: nat, s: Sector): Medium
    requires n / PER_PHYS < |m|
  {
    m[n / PER_PHYS := PutSub(m[n / PER_PHYS], n % PER_PHYS, s)]
  }

  /** On the flat array a write changes one sector. */
  lemma FlatPutIsUpdate(m: Medium, n: nat, s: Sector, n': nat)
    requires n / PER_PHYS < |m| && n' / PER_PHYS < |m|
    ensures Flat(FlatPut(m, n, s), n') == if n' == n then s else Flat(m, n')
  {
    if n' / PER_PHYS == n / PER_PHYS { PutSubSub(m[n / PER_PHYS], n % PER_PHYS, s, n' % PER_PHYS); }
  }

  /** At most physical sector `a` differs. */
  ghost predicate OnlyAt(m: Medium, m': Medium, a: nat)
  {
    |m'| == |m| && forall i: nat :: i < |m| && i != a ==> m'[i] == m[i]
  }

  // ---------------------------------------------------------------- drives and the device

  const DRV_FLOPPY := 1
  const DRV_COUNT := 4

  /** `struct bios_drive`. */
  datatype Drive = Drive(biosNum: nat, probed: int, useLba: bool, geo: Geometry)
  {
    /** The code with which a transfer is refused without asking the device, or 0. */
    function Refuses(lba: nat): int
    {
      if useLba then 0
      else if geo.secs == 0 || geo.heads == 0 then -1
      else if geo.cyls != 0 && geo.CylOf(lba) >= geo.cyls then 4
      else 0
    }

    /** How often the device is asked for a sector, given what it answers: once more after an error. */
    function Asks(lba: nat, asked: seq<int>): nat
    {
      if Refuses(lba) != 0 then 0 else if |asked| > 0 && asked[0] > 0 then 2 else 1
    }

    /** What comes of it. */
    function Code(lba: nat, asked: seq<int>): int
    {
      if Refuses(lba) != 0 then Refuses(lba) else if |asked| > 0 then asked[|asked| - 1] else 0
    }
  }

  /** When a 128-byte transfer succeeds: the drive is there, and every physical transfer it takes (the
      read unless the sector is `cached`, then the write) is granted at once or on the second try. */
  ghost predicate Answered(d: Drive, lba: nat, cached: bool, write: bool, asked: seq<int>, rtn: nat)
  {
    if d.probed == 0 then rtn == 1 && asked == []
    else
      var k := if cached then 0 else d.Asks(lba, asked);
      && k <= |asked|
      && var rc := if cached then 0 else d.Code(lba, asked[..k]);
      if rc != 0 || !write then |asked| == k && rtn == if rc == 0 then 0 else 1
      else |asked| == k + d.Asks(lba, asked[k..]) && rtn == if d.Code(lba, asked[k..]) == 0 then 0 else 1
  }

  ghost predicate DriveOk(d: Drive, m: Medium)
  {
    && d.biosNum < 256
    && (!d.useLba && d.geo.secs != 0 && d.geo.heads != 0 ==> d.geo.Reportable() && |m| == d.geo.Sectors())
  }

  /** The machine below the BDOS: CBIOS variables, the V86 transfer buffer, and the media themselves.
      A device call may succeed or fail; what it fails with, and what a failed transfer leaves behind,
      is arbitrary. */
  class Cbios {
    var drives: seq<Drive>
    var media: seq<Medium>
    var curDrive: nat
    var curTrk: nat
    var curSec: nat
    var lastDsk: nat
    var cacheDrive: int
    var cacheLba: nat
    const buf: array<byte>

    /** What the device has answered to the transfers it was asked for. */
    ghost var answers: seq<int>

    ghost predicate Valid()
      reads this
    {
      && |drives| == |media| == DRV_COUNT && buf.Length == PHYS_SECTOR
      && forall i :: 0 <= i < DRV_COUNT ==> DriveOk(drives[i], media[i])
    }

    /** A valid cache tag means the buffer holds that sector. */
    ghost predicate CacheOk()
      requires Valid()
      reads this, buf
    {
      0 <= cacheDrive ==>
        cacheDrive < DRV_COUNT && cacheLba < |media[cacheDrive]| && buf[..] == media[cacheDrive][cacheLba]
    }

    /** Nothing but the cache, the buffer and the media changes. */
    twostate predicate Steady()
      reads this
    {
      && drives == old(drives) && curDrive == old(curDrive) && curTrk == old(curTrk) && curSec == old(curSec)
      && lastDsk == old(lastDsk)
    }

    method FillBuffer(x: Phys)
      requires Valid()
      modifies buf
      ensures buf[..] == x
    {
      var i := 0;
      while i < PHYS_SECTOR
        invariant i <= PHYS_SECTOR && buf[..i] == x[..i]
      {
        buf[i] := x[i];
        i := i + 1;
      }
      assert buf[..] == buf[..PHYS_SECTOR];
    }

    /** The device: one physical sector of drive `drv` moves between buffer and medium. */
    method Device(drv: nat, lba: nat, write: bool) returns (rc: int)
      requires Valid() && drv < DRV_COUNT
      modifies this`media, this`answers, buf
      ensures Valid() && OnlyDrive(old(media), media, drv)
      ensures Transferred(old(media[drv]), media[drv], lba, old(buf[..]), buf[..], write, rc)
      ensures answers == old(answers) + [rc]
    {
      rc := *;
      if rc == 0 && lba >= |media[drv]| { rc := 4; }
      answers := answers + [rc];
      if lba >= |media[drv]| { return; }
      var x: Phys := *;
      if write {
        if rc == 0 { x := buf[..]; }
        media := media[drv := WithSector(media[drv], lba, x)];
      } else {
        if rc == 0 { x := media[drv][lba]; }
        FillBuffer(x);
      }
    }

    /** `phys_xfer` (disk.c:569-617). */
    method PhysXfer(drv: nat, lba: nat, write: bool) returns (rc: int)
      requires Valid() && drv < DRV_COUNT
      modifies this`media, this`answers, buf
      ensures Valid() && OnlyDrive(old(media), media, drv)
      ensures Transferred(old(media[drv]), media[drv], lba, old(buf[..]), buf[..], write, rc)
      ensures drives[drv].Refuses(lba) != 0 ==> rc == drives[drv].Refuses(lba)
      ensures answers == if drives[drv].Refuses(lba) != 0 then old(answers) else old(answers) + [rc]
    {
      var d := drives[drv];
      if d.useLba {
        rc := Device(drv, lba, write);
        return;
      }
      if d.geo.secs == 0 || d.geo.heads == 0 {
        return -1;
      }
      PackedAddress(d.geo, lba, d.biosNum);
      var sec := d.geo.SecOf(lba);
      var head := d.geo.HeadOf(lba);
      var cyl := d.geo.CylOf(lba);
      if d.geo.cyls != 0 && cyl >= d.geo.cyls {
        return 4;
      }
      rc := DeviceChs(drv, PackCx(cyl, sec), head * 256 + d.biosNum, write, lba);
    }

    /** The device addressed by registers: it finds the sector they name. */
    method DeviceChs(drv: nat, cx: nat, dx: nat, write: bool, ghost lba: nat) returns (rc: int)
      requires Valid() && drv < DRV_COUNT
      requires var g := drives[drv].geo;
        1 <= CxSector(cx) && g.Linear(CxCylinder(cx), DxHead(dx), CxSector(cx)) == lba
      modifies this`media, this`answers, buf
      ensures Valid() && OnlyDrive(old(media), media, drv)
      ensures Transferred(old(media[drv]), media[drv], lba, old(buf[..]), buf[..], write, rc)
      ensures answers == old(answers) + [rc]
    {
      var g := drives[drv].geo;
      var at := (CxCylinder(cx) * g.heads + DxHead(dx)) * g.secs + CxSector(cx) - 1;
      rc := Device(drv, at, write);
    }

    /** `phys_read` (disk.c:627-656). */
    method PhysRead(drv: nat, lba: nat) returns (rc: int)
      requires Valid() && CacheOk() && drv < DRV_COUNT
      modifies this`media, this`cacheDrive, this`cacheLba, this`answers, buf
      ensures Valid() && CacheOk() && media == old(media)
      ensures rc == 0 ==> cacheDrive == drv && cacheLba == lba
      ensures old(answers) <= answers
      ensures var asked := answers[|old(answers)|..];
        if old(cacheDrive) == drv && old(cacheLba) == lba then rc == 0 && asked == []
        else |asked| == drives[drv].Asks(lba, asked) && rc == drives[drv].Code(lba, asked)
    {
      if cacheDrive == drv && cacheLba == lba {
        return 0;
      }
      cacheDrive := -1;
      rc := PhysXfer(drv, lba, false);
      if rc > 0 {
        rc := PhysXfer(drv, lba, false);
      }
      if rc != 0 {
        return;
      }
      cacheDrive, cacheLba := drv, lba;
    }

    /** `phys_write` (disk.c:660-682). */
    method PhysWrite(drv: nat, lba: nat) returns (rc: int)
      requires Valid() && drv < DRV_COUNT
      modifies this`media, this`cacheDrive, this`cacheLba, this`answers, buf
      ensures Valid() && CacheOk() && OnlyDrive(old(media), media, drv)
      ensures old(answers) <= answers
      ensures var asked := answers[|old(answers)|..];
        |asked| == drives[drv].Asks(lba, asked) && rc == drives[drv].Code(lba, asked)
      ensures OnlyAt(old(media[drv]), media[drv], lba)
      ensures rc == 0 ==> lba < |media[drv]| && media[drv] == old(media[drv])[lba := old(buf[..])]
    {
      rc := PhysXfer(drv, lba, true);
      if rc > 0 {
        rc := PhysXfer(drv, lba, true);
      }
      if rc != 0 {
        cacheDrive := -1;
        return;
      }
      cacheDrive, cacheLba := drv, lba;
    }

    /** `bios_rw` (disk.c:899-942) on a drive other than the RAM disk: read, or read, modify and write. */
    method BiosRw(dma: array<byte>, write: bool) returns (rtn: nat)
      requires Valid() && CacheOk() && 0 < curDrive < DRV_COUNT && dma.Length == 128 && dma != buf
      modifies this`media, this`cacheDrive, this`cacheLba, this`answers, buf, dma
      ensures Valid() && CacheOk() && OnlyDrive(old(media), media, curDrive)
      ensures old(answers) <= answers
      ensures var lba := (curTrk * Spt(curDrive) + curSec) / PER_PHYS;
        Answered(drives[curDrive], lba, old(cacheDrive) == curDrive && old(cacheLba) == lba, write,
          answers[|old(answers)|..], rtn)
      ensures Did(old(media[curDrive]),
        if write then Put(curTrk * Spt(curDrive) + curSec, old(dma[..]), rtn == 0)
        else Get(curTrk * Spt(curDrive) + curSec, dma[..], rtn == 0), media[curDrive])
      ensures write || rtn != 0 ==> dma[..] == old(dma[..])
    {
      hide Did, Flat, FlatPut, Sub, PutSub, DriveOk;
      ghost var m := media[curDrive];
      if drives[curDrive].probed == 0 {
        DidNot(m, m, curTrk * Spt(curDrive) + curSec, dma[..]);
        return 1;
      }
      var lin := curTrk * Spt(curDrive) + curSec;
      var lba, k := lin / PER_PHYS, lin % PER_PHYS;
      var rc := PhysRead(curDrive, lba);
      if rc != 0 {
        DidNot(m, m, lin, dma[..]);
        return 1;
      }
      if !write {
        CopyOut(dma, k);
        DidGet(m, lin, dma[..]);
        return 0;
      }
      CopyIn(dma, k);
      rc := PhysWrite(curDrive, lba);
      DidNot(m, media[curDrive], lin, dma[..]);
      if rc == 0 { DidPut(m, lin, dma[..]); }
      rtn := if rc != 0 then 1 else 0;
    }

    method CopyOut(dma: array<byte>, k: nat)
      requires Valid() && k < PER_PHYS && dma.Length == 128 && dma != buf
      modifies dma
      ensures dma[..] == Sub(buf[..], k)
    {
      var i := 0;
      while i < 128
        invariant i <= 128 && dma[..i] == buf[128 * k .. 128 * k + i]
      {
        dma[i] := buf[128 * k + i];
        i := i + 1;
      }
      assert dma[..] == dma[..128] == buf[..][128 * k .. 128 * k + 128];
    }

    method CopyIn(dma: array<byte>, k: nat)
      requires Valid() && k < PER_PHYS && dma.Length == 128 && dma != buf
      modifies buf
      ensures buf[..] == PutSub(old(buf[..]), k, dma[..])
    {
      ghost var x: Phys := buf[..];
      var i := 0;
      while i < 128
        invariant i <= 128 && buf[..] == x[..128 * k] + dma[..i] + x[128 * k + i..]
      {
        buf[128 * k + i] := dma[i];
        i := i + 1;
      }
      assert dma[..] == dma[..128];
    }

    /** `bios_seldsk` (disk.c:786-818). A fresh login drops the cache, so whatever medium is in the
        drive now, nothing of an earlier one is left to be read. */
    method SelDsk(drive: nat, logged: bool) returns (ok: bool)
      requires Valid() && (logged ==> CacheOk())
      modifies this
      ensures Valid() && CacheOk()
      ensures media == old(media) && drives == old(drives) && lastDsk == old(lastDsk)
      ensures curDrive == drive && answers == old(answers)
      ensures if logged then (cacheDrive, cacheLba) == (old(cacheDrive), old(cacheLba)) else cacheDrive < 0
      ensures ok <==> drive < DRV_COUNT && (drive == 0 || drives[drive].probed > 0)
    {
      curTrk, curSec, curDrive := 0, 0, drive;
      if !logged { cacheDrive := -1; }
      ok := drive < DRV_COUNT && (drive == 0 || drives[drive].probed > 0);
    }

    /** `do_phio` (iosys.c:55-107), select. */
    method PhioSelect(devnum: nat, logged: bool) returns (ok: bool)
      requires Valid() && (logged ==> CacheOk())
      modifies this
      ensures Valid() && CacheOk() && Selected() && lastDsk == devnum
      ensures media == old(media) && drives == old(drives) && answers == old(answers)
      ensures if logged then (cacheDrive, cacheLba) == (old(cacheDrive), old(cacheLba)) else cacheDrive < 0
      ensures ok <==> devnum < DRV_COUNT && (devnum == 0 || drives[devnum].probed > 0)
    {
      lastDsk := devnum;
      ok := SelDsk(devnum, logged);
    }

    /** The CBIOS has the drive selected that `do_phio` remembers. */
    predicate Selected()
      reads this
    {
      curDrive == lastDsk
    }

    /** `do_phio`, read and write: the linear sector is split into track and sector and put together
        again. The track is a 16-bit word. */
    method PhioTransfer(devnum: nat, devadr: nat, dma: array<byte>, write: bool) returns (rtn: nat)
      requires Valid() && CacheOk() && Selected() && 0 < devnum < DRV_COUNT && dma.Length == 128 && dma != buf
      requires devadr / Spt(devnum) < 0x1_0000
      modifies this, buf, dma
      ensures Valid() && CacheOk() && Selected() && drives == old(drives) && OnlyDrive(old(media), media, devnum)
      ensures old(answers) <= answers
      ensures var lba := devadr / PER_PHYS;
        var cached := old(lastDsk) == devnum && old(cacheDrive) == devnum && old(cacheLba) == lba;
        Answered(drives[devnum], lba, cached, write, answers[|old(answers)|..], rtn)
      ensures Did(old(media[devnum]),
        if write then Put(devadr, old(dma[..]), rtn == 0) else Get(devadr, dma[..], rtn == 0),
        media[devnum])
      ensures write || rtn != 0 ==> dma[..] == old(dma[..])
    {
      if lastDsk != devnum {
        lastDsk := devnum;
        var ok := SelDsk(devnum, false);
      }
      var spt := Spt(devnum);
      curTrk := (devadr / spt) % 0x1_0000;
      curSec := devadr % spt;
      assert curTrk * spt + curSec == devadr;
      rtn := BiosRw(dma, write);
    }

    /** Someone changes the medium in drive `drv` behind the BDOS's back. */
    method ChangeMedium(drv: nat, m: Medium)
      requires Valid() && drv < DRV_COUNT && DriveOk(drives[drv], m)
      modifies this`media
      ensures Valid() && media == old(media)[drv := m]
    {
      media := media[drv := m];
    }
  }

  /** CP/M sectors per track. */
  function Spt(drive: nat): (n: nat)
    ensures 0 < n
  {
    if drive == DRV_FLOPPY then 72 else 32
  }

  // ---------------------------------------------------------------- what a run of accesses means

  /** One sector read or written, and whether the call reported success. */
  datatype Access = Get(n: nat, data: seq<byte>, ok: bool) | Put(n: nat, data: seq<byte>, ok: bool)

  /** An access to the flat array of 128-byte sectors. A failed write may have ruined its physical
      sector and nothing else. */
  ghost predicate Did(m: Medium, a: Access, m': Medium)
  {
    match a
    case Get(n, data, ok) => m' == m && (ok ==> n / PER_PHYS < |m| && data == Flat(m, n))
    case Put(n, data, ok) =>
      && OnlyAt(m, m', n / PER_PHYS)
      && (ok ==> n / PER_PHYS < |m| && |data| == 128 && m' == FlatPut(m, n, data))
  }

  lemma DidNot(m: Medium, m': Medium, n: nat, data: seq<byte>)
    ensures OnlyAt(m, m', n / PER_PHYS) ==> Did(m, Put(n, data, false), m')
    ensures Did(m, Put(n, data, false), m) && Did(m, Get(n, data, false), m)
  {
  }

  lemma DidGet(m: Medium, n: nat, data: seq<byte>)
    requires n / PER_PHYS < |m| && data == Sub(m[n / PER_PHYS], n % PER_PHYS)
    ensures Did(m, Get(n, data, true), m)
  {
    hide Sub;
  }

  lemma DidPut(m: Medium, n: nat, data: Sector)
    requires n / PER_PHYS < |m|
    ensures Did(m, Put(n, data, true), m[n / PER_PHYS := PutSub(m[n / PER_PHYS], n % PER_PHYS, data)])
  {
    hide PutSub;
  }

  /** The run `ops` takes the medium through the states `ms`. */
  ghost predicate History(ms: seq<Medium>, ops: seq<Access>)
  {
    |ms| == |ops| + 1 && forall k :: 0 <= k < |ops| ==> Did(ms[k], ops[k], ms[k + 1])
  }

  /** Access `a` may change sector `n`. */
  predicate Disturbs(a: Access, n: nat)
  {
    a.Put? && (a.n == n || (!a.ok && a.n / PER_PHYS == n / PER_PHYS))
  }

  lemma {:induction false} UndisturbedStays(ms: seq<Medium>, ops: seq<Access>, i: nat, j: nat, n: nat)
    requires History(ms, ops) && i <= j <= |ops| && n / PER_PHYS < |ms[i]|
    requires forall k :: i <= k < j ==> !Disturbs(ops[k], n)
    ensures n / PER_PHYS < |ms[j]| && Flat(ms[j], n) == Flat(ms[i], n)
    decreases j - i
  {
    if i < j {
      UndisturbedStays(ms, ops, i, j - 1, n);
      var a := ops[j - 1];
      assert Did(ms[j - 1], a, ms[j]) && !Disturbs(a, n);
      if a.Put? && a.ok { FlatPutIsUpdate(ms[j - 1], a.n, a.data, n); }
    }
  }

  /** Under any pattern of failures, a read that succeeds returns what the last write of that sector
      wrote, as long as that write succeeded and no later failed write hit the same physical sector. */
  lemma LastWriteReadsBack(ms: seq<Medium>, ops: seq<Access>, i: nat, j: nat)
    requires History(ms, ops) && i < j < |ops|
    requires ops[i].Put? && ops[i].ok && ops[j].Get? && ops[j].ok && ops[j].n == ops[i].n
    requires forall k :: i < k < j ==> !Disturbs(ops[k], ops[i].n)
    ensures ops[j].data == ops[i].data
  {
    var n := ops[i].n;
    assert Did(ms[i], ops[i], ms[i + 1]) && Did(ms[j], ops[j], ms[j + 1]);
    FlatPutIsUpdate(ms[i], n, ops[i].data, n);
    UndisturbedStays(ms, ops, i + 1, j, n);
  }

  ghost predicate OnlyDrive(a: seq<Medium>, b: seq<Medium>, drv: nat)
  {
    |a| == |b| && forall i :: 0 <= i < |a| && i != drv ==> b[i] == a[i]
  }

  /** Outcome of a transfer of sector `lba` between buffer `x` and medium `m`. */
  ghost predicate Transferred(m: Medium, m': Medium, lba: nat, x: seq<byte>, x': seq<byte>, write: bool, rc: int)
  {
    && |x'| == |x| == PHYS_SECTOR && OnlyAt(m, m', lba)
    && (write ==> x' == x) && (!write ==> m' == m)
    && (rc == 0 ==> lba < |m| && m'[lba] == x')
  }
}

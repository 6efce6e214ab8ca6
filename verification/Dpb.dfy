/** Disk parameter block (bdosdef.h, `struct dpb`) and the arithmetic that every
    map index, extent number and block number of the file system rests on. */
module DiskParams {
  type byte = x: int | 0 <= x < 256

  /** One CP/M record. */
  type Sector = s: seq<byte> | |s| == 128 witness seq(128, _ => 0)

  function ZeroSector(): Sector { seq(128, _ => 0) }

  /** 1 << n. */
  function Exp2(n: nat): (r: nat)
    ensures 0 < r
  {
    if n == 0 then 1 else 2 * Exp2(n - 1)
  }

  // ---------------------------------------------------------------- arithmetic

  function Quotient(x: nat, r: nat): nat
    requires 0 < r
  {
    x / r
  }

  lemma NextMultiple(b: nat, b': nat, r: nat)
    requires b < b'
    ensures b * r + r <= b' * r
  {
    assert (b + 1) * r <= b' * r;
  }

  /** Quotient and remainder are what they should be. */
  lemma DivMod2(x: nat, g: nat, q: nat, r: nat)
    requires q < r && x == g * r + q
    ensures x / r == g && x % r == q
  {
    assert x == (x / r) * r + x % r;
    if g < x / r { NextMultiple(g, x / r, r); }
    if x / r < g { NextMultiple(x / r, g, r); }
  }

  // ---------------------------------------------------------------- drives

  /** Track geometry and checksum length of a drive; `trk_off` and `dir_al` are never read. */
  datatype Dpb = Dpb(spt: nat, bsh: nat, blm: nat, exm: nat, dsm: nat, drm: nat, cks: nat)
  {
    /** Allocation maps hold 16-bit block numbers (`dsm & ~0xff`). */
    predicate WordMode() { 256 <= dsm }

    function Slots(): nat { if WordMode() then 8 else 16 }

    /** Records per block. */
    function BlockRecs(): nat { blm + 1 }

    /** Logical extents per directory entry. */
    function Extents(): nat { exm + 1 }

    /** Map slots per logical extent, `1 << (7 - bsh)`. */
    function SlotsPerExtent(): nat
      requires bsh <= 7
    {
      Exp2(7 - bsh)
    }

    /** Records one directory entry can map. */
    function GroupRecs(): nat { (exm + 1) * 128 }

    /** Group that record `n` of a file lies in, and its number inside that group. */
    function GroupOf(n: nat): nat { Quotient(n, GroupRecs()) }

    function RecIn(n: nat): (q: nat)
      ensures q < GroupRecs()
    {
      n % GroupRecs()
    }

    /** Blocks the directory occupies, rounded up (fileio.c:147-150). */
    function DirBlocks(): nat
    {
      (drm + 1 + 4 * BlockRecs() - 1) / (4 * BlockRecs())
    }

    function DirSectors(): nat { drm / 4 + 1 }

    /** The shape the map arithmetic relies on; a hypothesis, not true of every drive. */
    predicate WellFormed()
    {
      && 3 <= bsh <= 7
      && blm + 1 == Exp2(bsh)
      && (exm + 1) * 128 == Slots() * (blm + 1)
      && 0 < spt
      && dsm < 0x8000 && drm < 0x8000
      && DirBlocks() <= dsm + 1
    }
  }

  const FLOPPY := Dpb(72, 4, 15, 0, 719, 255, 64)
  const HARD_DISK := Dpb(32, 4, 15, 0, 4095, 511, 0)
  const RAM_DISK := Dpb(64, 4, 15, 7, 191, 255, 64)

  lemma Exp2Values()
    ensures Exp2(0) == 1 && Exp2(1) == 2 && Exp2(2) == 4 && Exp2(3) == 8
    ensures Exp2(4) == 16 && Exp2(5) == 32 && Exp2(6) == 64 && Exp2(7) == 128
  {
    assert Exp2(4) == 16;
    assert Exp2(6) == 64;
  }

  /** The nine shapes a well-formed block can have: everything else about the DPB is linear once
      one of them is chosen. */
  lemma Shapes(p: Dpb)
    requires p.WellFormed()
    ensures p.SlotsPerExtent() * p.BlockRecs() == 128
    ensures p.Extents() * p.SlotsPerExtent() == p.Slots()
    ensures (p.bsh, p.BlockRecs(), p.SlotsPerExtent(), p.Extents(), p.Slots()) in {
      (3, 8, 16, 1, 16),
      (4, 16, 8, 2, 16), (4, 16, 8, 1, 8),
      (5, 32, 4, 4, 16), (5, 32, 4, 2, 8),
      (6, 64, 2, 8, 16), (6, 64, 2, 4, 8),
      (7, 128, 1, 16, 16), (7, 128, 1, 8, 8) }
  {
    Exp2Values();
    assert p.bsh == 3 || p.bsh == 4 || p.bsh == 5 || p.bsh == 6 || p.bsh == 7;
  }

  lemma ExtentShapes(p: Dpb)
    requires p.WellFormed()
    ensures p.exm + 1 in {1, 2, 4, 8, 16}
  {
    Shapes(p);
  }

  /** Every directory sector lies inside the reserved directory blocks, and no more blocks than
      needed are reserved. */
  lemma DirectoryFits(p: Dpb)
    requires p.WellFormed()
    ensures 1 <= p.DirBlocks()
    ensures p.DirSectors() <= p.DirBlocks() * p.BlockRecs()
    ensures (p.DirBlocks() - 1) * p.BlockRecs() < p.DirSectors()
  {
    Shapes(p);
    var b := p.BlockRecs();
    if b == 8 {} else if b == 16 {} else if b == 32 {} else if b == 64 {} else {}
  }

  lemma StandardDrives()
    ensures FLOPPY.WellFormed() && HARD_DISK.WellFormed() && !RAM_DISK.WellFormed()
  {
    Exp2Values();
  }
}

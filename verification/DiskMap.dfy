/** The 16-byte allocation map of a directory entry or FCB (`dskmap`): sixteen byte block numbers,
    or eight little-endian words when the drive has more than 256 blocks. */
module DiskMap {
  import opened DiskParams

  type Map = m: seq<byte> | |m| == 16 witness seq(16, _ => 0)

  const EMPTY_MAP: Map := [0, 0, 0, 0, 0, 0, 0, 0, 0, 0, 0, 0, 0, 0, 0, 0]

  /** Little-endian word; `swap` is the identity on this machine. */
  function Word(lo: int, hi: int): int { lo + 256 * hi }

  /** `blknum` (bdosrw.c:89-99). */
  function Slot(p: Dpb, m: Map, k: nat): (b: nat)
    requires k < p.Slots()
    ensures b < 65536
  {
    if p.WordMode() then Word(m[2 * k], m[2 * k + 1]) else m[k]
  }

  /** The store of `setblk` (bdosrw.c:111-114): a byte map truncates the block number. */
  function SetSlot(p: Dpb, m: Map, k: nat, b: nat): Map
    requires k < p.Slots() && b < 65536
  {
    if p.WordMode() then m[2 * k := b % 256][2 * k + 1 := b / 256] else m[k := b % 256]
  }

  lemma SetSlotGet(p: Dpb, m: Map, k: nat, b: nat, k': nat)
    requires k < p.Slots() && k' < p.Slots() && b <= p.dsm < 65536
    ensures Slot(p, SetSlot(p, m, k, b), k') == if k' == k then b else Slot(p, m, k')
  {
  }

  /** A map is determined by its slots. */
  lemma SlotsDetermineMap(p: Dpb, m: Map, n: Map)
    requires forall k: nat :: k < p.Slots() ==> Slot(p, m, k) == Slot(p, n, k)
    ensures m == n
  {
    forall i | 0 <= i < 16 ensures m[i] == n[i] {
      if p.WordMode() {
        assert Slot(p, m, i / 2) == Slot(p, n, i / 2);
        assert m[2 * (i / 2)] == Slot(p, m, i / 2) % 256;
        assert n[2 * (i / 2)] == Slot(p, n, i / 2) % 256;
      } else {
        assert Slot(p, m, i) == Slot(p, n, i);
      }
    }
  }

  /** Index the scan of `calcext` stops at (bdosrw.c:236-250): the last non-zero byte; byte 0 is
      never looked at because the loop ends when the index reaches it. */
  function LastByte(m: Map, i: nat): (r: nat)
    requires i < 16
    ensures r <= i
    ensures r == 0 || m[r] != 0
    ensures forall j :: r < j <= i ==> m[j] == 0
  {
    if i == 0 || m[i] != 0 then i else LastByte(m, i - 1)
  }

  lemma LastByteStep(m: Map, i: nat)
    requires i < 16
    ensures LastByte(m, i) == if i == 0 || m[i] != 0 then i else LastByte(m, i - 1)
  {
  }

  /** Last allocated slot, or 0 when the map is empty (or holds slot 0 only). */
  function LastSlot(p: Dpb, m: Map): (r: nat)
    ensures r < p.Slots()
  {
    if p.WordMode() then LastByte(m, 15) / 2 else LastByte(m, 15)
  }

  /** What the byte scan means for block numbers. */
  lemma LastSlotIsLast(p: Dpb, m: Map)
    ensures LastSlot(p, m) == 0 || Slot(p, m, LastSlot(p, m)) != 0
    ensures forall k: nat :: LastSlot(p, m) < k < p.Slots() ==> Slot(p, m, k) == 0
  {
    var r := LastByte(m, 15);
    forall k: nat | LastSlot(p, m) < k < p.Slots() ensures Slot(p, m, k) == 0 {
      if p.WordMode() {
        assert m[2 * k] == 0 && m[2 * k + 1] == 0;
      }
    }
    if p.WordMode() && r != 0 {
      assert m[2 * (r / 2)] != 0 || m[2 * (r / 2) + 1] != 0;
    }
  }

  /** The characterisation pins the value down. */
  lemma LastSlotUnique(p: Dpb, m: Map, k: nat)
    requires k < p.Slots()
    requires k == 0 || Slot(p, m, k) != 0
    requires forall j: nat :: k < j < p.Slots() ==> Slot(p, m, j) == 0
    ensures LastSlot(p, m) == k
  {
    LastSlotIsLast(p, m);
  }

  /** Logical extent (within the entry) of the last allocated slot. */
  function LastExt(p: Dpb, m: Map): (e: nat)
    requires p.WellFormed()
    ensures e < p.Extents()
  {
    Shapes(p);
    LastSlot(p, m) / p.SlotsPerExtent()
  }

  /** `calcext` (bdosrw.c:228-255); `(extent & ~exm & 0x1f) | i` with i <= exm. */
  function CalcExt(p: Dpb, extent: byte, m: Map): nat
    requires p.WellFormed()
  {
    ExtBase(extent % 32, p.Extents()) + LastExt(p, m)
  }

  /** First extent of the bracket of `x` extents that `extent` lies in: `extent & ~exm`, by the powers of
      two that `x` can be. */
  function ExtBase(extent: nat, x: nat): (b: nat)
    requires 0 < x
    ensures b <= extent
  {
    if x == 1 then extent
    else if x == 2 then extent - extent % 2
    else if x == 4 then extent - extent % 4
    else if x == 8 then extent - extent % 8
    else extent - extent % 16
  }

  lemma BaseAndRest(x: nat, e: nat)
    requires x in {1, 2, 4, 8, 16}
    ensures ExtBase(e, x) + e % x == e
  {
  }

  /** `get_rc` (bdosrw.c:265-282). */
  function GetRc(p: Dpb, extent: byte, m: Map, rc: byte): nat
    requires p.WellFormed()
  {
    var ext := CalcExt(p, extent, m);
    if ext == extent then rc else if ext > extent then 128 else 0
  }

  /** `blkindx` (bdosrw.c:68-83). */
  function BlkIndx(p: Dpb, extent: byte, rec: byte): nat
    requires p.bsh <= 7
  {
    (extent % (p.exm + 1)) * Exp2(7 - p.bsh) + rec / Exp2(p.bsh)
  }

  /** Record number inside the directory entry's group. */
  function GroupRec(p: Dpb, extent: byte, rec: byte): nat
  {
    (extent % (p.exm + 1)) * 128 + rec
  }

  /** First record (inside the group) past the data: what `calcext` and `rcdcnt` say together. */
  function EndOf(p: Dpb, m: Map, rc: byte): nat
    requires p.WellFormed()
  {
    LastExt(p, m) * 128 + rc
  }

  /** `blkindx` is division of the group record number by the block size, and stays in the map. */
  lemma BlkIndxIsDivision(p: Dpb, extent: byte, rec: byte)
    requires p.WellFormed() && rec < 128
    ensures BlkIndx(p, extent, rec) == GroupRec(p, extent, rec) / p.BlockRecs()
    ensures BlkIndx(p, extent, rec) < p.Slots()
    ensures GroupRec(p, extent, rec) % p.BlockRecs() == rec % p.BlockRecs()
    ensures GroupRec(p, extent, rec) < p.GroupRecs()
  {
    Shapes(p);
    var e := extent % (p.exm + 1);
    assert 0 <= e < p.Extents();
    var b := p.BlockRecs();
    if b == 8 {} else if b == 16 {} else if b == 32 {} else if b == 64 {} else { assert b == 128; }
  }
}

/** BDOS function 40: a random write that zero-fills the block it allocates (bdosrw.c:361-379). */
module Zeroing {
  import opened DiskParams
  import opened DiskMap
  import opened Directory
  import opened Allocation
  import opened Volume
  import opened RecordIo
  import opened Scanning
  import opened Files
  import opened Blocks
  import opened FileSystem
  import opened Transitions
  import opened Transfers
  import opened RecordAccess

  ghost predicate RestOfBlockZero(p: Dpb, disk: seq<Sector>, b: nat, q: nat)
  {
    forall s: nat :: s < |disk| && b * p.BlockRecs() <= s < (b + 1) * p.BlockRecs() && s != SectorOf(p, b, q) ==>
      disk[s] == ZeroSector()
  }

  lemma StoredInNewBlock(p: Dpb, v: Vol, f: FcbValue, e: Ent, rc: byte, b: nat, q: nat)
    requires Fits(p, v) && f.cur < 128 && b <= p.dsm && SectorOf(p, b, q) == SectorOf(p, b, f.cur)
    ensures RestOfBlockZero(p, StoreRecord(p, NewBlock(p, v, b, ZeroFilling), f, e, rc, b, ZeroFilling).0.disk, b, q)
  {
    BlockFits(p, b, f.cur);
    hide SectorOf, SetAloc, Advance;
  }

  /** Two records of a file in the same block of it. */
  lemma SameBlockSameGroup(p: Dpb, n: nat, m: nat)
    requires p.WellFormed() && n / p.BlockRecs() == m / p.BlockRecs()
    ensures p.GroupOf(n) == p.GroupOf(m)
    ensures p.RecIn(n) / p.BlockRecs() == p.RecIn(m) / p.BlockRecs()
    ensures p.RecIn(n) % p.BlockRecs() == p.RecIn(m) % p.BlockRecs() ==> n == m
  {
    var b, s := p.BlockRecs(), p.Slots();
    assert p.GroupRecs() == s * b;
    SplitTwice(n, b, s);
    SplitTwice(m, b, s);
    hide *;
    if p.RecIn(n) % b == p.RecIn(m) % b { DivMod(n, m, b); }
  }

  lemma SplitTwice(n: nat, b: nat, s: nat)
    requires 0 < b && 0 < s
    ensures n / (s * b) == (n / b) / s && (n % (s * b)) / b == (n / b) % s && (n % (s * b)) % b == n % b
  {
    var k, r := n / b, n % b;
    var g, t := k / s, k % s;
    assert n == k * b + r && k == g * s + t;
    assert n == g * (s * b) + (t * b + r);
    assert t * b + r < s * b by { NextMultiple(t, s, b); }
    DivMod2(n, g, t * b + r, s * b);
    DivMod2(t * b + r, t, r, b);
  }

  /** A zero-fill write that allocates a block leaves every other readable record of that block zero. */
  lemma ZeroFillTransfer(p: Dpb, w: World, pend: int, j: nat)
    requires Inv(p, w, pend) && (pend == -1 || pend == j) && j < |w.fcbs| && w.open[j] && w.fcbs[j].cur < 128
    requires var r := WriteRecord(p, w.v, w.fcbs[j], ZeroFilling); r.2 == 0 && r.0.alv != w.v.alv
    ensures var f := w.fcbs[j];
      var r := WriteRecord(p, w.v, f, ZeroFilling);
      RestIsZero(p, With(w, r.0, j, r.1), Key(f.ent), RecordOf(f))
  {
    var f := w.fcbs[j];
    var q := GroupRec(p, f.ent.extent, f.cur);
    PositionFacts(p, w, pend, j);
    assert AtPosition(p, f, q) && MapOk(p, f.ent.dskmap) && Fits(p, w.v);
    hide AtPosition, MapOk, GroupRec, WriteRecord, LeftBlock, Outward, Inv, FilesOf, Key, Group, RecordOf, BlockOf,
      MapAfter, RestOfBlockZero, RestIsZero;
    {
      var f := w.fcbs[j];
      var q := GroupRec(p, f.ent.extent, f.cur);
      PositionFacts(p, w, pend, j);
      PieceOfFcb(p, w, pend, j);
      assert AtPosition(p, f, q) && Fits(p, w.v);
      var i := At(p, Dir(p, w.v), f);
      if BlockOf(p, f.ent.dskmap, q) != 0 {
        hide AtPosition, MapOk, GroupRec, FcbAfter, WriteRecord, OnlyWrote;
        BlockInUse(p, w.v.alv, FilesOf(p, w), i, q);
        WriteInPlace(p, w.v, f, ZeroFilling, q);
      }
    }
    var b := NewBlockStored(p, w.v, f, q);
    var r := WriteRecord(p, w.v, f, ZeroFilling);
    assert Inv(p, With(w, r.0, j, r.1), -1) by { WriteChangesRecord(p, w, pend, j, ZeroFilling); }
    ZeroViews(p, With(w, r.0, j, r.1), j, f, q, b);
  }

  /** The block a zero-fill write took, the FCB and the block's sectors after it. */
  lemma NewBlockStored(p: Dpb, v: Vol, f: FcbValue, q: nat) returns (b: nat)
    requires Fits(p, v) && AtPosition(p, f, q) && BlockOf(p, f.ent.dskmap, q) == 0 && MapOk(p, f.ent.dskmap)
    requires WriteRecord(p, v, f, ZeroFilling).2 == 0
    ensures b <= p.dsm < 65536
    ensures var r := WriteRecord(p, v, f, ZeroFilling);
      && Key(r.1.ent) == Key(f.ent) && Group(p, r.1.ent) == Group(p, f.ent)
      && r.1.ent.dskmap == MapAfter(p, f.ent.dskmap, q, b) && RestOfBlockZero(p, r.0.disk, b, q)
  {
    assert f.cur < 128 && q < p.GroupRecs();
    hide AtPosition, MapOk, WriteRecord, LeftBlock, Outward, BlockOf, DriveAfter, RestOfBlockZero;
    {
      var left := LeftBlock(p, f);
      var got := Outward(p, v.alv, left, left);
      if got.Some? {
        var b := got.value;
        var e := SetBlk(p, Flagged(f.ent, q >= EndOf(p, f.ent.dskmap, f.ent.rc)), MapIndex(p, q), b);
        var rc: byte := RcAfter(p, f.ent.dskmap, f.ent.rc, q);
        assert WriteRecord(p, v, f, ZeroFilling) == StoreRecord(p, NewBlock(p, v, b, ZeroFilling), f, e, rc, b,
          ZeroFilling) by {
          hide StoreRecord, GetRc, EndOf, BlkIndx, BlockOf, Slot, Outward, SetBlk, NewBlock;
        }
        SameSector(p, b, q, f.cur);
        hide WriteRecord, LeftBlock, Outward, AtPosition, SetBlk, StoreRecord, NewBlock, RestOfBlockZero;
        StoredInNewBlock(p, v, f, e, rc, b, q);
      }
    }
    WriteNewBlock(p, v, f, ZeroFilling, q);
    b := Outward(p, v.alv, LeftBlock(p, f), LeftBlock(p, f)).value;
  }

  /** Every readable record that shares record `n`'s block, other than `n`, is zero. */
  ghost predicate RestIsZero(p: Dpb, x: World, id: FileId, n: nat)
    requires Fits(p, x.v)
  {
    forall m: nat :: m / p.BlockRecs() == n / p.BlockRecs() && m != n && FileView(p, x, id, m).Some? ==>
      FileView(p, x, id, m) == Some(ZeroSector())
  }

  lemma ZeroViews(p: Dpb, x: World, j: nat, f: FcbValue, q: nat, b: nat)
    requires Inv(p, x, -1) && j < |x.fcbs| && x.open[j] && q < p.GroupRecs() && b <= p.dsm && f.ent.extent < 32
    requires Key(x.fcbs[j].ent) == Key(f.ent) && Group(p, x.fcbs[j].ent) == Group(p, f.ent)
    requires BlockOf(p, f.ent.dskmap, q) == 0 && x.fcbs[j].ent.dskmap == MapAfter(p, f.ent.dskmap, q, b)
    requires p.GroupOf(RecordOf(f)) == Group(p, f.ent) && p.RecIn(RecordOf(f)) == q
    requires RestOfBlockZero(p, x.v.disk, b, q)
    ensures RestIsZero(p, x, Key(f.ent), RecordOf(f))
  {
    PieceOfFcb(p, x, -1, j);
    assert Fits(p, x.v);
    var c, i, n := FilesOf(p, x), At(p, Dir(p, x.v), x.fcbs[j]), RecordOf(f);
    hide Inv, FilesOf, At, Dir, Key, Group, RecordOf, MapAfter, BlockOf, Find, Readable;
    forall m: nat | m / p.BlockRecs() == n / p.BlockRecs() && m != n && FileView(p, x, Key(f.ent), m).Some?
      ensures FileView(p, x, Key(f.ent), m) == Some(ZeroSector())
    {
      SameBlockSameGroup(p, n, m);
      var q' := p.RecIn(m);
      SetSlotGet(p, f.ent.dskmap, MapIndex(p, q), b, MapIndex(p, q));
      SectorsApart(p, b, q, b, q');
      BlockFits(p, b, q');
      hide SectorOf;
    }
  }

  /** The same for the whole call, wherever it had to move first. */
  lemma ZeroFillWrite(p: Dpb, w: World, j: nat)
    requires Inv(p, w, -1) && j < |w.fcbs| && w.open[j]
    requires Creates(p, w, w.fcbs[j], ZeroFilling) ==> HasFreeEntry(Dir(p, w.v))
    requires var r := BdosRw(p, w.v, w.fcbs[j], false, ZeroFilling); r.2 == 0 && r.0.alv != w.v.alv
    ensures var f := w.fcbs[j];
      var r := BdosRw(p, w.v, f, false, ZeroFilling);
      RestIsZero(p, With(w, r.0, j, r.1), Key(f.ent), Wanted(f, ZeroFilling))
  {
    hide At, Dir, MapOk, FilesOf, HasFreeEntry, Inv, SameViews, FileView, Position, Wanted, PastMaximum, Key,
      WriteRecord, Moves, RecordOf, BdosRw, RestIsZero;
    PositionKeeps(p, w, j, false, ZeroFilling);
    InvBasics(p, w, -1);
    var f := w.fcbs[j];
    BdosRwShape(p, w.v, f, false, ZeroFilling);
    var n := Position(p, w.v, f, false, ZeroFilling);
    var x := With(w, n.0, j, n.1);
    var pend := if Inv(p, x, -1) then -1 else j;
    ZeroFillTransfer(p, x, pend, j);
    var r := WriteRecord(p, n.0, n.1, ZeroFilling);
    assert With(x, r.0, j, r.1) == With(w, r.0, j, r.1);
  }
}

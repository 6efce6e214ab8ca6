/** Block ownership and what a record write does to the files a medium holds. */
module Blocks {
  import opened DiskParams
  import opened DiskMap
  import opened Directory
  import opened Allocation
  import opened Files

  /** Block named by slot `k` of piece `i`, or 0. */
  function BlockAt(p: Dpb, c: seq<Piece>, i: nat, k: nat): nat
    requires i < |c| && k < p.Slots()
  {
    if c[i].Piece? then Slot(p, c[i].dskmap, k) else 0
  }

  /** No block is named twice. */
  ghost predicate Disjoint(p: Dpb, c: seq<Piece>)
  {
    forall i: nat, k: nat, i': nat, k': nat |
      i < |c| && k < p.Slots() && i' < |c| && k' < p.Slots() && BlockAt(p, c, i, k) != 0
      && BlockAt(p, c, i, k) == BlockAt(p, c, i', k') :: i == i' && k == k'
  }

  ghost predicate Named(p: Dpb, c: seq<Piece>, b: nat)
  {
    exists i: nat, k: nat :: i < |c| && k < p.Slots() && BlockAt(p, c, i, k) == b
  }

  /** The vector marks exactly the directory blocks and the named blocks. */
  ghost predicate VectorExact(p: Dpb, a: Vector, c: seq<Piece>)
    requires Sized(p, a)
  {
    forall b: nat :: b <= p.dsm ==> (a[b] <==> b < p.DirBlocks() || (b != 0 && Named(p, c, b)))
  }

  /** Every named block is a data block of the drive. */
  ghost predicate InData(p: Dpb, c: seq<Piece>)
  {
    forall i: nat, k: nat :: i < |c| && k < p.Slots() && BlockAt(p, c, i, k) != 0 ==>
      p.DirBlocks() <= BlockAt(p, c, i, k) <= p.dsm
  }

  /** Every allocated slot starts below the end of its piece. */
  ghost predicate Covered(p: Dpb, c: seq<Piece>)
    requires p.WellFormed()
  {
    forall i: nat, k: nat :: i < |c| && k < p.Slots() && BlockAt(p, c, i, k) != 0 ==>
      k * p.BlockRecs() < EndOf(p, c[i].dskmap, c[i].rc)
  }

  ghost predicate RcOk(c: seq<Piece>)
  {
    forall i :: 0 <= i < |c| && c[i].Piece? ==> c[i].rc <= 128
  }

  ghost predicate BlocksOk(p: Dpb, a: Vector, c: seq<Piece>)
  {
    && p.WellFormed() && Sized(p, a)
    && Disjoint(p, c) && InData(p, c) && VectorExact(p, a, c) && Covered(p, c) && RcOk(c) && Unique(c)
  }

  // ---------------------------------------------------------------- ends

  /** Extent and record of a group record number. */
  lemma GroupRecParts(p: Dpb, extent: byte, rec: byte)
    requires p.WellFormed() && rec < 128
    ensures GroupRec(p, extent, rec) / 128 == extent % p.Extents()
    ensures GroupRec(p, extent, rec) % 128 == rec
  {
  }

  /** `cur_rec >= get_rc` is the test that the record lies at or past the end. */
  lemma RcTestIsEndTest(p: Dpb, extent: byte, m: Map, rc: byte, rec: byte)
    requires p.WellFormed() && extent < 32 && rc <= 128 && rec < 128
    ensures rec >= GetRc(p, extent, m, rc) <==> GroupRec(p, extent, rec) >= EndOf(p, m, rc)
  {
    assert extent % 32 == extent;
    hide LastExt, Dpb.WellFormed, Dpb.Extents;
  }

  /** Extent that map slot `k` belongs to. */
  lemma SlotExtent(p: Dpb, q: nat)
    requires p.WellFormed() && q < p.GroupRecs()
    ensures MapIndex(p, q) / p.SlotsPerExtent() == q / 128
    ensures MapIndex(p, q) < p.Slots()
  {
    Shapes(p);
    var b := p.BlockRecs();
    if b == 8 {} else if b == 16 {} else if b == 32 {} else if b == 64 {} else {}
  }

  /** Dividing by the slots per extent keeps order. */
  lemma SlotOrder(p: Dpb, k: nat, l: nat)
    requires p.WellFormed() && k <= l
    ensures k / p.SlotsPerExtent() <= l / p.SlotsPerExtent()
  {
    Shapes(p);
    var s := p.SlotsPerExtent();
    if s == 16 {} else if s == 8 {} else if s == 4 {} else if s == 2 {} else {}
  }

  /** Record count `bdosrw` stores after writing record `q` of a group. */
  function RcAfter(p: Dpb, m: Map, rc: byte, q: nat): byte
    requires p.WellFormed()
  {
    if q >= EndOf(p, m, rc) then q % 128 + 1 else rc
  }

  /** The end moves to just past the written record, or stays. */
  lemma EndAfterWrite(p: Dpb, m: Map, rc: byte, q: nat, n: Map)
    requires p.WellFormed() && rc <= 128 && q < p.GroupRecs()
    requires if BlockOf(p, m, q) != 0 then n == m
             else exists b: nat :: 0 < b <= p.dsm && n == SetSlot(p, m, MapIndex(p, q), b)
    ensures EndOf(p, n, RcAfter(p, m, rc, q)) == if q >= EndOf(p, m, rc) then q + 1 else EndOf(p, m, rc)
    ensures RcAfter(p, m, rc, q) <= 128
  {
    var k := MapIndex(p, q);
    SlotExtent(p, q);
    LastSlotIsLast(p, m);
    if BlockOf(p, m, q) != 0 {
      SlotOrder(p, k, LastSlot(p, m));
    } else {
      var b: nat :| 0 < b <= p.dsm && n == SetSlot(p, m, k, b);
      var n := SetSlot(p, m, k, b);
      LastSlotIsLast(p, m);
      var l := if k > LastSlot(p, m) then k else LastSlot(p, m);
      forall j: nat | j < p.Slots() ensures Slot(p, n, j) == if j == k then b else Slot(p, m, j) {
        SetSlotGet(p, m, k, b, j);
      }
      LastSlotUnique(p, n, l);
      if k <= LastSlot(p, m) { SlotOrder(p, k, LastSlot(p, m)); }
      else { SlotOrder(p, LastSlot(p, m), k); }
    }
    hide LastSlot, BlockOf, SetSlot;
  }

  // ---------------------------------------------------------------- writing a record

  /** The piece after record `q` of it has been written into map `m`. */
  function PieceAfter(p: Dpb, x: Piece, q: nat, m: Map): Piece
    requires p.WellFormed() && x.Piece?
  {
    Piece(x.id, x.group, m, RcAfter(p, x.dskmap, x.rc, q))
  }

  /** The map after a write of record `q` that used block `b`: unchanged if `b` was already there. */
  function MapAfter(p: Dpb, m: Map, q: nat, b: nat): Map
    requires p.WellFormed() && q < p.GroupRecs() && b < 65536
  {
    if BlockOf(p, m, q) != 0 then m else SetSlot(p, m, MapIndex(p, q), b)
  }

  /** Block `b` holds record `q` of piece `i` already, or is free and about to. */
  ghost predicate BlockFor(p: Dpb, a: Vector, c: seq<Piece>, i: nat, q: nat, b: nat)
    requires p.WellFormed() && Sized(p, a)
  {
    && i < |c| && c[i].Piece? && q < p.GroupRecs() && 0 < b <= p.dsm
    && if BlockOf(p, c[i].dskmap, q) != 0 then b == BlockOf(p, c[i].dskmap, q) else !a[b]
  }

  /** Slot contents after the write. */
  lemma BlockAtAfter(p: Dpb, a: Vector, c: seq<Piece>, i: nat, q: nat, b: nat, i': nat, k': nat)
    requires p.WellFormed() && Sized(p, a) && p.dsm < 65536 && BlockFor(p, a, c, i, q, b)
    requires i' < |c| && k' < p.Slots()
    ensures MapIndex(p, q) < p.Slots()
    ensures BlockAt(p, c[i := PieceAfter(p, c[i], q, MapAfter(p, c[i].dskmap, q, b))], i', k')
         == if i' == i && k' == MapIndex(p, q) then b else BlockAt(p, c, i', k')
  {
    var k: nat := MapIndex(p, q);
    SetSlotGet(p, c[i].dskmap, k, b, k');
    hide Slot, SetSlot, RcAfter;
  }

  /** A record write keeps every block invariant; the vector gains `b`. */
  lemma WriteKeepsBlocks(p: Dpb, a: Vector, c: seq<Piece>, i: nat, q: nat, b: nat)
    requires BlocksOk(p, a, c) && BlockFor(p, a, c, i, q, b)
    ensures BlocksOk(p, SetAloc(p, a, b), c[i := PieceAfter(p, c[i], q, MapAfter(p, c[i].dskmap, q, b))])
  {
    var x := PieceAfter(p, c[i], q, MapAfter(p, c[i].dskmap, q, b));
    var c' := c[i := x];
    var k := MapIndex(p, q);
    assert b == BlockAt(p, c, i, k) || (BlockAt(p, c, i, k) == 0 && !a[b]);
    forall i': nat, k': nat | i' < |c| && k' < p.Slots()
      ensures BlockAt(p, c', i', k') == if i' == i && k' == k then b else BlockAt(p, c, i', k')
    {
      BlockAtAfter(p, a, c, i, q, b, i', k');
    }
    UniqueUpdate(c, i, x);
    hide BlockAt, PieceAfter, MapAfter, RcAfter, EndOf;
    if b != BlockAt(p, c, i, k) {
      forall i': nat, k': nat | i' < |c| && k' < p.Slots() ensures BlockAt(p, c, i', k') != b {
        assert Named(p, c, BlockAt(p, c, i', k'));
      }
    }
    WriteKeepsVector(p, a, c, c', i, k, b);
    WriteKeepsCovered(p, a, c, i, q, b);
  }

  lemma WriteKeepsVector(p: Dpb, a: Vector, c: seq<Piece>, c': seq<Piece>, i: nat, k: nat, b: nat)
    requires Sized(p, a) && VectorExact(p, a, c)
    requires |c'| == |c| && i < |c| && k < p.Slots() && 0 < b <= p.dsm
    requires b == BlockAt(p, c, i, k) || BlockAt(p, c, i, k) == 0
    requires forall i': nat, k': nat :: i' < |c| && k' < p.Slots() ==>
      BlockAt(p, c', i', k') == if i' == i && k' == k then b else BlockAt(p, c, i', k')
    ensures VectorExact(p, SetAloc(p, a, b), c')
  {
    hide BlockAt;
    forall x: nat | 0 < x <= p.dsm ensures Named(p, c', x) <==> Named(p, c, x) || x == b {
      if x == b { assert BlockAt(p, c', i, k) == x; }
      if Named(p, c, x) {
        var i': nat, k': nat :| i' < |c| && k' < p.Slots() && BlockAt(p, c, i', k') == x;
        assert BlockAt(p, c', i', k') == x;
      }
      if Named(p, c', x) {
        var i': nat, k': nat :| i' < |c| && k' < p.Slots() && BlockAt(p, c', i', k') == x;
        assert x == b || BlockAt(p, c, i', k') == x;
      }
    }
  }

  lemma WriteKeepsCovered(p: Dpb, a: Vector, c: seq<Piece>, i: nat, q: nat, b: nat)
    requires BlocksOk(p, a, c) && BlockFor(p, a, c, i, q, b)
    ensures var c' := c[i := PieceAfter(p, c[i], q, MapAfter(p, c[i].dskmap, q, b))]; Covered(p, c') && RcOk(c')
  {
    var x := PieceAfter(p, c[i], q, MapAfter(p, c[i].dskmap, q, b));
    EndAfterWrite(p, c[i].dskmap, c[i].rc, q, x.dskmap);
    forall k: nat | k < p.Slots() && Slot(p, x.dskmap, k) != 0
      ensures k * p.BlockRecs() < EndOf(p, x.dskmap, x.rc)
    {
      BlockAtAfter(p, a, c, i, q, b, i, k);
      if k == MapIndex(p, q) { QuotientBound(q, p.BlockRecs()); }
      else { assert BlockAt(p, c, i, k) != 0; }
    }
    hide EndOf, PieceAfter, MapAfter;
    var c' := c[i := x];
    forall i': nat, k: nat | i' < |c'| && k < p.Slots() && BlockAt(p, c', i', k) != 0
      ensures k * p.BlockRecs() < EndOf(p, c'[i'].dskmap, c'[i'].rc)
    {
      if i' != i { assert BlockAt(p, c, i', k) != 0; }
    }
  }

  lemma QuotientBound(q: nat, b: nat)
    requires 0 < b
    ensures (q / b) * b <= q
  {
  }

  /** What a file's reader sees of record `n`: its sector number, or None. */
  function Locate(p: Dpb, c: seq<Piece>, id: FileId, n: nat): (r: Option<nat>)
    requires p.WellFormed()
  {
    LocateAt(p, c, id, p.GroupOf(n), p.RecIn(n))
  }

  /** The same for record `q` of group `g`. */
  function LocateAt(p: Dpb, c: seq<Piece>, id: FileId, g: nat, q: nat): (r: Option<nat>)
    requires p.WellFormed() && q < p.GroupRecs()
  {
    var i := Find(c, id, g);
    if i < |c| && Readable(p, c[i].dskmap, c[i].rc, q)
    then Some(SectorOf(p, BlockOf(p, c[i].dskmap, q), q)) else None
  }

  lemma ViewIsLocate(p: Dpb, c: seq<Piece>, disk: seq<Sector>, id: FileId, n: nat)
    requires p.WellFormed() && InData(p, c) && |disk| == (p.dsm + 1) * p.BlockRecs()
    ensures Locate(p, c, id, n).Some? ==> DataSector(p, Locate(p, c, id, n).value)
    ensures View(p, c, disk, id, n) == match Locate(p, c, id, n) case None => None case Some(s) => Some(disk[s])
  {
    var q, i := p.RecIn(n), Find(c, id, p.GroupOf(n));
    if i < |c| && Readable(p, c[i].dskmap, c[i].rc, q) {
      var b := BlockAt(p, c, i, MapIndex(p, q));
      SectorInBlock(p, b, q);
      hide BlockOf, Readable, Find, BlockAt, SectorOf;
    }
  }

  /** Sectors of data blocks. */
  ghost predicate DataSector(p: Dpb, s: nat)
  {
    p.DirBlocks() * p.BlockRecs() <= s < (p.dsm + 1) * p.BlockRecs()
  }

  lemma SectorInBlock(p: Dpb, b: nat, q: nat)
    requires p.DirBlocks() <= b <= p.dsm
    ensures DataSector(p, SectorOf(p, b, q))
    ensures b * p.BlockRecs() <= SectorOf(p, b, q) < (b + 1) * p.BlockRecs() <= (p.dsm + 1) * p.BlockRecs()
  {
    assert p.DirBlocks() * p.BlockRecs() <= b * p.BlockRecs();
    assert (b + 1) * p.BlockRecs() <= (p.dsm + 1) * p.BlockRecs();
  }

  predicate MayTouch(p: Dpb, b: nat, q: nat, newBlock: bool, s: nat)
  {
    s == SectorOf(p, b, q) || (newBlock && b * p.BlockRecs() <= s < (b + 1) * p.BlockRecs())
  }

  /** `disk'` differs from `disk` only in the sectors a write to record `q` may touch: its own sector
      and, when block `b` is new, the rest of that block. */
  ghost predicate OnlyWrote(p: Dpb, disk: seq<Sector>, disk': seq<Sector>, b: nat, q: nat, newBlock: bool, data: Sector)
  {
    && |disk'| == |disk| == (p.dsm + 1) * p.BlockRecs()
    && b <= p.dsm && SectorOf(p, b, q) < |disk| && disk'[SectorOf(p, b, q)] == data
    && forall s: nat :: s < |disk| && !MayTouch(p, b, q, newBlock, s) ==> disk'[s] == disk[s]
  }

  /** A file is changed only at the record written: other records that could be read keep their
      data, and nothing at all changes outside the written group. */
  ghost predicate WroteRecord(p: Dpb, c: seq<Piece>, disk: seq<Sector>, c': seq<Piece>, disk': seq<Sector>,
                              id: FileId, n: nat, data: Sector)
    requires p.WellFormed()
  {
    && View(p, c', disk', id, n) == Some(data)
    && (forall id': FileId, m: nat :: (id' != id || m != n) && View(p, c, disk, id', m).Some? ==>
          View(p, c', disk', id', m) == View(p, c, disk, id', m))
    && (forall id': FileId, m: nat :: id' != id || p.GroupOf(m) != p.GroupOf(n) ==>
          View(p, c', disk', id', m) == View(p, c, disk, id', m))
  }

  /** Where the records are after a write. */
  lemma LocateAfter(p: Dpb, a: Vector, c: seq<Piece>, i: nat, n: nat, b: nat, id': FileId, m: nat)
    requires BlocksOk(p, a, c) && p.dsm < 65536 && BlockFor(p, a, c, i, p.RecIn(n), b)
    requires c[i].group == p.GroupOf(n)
    ensures var q := p.RecIn(n);
      var c' := c[i := PieceAfter(p, c[i], q, MapAfter(p, c[i].dskmap, q, b))];
      && Locate(p, c', c[i].id, n) == Some(SectorOf(p, b, q))
      && (id' != c[i].id || p.GroupOf(m) != c[i].group ==> Locate(p, c', id', m) == Locate(p, c, id', m))
      && (Locate(p, c, id', m).Some? ==> Locate(p, c', id', m) == Locate(p, c, id', m))
  {
    assert p.WellFormed() && Sized(p, a) && Unique(c) && c[i].rc <= 128;
    var q := p.RecIn(n);
    LocateAtAfter(p, a, c, i, q, b, c[i].id, c[i].group, q);
    LocateAtAfter(p, a, c, i, q, b, id', p.GroupOf(m), p.RecIn(m));
    hide BlocksOk, BlockFor, PieceAfter, MapAfter, LocateAt, SectorOf, Unique, Dpb.WellFormed;
  }

  lemma LocateAtAfter(p: Dpb, a: Vector, c: seq<Piece>, i: nat, q: nat, b: nat, id: FileId, g: nat, q': nat)
    requires p.WellFormed() && Sized(p, a) && Unique(c) && p.dsm < 65536 && BlockFor(p, a, c, i, q, b)
    requires q' < p.GroupRecs() && c[i].rc <= 128
    ensures var c' := c[i := PieceAfter(p, c[i], q, MapAfter(p, c[i].dskmap, q, b))];
      && (id == c[i].id && g == c[i].group && q' == q ==> LocateAt(p, c', id, g, q') == Some(SectorOf(p, b, q)))
      && (id != c[i].id || g != c[i].group ==> LocateAt(p, c', id, g, q') == LocateAt(p, c, id, g, q'))
      && (LocateAt(p, c, id, g, q').Some? ==> LocateAt(p, c', id, g, q') == LocateAt(p, c, id, g, q'))
  {
    var c' := c[i := PieceAfter(p, c[i], q, MapAfter(p, c[i].dskmap, q, b))];
    FindUnique(c, i, c[i].id, c[i].group);
    FindIs(c', id, g, Find(c, id, g));
    var m := MapAfter(p, c[i].dskmap, q, b);
    EndAfterWrite(p, c[i].dskmap, c[i].rc, q, m);
    QuotientInMap(p, q');
    BlockAtAfter(p, a, c, i, q, b, i, MapIndex(p, q'));
    if MapIndex(p, q) == MapIndex(p, q') { SameIndexSameBlock(p, c[i].dskmap, q, q'); }
    hide BlockOf, PieceAfter, MapAfter, Find, SectorOf, Readable, BlockFor, Dpb.WellFormed, Dpb.GroupRecs;
  }

  lemma SameIndexSameBlock(p: Dpb, m: Map, q: nat, q': nat)
    requires p.WellFormed() && q < p.GroupRecs() && q' < p.GroupRecs() && MapIndex(p, q) == MapIndex(p, q')
    ensures BlockOf(p, m, q) == BlockOf(p, m, q')
  {
  }

  lemma PieceBlock(p: Dpb, c: seq<Piece>, i: nat, q: nat)
    requires p.WellFormed() && i < |c| && c[i].Piece? && q < p.GroupRecs()
    ensures MapIndex(p, q) < p.Slots() && BlockAt(p, c, i, MapIndex(p, q)) == BlockOf(p, c[i].dskmap, q)
  {
    hide Slot;
  }

  lemma SameRecord(p: Dpb, n: nat, m: nat)
    requires p.WellFormed()
    requires p.GroupOf(n) == p.GroupOf(m)
    requires p.RecIn(n) / p.BlockRecs() == p.RecIn(m) / p.BlockRecs()
    requires p.RecIn(n) % p.BlockRecs() == p.RecIn(m) % p.BlockRecs()
    ensures n == m
  {
    DivMod(p.RecIn(n), p.RecIn(m), p.BlockRecs());
    DivMod(n, m, p.GroupRecs());
  }

  lemma DivMod(x: nat, y: nat, r: nat)
    requires 0 < r && x / r == y / r && x % r == y % r
    ensures x == y
  {
    assert x == r * (x / r) + x % r;
    assert y == r * (y / r) + y % r;
  }

  lemma SectorsApart(p: Dpb, b: nat, q: nat, b': nat, q': nat)
    requires b != b' || q % p.BlockRecs() != q' % p.BlockRecs()
    ensures SectorOf(p, b, q) != SectorOf(p, b', q')
    ensures b != b' ==> !(b * p.BlockRecs() <= SectorOf(p, b', q') < (b + 1) * p.BlockRecs())
  {
    if SectorOf(p, b, q) == SectorOf(p, b', q') { SectorOfInjective(p, b, q, b', q'); }
    if b < b' { NextMultiple(b, b', p.BlockRecs()); }
    if b' < b { NextMultiple(b', b, p.BlockRecs()); }
  }

  /** The effect of a record write on every file of the drive. */
  lemma WriteIsLocal(p: Dpb, a: Vector, c: seq<Piece>, i: nat, n: nat, b: nat,
                     disk: seq<Sector>, disk': seq<Sector>, data: Sector)
    requires BlocksOk(p, a, c) && BlockFor(p, a, c, i, p.RecIn(n), b)
    requires c[i].group == p.GroupOf(n)
    requires OnlyWrote(p, disk, disk', b, p.RecIn(n), BlockOf(p, c[i].dskmap, p.RecIn(n)) == 0, data)
    ensures var q := p.RecIn(n);
      WroteRecord(p, c, disk, c[i := PieceAfter(p, c[i], q, MapAfter(p, c[i].dskmap, q, b))], disk', c[i].id, n, data)
  {
    var q := p.RecIn(n);
    var c' := c[i := PieceAfter(p, c[i], q, MapAfter(p, c[i].dskmap, q, b))];
    WriteKeepsBlocks(p, a, c, i, q, b);
    LocateAfter(p, a, c, i, n, b, c[i].id, n);
    ViewIsLocate(p, c', disk', c[i].id, n);
    forall id': FileId, m: nat
      ensures (id' != c[i].id || m != n) && View(p, c, disk, id', m).Some? ==>
                View(p, c', disk', id', m) == View(p, c, disk, id', m)
      ensures id' != c[i].id || p.GroupOf(m) != p.GroupOf(n) ==>
                View(p, c', disk', id', m) == View(p, c, disk, id', m)
    {
      ViewElsewhere(p, a, c, i, n, b, disk, disk', data, id', m);
    }
  }

  lemma ViewElsewhere(p: Dpb, a: Vector, c: seq<Piece>, i: nat, n: nat, b: nat,
                      disk: seq<Sector>, disk': seq<Sector>, data: Sector, id': FileId, m: nat)
    requires BlocksOk(p, a, c) && BlockFor(p, a, c, i, p.RecIn(n), b)
    requires c[i].group == p.GroupOf(n)
    requires OnlyWrote(p, disk, disk', b, p.RecIn(n), BlockOf(p, c[i].dskmap, p.RecIn(n)) == 0, data)
    ensures var q := p.RecIn(n);
      var c' := c[i := PieceAfter(p, c[i], q, MapAfter(p, c[i].dskmap, q, b))];
      && ((id' != c[i].id || m != n) && View(p, c, disk, id', m).Some? ==>
            View(p, c', disk', id', m) == View(p, c, disk, id', m))
      && (id' != c[i].id || p.GroupOf(m) != p.GroupOf(n) ==>
            View(p, c', disk', id', m) == View(p, c, disk, id', m))
  {
    var q := p.RecIn(n);
    var c' := c[i := PieceAfter(p, c[i], q, MapAfter(p, c[i].dskmap, q, b))];
    WriteKeepsBlocks(p, a, c, i, q, b);
    LocateAfter(p, a, c, i, n, b, id', m);
    ViewIsLocate(p, c, disk, id', m);
    ViewIsLocate(p, c', disk', id', m);
    if (id' != c[i].id || m != n) && Locate(p, c, id', m).Some? {
      {
        var q, q' := p.RecIn(n), p.RecIn(m);
        var k, k' := MapIndex(p, q), MapIndex(p, q');
        var i' := Find(c, id', p.GroupOf(m));
        var b' := BlockAt(p, c, i', k');
        if b' == b {
          PieceBlock(p, c, i, q);
          assert Named(p, c, BlockAt(p, c, i', k'));
          assert i' == i && k' == k;
          if q' % p.BlockRecs() == q % p.BlockRecs() { SameRecord(p, n, m); }
        }
        SectorsApart(p, b, q, b', q');
      }
    }
    hide Locate, View, BlocksOk, PieceAfter, MapAfter, BlockOf;
  }

  // ---------------------------------------------------------------- an empty piece

  lemma EmptySlots(p: Dpb, k: nat)
    requires k < p.Slots()
    ensures Slot(p, EMPTY_MAP, k) == 0
  {
  }

  /** Creating an empty piece names no block and makes no record readable. */
  lemma EmptyPiece(p: Dpb, a: Vector, c: seq<Piece>, k: nat, x: Piece)
    requires BlocksOk(p, a, c) && k < |c| && c[k] == Gap
    requires x.Piece? && x.dskmap == EMPTY_MAP && x.rc == 0 && Find(c, x.id, x.group) == |c|
    ensures BlocksOk(p, a, c[k := x])
    ensures forall id: FileId, n: nat :: Locate(p, c[k := x], id, n) == Locate(p, c, id, n)
  {
    var c' := c[k := x];
    forall i: nat, s: nat | i < |c| && s < p.Slots() ensures BlockAt(p, c', i, s) == BlockAt(p, c, i, s) {
      EmptySlots(p, s);
    }
    UniqueUpdate(c, k, x);
    forall b: nat ensures Named(p, c', b) <==> Named(p, c, b) {
      if Named(p, c, b) {
        var i: nat, s: nat :| i < |c| && s < p.Slots() && BlockAt(p, c, i, s) == b;
        assert BlockAt(p, c', i, s) == b;
      }
      if Named(p, c', b) {
        var i: nat, s: nat :| i < |c| && s < p.Slots() && BlockAt(p, c', i, s) == b;
        assert BlockAt(p, c, i, s) == b;
      }
    }
    forall id: FileId, n: nat ensures Locate(p, c', id, n) == Locate(p, c, id, n) {
      {
        var g, q := p.GroupOf(n), p.RecIn(n);
        EmptySlots(p, MapIndex(p, q));
        FindIs(c[k := x], id, g, if IsFor(x, id, g) then k else Find(c, id, g));
      }
    }
  }

}

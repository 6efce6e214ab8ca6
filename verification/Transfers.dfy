/** The transfer half of `bdosrw` under the invariant: a read returns the record of the file it names,
    a write changes that record and nothing else that could be read. */
module Transfers {
  import opened DiskParams
  import opened DiskMap
  import opened Directory
  import opened Allocation
  import opened Volume
  import opened RecordIo
  import opened Scanning
  import opened Files
  import opened Blocks
  import opened FileSystem
  import opened Transitions

  /** Record number an FCB is positioned at. */
  function RecordOf(f: FcbValue): nat { (f.ent.s2 % 64) * 4096 + f.ent.extent * 128 + f.cur }

  lemma RecordOfFacts(p: Dpb, f: FcbValue)
    requires p.WellFormed() && f.ent.extent < 32 && f.cur < 128
    ensures p.GroupOf(RecordOf(f)) == Group(p, f.ent)
    ensures p.RecIn(RecordOf(f)) == GroupRec(p, f.ent.extent, f.cur)
  {
    RecordSplits(p, f.ent, f.cur);
    BlkIndxIsDivision(p, f.ent.extent, f.cur);
    Unsplit(Group(p, f.ent), GroupRec(p, f.ent.extent, f.cur), p.GroupRecs());
  }

  lemma Unsplit(g: nat, q: nat, r: nat)
    requires q < r
    ensures (g * r + q) / r == g && (g * r + q) % r == q
  {
    DivMod2(g * r + q, g, q, r);
  }

  /** FCB `j` stands for piece `i` of the files, and its position is record `RecordOf` of its file. */
  lemma PieceOfFcb(p: Dpb, w: World, pend: int, j: nat)
    requires Inv(p, w, pend) && j < |w.fcbs| && w.open[j]
    ensures var f := w.fcbs[j];
      var i := At(p, Dir(p, w.v), f);
      && i <= p.drm && FilesOf(p, w)[i] == FcbPiece(p, f)
      && Find(FilesOf(p, w), Key(f.ent), Group(p, f.ent)) == i
  {
    var s := StateOf(p, w);
    var f := w.fcbs[j];
    assert Owns(p, s, j, At(p, s.d, f));
    OwnedPiece(p, s, j, At(p, s.d, f));
    ContentsKeys(p, s, Key(f.ent), Group(p, f.ent));
  }

  /** The code's tests at the FCB's position, in terms of the file. */
  lemma PositionFacts(p: Dpb, w: World, pend: int, j: nat)
    requires Inv(p, w, pend) && j < |w.fcbs| && w.open[j] && w.fcbs[j].cur < 128
    ensures var f := w.fcbs[j];
      var q := GroupRec(p, f.ent.extent, f.cur);
      && q < p.GroupRecs() && BlkIndx(p, f.ent.extent, f.cur) == MapIndex(p, q) < p.Slots()
      && Slot(p, f.ent.dskmap, BlkIndx(p, f.ent.extent, f.cur)) == BlockOf(p, f.ent.dskmap, q)
      && (f.cur >= GetRc(p, f.ent.extent, f.ent.dskmap, f.ent.rc) <==> q >= EndOf(p, f.ent.dskmap, f.ent.rc))
      && q % 128 == f.cur && q % p.BlockRecs() == f.cur % p.BlockRecs()
      && p.GroupOf(RecordOf(f)) == Group(p, f.ent) && p.RecIn(RecordOf(f)) == q
      && f.ent.extent < 32 && f.ent.rc <= 128
  {
    var f := w.fcbs[j];
    assert f.ent.extent < 32 && f.ent.rc <= 128;
    BlkIndxIsDivision(p, f.ent.extent, f.cur);
    RcTestIsEndTest(p, f.ent.extent, f.ent.dskmap, f.ent.rc, f.cur);
    RecordOfFacts(p, f);
    GroupRecParts(p, f.ent.extent, f.cur);
    hide GetRc, EndOf, Inv, GroupRec, BlkIndx;
  }

  // ---------------------------------------------------------------- reading

  /** A change to the record fields of an FCB, or to buffers, is invisible. */
  lemma CursorKeeps(p: Dpb, w: World, pend: int, j: nat, v: Vol, g: FcbValue)
    requires Inv(p, w, pend) && (pend == -1 || pend == j)
    requires j < |w.fcbs| && w.open[j] && g.ent == w.fcbs[j].ent && Quiet(w.v, v)
    ensures var x := With(w, v, j, g);
      Inv(p, x, pend) && FilesOf(p, x) == FilesOf(p, w) && SameViews(p, w, x)
  {
    QuietKeeps(p, w, v, pend);
    var s := StateOf(p, w);
    var i := At(p, s.d, w.fcbs[j]);
    PieceOfFcb(p, w, pend, j);
    assert FcbOk(p, w.user, g) && Tracks(p, g, s.d[i], pend == j);
    hide FcbOk, Tracks, EntOk;
    Update(p, w.user, s, pend, j, g, pend);
    var x := With(w, v, j, g);
    SteadyDir(p, w.v, v);
    assert StateOf(p, x) == s.(fcbs := s.fcbs[j := g]);
    assert Contents(p, s)[i := FcbPiece(p, g)] == Contents(p, s);
    ViewsFromData(p, w, x);
  }

  /** A read succeeds exactly when the file has the record, and returns it. */
  lemma ReadReturnsRecord(p: Dpb, w: World, j: nat, mode: Mode)
    requires Inv(p, w, -1) && j < |w.fcbs| && w.open[j] && w.fcbs[j].cur < 128
    ensures var f := w.fcbs[j];
      var r := ReadRecord(p, w.v, f, mode);
      var x := With(w, r.0, j, r.1);
      && FileView(p, w, Key(f.ent), RecordOf(f)) == (if r.2 == 0 then Some(r.0.dma) else None)
      && (r.2 == 0 || (r.2 == 1 && r.0 == w.v && r.1 == f))
      && Inv(p, x, -1) && FilesOf(p, x) == FilesOf(p, w) && SameViews(p, w, x)
      && r.1.ent == f.ent && r.1.cur == if r.2 == 0 && mode == Sequential then f.cur + 1 else f.cur
  {
    var f := w.fcbs[j];
    var r := ReadRecord(p, w.v, f, mode);
    PositionFacts(p, w, -1, j);
    PieceOfFcb(p, w, -1, j);
    var q := GroupRec(p, f.ent.extent, f.cur);
    SameSector(p, BlockOf(p, f.ent.dskmap, q), q, f.cur);
    CursorKeeps(p, w, -1, j, r.0, r.1);
    hide Inv, SameViews, FilesOf, Key, Group, GetRc, EndOf, BlkIndx, Slot, BlockOf, GroupRec, Dir, At, RecordOf;
  }

  lemma SameSector(p: Dpb, b: nat, q: nat, c: nat)
    requires q % p.BlockRecs() == c % p.BlockRecs()
    ensures SectorOf(p, b, q) == SectorOf(p, b, c)
  {
  }

  // ---------------------------------------------------------------- writing

  /** The FCB `g` that `bdosrw` leaves after writing group record `q` of FCB `f` into block `b`: the
      write flag is clear if the map or the record count changed. */
  ghost predicate FcbAfter(p: Dpb, f: FcbValue, g: FcbValue, q: nat, b: nat)
    requires p.WellFormed() && q < p.GroupRecs() && b < 65536
  {
    && g.ent.entry == f.ent.entry && g.ent.name == f.ent.name && g.ent.extent == f.ent.extent
    && g.ent.s2 % 64 == f.ent.s2 % 64
    && g.ent.dskmap == MapAfter(p, f.ent.dskmap, q, b) && g.ent.rc == RcAfter(p, f.ent.dskmap, f.ent.rc, q)
    && (g.ent.s2 < 128 || (g.ent.s2 == f.ent.s2 && BlockOf(p, f.ent.dskmap, q) != 0
                            && q < EndOf(p, f.ent.dskmap, f.ent.rc)))
  }

  lemma EmptyLast(p: Dpb, q: nat)
    requires p.WellFormed() && q < p.GroupRecs()
    ensures LastExt(p, EMPTY_MAP) == 0 && BlockOf(p, EMPTY_MAP, q) == 0
  {
    EmptySlots(p, MapIndex(p, q));
    assert LastSlot(p, EMPTY_MAP) == 0 by {
      forall k: nat | k < p.Slots() ensures Slot(p, EMPTY_MAP, k) == 0 { EmptySlots(p, k); }
      LastSlotUnique(p, EMPTY_MAP, 0);
    }
    Shapes(p);
  }

  lemma ExtendsAfter(p: Dpb, d: Map, m: Map, q: nat, b: nat)
    requires p.WellFormed() && q < p.GroupRecs() && 0 < b <= p.dsm && Extends(p, d, m)
    ensures Extends(p, d, MapAfter(p, m, q, b))
  {
    var t := MapIndex(p, q);
    forall k: nat | k < p.Slots() && Slot(p, d, k) != 0 ensures Slot(p, MapAfter(p, m, q, b), k) == Slot(p, d, k) {
      SetSlotGet(p, m, t, b, k);
      hide Slot, SetSlot;
    }
  }

  lemma FcbOkAfter(p: Dpb, user: byte, f: FcbValue, g: FcbValue, q: nat, b: nat)
    requires p.WellFormed() && q < p.GroupRecs() && p.DirBlocks() <= b <= p.dsm
    requires FcbOk(p, user, f) && FcbAfter(p, f, g, q, b)
    ensures FcbOk(p, user, g) && Key(g.ent) == Key(f.ent) && Group(p, g.ent) == Group(p, f.ent)
  {
    forall k: nat | k < p.Slots()
      ensures Slot(p, g.ent.dskmap, k) == 0 || p.DirBlocks() <= Slot(p, g.ent.dskmap, k) <= p.dsm
    {
      if BlockOf(p, f.ent.dskmap, q) == 0 { SetSlotGet(p, f.ent.dskmap, MapIndex(p, q), b, k); }
    }
  }

  /** Drive `v` after a transfer into block `b`. */
  ghost predicate DriveAfter(p: Dpb, v: Vol, r: Vol, b: nat, q: nat, newBlock: bool)
    requires Fits(p, v)
  {
    && Fits(p, r)
    && r == v.(disk := r.disk, alv := SetAloc(p, v.alv, b), dirbuf := r.dirbuf)
    && OnlyWrote(p, v.disk, r.disk, b, q, newBlock, v.dma)
  }

  /** The step every successful write takes. */
  lemma WriteApplies(p: Dpb, w: World, pend: int, j: nat, b: nat, r: Vol, g: FcbValue)
    requires Inv(p, w, pend) && (pend == -1 || pend == j) && j < |w.fcbs| && w.open[j] && w.fcbs[j].cur < 128
    requires var f := w.fcbs[j];
      var q := GroupRec(p, f.ent.extent, f.cur);
      && q < p.GroupRecs() && At(p, Dir(p, w.v), f) <= p.drm
      && BlockFor(p, w.v.alv, FilesOf(p, w), At(p, Dir(p, w.v), f), q, b)
      && FcbAfter(p, f, g, q, b)
      && DriveAfter(p, w.v, r, b, q, BlockOf(p, f.ent.dskmap, q) == 0)
    ensures var f := w.fcbs[j];
      var x := With(w, r, j, g);
      && Inv(p, x, -1)
      && WroteRecord(p, FilesOf(p, w), w.v.disk, FilesOf(p, x), x.v.disk, Key(f.ent), RecordOf(f), w.v.dma)
  {
    var f := w.fcbs[j];
    var q := GroupRec(p, f.ent.extent, f.cur);
    var s := StateOf(p, w);
    var i := At(p, s.d, f);
    var c := FilesOf(p, w);
    var x := With(w, r, j, g);
    PositionFacts(p, w, pend, j);
    PieceOfFcb(p, w, pend, j);
    WriteFiles(p, w, pend, j, b, g);
    DataIsNotDirectory(p, w.v, r, b, q, BlockOf(p, f.ent.dskmap, q) == 0);
    assert StateOf(p, x) == s.(fcbs := s.fcbs[j := g]);
    var piece := PieceAfter(p, c[i], q, MapAfter(p, c[i].dskmap, q, b));
    assert FcbPiece(p, g) == piece;
    hide Contents, PieceAfter, MapAfter, BlockOf, EndOf, FilesOk, FcbAfter, GroupRec, Dir, WroteRecord;
    WriteKeepsBlocks(p, w.v.alv, c, i, q, b);
    WriteIsLocal(p, w.v.alv, c, i, RecordOf(f), b, w.v.disk, r.disk, w.v.dma);
  }

  /** The directory-side half of a write. */
  lemma WriteFiles(p: Dpb, w: World, pend: int, j: nat, b: nat, g: FcbValue)
    requires Inv(p, w, pend) && (pend == -1 || pend == j) && j < |w.fcbs| && w.open[j] && w.fcbs[j].cur < 128
    requires var f := w.fcbs[j];
      var q := GroupRec(p, f.ent.extent, f.cur);
      && q < p.GroupRecs() && At(p, Dir(p, w.v), f) <= p.drm
      && BlockFor(p, w.v.alv, FilesOf(p, w), At(p, Dir(p, w.v), f), q, b)
      && FcbAfter(p, f, g, q, b)
    ensures var s := StateOf(p, w);
      var t := s.(fcbs := s.fcbs[j := g]);
      && FilesOk(p, w.user, t, -1)
      && Contents(p, t) == Contents(p, s)[At(p, s.d, w.fcbs[j]) := FcbPiece(p, g)]
      && Key(g.ent) == Key(w.fcbs[j].ent) && Group(p, g.ent) == Group(p, w.fcbs[j].ent)
  {
    var f := w.fcbs[j];
    var q := GroupRec(p, f.ent.extent, f.cur);
    var s := StateOf(p, w);
    var i := At(p, s.d, f);
    PieceOfFcb(p, w, pend, j);
    GroupRecParts(p, f.ent.extent, f.cur);
    PieceBlock(p, FilesOf(p, w), i, q);
    FcbOkAfter(p, w.user, f, g, q, b);
    var m, n := f.ent.dskmap, g.ent.dskmap;
    EndAfterWrite(p, m, f.ent.rc, q, n);
    ExtendsAfter(p, s.d[i].dskmap, m, q, b);
    if (j == pend) { EmptyLast(p, q); }
    hide FcbOk, Tracks, EntOk, FcbAfter, BlockFor, BlocksOk, GroupRec;
    Update(p, w.user, s, pend, j, g, -1);
  }

  /** A transfer keeps directory, checksums and high-water mark. */
  lemma DataIsNotDirectory(p: Dpb, v: Vol, r: Vol, b: nat, q: nat, newBlock: bool)
    requires Steady(p, v) && DriveAfter(p, v, r, b, q, newBlock) && p.DirBlocks() <= b <= p.dsm
    ensures Steady(p, r) && Dir(p, r) == Dir(p, v)
  {
    DirectoryBelow(p, b, q);
    forall s: nat | s < p.DirSectors() ensures r.disk[s] == v.disk[s] {
      assert !MayTouch(p, b, q, newBlock, s);
    }
    hide SectorOf, MayTouch, Dir, OnlyWrote;
    DataWriteEffect(p, v, r);
  }

  lemma DirectoryBelow(p: Dpb, b: nat, q: nat)
    requires p.WellFormed() && p.DirBlocks() <= b <= p.dsm
    ensures p.DirSectors() <= b * p.BlockRecs() <= SectorOf(p, b, q)
  {
    hide Dpb.WellFormed, Dpb.DirBlocks, Dpb.DirSectors, Dpb.BlockRecs;
    DirectoryFits(p);
    if p.DirBlocks() < b { NextMultiple(p.DirBlocks(), b, p.BlockRecs()); }
  }

  // ---------------------------------------------------------------- the code's three ways to write

  /** What the code computes at its position, in terms of the group record `q`. */
  ghost predicate AtPosition(p: Dpb, f: FcbValue, q: nat)
    requires p.WellFormed()
  {
    && f.cur < 128 && f.ent.rc <= 128 && q < p.GroupRecs()
    && BlkIndx(p, f.ent.extent, f.cur) == MapIndex(p, q) < p.Slots()
    && Slot(p, f.ent.dskmap, BlkIndx(p, f.ent.extent, f.cur)) == BlockOf(p, f.ent.dskmap, q)
    && (f.cur >= GetRc(p, f.ent.extent, f.ent.dskmap, f.ent.rc) <==> q >= EndOf(p, f.ent.dskmap, f.ent.rc))
    && q % 128 == f.cur && q % p.BlockRecs() == f.cur % p.BlockRecs()
  }

  /** The record already has a block. */
  lemma WriteInPlace(p: Dpb, v: Vol, f: FcbValue, mode: Mode, q: nat)
    requires Fits(p, v) && AtPosition(p, f, q) && BlockOf(p, f.ent.dskmap, q) != 0
    requires p.DirBlocks() <= BlockOf(p, f.ent.dskmap, q) <= p.dsm && v.alv[BlockOf(p, f.ent.dskmap, q)]
    ensures var b := BlockOf(p, f.ent.dskmap, q);
      var r := WriteRecord(p, v, f, mode);
      r.2 == 0 && FcbAfter(p, f, r.1, q, b) && DriveAfter(p, v, r.0, b, q, false)
  {
    var b := BlockOf(p, f.ent.dskmap, q);
    var past := q >= EndOf(p, f.ent.dskmap, f.ent.rc);
    var e := Flagged(f.ent, past);
    var rc: byte := RcAfter(p, f.ent.dskmap, f.ent.rc, q);
    assert WriteRecord(p, v, f, mode) == StoreRecord(p, v, f, e, rc, b, mode) by {
      hide StoreRecord, GetRc, EndOf, BlkIndx, BlockOf, Slot, Outward;
    }
    SameSector(p, b, q, f.cur);
    assert SetAloc(p, v.alv, b) == v.alv;
    StoreDrive(p, v, v, f, e, rc, b, mode, q, false);
    StoreFcb(p, f, e, rc, b, mode, q);
    hide WriteRecord, FcbAfter, DriveAfter;
  }

  /** The record needs a new block and there is one. */
  lemma WriteNewBlock(p: Dpb, v: Vol, f: FcbValue, mode: Mode, q: nat)
    requires Fits(p, v) && AtPosition(p, f, q) && BlockOf(p, f.ent.dskmap, q) == 0 && MapOk(p, f.ent.dskmap)
    ensures var left := LeftBlock(p, f);
      var got := Outward(p, v.alv, left, left);
      var r := WriteRecord(p, v, f, mode);
      match got
      case None => r == (v, r.1, 2) && SameButFlag(f, r.1)
      case Some(b) => r.2 == 0 && FcbAfter(p, f, r.1, q, b) && DriveAfter(p, v, r.0, b, q, true)
  {
    hide GetRc, BlkIndx, Slot, SetBlk, SetSlot;
    var left := LeftBlock(p, f);
    var got := Outward(p, v.alv, left, left);
    if got.Some? {
      var b := got.value;
      var e := SetBlk(p, Flagged(f.ent, q >= EndOf(p, f.ent.dskmap, f.ent.rc)), MapIndex(p, q), b);
      var rc: byte := RcAfter(p, f.ent.dskmap, f.ent.rc, q);
      assert WriteRecord(p, v, f, mode) == StoreRecord(p, NewBlock(p, v, b, mode), f, e, rc, b, mode) by {
        hide StoreRecord, GetRc, EndOf, BlkIndx, BlockOf, Slot, Outward, SetBlk, NewBlock;
      }
      SameSector(p, b, q, f.cur);
      NewBlockDrive(p, v, b, mode, q);
      StoreDrive(p, v, NewBlock(p, v, b, mode), f, e, rc, b, mode, q, true);
      StoreFcb(p, f, e, rc, b, mode, q);
      hide WriteRecord, FcbAfter, DriveAfter;
    } else {
      hide StoreRecord, GetRc, EndOf, BlkIndx, BlockOf, Slot, Outward, SetBlk, NewBlock;
    }
  }

  /** Only block `b` differs between `v` and `u`, the drive about to be written. */
  ghost predicate ReadyForStore(p: Dpb, v: Vol, u: Vol, b: nat, newBlock: bool)
    requires Fits(p, v) && Fits(p, u)
  {
    && b <= p.dsm && u == v.(disk := u.disk, alv := SetAloc(p, v.alv, b), dirbuf := u.dirbuf)
    && (forall s: nat :: s < |v.disk| && !(newBlock && b * p.BlockRecs() <= s < (b + 1) * p.BlockRecs())
          ==> u.disk[s] == v.disk[s])
  }

  lemma NewBlockDrive(p: Dpb, v: Vol, b: nat, mode: Mode, q: nat)
    requires Fits(p, v) && b <= p.dsm
    ensures ReadyForStore(p, v, NewBlock(p, v, b, mode), b, true)
  {
    BlockFits(p, b, 0);
  }

  lemma StoreDrive(p: Dpb, v: Vol, u: Vol, f: FcbValue, e: Ent, rc: byte, b: nat, mode: Mode, q: nat, newBlock: bool)
    requires Fits(p, v) && Fits(p, u) && f.cur < 128 && u.dma == v.dma
    requires ReadyForStore(p, v, u, b, newBlock) && SectorOf(p, b, q) == SectorOf(p, b, f.cur)
    ensures var r := StoreRecord(p, u, f, e, rc, b, mode);
      r.2 == 0 && r.1 == Advance(f, e, rc, mode) && DriveAfter(p, v, r.0, b, q, newBlock)
  {
    hide SectorOf, SetAloc;
    BlockFits(p, b, f.cur);
  }

  lemma StoreFcb(p: Dpb, f: FcbValue, e: Ent, rc: byte, b: nat, mode: Mode, q: nat)
    requires p.WellFormed() && f.cur < 128 && q < p.GroupRecs() && b < 65536
    requires rc == RcAfter(p, f.ent.dskmap, f.ent.rc, q)
    requires var past := q >= EndOf(p, f.ent.dskmap, f.ent.rc);
      MapIndex(p, q) < p.Slots() &&
      e == if BlockOf(p, f.ent.dskmap, q) != 0 then Flagged(f.ent, past)
           else SetBlk(p, Flagged(f.ent, past), MapIndex(p, q), b)
    ensures FcbAfter(p, f, Advance(f, e, rc, mode), q, b)
  {
    FlagModule(f.ent.s2);
    FlagModule(f.ent.s2 % 128);
    hide RcAfter, BlockOf, EndOf, SetSlot, MapIndex, Dpb.WellFormed, Dpb.GroupRecs;
  }

  /** Block in the map slot before the one about to be filled: where `getaloc` starts. */
  function LeftBlock(p: Dpb, f: FcbValue): (b: nat)
    requires p.WellFormed() && f.cur < 128 && MapOk(p, f.ent.dskmap)
    ensures b <= p.dsm
  {
    BlkIndxIsDivision(p, f.ent.extent, f.cur);
    var index := BlkIndx(p, f.ent.extent, f.cur);
    Slot(p, f.ent.dskmap, if index != 0 then index - 1 else 0)
  }

  ghost predicate SameButFlag(f: FcbValue, g: FcbValue)
  {
    g == f.(ent := g.ent) && g.ent == f.ent.(s2 := g.ent.s2) && (g.ent.s2 == f.ent.s2 || g.ent.s2 == f.ent.s2 % 128)
  }

  lemma BlockInUse(p: Dpb, a: Vector, c: seq<Piece>, i: nat, q: nat)
    requires BlocksOk(p, a, c) && i < |c| && c[i].Piece? && q < p.GroupRecs() && BlockOf(p, c[i].dskmap, q) != 0
    ensures p.DirBlocks() <= BlockOf(p, c[i].dskmap, q) <= p.dsm && a[BlockOf(p, c[i].dskmap, q)]
  {
    assert BlockAt(p, c, i, MapIndex(p, q)) == BlockOf(p, c[i].dskmap, q);
    hide BlockAt, BlockOf, Disjoint, Covered, Unique;
    assert Blocks.Named(p, c, BlockOf(p, c[i].dskmap, q));
  }

  // ---------------------------------------------------------------- the write as a whole

  /** Record `n` of file `id` becomes `data`; records of any file that could be read keep their data;
      nothing at all changes outside the records of `n`'s directory entry. */
  ghost predicate Wrote(p: Dpb, w: World, x: World, id: FileId, n: nat, data: Sector)
    requires Fits(p, w.v) && Fits(p, x.v)
  {
    && FileView(p, x, id, n) == Some(data)
    && (forall id': FileId, m: nat :: (id' != id || m != n) && FileView(p, w, id', m).Some? ==>
          FileView(p, x, id', m) == FileView(p, w, id', m))
    && (forall id': FileId, m: nat :: id' != id || p.GroupOf(m) != p.GroupOf(n) ==>
          FileView(p, x, id', m) == FileView(p, w, id', m))
  }

  lemma WroteFromRecord(p: Dpb, w: World, x: World, id: FileId, n: nat, data: Sector)
    requires Fits(p, w.v) && Fits(p, x.v)
    requires WroteRecord(p, FilesOf(p, w), w.v.disk, FilesOf(p, x), x.v.disk, id, n, data)
    ensures Wrote(p, w, x, id, n, data)
  {
    hide FilesOf, View;
  }

  /** `getaloc` starts at a used block, so it finds the free block nearest to it, if there is any. */
  lemma LeftIsUsed(p: Dpb, w: World, pend: int, j: nat)
    requires Inv(p, w, pend) && j < |w.fcbs| && w.open[j] && w.fcbs[j].cur < 128
    ensures w.v.alv[LeftBlock(p, w.fcbs[j])]
  {
    var f := w.fcbs[j];
    var left := LeftBlock(p, f);
    PieceOfFcb(p, w, pend, j);
    DirectoryFits(p);
    if left != 0 {
      BlkIndxIsDivision(p, f.ent.extent, f.cur);
      var index := BlkIndx(p, f.ent.extent, f.cur);
      var k := if index != 0 then index - 1 else 0;
      assert Blocks.Named(p, FilesOf(p, w), BlockAt(p, FilesOf(p, w), At(p, Dir(p, w.v), f), k));
    }
  }

  /** No block is free. */
  ghost predicate DiskFull(p: Dpb, a: Vector)
    requires Sized(p, a)
  {
    forall b: nat :: b <= p.dsm ==> a[b]
  }

  lemma AllocationIsNearest(p: Dpb, w: World, pend: int, j: nat)
    requires Inv(p, w, pend) && j < |w.fcbs| && w.open[j] && w.fcbs[j].cur < 128
    ensures var left := LeftBlock(p, w.fcbs[j]);
      match Outward(p, w.v.alv, left, left)
      case Some(b) => NearestFree(p, w.v.alv, left, b) && 0 < b && !DiskFull(p, w.v.alv)
      case None => DiskFull(p, w.v.alv)
  {
    hide Outward, LeftBlock;
    LeftIsUsed(p, w, pend, j);
    var left := LeftBlock(p, w.fcbs[j]);
    OutwardNearest(p, w.v.alv, left, left, left);
    DirectoryFits(p);
  }

  /** Outcome of the transfer half of a write. */
  ghost predicate WriteOutcome(p: Dpb, w: World, pend: int, j: nat, mode: Mode, r: (Vol, FcbValue, nat))
    requires Fits(p, w.v) && Fits(p, r.0) && j < |w.fcbs|
  {
    var f := w.fcbs[j];
    var x := With(w, r.0, j, r.1);
    && (r.2 == 0 || r.2 == 2) && (pend == j && DiskFull(p, w.v.alv) ==> r.2 == 2)
    && (r.2 == 0 ==> Inv(p, x, -1) && Wrote(p, w, x, Key(f.ent), RecordOf(f), w.v.dma))
    && (r.2 == 2 ==> DiskFull(p, w.v.alv) && Inv(p, x, pend) && SameViews(p, w, x))
  }

  lemma WriteChangesRecord(p: Dpb, w: World, pend: int, j: nat, mode: Mode)
    requires Inv(p, w, pend) && (pend == -1 || pend == j) && j < |w.fcbs| && w.open[j] && w.fcbs[j].cur < 128
    ensures WriteOutcome(p, w, pend, j, mode, WriteRecord(p, w.v, w.fcbs[j], mode))
  {
    var f := w.fcbs[j];
    var q := GroupRec(p, f.ent.extent, f.cur);
    PositionFacts(p, w, pend, j);
    PieceOfFcb(p, w, pend, j);
    assert AtPosition(p, f, q) && MapOk(p, f.ent.dskmap) && Fits(p, w.v);
    var i := At(p, Dir(p, w.v), f);
    if pend == j { EmptyLast(p, q); }
    if BlockOf(p, f.ent.dskmap, q) != 0 {
      hide AtPosition, MapOk, GroupRec, FcbAfter, DriveAfter, WriteRecord;
      BlockInUse(p, w.v.alv, FilesOf(p, w), i, q);
      WriteInPlace(p, w.v, f, mode, q);
      var r := WriteRecord(p, w.v, f, mode);
      WriteApplies(p, w, pend, j, BlockOf(p, f.ent.dskmap, q), r.0, r.1);
      hide Inv, FilesOf;
      WroteFromRecord(p, w, With(w, r.0, j, r.1), Key(f.ent), RecordOf(f), w.v.dma);
    } else {
      WriteAllocates(p, w, pend, j, mode, q);
    }
  }

  lemma WriteAllocates(p: Dpb, w: World, pend: int, j: nat, mode: Mode, q: nat)
    requires Inv(p, w, pend) && (pend == -1 || pend == j) && j < |w.fcbs| && w.open[j] && w.fcbs[j].cur < 128
    requires AtPosition(p, w.fcbs[j], q) && q == GroupRec(p, w.fcbs[j].ent.extent, w.fcbs[j].cur)
    requires BlockOf(p, w.fcbs[j].ent.dskmap, q) == 0 && At(p, Dir(p, w.v), w.fcbs[j]) <= p.drm
    ensures WriteOutcome(p, w, pend, j, mode, WriteRecord(p, w.v, w.fcbs[j], mode))
  {
    var f := w.fcbs[j];
    PieceOfFcb(p, w, pend, j);
    AllocationIsNearest(p, w, pend, j);
    assert MapOk(p, f.ent.dskmap) && Fits(p, w.v);
    hide AtPosition, MapOk, GroupRec, FcbAfter, DriveAfter, WriteRecord, LeftBlock, Outward;
    WriteNewBlock(p, w.v, f, mode, q);
    var r := WriteRecord(p, w.v, f, mode);
    var got := Outward(p, w.v.alv, LeftBlock(p, f), LeftBlock(p, f));
    if got.Some? {
      WriteApplies(p, w, pend, j, got.value, r.0, r.1);
      hide Inv, FilesOf, NearestFree;
      WroteFromRecord(p, w, With(w, r.0, j, r.1), Key(f.ent), RecordOf(f), w.v.dma);
    } else {
      FlagKeeps(p, w, pend, j, r.1);
    }
  }

  /** Clearing the write flag alone changes nothing. */
  lemma FlagKeeps(p: Dpb, w: World, pend: int, j: nat, g: FcbValue)
    requires Inv(p, w, pend) && (pend == -1 || pend == j)
    requires j < |w.fcbs| && w.open[j] && SameButFlag(w.fcbs[j], g)
    ensures var x := With(w, w.v, j, g);
      Inv(p, x, pend) && FilesOf(p, x) == FilesOf(p, w) && SameViews(p, w, x)
  {
    var s := StateOf(p, w);
    var f := w.fcbs[j];
    var i := At(p, s.d, f);
    PieceOfFcb(p, w, pend, j);
    FlagModule(f.ent.s2);
    assert Group(p, g.ent) == Group(p, f.ent) && Key(g.ent) == Key(f.ent);
    assert FcbOk(p, w.user, g) && Tracks(p, g, s.d[i], pend == j);
    hide FcbOk, Tracks, EntOk, Group, Key;
    Update(p, w.user, s, pend, j, g, pend);
    var x := With(w, w.v, j, g);
    assert StateOf(p, x) == s.(fcbs := s.fcbs[j := g]);
    assert Contents(p, s)[i := FcbPiece(p, g)] == Contents(p, s);
    ViewsFromData(p, w, x);
  }

  lemma FlagModule(x: nat)
    ensures (x % 128) % 64 == x % 64
  {
  }
}

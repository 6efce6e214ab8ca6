/** Deleting and truncating: entries shrink or disappear, and exactly their blocks are released. */
module Erasing {
  import opened DiskParams
  import opened DiskMap
  import opened Directory
  import opened Allocation
  import opened Volume
  import opened Scanning
  import opened Files
  import opened Blocks
  import opened FileSystem
  import opened Transitions
  import opened LoginScan

  // ---------------------------------------------------------------- blocks

  /** Block `b` was named by piece `i` and no longer is. */
  ghost predicate Released(p: Dpb, c: seq<Piece>, c': seq<Piece>, i: nat, b: nat)
    requires i < |c| == |c'|
  {
    exists k: nat :: k < p.Slots() && BlockAt(p, c, i, k) == b && b != 0 && BlockAt(p, c', i, k) == 0
  }

  /** Piece `i` loses some of its blocks (or all, when it becomes a gap). */
  ghost predicate Shrinks(p: Dpb, c: seq<Piece>, c': seq<Piece>, i: nat)
    requires p.WellFormed()
  {
    && i < |c| == |c'| && c' == c[i := c'[i]] && c[i].Piece?
    && (c'[i].Piece? ==> c'[i].id == c[i].id && c'[i].group == c[i].group && c'[i].rc <= 128)
    && (forall k: nat :: k < p.Slots() ==> BlockAt(p, c', i, k) == BlockAt(p, c, i, k) || BlockAt(p, c', i, k) == 0)
    && (forall k: nat :: k < p.Slots() && BlockAt(p, c', i, k) != 0 ==>
          k * p.BlockRecs() < EndOf(p, c'[i].dskmap, c'[i].rc))
  }

  /** The vector loses exactly the released blocks. */
  ghost predicate VectorReleases(p: Dpb, a: Vector, a': Vector, c: seq<Piece>, c': seq<Piece>, i: nat)
    requires Sized(p, a) && i < |c| == |c'|
  {
    && |a'| == |a|
    && forall b: nat :: b <= p.dsm ==> (a'[b] <==> a[b] && !Released(p, c, c', i, b))
  }

  lemma ShrinkKeepsBlocks(p: Dpb, a: Vector, a': Vector, c: seq<Piece>, c': seq<Piece>, i: nat)
    requires BlocksOk(p, a, c) && Shrinks(p, c, c', i) && VectorReleases(p, a, a', c, c', i)
    ensures BlocksOk(p, a', c')
  {
    UniqueUpdate(c, i, c'[i]);
    forall i': nat, k: nat | i' < |c| && k < p.Slots()
      ensures BlockAt(p, c', i', k) == BlockAt(p, c, i', k) || (i' == i && BlockAt(p, c', i', k) == 0)
    {
    }
    hide BlockAt, EndOf;
    forall b: nat | 0 < b <= p.dsm
      ensures Blocks.Named(p, c', b) <==> Blocks.Named(p, c, b) && !Released(p, c, c', i, b)
      ensures Released(p, c, c', i, b) ==> p.DirBlocks() <= b
    {
      if Blocks.Named(p, c', b) {
        var i': nat, k: nat :| i' < |c| && k < p.Slots() && BlockAt(p, c', i', k) == b;
        assert BlockAt(p, c, i', k) == b;
      }
      if Blocks.Named(p, c, b) && !Released(p, c, c', i, b) {
        var i': nat, k: nat :| i' < |c| && k < p.Slots() && BlockAt(p, c, i', k) == b;
        assert BlockAt(p, c', i', k) == b;
      }
    }
  }

  // ---------------------------------------------------------------- one entry

  /** The drive after entry `i` has become `e` and the vector `a`. */
  function Rewritten(p: Dpb, v: Vol, i: nat, e: Ent, a: Vector): (r: Vol)
    requires Fits(p, v) && i <= p.drm && |a| == |v.alv|
    ensures Fits(p, r)
  {
    DirWr(p, PutDir(AtIndex(p, v, i), i, e), i / 4).(alv := a)
  }

  /** An entry nobody has open shrinks or disappears. */
  lemma RewriteKeeps(p: Dpb, w: World, i: nat, e: Ent, a: Vector)
    requires Inv(p, w, -1) && i <= p.drm && Live(Dir(p, w.v)[i]) && !Owned(p, StateOf(p, w), i)
    requires EntOk(p, e)
    requires Live(e) ==> Settled(p, e) && IsFor(PieceOf(p, e), Key(Dir(p, w.v)[i]), Group(p, Dir(p, w.v)[i]))
    requires var c := FilesOf(p, w);
      var c' := c[i := PieceOf(p, e)];
      Shrinks(p, c, c', i) && VectorReleases(p, w.v.alv, a, c, c', i)
    ensures var x := w.(v := Rewritten(p, w.v, i, e, a));
      && Inv(p, x, -1) && FilesOf(p, x) == FilesOf(p, w)[i := PieceOf(p, e)]
      && Dir(p, x.v) == Dir(p, w.v)[i := e]
      && (forall m: nat :: Owned(p, StateOf(p, x), m) <==> Owned(p, StateOf(p, w), m))
      && (forall s: nat :: s < |w.v.disk| && DataSector(p, s) ==> x.v.disk[s] == w.v.disk[s])
      && x.v.hiwater == w.v.hiwater && x.v.dirbuf == x.v.disk[i / 4]
  {
    assert |a| == |w.v.alv|;
    hide Shrinks, VectorReleases, EntOk, Settled, Tracks, FcbOk, BlocksOk;
    var s := StateOf(p, w);
    var x := w.(v := Rewritten(p, w.v, i, e, a));
    EntryWrite(p, w.v, i, e);
    SteadyDir(p, DirWr(p, PutDir(AtIndex(p, w.v, i), i, e), i / 4), x.v);
    ChangeUnowned(p, w.user, s, i, e);
    assert StateOf(p, x) == s.(d := s.d[i := e]);
    hide DirWr, Dir, FilesOk;
    ShrinkKeepsBlocks(p, w.v.alv, a, FilesOf(p, w), FilesOf(p, w)[i := PieceOf(p, e)], i);
    SameMark(p, w.v, x.v, i);
  }

  // ---------------------------------------------------------------- truncation arithmetic

  /** `trunc_free_past`'s slot-to-record formula inverts `blkindx`: slot `k` starts at record `k * B`
      of its group. */
  lemma SlotStartIs(p: Dpb, base: nat, k: nat)
    requires p.WellFormed() && k < p.Slots()
    ensures SlotStart(p, base, k) == base + k * p.BlockRecs()
  {
    Shapes(p);
    var s := p.SlotsPerExtent();
    if s == 16 {} else if s == 8 {} else if s == 4 {} else if s == 2 {} else { assert s == 1; }
  }

  /** `trunc_group_base` and `trunc_group_end`. */
  lemma TruncBaseIs(p: Dpb, e: Ent)
    requires p.WellFormed() && e.extent < 32
    ensures TruncBase(p, e) == Group(p, e) * p.GroupRecs()
    ensures ExtSize(e) + e.rc == Group(p, e) * p.GroupRecs() + (e.extent % p.Extents()) * 128 + e.rc
  {
    hide GroupNumber, ExtBase;
    RecordSplits(p, e, 0);
    ExtentShapes(p);
    BaseAndRest(p.Extents(), e.extent);
  }

  /** Map `m` with the slots that start at group record `t` or later emptied. */
  ghost predicate KeptBelow(p: Dpb, m: Map, t: int, m': Map)
  {
    forall k: nat :: k < p.Slots() ==> Slot(p, m', k) == if k * p.BlockRecs() < t then Slot(p, m, k) else 0
  }

  lemma {:induction false} FreePastMap(p: Dpb, a: Vector, m: Map, base: nat, n: nat, k: nat)
    requires p.WellFormed() && Sized(p, a) && k <= p.Slots()
    ensures var r := FreePast(p, a, m, base, n, k);
      forall j: nat :: j < p.Slots() ==>
        Slot(p, r.1, j) == if j < k && SlotStart(p, base, j) >= n then 0 else Slot(p, m, j)
  {
    if k > 0 {
      FreePastMap(p, a, m, base, n, k - 1);
      var r := FreePast(p, a, m, base, n, k - 1);
      forall j: nat | j < p.Slots()
        ensures Slot(p, SetSlot(p, r.1, k - 1, 0), j) == if j == k - 1 then 0 else Slot(p, r.1, j)
      {
        SetSlotGet(p, r.1, k - 1, 0, j);
      }
      hide Slot, SetSlot, SlotStart;
    }
  }

  lemma {:induction false} FreePastVector(p: Dpb, a: Vector, m: Map, base: nat, n: nat, k: nat)
    requires p.WellFormed() && Sized(p, a) && k <= p.Slots()
    ensures var r := FreePast(p, a, m, base, n, k);
      forall b: nat :: b <= p.dsm ==> (r.0[b] <==> a[b] && !FreedBelow(p, m, base, n, k, b))
  {
    if k > 0 {
      FreePastVector(p, a, m, base, n, k - 1);
      FreePastMap(p, a, m, base, n, k - 1);
      forall b: nat { FreedStep(p, m, base, n, k, b); }
      hide Slot, SetSlot, FreedBelow, SlotStart;
    }
  }

  /** Block `b` (not 0) is named by a slot below `k` that starts at record `n` or later. */
  ghost predicate FreedBelow(p: Dpb, m: Map, base: nat, n: nat, k: nat, b: nat)
    requires p.bsh <= 7 && k <= p.Slots()
  {
    b != 0 && exists j: nat :: j < k && SlotStart(p, base, j) >= n && Slot(p, m, j) == b
  }

  lemma FreedStep(p: Dpb, m: Map, base: nat, n: nat, k: nat, b: nat)
    requires p.bsh <= 7 && 0 < k <= p.Slots()
    ensures FreedBelow(p, m, base, n, k, b) <==>
      FreedBelow(p, m, base, n, k - 1, b)
      || (b != 0 && SlotStart(p, base, k - 1) >= n && Slot(p, m, k - 1) == b)
  {
    hide Slot;
    if FreedBelow(p, m, base, n, k - 1, b) {
      var j: nat :| j < k - 1 && SlotStart(p, base, j) >= n && Slot(p, m, j) == b;
      assert j < k;
    }
    if SlotStart(p, base, k - 1) >= n && Slot(p, m, k - 1) == b { assert k - 1 < k; }
  }

  /** The map keeps a block in the extent that becomes the last one (or that is the entry's first). */
  ghost predicate CutIsClean(p: Dpb, m: Map, t: nat)
    requires p.WellFormed() && 0 < t
  {
    (t - 1) / 128 == 0
    || exists k: nat :: k < p.Slots() && k * p.BlockRecs() < t && k / p.SlotsPerExtent() == (t - 1) / 128
         && Slot(p, m, k) != 0
  }

  /** A slot that starts below record `t` lies in an extent at or below that of record `t - 1`. */
  lemma SlotBelow(p: Dpb, k: nat, t: nat)
    requires p.WellFormed() && 0 < t && k < p.Slots() && k * p.BlockRecs() < t
    ensures k / p.SlotsPerExtent() <= (t - 1) / 128
  {
    Shapes(p);
    var s := p.SlotsPerExtent();
    if s == 16 {} else if s == 8 {} else if s == 4 {} else if s == 2 {} else { assert s == 1; }
  }

  /** That is when the truncated entry's extent byte names the extent of its last block. */
  lemma CleanCutSettles(p: Dpb, m: Map, t: nat, m': Map)
    requires p.WellFormed() && 0 < t && KeptBelow(p, m, t, m')
    ensures LastExt(p, m') <= (t - 1) / 128
    ensures CutIsClean(p, m, t) <==> LastExt(p, m') == (t - 1) / 128
  {
    LastSlotIsLast(p, m');
    var l := LastSlot(p, m');
    hide Slot, LastSlot;
    assert l == 0 || Slot(p, m', l) != 0;
    if l != 0 { SlotBelow(p, l, t); } else { assert LastExt(p, m') == 0; }
    if CutIsClean(p, m, t) && (t - 1) / 128 != 0 {
      var k: nat :| k < p.Slots() && k * p.BlockRecs() < t && k / p.SlotsPerExtent() == (t - 1) / 128
        && Slot(p, m, k) != 0;
      assert k <= l;
      SlotOrder(p, k, l);
    }
    if LastExt(p, m') == (t - 1) / 128 && (t - 1) / 128 != 0 {
      assert l != 0 && Slot(p, m, l) != 0;
    }
  }

  lemma SmallQuotient(x: nat, y: nat)
    requires y < x * 128
    ensures y / 128 < x
  {
  }

  lemma CutParts(mod: nat, b: nat, y: nat)
    requires b + y / 128 < 32
    ensures var last := mod * 4096 + b * 128 + y;
      last / 4096 == mod && (last / 128) % 32 == b + y / 128 && last % 128 == y % 128
  {
    assert (mod * 4096 + (b + y / 128) * 128 + (y % 128)) / 128 == mod * 32 + (b + y / 128);
  }

  lemma GroupStart(p: Dpb, e: Ent)
    requires p.WellFormed() && e.extent < 32
    ensures Group(p, e) * p.GroupRecs() == (e.s2 % 64) * 4096 + ExtBase(e.extent, p.Extents()) * 128
  {
    hide GroupNumber, ExtBase;
    RecordSplits(p, e, 0);
    ExtentShapes(p);
    BaseAndRest(p.Extents(), e.extent);
  }

  lemma CutArithmetic(mod: nat, ext: nat, x: nat, y: nat, last: nat)
    requires x in {1, 2, 4, 8, 16} && ext < 32 && y < x * 128
    requires last == mod * 4096 + ExtBase(ext, x) * 128 + y
    ensures last / 4096 == mod && (last / 128) % 32 == ExtBase(ext, x) + y / 128 && last % 128 == y % 128
  {
    SmallQuotient(x, y);
    BaseOffset(x, ext, y / 128);
    hide ExtBase;
    CutParts(mod, ExtBase(ext, x), y);
  }

  lemma ReplaceModule(s2: nat, m: nat)
    requires m < 64
    ensures (s2 - s2 % 64 + m) % 64 == m
  {
  }

  /** What a partial truncation to `n` records leaves in an entry whose group starts at `base`. */
  lemma CutEntryFacts(p: Dpb, e: Ent, m: Map, n: nat)
    requires p.WellFormed() && e.extent < 32
    requires var base := Group(p, e) * p.GroupRecs(); base < n <= base + p.GroupRecs()
    ensures var t := n - Group(p, e) * p.GroupRecs();
      var c := TruncatedEntry(e, m, n);
      && c.entry == e.entry && c.name == e.name && c.dskmap == m
      && c.extent < 32 && c.extent % p.Extents() == (t - 1) / 128
      && c.rc == (t - 1) % 128 + 1 && c.rc <= 128
      && Group(p, c) == Group(p, e)
  {
    GroupStart(p, e);
    ExtentShapes(p);
    var y := n - 1 - Group(p, e) * p.GroupRecs();
    SmallQuotient(p.Extents(), y);
    BaseOffset(p.Extents(), e.extent, y / 128);
    CutArithmetic(e.s2 % 64, e.extent, p.Extents(), y, n - 1);
    var c := TruncatedEntry(e, m, n);
    ReplaceModule(e.s2, e.s2 % 64);
    hide ExtBase, Group, Dpb.WellFormed, Dpb.Extents, Dpb.GroupRecs;
    CutGroup(p, e, c);
  }

  lemma CutGroup(p: Dpb, e: Ent, c: Ent)
    requires p.WellFormed() && e.extent < 32 && c.extent < 32
    requires c.s2 % 64 == e.s2 % 64 && c.extent / p.Extents() == e.extent / p.Extents()
    ensures Group(p, c) == Group(p, e)
  {
    GroupInjective(p, c, e);
  }

  // ---------------------------------------------------------------- one step of a full scan

  predicate Cutting(cb: Callback) { cb.DeleteFile? || cb.TruncateOne? }

  /** What delete or truncate makes of one piece. */
  ghost predicate CutPiece(p: Dpb, cb: Callback, id: FileId, x: Piece, x': Piece)
    requires p.WellFormed() && Cutting(cb)
  {
    if !(x.Piece? && x.id == id) then x' == x
    else if cb.DeleteFile? then x' == Gap
    else
      var base := x.group * p.GroupRecs();
      if base >= cb.nrecs then x' == Gap
      else if base + EndOf(p, x.dskmap, x.rc) > cb.nrecs then
        && x'.Piece? && x' == Piece(id, x.group, x'.dskmap, (cb.nrecs - base - 1) % 128 + 1)
        && KeptBelow(p, x.dskmap, cb.nrecs - base, x'.dskmap)
      else x' == x
  }

  /** The cut leaves a block in the new last extent of the piece it falls into. */
  ghost predicate PieceCutsCleanly(p: Dpb, cb: Callback, id: FileId, x: Piece)
    requires p.WellFormed()
  {
    cb.TruncateOne? && x.Piece? && x.id == id
    && x.group * p.GroupRecs() < cb.nrecs < x.group * p.GroupRecs() + EndOf(p, x.dskmap, x.rc)
    ==> CutIsClean(p, x.dskmap, cb.nrecs - x.group * p.GroupRecs())
  }

  ghost predicate CutsCleanly(p: Dpb, cb: Callback, id: FileId, c: seq<Piece>)
    requires p.WellFormed()
  {
    forall i :: 0 <= i < |c| ==> PieceCutsCleanly(p, cb, id, c[i])
  }

  /** Drive after the callback has been called at index `i`. */
  function FullStep(p: Dpb, cb: Callback, v: Vol, f: FcbValue, i: nat): (r: Vol)
    requires Fits(p, v) && i <= p.drm
    ensures Fits(p, r)
  {
    Invoke(p, cb, AtIndex(p, v, i), f, i).0
  }

  /** World `x` is `w` after a step at index `i`. */
  ghost predicate Stepped(p: Dpb, cb: Callback, id: FileId, w: World, x: World, i: nat)
    requires Fits(p, w.v) && Fits(p, x.v) && Cutting(cb) && i <= p.drm
  {
    && Inv(p, x, -1) && x == w.(v := x.v)
    && CutPiece(p, cb, id, FilesOf(p, w)[i], FilesOf(p, x)[i])
    && FilesOf(p, x) == FilesOf(p, w)[i := FilesOf(p, x)[i]]
    && x.v.hiwater == w.v.hiwater && x.v.dma == w.v.dma && x.v.dirbuf == x.v.disk[i / 4]
    && (forall s: nat :: s < |w.v.disk| && DataSector(p, s) ==> x.v.disk[s] == w.v.disk[s])
  }

  predicate BelongsTo(x: Piece, id: FileId) { x.Piece? && x.id == id }

  /** The statics of `truncate_fi` after a call for piece `x`. */
  predicate NotedBy(cb: Callback, id: FileId, x: Piece, v: Vol, r: Vol)
  {
    && (r.truncFound <==> v.truncFound || (cb.TruncateOne? && BelongsTo(x, id)))
    && (v.truncCode < 4 ==> r.truncCode < 4)
  }

  /** The entry is not wanted. */
  lemma StepLooks(p: Dpb, cb: Callback, w: World, id: FileId, i: nat, r: Vol)
    requires Inv(p, w, -1) && Cutting(cb) && i <= p.drm && Quiet(w.v, r) && r.dma == w.v.dma
    requires r.dirbuf == r.disk[i / 4]
    requires CutPiece(p, cb, id, FilesOf(p, w)[i], FilesOf(p, w)[i])
    ensures Stepped(p, cb, id, w, w.(v := r), i)
  {
    hide Inv, CutPiece;
    QuietKeeps(p, w, r, -1);
  }

  /** The entry belongs to the file: it is not owned, so its piece is its own. */
  lemma UnownedPiece(p: Dpb, w: World, id: FileId, i: nat)
    requires Inv(p, w, -1) && i <= p.drm && NoFcbFor(StateOf(p, w), id)
    requires Live(Dir(p, w.v)[i]) && Key(Dir(p, w.v)[i]) == id
    ensures !Owned(p, StateOf(p, w), i) && FilesOf(p, w)[i] == PieceOf(p, Dir(p, w.v)[i])
    ensures Settled(p, Dir(p, w.v)[i]) && EntOk(p, Dir(p, w.v)[i])
  {
    hide Tracks, FcbOk, EntOk, Settled;
    var s := StateOf(p, w);
    forall j: nat ensures !Owns(p, s, j, i) {
      assert j < |s.fcbs| && At(p, s.d, s.fcbs[j]) == i ==> Pieces(p, s.d)[i].id == Key(s.fcbs[j].ent);
    }
  }

  /** Erasing an entry releases exactly its blocks. */
  lemma EraseStep(p: Dpb, cb: Callback, w: World, id: FileId, i: nat, r: Vol)
    requires Inv(p, w, -1) && Cutting(cb) && i <= p.drm && NoFcbFor(StateOf(p, w), id)
    requires Live(Dir(p, w.v)[i]) && Key(Dir(p, w.v)[i]) == id
    requires CutPiece(p, cb, id, FilesOf(p, w)[i], Gap)
    requires var e := Dir(p, w.v)[i];
      Quiet(Rewritten(p, w.v, i, e.(entry := FREE), FreeSlots(p, w.v.alv, e.dskmap, p.Slots())), r)
    requires r.dma == w.v.dma && r.dirbuf == r.disk[i / 4]
    ensures Stepped(p, cb, id, w, w.(v := r), i)
  {
    hide FreeSlots;
    var e := Dir(p, w.v)[i];
    var e' := e.(entry := FREE);
    var a := FreeSlots(p, w.v.alv, e.dskmap, p.Slots());
    UnownedPiece(p, w, id, i);
    var c := FilesOf(p, w);
    FreeSlotsEffect(p, w.v.alv, c[i].dskmap, p.Slots());
    forall b: nat ensures Released(p, c, c[i := Gap], i, b) <==> b != 0 && InMap(p, c[i].dskmap, p.Slots(), b) {
      if b != 0 && InMap(p, c[i].dskmap, p.Slots(), b) {
        var k: nat :| k < p.Slots() && Slot(p, c[i].dskmap, k) == b;
        assert BlockAt(p, c, i, k) == b && BlockAt(p, c[i := Gap], i, k) == 0;
      }
    }
    RewriteKeeps(p, w, i, e', a);
    QuietKeeps(p, w.(v := Rewritten(p, w.v, i, e', a)), r, -1);
  }

  /** A partial truncation releases exactly the blocks of the slots it empties. */
  lemma CutStep(p: Dpb, cb: Callback, w: World, id: FileId, i: nat, r: Vol)
    requires Inv(p, w, -1) && cb.TruncateOne? && i <= p.drm && NoFcbFor(StateOf(p, w), id)
    requires Live(Dir(p, w.v)[i]) && Key(Dir(p, w.v)[i]) == id
    requires PieceCutsCleanly(p, cb, id, FilesOf(p, w)[i])
    requires var e := Dir(p, w.v)[i];
      TruncBase(p, e) < cb.nrecs < ExtSize(e) + e.rc
    requires var e := Dir(p, w.v)[i];
      var fp := FreePast(p, w.v.alv, e.dskmap, TruncBase(p, e), cb.nrecs, p.Slots());
      Quiet(Rewritten(p, w.v, i, TruncatedEntry(e, fp.1, cb.nrecs), fp.0), r)
    requires r.dma == w.v.dma && r.dirbuf == r.disk[i / 4]
    ensures Stepped(p, cb, id, w, w.(v := r), i)
  {
    hide GroupNumber, ExtBase, FreePast, VectorReleases;
    var e := Dir(p, w.v)[i];
    var c := FilesOf(p, w);
    var fp := FreePast(p, w.v.alv, e.dskmap, TruncBase(p, e), cb.nrecs, p.Slots());
    var e' := TruncatedEntry(e, fp.1, cb.nrecs);
    UnownedPiece(p, w, id, i);
    TruncBaseIs(p, e);
    CutFacts(p, w.v.alv, c, i, e, cb.nrecs);
    CutPieceHolds(p, cb, id, c[i], PieceOf(p, e'), e);
    hide Released, CutPiece, BlocksOk, FilesOk, TruncatedEntry, Shrinks, EntOk, Settled, Dpb.WellFormed, Group, Key;
    RewriteKeeps(p, w, i, e', fp.0);
    QuietKeeps(p, w.(v := Rewritten(p, w.v, i, e', fp.0)), r, -1);
  }

  lemma CutPieceHolds(p: Dpb, cb: Callback, id: FileId, x: Piece, x': Piece, e: Ent)
    requires p.WellFormed() && cb.TruncateOne? && x == PieceOf(p, e) && Live(e) && Key(e) == id && Settled(p, e)
    requires var base := Group(p, e) * p.GroupRecs();
      && base < cb.nrecs && TruncBase(p, e) == base && cb.nrecs < ExtSize(e) + e.rc
      && ExtSize(e) + e.rc == base + (e.extent % p.Extents()) * 128 + e.rc
      && x'.Piece? && x' == Piece(id, Group(p, e), x'.dskmap, (cb.nrecs - base - 1) % 128 + 1)
      && KeptBelow(p, e.dskmap, cb.nrecs - base, x'.dskmap)
    ensures CutPiece(p, cb, id, x, x')
  {
    hide KeptBelow, Key, Group, TruncBase, ExtSize;
  }

  lemma CutFacts(p: Dpb, a: Vector, c: seq<Piece>, i: nat, e: Ent, n: nat)
    requires BlocksOk(p, a, c) && i < |c| && c[i] == PieceOf(p, e) && Live(e) && EntOk(p, e) && Settled(p, e)
    requires var base := Group(p, e) * p.GroupRecs();
      base < n < base + EndOf(p, e.dskmap, e.rc) && CutIsClean(p, e.dskmap, n - base)
    requires TruncBase(p, e) == Group(p, e) * p.GroupRecs()
    ensures var fp := FreePast(p, a, e.dskmap, TruncBase(p, e), n, p.Slots());
      var e' := TruncatedEntry(e, fp.1, n);
      var base := Group(p, e) * p.GroupRecs();
      && EntOk(p, e') && Live(e') && Settled(p, e')
      && PieceOf(p, e') == Piece(Key(e), Group(p, e), fp.1, (n - base - 1) % 128 + 1)
      && KeptBelow(p, e.dskmap, n - base, fp.1)
      && Shrinks(p, c, c[i := PieceOf(p, e')], i)
      && VectorReleases(p, a, fp.0, c, c[i := PieceOf(p, e')], i)
  {
    var base := Group(p, e) * p.GroupRecs();
    var t := n - base;
    var fp := FreePast(p, a, e.dskmap, base, n, p.Slots());
    var e' := TruncatedEntry(e, fp.1, n);
    EndInGroup(p, e.dskmap, e.rc);
    KeptMap(p, a, e.dskmap, base, n);
    CutEntryFacts(p, e, fp.1, n);
    CleanCutSettles(p, e.dskmap, t, fp.1);
    assert EntOk(p, e') by { hide Group, EndOf, Key, LastExt; }
    assert Settled(p, e');
    assert Key(e') == Key(e);
    var x := Piece(Key(e), Group(p, e), fp.1, (t - 1) % 128 + 1);
    assert PieceOf(p, e') == x by { hide Key, Group, EndOf; }
    CleanCutSettles(p, c[i].dskmap, t, fp.1);
    assert forall k: nat :: k < p.Slots() && Slot(p, fp.1, k) != 0 ==> k * p.BlockRecs() < t;
    CutReleases(p, a, c, i, base, n, x);
  }

  lemma EndInGroup(p: Dpb, m: Map, rc: byte)
    requires p.WellFormed() && rc <= 128
    ensures EndOf(p, m, rc) <= p.GroupRecs()
  {
  }

  lemma KeptMap(p: Dpb, a: Vector, m: Map, base: nat, n: nat)
    requires p.WellFormed() && Sized(p, a) && base < n
    ensures KeptBelow(p, m, n - base, FreePast(p, a, m, base, n, p.Slots()).1)
  {
    FreePastMap(p, a, m, base, n, p.Slots());
    forall k: nat | k < p.Slots() { SlotStartIs(p, base, k); }
    hide Slot, SlotStart, FreePast;
  }

  lemma CutReleases(p: Dpb, a: Vector, c: seq<Piece>, i: nat, base: nat, n: nat, x: Piece)
    requires BlocksOk(p, a, c) && i < |c| && c[i].Piece? && base < n
    requires x.Piece? && x.dskmap == FreePast(p, a, c[i].dskmap, base, n, p.Slots()).1
    ensures VectorReleases(p, a, FreePast(p, a, c[i].dskmap, base, n, p.Slots()).0, c, c[i := x], i)
  {
    var m := c[i].dskmap;
    FreePastVector(p, a, m, base, n, p.Slots());
    FreePastMap(p, a, m, base, n, p.Slots());
    hide Slot, SlotStart, FreePast, Disjoint, InData, VectorExact, Covered, Unique;
    forall b: nat ensures Released(p, c, c[i := x], i, b) <==> FreedBelow(p, m, base, n, p.Slots(), b) {
      if FreedBelow(p, m, base, n, p.Slots(), b) {
        var k: nat :| k < p.Slots() && SlotStart(p, base, k) >= n && Slot(p, m, k) == b;
        assert BlockAt(p, c, i, k) == b && BlockAt(p, c[i := x], i, k) == 0;
      }
      if Released(p, c, c[i := x], i, b) {
        var k: nat :| k < p.Slots() && BlockAt(p, c, i, k) == b && b != 0 && BlockAt(p, c[i := x], i, k) == 0;
        assert Slot(p, m, k) == b && SlotStart(p, base, k) >= n;
      }
    }
  }

  lemma WantsFile(p: Dpb, f: FcbValue, user: byte, e: Ent)
    requires p.WellFormed() && Addressed(user, f) && EntOk(p, e)
    ensures Matches(p, f.ent, e, false) <==> Live(e) && Key(e) == Key(f.ent)
  {
    MatchIsKeyEquality(p, f.ent, e);
    assert Key(f.ent)[0] == user % 128 && Key(e)[0] == e.entry % 128;
    hide Key, Group, NameMatches;
  }

  /** What the callback does at entry `e`, case by case. */
  lemma FullStepCases(p: Dpb, cb: Callback, v: Vol, f: FcbValue, i: nat)
    requires Fits(p, v) && Cutting(cb) && i <= p.drm
    requires Matches(p, f.ent, Dir(p, v)[i], false) ==> Live(Dir(p, v)[i])
    ensures var e := Dir(p, v)[i];
      var r := FullStep(p, cb, v, f, i);
      var erased := Rewritten(p, v, i, e.(entry := FREE), FreeSlots(p, v.alv, e.dskmap, p.Slots()));
      && Invoke(p, cb, AtIndex(p, v, i), f, i).1 == f
      && (Invoke(p, cb, AtIndex(p, v, i), f, i).2 <==> cb.DeleteFile? && Matches(p, f.ent, e, false))
      && if !Matches(p, f.ent, e, false) then r == AtIndex(p, v, i)
         else if cb.DeleteFile? then r == erased
         else if TruncBase(p, e) >= cb.nrecs then r == erased.(truncFound := true)
         else if ExtSize(e) + e.rc > cb.nrecs then
           var fp := FreePast(p, v.alv, e.dskmap, TruncBase(p, e), cb.nrecs, p.Slots());
           r == Rewritten(p, v, i, TruncatedEntry(e, fp.1, cb.nrecs), fp.0).(truncFound := true, truncCode := i % 4)
         else r == AtIndex(p, v, i).(truncFound := true)
  {
    hide Matches, FreePast, FreeSlots, TruncatedEntry, ExtSize, TruncBase;
  }

  lemma RewrittenBuffer(p: Dpb, v: Vol, i: nat, e: Ent, a: Vector)
    requires Fits(p, v) && i <= p.drm && |a| == |v.alv|
    ensures var r := Rewritten(p, v, i, e, a); r.dirbuf == r.disk[i / 4] && r.dma == v.dma
  {
  }

  lemma StepNotes(p: Dpb, cb: Callback, w: World, f: FcbValue, i: nat)
    requires Inv(p, w, -1) && Cutting(cb) && i <= p.drm && Addressed(w.user, f)
    ensures NotedBy(cb, Key(f.ent), FilesOf(p, w)[i], w.v, FullStep(p, cb, w.v, f, i))
    ensures Invoke(p, cb, AtIndex(p, w.v, i), f, i).2 <==> cb.DeleteFile? && BelongsTo(FilesOf(p, w)[i], Key(f.ent))
  {
    var e := Dir(p, w.v)[i];
    WantsFile(p, f, w.user, e);
    FullStepCases(p, cb, w.v, f, i);
    PieceBelongs(p, w, Key(f.ent), i);
    hide Inv, Dir, FilesOf, Key, FullStep, Invoke, Matches, EntOk, FreeSlots, FreePast, TruncatedEntry, TruncBase,
      ExtSize;
  }

  lemma PieceBelongs(p: Dpb, w: World, id: FileId, i: nat)
    requires Inv(p, w, -1) && i <= p.drm
    ensures BelongsTo(FilesOf(p, w)[i], id) <==> Live(Dir(p, w.v)[i]) && Key(Dir(p, w.v)[i]) == id
  {
    var s := StateOf(p, w);
    ContentsKeys(p, s, id, Group(p, s.d[i]));
    var x := FilesOf(p, w)[i];
    if x.Piece? { ContentsKeys(p, s, x.id, x.group); }
  }

  lemma ForeignPiece(p: Dpb, cb: Callback, w: World, id: FileId, i: nat)
    requires Inv(p, w, -1) && Cutting(cb) && i <= p.drm && !(Live(Dir(p, w.v)[i]) && Key(Dir(p, w.v)[i]) == id)
    ensures CutPiece(p, cb, id, FilesOf(p, w)[i], FilesOf(p, w)[i])
  {
    var x := FilesOf(p, w)[i];
    if x.Piece? { ContentsKeys(p, StateOf(p, w), x.id, x.group); }
  }

  lemma StepOnFile(p: Dpb, cb: Callback, w: World, f: FcbValue, i: nat)
    requires Inv(p, w, -1) && Cutting(cb) && i <= p.drm
    requires NoFcbFor(StateOf(p, w), Key(f.ent)) && PieceCutsCleanly(p, cb, Key(f.ent), FilesOf(p, w)[i])
    requires Live(Dir(p, w.v)[i]) && Key(Dir(p, w.v)[i]) == Key(f.ent) && Matches(p, f.ent, Dir(p, w.v)[i], false)
    ensures Stepped(p, cb, Key(f.ent), w, w.(v := FullStep(p, cb, w.v, f, i)), i)
  {
    var e := Dir(p, w.v)[i];
    var id := Key(f.ent);
    var r := FullStep(p, cb, w.v, f, i);
    InvBasics(p, w, -1);
    FullStepCases(p, cb, w.v, f, i);
    UnownedPiece(p, w, id, i);
    TruncBaseIs(p, e);
    var erased := e.(entry := FREE);
    var a := FreeSlots(p, w.v.alv, e.dskmap, p.Slots());
    RewrittenBuffer(p, w.v, i, erased, a);
    var c := FilesOf(p, w);
    assert cb.DeleteFile? ==> CutPiece(p, cb, id, c[i], Gap);
    assert cb.TruncateOne? && TruncBase(p, e) >= cb.nrecs ==> CutPiece(p, cb, id, c[i], Gap);
    assert cb.TruncateOne? && cb.nrecs > TruncBase(p, e) && ExtSize(e) + e.rc <= cb.nrecs ==>
      CutPiece(p, cb, id, c[i], c[i]);
    hide Inv, Dir, Matches, Stepped, PieceCutsCleanly, FilesOf, Group, Key, Settled, EntOk, CutPiece, FreePast,
      FreeSlots, TruncatedEntry, Rewritten, FullStep, Invoke, ExtSize, TruncBase;
    if cb.DeleteFile? || TruncBase(p, e) >= cb.nrecs {
      EraseStep(p, cb, w, id, i, r);
    } else if ExtSize(e) + e.rc > cb.nrecs {
      var fp := FreePast(p, w.v.alv, e.dskmap, TruncBase(p, e), cb.nrecs, p.Slots());
      RewrittenBuffer(p, w.v, i, TruncatedEntry(e, fp.1, cb.nrecs), fp.0);
      CutStep(p, cb, w, id, i, r);
    } else {
      StepLooks(p, cb, w, id, i, r);
    }
  }

  // ---------------------------------------------------------------- the full scan

  ghost predicate CutsCleanlyFrom(p: Dpb, cb: Callback, id: FileId, c: seq<Piece>, i: nat)
    requires p.WellFormed()
  {
    forall m :: i <= m < |c| ==> PieceCutsCleanly(p, cb, id, c[m])
  }

  /** World `x` is `w` with every piece from index `i` on cut. */
  ghost predicate CutFrom(p: Dpb, cb: Callback, id: FileId, w: World, x: World, i: nat)
    requires Fits(p, w.v) && Fits(p, x.v) && Cutting(cb)
  {
    && Inv(p, x, -1) && x == w.(v := x.v) && x.v.dma == w.v.dma
    && (forall m: nat :: m <= p.drm ==>
          if m < i then FilesOf(p, x)[m] == FilesOf(p, w)[m]
          else CutPiece(p, cb, id, FilesOf(p, w)[m], FilesOf(p, x)[m]))
    && (forall s: nat :: s < |w.v.disk| && DataSector(p, s) ==> x.v.disk[s] == w.v.disk[s])
    && (x.v.truncFound <==> w.v.truncFound || (cb.TruncateOne? && SomeBelongs(FilesOf(p, w), id, i)))
    && (w.v.truncCode < 4 ==> x.v.truncCode < 4)
  }

  /** The file has a piece at index `i` or later. */
  ghost predicate SomeBelongs(c: seq<Piece>, id: FileId, i: nat)
  {
    exists m :: i <= m < |c| && BelongsTo(c[m], id)
  }

  lemma CutFromStep(p: Dpb, cb: Callback, id: FileId, w: World, x: World, y: World, i: nat)
    requires Fits(p, w.v) && Fits(p, x.v) && Fits(p, y.v) && Cutting(cb) && i <= p.drm
    requires Stepped(p, cb, id, w, x, i) && CutFrom(p, cb, id, x, y, i + 1)
    requires NotedBy(cb, id, FilesOf(p, w)[i], w.v, x.v)
    ensures CutFrom(p, cb, id, w, y, i)
  {
    hide Inv, CutPiece, FilesOf, Cutting, SomeBelongs;
    SomeBelongsStep(FilesOf(p, w), FilesOf(p, x), id, i);
    PiecesCutStep(p, cb, id, FilesOf(p, w), FilesOf(p, x), FilesOf(p, y), i);
  }

  lemma SomeBelongsStep(a: seq<Piece>, b: seq<Piece>, id: FileId, i: nat)
    requires i < |a| == |b| && b == a[i := b[i]]
    ensures SomeBelongs(a, id, i) <==> BelongsTo(a[i], id) || SomeBelongs(b, id, i + 1)
  {
    hide BelongsTo;
    if SomeBelongs(b, id, i + 1) {
      var m :| i + 1 <= m < |b| && BelongsTo(b[m], id);
      assert a[m] == b[m];
    }
    if SomeBelongs(a, id, i) && !BelongsTo(a[i], id) {
      var m :| i <= m < |a| && BelongsTo(a[m], id);
      assert b[m] == a[m];
    }
  }

  lemma PiecesCutStep(p: Dpb, cb: Callback, id: FileId, a: seq<Piece>, b: seq<Piece>, c: seq<Piece>, i: nat)
    requires p.WellFormed() && Cutting(cb) && i <= p.drm && |a| == |b| == |c| == p.drm + 1
    requires CutPiece(p, cb, id, a[i], b[i]) && b == a[i := b[i]]
    requires forall m: nat :: m <= p.drm ==> if m < i + 1 then c[m] == b[m] else CutPiece(p, cb, id, b[m], c[m])
    ensures forall m: nat :: m <= p.drm ==> if m < i then c[m] == a[m] else CutPiece(p, cb, id, a[m], c[m])
  {
    hide CutPiece, Cutting;
    forall m: nat | m <= p.drm
      ensures if m < i then c[m] == a[m] else CutPiece(p, cb, id, a[m], c[m])
    {
      if m == i { assert c[m] == b[m]; } else { assert b[m] == a[m]; }
    }
  }

  /** Above the high-water mark there is nothing to cut. */
  lemma NothingAbove(p: Dpb, cb: Callback, id: FileId, w: World, i: nat)
    requires Inv(p, w, -1) && Cutting(cb) && i <= p.drm + 1 && (i == p.drm + 1 || i > w.v.hiwater + 1)
    ensures CutFrom(p, cb, id, w, w, i)
  {
    forall m: nat | i <= m <= p.drm
      ensures CutPiece(p, cb, id, FilesOf(p, w)[m], FilesOf(p, w)[m]) && !BelongsTo(FilesOf(p, w)[m], id)
    {
      assert !Live(Dir(p, w.v)[m]);
      ForeignPiece(p, cb, w, id, m);
      PieceBelongs(p, w, id, m);
    }
    hide Inv, CutPiece, FilesOf;
  }

  lemma NobodyAbove(p: Dpb, cb: Callback, id: FileId, w: World, i: nat)
    requires Inv(p, w, -1) && i <= p.drm + 1 && (i == p.drm + 1 || i > w.v.hiwater + 1)
    ensures !SomeBelongs(FilesOf(p, w), id, i)
  {
    forall m: nat | i <= m <= p.drm ensures !BelongsTo(FilesOf(p, w)[m], id) {
      PieceBelongs(p, w, id, m);
    }
    hide Inv, FilesOf, BelongsTo;
  }

  /** One iteration of a full scan on a steady drive. */
  lemma FullScanStep(p: Dpb, cb: Callback, v: Vol, f: FcbValue, i: nat, rtn: nat)
    requires Steady(p, v) && Buffered(p, v, i) && i <= p.drm && i <= v.hiwater + 1
    requires Invoke(p, cb, AtIndex(p, v, i), f, i).1 == f
    ensures var hit := Invoke(p, cb, AtIndex(p, v, i), f, i).2;
      Scan(p, cb, v, f, i, true, false, rtn)
        == Scan(p, cb, FullStep(p, cb, v, f, i), f, i + 1, true, false, if hit then 0 else rtn)
  {
    hide Invoke, LoadChecked, ChecksumsCurrent, MarkCovers;
    LoadSteady(p, v, i);
  }

  lemma FullScanEnds(p: Dpb, cb: Callback, v: Vol, f: FcbValue, i: nat, rtn: nat)
    requires Fits(p, v) && (i > p.drm || i > v.hiwater + 1)
    ensures Scan(p, cb, v, f, i, true, false, rtn) == (v, f, rtn)
  {
  }

  /** A full scan with `cb` on behalf of FCB `f` may go on from index `i`: nobody has the file open. */
  ghost predicate MayCut(p: Dpb, cb: Callback, w: World, f: FcbValue, i: nat)
  {
    && Inv(p, w, -1) && Cutting(cb) && Addressed(w.user, f)
    && Buffered(p, w.v, i) && NoFcbFor(StateOf(p, w), Key(f.ent))
    && CutsCleanlyFrom(p, cb, Key(f.ent), FilesOf(p, w), i)
  }

  lemma {:induction false} FullScanCuts(p: Dpb, cb: Callback, w: World, f: FcbValue, i: nat, rtn: nat)
    requires MayCut(p, cb, w, f, i) && i <= p.drm + 1
    ensures var r := Scan(p, cb, w.v, f, i, true, false, rtn);
      && r.1 == f && CutFrom(p, cb, Key(f.ent), w, w.(v := r.0), i)
      && r.2 == if cb.DeleteFile? && SomeBelongs(FilesOf(p, w), Key(f.ent), i) then 0 else rtn
    decreases p.drm + 1 - i
  {
    hide Inv, CutFrom, Scan, FilesOf, FullStep, Invoke, Stepped, Key, StateOf, Fits, MayCut, SomeBelongs, BelongsTo;
    MayCutBasics(p, cb, w, f, i);
    var id := Key(f.ent);
    if i > p.drm || i > w.v.hiwater + 1 {
      NothingAbove(p, cb, id, w, i);
      NobodyAbove(p, cb, id, w, i);
      FullScanEnds(p, cb, w.v, f, i, rtn);
      assert w.(v := w.v) == w;
    } else {
      FullScanRound(p, cb, w, f, i, rtn);
      var x := w.(v := FullStep(p, cb, w.v, f, i));
      var hit := Invoke(p, cb, AtIndex(p, w.v, i), f, i).2;
      FullScanCuts(p, cb, x, f, i + 1, if hit then 0 else rtn);
      var y := w.(v := Scan(p, cb, w.v, f, i, true, false, rtn).0);
      assert y == x.(v := y.v);
      StepBelongs(p, cb, id, w, x, i);
      CutFromStep(p, cb, id, w, x, y, i);
    }
  }

  lemma StepBelongs(p: Dpb, cb: Callback, id: FileId, w: World, x: World, i: nat)
    requires Fits(p, w.v) && Fits(p, x.v) && Cutting(cb) && i <= p.drm && Stepped(p, cb, id, w, x, i)
    ensures SomeBelongs(FilesOf(p, w), id, i)
      <==> BelongsTo(FilesOf(p, w)[i], id) || SomeBelongs(FilesOf(p, x), id, i + 1)
  {
    hide Inv, CutPiece, FilesOf, Cutting;
    SomeBelongsStep(FilesOf(p, w), FilesOf(p, x), id, i);
  }

  lemma MayCutBasics(p: Dpb, cb: Callback, w: World, f: FcbValue, i: nat)
    requires MayCut(p, cb, w, f, i)
    ensures Inv(p, w, -1) && Fits(p, w.v) && Cutting(cb)
  {
    hide FilesOk, BlocksOk, FilesOf, CutsCleanlyFrom, NoFcbFor;
  }

  lemma FullScanRound(p: Dpb, cb: Callback, w: World, f: FcbValue, i: nat, rtn: nat)
    requires MayCut(p, cb, w, f, i) && i <= p.drm && i <= w.v.hiwater + 1
    ensures var x := w.(v := FullStep(p, cb, w.v, f, i));
      var hit := Invoke(p, cb, AtIndex(p, w.v, i), f, i).2;
      && Stepped(p, cb, Key(f.ent), w, x, i) && MayCut(p, cb, x, f, i + 1)
      && NotedBy(cb, Key(f.ent), FilesOf(p, w)[i], w.v, x.v)
      && (hit <==> cb.DeleteFile? && BelongsTo(FilesOf(p, w)[i], Key(f.ent)))
      && Scan(p, cb, w.v, f, i, true, false, rtn)
         == Scan(p, cb, x.v, f, i + 1, true, false, if hit then 0 else rtn)
  {
    MayCutBasics(p, cb, w, f, i);
    assert Steady(p, w.v);
    var x := w.(v := FullStep(p, cb, w.v, f, i));
    hide Inv, FilesOf, CutsCleanlyFrom, FullStep, Invoke, Buffered, NoFcbFor, Key, Scan, Addressed, Steady, StateOf,
      CutPiece;
    {
      var e := Dir(p, w.v)[i];
      WantsFile(p, f, w.user, e);
      FullStepCases(p, cb, w.v, f, i);
      if Matches(p, f.ent, e, false) {
        StepOnFile(p, cb, w, f, i);
      } else {
        ForeignPiece(p, cb, w, Key(f.ent), i);
        hide Inv, Dir, Stepped, FilesOf, Key, CutPiece, FullStep, Invoke, Matches;
        StepLooks(p, cb, w, Key(f.ent), i, AtIndex(p, w.v, i));
      }
    }
    StepNotes(p, cb, w, f, i);
    FullScanStep(p, cb, w.v, f, i, rtn);
    StepContext(p, cb, Key(f.ent), w, x, i);
  }

  lemma StepContext(p: Dpb, cb: Callback, id: FileId, w: World, x: World, i: nat)
    requires Inv(p, w, -1) && Fits(p, x.v) && Cutting(cb) && i <= p.drm && Stepped(p, cb, id, w, x, i)
    requires NoFcbFor(StateOf(p, w), id) && CutsCleanlyFrom(p, cb, id, FilesOf(p, w), i)
    ensures Buffered(p, x.v, i + 1) && NoFcbFor(StateOf(p, x), id)
    ensures CutsCleanlyFrom(p, cb, id, FilesOf(p, x), i + 1)
  {
    hide Inv, FilesOf, PieceCutsCleanly, CutPiece;
    if (i + 1) % 4 != 0 { assert (i + 1) / 4 == i / 4; }
  }

  // ---------------------------------------------------------------- what the files become

  ghost predicate AllCut(p: Dpb, cb: Callback, id: FileId, c: seq<Piece>, c': seq<Piece>)
    requires p.WellFormed() && Cutting(cb)
  {
    |c'| == |c| && forall m: nat :: m < |c| ==> CutPiece(p, cb, id, c[m], c'[m])
  }

  /** Records another file has are where they were; of the cut file, those below the cut are. */
  lemma LocateCut(p: Dpb, cb: Callback, id: FileId, c: seq<Piece>, c': seq<Piece>, id': FileId, n: nat)
    requires p.WellFormed() && Cutting(cb) && AllCut(p, cb, id, c, c') && Unique(c) && RcOk(c)
    requires CutsCleanlyFrom(p, cb, id, c, 0)
    ensures Locate(p, c', id', n) ==
      if id' == id && (cb.DeleteFile? || n >= cb.nrecs) then None else Locate(p, c, id', n)
  {
    var g, q := p.GroupOf(n), p.RecIn(n);
    var i := Find(c, id', g);
    GroupOfRecord(p, n);
    if id' != id {
      {
        forall m: nat | m < |c| ensures IsFor(c'[m], id', g) <==> IsFor(c[m], id', g) {
          assert CutPiece(p, cb, id, c[m], c'[m]);
          hide EndOf, KeptBelow;
        }
        FindIs(c', id', g, Find(c, id', g));
      }
      if i < |c| { assert CutPiece(p, cb, id, c[i], c'[i]); }
      hide CutPiece, Readable, BlockOf;
    } else if i == |c| {
      FindCutNone(p, cb, id, c, c', g);
    } else if c'[i].Piece? {
      assert CutPiece(p, cb, id, c[i], c'[i]);
      FindCutSame(p, cb, id, c, c', g, i);
      ReadableCut(p, cb, id, c[i], c'[i], n);
      hide Readable, BlockOf, EndOf;
    } else {
      assert CutPiece(p, cb, id, c[i], c'[i]);
      FindCutGone(p, cb, id, c, c', g, i);
      hide Readable, BlockOf, EndOf;
    }
  }

  lemma GroupOfRecord(p: Dpb, n: nat)
    requires p.WellFormed()
    ensures n == (p.GroupOf(n)) * p.GroupRecs() + p.RecIn(n)
  {
  }

  /** A cut adds no piece to the file. */
  lemma CutFindsFewer(p: Dpb, cb: Callback, id: FileId, c: seq<Piece>, c': seq<Piece>, g: nat)
    requires p.WellFormed() && Cutting(cb) && AllCut(p, cb, id, c, c')
    ensures forall m: nat :: m < |c| && IsFor(c'[m], id, g) ==> IsFor(c[m], id, g)
  {
    forall m: nat | m < |c| && IsFor(c'[m], id, g) ensures IsFor(c[m], id, g) {
      assert CutPiece(p, cb, id, c[m], c'[m]);
      hide EndOf, KeptBelow;
    }
  }

  lemma FindCutNone(p: Dpb, cb: Callback, id: FileId, c: seq<Piece>, c': seq<Piece>, g: nat)
    requires p.WellFormed() && Cutting(cb) && AllCut(p, cb, id, c, c') && Find(c, id, g) == |c|
    ensures Find(c', id, g) == |c|
  {
    CutFindsFewer(p, cb, id, c, c', g);
    FindIs(c', id, g, |c|);
  }

  lemma FindCutSame(p: Dpb, cb: Callback, id: FileId, c: seq<Piece>, c': seq<Piece>, g: nat, i: nat)
    requires p.WellFormed() && Cutting(cb) && AllCut(p, cb, id, c, c') && Find(c, id, g) == i < |c|
    requires c'[i].Piece?
    ensures Find(c', id, g) == i && IsFor(c'[i], id, g)
  {
    assert CutPiece(p, cb, id, c[i], c'[i]);
    CutFindsFewer(p, cb, id, c, c', g);
    FindIs(c', id, g, i);
  }

  lemma FindCutGone(p: Dpb, cb: Callback, id: FileId, c: seq<Piece>, c': seq<Piece>, g: nat, i: nat)
    requires p.WellFormed() && Cutting(cb) && AllCut(p, cb, id, c, c') && Find(c, id, g) == i < |c| && Unique(c)
    requires c'[i] == Gap
    ensures Find(c', id, g) == |c|
  {
    CutFindsFewer(p, cb, id, c, c', g);
    FindIs(c', id, g, |c|);
  }

  /** Inside the piece the cut falls into. */
  lemma ReadableCut(p: Dpb, cb: Callback, id: FileId, x: Piece, x': Piece, n: nat)
    requires p.WellFormed() && cb.TruncateOne? && CutPiece(p, cb, id, x, x') && PieceCutsCleanly(p, cb, id, x)
    requires x.Piece? && x.id == id && x'.Piece? && x.rc <= 128 && x.group == p.GroupOf(n)
    ensures var q := p.RecIn(n);
      && (Readable(p, x'.dskmap, x'.rc, q) <==> n < cb.nrecs && Readable(p, x.dskmap, x.rc, q))
      && (Readable(p, x'.dskmap, x'.rc, q) ==> BlockOf(p, x'.dskmap, q) == BlockOf(p, x.dskmap, q))
  {
    var q, base := p.RecIn(n), x.group * p.GroupRecs();
    GroupOfRecord(p, n);
    if base + EndOf(p, x.dskmap, x.rc) > cb.nrecs {
      var t := cb.nrecs - base;
      KeptBlock(p, x.dskmap, t, x'.dskmap, q);
      CutEnd(p, x.dskmap, t, x');
      hide EndOf, BlockOf, CutIsClean, KeptBelow;
    } else {
      hide EndOf, BlockOf, CutIsClean, KeptBelow;
    }
  }

  lemma KeptBlock(p: Dpb, m: Map, t: nat, m': Map, q: nat)
    requires p.WellFormed() && KeptBelow(p, m, t, m') && q < p.GroupRecs()
    ensures q < t ==> BlockOf(p, m', q) == BlockOf(p, m, q)
  {
    QuotientInMap(p, q);
    var b := p.BlockRecs();
    var k: nat := q / b;
    QuotientBound(q, b);
    assert BlockOf(p, m, q) == Slot(p, m, k) && BlockOf(p, m', q) == Slot(p, m', k) by { hide Slot, KeptBelow; }
    hide Slot, KeptBelow, BlockOf;
    if k * b < t { KeptSlot(p, m, t, m', k); }
  }

  lemma KeptSlot(p: Dpb, m: Map, t: nat, m': Map, k: nat)
    requires KeptBelow(p, m, t, m') && k < p.Slots() && k * p.BlockRecs() < t
    ensures Slot(p, m', k) == Slot(p, m, k)
  {
    hide Slot;
  }

  lemma CutEnd(p: Dpb, m: Map, t: nat, x: Piece)
    requires p.WellFormed() && 0 < t && x.Piece? && KeptBelow(p, m, t, x.dskmap) && CutIsClean(p, m, t)
    requires x.rc == (t - 1) % 128 + 1
    ensures EndOf(p, x.dskmap, x.rc) == t
  {
    CleanCutSettles(p, m, t, x.dskmap);
    hide LastExt, CutIsClean, KeptBelow;
  }
}

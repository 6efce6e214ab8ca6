/** Truncating a file (fileio.c:754-944): which records stay, which blocks are released, what size is
    reported afterwards, and exactly when an entry loses records it should have kept. */
module Truncation {
  import opened DiskParams
  import opened DiskMap
  import opened Directory
  import opened Allocation
  import opened Volume
  import opened RecordIo
  import opened Scanning
  import opened Files
  import opened Blocks
  import opened FileSystem
  import opened Transitions
  import opened Erasing
  import opened FileCalls

  /** `truncate_fi` (fileio.c:909-944). */
  function TruncateFi(p: Dpb, v: Vol, f: FcbValue): (r: (Vol, FcbValue, nat))
    requires Fits(p, v)
    ensures Fits(p, r.0)
  {
    var want := UnpackRan(f);
    var s := GetSize(p, v, f, 0, 0);
    var cur := UnpackRan(s.1);
    if want > cur then (s.0, f, 255)
    else if want == cur then (s.0, f, 0)
    else
      var r := DirScan(p, TruncateOne(want), s.0.(truncFound := false, truncCode := 0), f, true, false);
      if !r.0.truncFound then (r.0, r.1, 255) else (r.0.(crit := true), r.1, r.0.truncCode)
  }

  // ---------------------------------------------------------------- sizes

  /** First record past the data of a piece. */
  function PieceEnd(p: Dpb, x: Piece): nat
    requires p.WellFormed() && x.Piece?
  {
    x.group * p.GroupRecs() + EndOf(p, x.dskmap, x.rc)
  }

  /** Size of a file: the furthest end of its pieces from index `i` on. */
  function SizeFrom(p: Dpb, c: seq<Piece>, id: FileId, i: nat): nat
    requires p.WellFormed() && i <= |c|
    decreases |c| - i
  {
    if i == |c| then 0
    else Larger(if BelongsTo(c[i], id) then PieceEnd(p, c[i]) else 0, SizeFrom(p, c, id, i + 1))
  }

  /** Size the file has left after a cut at `n`: what survives of each piece ends at `n` at most. */
  function CutSizeFrom(p: Dpb, c: seq<Piece>, id: FileId, n: nat, i: nat): nat
    requires p.WellFormed() && i <= |c|
    decreases |c| - i
  {
    if i == |c| then 0
    else Larger(if BelongsTo(c[i], id) && c[i].group * p.GroupRecs() < n
                then (if PieceEnd(p, c[i]) < n then PieceEnd(p, c[i]) else n) else 0,
                CutSizeFrom(p, c, id, n, i + 1))
  }

  lemma {:induction false} SizeBounds(p: Dpb, c: seq<Piece>, id: FileId, i: nat)
    requires p.WellFormed() && i <= |c|
    ensures forall m: nat :: i <= m < |c| && BelongsTo(c[m], id) ==> PieceEnd(p, c[m]) <= SizeFrom(p, c, id, i)
    ensures SizeFrom(p, c, id, i) != 0 ==> SomeBelongs(c, id, i)
    decreases |c| - i
  {
    hide PieceEnd;
    if i < |c| { SizeBounds(p, c, id, i + 1); }
  }

  /** When nobody has the file open, `getsize` reports the size of the file. */
  lemma {:induction false} SizeIsLargestEnd(p: Dpb, w: World, f: FcbValue, i: nat)
    requires Inv(p, w, -1) && i <= p.drm + 1 && Addressed(w.user, f) && NoFcbFor(StateOf(p, w), Key(f.ent))
    ensures LargestEnd(Dir(p, w.v), f.ent, i) == SizeFrom(p, FilesOf(p, w), Key(f.ent), i)
    decreases p.drm + 1 - i
  {
    if i <= p.drm {
      SizeIsLargestEnd(p, w, f, i + 1);
      var e, x := Dir(p, w.v)[i], FilesOf(p, w)[i];
      WantsFile(p, f, w.user, e);
      PieceBelongs(p, w, Key(f.ent), i);
      if BelongsTo(x, Key(f.ent)) {
        UnownedPiece(p, w, Key(f.ent), i);
        SettledEnd(p, e);
      }
      hide Inv, Dir, FilesOf, Key, EntOk, NameMatches, PieceEnd, ExtSize;
    }
  }

  /** `fsize`'s arithmetic on a settled entry. */
  lemma SettledEnd(p: Dpb, e: Ent)
    requires p.WellFormed() && EntOk(p, e) && Live(e) && Settled(p, e)
    ensures e.rc + ExtSize(e) == PieceEnd(p, PieceOf(p, e))
  {
    TruncBaseIs(p, e);
    hide Group, LastExt;
  }

  // ---------------------------------------------------------------- clean cuts

  /** With one extent per entry every cut is clean. */
  lemma CleanWhenUnfolded(p: Dpb, cb: Callback, id: FileId, c: seq<Piece>)
    requires p.WellFormed() && p.Extents() == 1 && RcOk(c)
    ensures CutsCleanly(p, cb, id, c)
  {
    forall i | 0 <= i < |c| ensures PieceCutsCleanly(p, cb, id, c[i]) {
      if c[i].Piece? { EndInGroup(p, c[i].dskmap, c[i].rc); }
      hide EndOf;
    }
  }

  /** A cut just above a record that can be read is clean. */
  lemma CleanAboveData(p: Dpb, cb: Callback, id: FileId, c: seq<Piece>)
    requires p.WellFormed() && cb.TruncateOne? && 0 < cb.nrecs && Unique(c) && RcOk(c)
    requires Locate(p, c, id, cb.nrecs - 1).Some?
    ensures CutsCleanly(p, cb, id, c)
  {
    forall i | 0 <= i < |c| ensures PieceCutsCleanly(p, cb, id, c[i]) {
      if c[i].Piece? && c[i].id == id
         && c[i].group * p.GroupRecs() < cb.nrecs < c[i].group * p.GroupRecs() + EndOf(p, c[i].dskmap, c[i].rc) {
        {
          EndInGroup(p, c[i].dskmap, c[i].rc);
          QuotientIs(cb.nrecs - 1, c[i].group, p.GroupRecs());
          FindUnique(c, i, id, c[i].group);
          var q := p.RecIn(cb.nrecs - 1);
          assert BlockOf(p, c[i].dskmap, q) != 0 by { hide EndOf, BlockOf, CutIsClean; }
          SlotExtent(p, q);
          QuotientBound(q, p.BlockRecs());
          var k: nat := MapIndex(p, q);
          assert Slot(p, (c[i].dskmap), k) != 0;
        }
      }
      hide EndOf, CutIsClean;
    }
  }

  lemma QuotientIs(n: nat, g: nat, r: nat)
    requires 0 < r && g * r <= n < g * r + r
    ensures n / r == g && n % r == n - g * r
  {
    var d := n - g * r;
    assert n == d + g * r;
    assert n / r == g by { if n / r < g { NextMultiple(n / r, g, r); } if n / r > g { NextMultiple(g, n / r, r); } }
  }

  /** The end of an entry's data lies in its group. */
  lemma EndInGroup(p: Dpb, m: Map, rc: byte)
    requires p.WellFormed() && rc <= 128
    ensures EndOf(p, m, rc) <= p.GroupRecs()
  {
    hide LastExt;
  }

  // ---------------------------------------------------------------- when an entry loses records

  /** After the cut exactly the records below `t` that had a block can be read. */
  ghost predicate KeepsBelow(p: Dpb, m: Map, t: nat, m': Map)
    requires p.WellFormed() && 0 < t
  {
    forall q: nat :: q < p.GroupRecs() ==>
      (Readable(p, m', (t - 1) % 128 + 1, q) <==> q < t && BlockOf(p, m, q) != 0)
  }

  /** Slot `k` is the last one in use that starts below record `t`. */
  predicate IsLastKept(p: Dpb, m: Map, t: nat, k: nat)
  {
    && k < p.Slots() && k * p.BlockRecs() < t && Slot(p, m, k) != 0
    && forall i: nat :: k < i < p.Slots() && i * p.BlockRecs() < t ==> Slot(p, m, i) == 0
  }

  /** Its block ends no later than the record count that is stored allows in its extent. */
  ghost predicate LastKeptFits(p: Dpb, m: Map, t: nat)
    requires p.WellFormed() && 0 < t
  {
    forall k: nat :: IsLastKept(p, m, t, k) ==>
      (k + 1) * p.BlockRecs() <= k / p.SlotsPerExtent() * 128 + (t - 1) % 128 + 1
  }

  /** The same on the map that the cut leaves. */
  ghost predicate LastBlockFits(p: Dpb, t: nat, m': Map)
    requires p.WellFormed() && 0 < t
  {
    Slot(p, m', LastSlot(p, m')) != 0 ==> (LastSlot(p, m') + 1) * p.BlockRecs() <= EndOf(p, m', (t - 1) % 128 + 1)
  }

  lemma FitsBefore(p: Dpb, m: Map, t: nat, m': Map)
    requires p.WellFormed() && 0 < t && KeptBelow(p, m, t, m')
    ensures LastBlockFits(p, t, m') <==> LastKeptFits(p, m, t)
  {
    hide Slot, LastSlot, Dpb.WellFormed;
    LastSlotIsLast(p, m');
    var l := LastSlot(p, m');
    if Slot(p, m', l) != 0 {
      assert IsLastKept(p, m, t, l);
      forall k: nat | IsLastKept(p, m, t, k) ensures k == l {
        assert Slot(p, m', k) != 0;
      }
    } else {
      assert forall k: nat :: k < p.Slots() ==> Slot(p, m', k) == 0;
    }
  }

  /** `truncate_one` stores the extent and record count of the last record kept. Readers take the
      extent from the last allocated slot instead, so with several extents to an entry and a hole
      before the cut the two disagree and kept records above the count are lost. This is exactly
      when that happens. */
  lemma TruncationExact(p: Dpb, m: Map, t: nat, m': Map)
    requires p.WellFormed() && 0 < t <= p.GroupRecs() && KeptBelow(p, m, t, m')
    ensures KeepsBelow(p, m, t, m') <==> CutIsClean(p, m, t) || LastKeptFits(p, m, t)
  {
    CleanCutSettles(p, m, t, m');
    FitsBefore(p, m, t, m');
    hide CutIsClean, KeepsBelow, LastBlockFits, LastKeptFits, EndOf, KeptBelow;
    if CutIsClean(p, m, t) {
      CleanKeeps(p, m, t, m');
    } else if LastBlockFits(p, t, m') {
      FittingKeeps(p, m, t, m');
    } else {
      MisfitLoses(p, m, t, m');
    }
  }

  lemma CleanKeeps(p: Dpb, m: Map, t: nat, m': Map)
    requires p.WellFormed() && 0 < t && KeptBelow(p, m, t, m') && LastExt(p, m') == (t - 1) / 128
    ensures KeepsBelow(p, m, t, m')
  {
    assert EndOf(p, m', (t - 1) % 128 + 1) == t;
    forall q: nat | q < p.GroupRecs()
      ensures Readable(p, m', (t - 1) % 128 + 1, q) <==> q < t && BlockOf(p, m, q) != 0
    {
      KeptBlock(p, m, t, m', q);
      hide EndOf, KeptBelow, BlockOf;
    }
  }

  /** A record with a block lies at or below the end of the last block. */
  lemma BelowLastBlock(p: Dpb, m: Map, q: nat)
    requires p.WellFormed() && q < p.GroupRecs() && BlockOf(p, m, q) != 0
    ensures Slot(p, m, LastSlot(p, m)) != 0 && q < (LastSlot(p, m) + 1) * p.BlockRecs()
  {
    var b := p.BlockRecs();
    var k: nat := q / b;
    var l := LastSlot(p, m);
    QuotientBelow(q, b);
    assert Slot(p, m, k) != 0 by { hide Slot; }
    LastSlotIsLast(p, m);
    hide Slot, LastSlot, BlockOf;
    assert k <= l;
    Monotone(k, l, b);
  }

  lemma Monotone(k: nat, l: nat, b: nat)
    requires k <= l
    ensures (k + 1) * b <= (l + 1) * b
  {
  }

  lemma QuotientBelow(q: nat, b: nat)
    requires 0 < b
    ensures q < (q / b + 1) * b
  {
  }

  /** A slot's records start below `t` only if its block is kept. */
  lemma KeptIffBelow(p: Dpb, m: Map, t: nat, m': Map, q: nat)
    requires p.WellFormed() && KeptBelow(p, m, t, m') && q < p.GroupRecs()
    ensures q < t ==> BlockOf(p, m', q) == BlockOf(p, m, q)
    ensures BlockOf(p, m', q) != 0 ==> BlockOf(p, m', q) == BlockOf(p, m, q)
  {
    KeptBlock(p, m, t, m', q);
    var k: nat := MapIndex(p, q);
    assert BlockOf(p, m, q) == Slot(p, m, k) && BlockOf(p, m', q) == Slot(p, m', k) by { hide Slot, KeptBelow; }
    hide Slot, BlockOf;
  }

  lemma FittingKeeps(p: Dpb, m: Map, t: nat, m': Map)
    requires p.WellFormed() && 0 < t && KeptBelow(p, m, t, m') && LastBlockFits(p, t, m')
    requires LastExt(p, m') <= (t - 1) / 128
    ensures KeepsBelow(p, m, t, m')
  {
    var rc := (t - 1) % 128 + 1;
    EndAtMost(p, m', t);
    forall q: nat | q < p.GroupRecs()
      ensures Readable(p, m', rc, q) <==> q < t && BlockOf(p, m, q) != 0
    {
      KeptIffBelow(p, m, t, m', q);
      FittingBelow(p, t, m', q);
      hide EndOf, KeptBelow, BlockOf, LastBlockFits, Dpb.WellFormed;
    }
  }

  lemma FittingBelow(p: Dpb, t: nat, m': Map, q: nat)
    requires p.WellFormed() && 0 < t && LastBlockFits(p, t, m') && q < p.GroupRecs()
    ensures BlockOf(p, m', q) != 0 ==> q < EndOf(p, m', (t - 1) % 128 + 1)
  {
    hide Slot, LastSlot, EndOf, BlockOf, Dpb.WellFormed;
    if BlockOf(p, m', q) != 0 { BelowLastBlock(p, m', q); }
  }

  lemma EndAtMost(p: Dpb, m: Map, t: nat)
    requires p.WellFormed() && 0 < t && LastExt(p, m) <= (t - 1) / 128
    ensures EndOf(p, m, (t - 1) % 128 + 1) <= t
  {
    hide LastExt, Dpb.WellFormed;
  }

  lemma MisfitLoses(p: Dpb, m: Map, t: nat, m': Map)
    requires p.WellFormed() && 0 < t <= p.GroupRecs() && KeptBelow(p, m, t, m') && !LastBlockFits(p, t, m')
    requires LastExt(p, m') < (t - 1) / 128
    ensures !KeepsBelow(p, m, t, m')
  {
    var rc := (t - 1) % 128 + 1;
    var b, l := p.BlockRecs(), LastSlot(p, m');
    var q := (l + 1) * b - 1;
    SlotEnds(p, l);
    QuotientIs(q, l, b);
    assert q < t && q < p.GroupRecs() && BlockOf(p, m', q) != 0 by { hide LastSlot, Slot, EndOf; }
    KeptIffBelow(p, m, t, m', q);
    assert !Readable(p, m', rc, q) by { hide KeptBelow, BlockOf, EndOf, Slot, LastSlot; }
    hide Readable, BlockOf;
  }

  /** A slot's records end inside its extent. */
  lemma SlotEnds(p: Dpb, l: nat)
    requires p.WellFormed() && l < p.Slots()
    ensures (l + 1) * p.BlockRecs() <= (l / p.SlotsPerExtent() + 1) * 128
  {
    Shapes(p);
    var s := p.SlotsPerExtent();
    if s == 16 {} else if s == 8 {} else if s == 4 {} else if s == 2 {} else { assert s == 1; }
  }

  /** A drive on which this loses data: two extents to an entry, sixteen records to a block. */
  const FOLDED := Dpb(64, 4, 15, 1, 191, 255, 64)

  /** Block 5 holds records 0..15 and block 6 records 240..255; truncation to 130 records keeps
      block 5 but stores record count 2, so that records 2..15 cannot be read any more. */
  lemma TruncationLosesRecords()
    ensures FOLDED.WellFormed()
    ensures var e := DirEnt(0, [65, 32, 32, 32, 32, 32, 32, 32, 32, 32, 32], 1, 0, 0, 128,
                            [5, 0, 0, 0, 0, 0, 0, 0, 0, 0, 0, 0, 0, 0, 0, 6]);
      var m' := [5, 0, 0, 0, 0, 0, 0, 0, 0, 0, 0, 0, 0, 0, 0, 0];
      && Settled(FOLDED, e) && Readable(FOLDED, e.dskmap, e.rc, 2) && TruncatedEntry(e, m', 130).rc == 2
      && KeptBelow(FOLDED, e.dskmap, 130, m') && !Readable(FOLDED, m', 2, 2)
  {
    var p := FOLDED;
    Exp2Values();
    assert p.WellFormed();
    var m: Map := [5, 0, 0, 0, 0, 0, 0, 0, 0, 0, 0, 0, 0, 0, 0, 6];
    var m': Map := [5, 0, 0, 0, 0, 0, 0, 0, 0, 0, 0, 0, 0, 0, 0, 0];
    LastSlotUnique(p, m, 15);
    LastSlotUnique(p, m', 0);
    assert LastExt(p, m) == 1 && LastExt(p, m') == 0;
  }

  // ---------------------------------------------------------------- blocks

  /** Block `b` belongs to a slot of the file that the cut removes. */
  ghost predicate CutOff(p: Dpb, cb: Callback, id: FileId, c: seq<Piece>, b: nat)
    requires Cutting(cb)
  {
    && b != 0
    && exists i: nat, k: nat :: i < |c| && k < p.Slots() && BlockAt(p, c, i, k) == b && Removed(p, cb, id, c, i, k)
  }

  predicate Removed(p: Dpb, cb: Callback, id: FileId, c: seq<Piece>, i: nat, k: nat)
    requires i < |c| && Cutting(cb)
  {
    BelongsTo(c[i], id) && (cb.DeleteFile? || c[i].group * p.GroupRecs() + k * p.BlockRecs() >= cb.nrecs)
  }

  /** Cutting a file releases exactly the blocks whose first record is removed. */
  lemma CutFrees(p: Dpb, cb: Callback, id: FileId, a: Vector, a': Vector, c: seq<Piece>, c': seq<Piece>)
    requires BlocksOk(p, a, c) && BlocksOk(p, a', c') && Cutting(cb) && AllCut(p, cb, id, c, c')
    ensures forall b: nat :: b <= p.dsm ==> (a'[b] <==> a[b] && !CutOff(p, cb, id, c, b))
  {
    forall i: nat, k: nat | i < |c| && k < p.Slots()
      ensures BlockAt(p, c', i, k) == if Removed(p, cb, id, c, i, k) then 0 else BlockAt(p, c, i, k)
    {
      assert CutPiece(p, cb, id, c[i], c'[i]);
      assert BlockAt(p, c, i, k) != 0 ==> k * p.BlockRecs() < EndOf(p, c[i].dskmap, c[i].rc);
    }
    hide BlockAt, CutPiece, Removed, AllCut, Covered, RcOk, Unique;
    forall b: nat | 0 < b <= p.dsm
      ensures Blocks.Named(p, c', b) <==> Blocks.Named(p, c, b) && !CutOff(p, cb, id, c, b)
      ensures CutOff(p, cb, id, c, b) ==> p.DirBlocks() <= b
    {
      if Blocks.Named(p, c', b) {
        var i: nat, k: nat :| i < |c| && k < p.Slots() && BlockAt(p, c', i, k) == b;
        assert BlockAt(p, c, i, k) == b;
      }
      if Blocks.Named(p, c, b) && !CutOff(p, cb, id, c, b) {
        var i: nat, k: nat :| i < |c| && k < p.Slots() && BlockAt(p, c, i, k) == b;
        assert BlockAt(p, c', i, k) == b;
      }
    }
  }

  // ---------------------------------------------------------------- sizes after the cut

  /** What survives of each piece ends at `n` at most. */
  lemma {:induction false} SizeOfCut(p: Dpb, cb: Callback, id: FileId, c: seq<Piece>, c': seq<Piece>, i: nat)
    requires p.WellFormed() && cb.TruncateOne? && AllCut(p, cb, id, c, c') && CutsCleanlyFrom(p, cb, id, c, 0)
    requires i <= |c|
    ensures SizeFrom(p, c', id, i) == CutSizeFrom(p, c, id, cb.nrecs, i)
    decreases |c| - i
  {
    if i < |c| {
      assert CutPiece(p, cb, id, c[i], c'[i]);
      if BelongsTo(c[i], id) && c[i].group * p.GroupRecs() < cb.nrecs < PieceEnd(p, c[i]) {
        CutEnd(p, c[i].dskmap, cb.nrecs - c[i].group * p.GroupRecs(), c'[i]);
      }
      SizeOfCut(p, cb, id, c, c', i + 1);
      hide CutPiece, PieceEnd, PieceCutsCleanly;
    }
  }

  /** The size is `n` when some entry's data spans `n`, as it does in a file without holes. */
  lemma {:induction false} CutSizeIs(p: Dpb, c: seq<Piece>, id: FileId, n: nat, i: nat)
    requires p.WellFormed() && i <= |c|
    ensures CutSizeFrom(p, c, id, n, i) <= n
    ensures (CutSizeFrom(p, c, id, n, i) == n) <==>
      n == 0 || exists m :: i <= m < |c| && Spans(p, c[m], id, n)
    decreases |c| - i
  {
    if i < |c| {
      CutSizeIs(p, c, id, n, i + 1);
      hide PieceEnd;
    }
  }

  predicate Spans(p: Dpb, x: Piece, id: FileId, n: nat)
    requires p.WellFormed()
  {
    BelongsTo(x, id) && x.group * p.GroupRecs() < n <= PieceEnd(p, x)
  }

  /** No record at or past the size of a file can be read. */
  lemma NothingBeyond(p: Dpb, c: seq<Piece>, id: FileId, n: nat)
    requires p.WellFormed() && Locate(p, c, id, n).Some?
    ensures n < SizeFrom(p, c, id, 0)
  {
    var i := Find(c, id, p.GroupOf(n));
    GroupOfRecord(p, n);
    assert n < PieceEnd(p, c[i]) by { hide EndOf, BlockOf; }
    SizeBounds(p, c, id, 0);
  }

  // ---------------------------------------------------------------- truncate_fi

  /** The file's records from `n` on are gone, everything else stays. */
  ghost predicate TruncatedViews(p: Dpb, w: World, x: World, id: FileId, n: nat)
    requires Fits(p, w.v) && Fits(p, x.v)
  {
    forall id': FileId, m: nat ::
      FileView(p, x, id', m) == if id' == id && m >= n then None else FileView(p, w, id', m)
  }

  /** Outcome of truncating file `id` to `n` records. */
  ghost predicate TruncateOutcome(p: Dpb, w: World, f: FcbValue, n: nat, r: (Vol, FcbValue, nat))
    requires Fits(p, w.v) && Fits(p, r.0)
  {
    var id := Key(f.ent);
    var c := FilesOf(p, w);
    var x := w.(v := r.0);
    && r.1 == f && Inv(p, x, -1) && r.0.dma == w.v.dma
    && (r.2 < 255 <==> n <= SizeFrom(p, c, id, 0))
    && (r.2 >= 255 ==> SameViews(p, w, x) && r.0.alv == w.v.alv)
    && (r.2 < 255 ==>
          && TruncatedViews(p, w, x, id, n)
          && SizeFrom(p, FilesOf(p, x), id, 0) == (if n < SizeFrom(p, c, id, 0) then CutSizeFrom(p, c, id, n, 0) else n)
          && forall b: nat :: b <= p.dsm ==> (r.0.alv[b] <==> w.v.alv[b] && !CutOff(p, TruncateOne(n), id, c, b)))
  }

  /** `getsize` on a file nobody has open. */
  lemma SizeKnown(p: Dpb, w: World, f: FcbValue)
    requires Inv(p, w, -1) && Addressed(w.user, f) && NoFcbFor(StateOf(p, w), Key(f.ent))
    ensures var s := GetSize(p, w.v, f, 0, 0);
      && OnlyLooked(w.v, s.0) && UnpackRan(s.1) == SizeFrom(p, FilesOf(p, w), Key(f.ent), 0)
  {
    assert Steady(p, w.v);
    forall k | 0 <= k <= p.drm && Wants(p, FileSize, f.ent, Dir(p, w.v)[k]) ensures Live(Dir(p, w.v)[k]) {
      WantsFile(p, f, w.user, Dir(p, w.v)[k]);
    }
    assert WantsLive(p, FileSize, Dir(p, w.v), f.ent);
    SizeIsLargestEnd(p, w, f, 0);
    hide Inv, GetSize, UnpackRan, SizeFrom, LargestEnd, FilesOf, Key, Addressed, NoFcbFor, Dir, WantsLive,
      ChecksumsCurrent, MarkCovers;
    GetSizeIsLargestEnd(p, w.v, f, 0, 0);
  }

  /** Views of a world whose pieces have been cut. */
  lemma CutViews(p: Dpb, cb: Callback, id: FileId, w: World, x: World)
    requires Inv(p, w, -1) && Inv(p, x, -1) && Cutting(cb) && AllCut(p, cb, id, FilesOf(p, w), FilesOf(p, x))
    requires CutsCleanly(p, cb, id, FilesOf(p, w))
    requires forall s: nat :: s < |w.v.disk| && DataSector(p, s) ==> x.v.disk[s] == w.v.disk[s]
    ensures forall id': FileId, m: nat ::
      FileView(p, x, id', m) == if id' == id && (cb.DeleteFile? || m >= cb.nrecs) then None else FileView(p, w, id', m)
  {
    var c, c' := FilesOf(p, w), FilesOf(p, x);
    assert Unique(c) && RcOk(c) && InData(p, c) && InData(p, c') && Fits(p, w.v) && Fits(p, x.v);
    hide Inv, FilesOf, Locate, AllCut, Unique, RcOk, InData, View, PieceCutsCleanly, DataSector;
    forall id': FileId, m: nat
      ensures FileView(p, x, id', m)
        == if id' == id && (cb.DeleteFile? || m >= cb.nrecs) then None else FileView(p, w, id', m)
    {
      LocateCut(p, cb, id, c, c', id', m);
      ViewIsLocate(p, c, w.v.disk, id', m);
      ViewIsLocate(p, c', x.v.disk, id', m);
    }
  }

  /** Truncating to the present size, or to more, changes nothing. */
  lemma NoCut(p: Dpb, w: World, f: FcbValue, n: nat, v: Vol)
    requires Inv(p, w, -1) && OnlyLooked(w.v, v) && n >= SizeFrom(p, FilesOf(p, w), Key(f.ent), 0)
    ensures Fits(p, v) && TruncateOutcome(p, w, f, n, (v, f, if n == SizeFrom(p, FilesOf(p, w), Key(f.ent), 0) then 0
      else 255))
  {
    var id := Key(f.ent);
    var c := FilesOf(p, w);
    var x := w.(v := v);
    QuietKeeps(p, w, v, -1);
    assert FilesOf(p, x) == c && InData(p, c) && Covered(p, c) && Fits(p, v);
    hide Inv, FilesOf, SizeFrom, Key, InData, Covered;
    forall m: nat | m >= n ensures FileView(p, w, id, m) == None {
      ViewIsLocate(p, c, w.v.disk, id, m);
      if Locate(p, c, id, m).Some? { NothingBeyond(p, c, id, m); }
      hide Locate;
    }
    forall b: nat | b <= p.dsm ensures !CutOff(p, TruncateOne(n), id, c, b) { NothingCutOff(p, c, id, n, b); }
    hide FileView, CutOff;
  }

  lemma NothingCutOff(p: Dpb, c: seq<Piece>, id: FileId, n: nat, b: nat)
    requires p.WellFormed() && Covered(p, c) && n >= SizeFrom(p, c, id, 0)
    ensures !CutOff(p, TruncateOne(n), id, c, b)
  {
    SizeBounds(p, c, id, 0);
    hide SizeFrom, EndOf, Slot;
    assert forall m: nat :: m < |c| && BelongsTo(c[m], id) ==>
      c[m].group * p.GroupRecs() + EndOf(p, c[m].dskmap, c[m].rc) <= n;
  }

  /** The scan that does the truncation. */
  lemma RealCut(p: Dpb, w: World, f: FcbValue, n: nat, v: Vol)
    requires Inv(p, w, -1) && Addressed(w.user, f) && NoFcbFor(StateOf(p, w), Key(f.ent)) && Quiet(w.v, v)
    requires !v.truncFound && v.truncCode == 0 && v.dma == w.v.dma
    requires CutsCleanly(p, TruncateOne(n), Key(f.ent), FilesOf(p, w)) && n < SizeFrom(p, FilesOf(p, w), Key(f.ent), 0)
    ensures Fits(p, v) && DirScan(p, TruncateOne(n), v, f, true, false).0.truncFound
    ensures var r := DirScan(p, TruncateOne(n), v, f, true, false);
      TruncateOutcome(p, w, f, n, (r.0.(crit := true), r.1, r.0.truncCode))
  {
    var id, cb := Key(f.ent), TruncateOne(n);
    QuietKeeps(p, w, v, -1);
    var y := w.(v := v);
    var c := FilesOf(p, w);
    assert FilesOf(p, y) == c && Fits(p, v) && MayCut(p, cb, y, f, 0) by {
      hide FilesOf, Key, Inv, PieceCutsCleanly;
    }
    var r := DirScan(p, cb, v, f, true, false);
    assert r == Scan(p, cb, v, f, 0, true, false, 255);
    hide FilesOf, Key, SizeFrom, PieceCutsCleanly, Inv, MayCut, DirScan, TruncateOutcome, Dir, StateOf;
    FullScanCuts(p, cb, y, f, 0, 255);
    CutGives(p, w, y, f, n, r);
  }

  lemma CutGives(p: Dpb, w: World, y: World, f: FcbValue, n: nat, r: (Vol, FcbValue, nat))
    requires Inv(p, w, -1) && Fits(p, y.v) && Fits(p, r.0) && r.1 == f && y == w.(v := y.v) && Quiet(w.v, y.v)
    requires y.v.dma == w.v.dma
    requires FilesOf(p, y) == FilesOf(p, w) && !y.v.truncFound && y.v.truncCode == 0
    requires CutFrom(p, TruncateOne(n), Key(f.ent), y, y.(v := r.0), 0)
    requires CutsCleanly(p, TruncateOne(n), Key(f.ent), FilesOf(p, w)) && n < SizeFrom(p, FilesOf(p, w), Key(f.ent), 0)
    ensures r.0.truncFound && TruncateOutcome(p, w, f, n, (r.0.(crit := true), r.1, r.0.truncCode))
  {
    hide PieceCutsCleanly;
    var id, cb := Key(f.ent), TruncateOne(n);
    var c := FilesOf(p, w);
    var z := w.(v := r.0);
    var x := w.(v := r.0.(crit := true));
    assert |FilesOf(p, w)| == p.drm + 1;
    SizeBounds(p, FilesOf(p, w), Key(f.ent), 0);
    assert y.(v := r.0) == w.(v := r.0);
    QuietKeeps(p, z, x.v, -1);
    assert FilesOf(p, x) == FilesOf(p, z) && BlocksOk(p, w.v.alv, c) && BlocksOk(p, x.v.alv, FilesOf(p, x));
    hide Inv, FilesOf, BlocksOk, Quiet, DataSector, FileView;
    assert TruncatedViews(p, w, x, id, n) by { CutViews(p, cb, id, w, x); }
    hide TruncatedViews;
    SizeOfCut(p, cb, id, c, FilesOf(p, x), 0);
    CutFrees(p, cb, id, w.v.alv, x.v.alv, c, FilesOf(p, x));
  }

  /** BDOS function 99 on a file nobody has open: exactly the records from the new size on go, exactly
      the blocks that held only such records are released, and a size beyond the end is refused. */
  lemma TruncateIsCut(p: Dpb, w: World, f: FcbValue)
    requires Inv(p, w, -1) && Addressed(w.user, f) && NoFcbFor(StateOf(p, w), Key(f.ent))
    requires CutsCleanly(p, TruncateOne(UnpackRan(f)), Key(f.ent), FilesOf(p, w))
    ensures TruncateOutcome(p, w, f, UnpackRan(f), TruncateFi(p, w.v, f))
  {
    hide Inv, GetSize, UnpackRan, SizeFrom, FilesOf, Key, Addressed, NoFcbFor, CutsCleanly, DirScan, TruncateOutcome,
      StateOf;
    InvBasics(p, w, -1);
    SizeKnown(p, w, f);
    var n, s := UnpackRan(f), GetSize(p, w.v, f, 0, 0);
    if n >= UnpackRan(s.1) {
      NoCut(p, w, f, n, s.0);
    } else {
      RealCut(p, w, f, n, s.0.(truncFound := false, truncCode := 0));
    }
  }

  /** A cut just above a readable record is clean, within the file, and leaves exactly `n` records. */
  lemma AboveData(p: Dpb, c: seq<Piece>, id: FileId, n: nat)
    requires p.WellFormed() && 0 < n && Unique(c) && RcOk(c) && Locate(p, c, id, n - 1).Some?
    ensures CutsCleanly(p, TruncateOne(n), id, c) && n <= SizeFrom(p, c, id, 0) && CutSizeFrom(p, c, id, n, 0) == n
  {
    hide SizeFrom, CutSizeFrom, CutsCleanly, EndOf, BlockOf;
    CleanAboveData(p, TruncateOne(n), id, c);
    NothingBeyond(p, c, id, n - 1);
    var i := Find(c, id, p.GroupOf(n - 1));
    GroupOfRecord(p, n - 1);
    assert Spans(p, c[i], id, n);
    CutSizeIs(p, c, id, n, 0);
  }

  /** Truncating just above a record that can be read (any `n` of a file without holes) meets the
      hypothesis on any drive, and the file is then reported `n` records long. */
  lemma TruncateAboveData(p: Dpb, w: World, f: FcbValue)
    requires Inv(p, w, -1) && Addressed(w.user, f) && NoFcbFor(StateOf(p, w), Key(f.ent))
    requires var n := UnpackRan(f); 0 < n && FileView(p, w, Key(f.ent), n - 1).Some?
    ensures var n, r := UnpackRan(f), TruncateFi(p, w.v, f);
      TruncateOutcome(p, w, f, n, r) && r.2 < 255 && SizeFrom(p, FilesOf(p, w.(v := r.0)), Key(f.ent), 0) == n
  {
    var n, id, c := UnpackRan(f), Key(f.ent), FilesOf(p, w);
    assert BlocksOk(p, w.v.alv, c) && Fits(p, w.v);
    hide Inv, FilesOf, Key, SizeFrom, CutSizeFrom, TruncateFi, Locate, CutsCleanly, UnpackRan, Addressed, NoFcbFor,
      CutOff, TruncatedViews;
    ViewIsLocate(p, c, w.v.disk, id, n - 1);
    AboveData(p, c, id, n);
    TruncateIsCut(p, w, f);
  }

  /** With one extent to an entry there is no hypothesis at all. */
  lemma TruncateUnfolded(p: Dpb, w: World, f: FcbValue)
    requires Inv(p, w, -1) && Addressed(w.user, f) && NoFcbFor(StateOf(p, w), Key(f.ent)) && p.Extents() == 1
    ensures TruncateOutcome(p, w, f, UnpackRan(f), TruncateFi(p, w.v, f))
  {
    hide FilesOf, Key, TruncateFi, Addressed, NoFcbFor, CutsCleanly;
    CleanWhenUnfolded(p, TruncateOne(UnpackRan(f)), Key(f.ent), FilesOf(p, w));
    TruncateIsCut(p, w, f);
  }

  // ---------------------------------------------------------------- delete

  /** BDOS function 19 on a file nobody has open removes it and releases all its blocks. */
  lemma DeleteIsErase(p: Dpb, w: World, f: FcbValue)
    requires Inv(p, w, -1) && Addressed(w.user, f) && NoFcbFor(StateOf(p, w), Key(f.ent))
    ensures var id, c, r := Key(f.ent), FilesOf(p, w), DeleteCall(p, w.v, f);
      var x := w.(v := r.0);
      && r.1 == f && Inv(p, x, -1) && r.0.dma == w.v.dma
      && (r.2 == 255 <==> !SomeBelongs(c, id, 0)) && !SomeBelongs(FilesOf(p, x), id, 0)
      && (forall id': FileId, m: nat :: FileView(p, x, id', m) == if id' == id then None else FileView(p, w, id', m))
      && (forall b: nat :: b <= p.dsm ==> (r.0.alv[b] <==> w.v.alv[b] && !CutOff(p, DeleteFile, id, c, b)))
  {
    var id, c, cb := Key(f.ent), FilesOf(p, w), DeleteFile;
    var r := DeleteCall(p, w.v, f);
    var x := w.(v := r.0);
    assert r == Scan(p, cb, w.v, f, 0, true, false, 255);
    assert MayCut(p, cb, w, f, 0) by { hide FilesOf, Key, Inv; }
    FullScanCuts(p, cb, w, f, 0, 255);
    assert AllCut(p, cb, id, c, FilesOf(p, x)) by { hide Inv, FilesOf, CutPiece, Key; }
    assert !SomeBelongs(FilesOf(p, x), id, 0) by { AllErased(p, id, c, FilesOf(p, x)); }
    assert BlocksOk(p, w.v.alv, c) && BlocksOk(p, x.v.alv, FilesOf(p, x)) && CutsCleanly(p, cb, id, c);
    hide Inv, FilesOf, BlocksOk, FileView, CutPiece, AllCut, Key, SomeBelongs, MayCut, DeleteCall, Scan;
    CutViews(p, cb, id, w, x);
    CutFrees(p, cb, id, w.v.alv, x.v.alv, c, FilesOf(p, x));
  }

  lemma AllErased(p: Dpb, id: FileId, c: seq<Piece>, c': seq<Piece>)
    requires p.WellFormed() && AllCut(p, DeleteFile, id, c, c')
    ensures !SomeBelongs(c', id, 0)
  {
    forall m: nat | m < |c'| ensures !BelongsTo(c'[m], id) { assert CutPiece(p, DeleteFile, id, c[m], c'[m]); }
  }
}

/** The directory together with the FCBs programs hold open: what each file contains once the FCBs
    are taken into account, and how closing, opening, creating and extending change that. */
module Files {
  import opened DiskParams
  import opened DiskMap
  import opened Directory
  import opened Allocation
  import opened Volume

  /** `open[j]` says that a program is entitled to use FCB `j`. */
  datatype State = State(d: seq<Ent>, fcbs: seq<FcbValue>, open: seq<bool>)

  // ---------------------------------------------------------------- entries

  /** Every block an allocation map names is a data block of the drive. */
  ghost predicate MapOk(p: Dpb, m: Map)
  {
    forall k: nat :: k < p.Slots() ==> Slot(p, m, k) == 0 || p.DirBlocks() <= Slot(p, m, k) <= p.dsm
  }

  /** The entry's extent byte names the extent of its last block. */
  predicate Settled(p: Dpb, e: Ent)
    requires p.WellFormed()
  {
    LastExt(p, e.dskmap) == e.extent % p.Extents()
  }

  /** An entry this BDOS can have written. */
  ghost predicate EntOk(p: Dpb, e: Ent)
  {
    && (e.entry % 128 < 0x10 ==> Live(e))
    && (Live(e) ==> e.extent < 32 && e.rc <= 128 && MapOk(p, e.dskmap))
  }

  // ---------------------------------------------------------------- FCBs

  /** Index of the directory entry an FCB stands for, or |d|. */
  function At(p: Dpb, d: seq<Ent>, f: FcbValue): (i: nat)
    ensures i <= |d|
  {
    Find(Pieces(p, d), Key(f.ent), Group(p, f.ent))
  }

  function FcbPiece(p: Dpb, f: FcbValue): Piece
  {
    Piece(Key(f.ent), Group(p, f.ent), f.ent.dskmap, f.ent.rc)
  }

  /** An FCB in use, as the BDOS sees it during a call (drive code replaced by the user number). */
  ghost predicate FcbOk(p: Dpb, user: byte, f: FcbValue)
  {
    && f.ent.entry == user < 0x10 && Unambiguous(f.ent.name)
    && f.ent.extent < 32 && f.ent.rc <= 128 && MapOk(p, f.ent.dskmap)
  }

  /** The FCB's map contains the entry's. */
  ghost predicate Extends(p: Dpb, d: Map, f: Map)
  {
    forall k: nat :: k < p.Slots() && Slot(p, d, k) != 0 ==> Slot(p, f, k) == Slot(p, d, k)
  }

  /** The FCB reaches at least as far as the entry: close's (extent, record count) comparison. */
  predicate Reaches(p: Dpb, m: Map, rc: byte, e: Ent)
    requires p.WellFormed()
  {
    LastExt(p, m) > e.extent % p.Extents() || (LastExt(p, m) == e.extent % p.Extents() && rc >= e.rc)
  }

  /** How an open FCB relates to its entry `e`. A pending FCB has just created its entry and has not
      written a record yet. With the write flag set (s2 >= 128) nothing has changed since opening. */
  ghost predicate Tracks(p: Dpb, f: FcbValue, e: Ent, pending: bool)
    requires p.WellFormed()
  {
    && Extends(p, e.dskmap, f.ent.dskmap)
    && (if pending then f.ent.dskmap == EMPTY_MAP == e.dskmap && f.ent.rc == 0 == e.rc
                        && f.ent.extent == e.extent
        else
          && Reaches(p, f.ent.dskmap, f.ent.rc, e)
          && (f.ent.s2 >= 128 ==> f.ent.dskmap == e.dskmap && f.ent.rc == e.rc && Settled(p, e)))
  }

  // ---------------------------------------------------------------- the whole

  ghost predicate Owns(p: Dpb, s: State, j: nat, i: nat)
  {
    j < |s.fcbs| && j < |s.open| && s.open[j] && At(p, s.d, s.fcbs[j]) == i
  }

  /** At most one open FCB per file. */
  ghost predicate OneFcbPerFile(s: State)
  {
    forall j, k :: 0 <= j < k < |s.fcbs| && k < |s.open| && s.open[j] && s.open[k] ==>
      Key(s.fcbs[j].ent) != Key(s.fcbs[k].ent)
  }

  /** `pend` is the index of the pending FCB, or -1. */
  ghost predicate FilesOk(p: Dpb, user: byte, s: State, pend: int)
  {
    && p.WellFormed()
    && |s.open| == |s.fcbs|
    && (forall i :: 0 <= i < |s.d| ==> EntOk(p, s.d[i]))
    && Unique(Pieces(p, s.d))
    && OneFcbPerFile(s)
    && (forall j :: 0 <= j < |s.fcbs| && s.open[j] ==> FcbOk(p, user, s.fcbs[j]))
    && (forall j :: 0 <= j < |s.fcbs| && s.open[j] ==>
          At(p, s.d, s.fcbs[j]) < |s.d|
          && Tracks(p, s.fcbs[j], s.d[At(p, s.d, s.fcbs[j])], j == pend))
    && (forall i :: 0 <= i < |s.d| && Live(s.d[i]) && !Owned(p, s, i) ==> Settled(p, s.d[i]))
  }

  ghost predicate Owned(p: Dpb, s: State, i: nat)
  {
    exists j: nat :: Owns(p, s, j, i)
  }

  /** What entry `i` contributes: its open FCB's map and record count if it has one. */
  ghost function PieceAt(p: Dpb, s: State, i: nat): Piece
    requires i < |s.d|
  {
    if Owned(p, s, i) then var j: nat :| Owns(p, s, j, i); FcbPiece(p, s.fcbs[j]) else PieceOf(p, s.d[i])
  }

  /** The files as their users see them. */
  ghost function Contents(p: Dpb, s: State): (c: seq<Piece>)
    ensures |c| == |s.d|
  {
    seq(|s.d|, i requires 0 <= i < |s.d| => PieceAt(p, s, i))
  }

  lemma OwnedPiece(p: Dpb, s: State, j: nat, i: nat)
    requires |s.open| == |s.fcbs| && OneFcbPerFile(s) && Owns(p, s, j, i) && i < |s.d|
    ensures PieceAt(p, s, i) == FcbPiece(p, s.fcbs[j])
    ensures forall k: nat :: Owns(p, s, k, i) ==> k == j
  {
    forall k: nat | Owns(p, s, k, i) ensures k == j {
      assert Key(s.fcbs[k].ent) == Pieces(p, s.d)[i].id == Key(s.fcbs[j].ent);
    }
  }

  // ---------------------------------------------------------------- closing

  /** Adding an offset below `x` to the base of an extent's bracket stays in the bracket. */
  lemma BaseOffset(x: nat, e: nat, o: nat)
    requires x in {1, 2, 4, 8, 16} && e < 32 && o < x
    ensures (ExtBase(e, x) + o) % x == o && (ExtBase(e, x) + o) / x == e / x
    ensures ExtBase(e, x) + o < 32
  {
    BaseAndRest(x, e);
    var k := e / x;
    if x == 1 { assert k * x == k; }
    else if x == 2 { assert k * x == k * 2; }
    else if x == 4 { assert k * x == k * 4; }
    else if x == 8 { assert k * x == k * 8; }
    else { assert k * x == k * 16; }
    hide ExtBase;
    DivMod2(ExtBase(e, x) + o, k, o, x);
  }

  lemma SameBase(x: nat, e: nat, f: nat)
    requires x in {1, 2, 4, 8, 16} && e / x == f / x
    ensures ExtBase(e, x) == ExtBase(f, x)
  {
  }

  /** `calcext` of an FCB, measured from any entry of the same group. */
  lemma CalcExtInGroup(p: Dpb, f: Ent, e: Ent)
    requires p.WellFormed() && f.extent < 32 && e.extent < 32 && Group(p, f) == Group(p, e)
    ensures var c := CalcExt(p, f.extent, f.dskmap);
      c == ExtBase(e.extent, p.Extents()) + LastExt(p, f.dskmap)
      && c < 32 && c % p.Extents() == LastExt(p, f.dskmap) && c / p.Extents() == e.extent / p.Extents()
  {
    GroupInjective(p, f, e);
    ExtentShapes(p);
    assert f.extent % 32 == f.extent;
    hide ExtBase, LastExt, Group, CalcExt, Dpb.WellFormed, Dpb.Extents;
    SameBase(p.Extents(), e.extent, f.extent);
    BaseOffset(p.Extents(), e.extent, LastExt(p, f.dskmap));
  }

  /** A closed entry says exactly what the FCB says, and is settled. */
  lemma ClosedEntryFacts(p: Dpb, f: Ent, e: Ent)
    requires p.WellFormed() && f.extent < 32 && e.extent < 32 && Live(e) && f.rc <= 128 && e.rc <= 128
    requires Key(f) == Key(e) && Group(p, f) == Group(p, e)
    requires Reaches(p, f.dskmap, f.rc, e)
    ensures var c := ClosedEntry(p, f, WithMap(e, f.dskmap));
      && PieceOf(p, c) == Piece(Key(f), Group(p, f), f.dskmap, f.rc)
      && Settled(p, c) && c.extent < 32 && c.entry == e.entry
      && Reaches(p, f.dskmap, f.rc, c)
  {
    hide GroupNumber, ExtBase, CalcExt, LastExt, MapOk, Dpb.WellFormed;
    var c := ClosedEntry(p, f, WithMap(e, f.dskmap));
    CalcExtInGroup(p, f, e);
    GroupInjective(p, c, e);
    KeyIgnoresArchive(e.entry, e.name);
  }

  lemma KeyIgnoresArchive(user: byte, name: seq<byte>)
    requires |name| == 11
    ensures NameKey(user, ClearArchive(name)) == NameKey(user, name)
  {
  }

  /** When the FCB's map contains the entry's, the merge succeeds and leaves both equal to it. */
  lemma {:induction false} MergeOfExtension(p: Dpb, fm: Map, dm: Map, k: nat)
    requires p.WellFormed() && k <= p.Slots() && p.dsm < 65536
    requires Extends(p, dm, fm) && MapOk(p, fm)
    requires forall i: nat :: i < k ==> Slot(p, dm, i) == Slot(p, fm, i)
    ensures MergeMaps(p, fm, dm, k) == (fm, fm, true)
    decreases p.Slots() - k
  {
    if k == p.Slots() {
      SlotsDetermineMap(p, fm, dm);
    } else {
      var a, b := Slot(p, fm, k), Slot(p, dm, k);
      if b != 0 {
        MergeOfExtension(p, fm, dm, k + 1);
      } else {
        var dm1 := SetSlot(p, dm, k, a);
        forall i: nat | i < p.Slots() ensures Slot(p, dm1, i) == if i == k then a else Slot(p, dm, i) {
          SetSlotGet(p, dm, k, a, i);
        }
        MergeOfExtension(p, fm, dm1, k + 1);
      }
    }
  }

  // ---------------------------------------------------------------- steps

  /** An FCB's entry is the one whose piece answers to it. */
  lemma AtIs(p: Dpb, d: seq<Ent>, f: FcbValue, i: nat)
    requires i < |d| && Unique(Pieces(p, d)) && IsFor(PieceOf(p, d[i]), Key(f.ent), Group(p, f.ent))
    ensures At(p, d, f) == i
  {
    FindUnique(Pieces(p, d), i, Key(f.ent), Group(p, f.ent));
  }

  /** Replacing entry `i` leaves the FCBs of other entries where they were. */
  lemma AtOther(p: Dpb, d: seq<Ent>, i: nat, e: Ent, f: FcbValue)
    requires i < |d| && Unique(Pieces(p, d[i := e]))
    requires At(p, d, f) < |d| && At(p, d, f) != i
    ensures At(p, d[i := e], f) == At(p, d, f)
  {
    AtIs(p, d[i := e], f, At(p, d, f));
  }

  /** Entry `i` of an open FCB is rewritten without changing whose entry it is. */
  lemma RewriteEntry(p: Dpb, user: byte, s: State, j: nat, e: Ent)
    requires FilesOk(p, user, s, -1) && j < |s.fcbs| && s.open[j]
    requires EntOk(p, e) && Tracks(p, s.fcbs[j], e, false)
    requires IsFor(PieceOf(p, e), Key(s.fcbs[j].ent), Group(p, s.fcbs[j].ent))
    ensures var t := s.(d := s.d[At(p, s.d, s.fcbs[j]) := e]);
            && FilesOk(p, user, t, -1) && Contents(p, t) == Contents(p, s)
            && At(p, t.d, s.fcbs[j]) == At(p, s.d, s.fcbs[j])
  {
    var i := At(p, s.d, s.fcbs[j]);
    var t := s.(d := s.d[i := e]);
    PiecesUpdate(p, s.d, i, e);
    UniqueUpdate(Pieces(p, s.d), i, PieceOf(p, e));
    AtIs(p, t.d, s.fcbs[j], i);
    forall k: nat | k < |s.fcbs| && s.open[k] ensures At(p, t.d, s.fcbs[k]) == At(p, s.d, s.fcbs[k]) {
      if At(p, s.d, s.fcbs[k]) == i {
        OwnedPiece(p, s, j, i);
        assert Owns(p, s, k, i);
      } else {
        AtOther(p, s.d, i, e, s.fcbs[k]);
      }
    }
    SameOwners(p, s, t);
    OthersKeep(p, user, s, t, j, i);
  }

  lemma PiecesUpdate(p: Dpb, d: seq<Ent>, i: nat, e: Ent)
    requires i < |d|
    ensures Pieces(p, d[i := e]) == Pieces(p, d)[i := PieceOf(p, e)]
  {
  }

  lemma UniqueUpdate(s: seq<Piece>, i: nat, x: Piece)
    requires i < |s| && Unique(s) && (x.Piece? ==> IsFor(s[i], x.id, x.group) || Find(s, x.id, x.group) == |s|)
    ensures Unique(s[i := x])
  {
  }

  /** If every open FCB stays at its entry, ownership is the same. */
  lemma SameOwners(p: Dpb, s: State, t: State)
    requires s.fcbs == t.fcbs && s.open == t.open && |s.open| == |s.fcbs|
    requires forall k: nat :: k < |s.fcbs| && s.open[k] ==> At(p, t.d, s.fcbs[k]) == At(p, s.d, s.fcbs[k])
    ensures forall k: nat, m: nat :: Owns(p, t, k, m) <==> Owns(p, s, k, m)
    ensures forall m: nat :: Owned(p, t, m) <==> Owned(p, s, m)
  {
    forall m: nat ensures Owned(p, t, m) <==> Owned(p, s, m) {
      if Owned(p, t, m) { var k: nat :| Owns(p, t, k, m); assert Owns(p, s, k, m); }
      if Owned(p, s, m) { var k: nat :| Owns(p, s, k, m); assert Owns(p, t, k, m); }
    }
  }

  lemma OthersKeep(p: Dpb, user: byte, s: State, t: State, j: nat, i: nat)
    requires FilesOk(p, user, s, -1) && j < |s.fcbs| && s.open[j] && i == At(p, s.d, s.fcbs[j])
    requires |t.d| == |s.d| && t == s.(d := s.d[i := t.d[i]])
    requires EntOk(p, t.d[i]) && Tracks(p, s.fcbs[j], t.d[i], false)
    requires Unique(Pieces(p, t.d))
    requires forall k: nat :: k < |s.fcbs| && s.open[k] ==> At(p, t.d, s.fcbs[k]) == At(p, s.d, s.fcbs[k])
    requires forall k: nat, m: nat :: Owns(p, t, k, m) <==> Owns(p, s, k, m)
    requires forall m: nat :: Owned(p, t, m) <==> Owned(p, s, m)
    ensures FilesOk(p, user, t, -1) && Contents(p, t) == Contents(p, s)
  {
    assert Owns(p, s, j, i);
    OwnedPiece(p, s, j, i);
    forall k: nat | k < |s.fcbs| && s.open[k]
      ensures Tracks(p, s.fcbs[k], t.d[At(p, t.d, s.fcbs[k])], false)
    {
      if At(p, s.d, s.fcbs[k]) == i { assert Owns(p, s, k, i); }
    }
    forall m: nat | m < |s.d| ensures PieceAt(p, t, m) == PieceAt(p, s, m) {
      if Owned(p, s, m) {
        var k: nat :| Owns(p, s, k, m);
        OwnedPiece(p, s, k, m);
        OwnedPiece(p, t, k, m);
      } else {
        assert m != i;
      }
    }
  }

  /** An FCB that agrees with its settled entry is dropped. */
  lemma Detach(p: Dpb, user: byte, s: State, j: nat)
    requires FilesOk(p, user, s, -1) && j < |s.fcbs| && s.open[j]
    requires var e := s.d[At(p, s.d, s.fcbs[j])]; PieceOf(p, e) == FcbPiece(p, s.fcbs[j]) && Settled(p, e)
    ensures var t := s.(open := s.open[j := false]);
            FilesOk(p, user, t, -1) && Contents(p, t) == Contents(p, s)
  {
    hide PieceAt, Contents, Tracks, Settled, EntOk, FcbOk, Reaches;
    var i := At(p, s.d, s.fcbs[j]);
    var t := s.(open := s.open[j := false]);
    DetachContents(p, s, j);
    forall m: nat | m < |t.d| && Live(t.d[m]) && !Owned(p, t, m) ensures Settled(p, t.d[m]) {
      if Owned(p, s, m) { assert m == i; }
    }
  }

  lemma DetachContents(p: Dpb, s: State, j: nat)
    requires |s.open| == |s.fcbs| && OneFcbPerFile(s) && j < |s.fcbs| && s.open[j]
    requires At(p, s.d, s.fcbs[j]) < |s.d|
    requires PieceOf(p, s.d[At(p, s.d, s.fcbs[j])]) == FcbPiece(p, s.fcbs[j])
    ensures var t := s.(open := s.open[j := false]);
      && Contents(p, t) == Contents(p, s)
      && (forall m: nat :: m < |s.d| ==> (Owned(p, t, m) <==> Owned(p, s, m) && m != At(p, s.d, s.fcbs[j])))
  {
    var i := At(p, s.d, s.fcbs[j]);
    var t := s.(open := s.open[j := false]);
    assert Owns(p, s, j, i);
    OwnedPiece(p, s, j, i);
    assert forall k: nat, m: nat :: Owns(p, t, k, m) <==> Owns(p, s, k, m) && k != j;
    forall m: nat | m < |s.d|
      ensures Owned(p, t, m) <==> Owned(p, s, m) && m != i
      ensures PieceAt(p, t, m) == PieceAt(p, s, m)
    {
      if Owned(p, s, m) {
        var k: nat :| Owns(p, s, k, m);
        OwnedPiece(p, s, k, m);
        if m != i { assert Owns(p, t, k, m); OwnedPiece(p, t, k, m); }
      }
    }
  }

  ghost predicate NoFcbFor(s: State, id: FileId)
  {
    forall k :: 0 <= k < |s.fcbs| && k < |s.open| && s.open[k] ==> Key(s.fcbs[k].ent) != id
  }

  /** After its FCB is dropped no open FCB refers to the file. */
  lemma DetachedAlone(s: State, j: nat)
    requires |s.open| == |s.fcbs| && OneFcbPerFile(s) && j < |s.fcbs| && s.open[j]
    ensures NoFcbFor(s.(open := s.open[j := false]), Key(s.fcbs[j].ent))
  {
  }

  /** FCB slot `j` is loaded with a copy of an entry of a file nobody has open. */
  lemma Attach(p: Dpb, user: byte, s: State, j: nat, f: FcbValue)
    requires FilesOk(p, user, s, -1) && j < |s.fcbs| && !s.open[j]
    requires FcbOk(p, user, f) && NoFcbFor(s, Key(f.ent)) && At(p, s.d, f) < |s.d|
    requires PieceOf(p, s.d[At(p, s.d, f)]) == FcbPiece(p, f)
    ensures var t := s.(fcbs := s.fcbs[j := f], open := s.open[j := true]);
            FilesOk(p, user, t, -1) && Contents(p, t) == Contents(p, s)
  {
    var i := At(p, s.d, f);
    var t := s.(fcbs := s.fcbs[j := f], open := s.open[j := true]);
    AttachOwners(p, s, j, f);
    assert Tracks(p, f, s.d[i], false);
    hide Tracks, Settled, EntOk, FcbOk, Reaches;
    forall m: nat | m < |s.d| ensures PieceAt(p, t, m) == PieceAt(p, s, m) {
      if m == i {
        assert Owns(p, t, j, i);
        OwnedPiece(p, t, j, i);
      } else if Owned(p, s, m) {
        var k: nat :| Owns(p, s, k, m);
        OwnedPiece(p, s, k, m);
        OwnedPiece(p, t, k, m);
      }
    }
  }

  lemma AttachOwners(p: Dpb, s: State, j: nat, f: FcbValue)
    requires |s.open| == |s.fcbs| && OneFcbPerFile(s) && j < |s.fcbs| && !s.open[j]
    requires NoFcbFor(s, Key(f.ent))
    ensures var t := s.(fcbs := s.fcbs[j := f], open := s.open[j := true]);
      && OneFcbPerFile(t)
      && (forall k: nat, m: nat :: Owns(p, t, k, m) <==> if k == j then m == At(p, s.d, f) else Owns(p, s, k, m))
      && (forall m: nat :: Owned(p, t, m) <==> Owned(p, s, m) || m == At(p, s.d, f))
  {
    var t := s.(fcbs := s.fcbs[j := f], open := s.open[j := true]);
    assert forall k: nat, m: nat :: Owns(p, t, k, m) <==> if k == j then m == At(p, s.d, f) else Owns(p, s, k, m);
    assert Owns(p, t, j, At(p, s.d, f));
    forall m: nat ensures Owned(p, t, m) <==> Owned(p, s, m) || m == At(p, s.d, f) {
      if Owned(p, s, m) { var k: nat :| Owns(p, s, k, m); assert Owns(p, t, k, m); }
    }
  }

  /** FCB slot `j` creates entry `k` for a group of a file nobody else has open. */
  lemma Create(p: Dpb, user: byte, s: State, j: nat, k: nat, f: FcbValue)
    requires FilesOk(p, user, s, -1) && j < |s.fcbs| && !s.open[j]
    requires k < |s.d| && !Live(s.d[k])
    requires FcbOk(p, user, f) && NoFcbFor(s, Key(f.ent)) && At(p, s.d, f) == |s.d|
    requires f.ent.dskmap == EMPTY_MAP && f.ent.rc == 0
    ensures var t := State(s.d[k := f.ent], s.fcbs[j := f], s.open[j := true]);
      && FilesOk(p, user, t, j) && At(p, t.d, f) == k
      && Contents(p, s)[k] == Gap && Contents(p, t) == Contents(p, s)[k := FcbPiece(p, f)]
  {
    var u := s.(d := s.d[k := f.ent]);
    PiecesUpdate(p, s.d, k, f.ent);
    UniqueUpdate(Pieces(p, s.d), k, PieceOf(p, f.ent));
    AtIs(p, u.d, f, k);
    OwnedIsLive(p, s, k);
    forall i: nat | i < |s.fcbs| && s.open[i] ensures At(p, u.d, s.fcbs[i]) == At(p, s.d, s.fcbs[i]) {
      assert Owns(p, s, i, At(p, s.d, s.fcbs[i]));
      AtOther(p, s.d, k, f.ent, s.fcbs[i]);
    }
    SameOwners(p, s, u);
    AttachOwners(p, u, j, f);
    CreateContents(p, user, s, u, j, k, f);
    var t := u.(fcbs := s.fcbs[j := f], open := s.open[j := true]);
    assert EntOk(p, f.ent) && Tracks(p, f, f.ent, true);
    forall i: nat | i < |t.fcbs| && t.open[i]
      ensures At(p, t.d, t.fcbs[i]) < |t.d| && Tracks(p, t.fcbs[i], t.d[At(p, t.d, t.fcbs[i])], i == j)
    {
      if i != j { assert Owns(p, s, i, At(p, s.d, s.fcbs[i])); }
    }
  }

  lemma OwnedIsLive(p: Dpb, s: State, k: nat)
    requires k < |s.d|
    ensures Owned(p, s, k) ==> Live(s.d[k])
  {
    if Owned(p, s, k) {
      var i: nat :| Owns(p, s, i, k);
      assert Pieces(p, s.d)[k].Piece?;
    }
  }

  lemma CreateContents(p: Dpb, user: byte, s: State, u: State, j: nat, k: nat, f: FcbValue)
    requires FilesOk(p, user, s, -1) && j < |s.fcbs| && !s.open[j] && k < |s.d| && !Live(s.d[k])
    requires u == s.(d := s.d[k := f.ent]) && !Owned(p, s, k) && At(p, u.d, f) == k
    requires NoFcbFor(s, Key(f.ent))
    requires forall i: nat, m: nat :: Owns(p, u, i, m) <==> Owns(p, s, i, m)
    requires var t := u.(fcbs := s.fcbs[j := f], open := s.open[j := true]);
      && OneFcbPerFile(t)
      && (forall i: nat, m: nat :: Owns(p, t, i, m) <==> if i == j then m == k else Owns(p, u, i, m))
    ensures var t := u.(fcbs := s.fcbs[j := f], open := s.open[j := true]);
      Contents(p, s)[k] == Gap && Contents(p, t) == Contents(p, s)[k := FcbPiece(p, f)]
  {
    hide Tracks, Settled, EntOk, FcbOk;
    var t := u.(fcbs := s.fcbs[j := f], open := s.open[j := true]);
    forall m: nat | m < |s.d| ensures PieceAt(p, t, m) == if m == k then FcbPiece(p, f) else PieceAt(p, s, m) {
      if m == k {
        assert Owns(p, t, j, k);
        OwnedPiece(p, t, j, k);
      } else if Owned(p, s, m) {
        var i: nat :| Owns(p, s, i, m);
        OwnedPiece(p, s, i, m);
        assert Owns(p, t, i, m);
        OwnedPiece(p, t, i, m);
      } else {
        assert !Owned(p, t, m);
      }
    }
  }

  /** The contents of FCB `j` change, its file and group do not. */
  lemma Update(p: Dpb, user: byte, s: State, pend: int, j: nat, f: FcbValue, pend': int)
    requires FilesOk(p, user, s, pend) && (pend == -1 || pend == j) && j < |s.fcbs| && s.open[j]
    requires FcbOk(p, user, f) && Key(f.ent) == Key(s.fcbs[j].ent) && Group(p, f.ent) == Group(p, s.fcbs[j].ent)
    requires pend' == -1 || pend' == j
    requires Tracks(p, f, s.d[At(p, s.d, s.fcbs[j])], pend' == j)
    ensures var t := s.(fcbs := s.fcbs[j := f]);
      && FilesOk(p, user, t, pend') && At(p, s.d, f) == At(p, s.d, s.fcbs[j])
      && Contents(p, t) == Contents(p, s)[At(p, s.d, s.fcbs[j]) := FcbPiece(p, f)]
  {
    hide Tracks, Settled, EntOk, FcbOk, Reaches;
    var i := At(p, s.d, s.fcbs[j]);
    var t := s.(fcbs := s.fcbs[j := f]);
    UpdateOwners(p, s, j, f);
    forall m: nat | m < |s.d| ensures PieceAt(p, t, m) == if m == i then FcbPiece(p, f) else PieceAt(p, s, m) {
      if Owned(p, s, m) {
        var k: nat :| Owns(p, s, k, m);
        OwnedPiece(p, s, k, m);
        OwnedPiece(p, t, k, m);
        if m == i { OwnedPiece(p, s, j, i); }
      }
    }
  }

  lemma UpdateOwners(p: Dpb, s: State, j: nat, f: FcbValue)
    requires |s.open| == |s.fcbs| && OneFcbPerFile(s) && j < |s.fcbs| && s.open[j]
    requires Key(f.ent) == Key(s.fcbs[j].ent) && Group(p, f.ent) == Group(p, s.fcbs[j].ent)
    ensures var t := s.(fcbs := s.fcbs[j := f]);
      && OneFcbPerFile(t) && Owns(p, s, j, At(p, s.d, s.fcbs[j])) && At(p, s.d, f) == At(p, s.d, s.fcbs[j])
      && (forall k: nat, m: nat :: Owns(p, t, k, m) <==> Owns(p, s, k, m))
      && (forall m: nat :: Owned(p, t, m) <==> Owned(p, s, m))
  {
    var t := s.(fcbs := s.fcbs[j := f]);
    assert forall k: nat, m: nat :: Owns(p, t, k, m) <==> Owns(p, s, k, m);
    forall m: nat ensures Owned(p, t, m) <==> Owned(p, s, m) {
      if Owned(p, s, m) { var k: nat :| Owns(p, s, k, m); assert Owns(p, t, k, m); }
    }
  }

  /** Entry `i`, which no FCB has open, is erased or rewritten in place. */
  lemma ChangeUnowned(p: Dpb, user: byte, s: State, i: nat, e: Ent)
    requires FilesOk(p, user, s, -1) && i < |s.d| && !Owned(p, s, i) && Live(s.d[i])
    requires EntOk(p, e) && (Live(e) ==> Settled(p, e) && IsFor(PieceOf(p, e), Key(s.d[i]), Group(p, s.d[i])))
    ensures var t := s.(d := s.d[i := e]);
      && FilesOk(p, user, t, -1) && Contents(p, t) == Contents(p, s)[i := PieceOf(p, e)]
      && (forall m: nat :: Owned(p, t, m) <==> Owned(p, s, m))
  {
    hide Tracks, Settled, EntOk, FcbOk, Reaches;
    var t := s.(d := s.d[i := e]);
    PiecesUpdate(p, s.d, i, e);
    UniqueUpdate(Pieces(p, s.d), i, PieceOf(p, e));
    forall k: nat | k < |s.fcbs| && s.open[k] ensures At(p, t.d, s.fcbs[k]) == At(p, s.d, s.fcbs[k]) {
      assert Owns(p, s, k, At(p, s.d, s.fcbs[k]));
      AtOther(p, s.d, i, e, s.fcbs[k]);
    }
    SameOwners(p, s, t);
    forall k: nat | k < |s.fcbs| && s.open[k]
      ensures Tracks(p, s.fcbs[k], t.d[At(p, t.d, s.fcbs[k])], false)
    {
      assert Owns(p, s, k, At(p, s.d, s.fcbs[k]));
    }
    forall m: nat | m < |s.d| ensures PieceAt(p, t, m) == if m == i then PieceOf(p, e) else PieceAt(p, s, m) {
      if Owned(p, s, m) {
        var k: nat :| Owns(p, s, k, m);
        OwnedPiece(p, s, k, m);
        OwnedPiece(p, t, k, m);
      }
    }
  }

  /** An open FCB's piece answers to the same file and group as its entry. */
  lemma ContentsKeys(p: Dpb, s: State, id: FileId, g: nat)
    requires |s.open| == |s.fcbs| && OneFcbPerFile(s)
    ensures forall i: nat :: i < |s.d| ==> (IsFor(Contents(p, s)[i], id, g) <==> IsFor(Pieces(p, s.d)[i], id, g))
    ensures Find(Contents(p, s), id, g) == Find(Pieces(p, s.d), id, g)
    ensures Unique(Pieces(p, s.d)) ==> Unique(Contents(p, s))
  {
    forall i: nat | i < |s.d|
      ensures Contents(p, s)[i].Piece? == Pieces(p, s.d)[i].Piece?
      ensures Contents(p, s)[i].Piece? ==> IsFor(Contents(p, s)[i], Pieces(p, s.d)[i].id, Pieces(p, s.d)[i].group)
    {
      if Owned(p, s, i) {
        var j: nat :| Owns(p, s, j, i);
        OwnedPiece(p, s, j, i);
      }
    }
    hide Contents, Pieces;
    FindIs(Contents(p, s), id, g, Find(Pieces(p, s.d), id, g));
  }
}

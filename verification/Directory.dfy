/** Directory entries, the 128-byte sectors that hold four of them, file-name matching, and the
    meaning of a directory: a sparse map from record number to sector for every file. */
module Directory {
  import opened DiskParams
  import opened DiskMap

  /** `struct dirent`, and equally the first 32 bytes of `struct fcb`: the code copies one onto the
      other with a single move. In an FCB `entry` is the drive code. */
  datatype RawEnt = DirEnt(entry: byte, name: seq<byte>, extent: byte, s1: byte, s2: byte,
                           rc: byte, dskmap: seq<byte>)

  type Ent = e: RawEnt | |e.name| == 11 && |e.dskmap| == 16
    witness DirEnt(0, seq(11, _ => 0), 0, 0, 0, 0, seq(16, _ => 0))

  const FREE: byte := 0xE5

  // ---------------------------------------------------------------- the 32-byte layout

  function Bytes(e: Ent): (b: seq<byte>)
    ensures |b| == 32
  {
    [e.entry] + e.name + [e.extent, e.s1, e.s2, e.rc] + e.dskmap
  }

  function FromBytes(b: seq<byte>): Ent
    requires |b| == 32
  {
    DirEnt(b[0], b[1..12], b[12], b[13], b[14], b[15], b[16..32])
  }

  lemma BytesRoundTrip(e: Ent, b: seq<byte>)
    requires |b| == 32
    ensures FromBytes(Bytes(e)) == e
    ensures Bytes(FromBytes(b)) == b
  {
    var c := Bytes(e);
    assert c[1..12] == e.name;
    assert c[12] == e.extent && c[13] == e.s1 && c[14] == e.s2 && c[15] == e.rc;
    assert c[16..32] == e.dskmap;
  }

  /** The entry at position `k` of a directory buffer. */
  function EntAt(s: Sector, k: nat): Ent
    requires k < 4
  {
    FromBytes(s[32 * k .. 32 * k + 32])
  }

  function PutEnt(s: Sector, k: nat, e: Ent): Sector
    requires k < 4
  {
    s[..32 * k] + Bytes(e) + s[32 * k + 32..]
  }

  lemma PutGet(s: Sector, k: nat, e: Ent, k': nat)
    requires k < 4 && k' < 4
    ensures EntAt(PutEnt(s, k, e), k') == if k' == k then e else EntAt(s, k')
  {
    var t := PutEnt(s, k, e);
    if k' == k {
      assert t[32 * k .. 32 * k + 32] == Bytes(e);
      BytesRoundTrip(e, Bytes(e));
    } else {
      assert t[32 * k' .. 32 * k' + 32] == s[32 * k' .. 32 * k' + 32];
    }
  }

  lemma PutSame(s: Sector, k: nat)
    requires k < 4
    ensures PutEnt(s, k, EntAt(s, k)) == s
  {
    BytesRoundTrip(EntAt(s, k), s[32 * k .. 32 * k + 32]);
  }

  lemma PutTwice(s: Sector, k: nat, e: Ent, e': Ent)
    requires k < 4
    ensures PutEnt(PutEnt(s, k, e), k, e') == PutEnt(s, k, e')
  {
    assert PutEnt(s, k, e)[..32 * k] == s[..32 * k];
    assert PutEnt(s, k, e)[32 * k + 32..] == s[32 * k + 32..];
  }

  // ---------------------------------------------------------------- names

  /** Byte `k` of the drive/user byte followed by the eleven name bytes. */
  function NameByte(e: Ent, k: nat): byte
    requires k < 12
  {
    if k == 0 then e.entry else e.name[k - 1]
  }

  /** One step of the comparison loop: `?` matches anything, attribute bits are ignored. */
  predicate ByteMatches(a: byte, b: byte) { a == 0x3F || a % 128 == b % 128 }

  predicate NameMatches(f: Ent, d: Ent)
  {
    forall k: nat :: k < 12 ==> ByteMatches(NameByte(f, k), NameByte(d, k))
  }

  /** `match` (fileio.c:179-213). */
  predicate Matches(p: Dpb, f: Ent, d: Ent, chkExt: bool)
  {
    && NameMatches(f, d)
    && (chkExt ==>
          && (f.extent == 0x3F || f.extent / p.Extents() == d.extent / p.Extents())
          && f.s2 % 64 == d.s2 % 64)
  }

  // ---------------------------------------------------------------- meaning

  /** A file: user number and name without attribute bits. */
  type FileId = seq<byte>

  function NameKey(user: byte, name: seq<byte>): (id: FileId)
    ensures |id| == |name| + 1
  {
    [user % 128] + seq(|name|, i requires 0 <= i < |name| => name[i] % 128)
  }

  function Key(e: Ent): FileId { NameKey(e.entry, e.name) }

  predicate Live(e: Ent) { e.entry < 0x10 }

  /** Which group of `GroupRecs` records of its file an entry holds. */
  function Group(p: Dpb, e: Ent): nat
  {
    GroupNumber(e.s2 % 64, e.extent % 32, p.Extents())
  }

  /** `mod * (32 / x) + extent / x` for the powers of two that `x` can be, each with its constants. */
  function GroupNumber(mod: nat, extent: nat, x: nat): nat
    requires 0 < x
  {
    if x == 1 then mod * 32 + extent
    else if x == 2 then mod * 16 + extent / 2
    else if x == 4 then mod * 8 + extent / 4
    else if x == 8 then mod * 4 + extent / 8
    else mod * 2 + extent / 16
  }

  /** No question mark, with or without its attribute bit. */
  predicate Unambiguous(name: seq<byte>) { forall i :: 0 <= i < |name| ==> name[i] % 128 != 0x3F }

  /** For a name without wildcards, `match` compares identities; with the extent check it also
      compares groups. */
  lemma MatchIsKeyEquality(p: Dpb, f: Ent, d: Ent)
    requires p.WellFormed()
    requires f.entry < 0x10 && Unambiguous(f.name)
    ensures Matches(p, f, d, false) <==> Key(f) == Key(d)
    ensures f.extent < 32 && d.extent < 32 ==>
              (Matches(p, f, d, true) <==> Key(f) == Key(d) && Group(p, f) == Group(p, d))
  {
    NameMatchIsKeyEquality(f, d);
    Shapes(p);
    if f.extent < 32 && d.extent < 32 {
      GroupInjective(p, f, d);
    }
  }

  lemma NameMatchIsKeyEquality(f: Ent, d: Ent)
    requires f.entry < 0x10 && Unambiguous(f.name)
    ensures NameMatches(f, d) <==> Key(f) == Key(d)
  {
    if NameMatches(f, d) {
      forall k | 0 <= k < 12 ensures Key(f)[k] == Key(d)[k] {
        assert ByteMatches(NameByte(f, k), NameByte(d, k));
      }
    }
    if Key(f) == Key(d) {
      forall k: nat | k < 12 ensures ByteMatches(NameByte(f, k), NameByte(d, k)) {
        assert Key(f)[k] == Key(d)[k];
      }
    }
  }

  lemma GroupInjective(p: Dpb, f: Ent, d: Ent)
    requires p.WellFormed() && f.extent < 32 && d.extent < 32
    ensures Group(p, f) == Group(p, d) <==>
              f.s2 % 64 == d.s2 % 64 && f.extent / p.Extents() == d.extent / p.Extents()
  {
    hide GroupNumber;
    ExtentShapes(p);
    GroupNumberInjective(f.s2 % 64, d.s2 % 64, f.extent, d.extent, p.exm + 1);
  }

  lemma GroupNumberInjective(a: nat, b: nat, c: nat, d: nat, x: nat)
    requires x in {1, 2, 4, 8, 16} && c < 32 && d < 32
    ensures GroupNumber(a, c, x) == GroupNumber(b, d, x) <==> a == b && c / x == d / x
  {
    ExtentInModule(x, c);
    ExtentInModule(x, d);
    PairInjective(a, b, c / x, d / x, 32 / x);
  }

  lemma ExtentInModule(x: nat, e: nat)
    requires x in {1, 2, 4, 8, 16} && e < 32
    ensures e / x < 32 / x
  {
  }

  lemma PairInjective(a: nat, b: nat, c: nat, d: nat, w: nat)
    requires c < w && d < w
    ensures a * w + c == b * w + d <==> a == b && c == d
  {
    if a < b { NextMultiple(a, b, w); }
    if b < a { NextMultiple(b, a, w); }
  }

  /** A record number splits into group and record in group, as module/extent/record do. */
  lemma RecordSplits(p: Dpb, e: Ent, rec: byte)
    requires p.WellFormed() && e.extent < 32 && rec < 128
    ensures Group(p, e) * p.GroupRecs() + GroupRec(p, e.extent, rec)
         == (e.s2 % 64) * 4096 + e.extent * 128 + rec
  {
    hide GroupNumber;
    ExtentShapes(p);
    RecordParts(e.s2 % 64, e.extent, rec, p.exm + 1);
  }

  lemma RecordParts(mod: nat, extent: nat, rec: nat, x: nat)
    requires x in {1, 2, 4, 8, 16} && extent < 32
    ensures GroupNumber(mod, extent, x) * (x * 128) + (extent % x) * 128 + rec == mod * 4096 + extent * 128 + rec
  {
    if x == 1 {} else if x == 2 {} else if x == 4 {} else if x == 8 {} else { assert x == 16; }
  }

  /** What an entry (or the open FCB that stands for it) contributes to its file. */
  datatype Piece = Gap | Piece(id: FileId, group: nat, dskmap: Map, rc: byte)

  function PieceOf(p: Dpb, e: Ent): Piece
  {
    if Live(e) then Piece(Key(e), Group(p, e), e.dskmap, e.rc) else Gap
  }

  function Pieces(p: Dpb, d: seq<Ent>): (s: seq<Piece>)
    ensures |s| == |d|
  {
    seq(|d|, i requires 0 <= i < |d| => PieceOf(p, d[i]))
  }

  predicate IsFor(x: Piece, id: FileId, g: nat) { x.Piece? && x.id == id && x.group == g }

  /** Position of the piece for group `g` of `id`, or |s|. */
  function Find(s: seq<Piece>, id: FileId, g: nat): (i: nat)
    ensures i <= |s|
    ensures i < |s| ==> IsFor(s[i], id, g)
    ensures forall j :: 0 <= j < i ==> !IsFor(s[j], id, g)
  {
    FindFrom(s, id, g, 0)
  }

  function FindFrom(s: seq<Piece>, id: FileId, g: nat, from: nat): (i: nat)
    requires from <= |s|
    ensures from <= i <= |s|
    ensures i < |s| ==> IsFor(s[i], id, g)
    ensures forall j :: from <= j < i ==> !IsFor(s[j], id, g)
    decreases |s| - from
  {
    if from == |s| || IsFor(s[from], id, g) then from else FindFrom(s, id, g, from + 1)
  }

  /** No two pieces hold the same group of the same file. */
  ghost predicate Unique(s: seq<Piece>)
  {
    forall i, j :: 0 <= i < j < |s| && s[i].Piece? && s[j].Piece? ==>
      s[i].id != s[j].id || s[i].group != s[j].group
  }

  /** A position with nothing before it is the one found. */
  lemma FindIs(s: seq<Piece>, id: FileId, g: nat, i: nat)
    requires i <= |s| && (i < |s| ==> IsFor(s[i], id, g))
    requires forall j :: 0 <= j < i ==> !IsFor(s[j], id, g)
    ensures Find(s, id, g) == i
  {
  }

  lemma FindUnique(s: seq<Piece>, i: nat, id: FileId, g: nat)
    requires i < |s| && IsFor(s[i], id, g) && Unique(s)
    ensures Find(s, id, g) == i
  {
  }

  /** Map slot that covers record `q` of a group. */
  function MapIndex(p: Dpb, q: nat): (k: nat)
    requires p.WellFormed() && q < p.GroupRecs()
    ensures k < p.Slots()
  {
    QuotientInMap(p, q);
    Quotient(q, p.BlockRecs())
  }

  lemma QuotientInMap(p: Dpb, q: nat)
    requires p.WellFormed() && q < p.GroupRecs()
    ensures Quotient(q, p.BlockRecs()) < p.Slots()
  {
    Shapes(p);
    var b := p.BlockRecs();
    if b == 8 {} else if b == 16 {} else if b == 32 {} else if b == 64 {} else {}
  }

  /** Block that holds record `q` of the group mapped by `m`, or 0. */
  function BlockOf(p: Dpb, m: Map, q: nat): nat
    requires p.WellFormed() && q < p.GroupRecs()
  {
    Slot(p, m, MapIndex(p, q))
  }

  /** Record `q` of the group can be read: it lies below the end and its block is allocated. */
  predicate Readable(p: Dpb, m: Map, rc: byte, q: nat)
    requires p.WellFormed() && q < p.GroupRecs()
  {
    q < EndOf(p, m, rc) && BlockOf(p, m, q) != 0
  }

  /** Sector of block `b` that holds record `q`; `do_io` (bdosrw.c:123-137). */
  function SectorOf(p: Dpb, b: nat, q: nat): nat { b * p.BlockRecs() + q % p.BlockRecs() }

  lemma SectorOfInjective(p: Dpb, b: nat, q: nat, b': nat, q': nat)
    requires SectorOf(p, b, q) == SectorOf(p, b', q')
    ensures b == b' && q % p.BlockRecs() == q' % p.BlockRecs()
  {
    var r := p.BlockRecs();
    if b < b' { NextMultiple(b, b', r); }
    if b' < b { NextMultiple(b', b, r); }
  }

  datatype Option<+T> = None | Some(value: T)

  /** The sparse file that a set of pieces and a medium describe. */
  ghost function View(p: Dpb, s: seq<Piece>, disk: seq<Sector>, id: FileId, n: nat): Option<Sector>
    requires p.WellFormed()
  {
    var q := p.RecIn(n);
    var i := Find(s, id, p.GroupOf(n));
    if i < |s| && Readable(p, s[i].dskmap, s[i].rc, q)
       && SectorOf(p, BlockOf(p, s[i].dskmap, q), q) < |disk|
    then Some(disk[SectorOf(p, BlockOf(p, s[i].dskmap, q), q)])
    else None
  }
}

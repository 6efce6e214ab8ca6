/** FCBs and directory entries as the byte buffers the program works on: what one store, or a byte-wise
    move, does to the values they stand for; and the allocation vector as the bytes it is kept in. */
module Layout {
  import opened DiskParams
  import opened DiskMap
  import opened Directory
  import opened Allocation
  import opened Volume

  const FCB_BYTES := 36
  const EXTENT := 12
  const S1 := 13
  const S2 := 14
  const RC := 15
  const DSKMAP := 16
  const CUR := 32
  const RAN0 := 33

  /** `struct fcb`. */
  function FcbOf(b: seq<byte>): FcbValue
    requires |b| == FCB_BYTES
  {
    Fcb(FromBytes(b[..32]), b[32], b[33], b[34], b[35])
  }

  lemma FcbFields(b: seq<byte>)
    requires |b| == FCB_BYTES
    ensures var f := FcbOf(b);
      && f.ent.entry == b[0] && f.ent.name == b[1..12] && f.ent.extent == b[EXTENT] && f.ent.s1 == b[S1]
      && f.ent.s2 == b[S2] && f.ent.rc == b[RC] && f.ent.dskmap == b[16..32]
      && f.cur == b[CUR] && f.ran0 == b[33] && f.ran1 == b[34] && f.ran2 == b[35]
  {
    assert b[..32][1..12] == b[1..12];
    assert b[..32][16..32] == b[16..32];
  }

  /** Entry `e` with byte `o` replaced. */
  function WithByte(e: Ent, o: nat, x: byte): Ent
    requires o < 32
  {
    if o == 0 then e.(entry := x)
    else if o < 12 then e.(name := e.name[o - 1 := x])
    else if o == EXTENT then e.(extent := x)
    else if o == S1 then e.(s1 := x)
    else if o == S2 then e.(s2 := x)
    else if o == RC then e.(rc := x)
    else e.(dskmap := e.dskmap[o - 16 := x])
  }

  lemma StoreEntByte(b: seq<byte>, o: nat, x: byte)
    requires |b| == 32 && o < 32
    ensures FromBytes(b[o := x]) == WithByte(FromBytes(b), o, x)
  {
    var c := b[o := x];
    if 1 <= o < 12 { assert c[1..12] == b[1..12][o - 1 := x]; } else { assert c[1..12] == b[1..12]; }
    if 16 <= o { assert c[16..32] == b[16..32][o - 16 := x]; } else { assert c[16..32] == b[16..32]; }
  }

  /** FCB `f` with byte `o` replaced. */
  function Stored(f: FcbValue, o: nat, x: byte): FcbValue
    requires o < FCB_BYTES
  {
    if o < 32 then f.(ent := WithByte(f.ent, o, x))
    else if o == CUR then f.(cur := x)
    else if o == 33 then f.(ran0 := x)
    else if o == 34 then f.(ran1 := x)
    else f.(ran2 := x)
  }

  /** A store into an FCB. */
  lemma StoreFcbByte(b: seq<byte>, o: nat, x: byte)
    requires |b| == FCB_BYTES && o < FCB_BYTES
    ensures FcbOf(b[o := x]) == Stored(FcbOf(b), o, x)
  {
    if o < 32 {
      assert b[o := x][..32] == b[..32][o := x];
      StoreEntByte(b[..32], o, x);
    } else {
      assert b[o := x][..32] == b[..32];
    }
  }

  /** A store into a directory buffer. */
  lemma StoreDirByte(s: Sector, k: nat, o: nat, x: byte)
    requires k < 4 && o < 32
    ensures s[32 * k + o := x] == PutEnt(s, k, WithByte(EntAt(s, k), o, x))
  {
    var b := s[32 * k .. 32 * k + 32];
    var t := s[32 * k + o := x];
    assert t[32 * k .. 32 * k + 32] == b[o := x];
    assert t == t[..32 * k] + t[32 * k .. 32 * k + 32] + t[32 * k + 32..];
    StoreEntByte(b, o, x);
    BytesRoundTrip(EntAt(s, k), b[o := x]);
    assert t[..32 * k] == s[..32 * k] && t[32 * k + 32..] == s[32 * k + 32..];
  }

  /** The 32-byte move from a directory entry to an FCB. */
  lemma MoveToFcb(b: seq<byte>, s: Sector, k: nat, c: seq<byte>)
    requires |b| == |c| == FCB_BYTES && k < 4
    requires forall i :: 0 <= i < 32 ==> c[i] == s[32 * k + i]
    requires forall i :: 32 <= i < FCB_BYTES ==> c[i] == b[i]
    ensures FcbOf(c) == FcbOf(b).(ent := EntAt(s, k))
  {
    assert c[..32] == s[32 * k .. 32 * k + 32];
  }

  /** The move the other way. */
  lemma MoveToDir(b: seq<byte>, s: Sector, k: nat, t: Sector)
    requires |b| == FCB_BYTES && k < 4
    requires forall i :: 0 <= i < 128 ==> t[i] == if 32 * k <= i < 32 * k + 32 then b[i - 32 * k] else s[i]
    ensures t == PutEnt(s, k, FcbOf(b).ent)
  {
    BytesRoundTrip(FcbOf(b).ent, b[..32]);
    assert t[..32 * k] == s[..32 * k] && t[32 * k + 32..] == s[32 * k + 32..];
    assert t[32 * k .. 32 * k + 32] == b[..32];
    assert t == t[..32 * k] + t[32 * k .. 32 * k + 32] + t[32 * k + 32..];
  }

  lemma DirFields(s: Sector, k: nat)
    requires k < 4
    ensures var e := EntAt(s, k);
      && e.entry == s[32 * k] && e.extent == s[32 * k + EXTENT] && e.s1 == s[32 * k + S1]
      && e.s2 == s[32 * k + S2] && e.rc == s[32 * k + RC]
      && e.name == s[32 * k + 1 .. 32 * k + 12] && e.dskmap == s[32 * k + 16 .. 32 * k + 32]
  {
    var b := s[32 * k .. 32 * k + 32];
    assert forall i :: 0 <= i < 11 ==> b[1..12][i] == b[1 + i] == s[32 * k + 1 .. 32 * k + 12][i];
    assert forall i :: 0 <= i < 16 ==> b[16..32][i] == b[16 + i] == s[32 * k + 16 .. 32 * k + 32][i];
  }

  /** Byte `o` of entry `e`. */
  function ByteOf(e: Ent, o: nat): byte
    requires o < 32
  {
    if o == 0 then e.entry
    else if o < 12 then e.name[o - 1]
    else if o == EXTENT then e.extent
    else if o == S1 then e.s1
    else if o == S2 then e.s2
    else if o == RC then e.rc
    else e.dskmap[o - 16]
  }

  lemma DirByte(s: Sector, k: nat, o: nat)
    requires k < 4 && o < 32
    ensures s[32 * k + o] == ByteOf(EntAt(s, k), o)
  {
    DirFields(s, k);
    hide EntAt;
    if 1 <= o < 12 { assert s[32 * k + 1 .. 32 * k + 12][o - 1] == s[32 * k + o]; }
    if 16 <= o { assert s[32 * k + 16 .. 32 * k + 32][o - 16] == s[32 * k + o]; }
  }

  /** Successive stores into one entry. */
  lemma Restore(s: Sector, k: nat, c: Ent, o: nat, x: byte)
    requires k < 4 && o < 32
    ensures EntAt(PutEnt(s, k, c), k) == c
    ensures PutEnt(PutEnt(s, k, c), k, WithByte(c, o, x)) == PutEnt(s, k, WithByte(c, o, x))
  {
    PutGet(s, k, c, k);
    PutTwice(s, k, c, WithByte(c, o, x));
  }

  // ---------------------------------------------------------------- the vector's bytes

  /** `0x80 >> i`. */
  function Mask(i: nat): (m: bv8)
    requires i < 8
  {
    (0x80 as bv8) >> i
  }

  predicate Bit(x: bv8, i: nat)
    requires i < 8
  {
    x & Mask(i) != 0
  }

  function BitsOf(s: seq<bv8>): (r: Vector)
    ensures |r| == 8 * |s|
  {
    seq(8 * |s|, b requires 0 <= b < 8 * |s| => Bit(s[b / 8], b % 8))
  }

  lemma MaskValues()
    ensures Mask(0) == 0x80 && Mask(1) == 0x40 && Mask(2) == 0x20 && Mask(3) == 0x10
    ensures Mask(4) == 0x08 && Mask(5) == 0x04 && Mask(6) == 0x02 && Mask(7) == 0x01
  {
  }

  lemma SetBit(x: bv8, i: nat, j: nat)
    requires i < 8 && j < 8
    ensures Bit(x | Mask(i), j) == (j == i || Bit(x, j))
  {
    MaskValues();
    hide Mask;
    if i == 0 {} else if i == 1 {} else if i == 2 {} else if i == 3 {}
    else if i == 4 {} else if i == 5 {} else if i == 6 {} else {}
  }

  lemma ClearBit(x: bv8, i: nat, j: nat)
    requires i < 8 && j < 8
    ensures Bit(x & !Mask(i), j) == (j != i && Bit(x, j))
  {
    MaskValues();
    hide Mask;
    if i == 0 {} else if i == 1 {} else if i == 2 {} else if i == 3 {}
    else if i == 4 {} else if i == 5 {} else if i == 6 {} else {}
  }

  function WithBit(x: bv8, i: nat): bv8
    requires i < 8
  {
    x | Mask(i)
  }

  function WithoutBit(x: bv8, i: nat): bv8
    requires i < 8
  {
    x & !Mask(i)
  }

  predicate BitClear(x: bv8, i: nat)
    requires i < 8
    ensures BitClear(x, i) == !Bit(x, i)
  {
    MaskValues();
    !x & Mask(i) != 0
  }

  /** `*(alv + (bitnum >> 3)) |= 0x80 >> (bitnum & 7)`. */
  lemma SetInBytes(s: seq<bv8>, b: nat)
    requires b < 8 * |s|
    ensures BitsOf(s[b / 8 := WithBit(s[b / 8], b % 8)]) == BitsOf(s)[b := true]
  {
    var t := s[b / 8 := WithBit(s[b / 8], b % 8)];
    forall c: nat | c < 8 * |s| ensures BitsOf(t)[c] == BitsOf(s)[b := true][c] {
      if c / 8 == b / 8 { SetBit(s[b / 8], b % 8, c % 8); }
      hide Bit, Mask;
    }
  }

  /** `*(alv + (bitnum >> 3)) &= ~(0x80 >> (bitnum & 7))`. */
  lemma ClearInBytes(s: seq<bv8>, b: nat)
    requires b < 8 * |s|
    ensures BitsOf(s[b / 8 := WithoutBit(s[b / 8], b % 8)]) == BitsOf(s)[b := false]
  {
    var t := s[b / 8 := WithoutBit(s[b / 8], b % 8)];
    forall c: nat | c < 8 * |s| ensures BitsOf(t)[c] == BitsOf(s)[b := false][c] {
      if c / 8 == b / 8 { ClearBit(s[b / 8], b % 8, c % 8); }
      hide Bit, Mask;
    }
  }

  /** A bit of the little-endian word at byte `2 * w`, tested from the top down. */
  lemma WordBit(lo: bv8, hi: bv8, i: nat)
    requires i < 16
    ensures var word := (lo as bv16) | ((hi as bv16) << 8);
      (!word & ((0x8000 as bv16) >> i) != 0) == !(if i < 8 then Bit(hi, i) else Bit(lo, i - 8))
  {
    if i == 0 {} else if i == 1 {} else if i == 2 {} else if i == 3 {}
    else if i == 4 {} else if i == 5 {} else if i == 6 {} else if i == 7 {}
    else if i == 8 {} else if i == 9 {} else if i == 10 {} else if i == 11 {}
    else if i == 12 {} else if i == 13 {} else if i == 14 {} else {}
  }
}

/** The random number generator's core (cpmrng.c:15-59): the ten double rounds computed in place are
    the double rounds of the Salsa20 specification, and a permutation of sixteen words. */
module Salsa {
  /** A 32-bit word. */
  datatype Word = W(bits: bv32)

  function Plus(x: Word, y: Word): Word { W(x.bits + y.bits) }

  function Xor(x: Word, y: Word): Word { W(x.bits ^ y.bits) }

  /** `ROTL32`. */
  function Turn(x: bv32, n: nat): bv32
    requires n <= 32
  {
    (x << n) | (x >> (32 - n))
  }

  function Rotl(x: Word, n: nat): Word
    requires n <= 32
  {
    W(Turn(x.bits, n))
  }

  /** The quarterround of the Salsa20 specification, section 3. */
  function Quarter(y0: Word, y1: Word, y2: Word, y3: Word): (Word, Word, Word, Word)
  {
    var z1 := Xor(y1, Rotl(Plus(y0, y3), 7));
    var z2 := Xor(y2, Rotl(Plus(z1, y0), 9));
    var z3 := Xor(y3, Rotl(Plus(z2, z1), 13));
    var z0 := Xor(y0, Rotl(Plus(z3, z2), 18));
    (z0, z1, z2, z3)
  }

  /** A rotation by `n` moves bit `i` to place `i + n`, round the end. */
  lemma TurnMovesBits(x: bv32, i: bv32)
    requires i < 32
    ensures (Turn(x, 7) >> ((i + 7) & 31)) & 1 == (x >> i) & 1
    ensures (Turn(x, 9) >> ((i + 9) & 31)) & 1 == (x >> i) & 1
    ensures (Turn(x, 13) >> ((i + 13) & 31)) & 1 == (x >> i) & 1
    ensures (Turn(x, 18) >> ((i + 18) & 31)) & 1 == (x >> i) & 1
  {
  }

  function Unquarter(z0: Word, z1: Word, z2: Word, z3: Word): (Word, Word, Word, Word)
  {
    var y0 := Xor(z0, Rotl(Plus(z3, z2), 18));
    var y3 := Xor(z3, Rotl(Plus(z2, z1), 13));
    var y2 := Xor(z2, Rotl(Plus(z1, y0), 9));
    var y1 := Xor(z1, Rotl(Plus(y0, y3), 7));
    (y0, y1, y2, y3)
  }

  lemma XorTwice(x: Word, y: Word)
    ensures Xor(Xor(x, y), y) == x
  {
  }

  lemma UnquarterQuarter(a: Word, b: Word, c: Word, d: Word)
    ensures var z := Quarter(a, b, c, d); Unquarter(z.0, z.1, z.2, z.3) == (a, b, c, d)
    ensures var y := Unquarter(a, b, c, d); Quarter(y.0, y.1, y.2, y.3) == (a, b, c, d)
  {
    hide Rotl, Plus, Xor;
    var z := Quarter(a, b, c, d);
    var y := Unquarter(a, b, c, d);
    XorTwice(a, Rotl(Plus(z.3, z.2), 18));
    XorTwice(d, Rotl(Plus(z.2, z.1), 13));
    XorTwice(c, Rotl(Plus(z.1, a), 9));
    XorTwice(b, Rotl(Plus(a, d), 7));
    XorTwice(b, Rotl(Plus(y.0, y.3), 7));
    XorTwice(c, Rotl(Plus(b, y.0), 9));
    XorTwice(d, Rotl(Plus(c, b), 13));
    XorTwice(a, Rotl(Plus(d, c), 18));
  }

  // ---------------------------------------------------------------- rounds on sixteen words

  type Block = s: seq<Word> | |s| == 16 witness seq(16, _ => W(0))

  /** The rowround of the specification, section 4. */
  function RowRound(y: Block): Block
  {
    var (z0, z1, z2, z3) := Quarter(y[0], y[1], y[2], y[3]);
    var (z5, z6, z7, z4) := Quarter(y[5], y[6], y[7], y[4]);
    var (z10, z11, z8, z9) := Quarter(y[10], y[11], y[8], y[9]);
    var (z15, z12, z13, z14) := Quarter(y[15], y[12], y[13], y[14]);
    [z0, z1, z2, z3, z4, z5, z6, z7, z8, z9, z10, z11, z12, z13, z14, z15]
  }

  function UnrowRound(z: Block): Block
  {
    var (y0, y1, y2, y3) := Unquarter(z[0], z[1], z[2], z[3]);
    var (y5, y6, y7, y4) := Unquarter(z[5], z[6], z[7], z[4]);
    var (y10, y11, y8, y9) := Unquarter(z[10], z[11], z[8], z[9]);
    var (y15, y12, y13, y14) := Unquarter(z[15], z[12], z[13], z[14]);
    [y0, y1, y2, y3, y4, y5, y6, y7, y8, y9, y10, y11, y12, y13, y14, y15]
  }

  function Transpose(x: Block): Block
  {
    [x[0], x[4], x[8], x[12], x[1], x[5], x[9], x[13], x[2], x[6], x[10], x[14], x[3], x[7], x[11], x[15]]
  }

  /** The columnround of the specification, section 5: the rowround of the transposed matrix. */
  function ColumnRound(x: Block): Block { Transpose(RowRound(Transpose(x))) }

  function UncolumnRound(y: Block): Block { Transpose(UnrowRound(Transpose(y))) }

  /** Section 6. */
  function DoubleRound(x: Block): Block { RowRound(ColumnRound(x)) }

  function UndoubleRound(z: Block): Block { UncolumnRound(UnrowRound(z)) }

  // ---------------------------------------------------------------- published values

  lemma PublishedSums()
    ensures Plus(W(0xD3917C5B), W(0x8F887A3B)) == W(0x6319F696)
    ensures Plus(W(0xD90A8F36), W(0xD3917C5B)) == W(0xAC9C0B91)
    ensures Plus(W(0x6AB2A923), W(0xD90A8F36)) == W(0x43BD3859)
    ensures Plus(W(0x2883524C), W(0x6AB2A923)) == W(0x9335FB6F)
    ensures Plus(W(1), W(0)) == W(1)
    ensures Plus(W(0x80), W(1)) == W(0x81)
    ensures Plus(W(0x10200), W(0x80)) == W(0x10280)
    ensures Plus(W(0x20500000), W(0x10200)) == W(0x20510200)
    ensures Plus(W(0), W(0)) == W(0)
    ensures Plus(W(0x200), W(1)) == W(0x201)
    ensures Plus(W(0x402000), W(0x200)) == W(0x402200)
    ensures Plus(W(0x2000), W(1)) == W(0x2001)
    ensures Plus(W(0), W(1)) == W(1)
    ensures Plus(W(0x80), W(0)) == W(0x80)
    ensures Plus(W(0x10000), W(0x80)) == W(0x10080)
    ensures Plus(W(0x20100001), W(0x10000)) == W(0x20110001)
  {
  }

  lemma PublishedTurns()
    ensures Rotl(W(0x6319F696), 7) == W(0x8CFB4B31)
    ensures Rotl(W(0xAC9C0B91), 9) == W(0x38172359)
    ensures Rotl(W(0x43BD3859), 13) == W(0xA70B2877)
    ensures Rotl(W(0x9335FB6F), 18) == W(0xEDBE4CD7)
    ensures Rotl(W(1), 7) == W(0x80)
    ensures Rotl(W(0x81), 9) == W(0x10200)
    ensures Rotl(W(0x10280), 13) == W(0x20500000)
    ensures Rotl(W(0x20510200), 18) == W(0x8008144)
    ensures Rotl(W(0), 7) == W(0)
    ensures Rotl(W(1), 9) == W(0x200)
    ensures Rotl(W(0x201), 13) == W(0x402000)
    ensures Rotl(W(0x402200), 18) == W(0x88000100)
    ensures Rotl(W(0), 9) == W(0)
    ensures Rotl(W(1), 13) == W(0x2000)
    ensures Rotl(W(0x2001), 18) == W(0x80040000)
    ensures Rotl(W(0x80), 9) == W(0x10000)
    ensures Rotl(W(0x10080), 13) == W(0x20100000)
    ensures Rotl(W(0x20110001), 18) == W(0x48044)
  {
  }

  lemma PublishedXors()
    ensures Xor(W(0x55F1C407), W(0x8CFB4B31)) == W(0xD90A8F36)
    ensures Xor(W(0x52A58A7A), W(0x38172359)) == W(0x6AB2A923)
    ensures Xor(W(0x8F887A3B), W(0xA70B2877)) == W(0x2883524C)
    ensures Xor(W(0xD3917C5B), W(0xEDBE4CD7)) == W(0x3E2F308C)
    ensures Xor(W(0), W(0x80)) == W(0x80)
    ensures Xor(W(0), W(0x10200)) == W(0x10200)
    ensures Xor(W(0), W(0x20500000)) == W(0x20500000)
    ensures Xor(W(1), W(0x8008144)) == W(0x8008145)
    ensures Xor(W(1), W(0)) == W(1)
    ensures Xor(W(0), W(0x200)) == W(0x200)
    ensures Xor(W(0), W(0x402000)) == W(0x402000)
    ensures Xor(W(0), W(0x88000100)) == W(0x88000100)
    ensures Xor(W(0), W(0)) == W(0)
    ensures Xor(W(0), W(0x2000)) == W(0x2000)
    ensures Xor(W(0), W(0x80040000)) == W(0x80040000)
    ensures Xor(W(0), W(0x10000)) == W(0x10000)
    ensures Xor(W(1), W(0x20100000)) == W(0x20100001)
    ensures Xor(W(0), W(0x48044)) == W(0x48044)
  {
  }

  /** Examples that the Salsa20 specification gives in section 3. */
  lemma PublishedQuarters()
    ensures Quarter(W(0xD3917C5B), W(0x55F1C407), W(0x52A58A7A), W(0x8F887A3B))
      == (W(0x3E2F308C), W(0xD90A8F36), W(0x6AB2A923), W(0x2883524C))
    ensures Quarter(W(1), W(0), W(0), W(0)) == (W(0x8008145), W(0x80), W(0x10200), W(0x20500000))
    ensures Quarter(W(0), W(1), W(0), W(0)) == (W(0x88000100), W(1), W(0x200), W(0x402000))
    ensures Quarter(W(0), W(0), W(1), W(0)) == (W(0x80040000), W(0), W(1), W(0x2000))
    ensures Quarter(W(0), W(0), W(0), W(1)) == (W(0x48044), W(0x80), W(0x10000), W(0x20100001))
  {
    hide Plus, Rotl, Xor;
    PublishedSums();
    PublishedTurns();
    PublishedXors();
  }

  /** And in section 4. */
  lemma PublishedRow()
    ensures RowRound([W(1), W(0), W(0), W(0), W(1), W(0), W(0), W(0), W(1), W(0), W(0), W(0), W(1), W(0), W(0), W(0)])
      == [W(0x8008145), W(0x80), W(0x10200), W(0x20500000), W(0x20100001), W(0x48044), W(0x80), W(0x10000),
          W(1), W(0x2000), W(0x80040000), W(0), W(1), W(0x200), W(0x402000), W(0x88000100)]
  {
    hide Quarter;
    PublishedQuarters();
  }

  lemma RowRoundInverse(x: Block)
    ensures UnrowRound(RowRound(x)) == x && RowRound(UnrowRound(x)) == x
  {
    hide Quarter, Unquarter;
    UnquarterQuarter(x[0], x[1], x[2], x[3]);
    UnquarterQuarter(x[5], x[6], x[7], x[4]);
    UnquarterQuarter(x[10], x[11], x[8], x[9]);
    UnquarterQuarter(x[15], x[12], x[13], x[14]);
  }

  lemma TransposeInverse(x: Block)
    ensures Transpose(Transpose(x)) == x
  {
  }

  lemma DoubleRoundInverse(x: Block)
    ensures UndoubleRound(DoubleRound(x)) == x && DoubleRound(UndoubleRound(x)) == x
  {
    hide RowRound, UnrowRound, Transpose;
    ColumnRoundInverse(x);
    RowRoundInverse(ColumnRound(x));
    RowRoundInverse(x);
    ColumnRoundInverse(UnrowRound(x));
  }

  lemma ColumnRoundInverse(x: Block)
    ensures UncolumnRound(ColumnRound(x)) == x && ColumnRound(UncolumnRound(x)) == x
  {
    hide RowRound, UnrowRound, Transpose;
    TransposeInverse(x);
    TransposeInverse(RowRound(Transpose(x)));
    TransposeInverse(UnrowRound(Transpose(x)));
    RowRoundInverse(Transpose(x));
  }

  function Rounds(x: Block, n: nat): Block
    decreases n
  {
    if n == 0 then x else DoubleRound(Rounds(x, n - 1))
  }

  function Unrounds(x: Block, n: nat): Block
    decreases n
  {
    if n == 0 then x else Unrounds(UndoubleRound(x), n - 1)
  }

  /** Any number of double rounds is a bijection on blocks. */
  lemma {:induction false} RoundsBijective(x: Block, n: nat)
    ensures Unrounds(Rounds(x, n), n) == x && Rounds(Unrounds(x, n), n) == x
    decreases n
  {
    hide DoubleRound, UndoubleRound;
    if n > 0 {
      DoubleRoundInverse(Rounds(x, n - 1));
      RoundsBijective(x, n - 1);
      RoundsBijective(UndoubleRound(x), n - 1);
      DoubleRoundInverse(x);
    }
  }

  // ---------------------------------------------------------------- in place

  /** A quarterround on four words of a block. */
  function At(x: Block, i: nat, j: nat, k: nat, l: nat): Block
    requires i < 16 && j < 16 && k < 16 && l < 16
  {
    Put4(x, i, j, k, l, Quarter(x[i], x[j], x[k], x[l]))
  }

  function Put4(x: Block, i: nat, j: nat, k: nat, l: nat, z: (Word, Word, Word, Word)): Block
    requires i < 16 && j < 16 && k < 16 && l < 16
  {
    x[i := z.0][j := z.1][k := z.2][l := z.3]
  }

  /** The first four calls of the loop body make the columnround. */
  lemma ColumnsInPlace(x: Block)
    ensures At(At(At(At(x, 0, 4, 8, 12), 5, 9, 13, 1), 10, 14, 2, 6), 15, 3, 7, 11) == ColumnRound(x)
  {
    hide Quarter;
  }

  /** The last four make the rowround. */
  lemma RowsInPlace(x: Block)
    ensures At(At(At(At(x, 0, 1, 2, 3), 5, 6, 7, 4), 10, 11, 8, 9), 15, 12, 13, 14) == RowRound(x)
  {
    hide Quarter;
  }

  /** `salsa20_quarterround` (cpmrng.c:21-28) on the words at four places. */
  method QuarterRound(x: array<Word>, a: nat, b: nat, c: nat, d: nat)
    requires x.Length == 16 && a < 16 && b < 16 && c < 16 && d < 16
    requires a != b && a != c && a != d && b != c && b != d && c != d
    modifies x
    ensures x[..] == At(old(x[..]), a, b, c, d)
  {
    hide Rotl, Plus, Xor;
    x[b] := Xor(x[b], Rotl(Plus(x[a], x[d]), 7));
    x[c] := Xor(x[c], Rotl(Plus(x[b], x[a]), 9));
    x[d] := Xor(x[d], Rotl(Plus(x[c], x[b]), 13));
    x[a] := Xor(x[a], Rotl(Plus(x[d], x[c]), 18));
  }

  /** One turn of the loop. */
  method DoubleRoundInPlace(x: array<Word>)
    requires x.Length == 16
    modifies x
    ensures x[..] == DoubleRound(old(x[..]))
  {
    hide At, DoubleRound;
    Split(x[..]);
    QuarterRound(x, 0, 4, 8, 12);
    QuarterRound(x, 5, 9, 13, 1);
    QuarterRound(x, 10, 14, 2, 6);
    QuarterRound(x, 15, 3, 7, 11);
    QuarterRound(x, 0, 1, 2, 3);
    QuarterRound(x, 5, 6, 7, 4);
    QuarterRound(x, 10, 11, 8, 9);
    QuarterRound(x, 15, 12, 13, 14);
  }

  lemma Split(x: Block)
    ensures var y := At(At(At(At(x, 0, 4, 8, 12), 5, 9, 13, 1), 10, 14, 2, 6), 15, 3, 7, 11);
      At(At(At(At(y, 0, 1, 2, 3), 5, 6, 7, 4), 10, 11, 8, 9), 15, 12, 13, 14) == DoubleRound(x)
  {
    hide At, ColumnRound, RowRound;
    ColumnsInPlace(x);
    RowsInPlace(ColumnRound(x));
  }

  /** Salsa20 of one input block, on words: the rounds plus the input. */
  function Core(m: Block): Block
  {
    hide Rounds;
    Sums(Rounds(m, 10), m)
  }

  function Sums(x: Block, m: Block): Block
  {
    seq(16, i requires 0 <= i < 16 => Plus(x[i], m[i]))
  }

  /** `salsa20_block` (cpmrng.c:32-59). */
  method SalsaBlock(input: array<Word>, out: array<Word>)
    requires input.Length == 16 && out.Length == 16 && input != out
    modifies out
    ensures out[..] == Core(input[..])
  {
    hide Rounds, DoubleRound, Plus;
    ghost var m: Block := input[..];
    var x := new Word[16](_ => W(0));
    var i := 0;
    while i < 16
      invariant i <= 16 && x[..i] == m[..i]
    {
      x[i] := input[i];
      i := i + 1;
    }
    assert x[..] == m;
    RoundsStep(m, 0);
    i := 0;
    while i < 10
      invariant i <= 10 && x[..] == Rounds(m, i)
    {
      DoubleRoundInPlace(x);
      RoundsStep(m, i + 1);
      i := i + 1;
    }
    ghost var r: Block := x[..];
    i := 0;
    while i < 16
      invariant i <= 16 && x[..] == r && forall j :: 0 <= j < i ==> out[j] == Plus(r[j], m[j])
    {
      out[i] := Plus(x[i], input[i]);
      i := i + 1;
    }
    assert out[..] == Core(m);
  }

  lemma RoundsStep(m: Block, n: nat)
    ensures Rounds(m, n) == if n == 0 then m else DoubleRound(Rounds(m, n - 1))
  {
    hide DoubleRound;
  }
}

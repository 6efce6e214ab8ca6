/** Four bytes and the 32-bit word they make. */
module Bits {
  function Join(b0: bv8, b1: bv8, b2: bv8, b3: bv8): bv32
  {
    (b0 as bv32) | ((b1 as bv32) << 8) | ((b2 as bv32) << 16) | ((b3 as bv32) << 24)
  }

  function ByteAt(x: bv32, k: nat): bv8
    requires k < 4
  {
    if k == 0 then (x & 0xFF) as bv8
    else if k == 1 then ((x >> 8) & 0xFF) as bv8
    else if k == 2 then ((x >> 16) & 0xFF) as bv8
    else ((x >> 24) & 0xFF) as bv8
  }

  lemma JoinBytes(x: bv32)
    ensures Join(ByteAt(x, 0), ByteAt(x, 1), ByteAt(x, 2), ByteAt(x, 3)) == x
  {
  }

  /** The byte of a number, found by counting up to it. */
  lemma {:induction false} OctetOf(x: nat) returns (w: bv8)
    requires x < 256
    ensures w as nat == x
  {
    if x == 0 {
      w := 0;
    } else {
      var v := OctetOf(x - 1);
      w := v + 1;
    }
  }

  lemma ByteValue(x: nat)
    requires x < 256
    ensures (x as bv8) as nat == x
  {
    var w := OctetOf(x);
  }

  lemma XorFacts(x: bv8, y: bv8, z: bv8)
    ensures x ^ 0 == x && (x ^ y) ^ z == x ^ (y ^ z) && x ^ (x ^ y) == y
  {
  }

  lemma JoinIs(b0: bv8, b1: bv8, b2: bv8, b3: bv8)
    ensures Join(b0, b1, b2, b3) == (b0 as bv32) | ((b1 as bv32) << 8) | ((b2 as bv32) << 16) | ((b3 as bv32) << 24)
  {
  }

  lemma JoinValue(b0: bv8, b1: bv8, b2: bv8, b3: bv8)
    ensures Join(b0, b1, b2, b3) as nat
      == b0 as nat + 0x100 * (b1 as nat) + 0x1_0000 * (b2 as nat) + 0x100_0000 * (b3 as nat)
  {
    hide Join;
    JoinIs(b0, b1, b2, b3);
  }

  /** A word with given byte values. */
  lemma Assemble(b0: nat, b1: nat, b2: nat, b3: nat) returns (w: bv32)
    requires b0 < 256 && b1 < 256 && b2 < 256 && b3 < 256
    ensures w as nat == b0 + 0x100 * b1 + 0x1_0000 * b2 + 0x100_0000 * b3
  {
    hide Join;
    ByteValue(b0);
    ByteValue(b1);
    ByteValue(b2);
    ByteValue(b3);
    w := Join(b0 as bv8, b1 as bv8, b2 as bv8, b3 as bv8);
    JoinValue(b0 as bv8, b1 as bv8, b2 as bv8, b3 as bv8);
  }
}

/** The random number generator's state machine (cpmrng.c:62-234): which block inputs are drawn under
    one key, and when output is withheld. */
module Rng {
  import opened Salsa
  import Bits

  const SEED_THRESHOLD := 256
  const REKEY_INTERVAL := 256
  const TWO32 := 0x1_0000_0000
  const TWO64 := 0x1_0000_0000_0000_0000
  const REFUSED := 0xFFFF

  // ---------------------------------------------------------------- bytes, words, numbers

  datatype Octet = O(bits: bv8)

  function Mixed(x: Octet, y: Octet): Octet { O(x.bits ^ y.bits) }

  /** `load32_le`. */
  function Load(b0: Octet, b1: Octet, b2: Octet, b3: Octet): Word
  {
    W(Bits.Join(b0.bits, b1.bits, b2.bits, b3.bits))
  }

  /** `store32_le`: byte `k`. */
  function StoreByte(w: Word, k: nat): Octet
    requires k < 4
  {
    O(Bits.ByteAt(w.bits, k))
  }

  function OfNat(x: nat): Word
    requires x < TWO32
  {
    W(x as bv32)
  }

  function Number(w: Word): nat { w.bits as nat }

  lemma ValueOf(w: Word)
    ensures Number(w) < TWO32 && OfNat(Number(w)) == w
  {
  }

  /** A number survives being put into a word. */
  lemma WordValue(x: nat)
    requires x < TWO32
    ensures Number(OfNat(x)) == x
  {
    var b0, b1, b2, b3 := x % 256, x / 0x100 % 256, x / 0x1_0000 % 256, x / 0x100_0000;
    FourBytes(x);
    var w := Bits.Assemble(b0, b1, b2, b3);
    assert Number(W(w)) == x;
    hide Number, OfNat;
    ValueOf(W(w));
  }

  lemma FourBytes(x: nat)
    requires x < TWO32
    ensures x == x % 256 + 0x100 * (x / 0x100 % 256) + 0x1_0000 * (x / 0x1_0000 % 256) + 0x100_0000 * (x / 0x100_0000)
    ensures x / 0x100_0000 < 256
  {
    DivTwice(x, 0x100);
    DivTwice(x, 0x1_0000);
  }

  lemma DivTwice(x: nat, m: nat)
    requires m == 0x100 || m == 0x1_0000
    ensures x / (m * 0x100) == x / m / 0x100 && x / m == 0x100 * (x / m / 0x100) + x / m % 0x100
    ensures x == x % 0x100 + 0x100 * (x / 0x100)
  {
    if m == 0x100 {} else {}
  }

  // ---------------------------------------------------------------- the state on values

  /** Key, nonce, 64-bit block counter, seed bytes absorbed (a 32-bit count), outputs since the last
      rekey. */
  datatype RawState = State(key: seq<Octet>, nonce: seq<Octet>, counter: nat, total: nat, count: nat)

  type State = s: RawState | |s.key| == 32 && |s.nonce| == 8 && s.counter < TWO64
    witness State(seq(32, _ => O(0)), seq(8, _ => O(0)), 0, 0, 0)

  const SIGMA0 := W(0x61707865)
  const SIGMA1 := W(0x3320646E)
  const SIGMA2 := W(0x79622D32)
  const SIGMA3 := W(0x6B206574)

  function KeyWord(b: seq<Octet>, i: nat): Word
    requires i + 4 <= |b|
  {
    Load(b[i], b[i + 1], b[i + 2], b[i + 3])
  }

  /** `build_matrix` (cpmrng.c:107-126). */
  function Matrix(s: State): Block
  {
    CounterHalves(s.counter);
    [SIGMA0, KeyWord(s.key, 0), KeyWord(s.key, 4), KeyWord(s.key, 8),
     KeyWord(s.key, 12), SIGMA1, KeyWord(s.nonce, 0), KeyWord(s.nonce, 4),
     OfNat(s.counter % TWO32), OfNat(s.counter / TWO32), SIGMA2, KeyWord(s.key, 16),
     KeyWord(s.key, 20), KeyWord(s.key, 24), KeyWord(s.key, 28), SIGMA3]
  }

  lemma MatrixIs(s: State)
    ensures s.counter % TWO32 < TWO32 && s.counter / TWO32 < TWO32
    ensures Matrix(s) ==
      [SIGMA0, KeyWord(s.key, 0), KeyWord(s.key, 4), KeyWord(s.key, 8)]
      + [KeyWord(s.key, 12), SIGMA1, KeyWord(s.nonce, 0), KeyWord(s.nonce, 4)]
      + [OfNat(s.counter % TWO32), OfNat(s.counter / TWO32), SIGMA2, KeyWord(s.key, 16)]
      + [KeyWord(s.key, 20), KeyWord(s.key, 24), KeyWord(s.key, 28), SIGMA3]
  {
    hide KeyWord, OfNat;
    CounterHalves(s.counter);
  }

  lemma CounterHalves(c: nat)
    requires c < TWO64
    ensures c % TWO32 < TWO32 && c / TWO32 < TWO32
  {
  }

  /** Counter that a block input carries. */
  function CounterOf(m: Block): nat { Number(m[8]) + TWO32 * Number(m[9]) }

  lemma MatrixCounter(s: State)
    ensures CounterOf(Matrix(s)) == s.counter
  {
    hide Number, OfNat, KeyWord;
    CounterHalves(s.counter);
    WordValue(s.counter % TWO32);
    WordValue(s.counter / TWO32);
  }

  /** Bytes of words `from`..`from + n` of a block. */
  function WordBytes(m: Block, from: nat, n: nat): (b: seq<Octet>)
    requires from + n <= 16
    ensures |b| == 4 * n
  {
    seq(4 * n, i requires 0 <= i < 4 * n => StoreByte(m[from + i / 4], i % 4))
  }

  lemma LoadStored(w: Word)
    ensures Load(StoreByte(w, 0), StoreByte(w, 1), StoreByte(w, 2), StoreByte(w, 3)) == w
  {
    hide Bits.Join, Bits.ByteAt;
    Bits.JoinBytes(w.bits);
  }

  /** The key and nonce that `Replaced` takes from an output block are its words: stored and loaded again
      they are the same. */
  lemma WordsComeBack(m: Block, from: nat, n: nat, i: nat)
    requires i < n && from + n <= 16
    ensures KeyWord(WordBytes(m, from, n), 4 * i) == m[from + i]
  {
    hide Load, StoreByte;
    LoadStored(m[from + i]);
    FourPlaces(i);
  }

  lemma FourPlaces(i: nat)
    ensures 4 * i / 4 == (4 * i + 1) / 4 == (4 * i + 2) / 4 == (4 * i + 3) / 4 == i
    ensures 4 * i % 4 == 0 && (4 * i + 1) % 4 == 1 && (4 * i + 2) % 4 == 2 && (4 * i + 3) % 4 == 3
  {
  }

  /** Output block for the present key, nonce and counter. */
  function Output(s: State): Block { Core(Matrix(s)) }

  /** `rng_counter + 1` in 64 bits. */
  function Next(c: nat): (r: nat)
    ensures r < TWO64
  {
    (c + 1) % TWO64
  }

  /** New key and nonce from an output block. */
  function Replaced(out: Block, counter: nat, total: nat, count: nat): State
    requires counter < TWO64
  {
    State(WordBytes(out, 0, 8), WordBytes(out, 8, 2), counter, total, count)
  }

  /** `mix_pool` (cpmrng.c:130-150). */
  function Mix(s: State): State { hide Output; Replaced(Output(s), Next(s.counter), s.total, s.count) }

  /** `rekey` (cpmrng.c:186-206). */
  function Rekeyed(s: State): State { hide Output; Replaced(Output(s), 0, s.total, 0) }

  /** Key and nonce with the seed folded in, and its length counted. */
  function Folded(s: State, buf: seq<Octet>): State
    requires |buf| <= 64
  {
    State(FoldedKey(s.key, buf), FoldedNonce(s.nonce, buf), s.counter, (s.total + |buf|) % TWO32, s.count)
  }

  function FoldedKey(key: seq<Octet>, buf: seq<Octet>): (r: seq<Octet>)
    requires |key| == 32 && |buf| <= 64
    ensures |r| == 32
  {
    seq(32, k requires 0 <= k < 32 => FoldedByte(key, buf, k, |buf|))
  }

  function FoldedNonce(nonce: seq<Octet>, buf: seq<Octet>): (r: seq<Octet>)
    requires |nonce| == 8
    ensures |r| == 8
  {
    seq(8, k requires 0 <= k < 8 => if k < |buf| then Mixed(nonce[k], buf[k]) else nonce[k])
  }

  /** Byte `k` of the key once the first `n` seed bytes are in: bytes `k` and `k + 32` land on it. */
  function FoldedByte(key: seq<Octet>, buf: seq<Octet>, k: nat, n: nat): Octet
    requires k < 32 == |key| && n <= |buf| <= 64
  {
    var once := if k < n then Mixed(key[k], buf[k]) else key[k];
    if k + 32 < n then Mixed(once, buf[k + 32]) else once
  }

  /** What a seed brings to byte `k` of the key, and of the nonce. */
  function KeyShare(buf: seq<Octet>, k: nat): Octet
  {
    if k + 32 < |buf| then Mixed(buf[k], buf[k + 32]) else if k < |buf| then buf[k] else O(0)
  }

  function NonceShare(buf: seq<Octet>, k: nat): Octet { if k < |buf| then buf[k] else O(0) }

  lemma Shares(x: Octet, y: Octet, z: Octet)
    ensures Mixed(x, O(0)) == x && Mixed(Mixed(x, y), z) == Mixed(x, Mixed(y, z))
    ensures Mixed(x, y) == Mixed(x, z) <==> y == z
  {
    hide Mixed;
    MixedFacts(x, y, z);
    MixedTwice(x, y);
    MixedTwice(x, z);
  }

  lemma MixedFacts(x: Octet, y: Octet, z: Octet)
    ensures Mixed(x, O(0)) == x && Mixed(Mixed(x, y), z) == Mixed(x, Mixed(y, z))
  {
    hide Mixed;
    Bits.XorFacts(x.bits, y.bits, z.bits);
    MixedIs(x, O(0));
    MixedIs(x, y);
    MixedIs(Mixed(x, y), z);
    MixedIs(y, z);
    MixedIs(x, Mixed(y, z));
  }

  lemma MixedTwice(x: Octet, y: Octet)
    ensures Mixed(x, Mixed(x, y)) == y
  {
    Bits.XorFacts(x.bits, y.bits, y.bits);
  }

  lemma MixedIs(x: Octet, y: Octet)
    ensures Mixed(x, y) == O(x.bits ^ y.bits)
  {
  }

  lemma LoadInjective(a: Octet, b: Octet, c: Octet, d: Octet, a': Octet, b': Octet, c': Octet, d': Octet)
    ensures Load(a, b, c, d) == Load(a', b', c', d') <==> (a, b, c, d) == (a', b', c', d')
  {
  }

  lemma FoldedShares(s: State, buf: seq<Octet>)
    requires |buf| <= 64
    ensures forall k :: 0 <= k < 32 ==> Folded(s, buf).key[k] == Mixed(s.key[k], KeyShare(buf, k))
    ensures forall k :: 0 <= k < 8 ==> Folded(s, buf).nonce[k] == Mixed(s.nonce[k], NonceShare(buf, k))
  {
    hide Mixed;
    forall k | 0 <= k < 32 ensures Folded(s, buf).key[k] == Mixed(s.key[k], KeyShare(buf, k)) {
      Shares(s.key[k], if k < |buf| then buf[k] else O(0), if k + 32 < |buf| then buf[k + 32] else O(0));
    }
    forall k | 0 <= k < 8 ensures Folded(s, buf).nonce[k] == Mixed(s.nonce[k], NonceShare(buf, k)) {
      Shares(s.nonce[k], O(0), O(0));
    }
  }

  lemma WordPins(a: seq<Octet>, b: seq<Octet>, i: nat)
    requires i + 4 <= |a| == |b|
    ensures KeyWord(a, i) == KeyWord(b, i) <==> a[i..i + 4] == b[i..i + 4]
  {
    LoadInjective(a[i], a[i + 1], a[i + 2], a[i + 3], b[i], b[i + 1], b[i + 2], b[i + 3]);
    hide Load;
    assert a[i..i + 4] == [a[i], a[i + 1], a[i + 2], a[i + 3]] && b[i..i + 4] == [b[i], b[i + 1], b[i + 2], b[i + 3]];
  }

  /** A block input holds the whole key and the whole nonce. */
  lemma MatrixPins(s: State, t: State)
    requires s.counter == t.counter
    ensures Matrix(s) == Matrix(t) <==> s.key == t.key && s.nonce == t.nonce
  {
    hide KeyWord, OfNat;
    if Matrix(s) == Matrix(t) {
      var m, n := Matrix(s), Matrix(t);
      assert m[1] == n[1] && m[2] == n[2] && m[3] == n[3] && m[4] == n[4] && m[6] == n[6] && m[7] == n[7];
      assert m[11] == n[11] && m[12] == n[12] && m[13] == n[13] && m[14] == n[14];
      forall k: nat | k < 8 ensures s.key[4 * k..4 * k + 4] == t.key[4 * k..4 * k + 4] {
        WordPins(s.key, t.key, 4 * k);
      }
      SameByFours(s.key, t.key);
      forall k: nat | k < 2 ensures s.nonce[4 * k..4 * k + 4] == t.nonce[4 * k..4 * k + 4] {
        WordPins(s.nonce, t.nonce, 4 * k);
      }
      SameByFours(s.nonce, t.nonce);
    }
  }

  lemma SameByFours(a: seq<Octet>, b: seq<Octet>)
    requires |a| == |b| && |a| % 4 == 0
    requires forall k: nat :: 4 * k < |a| ==> a[4 * k..4 * k + 4] == b[4 * k..4 * k + 4]
    ensures a == b
  {
    forall i | 0 <= i < |a| ensures a[i] == b[i] {
      var k := i / 4;
      assert a[i] == a[4 * k..4 * k + 4][i - 4 * k] && b[i] == b[4 * k..4 * k + 4][i - 4 * k];
    }
  }

  /** Two seeds lead to the same block input exactly if they agree in what they bring to every byte of key
      and nonce: every byte of a seed counts. */
  lemma SeedReachesBlock(s: State, a: seq<Octet>, b: seq<Octet>)
    requires |a| <= 64 && |b| <= 64
    ensures Matrix(Folded(s, a)) == Matrix(Folded(s, b)) <==>
      && (forall k: nat :: k < 32 ==> KeyShare(a, k) == KeyShare(b, k))
      && (forall k: nat :: k < 8 ==> NonceShare(a, k) == NonceShare(b, k))
  {
    hide Mixed, KeyShare, NonceShare, Matrix, FoldedKey, FoldedNonce;
    var f, g := Folded(s, a), Folded(s, b);
    FoldedShares(s, a);
    FoldedShares(s, b);
    MatrixPins(f, g);
    forall k | 0 <= k < 32 ensures f.key[k] == g.key[k] <==> KeyShare(a, k) == KeyShare(b, k) {
      Shares(s.key[k], KeyShare(a, k), KeyShare(b, k));
    }
    forall k | 0 <= k < 8 ensures f.nonce[k] == g.nonce[k] <==> NonceShare(a, k) == NonceShare(b, k) {
      Shares(s.nonce[k], NonceShare(a, k), NonceShare(b, k));
    }
  }

  /** In particular two seeds of one length up to 32 do so only if they are the same. */
  lemma ShortSeedsDiffer(s: State, a: seq<Octet>, b: seq<Octet>)
    requires |a| == |b| <= 32
    ensures Matrix(Folded(s, a)) == Matrix(Folded(s, b)) <==> a == b
  {
    hide Matrix, Folded;
    SeedReachesBlock(s, a, b);
    if Matrix(Folded(s, a)) == Matrix(Folded(s, b)) {
      forall k: nat | k < |a| ensures a[k] == b[k] {
        assert KeyShare(a, k) == KeyShare(b, k);
      }
    }
  }

  /** `salsa20rng_seed` (cpmrng.c:154-182); a NULL buffer is an empty one. */
  function SeedStep(s: State, buf: seq<Octet>): (State, nat)
  {
    hide Mix, Folded;
    if |buf| == 0 || |buf| > 64 then (s, REFUSED)
    else (Mix(Folded(s, buf)), 0)
  }

  /** Counters after an output. */
  function Drawn(s: State): State { State(s.key, s.nonce, Next(s.counter), s.total, s.count + 1) }

  /** `salsa20rng_get16` (cpmrng.c:210-238). */
  function DrawStep(s: State): (State, nat)
  {
    hide Output, Rekeyed, Sample;
    if s.total < SEED_THRESHOLD then (s, REFUSED)
    else
      var t := if s.count >= REKEY_INTERVAL then Rekeyed(s) else s;
      (Drawn(t), Sample(Output(t)))
  }

  function Sample(out: Block): (r: nat)
    ensures r < REFUSED
  {
    var r := Number(out[10]) % 0x1_0000;
    if r == 0xFFFF then 0xFFFE else r
  }

  // ---------------------------------------------------------------- runs

  datatype Op = Feed(buf: seq<Octet>) | Draw

  function Step(s: State, op: Op): State
  {
    match op
    case Feed(buf) => SeedStep(s, buf).0
    case Draw => DrawStep(s).0
  }

  /** Block inputs, by the key they were used under: those of keys since replaced, and those of the
      present key, oldest first. Folding in a seed is the beginning of a replacement. */
  datatype Log = Log(closed: seq<seq<Block>>, current: seq<Block>)

  function Noted(g: Log, s: State, op: Op): Log
  {
    match op
    case Feed(buf) =>
      if |buf| == 0 || |buf| > 64 then g
      else Log(g.closed + [g.current + [Matrix(Folded(s, buf))]], [])
    case Draw =>
      if s.total < SEED_THRESHOLD then g
      else if s.count >= REKEY_INTERVAL then Log(g.closed + [g.current + [Matrix(s)]], [Matrix(Rekeyed(s))])
      else Log(g.closed, g.current + [Matrix(s)])
  }

  /** State and log after a run from `s`. */
  function Run(s: State, g: Log, ops: seq<Op>): (State, Log)
    decreases |ops|
  {
    if |ops| == 0 then (s, g) else Run(Step(s, ops[0]), Noted(g, s, ops[0]), ops[1..])
  }

  /** No two block inputs share a counter, and there are at most 257 of them. */
  ghost predicate EpochOk(e: seq<Block>)
  {
    && |e| <= REKEY_INTERVAL + 1
    && forall i, j :: 0 <= i < j < |e| ==> CounterOf(e[i]) != CounterOf(e[j])
  }

  /** The counters of `e` are consecutive and end just before `next`. */
  ghost predicate Consecutive(e: seq<Block>, next: nat)
  {
    forall i :: 0 <= i < |e| ==> CounterOf(e[i]) == (next + TWO64 - |e| + i) % TWO64
  }

  ghost predicate LogOk(s: State, g: Log)
  {
    && s.count <= REKEY_INTERVAL && |g.current| <= s.count && Consecutive(g.current, s.counter)
    && forall k :: 0 <= k < |g.closed| ==> EpochOk(g.closed[k])
  }

  lemma ConsecutiveDiffer(e: seq<Block>, next: nat)
    requires Consecutive(e, next) && |e| <= REKEY_INTERVAL + 1 && next < TWO64
    ensures EpochOk(e)
  {
    forall i, j | 0 <= i < j < |e| ensures CounterOf(e[i]) != CounterOf(e[j]) {
      Offsets(next + TWO64 - |e| + i, j - i);
    }
  }

  lemma Offsets(x: nat, d: nat)
    requires 0 < d < TWO64
    ensures x % TWO64 != (x + d) % TWO64
  {
  }

  lemma OneMore(e: seq<Block>, m: Block, next: nat)
    requires Consecutive(e, next) && CounterOf(m) == next < TWO64 && |e| < TWO64
    ensures Consecutive(e + [m], (next + 1) % TWO64)
  {
    hide CounterOf;
    var f, next' := e + [m], (next + 1) % TWO64;
    forall i | 0 <= i < |f| ensures CounterOf(f[i]) == (next' + TWO64 - |f| + i) % TWO64 {
      if i < |e| { Shifted(next, |e|, i); } else { Shifted(next, |e|, |e|); }
    }
  }

  lemma Shifted(next: nat, n: nat, i: nat)
    requires next < TWO64 && i <= n < TWO64
    ensures ((next + 1) % TWO64 + TWO64 - (n + 1) + i) % TWO64 == (next + TWO64 - n + i) % TWO64
    ensures i == n ==> (next + TWO64 - n + i) % TWO64 == next
  {
  }

  lemma StepOk(s: State, g: Log, op: Op)
    requires LogOk(s, g)
    ensures LogOk(Step(s, op), Noted(g, s, op))
  {
    hide CounterOf, Matrix, Output, Consecutive, EpochOk, Sample, FoldedKey, FoldedNonce, WordBytes;
    match op
    case Feed(buf) =>
      if 0 < |buf| <= 64 {
        var t := Folded(s, buf);
        MatrixCounter(t);
        OneMore(g.current, Matrix(t), s.counter);
        ConsecutiveDiffer(g.current + [Matrix(t)], (s.counter + 1) % TWO64);
        NoneYet((s.counter + 1) % TWO64);
      }
    case Draw =>
      if s.total >= SEED_THRESHOLD {
        MatrixCounter(s);
        OneMore(g.current, Matrix(s), s.counter);
        if s.count >= REKEY_INTERVAL {
          ConsecutiveDiffer(g.current + [Matrix(s)], (s.counter + 1) % TWO64);
          NoneYet(0);
          MatrixCounter(Rekeyed(s));
          OneMore([], Matrix(Rekeyed(s)), 0);
          assert [] + [Matrix(Rekeyed(s))] == [Matrix(Rekeyed(s))];
        }
      }
  }

  lemma NoneYet(next: nat)
    ensures Consecutive([], next)
  {
  }

  lemma {:induction false} RunOk(s: State, g: Log, ops: seq<Op>)
    requires LogOk(s, g)
    ensures var r := Run(s, g, ops); LogOk(r.0, r.1)
    decreases |ops|
  {
    hide LogOk, Step, Noted;
    if |ops| > 0 {
      StepOk(s, g, ops[0]);
      RunOk(Step(s, ops[0]), Noted(g, s, ops[0]), ops[1..]);
    }
  }

  /** From power-on, over every run of seeding and drawing: under one key at most 257 blocks are
      drawn, and no block input is used twice. */
  lemma NoInputRepeats(s: State, ops: seq<Op>)
    requires s.count == 0
    ensures var g := Run(s, Log([], []), ops).1;
      EpochOk(g.current) && forall k :: 0 <= k < |g.closed| ==> EpochOk(g.closed[k])
  {
    hide Run, CounterOf;
    RunOk(s, Log([], []), ops);
    var r := Run(s, Log([], []), ops);
    ConsecutiveDiffer(r.1.current, r.0.counter);
  }

  // ---------------------------------------------------------------- withheld output

  /** Seed bytes accepted in a run. */
  function Fed(ops: seq<Op>): nat
  {
    if |ops| == 0 then 0
    else Fed(ops[1..]) + match ops[0] case Feed(buf) => (if |buf| <= 64 then |buf| else 0) case Draw => 0
  }

  lemma {:induction false} TotalIsFed(s: State, g: Log, ops: seq<Op>)
    requires s.total + Fed(ops) < TWO32
    ensures Run(s, g, ops).0.total == s.total + Fed(ops)
    decreases |ops|
  {
    hide Output, Noted, Sample, FoldedKey, FoldedNonce, WordBytes;
    if |ops| > 0 { TotalIsFed(Step(s, ops[0]), Noted(g, s, ops[0]), ops[1..]); }
  }

  /** Output is withheld exactly until 256 seed bytes have gone in. */
  lemma RefusedExactly(s: State, ops: seq<Op>)
    requires s.total == 0 && Fed(ops) < TWO32
    ensures DrawStep(Run(s, Log([], []), ops).0).1 == REFUSED <==> Fed(ops) < SEED_THRESHOLD
  {
    TotalIsFed(s, Log([], []), ops);
    hide Run, Output, Fed;
  }

  // ---------------------------------------------------------------- in place

  /** The statics of cpmrng.c:62-66. */
  class Generator {
    const key: array<Octet>
    const nonce: array<Octet>
    var counter: nat
    var total: nat
    var count: nat

    ghost predicate Valid()
      reads this
    {
      key.Length == 32 && nonce.Length == 8 && key != nonce && counter < TWO64
    }

    ghost function Value(): State
      requires Valid()
      reads this, key, nonce
    {
      RawState.State(key[..], nonce[..], counter, total, count)
    }

    /** `build_matrix` (cpmrng.c:107-126). */
    method BuildMatrix(m: array<Word>)
      requires Valid() && m.Length == 16
      modifies m
      ensures m[..] == Matrix(Value()) && Value() == old(Value())
    {
      hide KeyWord, OfNat, Matrix;
      CounterHalves(counter);
      MatrixIs(Value());
      var k, n := key[..], nonce[..];
      m[0], m[1], m[2], m[3] := SIGMA0, KeyWord(k, 0), KeyWord(k, 4), KeyWord(k, 8);
      m[4], m[5], m[6], m[7] := KeyWord(k, 12), SIGMA1, KeyWord(n, 0), KeyWord(n, 4);
      m[8], m[9], m[10], m[11] := OfNat(counter % TWO32), OfNat(counter / TWO32), SIGMA2, KeyWord(k, 16);
      m[12], m[13], m[14], m[15] := KeyWord(k, 20), KeyWord(k, 24), KeyWord(k, 28), SIGMA3;
      assert key[..] == k && nonce[..] == n;
    }

    /** One block with the present key, nonce and counter. */
    method NextBlock() returns (out: array<Word>)
      requires Valid()
      ensures fresh(out) && out.Length == 16 && out[..] == Output(Value()) && Value() == old(Value())
    {
      hide Matrix, Core;
      var m := new Word[16](_ => W(0));
      BuildMatrix(m);
      out := new Word[16](_ => W(0));
      SalsaBlock(m, out);
    }

    /** Key and nonce from the first ten words of `out` (cpmrng.c:139-146). */
    method Replace(out: array<Word>)
      requires Valid() && out.Length == 16
      modifies key, nonce
      ensures key[..] == WordBytes(out[..], 0, 8) && nonce[..] == WordBytes(out[..], 8, 2)
    {
      StoreWords(out, 0, 8, key);
      StoreWords(out, 8, 2, nonce);
    }

    method StoreWords(out: array<Word>, from: nat, n: nat, p: array<Octet>)
      requires out.Length == 16 && from + n <= 16 && p.Length == 4 * n
      modifies p
      ensures p[..] == WordBytes(out[..], from, n)
    {
      hide StoreByte;
      var i := 0;
      while i < n
        invariant i <= n && forall j :: 0 <= j < 4 * i ==> p[j] == StoreByte(out[from + j / 4], j % 4)
      {
        p[4 * i] := StoreByte(out[from + i], 0);
        p[4 * i + 1] := StoreByte(out[from + i], 1);
        p[4 * i + 2] := StoreByte(out[from + i], 2);
        p[4 * i + 3] := StoreByte(out[from + i], 3);
        i := i + 1;
      }
    }

    /** `mix_pool` (cpmrng.c:130-150). */
    method MixPool()
      requires Valid()
      modifies this, key, nonce
      ensures Valid() && Value() == Mix(old(Value()))
    {
      hide Output, WordBytes;
      var out := NextBlock();
      Replace(out);
      counter := (counter + 1) % TWO64;
    }

    /** `rekey` (cpmrng.c:186-206). */
    method Rekey()
      requires Valid()
      modifies this, key, nonce
      ensures Valid() && Value() == Rekeyed(old(Value()))
    {
      hide Output, WordBytes;
      var out := NextBlock();
      Replace(out);
      counter := 0;
      count := 0;
    }

    /** `salsa20rng_seed` (cpmrng.c:154-182). */
    method Seed(buf: seq<Octet>) returns (code: nat)
      requires Valid()
      modifies this, key, nonce
      ensures Valid() && (Value(), code) == SeedStep(old(Value()), buf)
    {
      hide Mix;
      if |buf| == 0 || |buf| > 64 { return REFUSED; }
      FoldKey(buf);
      FoldNonce(buf);
      total := (total + |buf|) % TWO32;
      assert Value() == Folded(old(Value()), buf);
      MixPool();
      return 0;
    }

    method FoldKey(buf: seq<Octet>)
      requires Valid() && |buf| <= 64
      modifies key
      ensures key[..] == FoldedKey(old(key[..]), buf)
    {
      hide Mixed;
      ghost var k0 := key[..];
      var i := 0;
      while i < |buf|
        invariant i <= |buf| && forall k :: 0 <= k < 32 ==> key[k] == FoldedByte(k0, buf, k, i)
      {
        key[i % 32] := Mixed(key[i % 32], buf[i]);
        i := i + 1;
      }
    }

    method FoldNonce(buf: seq<Octet>)
      requires Valid()
      modifies nonce
      ensures nonce[..] == FoldedNonce(old(nonce[..]), buf)
    {
      hide Mixed;
      var i := 0;
      while i < |buf| && i < 8
        invariant i <= |buf| && i <= 8
        invariant forall k :: 0 <= k < 8 ==> nonce[k] == if k < i then Mixed(old(nonce[k]), buf[k]) else old(nonce[k])
      {
        nonce[i] := Mixed(nonce[i], buf[i]);
        i := i + 1;
      }
    }

    /** `salsa20rng_get16` (cpmrng.c:210-238). */
    method Get16() returns (result: nat)
      requires Valid()
      modifies this, key, nonce
      ensures Valid() && (Value(), result) == DrawStep(old(Value()))
    {
      hide Output, Rekeyed, Number;
      if total < SEED_THRESHOLD { return REFUSED; }
      if count >= REKEY_INTERVAL { Rekey(); }
      var out := NextBlock();
      result := Number(out[10]) % 0x1_0000;
      if result == 0xFFFF { result := 0xFFFE; }
      counter := (counter + 1) % TWO64;
      count := count + 1;
    }
  }
}

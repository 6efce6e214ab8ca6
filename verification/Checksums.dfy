/** What the directory checksum is for (dskutil.c:144-169, 212-234): a changed byte shows, and the next
    scan over its sector logs the drive in again or, in the middle of work, closes it to writing. */
module Checksums {
  import opened DiskParams
  import opened Directory
  import opened Volume
  import opened Scanning
  import opened LoginScan

  /** What a byte weighs in its word. */
  function Weight(k: nat): nat
  {
    if k % 4 == 0 then 1 else if k % 4 == 1 then 0x100 else if k % 4 == 2 then 0x1_0000 else 0x100_0000
  }

  /** The folding of the sum of words into a byte. */
  function Fold(l: nat): byte
  {
    var m := (l + l / 0x1_0000) % 0x1_0000_0000;
    (m + m / 0x100) % 0x100
  }

  function Fold16(x: nat): byte
    requires x < 0x1_0000
  {
    (x % 0x100 + x / 0x100) % 0x100
  }

  lemma Fold16Is(m0: nat, m1: nat)
    requires m0 < 0x100 && m1 < 0x100
    ensures Fold16(m0 + 0x100 * m1) == (m0 + m1) % 0x100
  {
    DivMod2(m0 + 0x100 * m1, m1, m0, 0x100);
  }

  /** Only the lower half of the second sum counts. */
  lemma FoldAt(h: nat, x: nat)
    requires x < 0x1_0000
    ensures var m := 0x1_0000 * h + x; (m + m / 0x100) % 0x100 == Fold16(x)
  {
    var m0, m1 := x % 0x100, x / 0x100;
    DivMod2(0x1_0000 * h + x, 0x100 * h + m1, m0, 0x100);
    assert 0x1_0000 * h + x + (0x100 * h + m1) == (m0 + m1) + 0x100 * (0x101 * h + m1);
  }

  lemma FoldIs(lo: nat, hi: nat)
    requires lo < 0x1_0000 && hi < 0x1_0000
    ensures Fold(0x1_0000 * hi + lo) == Fold16((lo + hi) % 0x1_0000)
  {
    var l, x := 0x1_0000 * hi + lo, (lo + hi) % 0x1_0000;
    DivMod2(l, hi, lo, 0x1_0000);
    var c := if lo + hi < 0x1_0000 then 0 else 1;
    assert x == lo + hi - 0x1_0000 * c;
    var h := if hi + c == 0x1_0000 then 0 else hi + c;
    assert (l + hi) % 0x1_0000_0000 == 0x1_0000 * h + x;
    FoldAt(h, x);
    hide Fold16;
  }

  predicate OneByte(s: Sector, t: Sector, k: nat)
  {
    k < 128 && forall j :: 0 <= j < 128 && j != k ==> t[j] == s[j]
  }

  /** The change of the byte, weighed. */
  function Move(s: Sector, t: Sector, k: nat): int
    requires k < 128
  {
    (t[k] - s[k]) * Weight(k)
  }

  /** The sum moves by it. */
  lemma {:induction false} SumMoves(s: Sector, t: Sector, k: nat, i: nat)
    requires OneByte(s, t, k) && i <= 32
    ensures LongSum(t, i) == (LongSum(s, i) + if k / 4 < i then Move(s, t, k) else 0) % 0x1_0000_0000
    decreases i
  {
    hide LongAt, LongSum, Move;
    LongSteps(s, i);
    LongSteps(t, i);
    if i > 0 {
      SumMoves(s, t, k, i - 1);
      WordMoves(s, t, k, i - 1);
      var e := Move(s, t, k);
      SumStep(LongSum(s, i - 1), LongAt(s, i - 1), if k / 4 < i - 1 then e else 0, if k / 4 == i - 1 then e else 0);
    }
  }

  lemma SumStep(l: int, a: int, d: int, e: int)
    ensures ((l + d) % 0x1_0000_0000 + (a + e)) % 0x1_0000_0000 == ((l + a) % 0x1_0000_0000 + (d + e)) % 0x1_0000_0000
  {
    AddModulo(l + d, a + e);
    AddModulo(l + a, d + e);
  }

  lemma LongSteps(s: Sector, i: nat)
    requires i <= 32
    ensures LongSum(s, i) == if i == 0 then 0 else (LongSum(s, i - 1) + LongAt(s, i - 1)) % 0x1_0000_0000
  {
  }

  lemma WordMoves(s: Sector, t: Sector, k: nat, i: nat)
    requires OneByte(s, t, k) && i < 32
    ensures LongAt(t, i) == LongAt(s, i) + if k / 4 == i then Move(s, t, k) else 0
  {
    assert k == 4 * (k / 4) + k % 4;
  }

  lemma AddModulo(x: int, z: int)
    ensures (x % 0x1_0000_0000 + z) % 0x1_0000_0000 == (x + z) % 0x1_0000_0000
  {
  }

  lemma FoldMoves(l: nat, d: nat, k: nat)
    requires l < 0x1_0000_0000 && 0 < d < 256 && (d < 254 || k % 4 == 3)
    ensures Fold((l + d * Weight(k)) % 0x1_0000_0000) != Fold(l)
  {
    hide Fold, Fold16, Weight;
    var lo, hi := l % 0x1_0000, l / 0x1_0000;
    assert l == 0x1_0000 * hi + lo;
    var e := if k % 4 == 0 || k % 4 == 2 then d else 0x100 * d;
    WeightIs(d, k);
    FoldIs(lo, hi);
    if k % 4 < 2 {
      var r := HalvesLow(lo, hi, e);
      FoldIs(r.0, r.1);
    } else {
      var r := HalvesHigh(lo, hi, e);
      FoldIs(r.0, r.1);
    }
    Moves16((lo + hi) % 0x1_0000, d);
  }

  lemma WeightIs(d: nat, k: nat)
    ensures var e := if k % 4 == 0 || k % 4 == 2 then d else 0x100 * d;
      d * Weight(k) == if k % 4 < 2 then e else 0x1_0000 * e
  {
    if k % 4 == 0 {} else if k % 4 == 1 {} else if k % 4 == 2 {} else {}
  }

  /** The sum of the halves moves by the change, and by one more after a carry out of the lower half. */
  lemma HalvesLow(lo: nat, hi: nat, e: nat) returns (r: (nat, nat))
    requires lo < 0x1_0000 && hi < 0x1_0000 && e < 0x1_0000
    ensures r.0 < 0x1_0000 && r.1 < 0x1_0000 && (0x1_0000 * hi + lo + e) % 0x1_0000_0000 == 0x1_0000 * r.1 + r.0
    ensures var x := (lo + hi) % 0x1_0000; (r.0 + r.1) % 0x1_0000 in {(x + e) % 0x1_0000, (x + e + 1) % 0x1_0000}
  {
    if lo + e < 0x1_0000 {
      r := (lo + e, hi);
    } else if hi < 0xFFFF {
      r := (lo + e - 0x1_0000, hi + 1);
    } else {
      r := (lo + e - 0x1_0000, 0);
    }
  }

  lemma HalvesHigh(lo: nat, hi: nat, e: nat) returns (r: (nat, nat))
    requires lo < 0x1_0000 && hi < 0x1_0000 && e < 0x1_0000
    ensures r.0 < 0x1_0000 && r.1 < 0x1_0000
    ensures (0x1_0000 * hi + lo + 0x1_0000 * e) % 0x1_0000_0000 == 0x1_0000 * r.1 + r.0
    ensures (r.0 + r.1) % 0x1_0000 == ((lo + hi) % 0x1_0000 + e) % 0x1_0000
  {
    r := (lo, if hi + e < 0x1_0000 then hi + e else hi + e - 0x1_0000);
  }

  /** A move of the sum of the halves changes the fold. */
  lemma Moves16(x: nat, d: nat)
    requires x < 0x1_0000 && 0 < d < 256
    ensures d < 254 ==>
      Fold16((x + d) % 0x1_0000) != Fold16(x) && Fold16((x + d + 1) % 0x1_0000) != Fold16(x)
    ensures d < 254 ==> Fold16((x + 0x100 * d + 1) % 0x1_0000) != Fold16(x)
    ensures Fold16((x + 0x100 * d) % 0x1_0000) != Fold16(x)
  {
    hide Fold16;
    if d < 254 {
      Low(x, d);
      Low(x, d + 1);
      HighAndOne(x, d);
    }
    var m0, m1 := x % 0x100, x / 0x100;
    var n1 := if m1 + d < 0x100 then m1 + d else m1 + d - 0x100;
    Fold16Is(m0, m1);
    Fold16Is(m0, n1);
    assert (x + 0x100 * d) % 0x1_0000 == m0 + 0x100 * n1;
    Differ(m0 + m1, d);
  }

  lemma Low(x: nat, e: nat)
    requires x < 0x1_0000 && 0 < e < 255
    ensures Fold16((x + e) % 0x1_0000) != Fold16(x)
  {
    hide Fold16;
    var m0, m1 := x % 0x100, x / 0x100;
    var c := if m0 + e < 0x100 then 0 else 1;
    var n0, n1 := m0 + e - 0x100 * c, if m1 + c < 0x100 then m1 + c else 0;
    Fold16Is(m0, m1);
    Fold16Is(n0, n1);
    assert (x + e) % 0x1_0000 == n0 + 0x100 * n1;
    Differ(m0 + m1, e + c);
  }

  lemma Differ(a: nat, e: nat)
    requires 0 < e < 0x100
    ensures (a + e) % 0x100 != a % 0x100
  {
  }

  lemma HighAndOne(x: nat, d: nat)
    requires x < 0x1_0000 && 0 < d < 254
    ensures Fold16((x + 0x100 * d + 1) % 0x1_0000) != Fold16(x)
  {
    hide Fold16;
    var m0, m1 := x % 0x100, x / 0x100;
    var c := if m0 == 0xFF then 1 else 0;
    var n0 := if m0 == 0xFF then 0 else m0 + 1;
    var n1 := if m1 + d + c < 0x100 then m1 + d + c else m1 + d + c - 0x100;
    Fold16Is(m0, m1);
    Fold16Is(n0, n1);
    assert (x + 0x100 * d + 1) % 0x1_0000 == n0 + 0x100 * n1;
    Differ(m0 + m1, d + 1 + c);
  }

  lemma ChecksumIs(s: Sector)
    ensures Checksum(s) == Fold(LongSum(s, 32)) && LongSum(s, 32) < 0x1_0000_0000
  {
    hide LongSum;
    LongSteps(s, 32);
  }

  /** A change of one byte shows, except for a change by 254 or 255, which only the highest byte of a word
      is safe from. */
  lemma ChangeShows(s: Sector, t: Sector, k: nat)
    requires OneByte(s, t, k) && t[k] != s[k]
    requires -254 < t[k] - s[k] < 254 || k % 4 == 3
    ensures Checksum(t) != Checksum(s)
  {
    hide Fold, LongSum, Weight;
    SumMoves(s, t, k, 32);
    SumMoves(t, s, k, 32);
    ChecksumIs(s);
    ChecksumIs(t);
    if t[k] > s[k] { FoldMoves(LongSum(s, 32), t[k] - s[k], k); } else { FoldMoves(LongSum(t, 32), s[k] - t[k], k); }
  }

  /** And then the scan that loads the sector notices it. */
  lemma ChangeNoticed(p: Dpb, v: Vol, s: nat, was: Sector, k: nat)
    requires Fits(p, v) && s < p.DirSectors() && s < p.cks && v.csv[s] == Checksum(was)
    requires OneByte(was, v.disk[s], k) && v.disk[s][k] != was[k]
    requires -254 < v.disk[s][k] - was[k] < 254 || k % 4 == 3
    ensures var r := LoadChecked(p, v, s);
      && r.disk == v.disk && r.dirbuf == v.disk[s]
      && (v.crit ==> r.ro)
      && (!v.crit ==> r.logged && r.csv[s] == Checksum(v.disk[s]))
      && (!v.crit ==>
            forall b: nat :: b <= p.dsm ==> (r.alv[b] <==> b < p.DirBlocks() || NamedFrom(p, Dir(p, v), 0, b)))
  {
    ChangeShows(was, v.disk[s], k);
    var u := v.(dirbuf := v.disk[s], hiwater := p.drm, logged := false);
    LoginEffect(p, u);
    hide Checksum, Login, NamedFrom;
    assert Dir(p, u) == Dir(p, v);
  }
}

/** The allocation bit vector (dskutil.c:265-346, fileio.c:951-980), bit by bit: element `b` is bit
    `0x80 >> (b & 7)` of byte `b >> 3`, set when block `b` is in use. */
module Allocation {
  import opened DiskParams
  import opened Directory

  type Vector = seq<bool>

  /** Bits in the bytes the vector occupies. */
  function VectorBits(p: Dpb): nat { 8 * (p.dsm / 8 + 1) }

  ghost predicate Sized(p: Dpb, a: Vector) { |a| == VectorBits(p) }

  // ---------------------------------------------------------------- setaloc, clraloc

  function SetAloc(p: Dpb, a: Vector, b: nat): (r: Vector)
    requires |a| == VectorBits(p)
    ensures |r| == |a|
  {
    if b <= p.dsm then a[b := true] else a
  }

  /** Block 0 can never be freed. */
  function ClrAloc(p: Dpb, a: Vector, b: nat): (r: Vector)
    requires |a| == VectorBits(p)
    ensures |r| == |a|
  {
    if 0 < b <= p.dsm then a[b := false] else a
  }

  // ---------------------------------------------------------------- getaloc

  /** The alternating outward search of `getaloc` from `l` down and `r` up. */
  function Outward(p: Dpb, a: Vector, l: nat, r: nat): (b: Option<nat>)
    requires |a| == VectorBits(p) && l <= p.dsm
    ensures b.Some? ==> b.value <= p.dsm && !a[b.value]
    decreases l + if r < p.dsm then p.dsm - r else 0
  {
    if l == 0 && p.dsm <= r then None
    else if 0 < l && !a[l - 1] then Some(l - 1)
    else if r < p.dsm && !a[r + 1] then Some(r + 1)
    else Outward(p, a, if 0 < l then l - 1 else 0, if r < p.dsm then r + 1 else r)
  }

  function Distance(x: int, y: int): nat { if x < y then y - x else x - y }

  /** `b` is the free block closest to `from`, the lower one of a tie. */
  ghost predicate NearestFree(p: Dpb, a: Vector, from: nat, b: nat)
    requires Sized(p, a)
  {
    && b <= p.dsm && !a[b]
    && forall c: nat :: c <= p.dsm && !a[c] ==>
         Distance(from, b) < Distance(from, c) || (Distance(from, b) == Distance(from, c) && b <= c)
  }

  /** What the search promises, for every state of its two pointers. */
  lemma {:induction false} OutwardNearest(p: Dpb, a: Vector, from: nat, l: nat, r: nat)
    requires Sized(p, a) && l <= from <= r && from <= p.dsm
    requires l == 0 || r == p.dsm || from - l == r - from
    requires l > 0 ==> r - from <= from - l
    requires r < p.dsm ==> from - l <= r - from
    requires r <= p.dsm
    requires forall c: nat :: l <= c <= r ==> a[c]
    ensures match Outward(p, a, l, r)
            case Some(b) => NearestFree(p, a, from, b)
            case None => forall c: nat :: c <= p.dsm ==> a[c]
    decreases l + p.dsm - r
  {
    if l == 0 && p.dsm <= r {
    } else if 0 < l && !a[l - 1] {
    } else if r < p.dsm && !a[r + 1] {
    } else {
      var l', r' := if 0 < l then l - 1 else 0, if r < p.dsm then r + 1 else r;
      forall c: nat | l' <= c <= r' ensures a[c] {
        if c == l - 1 {} else if c == r + 1 {} else { assert l <= c <= r; }
      }
      OutwardNearest(p, a, from, l', r');
    }
  }

  // ---------------------------------------------------------------- free space

  /** Blocks `chkaloc` reports free below `n`. */
  function FreeBelow(a: Vector, n: nat): nat
    requires n <= |a|
  {
    if n == 0 then 0 else FreeBelow(a, n - 1) + if a[n - 1] then 0 else 1
  }

  /** The block whose bit iteration `i` of `free_sp` really tests: the vector is read as
      little-endian 16-bit words, so the two bytes of a word are visited in the other order. */
  function SwappedBit(i: nat): nat
  {
    16 * (i / 16) + (if i % 16 < 8 then 8 + i % 16 else i % 16 - 8)
  }

  function SwappedFreeBelow(a: Vector, n: nat): nat
    requires n <= 16 * (|a| / 16)
  {
    if n == 0 then 0
    else SwappedFreeBelow(a, n - 1) + if a[SwappedBit(n - 1)] then 0 else 1
  }

  /** A whole number of words counts the same bits. */
  lemma {:induction false} WholeWordsAgree(a: Vector, w: nat)
    requires 16 * w <= |a|
    ensures SwappedFreeBelow(a, 16 * w) == FreeBelow(a, 16 * w)
  {
    if w > 0 {
      WholeWordsAgree(a, w - 1);
      StraightWord(a, w - 1, 16);
      SwappedWord(a, w - 1, 16);
    }
  }

  /** Free blocks among the first `k` of the eight that start at `base`. */
  function FreeInByte(a: Vector, base: nat, k: nat): nat
    requires base + k <= |a|
  {
    if k == 0 then 0 else FreeInByte(a, base, k - 1) + if a[base + k - 1] then 0 else 1
  }

  lemma {:induction false} StraightWord(a: Vector, w: nat, k: nat)
    requires k <= 16 && 16 * w + 16 <= |a|
    ensures FreeBelow(a, 16 * w + k) == FreeBelow(a, 16 * w)
         + if k <= 8 then FreeInByte(a, 16 * w, k)
           else FreeInByte(a, 16 * w, 8) + FreeInByte(a, 16 * w + 8, k - 8)
  {
    if k > 0 { StraightWord(a, w, k - 1); }
  }

  lemma {:induction false} SwappedWord(a: Vector, w: nat, k: nat)
    requires k <= 16 && 16 * w + 16 <= |a|
    ensures SwappedFreeBelow(a, 16 * w + k) == SwappedFreeBelow(a, 16 * w)
         + if k <= 8 then FreeInByte(a, 16 * w + 8, k)
           else FreeInByte(a, 16 * w + 8, 8) + FreeInByte(a, 16 * w, k - 8)
  {
    if k > 0 {
      SwappedWord(a, w, k - 1);
      assert (16 * w + (k - 1)) / 16 == w;
    }
  }

}

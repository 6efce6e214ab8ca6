/** `free_sp` (fileio.c:951-980) counts the free bits of the allocation vector through 16-bit words. */
module FreeSpace {
  import opened DiskParams
  import opened Allocation

  /** Bits of the whole words that cover blocks `0..dsm`. */
  function WordBits(p: Dpb): nat { 16 * ((p.dsm + 16) / 16) }

  /** Free space in records; the words may reach past the vector's own bytes, so `a` is the memory
      from its start on. */
  function FreeRecords(p: Dpb, a: Vector): nat
    requires |a| == WordBits(p)
  {
    (p.blm + 1) * SwappedFreeBelow(a, p.dsm + 1)
  }

  ghost predicate CountsRight(p: Dpb, a: Vector)
    requires |a| == WordBits(p)
  {
    FreeRecords(p, a) == (p.blm + 1) * FreeBelow(a, p.dsm + 1)
  }

  /** The count is right for every vector exactly when the blocks fill whole words. */
  lemma CountsRightExactly(p: Dpb)
    ensures (forall a: Vector | |a| == WordBits(p) :: CountsRight(p, a)) <==> (p.dsm + 1) % 16 == 0
  {
    var w, r := (p.dsm + 1) / 16, (p.dsm + 1) % 16;
    if r == 0 {
      forall a: Vector | |a| == WordBits(p) ensures CountsRight(p, a) {
        WholeWordsAgree(a, w);
        assert p.dsm + 1 == 16 * w;
      }
    } else {
      var a := Misread(p);
      MisreadDiffers(p, w, r);
      assert !CountsRight(p, a) by { Scaled(p.blm + 1, SwappedFreeBelow(a, p.dsm + 1), FreeBelow(a, p.dsm + 1)); }
    }
  }

  lemma Scaled(k: nat, x: nat, y: nat)
    requires 0 < k && x != y
    ensures k * x != k * y
  {
    if x < y { Larger(k, x, y); } else { Larger(k, y, x); }
  }

  lemma Larger(k: nat, x: nat, y: nat)
    requires 0 < k && x < y
    ensures k * x < k * y
  {
    assert k * y == k * x + k * (y - x);
  }

  /** All blocks used, but one bit outside `0..dsm` clear where the word order brings it in. */
  function Misread(p: Dpb): (a: Vector)
    ensures |a| == WordBits(p)
  {
    var w, r := (p.dsm + 1) / 16, (p.dsm + 1) % 16;
    seq(WordBits(p), i => i != 16 * w + if r <= 8 then 8 else 15)
  }

  lemma {:induction false} AllUsed(a: Vector, base: nat, k: nat)
    requires base + k <= |a| && forall i: nat :: base <= i < base + k ==> a[i]
    ensures FreeInByte(a, base, k) == 0
  {
    if k > 0 { AllUsed(a, base, k - 1); }
  }

  lemma {:induction false} OneFree(a: Vector, base: nat, k: nat, i: nat)
    requires base + k <= |a| && i < k && !a[base + i]
    ensures FreeInByte(a, base, k) >= 1
  {
    if i < k - 1 { OneFree(a, base, k - 1, i); }
  }

  lemma MisreadDiffers(p: Dpb, w: nat, r: nat)
    requires w == (p.dsm + 1) / 16 && r == (p.dsm + 1) % 16 && r != 0
    ensures SwappedFreeBelow(Misread(p), p.dsm + 1) != FreeBelow(Misread(p), p.dsm + 1)
  {
    var a := Misread(p);
    assert p.dsm + 1 == 16 * w + r && |a| == 16 * w + 16;
    assert forall i: nat :: i < |a| ==> (a[i] <==> i != 16 * w + if r <= 8 then 8 else 15);
    WholeWordsAgree(a, w);
    StraightWord(a, w, r);
    SwappedWord(a, w, r);
    hide Misread;
    LastWord(a, w, r);
  }

  lemma LastWord(a: Vector, w: nat, r: nat)
    requires 0 < r < 16 && |a| == 16 * w + 16
    requires forall i: nat :: i < |a| ==> (a[i] <==> i != 16 * w + if r <= 8 then 8 else 15)
    ensures (if r <= 8 then FreeInByte(a, 16 * w + 8, r)
      else FreeInByte(a, 16 * w + 8, 8) + FreeInByte(a, 16 * w, r - 8))
         != (if r <= 8 then FreeInByte(a, 16 * w, r) else FreeInByte(a, 16 * w, 8) + FreeInByte(a, 16 * w + 8, r - 8))
  {
    if r <= 8 {
      AllUsed(a, 16 * w, r);
      OneFree(a, 16 * w + 8, r, 0);
    } else {
      AllUsed(a, 16 * w, 8);
      AllUsed(a, 16 * w, r - 8);
      AllUsed(a, 16 * w + 8, r - 8);
      OneFree(a, 16 * w + 8, 8, 7);
    }
  }

  /** The three drives of the system fill whole words. */
  lemma StandardDrivesCount(a: Vector)
    ensures |a| == WordBits(FLOPPY) ==> CountsRight(FLOPPY, a)
    ensures |a| == WordBits(HARD_DISK) ==> CountsRight(HARD_DISK, a)
    ensures |a| == WordBits(RAM_DISK) ==> CountsRight(RAM_DISK, a)
  {
    CountsRightExactly(FLOPPY);
    CountsRightExactly(HARD_DISK);
    CountsRightExactly(RAM_DISK);
    hide CountsRight;
  }
}

/** Record addresses: the random-record field, the sequential position, the map index. What `new_ext`
    decodes, what `setran` stores, and exactly when they and `blkindx` are right. */
module Addressing {
  import opened DiskParams
  import opened DiskMap
  import opened Directory
  import opened Volume
  import opened RecordIo

  // ---------------------------------------------------------------- random record numbers

  /** Records a file can have: 64 modules of 4096. */
  const MAX_RECORDS := 0x4_0000

  predicate Refused(f: FcbValue) { 64 <= RandomModule(f) < 128 }

  /** Record that random I/O goes to when it is not refused: the module field holds six bits. */
  function Decoded(f: FcbValue): nat
  {
    (RandomModule(f) % 64) * 4096 + RandomExtent(f) * 128 + f.ran2 % 128
  }

  /** Random I/O should reach exactly the record asked for, and refuse those no file can have. */
  predicate DecodesRight(f: FcbValue)
  {
    if UnpackRan(f) < MAX_RECORDS then !Refused(f) && Decoded(f) == UnpackRan(f) else Refused(f)
  }

  /** `ran1 >> 4` keeps the sign of a signed byte and `ran0 << 4` is cut to a byte, so it does so
      exactly under this condition on the two bytes; below 0x8000 it always holds. */
  lemma DecodeExact(f: FcbValue)
    ensures DecodesRight(f) <==>
      if f.ran1 < 0x80 then f.ran0 < 4 || 4 <= f.ran0 % 16 < 8 else f.ran0 == 3
    ensures UnpackRan(f) < 0x8000 ==> DecodesRight(f)
  {
    var n := UnpackRan(f);
    assert f.ran1 == 16 * (f.ran1 / 16) + f.ran1 % 16;
    assert f.ran2 == 128 * (f.ran2 / 128) + f.ran2 % 128;
    if f.ran1 >= 0x80 { assert RandomModule(f) % 64 == 48 + f.ran1 / 16; }
  }

  /** Record 0x8000 is taken for record 0x38000. */
  lemma HighRecordAliases()
    ensures forall f: FcbValue :: UnpackRan(f) == 0x8000 ==> !Refused(f) && Decoded(f) == 0x3_8000
  {
  }

  /** Two record numbers that decode right never meet. */
  lemma DecodeInjective(f: FcbValue, g: FcbValue)
    requires DecodesRight(f) && DecodesRight(g) && !Refused(f) && !Refused(g) && Decoded(f) == Decoded(g)
    ensures f.ran0 == g.ran0 && f.ran1 == g.ran1 && f.ran2 == g.ran2
  {
    hide RandomModule, RandomExtent;
    BytesOf(f);
    BytesOf(g);
  }

  lemma BytesOf(f: FcbValue)
    ensures f.ran2 == UnpackRan(f) % 0x100 && f.ran1 == (UnpackRan(f) / 0x100) % 0x100
    ensures f.ran0 == UnpackRan(f) / 0x1_0000
  {
  }

  // ---------------------------------------------------------------- setran

  /** `setran` (fileio.c:691-701). */
  function SetRan(f: FcbValue): FcbValue { PackRan(f, f.cur + ExtSize(f.ent)) }

  lemma PackedBytes(f: FcbValue, n: nat)
    requires n < 0x100_0000
    ensures UnpackRan(PackRan(f, n)) == n
  {
    var g := PackRan(f, n);
    assert n == 0x100 * (n / 0x100) + n % 0x100;
    assert n / 0x100 == 0x100 * (n / 0x1_0000) + (n / 0x100) % 0x100;
  }

  lemma Parts(a: nat, b: nat, c: nat, a': nat, b': nat, c': nat)
    requires a * 4096 + b * 128 + c == a' * 4096 + b' * 128 + c' && b < 32 && b' < 32 && c < 128 && c' < 128
    ensures a == a' && b == b' && c == c'
  {
  }

  /** `setran` names the position sequential I/O is at, and random I/O at that number goes back there:
      to the record itself inside an extent, and at its end to where sequential I/O would move next. */
  lemma SetRanReturns(f: FcbValue)
    requires f.ent.extent < 32 && f.cur <= 128
    requires DecodesRight(SetRan(f)) && f.cur + ExtSize(f.ent) < MAX_RECORDS
    ensures var g := SetRan(f);
      && UnpackRan(g) == (f.ent.s2 % 64) * 4096 + f.ent.extent * 128 + f.cur
      && (g.ent, g.cur) == (f.ent, f.cur) && !Refused(g)
      && if f.cur < 128
         then (RandomModule(g) % 64, RandomExtent(g), g.ran2 % 128) == (f.ent.s2 % 64, f.ent.extent, f.cur)
         else (RandomModule(g) % 64, RandomExtent(g), g.ran2 % 128) == (Target(f, false).0, Target(f, false).1, 0)
  {
    var g := SetRan(f);
    SetRanNumber(f);
    NextTarget(f);
    var t := if f.cur < 128 then (f.ent.s2 % 64, f.ent.extent, f.cur) else (Target(f, false).0, Target(f, false).1, 0);
    hide SetRan, Target, UnpackRan, Decoded, Refused, RandomModule, RandomExtent;
    Parts(RandomModule(g) % 64, RandomExtent(g), g.ran2 % 128, t.0, t.1, t.2);
  }

  lemma SetRanNumber(f: FcbValue)
    requires f.ent.extent < 32
    ensures var g := SetRan(f);
      && UnpackRan(g) == (f.ent.s2 % 64) * 4096 + f.ent.extent * 128 + f.cur == f.cur + ExtSize(f.ent)
      && g.ent == f.ent && g.cur == f.cur
  {
    PackedBytes(f, f.cur + ExtSize(f.ent));
    hide UnpackRan;
  }

  /** Where sequential I/O goes from the end of an extent: 128 records on. */
  lemma NextTarget(f: FcbValue)
    requires f.ent.extent < 32
    ensures var t := Target(f, false);
      t.1 < 32 && t.0 * 4096 + t.1 * 128 == (f.ent.s2 % 64) * 4096 + f.ent.extent * 128 + 128
  {
  }

  // ---------------------------------------------------------------- the map index

  /** `blkindx` can leave the map exactly when an entry's extents hold more records than its map. */
  lemma BlkIndxFits(p: Dpb)
    requires 3 <= p.bsh <= 7 && p.blm + 1 == Exp2(p.bsh) && p.exm < 256
    ensures (forall extent: byte, rec: byte :: rec < 128 ==> BlkIndx(p, extent, rec) < p.Slots())
      <==> (p.exm + 1) * 128 <= p.Slots() * (p.blm + 1)
  {
    var s := Exp2(7 - p.bsh);
    forall extent: byte, rec: byte | rec < 128
      ensures BlkIndx(p, extent, rec) < (p.exm + 1) * Exp2(7 - p.bsh)
    {
      var e: nat := extent % (p.exm + 1);
      RecInExtent(p.bsh, rec);
    }
    RecInExtent(p.bsh, 127);
    SmallRemainder(p.exm);
    {
      var s := Exp2(7 - p.bsh);
      PowerPairs(p.bsh);
      ScaleBy((p.exm + 1) * s, p.Slots(), p.blm + 1);
      Associate(p.exm + 1, s, p.blm + 1);
    }
    hide BlkIndx, Exp2;
    var last: byte := p.exm;
    if (p.exm + 1) * s > p.Slots() { assert BlkIndx(p, last, 127) >= p.Slots(); }
  }

  lemma SmallRemainder(x: nat)
    ensures x % (x + 1) == x
  {
  }

  lemma Associate(a: nat, b: nat, c: nat)
    ensures a * b * c == a * (b * c)
  {
  }

  lemma ScaleBy(a: nat, b: nat, c: nat)
    requires 0 < c
    ensures a <= b <==> a * c <= b * c
  {
    if a > b { assert a * c >= (b + 1) * c; }
  }

  lemma PowerPairs(b: nat)
    requires 3 <= b <= 7
    ensures Exp2(7 - b) * Exp2(b) == 128
  {
    Exp2Values();
  }

  lemma RecInExtent(b: nat, rec: nat)
    requires 3 <= b <= 7 && rec < 128
    ensures rec / Exp2(b) <= Exp2(7 - b) - 1
    ensures rec == 127 ==> rec / Exp2(b) == Exp2(7 - b) - 1
  {
    Exp2Values();
    if b == 3 {} else if b == 4 {} else if b == 5 {} else if b == 6 {} else {}
  }

  /** The RAM disk's block indexes its sixteen-byte maps up to 63. */
  lemma RamDiskOverruns()
    ensures BlkIndx(RAM_DISK, 7, 127) == 63 && RAM_DISK.Slots() == 16
  {
    Exp2Values();
  }
}

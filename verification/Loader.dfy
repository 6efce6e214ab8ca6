/** Program loading: the header both loaders accept (bdosmisc.c:408-627) and the tool that writes it
    (mk386.c). Unsigned longs are 32 bits. */
module Loader {
  import opened DiskParams

  const HDR_SIZE := 32
  const MAGIC := 0x3638334D
  const VERSION := 1
  const TWO32 := 0x1_0000_0000

  datatype Code = OK | NOMEM | TRUNC | BADENTRY | BADSIZE | BADHDR

  /** `CPM386_HDR`. */
  datatype Hdr = Hdr(magic: nat, version: nat, hdrSize: nat, flags: nat, loadOff: nat, imgSize: nat,
                     entryOff: nat, minKb: nat)

  function Le(b0: int, b1: int, b2: int, b3: int): int { b0 + 0x100 * b1 + 0x1_0000 * b2 + 0x100_0000 * b3 }

  /** `le32`. */
  function Le32(s: seq<byte>, i: nat): nat
    requires i + 4 <= |s|
  {
    Le(s[i], s[i + 1], s[i + 2], s[i + 3])
  }

  function Flags(s: seq<byte>): nat
    requires 8 <= |s|
  {
    Le(s[6], s[7], 0, 0)
  }

  /** The fields of the first 32 bytes of a file. */
  function Fields(s: seq<byte>): Hdr
    requires HDR_SIZE <= |s|
  {
    Hdr(Le32(s, 0), s[4], s[5], Flags(s), Le32(s, 8), Le32(s, 12), Le32(s, 16), Le32(s, 20))
  }

  /** What makes a header good for a TPA of `tpaLen` bytes. */
  predicate Good(h: Hdr, tpaLen: nat)
  {
    && h.magic == MAGIC && h.version == VERSION && h.hdrSize == HDR_SIZE && h.flags == 0
    && 0 < h.imgSize && h.loadOff + h.imgSize <= tpaLen
    && h.loadOff <= h.entryOff < h.loadOff + h.imgSize
    && (h.minKb == 0 || h.minKb <= tpaLen / 1024)
  }

  /** `cpm386_parse_hdr` (bdosmisc.c:446-498): the first objection, or OK. */
  method ParseHdr(h: array<byte>, tpaLen: nat) returns (rc: Code, out: Hdr)
    requires HDR_SIZE <= h.Length && tpaLen < TWO32
    ensures out == Fields(h[..]) && rc == Verdict(out, tpaLen)
  {
    hide Le, Le32, Flags;
    out := Hdr(Le32(h[..], 0), h[4], h[5], Flags(h[..]),
      Le32(h[..], 8), Le32(h[..], 12), Le32(h[..], 16), Le32(h[..], 20));
    if out.magic != MAGIC { return BADHDR, out; }
    if out.version != VERSION { return BADHDR, out; }
    if out.hdrSize != HDR_SIZE { return BADHDR, out; }
    if out.flags != 0 { return BADHDR, out; }
    if out.imgSize == 0 || out.loadOff > tpaLen || out.imgSize > tpaLen - out.loadOff { return BADSIZE, out; }
    if out.entryOff < out.loadOff || out.entryOff >= (out.loadOff + out.imgSize) % TWO32 { return BADENTRY, out; }
    if out.minKb != 0 && out.minKb > tpaLen / 1024 { return NOMEM, out; }
    return OK, out;
  }

  /** Which objection a header meets. */
  function Verdict(h: Hdr, tpaLen: nat): (rc: Code)
    ensures rc == OK <==> Good(h, tpaLen)
  {
    if h.magic != MAGIC || h.version != VERSION || h.hdrSize != HDR_SIZE || h.flags != 0 then BADHDR
    else if h.imgSize == 0 || h.loadOff + h.imgSize > tpaLen then BADSIZE
    else if !(h.loadOff <= h.entryOff < h.loadOff + h.imgSize) then BADENTRY
    else if h.minKb != 0 && h.minKb > tpaLen / 1024 then NOMEM
    else OK
  }

  // ---------------------------------------------------------------- what loading means

  /** Byte `k` of a file's image: zero where the file has ended. */
  function ImageByte(file: seq<byte>, k: nat): byte { if HDR_SIZE + k < |file| then file[HDR_SIZE + k] else 0 }

  /** Memory `after` is `before` with the image placed at its load offset and nothing else changed. */
  ghost predicate Placed(h: Hdr, file: seq<byte>, before: seq<byte>, after: seq<byte>)
  {
    && |after| == |before|
    && forall a :: 0 <= a < |before| ==>
         after[a] == if h.loadOff <= a < h.loadOff + h.imgSize then ImageByte(file, a - h.loadOff) else before[a]
  }

  /** The file holds the whole image. */
  predicate Whole(file: seq<byte>) { HDR_SIZE <= |file| && HDR_SIZE + Fields(file).imgSize <= |file| }

  /** Result of loading from a buffer. */
  function BufCode(file: seq<byte>, tpaLen: nat): Code
  {
    if |file| < HDR_SIZE then BADHDR
    else if !Good(Fields(file), tpaLen) then Verdict(Fields(file), tpaLen)
    else if !Whole(file) then TRUNC
    else OK
  }

  /** `cpm386_load_from_buf` (bdosmisc.c:502-536); `entry` is an offset into the TPA. */
  method LoadFromBuf(filebuf: array<byte>, tpa: array<byte>) returns (rc: Code, entry: nat)
    requires filebuf != tpa && tpa.Length < TWO32
    modifies tpa
    ensures rc == BufCode(filebuf[..], tpa.Length)
    ensures if rc == OK
      then HDR_SIZE <= filebuf.Length && entry == Fields(filebuf[..]).entryOff
        && Placed(Fields(filebuf[..]), filebuf[..], old(tpa[..]), tpa[..])
      else tpa[..] == old(tpa[..])
  {
    hide Fields, Verdict;
    entry := 0;
    if filebuf.Length < HDR_SIZE { return BADHDR, 0; }
    var h;
    rc, h := ParseHdr(filebuf, tpa.Length);
    if rc != OK { return; }
    if filebuf.Length - HDR_SIZE < h.imgSize { return TRUNC, 0; }
    var i := 0;
    while i < h.imgSize
      invariant i <= h.imgSize
      invariant forall a :: 0 <= a < tpa.Length ==>
        tpa[a] == if h.loadOff <= a < h.loadOff + i then filebuf[HDR_SIZE + (a - h.loadOff)] else old(tpa[a])
    {
      tpa[h.loadOff + i] := filebuf[HDR_SIZE + i];
      i := i + 1;
    }
    entry := h.entryOff;
  }

  // ---------------------------------------------------------------- records

  /** A file read record by record: status 0 with 128 bytes, padded past the end of the file, or
      status 1 when there are no more. */
  class RecordFile {
    const file: seq<byte>
    const pad: byte
    var pos: nat

    method Read(rec: array<byte>) returns (r: nat)
      requires rec.Length == 128
      modifies this, rec
      ensures r == if old(pos) < |file| then 0 else 1
      ensures pos == old(pos) + 128
      ensures r == 0 ==>
        forall i :: 0 <= i < 128 ==> rec[i] == if old(pos) + i < |file| then file[old(pos) + i] else pad
    {
      if pos >= |file| {
        r := 1;
      } else {
        var i := 0;
        while i < 128
          invariant i <= 128 && pos == old(pos)
          invariant forall j :: 0 <= j < i ==> rec[j] == if pos + j < |file| then file[pos + j] else pad
        {
          rec[i] := if pos + i < |file| then file[pos + i] else pad;
          i := i + 1;
        }
        r := 0;
      }
      pos := pos + 128;
    }
  }

  /** `cpm386_load_from_reader` (bdosmisc.c:540-627). */
  method LoadFromReader(reader: RecordFile, tpa: array<byte>) returns (rc: Code, entry: nat)
    requires reader.pos == 0 && tpa.Length < TWO32 && HDR_SIZE <= |reader.file|
    modifies reader, tpa
    ensures var h := Fields(reader.file); rc == Verdict(h, tpa.Length)
    ensures rc == OK ==> entry == Fields(reader.file).entryOff
    ensures rc == OK && (Whole(reader.file) || reader.pad == 0) ==>
      Placed(Fields(reader.file), reader.file, old(tpa[..]), tpa[..])
    ensures rc != OK ==> tpa[..] == old(tpa[..])
    ensures rc == OK ==>
      var h := Fields(reader.file);
      forall a :: 0 <= a < tpa.Length && (a < h.loadOff || h.loadOff + h.imgSize <= a) ==> tpa[a] == old(tpa[a])
  {
    hide Fields, Verdict, Partly;
    ghost var file, before := reader.file, tpa[..];
    entry := 0;
    var rec := new byte[128](_ => 0);
    var r := reader.Read(rec);
    var h;
    rc, h := ParseHdr(rec, tpa.Length);
    FirstRecord(file, rec[..]);
    if rc != OK { return; }
    NothingPlaced(h, file, reader.pad, before);
    var sz := h.imgSize;
    var n := 128 - HDR_SIZE;
    if n > sz { n := sz; }
    PlaceRecord(tpa, h.loadOff, rec, HDR_SIZE, n, false);
    MorePlaced(h, file, reader.pad, before, before, tpa[..], 0, n);
    var placed := n;
    while placed < sz
      invariant n <= placed <= sz && (placed < sz ==> reader.pos == HDR_SIZE + placed)
      invariant Partly(h, file, reader.pad, before, tpa[..], placed) && tpa.Length == |before|
    {
      ghost var now := tpa[..];
      r := reader.Read(rec);
      n := sz - placed;
      if n > 128 { n := 128; }
      PlaceRecord(tpa, h.loadOff + placed, rec, 0, n, r == 1);
      MorePlaced(h, file, reader.pad, before, now, tpa[..], placed, n);
      placed := placed + n;
    }
    AllPlaced(h, file, reader.pad, before, tpa[..]);
    entry := h.entryOff;
  }

  /** Copy `n` bytes of a record, or zeros, to offset `off` of the TPA. */
  method PlaceRecord(tpa: array<byte>, off: nat, rec: array<byte>, skip: nat, n: nat, hole: bool)
    requires tpa != rec && off + n <= tpa.Length && skip + n <= rec.Length
    modifies tpa
    ensures forall a :: 0 <= a < tpa.Length ==>
      tpa[a] == if off <= a < off + n then (if hole then 0 else rec[skip + (a - off)]) else old(tpa[a])
  {
    var i := 0;
    while i < n
      invariant i <= n
      invariant forall a :: 0 <= a < tpa.Length ==>
        tpa[a] == if off <= a < off + i then (if hole then 0 else rec[skip + (a - off)]) else old(tpa[a])
    {
      tpa[off + i] := if hole then 0 else rec[skip + i];
      i := i + 1;
    }
  }

  lemma NothingPlaced(h: Hdr, file: seq<byte>, pad: byte, before: seq<byte>)
    ensures Partly(h, file, pad, before, before, 0)
  {
  }

  /** Byte `k` of the image as a record delivers it. */
  ghost predicate Delivered(file: seq<byte>, pad: byte, k: nat, x: byte)
  {
    x == ImageByte(file, k) || (x == pad && |file| <= HDR_SIZE + k)
  }

  lemma MorePlaced(h: Hdr, file: seq<byte>, pad: byte, before: seq<byte>, now: seq<byte>, next: seq<byte>, placed: nat,
                   n: nat)
    requires Partly(h, file, pad, before, now, placed) && |next| == |now|
    requires forall a :: 0 <= a < |now| ==>
      if h.loadOff + placed <= a < h.loadOff + placed + n then Delivered(file, pad, a - h.loadOff, next[a])
        else next[a] == now[a]
    ensures Partly(h, file, pad, before, next, placed + n)
  {
  }

  lemma AllPlaced(h: Hdr, file: seq<byte>, pad: byte, before: seq<byte>, now: seq<byte>)
    requires Partly(h, file, pad, before, now, h.imgSize)
    ensures |now| == |before|
    ensures HDR_SIZE + h.imgSize <= |file| || pad == 0 ==> Placed(h, file, before, now)
    ensures forall a :: 0 <= a < |before| && (a < h.loadOff || h.loadOff + h.imgSize <= a) ==> now[a] == before[a]
  {
  }

  /** The first record holds the header. */
  lemma FirstRecord(file: seq<byte>, rec: seq<byte>)
    requires HDR_SIZE <= |file| && HDR_SIZE <= |rec| && forall i :: 0 <= i < HDR_SIZE ==> rec[i] == file[i]
    ensures Fields(rec) == Fields(file)
  {
  }

  /** The first `n` bytes of the image have been placed. */
  ghost predicate Partly(h: Hdr, file: seq<byte>, pad: byte, before: seq<byte>, now: seq<byte>, n: nat)
  {
    && |now| == |before|
    && forall a :: 0 <= a < |before| ==>
         if h.loadOff <= a < h.loadOff + n then Delivered(file, pad, a - h.loadOff, now[a]) else now[a] == before[a]
  }

  /** The two loaders return the same code exactly when the header is bad anyway or the file holds its
      whole image; a truncated image is refused by the first and filled up by the second. */
  lemma CodesAgree(file: seq<byte>, tpaLen: nat)
    requires HDR_SIZE <= |file|
    ensures BufCode(file, tpaLen) == Verdict(Fields(file), tpaLen) <==> !Good(Fields(file), tpaLen) || Whole(file)
  {
    hide Fields;
  }

  /** And then they leave the same memory behind. */
  lemma MemoriesAgree(h: Hdr, file: seq<byte>, before: seq<byte>, a: seq<byte>, b: seq<byte>)
    requires Placed(h, file, before, a) && Placed(h, file, before, b)
    ensures a == b
  {
  }

  // ---------------------------------------------------------------- mk386

  /** A number as four bytes, least significant first. */
  function Bytes32(v: nat): seq<byte>
    requires v < TWO32
  {
    [v % 0x100, v / 0x100 % 0x100, v / 0x1_0000 % 0x100, v / 0x100_0000]
  }

  /** `put32` (mk386.c:54-61). */
  method Put32(p: array<byte>, i: nat, v: nat)
    requires i + 4 <= p.Length && v < TWO32
    modifies p
    ensures p[i..i + 4] == Bytes32(v)
    ensures forall a, b {:trigger p[a..b]} :: 0 <= a <= b <= p.Length && (b <= i || i + 4 <= a) ==>
      p[a..b] == old(p[a..b])
  {
    p[i] := v % 0x100;
    p[i + 1] := v / 0x100 % 0x100;
    p[i + 2] := v / 0x1_0000 % 0x100;
    p[i + 3] := v / 0x100_0000 % 0x100;
  }

  /** Written and read again. */
  lemma Le32Back(s: seq<byte>, i: nat, v: nat)
    requires i + 4 <= |s| && v < TWO32 && s[i..i + 4] == Bytes32(v)
    ensures Le32(s, i) == v
  {
    LeBytes(v);
    hide Le;
    var b := s[i..i + 4];
    assert s[i] == b[0] && s[i + 1] == b[1] && s[i + 2] == b[2] && s[i + 3] == b[3];
  }

  lemma LeBytes(v: nat)
    requires v < TWO32
    ensures Le(v % 0x100, v / 0x100 % 0x100, v / 0x1_0000 % 0x100, v / 0x100_0000 % 0x100) == v
  {
    assert v == 0x100_0000 * (v / 0x100_0000) + v % 0x100_0000;
    assert v % 0x100_0000 == 0x1_0000 * (v / 0x1_0000 % 0x100) + v % 0x1_0000;
    assert v % 0x1_0000 == 0x100 * (v / 0x100 % 0x100) + v % 0x100;
  }

  /** The header `main` builds (mk386.c:152-165) for an image of `sz` bytes. */
  method MakeHeader(load: nat, minKb: nat, sz: nat) returns (hdr: array<byte>)
    requires load < TWO32 && minKb < TWO32 && sz < TWO32
    ensures fresh(hdr) && hdr.Length == HDR_SIZE
    ensures hdr[..8] == [0x4D, 0x33, 0x38, 0x36, 1, 32, 0, 0]
    ensures hdr[8..12] == Bytes32(load) && hdr[12..16] == Bytes32(sz)
    ensures hdr[16..20] == Bytes32(load) && hdr[20..24] == Bytes32(minKb)
    ensures hdr[24..] == seq(8, _ => 0)
    ensures Fields(hdr[..]) == Hdr(MAGIC, VERSION, HDR_SIZE, 0, load, sz, load, minKb)
  {
    hide Le, Le32, Bytes32, Fields;
    hdr := new byte[HDR_SIZE];
    var i := 0;
    while i < HDR_SIZE
      invariant i <= HDR_SIZE && forall j :: 0 <= j < i ==> hdr[j] == 0
    {
      hdr[i] := 0;
      i := i + 1;
    }
    assert hdr[24..] == seq(8, _ => 0);
    hdr[4] := VERSION;
    hdr[5] := HDR_SIZE;
    assert hdr[4..8] == [1, 32, 0, 0] && hdr[24..] == seq(8, _ => 0);
    Put32(hdr, 0, MAGIC);
    Put32(hdr, 8, load);
    Put32(hdr, 12, sz);
    Put32(hdr, 16, load);
    Put32(hdr, 20, minKb);
    MagicBytes();
    assert hdr[..8] == hdr[0..4] + hdr[4..8] && hdr[24..32] == hdr[24..];
    HeaderFields(hdr[..], load, minKb, sz);
  }

  lemma HeaderFields(h: seq<byte>, load: nat, minKb: nat, sz: nat)
    requires |h| == HDR_SIZE && load < TWO32 && minKb < TWO32 && sz < TWO32
    requires h[0..4] == Bytes32(MAGIC) && h[4..8] == [1, 32, 0, 0]
    requires h[8..12] == h[16..20] == Bytes32(load) && h[12..16] == Bytes32(sz) && h[20..24] == Bytes32(minKb)
    ensures Fields(h) == Hdr(MAGIC, VERSION, HDR_SIZE, 0, load, sz, load, minKb)
  {
    var f := h[4..8];
    assert h[4] == f[0] && h[5] == f[1] && h[6] == f[2] && h[7] == f[3];
    Le32Back(h, 0, MAGIC);
    Le32Back(h, 8, load);
    Le32Back(h, 12, sz);
    Le32Back(h, 16, load);
    Le32Back(h, 20, minKb);
  }

  lemma MagicBytes()
    ensures Bytes32(MAGIC) == [0x4D, 0x33, 0x38, 0x36]
  {
  }

  /** A file written by mk386 is accepted exactly when its image is not empty, fits where it is to go,
      and asks for no more memory than there is. */
  lemma WrittenHeaderAccepted(load: nat, minKb: nat, sz: nat, tpaLen: nat)
    ensures Verdict(Hdr(MAGIC, VERSION, HDR_SIZE, 0, load, sz, load, minKb), tpaLen) == OK <==>
      0 < sz && load + sz <= tpaLen && (minKb == 0 || minKb <= tpaLen / 1024)
  {
  }

  /** What follows the header is the image, and all of it. */
  lemma WrittenFileIsWhole(hdr: seq<byte>, img: seq<byte>, load: nat, minKb: nat)
    requires |hdr| == HDR_SIZE && Fields(hdr) == Hdr(MAGIC, VERSION, HDR_SIZE, 0, load, |img|, load, minKb)
    ensures Fields(hdr + img) == Fields(hdr) && Whole(hdr + img)
    ensures forall k: nat :: k < |img| ==> ImageByte(hdr + img, k) == img[k]
  {
    FirstRecord(hdr, hdr + img);
    hide Fields;
  }
}

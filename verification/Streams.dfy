/** The source and destination files of the editor, read and written a buffer of sectors at a time
    (ed.c:1248-1390, 1494-1510). A file's text ends at its first end-of-file character. */
module Streams {
  import opened DiskParams

  const ENDFILE: byte := 0x1A
  const SECTSIZE := 128

  /** Sectors end to end. */
  function Concat(ss: seq<Sector>): (r: seq<byte>)
    ensures |r| == 128 * |ss|
  {
    if |ss| == 0 then [] else ss[0] + Concat(ss[1..])
  }

  /** Text up to the first end-of-file character. */
  function Text(s: seq<byte>): (r: seq<byte>)
    ensures |r| <= |s|
  {
    if |s| == 0 || s[0] == ENDFILE then [] else [s[0]] + Text(s[1..])
  }

  lemma {:induction false} TextStops(a: seq<byte>, b: seq<byte>)
    ensures Text(a + [ENDFILE] + b) == Text(a)
  {
    var s := a + [ENDFILE] + b;
    if |a| == 0 {
      assert s[0] == ENDFILE;
    } else if a[0] != ENDFILE {
      assert s[0] == a[0] && s[1..] == a[1..] + [ENDFILE] + b;
      TextStops(a[1..], b);
    } else {
      assert s[0] == ENDFILE;
    }
  }

  lemma {:induction false} ConcatSplit(ss: seq<Sector>, ts: seq<Sector>)
    ensures Concat(ss + ts) == Concat(ss) + Concat(ts)
  {
    if |ss| == 0 {
      assert ss + ts == ts;
    } else {
      assert (ss + ts)[0] == ss[0] && (ss + ts)[1..] == ss[1..] + ts;
      ConcatSplit(ss[1..], ts);
    }
  }

  lemma ConcatOne(s: Sector)
    ensures Concat([s]) == s
  {
    assert Concat([s]) == s + Concat([s][1..]);
  }

  lemma TextHead(s: seq<byte>)
    requires |s| > 0
    ensures Text(s) == if s[0] == ENDFILE then [] else [s[0]] + Text(s[1..])
  {
  }

  /** What a buffer holds after `k` bytes of a file's `rest` were read into it: all of it and the
      buffer is full, or the file ended and was marked. */
  lemma FilledText(buf: seq<byte>, k: nat, tail: seq<byte>, rest: seq<byte>)
    requires k <= |buf| && rest == buf[..k] + tail
    requires k < |buf| ==> buf[k] == ENDFILE && tail == []
    ensures Text(buf + tail) == Text(rest)
  {
    if k < |buf| {
      assert buf + tail == rest + [ENDFILE] + buf[k + 1..];
      TextStops(rest, buf[k + 1..]);
    } else {
      assert buf + tail == rest;
    }
  }

  // ---------------------------------------------------------------- source

  /** The source file and its buffer. */
  class Source {
    const file: seq<Sector>
    const newfile: bool
    const sbuf: array<byte>
    var next: nat
    var nsource: nat

    ghost predicate Valid()
      reads this
    {
      0 < sbuf.Length && sbuf.Length % SECTSIZE == 0 && next <= |file|
    }

    /** Bytes of the buffer not taken yet, and the sectors not read yet. */
    ghost function Ahead(): seq<byte>
      requires Valid()
      reads this, sbuf
    {
      (if nsource < sbuf.Length then sbuf[nsource..] else []) + Concat(file[next..])
    }

    /** What is still to come. */
    ghost function Unread(): seq<byte>
      requires Valid()
      reads this, sbuf
    {
      if newfile then [] else Text(Ahead())
    }

    /** The loop of `fillsource` (ed.c:1284-1294); `j` sectors were read. */
    method LoadSectors() returns (j: nat)
      requires Valid()
      modifies this, sbuf
      ensures Valid() && j <= sbuf.Length / SECTSIZE && next == old(next) + j && nsource == SECTSIZE * j
      ensures sbuf[..SECTSIZE * j] == Concat(file[old(next)..][..j])
      ensures j < sbuf.Length / SECTSIZE ==> next == |file| && sbuf[SECTSIZE * j] == ENDFILE
    {
      ghost var rest, n0 := file[next..], next;
      nsource := 0;
      j := 0;
      assert rest[..0] == [];
      while j < sbuf.Length / SECTSIZE
        invariant j <= sbuf.Length / SECTSIZE && nsource == SECTSIZE * j && Valid()
        invariant next == n0 + j && sbuf[..nsource] == Concat(rest[..j])
      {
        if next == |file| {
          sbuf[nsource] := ENDFILE;
          return;
        }
        ReadSector(nsource, file[next]);
        assert rest[..j + 1] == rest[..j] + [rest[j]] && rest[j] == file[next];
        ConcatSplit(rest[..j], [rest[j]]);
        ConcatOne(rest[j]);
        next := next + 1;
        nsource := nsource + SECTSIZE;
        j := j + 1;
      }
    }

    /** `fillsource` (ed.c:1279-1296). */
    method FillSource()
      requires Valid() && nsource >= sbuf.Length && !newfile
      modifies this, sbuf
      ensures Valid() && nsource == 0 && Unread() == old(Unread())
    {
      hide Text, Concat;
      ghost var rest := file[next..];
      var j := LoadSectors();
      assert rest == rest[..j] + file[next..];
      ConcatSplit(rest[..j], file[next..]);
      NothingLeft();
      FilledText(sbuf[..], SECTSIZE * j, Concat(file[next..]), Concat(rest));
      nsource := 0;
      assert sbuf[0..] == sbuf[..] && [] + Concat(rest) == Concat(rest);
    }

    lemma NothingLeft()
      requires Valid()
      ensures next == |file| ==> Concat(file[next..]) == []
    {
    }

    /** One sector into the buffer. */
    method ReadSector(at: nat, s: Sector)
      requires at + SECTSIZE <= sbuf.Length
      modifies sbuf
      ensures sbuf[..at + SECTSIZE] == old(sbuf[..at]) + s
    {
      var i := 0;
      while i < SECTSIZE
        invariant i <= SECTSIZE && sbuf[..at] == old(sbuf[..at]) && sbuf[at .. at + i] == s[..i]
      {
        sbuf[at + i] := s[i];
        i := i + 1;
      }
      assert sbuf[..at + SECTSIZE] == sbuf[..at] + sbuf[at .. at + SECTSIZE];
    }

    /** `getsource` (ed.c:1304-1315). */
    method GetSource() returns (b: byte)
      requires Valid()
      modifies this, sbuf
      ensures Valid()
      ensures if |old(Unread())| == 0 then b == ENDFILE && |Unread()| == 0
        else b == old(Unread())[0] && b != ENDFILE && Unread() == old(Unread())[1..]
    {
      hide Text, Concat;
      if newfile { return ENDFILE; }
      if nsource >= sbuf.Length { FillSource(); }
      b := sbuf[nsource];
      assert Ahead() == [b] + (sbuf[nsource + 1..] + Concat(file[next..]));
      TextHead(Ahead());
      if b != ENDFILE {
        nsource := nsource + 1;
        assert Ahead() == sbuf[nsource..] + Concat(file[next..]);
      }
    }
  }

  // ---------------------------------------------------------------- destination

  /** Length that a record count and a last-record byte count stand for (lrbc.c:107-121). */
  function ExactSize(records: nat, lrbc: nat): int
  {
    if records == 0 then 0 else if lrbc == 0 then records * 128 else (records - 1) * 128 + lrbc
  }

  /** The destination file and its buffer; writes succeed. */
  class Destination {
    var out: seq<Sector>
    const dbuf: array<byte>
    var ndest: nat

    ghost predicate Valid()
      reads this
    {
      0 < dbuf.Length && dbuf.Length % SECTSIZE == 0 && ndest <= dbuf.Length
    }

    /** Everything written so far. */
    ghost function Written(): seq<byte>
      requires Valid()
      reads this, dbuf
    {
      Concat(out) + dbuf[..ndest]
    }

    /** `writedest` (ed.c:1342-1373) on whole sectors. */
    method WriteDest()
      requires Valid() && ndest % SECTSIZE == 0
      modifies this
      ensures Valid() && ndest == 0 && Written() == old(Written())
    {
      var n := ndest / SECTSIZE;
      if n == 0 { return; }
      ghost var out0 := out;
      ndest := 0;
      while ndest < SECTSIZE * n
        invariant Valid() && ndest % SECTSIZE == 0 && ndest <= SECTSIZE * n == old(ndest)
        invariant Concat(out) == Concat(out0) + dbuf[..ndest]
      {
        var s: Sector := dbuf[ndest .. ndest + SECTSIZE];
        ConcatSplit(out, [s]);
        ConcatOne(s);
        assert dbuf[..ndest + SECTSIZE] == dbuf[..ndest] + s;
        out := out + [s];
        ndest := ndest + SECTSIZE;
      }
      ndest := 0;
    }

    /** `putdest` (ed.c:1381-1386). */
    method PutDest(b: byte)
      requires Valid()
      modifies this, dbuf
      ensures Valid() && Written() == old(Written()) + [b]
      ensures ndest % SECTSIZE == if old(ndest) % SECTSIZE == SECTSIZE - 1 then 0 else old(ndest) % SECTSIZE + 1
    {
      hide Concat;
      if ndest >= dbuf.Length { WriteDest(); }
      NextRemainder(ndest);
      dbuf[ndest] := b;
      ndest := ndest + 1;
      assert dbuf[..ndest] == dbuf[..ndest - 1] + [b];
    }

    /** `finis` (ed.c:1494-1510) up to closing the file: pad the last record, and say how much of it is
        text. */
    method Finis() returns (lrbc: nat)
      requires Valid()
      modifies this, dbuf
      ensures Valid() && ndest == 0 && lrbc < SECTSIZE
      ensures var text := old(Written());
        && |text| <= |Concat(out)| && Concat(out) == text + Padding(|Concat(out)| - |text|)
        && ExactSize(|out|, lrbc) == |text|
    {
      hide Concat;
      ghost var text := Written();
      lrbc := ndest % SECTSIZE;
      TextRemainder(|out|, ndest);
      ghost var k := 0;
      while ndest % SECTSIZE != 0
        invariant Valid() && Written() == text + Padding(k)
        invariant (k > 0 ==> lrbc != 0) && lrbc + k <= SECTSIZE
        invariant ndest % SECTSIZE == if lrbc + k == SECTSIZE then 0 else lrbc + k
        decreases SECTSIZE - k
      {
        PutDest(ENDFILE);
        assert Padding(k + 1) == Padding(k) + [ENDFILE];
        k := k + 1;
      }
      WriteDest();
      assert Written() == Concat(out) == text + Padding(k);
      Records(|text|, k, |out|, lrbc);
    }
  }

  function Padding(k: nat): (r: seq<byte>)
    ensures |r| == k
  {
    seq(k, _ => ENDFILE)
  }

  lemma Records(text: nat, k: nat, records: nat, lrbc: nat)
    requires text + k == 128 * records && lrbc == text % 128 && (k > 0 ==> lrbc > 0)
    requires lrbc + k == 128 || (lrbc == 0 && k == 0)
    ensures ExactSize(records, lrbc) == text
  {
  }

  lemma NextRemainder(x: nat)
    ensures (x + 1) % 128 == if x % 128 == 127 then 0 else x % 128 + 1
  {
  }

  lemma TextRemainder(n: nat, d: nat)
    ensures (128 * n + d) % 128 == d % 128
  {
  }
}

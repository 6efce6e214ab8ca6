/** The editor's text (ed.c): a gap buffer between a source file being read and a destination file being
    written. Text before the cursor fills the buffer from the bottom, text after it from the top. */
module Editor {
  import opened DiskParams
  import opened Streams

  const LF: byte := 0x0A
  const HEAP_LIMIT := 0xF000
  const ALL := 0xFFFF
  const TWO16 := 0x1_0000

  datatype Direction = BACKWARD | FORWARD

  /** Commands with a direction and a count, and commands with a count. */
  datatype Letter = LetterB | LetterC | LetterD | LetterK | LetterL | LetterA | LetterF | LetterS | LetterW

  /** A command as parsed; `pat` and `rep` are the strings of F and S. */
  datatype Command = Command(letter: Letter, direction: Direction, count: nat, pat: seq<byte>, rep: seq<byte>)

  /** Where the text is: written, before the cursor, after it, not yet read. */
  datatype Texts = Texts(written: seq<byte>, before: seq<byte>, after: seq<byte>, unread: seq<byte>)

  /** How a command ends: normally, or with the error that returns to the main loop. */
  datatype Outcome = Fine | Overflow | Overcount | BadCommand

  /** Line feeds of a text. */
  function Lines(s: seq<byte>): nat { if |s| == 0 then 0 else Lines(s[..|s| - 1]) + if s[|s| - 1] == LF then 1 else 0 }

  lemma {:induction false} LinesSum(s: seq<byte>, t: seq<byte>)
    ensures Lines(s + t) == Lines(s) + Lines(t)
    decreases |t|
  {
    if |t| == 0 {
      assert s + t == s;
    } else {
      assert (s + t)[..|s + t| - 1] == s + t[..|t| - 1];
      LinesSum(s, t[..|t| - 1]);
    }
  }

  lemma LinesOne(b: byte)
    ensures Lines([b]) == if b == LF then 1 else 0
  {
    assert [b][..0] == [];
  }

  class Ed {
    const base: array<byte>
    const max: nat
    const src: Source
    const dst: Destination
    var front: nat
    var back: nat
    var first: nat
    var lastc: nat
    var distance: nat
    var direction: Direction
    var baseline: nat

    /** An empty buffer of `max + 1` bytes, as `allocate_memory` and the restart leave it (ed.c:3433-3434,
        3526-3528). */
    constructor (max: nat, src: Source, dst: Destination)
      requires 2 <= max <= HEAP_LIMIT && src.Valid() && dst.Valid() && src.sbuf != dst.dbuf && |dst.out| == 0
      requires dst.ndest == 0
      ensures Valid() && fresh(base) && this.max == max && this.src == src && this.dst == dst
      ensures Before() == [] && After() == [] && LineOk() && Whole() == src.Unread()
    {
      var b := new byte[max + 1](_ => 0);
      b[0] := LF;
      base, this.max, this.src, this.dst := b, max, src, dst;
      front, back, first, lastc, distance, direction, baseline := 1, max - 1, 1, 1, 0, FORWARD, 1;
    }

    /** `base[0]` is a line feed below the text, `base[max]` a zero above it. */
    ghost predicate Valid()
      reads this, base, src, dst
    {
      && base.Length == max + 1 && 2 <= max <= HEAP_LIMIT
      && src.Valid() && dst.Valid()
      && base != src.sbuf && base != dst.dbuf && src.sbuf != dst.dbuf
      && 1 <= front <= back <= max - 1 && base[0] == LF && base[max] == 0
      && baseline < TWO16 && distance < TWO16
    }

    ghost function Before(): seq<byte>
      requires Valid()
      reads this, base, src, dst
    {
      base[1..front]
    }

    ghost function After(): seq<byte>
      requires Valid()
      reads this, base, src, dst
    {
      base[back + 1..max]
    }

    /** The text as a whole: written, before the cursor, after it, not yet read. */
    ghost function Whole(): seq<byte>
      requires Valid()
      reads this, base, src, src.sbuf, dst, dst.dbuf
    {
      All(dst.Written(), Before(), After(), src.Unread())
    }

    /** `baseline` is the number of the cursor's line, in sixteen bits. */
    ghost predicate LineOk()
      requires Valid()
      reads this, base, src, dst, dst.dbuf
    {
      Numbered(dst.Written(), Before(), baseline)
    }

    /** The files are as they were. */
    twostate predicate FilesKept()
      reads src, src.sbuf, dst, dst.dbuf
    {
      unchanged(src) && unchanged(src.sbuf) && unchanged(dst) && unchanged(dst.dbuf)
    }

    // ------------------------------------------------------------ moving the gap

    /** One turn of the forward loop of `mem_move` (ed.c:2260-2268). */
    method StepForward(moveflag: bool)
      requires Valid() && back < max - 1
      modifies this`front, this`back, this`baseline, base
      ensures Valid() && back == old(back) + 1
      ensures MovedForward(old(Before()), old(After()), old(baseline), 1, moveflag, Before(), After(), baseline)
    {
      hide Lines, MovedForward, NextLine;
      ghost var b, a, line := Before(), After(), baseline;
      NextLineIs(line, base[back + 1]);
      ForwardOne(b, a, line, moveflag);
      back := back + 1;
      if moveflag {
        base[front] := base[back];
        front := front + 1;
        if base[front - 1] == LF { baseline := (baseline + 1) % TWO16; }
        assert Before() == b + [a[0]];
      }
      assert After() == a[1..];
    }

    /** One turn of the backward loop of `mem_move` (ed.c:2272-2279). */
    method StepBackward(moveflag: bool)
      requires Valid() && front > 1
      modifies this`front, this`back, this`baseline, base
      ensures Valid() && front == old(front) - 1
      ensures MovedBackward(old(Before()), old(After()), old(baseline), 1, moveflag, Before(), After(), baseline)
    {
      hide Lines, MovedBackward, LastLine;
      ghost var b, a, line := Before(), After(), baseline;
      LastLineIs(line, base[front - 1]);
      BackwardOne(b, a, line, moveflag);
      front := front - 1;
      if base[front] == LF { baseline := (baseline + TWO16 - 1) % TWO16; }
      if moveflag {
        base[back] := base[front];
        back := back - 1;
        assert After() == [b[|b| - 1]] + a;
      }
      assert Before() == b[..|b| - 1];
    }

    /** `mem_move` (ed.c:2248-2283). */
    method MemMove(moveflag: bool)
      requires Valid() && if direction == FORWARD then lastc <= max - 1 else 1 <= first
      modifies this`front, this`back, this`baseline, base
      ensures Valid()
      ensures direction == FORWARD ==>
        var n := if lastc > old(back) then lastc - old(back) else 0;
        && back == old(back) + n
        && MovedForward(old(Before()), old(After()), old(baseline), n, moveflag, Before(), After(), baseline)
      ensures direction == BACKWARD ==>
        var n := if old(front) > first then old(front) - first else 0;
        && front == old(front) - n
        && MovedBackward(old(Before()), old(After()), old(baseline), n, moveflag, Before(), After(), baseline)
    {
      hide MovedForward, MovedBackward, Before, After, Lines;
      ghost var b, a, line := Before(), After(), baseline;
      NotMoved(b, a, line, moveflag);
      BaselineSmall();
      ghost var n := 0;
      if direction == FORWARD {
        while back < lastc
          invariant Valid() && back == old(back) + n && (n > 0 ==> back <= lastc)
          invariant MovedForward(b, a, line, n, moveflag, Before(), After(), baseline)
        {
          ghost var b1, a1, line1 := Before(), After(), baseline;
          StepForward(moveflag);
          ForwardAgain(b, a, line, n, moveflag, b1, a1, line1, Before(), After(), baseline);
          n := n + 1;
        }
      } else {
        while front > first
          invariant Valid() && front == old(front) - n && (n > 0 ==> front >= first)
          invariant MovedBackward(b, a, line, n, moveflag, Before(), After(), baseline)
        {
          ghost var b1, a1, line1 := Before(), After(), baseline;
          StepBackward(moveflag);
          BackwardAgain(b, a, line, n, moveflag, b1, a1, line1, Before(), After(), baseline);
          n := n + 1;
        }
      }
    }

    lemma BaselineSmall()
      requires Valid()
      ensures baseline < TWO16
    {
    }

    // ------------------------------------------------------------ cursor commands

    /** What the definitions say, in one place. */
    lemma Parts()
      requires Valid()
      ensures dst.Valid() && src.Valid() && baseline < TWO16 && distance < TWO16 && 1 <= front <= back <= max - 1
      ensures base.Length == max + 1 && max <= HEAP_LIMIT < TWO16
      ensures base != src.sbuf && base != dst.dbuf && src.sbuf != dst.dbuf
      ensures Whole() == All(dst.Written(), Before(), After(), src.Unread())
      ensures LineOk() <==> Numbered(dst.Written(), Before(), baseline)
      ensures |Before()| == front - 1 && |After()| == max - 1 - back
    {
      hide Lines;
    }

    lemma AfterBytes()
      requires Valid()
      ensures forall i :: 0 <= i < |After()| ==> After()[i] == base[back + 1 + i]
    {
    }

    twostate lemma FilesSame()
      requires old(Valid()) && Valid() && FilesKept()
      ensures dst.Valid() && src.Valid() && old(dst.Valid()) && old(src.Valid())
      ensures dst.Written() == old(dst.Written()) && src.Unread() == old(src.Unread())
    {
      hide Concat, Text;
      assert dst.dbuf[..] == old(dst.dbuf[..]) && src.sbuf[..] == old(src.sbuf[..]);
      assert dst.dbuf[..dst.ndest] == old(dst.dbuf[..dst.ndest]);
      assert src.nsource < src.sbuf.Length ==> src.sbuf[src.nsource..] == old(src.sbuf[src.nsource..]);
    }

    /** `mover` (ed.c:2293): a move loses nothing and keeps the line number. */
    method Mover()
      requires Valid() && LineOk() && if direction == FORWARD then lastc <= max - 1 else 1 <= first
      modifies this`front, this`back, this`baseline, base
      ensures Valid() && LineOk() && Whole() == old(Whole()) && Before() + After() == old(Before() + After())
      ensures direction == FORWARD ==> back == if lastc > old(back) then lastc else old(back)
      ensures direction == BACKWARD ==> front == if first < old(front) then first else old(front)
    {
      hide *;
      Parts();
      MemMove(true);
      Parts();
      FilesKeptHere();
      FilesSame();
      if direction == FORWARD {
        KeepForward(dst.Written(), old(Before()), old(After()), src.Unread(), old(baseline),
          if lastc > old(back) then lastc - old(back) else 0, true, Before(), After(), baseline);
      } else {
        KeepBackward(dst.Written(), old(Before()), old(After()), src.Unread(), old(baseline),
          if old(front) > first then old(front) - first else 0, true, Before(), After(), baseline);
      }
    }

    twostate lemma FilesKeptHere()
      requires unchanged(src) && unchanged(src.sbuf) && unchanged(dst) && unchanged(dst.dbuf)
      ensures FilesKept()
    {
    }

    /** `setptrs` (ed.c:2306): the characters passed over are deleted; the line number stays right. */
    method SetPtrs()
      requires Valid() && LineOk() && if direction == FORWARD then lastc <= max - 1 else 1 <= first
      modifies this`front, this`back, this`baseline, base
      ensures Valid() && LineOk()
      ensures direction == FORWARD ==>
        var n := if lastc > old(back) then lastc - old(back) else 0;
        n <= |old(After())| && Before() == old(Before()) && After() == old(After())[n..]
      ensures direction == BACKWARD ==>
        var n := if old(front) > first then old(front) - first else 0;
        n <= |old(Before())| && After() == old(After()) && Before() == old(Before())[..|old(Before())| - n]
    {
      hide *;
      Parts();
      MemMove(false);
      Parts();
      FilesKeptHere();
      FilesSame();
      if direction == FORWARD {
        ghost var n := if lastc > old(back) then lastc - old(back) else 0;
        KeepForward(dst.Written(), old(Before()), old(After()), src.Unread(), old(baseline), n, false, Before(),
          After(), baseline);
        Dropped(old(Before()), old(After()), old(baseline), n, Before(), After(), baseline);
      } else {
        ghost var n := if old(front) > first then old(front) - first else 0;
        KeepBackward(dst.Written(), old(Before()), old(After()), src.Unread(), old(baseline), n, false, Before(),
          After(), baseline);
        Dropped(old(Before()), old(After()), old(baseline), n, Before(), After(), baseline);
      }
    }

    /** `setclimits` (ed.c:2338-2350). */
    method SetCLimits()
      requires Valid()
      modifies this`first, this`lastc
      ensures Valid()
      ensures direction == FORWARD ==> lastc - back == Least(distance, |After()|)
      ensures direction == BACKWARD ==> first == if distance > front then 1 else front - distance
      ensures direction == BACKWARD ==> (1 <= first <==> distance != front)
    {
      if direction == BACKWARD {
        lastc := back;
        first := if distance > front then 1 else front - distance;
      } else {
        first := front;
        lastc := if distance >= max - back then max - 1 else back + distance;
      }
    }

    /** Command C: the cursor moves `distance` characters, or as far as there are any. Asked to go back
        by exactly `front` characters it would pick up the line feed below the text. */
    method CharMove()
      requires Valid() && LineOk() && !(direction == BACKWARD && distance == front)
      modifies this`front, this`back, this`first, this`lastc, this`baseline, base
      ensures Valid() && LineOk() && Whole() == old(Whole()) && Before() + After() == old(Before() + After())
      ensures direction == FORWARD ==> |Before()| == |old(Before())| + Least(distance, |old(After())|)
      ensures direction == BACKWARD ==> |Before()| == |old(Before())| - Least(distance, |old(Before())|)
    {
      hide *;
      Parts();
      SetCLimits();
      CursorOnly();
      Parts();
      LeastIs(distance, |After()|);
      LeastIs(distance, |Before()|);
      Mover();
      Parts();
    }

    /** The command variables are no part of the text. */
    twostate lemma CursorOnly()
      requires old(Valid()) && Valid() && unchanged(base) && unchanged(src) && unchanged(src.sbuf) && unchanged(dst)
        && unchanged(dst.dbuf)
      requires front == old(front) && back == old(back) && baseline == old(baseline)
      ensures Before() == old(Before()) && After() == old(After()) && Whole() == old(Whole())
        && LineOk() == old(LineOk())
    {
      hide Lines, Concat, Text, Numbered;
      Parts();
      FilesSame();
      assert base[1..front] == old(base[1..front]) && base[back + 1..max] == old(base[back + 1..max]);
    }

    /** Command D: the characters C would pass over are deleted. */
    method CharDelete()
      requires Valid() && LineOk() && !(direction == BACKWARD && distance == front)
      modifies this`front, this`back, this`first, this`lastc, this`baseline, base
      ensures Valid() && LineOk()
      ensures direction == FORWARD ==>
        Before() == old(Before()) && After() == old(After())[Least(distance, |old(After())|)..]
      ensures direction == BACKWARD ==>
        After() == old(After()) && Before() == old(Before())[..|old(Before())| - Least(distance, |old(Before())|)]
    {
      hide *;
      Parts();
      SetCLimits();
      CursorOnly();
      Parts();
      LeastIs(distance, |After()|);
      LeastIs(distance, |Before()|);
      SetPtrs();
    }

    /** Command B: to the beginning, or with a minus sign to the bottom, of the buffer. */
    method BeginBottom()
      requires Valid() && LineOk()
      modifies this`front, this`back, this`first, this`lastc, this`baseline, this`direction, base
      ensures Valid() && LineOk() && Whole() == old(Whole())
      ensures if old(direction) == FORWARD then Before() == [] && After() == old(Before() + After())
        else After() == [] && Before() == old(Before() + After())
    {
      hide *;
      Parts();
      direction := if direction == FORWARD then BACKWARD else FORWARD;
      first := 1;
      lastc := max - 1;
      StillValid();
      CursorOnly();
      Mover();
      Parts();
      assert Before() + After() == if |Before()| == 0 then After() else Before() + After();
    }

    twostate lemma StillValid()
      requires old(Valid()) && unchanged(base) && unchanged(src) && unchanged(dst) && front == old(front)
        && back == old(back)
      requires baseline == old(baseline) && distance < TWO16
      ensures Valid()
    {
    }

    // ------------------------------------------------------------ lines

    /** `setlimits` (ed.c:2178-2231), forward: up to and including line feed number `distance`, or to
        the end of the buffer. */
    method SetLimitsForward()
      requires Valid() && direction == FORWARD && 1 <= distance
      modifies this`first, this`lastc, this`distance
      ensures Valid() && first == back + 1 && lastc == back + LineEnd(After(), old(distance)) <= max - 1
    {
      hide *;
      Parts();
      AfterBytes();
      ghost var a, n := After(), distance;
      var j, m := back, back;
      var limit := max - 1;
      var middle, looping := true, true;
      while looping
        invariant distance < TWO16
        invariant looping ==> 1 <= distance && back <= j <= limit
        invariant if looping then LineEnd(a, n) == j - back + LineEnd(a[j - back..], distance)
          else LineEnd(a, n) == j + 1 - back
        decreases looping, limit - j, distance
      {
        ghost var d := distance;
        middle := j != limit;
        while middle && base[j + 1] != LF
          invariant back <= j <= limit && middle == (j != limit) && distance == d
          invariant LineEnd(a, n) == (j - back) + LineEnd(a[j - back..], distance)
          decreases limit - j
        {
          LineEndStep(a, j - back, distance);
          j := j + 1;
          middle := j != limit;
        }
        LineEndStep(a, j - back, distance);
        m := j + 1;
        distance := distance - 1;
        looping := distance != 0;
        if !middle {
          looping := false;
          j := j - 1;
        } else if looping {
          j := m;
        }
      }
      first := back + 1;
      lastc := j + 1;
      StillValid();
      CursorOnly();
    }

    /** Command L, forward: the cursor moves over `distance` lines. */
    method LineMove()
      requires Valid() && LineOk() && direction == FORWARD && 1 <= distance
      modifies this`front, this`back, this`first, this`lastc, this`distance, this`baseline, base
      ensures Valid() && LineOk() && Whole() == old(Whole()) && Before() + After() == old(Before() + After())
      ensures |Before()| == |old(Before())| + LineEnd(old(After()), old(distance))
    {
      hide *;
      Parts();
      SetLimitsForward();
      CursorOnly();
      Parts();
      Mover();
      Parts();
      assert |Before() + After()| == |old(Before())| + |old(After())|;
    }

    /** Command K, forward: the lines L would pass over are deleted. */
    method LineDelete()
      requires Valid() && LineOk() && direction == FORWARD && 1 <= distance
      modifies this`front, this`back, this`first, this`lastc, this`distance, this`baseline, base
      ensures Valid() && LineOk() && Before() == old(Before())
      ensures var k := LineEnd(old(After()), old(distance)); k <= |old(After())| && After() == old(After())[k..]
    {
      hide *;
      Parts();
      SetLimitsForward();
      CursorOnly();
      SetPtrs();
    }

    // ------------------------------------------------------------ reading the source

    /** One character goes in before the cursor. */
    method Store(b: byte)
      requires Valid() && LineOk() && front < back
      modifies this`front, this`baseline, base
      ensures Valid() && LineOk() && Before() == old(Before()) + [b] && After() == old(After())
        && front == old(front) + 1
      ensures src.Valid() && dst.Valid() && dst.Written() == old(dst.Written()) && src.Unread() == old(src.Unread())
    {
      hide *;
      Parts();
      StoreByte(b);
      FilesKeptHere();
      FilesSame();
      Parts();
      OneMore(dst.Written(), old(Before()), old(baseline), b);
    }

    method StoreByte(b: byte)
      requires Valid() && front < back
      modifies this`front, this`baseline, base
      ensures Valid() && Before() == old(Before()) + [b] && After() == old(After()) && front == old(front) + 1
      ensures baseline == NextLine(old(baseline), b)
    {
      hide Lines, Concat, Text;
      base[front] := b;
      front := front + 1;
      if b == LF { baseline := (baseline + 1) % TWO16; }
    }

    /** One character off the source; the buffer is as it was. */
    method Take() returns (b: byte)
      requires Valid()
      modifies src, src.sbuf
      ensures Valid() && Before() == old(Before()) && After() == old(After()) && LineOk() == old(LineOk())
      ensures src.Valid() && dst.Valid() && dst.Written() == old(dst.Written())
      ensures if |old(src.Unread())| == 0 then b == ENDFILE && src.Unread() == []
        else b == old(src.Unread())[0] && b != ENDFILE && src.Unread() == old(src.Unread())[1..]
    {
      hide *;
      Parts();
      b := src.GetSource();
      BufferSame();
    }

    twostate lemma BufferSame()
      requires old(Valid()) && src.Valid() && unchanged(this) && unchanged(base) && unchanged(dst)
        && unchanged(dst.dbuf)
      ensures Valid() && Before() == old(Before()) && After() == old(After()) && LineOk() == old(LineOk())
      ensures dst.Written() == old(dst.Written())
    {
      hide Lines, Concat;
      assert dst.dbuf[..dst.ndest] == old(dst.dbuf[..dst.ndest]);
      assert base[1..front] == old(base[1..front]) && base[back + 1..max] == old(base[back + 1..max]);
    }

    /** `readline` (ed.c:2358-2380) with upper-casing off: appends the next line of the source, if the
        gap holds it. */
    method ReadLine() returns (o: Outcome)
      requires Valid() && LineOk()
      modifies this`front, this`distance, this`baseline, base, src, src.sbuf
      ensures Valid() && LineOk() && After() == old(After()) && dst.Written() == old(dst.Written())
      ensures Appended(old(Before()), old(src.Unread()), old(back - front),
        LineEnd(old(src.Unread()), 1), Needed(old(src.Unread()), 1), o, Before(), src.Unread())
      ensures o == Fine ==>
        var u := old(src.Unread()); distance == if LineEnd(u, 1) == Needed(u, 1) then old(distance) else 0
    {
      hide *;
      Parts();
      ghost var u, room, b0 := src.Unread(), back - front, Before();
      ghost var k := 0;
      while true
        invariant Valid() && src.Valid() && dst.Valid() && LineOk()
        invariant After() == old(After()) && dst.Written() == old(dst.Written())
        invariant k <= |u| && src.Unread() == u[k..] && Before() == b0 + u[..k] && front == old(front) + k <= back
        invariant distance == old(distance)
        invariant LineEnd(u, 1) == k + LineEnd(u[k..], 1) && Needed(u, 1) == k + Needed(u[k..], 1)
        decreases |u| - k
      {
        LineEndStep(u, k, 1);
        NeededStep(u, k, 1);
        if front >= back {
          AppendedIs(b0, u, room, LineEnd(u, 1), Needed(u, 1), Overflow, Before(), src.Unread());
          return Overflow;
        }
        var b := Take();
        if b == ENDFILE {
          SetDistance(0);
          break;
        }
        Store(b);
        k := k + 1;
        assert u[..k] == u[..k - 1] + [u[k - 1]];
        if b == LF { break; }
      }
      AppendedIs(b0, u, room, LineEnd(u, 1), Needed(u, 1), Fine, Before(), src.Unread());
      return Fine;
    }

    /** The reading loop of command A. */
    method ReadLines() returns (o: Outcome)
      requires Valid() && LineOk() && 1 <= distance
      modifies this`front, this`distance, this`baseline, base, src, src.sbuf
      ensures Valid() && LineOk() && After() == old(After()) && dst.Written() == old(dst.Written())
      ensures Appended(old(Before()), old(src.Unread()), old(back - front),
        LineEnd(old(src.Unread()), old(distance)), Needed(old(src.Unread()), old(distance)), o, Before(), src.Unread())
    {
      hide *;
      Parts();
      ghost var b0, u, room, n := Before(), src.Unread(), back - front, distance;
      ghost var k: nat := 0;
      Constants();
      NothingRead(b0, u);
      while distance != 0
        invariant Valid() && src.Valid() && dst.Valid() && LineOk() && distance < TWO16
        invariant After() == old(After()) && dst.Written() == old(dst.Written())
        invariant PartRead(b0, u, k, Before(), src.Unread()) && back - front == room - k
        invariant distance > 0 ==>
          LineEnd(u, n) == k + LineEnd(src.Unread(), distance) && Needed(u, n) == k + Needed(src.Unread(), distance)
        invariant distance == 0 ==> k == LineEnd(u, n) && Needed(u, n) <= room
        decreases distance
      {
        ghost var b1, u1 := Before(), src.Unread();
        FirstLine(u1, distance);
        SetDistance(distance - 1);
        Parts();
        o := ReadLine();
        Parts();
        ReadMore(b0, u, k, room, b1, u1, LineEnd(u1, 1), Needed(u1, 1), o, Before(), src.Unread());
        if o == Overflow { return; }
        k := k + LineEnd(u1, 1);
      }
      AllRead(b0, u, k, room, Needed(u, n), Before(), src.Unread());
      return Fine;
    }

    /** `apphalf` (ed.c:2703-2711). At most 0xF000 characters fit, so 0xffff lines never run out. */
    method AppHalf() returns (o: Outcome)
      requires Valid() && LineOk()
      modifies this`front, this`distance, this`baseline, base, src, src.sbuf
      ensures Valid() && LineOk() && After() == old(After()) && dst.Written() == old(dst.Written())
      ensures var want := (max - 1) / 2 - old(front);
        Appended(old(Before()), old(src.Unread()), old(back - front),
          Upto(old(src.Unread()), want), UptoNeeded(old(src.Unread()), want), o, Before(), src.Unread())
    {
      hide *;
      Parts();
      var hmax := (max - 1) / 2;
      ghost var b0, u, room, want := Before(), src.Unread(), back - front, hmax - front;
      ghost var k: nat := 0;
      Constants();
      NothingRead(b0, u);
      HalfStarts(u, want, room);
      SetDistance(0xffff);
      while distance != 0
        invariant Valid() && src.Valid() && dst.Valid() && LineOk()
        invariant After() == old(After()) && dst.Written() == old(dst.Written())
        invariant PartRead(b0, u, k, Before(), src.Unread()) && back - front == room - k && front == old(front) + k
        invariant HalfLeft(u, want, room, k, src.Unread(), distance)
        decreases distance
      {
        ghost var b1, u1, l, needed := Before(), src.Unread(), LineEnd(src.Unread(), 1), Needed(src.Unread(), 1);
        Parts();
        HalfStep(u, want, room, k, u1, distance);
        SetDistance(distance - 1);
        if front >= hmax {
          SetDistance(0);
        } else {
          o := ReadLine();
          Parts();
          ReadMore(b0, u, k, room, b1, u1, l, needed, o, Before(), src.Unread());
          if o == Overflow { return; }
          k := k + l;
        }
      }
      HalfDone(u, want, room, k, src.Unread());
      AllRead(b0, u, k, room, UptoNeeded(u, want), Before(), src.Unread());
      return Fine;
    }

    method SetDistance(d: nat)
      requires Valid() && d <= 0xffff
      modifies this`distance
      ensures Valid() && src.Valid() && dst.Valid() && distance == d
      ensures Before() == old(Before()) && After() == old(After()) && Whole() == old(Whole())
        && LineOk() == old(LineOk())
      ensures src.Unread() == old(src.Unread()) && dst.Written() == old(dst.Written())
      ensures back == old(back) && front == old(front)
    {
      hide *;
      Parts();
      Constants();
      distance := d;
      StillValid();
      CursorOnly();
    }

    /** Command A: the next `distance` lines of the source (for 0, lines until the buffer is half full) go
        to the end of the text; the cursor stays. When the gap cannot take them it is left full, the
        cursor at the end. Nothing is lost either way. */
    method Append() returns (o: Outcome)
      requires Valid() && LineOk()
      modifies this`front, this`back, this`first, this`lastc, this`distance, this`direction, this`baseline, base, src,
        src.sbuf
      ensures Valid() && LineOk() && Whole() == old(Whole()) && dst.Written() == old(dst.Written())
      ensures var u, n, text := old(src.Unread()), old(distance), old(Before() + After());
        var room, want := max - 2 - |text|, (max - 1) / 2 - 1 - |text|;
        var k := if n == 0 then Upto(u, want) else LineEnd(u, n);
        var needed := if n == 0 then UptoNeeded(u, want) else Needed(u, n);
        && (o == Fine) == (needed <= room)
        && (o == Fine ==>
             k <= |u| && Before() == old(Before()) && After() == old(After()) + u[..k] && src.Unread() == u[k..])
        && (o != Fine ==>
             && o == Overflow && 0 <= room <= |u|
             && Before() == text + u[..room] && After() == [] && src.Unread() == u[room..])
    {
      hide *;
      Parts();
      ghost var b, a, u, w, n := Before(), After(), src.Unread(), dst.Written(), distance;
      direction := FORWARD;
      first := front;
      lastc := max - 1;
      StillValid();
      CursorOnly();
      Mover();
      Parts();
      FilesKeptHere();
      FilesSame();
      ghost var b1, room, want := Before(), back - front, (max - 1) / 2 - front;
      assert |b1| == |b + a| && b1 + After() == b1;
      if distance == 0 {
        o := AppHalf();
      } else {
        o := ReadLines();
      }
      Parts();
      ghost var k := if n == 0 then Upto(u, want) else LineEnd(u, n);
      ghost var needed := if n == 0 then UptoNeeded(u, want) else Needed(u, n);
      AppendedMeans(w, b, a, u, room, k, needed, o, Before(), After(), src.Unread());
      if o == Overflow { return; }
      label read:
      direction := BACKWARD;
      StillValid@read();
      CursorOnly@read();
      Mover();
      Parts();
      FilesKeptHere@read();
      FilesSame@read();
      SplitAt(b, a + u[..k], Before(), After());
    }

    // ------------------------------------------------------------ writing the destination

    /** One character to the destination; the buffer is as it was. */
    method Give(b: byte)
      requires Valid()
      modifies dst, dst.dbuf
      ensures Valid() && src.Valid() && dst.Valid() && Before() == old(Before()) && After() == old(After())
      ensures src.Unread() == old(src.Unread()) && dst.Written() == old(dst.Written()) + [b]
    {
      hide *;
      Parts();
      dst.PutDest(b);
      BufferKept();
    }

    twostate lemma BufferKept()
      requires old(Valid()) && dst.Valid() && unchanged(this) && unchanged(base) && unchanged(src)
        && unchanged(src.sbuf)
      ensures Valid() && src.Valid() && Before() == old(Before()) && After() == old(After())
        && src.Unread() == old(src.Unread())
    {
      hide Text, Concat;
      assert base[1..front] == old(base[1..front]) && base[back + 1..max] == old(base[back + 1..max]);
      assert src.sbuf[..] == old(src.sbuf[..]);
      assert src.nsource < src.sbuf.Length ==> src.sbuf[src.nsource..] == old(src.sbuf[src.nsource..]);
    }

    /** The first character behind the cursor goes to the destination. */
    method WriteOne() returns (b: byte)
      requires Valid() && LineOk() && Before() == [] && back < max - 1
      modifies this`back, this`baseline, dst, dst.dbuf
      ensures Valid() && src.Valid() && dst.Valid() && LineOk() && Before() == [] && src.Unread() == old(src.Unread())
      ensures |old(After())| > 0 && b == old(After())[0] && After() == old(After())[1..]
      ensures dst.Written() == old(dst.Written()) + [b]
    {
      hide *;
      Parts();
      AfterBytes();
      ghost var line, w := baseline, dst.Written();
      b := base[back + 1];
      Give(b);
      Skip();
      Parts();
      OneWritten(w, line, b);
    }

    method Skip()
      requires Valid() && back < max - 1
      modifies this`back, this`baseline
      ensures Valid() && src.Valid() && dst.Valid() && Before() == old(Before())
      ensures |old(After())| > 0 && After() == old(After())[1..]
      ensures baseline == NextLine(old(baseline), old(After())[0])
      ensures src.Unread() == old(src.Unread()) && dst.Written() == old(dst.Written())
    {
      hide Lines, Concat, Text;
      back := back + 1;
      if base[back] == LF { baseline := (baseline + 1) % TWO16; }
      FilesKeptHere();
      FilesSame();
    }

    /** `writeline` (ed.c:2386-2404): the first line behind the cursor goes to the destination. */
    method WriteLine()
      requires Valid() && LineOk() && Before() == []
      modifies this`back, this`distance, this`baseline, dst, dst.dbuf
      ensures Valid() && LineOk() && Before() == [] && src.Unread() == old(src.Unread())
      ensures PartRead(old(dst.Written()), old(After()), LineEnd(old(After()), 1), dst.Written(), After())
      ensures var a := old(After()); distance == if LineEnd(a, 1) == Needed(a, 1) then old(distance) else 0
    {
      hide *;
      Parts();
      ghost var w, a := dst.Written(), After();
      ghost var k: nat := 0;
      NothingRead(w, a);
      assert a[0..] == a;
      while true
        invariant Valid() && src.Valid() && dst.Valid() && LineOk() && Before() == []
        invariant src.Unread() == old(src.Unread())
        invariant k <= |a| && After() == a[k..] && PartRead(w, a, k, dst.Written(), After())
        invariant distance == old(distance)
        invariant LineEnd(a, 1) == k + LineEnd(a[k..], 1) && Needed(a, 1) == k + Needed(a[k..], 1)
        decreases |a| - k
      {
        Parts();
        LineEndStep(a, k, 1);
        NeededStep(a, k, 1);
        if back >= max - 1 {
          SetDistance(0);
          break;
        }
        ghost var w1, a1 := dst.Written(), After();
        var b := WriteOne();
        OneRead(w, a, k, w1, a1, dst.Written(), After());
        k := k + 1;
        if b == LF { break; }
      }
    }

    /** The writing loop of command W. */
    method WriteLines()
      requires Valid() && LineOk() && Before() == []
      modifies this`back, this`distance, this`baseline, dst, dst.dbuf
      ensures Valid() && LineOk() && Before() == [] && src.Unread() == old(src.Unread())
      ensures var n, a := old(distance), old(After());
        PartRead(old(dst.Written()), a, if n == 0 then 0 else LineEnd(a, n), dst.Written(), After())
    {
      hide *;
      Parts();
      ghost var w, a, n := dst.Written(), After(), distance;
      ghost var k: nat := 0;
      Constants();
      NothingRead(w, a);
      while distance != 0
        invariant Valid() && src.Valid() && dst.Valid() && LineOk() && Before() == []
        invariant src.Unread() == old(src.Unread())
        invariant PartRead(w, a, k, dst.Written(), After()) && distance < TWO16
        invariant n > 0 && distance > 0 ==> LineEnd(a, n) == k + LineEnd(After(), distance)
        invariant distance == 0 ==> k == if n == 0 then 0 else LineEnd(a, n)
        invariant n == 0 ==> distance == 0
        decreases distance
      {
        ghost var w1, a1 := dst.Written(), After();
        FirstLine(a1, distance);
        SetDistance(distance - 1);
        WriteLine();
        Parts();
        MoreRead(w, a, k, w1, a1, LineEnd(a1, 1), dst.Written(), After());
        k := k + LineEnd(a1, 1);
      }
    }

    /** `wrhalf` (ed.c:2412-2424): lines are written until half the buffer is free. */
    method WrHalf()
      requires Valid() && LineOk() && Before() == []
      modifies this`back, this`distance, this`baseline, dst, dst.dbuf
      ensures Valid() && LineOk() && Before() == [] && src.Unread() == old(src.Unread()) && distance == 0
      ensures var a := old(After());
        PartRead(old(dst.Written()), a, Upto(a, |a| - (max - 1) / 2), dst.Written(), After())
    {
      hide *;
      Parts();
      var hmax := (max - 1) / 2;
      ghost var w, a, want := dst.Written(), After(), |After()| - hmax;
      ghost var k: nat := 0;
      Constants();
      NothingRead(w, a);
      HalfStarts(a, want, |a| + 1);
      SetDistance(0xffff);
      while distance != 0
        invariant Valid() && src.Valid() && dst.Valid() && LineOk() && Before() == []
        invariant src.Unread() == old(src.Unread())
        invariant PartRead(w, a, k, dst.Written(), After()) && k + |After()| == |a|
        invariant HalfLeft(a, want, |a| + 1, k, After(), distance)
        decreases distance
      {
        ghost var w1, a1 := dst.Written(), After();
        Parts();
        HalfStep(a, want, |a| + 1, k, a1, distance);
        NeededBound(a1);
        SetDistance(distance - 1);
        if hmax >= max - 1 - back {
          SetDistance(0);
        } else {
          WriteLine();
          Parts();
          MoreRead(w, a, k, w1, a1, LineEnd(a1, 1), dst.Written(), After());
          k := k + LineEnd(a1, 1);
        }
      }
      HalfDone(a, want, |a| + 1, k, After());
    }

    /** The writing of command W. */
    method WriteSome()
      requires Valid() && LineOk() && Before() == []
      modifies this`back, this`distance, this`baseline, dst, dst.dbuf
      ensures Valid() && LineOk() && Before() == [] && src.Unread() == old(src.Unread())
      ensures var n, a := old(distance), old(After());
        var k := if n == 0 then Upto(a, |a| - (max - 1) / 2) else LineEnd(a, n);
        PartRead(old(dst.Written()), a, k, dst.Written(), After())
    {
      hide *;
      Parts();
      ghost var w, a, n := dst.Written(), After(), distance;
      if distance == 0 { WrHalf(); }
      Parts();
      ghost var w1, a1 := dst.Written(), After();
      WriteLines();
      Parts();
      if n == 0 {
        MoreRead(w, a, Upto(a, |a| - (max - 1) / 2), w1, a1, 0, dst.Written(), After());
      }
    }

    /** The whole text goes behind the cursor. */
    method Gather()
      requires Valid() && LineOk()
      modifies this`front, this`back, this`first, this`lastc, this`direction, this`baseline, base
      ensures Valid() && src.Valid() && dst.Valid() && LineOk() && Before() == [] && After() == old(Before() + After())
      ensures src.Unread() == old(src.Unread()) && dst.Written() == old(dst.Written()) && lastc == old(back)
      ensures direction == BACKWARD
    {
      hide *;
      Parts();
      direction := BACKWARD;
      first := 1;
      lastc := back;
      StillValid();
      CursorOnly();
      Mover();
      Parts();
      FilesKeptHere();
      FilesSame();
      assert Before() + After() == After();
    }

    /** Text goes back in front of the cursor, up to `lastc`. */
    method Rejoin()
      requires Valid() && LineOk() && Before() == [] && lastc <= max - 1
      modifies this`front, this`back, this`direction, this`baseline, base
      ensures Valid() && src.Valid() && dst.Valid() && LineOk() && Before() + After() == old(After())
      ensures src.Unread() == old(src.Unread()) && dst.Written() == old(dst.Written())
      ensures |Before()| == if old(back) < lastc then lastc - old(back) else 0
    {
      hide *;
      Parts();
      assert Before() + After() == After();
      if back < lastc {
        direction := FORWARD;
        StillValid();
        CursorOnly();
        Mover();
        Parts();
        FilesKeptHere();
        FilesSame();
        assert |Before() + After()| == |old(After())|;
      }
    }

    /** `writeout` (ed.c:2430-2450), command W: the first `distance` lines of the buffer (for 0, lines
        until half of it is free) go to the destination; the cursor stays where it was in the rest. */
    method WriteOut()
      requires Valid() && LineOk()
      modifies this`front, this`back, this`first, this`lastc, this`distance, this`direction, this`baseline, base, dst,
        dst.dbuf
      ensures Valid() && LineOk() && Whole() == old(Whole()) && src.Unread() == old(src.Unread())
      ensures var n, text := old(distance), old(Before() + After());
        var k := if n == 0 then Upto(text, |text| - (max - 1) / 2) else LineEnd(text, n);
        && k <= |text| && dst.Written() == old(dst.Written()) + text[..k] && Before() + After() == text[k..]
        && |Before()| == if k < |old(Before())| then |old(Before())| - k else 0
    {
      hide *;
      Parts();
      ghost var b, a, text, w, n := Before(), After(), Before() + After(), dst.Written(), distance;
      ghost var k := if n == 0 then Upto(text, |text| - (max - 1) / 2) else LineEnd(text, n);
      Gather();
      WriteSome();
      Parts();
      ghost var rest := After();
      Rejoin();
      WrittenMeans(w, b, a, text, k, dst.Written(), rest, Before(), After(), src.Unread());
      Parts();
    }

    /** `terminate` (ed.c:2465-2472), command E: the destination is the whole text and padding, and its
        record count and last-record byte count give its length. 0xffff lines are all there can be. */
    method Terminate() returns (lrbc: nat)
      requires Valid() && LineOk()
      modifies this`front, this`back, this`first, this`lastc, this`distance, this`direction, this`baseline, base,
        src, src.sbuf, dst, dst.dbuf
      ensures lrbc < SECTSIZE && ExactSize(|dst.out|, lrbc) == |old(Whole())| <= |Concat(dst.out)|
      ensures Concat(dst.out) == old(Whole()) + Padding(|Concat(dst.out)| - |old(Whole())|)
    {
      hide *;
      Parts();
      Constants();
      ghost var text, all := Before() + After(), Whole();
      SetDistance(0xffff);
      WriteOut();
      Parts();
      AllLines(text, 0xffff);
      NewIsRead();
      assert Before() == [] && After() == [];
      OnlyFiles(dst.Written(), src.Unread());
      if !src.newfile {
        var b := Take();
        while b != ENDFILE
          invariant Valid() && src.Valid() && dst.Valid()
          invariant dst.Written() + (if b == ENDFILE then [] else [b]) + src.Unread() == all
          invariant b == ENDFILE ==> src.Unread() == []
          decreases |src.Unread()|, b != ENDFILE
        {
          Give(b);
          b := Take();
        }
      }
      assert dst.Written() + src.Unread() == all;
      lrbc := dst.Finis();
    }

    lemma NewIsRead()
      requires Valid()
      ensures src.newfile ==> src.Unread() == []
    {
    }

    // ------------------------------------------------------------ finding and substituting

    /** The inner loop of `find` (ed.c:2552-2559), at `base[j]`. `lastc` never passes the zero above the
        text. */
    method MatchAt(pat: seq<byte>, j: nat) returns (found: bool)
      requires Valid() && 0 !in pat && back < j <= max - 1
      modifies this`lastc
      ensures Valid() && found == OccursAt(After(), pat, j - back - 1)
      ensures found ==> lastc == j + |pat| <= max
    {
      hide *;
      Parts();
      AfterBytes();
      SentinelIsZero();
      ghost var a, i := After(), j - back - 1;
      lastc := j;
      var k := 0;
      MatchMore(a, pat, i, 0);
      while k != |pat| && pat[k] == base[lastc]
        invariant k <= |pat| && lastc == j + k <= max && Matches(a, pat, i, k)
        decreases |pat| - k
      {
        assert pat[k] in pat;
        MatchMore(a, pat, i, k);
        k := k + 1;
        lastc := lastc + 1;
      }
      found := k == |pat|;
      MatchMore(a, pat, i, k);
      StillValid();
      CursorOnly();
    }

    /** The outer loop of `find` (ed.c:2544-2560): every place is tried until one matches. */
    method Search(pat: seq<byte>) returns (found: bool)
      requires Valid() && 0 !in pat
      modifies this`lastc
      ensures Valid() && found == (First(After(), pat) >= 0)
      ensures found ==> lastc == back + 1 + First(After(), pat) + |pat| <= max
    {
      hide *;
      Parts();
      ghost var a := After();
      var j := back;
      found := false;
      FirstFrom(a, pat, 0);
      while !found && j < max - 1
        invariant Valid() && After() == a && back <= j <= max - 1
        invariant found ==> lastc == j + |pat| <= max && First(a, pat) == j - back - 1 >= 0
        invariant !found ==>
          First(a, pat) == if First(a[j - back..], pat) < 0 then -1 else j - back + First(a[j - back..], pat)
        decreases max - j
      {
        FirstFrom(a, pat, j - back);
        j := j + 1;
        label try:
        found := MatchAt(pat, j);
        CursorOnly@try();
      }
      FirstFrom(a, pat, j - back);
    }

    lemma SentinelIsZero()
      requires Valid()
      ensures base.Length == max + 1 && base[max] == 0
    {
    }

    /** `find` (ed.c:2538-2567): true exactly when the pattern occurs behind the cursor, which then moves
        just past its leftmost occurrence. */
    method Find(pat: seq<byte>) returns (found: bool)
      requires Valid() && LineOk() && direction == FORWARD && 0 !in pat
      modifies this`front, this`back, this`lastc, this`baseline, base
      ensures Valid() && LineOk() && Whole() == old(Whole()) && back - front == old(back - front)
      ensures var a := old(After()); var i := First(a, pat);
        && found == (i >= 0)
        && (found ==> i + |pat| <= |a| && Before() == old(Before()) + a[..i + |pat|] && After() == a[i + |pat|..])
        && (!found ==> Before() == old(Before()) && After() == a)
    {
      hide *;
      Parts();
      ghost var b, a, i := Before(), After(), First(After(), pat);
      found := Search(pat);
      CursorOnly();
      Parts();
      if found {
        label seen:
        FirstFits(a, pat);
        lastc := lastc - 1;
        StillValid@seen();
        CursorOnly@seen();
        Mover();
        Parts();
        assert |Before() + After()| == |b + a|;
        SplitAt(b + a[..i + |pat|], a[i + |pat|..], Before(), After());
      }
    }

    /** `setfront` (ed.c:2325-2330): the last characters before the cursor are deleted. */
    method SetFront(newfront: nat)
      requires Valid() && LineOk() && 1 <= newfront <= front
      modifies this`front, this`back, this`baseline, base
      ensures Valid() && LineOk() && front == newfront && back == old(back) && After() == old(After())
      ensures Before() == old(Before())[..newfront - 1] && newfront - 1 <= |old(Before())|
      ensures dst.Written() == old(dst.Written()) && src.Unread() == old(src.Unread())
    {
      hide *;
      Parts();
      ghost var b, a, line := Before(), After(), baseline;
      NotMoved(b, a, line, false);
      ghost var n: nat := 0;
      while front != newfront
        invariant Valid() && newfront <= front == old(front) - n && back == old(back)
        invariant MovedBackward(b, a, line, n, false, Before(), After(), baseline)
        decreases front - newfront
      {
        ghost var b1, a1, line1 := Before(), After(), baseline;
        StepBackward(false);
        Dropped(b1, a1, line1, 1, Before(), After(), baseline);
        Parts();
        BackwardAgain(b, a, line, n, false, b1, a1, line1, Before(), After(), baseline);
        n := n + 1;
      }
      FilesKeptHere();
      FilesSame();
      Parts();
      KeepBackward(dst.Written(), b, a, src.Unread(), line, n, false, Before(), After(), baseline);
      Dropped(b, a, line, n, Before(), After(), baseline);
    }

    /** `insert` (ed.c:2487-2493). */
    method Insert(chr: byte) returns (o: Outcome)
      requires Valid() && LineOk()
      modifies this`front, this`baseline, base
      ensures Valid() && LineOk() && After() == old(After())
      ensures if old(front) == back then o == Overflow && Before() == old(Before()) && front == old(front)
        else o == Fine && Before() == old(Before()) + [chr] && front == old(front) + 1
      ensures src.Valid() && dst.Valid() && dst.Written() == old(dst.Written()) && src.Unread() == old(src.Unread())
    {
      hide *;
      Parts();
      if front == back { return Overflow; }
      Store(chr);
      return Fine;
    }

    /** The replacement of command S goes in, as far as there is room (ed.c:3321-3325). */
    method InsertAll(rep: seq<byte>) returns (o: Outcome)
      requires Valid() && LineOk()
      modifies this`front, this`baseline, base
      ensures Valid() && LineOk() && After() == old(After())
      ensures var room := old(back - front);
        && 0 <= room && o == (if |rep| <= room then Fine else Overflow)
        && Before() == old(Before()) + rep[..Least(|rep|, room)] && back - front == room - Least(|rep|, room)
      ensures dst.Written() == old(dst.Written()) && src.Unread() == old(src.Unread())
    {
      hide *;
      Parts();
      ghost var b, room := Before(), back - front;
      LeastIs(|rep|, room);
      var mi := 0;
      assert b + rep[..0] == b;
      while mi < |rep|
        invariant Valid() && src.Valid() && dst.Valid() && LineOk() && After() == old(After())
        invariant dst.Written() == old(dst.Written()) && src.Unread() == old(src.Unread())
        invariant mi <= |rep| && mi <= room && Before() == b + rep[..mi] && back - front == room - mi
      {
        o := Insert(rep[mi]);
        if o == Overflow { return; }
        assert rep[..mi + 1] == rep[..mi] + [rep[mi]];
        mi := mi + 1;
      }
      o := Fine;
    }

    /** The body of the loop of command S (ed.c:3316-3325). */
    method SubstituteOne(pat: seq<byte>, rep: seq<byte>) returns (o: Outcome)
      requires Valid() && LineOk() && direction == FORWARD && 0 !in pat
      modifies this`front, this`back, this`lastc, this`baseline, base
      ensures Valid() && src.Valid() && dst.Valid() && LineOk() && front <= back
      ensures dst.Written() == old(dst.Written()) && src.Unread() == old(src.Unread())
      ensures var b, a, room := old(Before()), old(After()), old(back - front) + |pat|; var i := First(a, pat);
        if i < 0 then o == Overcount && Before() == b && After() == a
        else
          && i + |pat| <= |a| && After() == a[i + |pat|..] && 0 <= room
          && Before() == (b + a[..i + |pat|])[..|b| + i] + rep[..Least(|rep|, room)]
          && o == (if |rep| <= room then Fine else Overflow)
          && back - front == room - Least(|rep|, room)
    {
      hide *;
      Parts();
      ghost var b := Before();
      var found := Find(pat);
      Parts();
      FilesKeptHere();
      FilesSame();
      if !found { return Overcount; }
      SetFront(front - |pat|);
      Parts();
      o := InsertAll(rep);
      Parts();
    }

    /** Command S (ed.c:3312-3326) with both strings collected: `distance` times the leftmost occurrence
        behind the cursor is replaced and the cursor put after the replacement. */
    method Substitute(pat: seq<byte>, rep: seq<byte>) returns (o: Outcome)
      requires Valid() && LineOk() && (distance == 0 || direction == FORWARD) && 0 !in pat
      modifies this`front, this`back, this`lastc, this`distance, this`baseline, base
      ensures Valid() && LineOk() && dst.Written() == old(dst.Written()) && src.Unread() == old(src.Unread())
      ensures Edit(o, Before(), After()) ==
        Substituted(old(Before()), old(After()), pat, rep, old(distance), old(back - front))
    {
      hide *;
      Parts();
      Constants();
      ghost var goal := Substituted(Before(), After(), pat, rep, distance, back - front);
      while distance != 0
        invariant Valid() && src.Valid() && dst.Valid() && LineOk() && (distance == 0 || direction == FORWARD)
        invariant front <= back && goal == Substituted(Before(), After(), pat, rep, distance, back - front)
        invariant dst.Written() == old(dst.Written()) && src.Unread() == old(src.Unread())
        decreases distance
      {
        SubstitutedStep(Before(), After(), pat, rep, distance, back - front);
        Parts();
        SetDistance(distance - 1);
        ghost var room := back - front + |pat|;
        LeastIs(|rep|, room);
        o := SubstituteOne(pat, rep);
        if o != Fine { return; }
      }
      SubstitutedStep(Before(), After(), pat, rep, distance, back - front);
      return Fine;
    }

    // ------------------------------------------------------------ whole edits

    ghost function State(): (t: Texts)
      requires Valid()
      reads this, base, src, src.sbuf, dst, dst.dbuf
      ensures |t.before| == front - 1 && |t.after| == max - 1 - back
    {
      Texts(dst.Written(), Before(), After(), src.Unread())
    }

    lemma StateIs()
      requires Valid()
      ensures src.Valid() && dst.Valid() && 1 <= front <= back
      ensures State() == Texts(dst.Written(), Before(), After(), src.Unread())
      ensures Whole() == All(dst.Written(), Before(), After(), src.Unread())
      ensures back - front == max - 2 - |Before()| - |After()|
    {
      hide Lines, Concat, Text, All;
    }

    /** Command F (ed.c:3281-3285) with its string collected. */
    method FindTimes(pat: seq<byte>) returns (o: Outcome)
      requires Valid() && LineOk() && (distance == 0 || direction == FORWARD) && 0 !in pat
      modifies this`front, this`back, this`lastc, this`distance, this`baseline, base
      ensures Valid() && LineOk() && dst.Written() == old(dst.Written()) && src.Unread() == old(src.Unread())
      ensures Edit(o, Before(), After()) == Found(old(Before()), old(After()), pat, old(distance))
    {
      hide *;
      Parts();
      Constants();
      ghost var goal := Found(Before(), After(), pat, distance);
      while distance != 0
        invariant Valid() && src.Valid() && dst.Valid() && LineOk() && (distance == 0 || direction == FORWARD)
        invariant goal == Found(Before(), After(), pat, distance)
        invariant dst.Written() == old(dst.Written()) && src.Unread() == old(src.Unread())
        decreases distance
      {
        FoundStep(Before(), After(), pat, distance);
        Parts();
        SetDistance(distance - 1);
        label search:
        var found := Find(pat);
        Parts();
        FilesKeptHere@search();
        FilesSame@search();
        if !found { return Overcount; }
      }
      FoundStep(Before(), After(), pat, 0);
      return Fine;
    }

    /** `controlled` (ed.c:3156-3200), with `setlimits` going forward only. */
    method Controlled(c: Command)
      requires Valid() && LineOk() && direction == DirectionOf(c) && distance == c.count && Plain(c) && IsControlled(c)
      requires !Strays(|Before()|, c)
      modifies this`front, this`back, this`first, this`lastc, this`distance, this`direction, this`baseline, base
      ensures Valid() && LineOk() && State() == ControlledDid(old(State()), c)
    {
      hide Valid, LineOk, Before, After, Whole, State, All, Lines, LineEnd, Destination.Written, Source.Unread,
        Destination.Valid, Source.Valid;
      StateIs();
      ghost var t := State();
      if c.letter == LetterB {
        BeginBottom();
      } else if c.letter == LetterC {
        CharMove();
      } else if c.letter == LetterD {
        CharDelete();
      } else if c.letter == LetterK {
        LineDelete();
      } else {
        LineMove();
      }
      StateIs();
      Parts();
      FilesKeptHere();
      FilesSame();
      CursorIsAt(t, Before(), After());
    }

    /** `repeated` (ed.c:3254-3330). */
    method Repeated(c: Command) returns (o: Outcome)
      requires Valid() && LineOk() && direction == DirectionOf(c) && distance == c.count && Plain(c) && !IsControlled(c)
      requires c.count == 0 || c.direction == FORWARD
      modifies this`front, this`back, this`first, this`lastc, this`distance, this`direction, this`baseline, base,
        src, src.sbuf, dst, dst.dbuf
      ensures Valid() && LineOk() && (o, State()) == RepeatedDid(old(State()), c, max)
    {
      hide Valid, LineOk, Before, After, Whole, State, All, Lines, LineEnd, Destination.Written, Source.Unread,
        Destination.Valid, Source.Valid, Upto, UptoNeeded, Needed, Substituted, Found;
      StateIs();
      ghost var t := State();
      o := Fine;
      if c.letter == LetterA {
        o := Append();
      } else if c.letter == LetterF {
        o := FindTimes(c.pat);
      } else if c.letter == LetterS {
        o := Substitute(c.pat, c.rep);
      } else {
        WriteOut();
        StateIs();
        CursorIsAt(Texts(dst.Written(), [], Before() + After(), t.unread), Before(), After());
      }
      StateIs();
    }

    /** One round of the main loop (ed.c:3627-3715): any modelled command. */
    method Execute(c: Command) returns (o: Outcome)
      requires Valid() && LineOk() && Plain(c) && !Strays(|Before()|, c)
      modifies this`front, this`back, this`first, this`lastc, this`distance, this`direction, this`baseline, base,
        src, src.sbuf, dst, dst.dbuf
      ensures Valid() && LineOk() && (o, State()) == Did(old(State()), c, max)
    {
      hide *;
      StateIs();
      DidIs(State(), c, max);
      direction := if c.count == 0 then BACKWARD else c.direction;
      distance := c.count;
      StillValid();
      CursorOnly();
      FilesKeptHere();
      FilesSame();
      StateIs();
      if c.letter in {LetterB, LetterC, LetterD, LetterK, LetterL} {
        Controlled(c);
        o := Fine;
      } else if direction == FORWARD || distance == 0 {
        o := Repeated(c);
      } else {
        o := BadCommand;
      }
    }

    /** A whole edit: the commands, and an E. The destination is the text they lead to, to the byte, and its
        record count and last-record byte count give its length. */
    method Session(commands: seq<Command>) returns (strayed: bool, lrbc: nat)
      requires Valid() && LineOk() && forall c :: c in commands ==> Plain(c)
      modifies this`front, this`back, this`first, this`lastc, this`distance, this`direction, this`baseline, base,
        src, src.sbuf, dst, dst.dbuf
      ensures strayed == AnyStrays(old(State()), commands, max)
      ensures !strayed ==> lrbc < SECTSIZE && Holds(AllDid(old(State()), commands, max), dst.out, lrbc)
    {
      hide *;
      strayed, lrbc := false, 0;
      assert commands[0..] == commands;
      for i := 0 to |commands|
        invariant Valid() && LineOk()
        invariant AllDid(State(), commands[i..], max) == AllDid(old(State()), commands, max)
        invariant AnyStrays(State(), commands[i..], max) == AnyStrays(old(State()), commands, max)
      {
        var c := commands[i];
        assert c in commands;
        StateIs();
        AllDidStep(State(), commands, i, max);
        if Strays(front - 1, c) {
          strayed := true;
          return;
        }
        var _ := Execute(c);
      }
      assert commands[|commands|..] == [];
      AllDidEnds(State(), max);
      StateIs();
      lrbc := Terminate();
      HoldsIs(AllDid(old(State()), commands, max), dst.out, lrbc);
    }
  }

  /** The text as a whole: `w` written, `b` before the cursor, `a` after it, `u` not yet read. */
  ghost function All(w: seq<byte>, b: seq<byte>, a: seq<byte>, u: seq<byte>): seq<byte> { w + b + a + u }

  lemma OnlyFiles(w: seq<byte>, u: seq<byte>)
    ensures All(w, [], [], u) == w + u
  {
    assert w + [] == w;
  }

  /** `line` is, in sixteen bits, the number of the line that follows the texts `w` and `b`. */
  ghost predicate Numbered(w: seq<byte>, b: seq<byte>, line: nat) { line == (1 + Lines(w) + Lines(b)) % TWO16 }

  function NextLine(line: nat, x: byte): nat { (line + if x == LF then 1 else 0) % TWO16 }

  // ---------------------------------------------------------------- what the commands do

  function DirectionOf(c: Command): Direction { if c.count == 0 then BACKWARD else c.direction }

  predicate IsControlled(c: Command) { c.letter in {LetterB, LetterC, LetterD, LetterK, LetterL} }

  /** A command that is modelled: no lines backward, and no zero in a pattern. */
  predicate Plain(c: Command)
  {
    && c.count < TWO16 && 0 !in c.pat
    && (c.letter in {LetterK, LetterL} ==> c.direction == FORWARD && 0 < c.count)
  }

  /** C or D asked to go back by exactly one more than the characters there are. */
  predicate Strays(before: nat, c: Command)
  {
    c.letter in {LetterC, LetterD} && DirectionOf(c) == BACKWARD && c.count == before + 1
  }

  /** The cursor at character `n` of the buffer. */
  function CursorAt(t: Texts, n: nat): Texts
  {
    var text := t.before + t.after;
    var k := Least(n, |text|);
    t.(before := text[..k], after := text[k..])
  }

  /** What B, C, D, K and L do. */
  function ControlledDid(t: Texts, c: Command): Texts
  {
    var b, a, forward := t.before, t.after, DirectionOf(c) == FORWARD;
    match c.letter
    case LetterB => CursorAt(t, if forward then 0 else |b| + |a|)
    case LetterC => CursorAt(t, if forward then |b| + Least(c.count, |a|) else |b| - Least(c.count, |b|))
    case LetterD =>
      if forward then t.(after := a[Least(c.count, |a|)..]) else t.(before := b[..|b| - Least(c.count, |b|)])
    case LetterK => if c.count == 0 then t else t.(after := a[LineEnd(a, c.count)..])
    case _ => if c.count == 0 then t else CursorAt(t, |b| + LineEnd(a, c.count))
  }

  /** Characters that fit into the gap. */
  function Room(t: Texts, max: nat): nat
  {
    if 2 + |t.before| + |t.after| <= max then max - 2 - |t.before| - |t.after| else 0
  }

  /** What A, F, S and W do. */
  function RepeatedDid(t: Texts, c: Command, max: nat): (Outcome, Texts)
  {
    var text, u := t.before + t.after, t.unread;
    match c.letter
    case LetterA =>
      var want := (max - 1) / 2 - 1 - |text|;
      var k := if c.count == 0 then Upto(u, want) else LineEnd(u, c.count);
      var needed := if c.count == 0 then UptoNeeded(u, want) else Needed(u, c.count);
      if needed <= Room(t, max) then (Fine, t.(after := t.after + u[..k], unread := u[k..]))
      else
        var n := Least(Room(t, max), |u|);
        (Overflow, t.(before := text + u[..n], after := [], unread := u[n..]))
    case LetterF =>
      var e := Found(t.before, t.after, c.pat, c.count);
      (e.o, t.(before := e.before, after := e.after))
    case LetterS =>
      var e := Substituted(t.before, t.after, c.pat, c.rep, c.count, Room(t, max));
      (e.o, t.(before := e.before, after := e.after))
    case _ =>
      var k := if c.count == 0 then Upto(text, |text| - (max - 1) / 2) else LineEnd(text, c.count);
      var n := if k < |t.before| then |t.before| - k else 0;
      (Fine, CursorAt(Texts(t.written + text[..k], [], text[k..], u), n))
  }

  /** What a command does: how it ends, and where it leaves the text. */
  function Did(t: Texts, c: Command, max: nat): (Outcome, Texts)
  {
    if IsControlled(c) then (Fine, ControlledDid(t, c))
    else if c.count != 0 && c.direction == BACKWARD then (BadCommand, t)
    else RepeatedDid(t, c, max)
  }

  /** Where a sequence of commands leaves the text. */
  function AllDid(t: Texts, cs: seq<Command>, max: nat): Texts
    decreases |cs|
  {
    if |cs| == 0 then t else AllDid(Did(t, cs[0], max).1, cs[1..], max)
  }

  /** One of them strays. */
  predicate AnyStrays(t: Texts, cs: seq<Command>, max: nat)
    decreases |cs|
  {
    |cs| > 0 && (Strays(|t.before|, cs[0]) || AnyStrays(Did(t, cs[0], max).1, cs[1..], max))
  }

  /** The destination `out` is the whole of `t`, and padding. */
  ghost predicate Holds(t: Texts, out: seq<Sector>, lrbc: nat)
  {
    var all := All(t.written, t.before, t.after, t.unread);
    && ExactSize(|out|, lrbc) == |all| <= |Concat(out)|
    && Concat(out) == all + Padding(|Concat(out)| - |all|)
  }

  lemma HoldsIs(t: Texts, out: seq<Sector>, lrbc: nat)
    requires var all := All(t.written, t.before, t.after, t.unread);
      ExactSize(|out|, lrbc) == |all| <= |Concat(out)| && Concat(out) == all + Padding(|Concat(out)| - |all|)
    ensures Holds(t, out, lrbc)
  {
  }

  lemma DidIs(t: Texts, c: Command, max: nat)
    ensures DirectionOf(c) == if c.count == 0 then BACKWARD else c.direction
    ensures IsControlled(c) <==> c.letter in {LetterB, LetterC, LetterD, LetterK, LetterL}
    ensures Plain(c) ==> c.count < TWO16
    ensures Did(t, c, max) ==
      if IsControlled(c) then (Fine, ControlledDid(t, c))
      else if c.count != 0 && c.direction == BACKWARD then (BadCommand, t)
      else RepeatedDid(t, c, max)
  {
    hide ControlledDid, RepeatedDid;
  }

  lemma AllDidStep(t: Texts, cs: seq<Command>, i: nat, max: nat)
    requires i < |cs|
    ensures AllDid(t, cs[i..], max) == AllDid(Did(t, cs[i], max).1, cs[i + 1..], max)
    ensures AnyStrays(t, cs[i..], max)
      == (Strays(|t.before|, cs[i]) || AnyStrays(Did(t, cs[i], max).1, cs[i + 1..], max))
  {
    hide Did, Strays;
    assert cs[i..][0] == cs[i] && cs[i..][1..] == cs[i + 1..];
  }

  lemma AllDidEnds(t: Texts, max: nat)
    ensures AllDid(t, [], max) == t && !AnyStrays(t, [], max)
  {
  }

  /** Commands that only move text. */
  predicate Moves(c: Command) { c.letter !in {LetterD, LetterK, LetterS} }

  /** The text as a whole is the same. */
  ghost predicate Same(t: Texts, x: Texts)
  {
    All(x.written, x.before, x.after, x.unread) == All(t.written, t.before, t.after, t.unread)
  }

  lemma SameHere(t: Texts)
    ensures Same(t, t)
  {
  }

  lemma CursorSame(t: Texts, x: Texts, n: nat)
    ensures Same(t, x) ==> Same(t, CursorAt(x, n))
  {
    var y := CursorAt(x, n);
    assert y.before + y.after == x.before + x.after;
    assert x.written + x.before + x.after == x.written + (x.before + x.after);
    assert y.written + y.before + y.after == y.written + (y.before + y.after);
  }

  lemma ControlledKeeps(t: Texts, c: Command)
    requires Moves(c)
    ensures IsControlled(c) ==> Same(t, ControlledDid(t, c))
  {
    hide Same, CursorAt, LineEnd;
    SameHere(t);
    forall n: nat ensures Same(t, CursorAt(t, n)) { CursorSame(t, t, n); }
  }

  lemma RepeatedKeeps(t: Texts, c: Command, max: nat)
    requires Moves(c) && !IsControlled(c)
    ensures Same(t, RepeatedDid(t, c, max).1)
  {
    hide Upto, UptoNeeded, Needed, LineEnd, Found, Substituted, CursorAt, Same;
    var b, a, u, text := t.before, t.after, t.unread, t.before + t.after;
    FoundKeeps(b, a, c.pat, c.count);
    forall k: nat | k <= |text|
      ensures Same(t, Texts(t.written + text[..k], [], text[k..], u))
    {
      WrittenSame(t, k);
    }
    forall x: Texts, n: nat ensures Same(t, x) ==> Same(t, CursorAt(x, n)) { CursorSame(t, x, n); }
    forall k: nat | k <= |u|
      ensures Same(t, t.(after := a + u[..k], unread := u[k..]))
      ensures Same(t, t.(before := text + u[..k], after := [], unread := u[k..]))
    {
      ReadSame(t, k);
    }
    forall b': seq<byte>, a': seq<byte> | b' + a' == text ensures Same(t, t.(before := b', after := a')) {
      MovedSame(t, b', a');
    }
  }

  lemma WrittenSame(t: Texts, k: nat)
    ensures var text := t.before + t.after;
      k <= |text| ==> Same(t, Texts(t.written + text[..k], [], text[k..], t.unread))
  {
    var text := t.before + t.after;
    if k <= |text| {
      assert t.written + text[..k] + [] + text[k..] == t.written + (text[..k] + text[k..]);
      assert text[..k] + text[k..] == text;
      assert t.written + t.before + t.after == t.written + text;
    }
  }

  lemma ReadSame(t: Texts, k: nat)
    requires k <= |t.unread|
    ensures Same(t, t.(after := t.after + t.unread[..k], unread := t.unread[k..]))
    ensures Same(t, t.(before := t.before + t.after + t.unread[..k], after := [], unread := t.unread[k..]))
  {
    var u := t.unread;
    assert u == u[..k] + u[k..];
    assert t.written + t.before + (t.after + u[..k]) + u[k..] == t.written + t.before + t.after + (u[..k] + u[k..]);
    assert t.written + (t.before + t.after + u[..k]) + [] + u[k..]
      == t.written + t.before + t.after + (u[..k] + u[k..]);
  }

  lemma MovedSame(t: Texts, b: seq<byte>, a: seq<byte>)
    requires b + a == t.before + t.after
    ensures Same(t, t.(before := b, after := a))
  {
    assert t.written + b + a == t.written + (b + a);
    assert t.written + t.before + t.after == t.written + (t.before + t.after);
  }

  lemma {:induction false} FoundKeeps(b: seq<byte>, a: seq<byte>, p: seq<byte>, n: nat)
    ensures var e := Found(b, a, p, n); e.before + e.after == b + a
    decreases n
  {
    var i := First(a, p);
    if n > 0 && i >= 0 {
      FirstFits(a, p);
      FoundKeeps(b + a[..i + |p|], a[i + |p|..], p, n - 1);
      assert b + a[..i + |p|] + a[i + |p|..] == b + a;
    }
  }

  /** So an edit of such commands leaves the destination with exactly the text there was. */
  lemma {:induction false} MovesKeepText(t: Texts, cs: seq<Command>, max: nat)
    requires forall c :: c in cs ==> Moves(c)
    ensures Same(t, AllDid(t, cs, max))
    decreases |cs|
  {
    hide Did;
    if |cs| > 0 {
      DidIs(t, cs[0], max);
      SameHere(t);
      if IsControlled(cs[0]) {
        ControlledKeeps(t, cs[0]);
      } else {
        RepeatedKeeps(t, cs[0], max);
      }
      MovesKeepText(Did(t, cs[0], max).1, cs[1..], max);
    }
  }

  lemma CursorIsAt(t: Texts, b: seq<byte>, a: seq<byte>)
    ensures b + a == t.before + t.after ==> CursorAt(t, |b|) == t.(before := b, after := a)
  {
    assert (b + a)[..|b|] == b && (b + a)[|b|..] == a;
  }

  /** `n` searches for `p`. */
  function Found(b: seq<byte>, a: seq<byte>, p: seq<byte>, n: nat): Edited
    decreases n
  {
    var i := First(a, p);
    if n == 0 then Edit(Fine, b, a)
    else if i < 0 then Edit(Overcount, b, a)
    else
      FirstFits(a, p);
      Found(b + a[..i + |p|], a[i + |p|..], p, n - 1)
  }

  lemma FoundStep(b: seq<byte>, a: seq<byte>, p: seq<byte>, n: nat)
    ensures n == 0 ==> Found(b, a, p, n) == Edit(Fine, b, a)
    ensures n > 0 && First(a, p) < 0 ==> Found(b, a, p, n) == Edit(Overcount, b, a)
    ensures var i := First(a, p); n > 0 && i >= 0 ==>
      i + |p| <= |a| && Found(b, a, p, n) == Found(b + a[..i + |p|], a[i + |p|..], p, n - 1)
  {
    hide First;
    FirstFits(a, p);
  }

  /** `n` characters have gone from behind the gap to before it (or, without `keep`, away). */
  ghost predicate MovedForward(b: seq<byte>, a: seq<byte>, line: nat, n: nat, keep: bool,
                               b': seq<byte>, a': seq<byte>, line': nat)
  {
    && n <= |a| && a' == a[n..] && b' == b + (if keep then a[..n] else [])
    && line' == if keep then (line + Lines(a[..n])) % TWO16 else line
  }

  /** The last `n` characters before the gap have gone behind it (or away); lines are uncounted either
      way. */
  ghost predicate MovedBackward(b: seq<byte>, a: seq<byte>, line: nat, n: nat, keep: bool,
                                b': seq<byte>, a': seq<byte>, line': nat)
  {
    && n <= |b| && b' == b[..|b| - n] && a' == (if keep then b[|b| - n..] else []) + a
    && line' < TWO16 && (line' + Lines(b[|b| - n..])) % TWO16 == line
  }

  lemma NextLineIs(line: nat, x: byte)
    ensures NextLine(line, x) == (line + if x == LF then 1 else 0) % TWO16
    ensures line < TWO16 && x != LF ==> NextLine(line, x) == line
  {
  }

  function LastLine(line: nat, x: byte): nat { if x == LF then (line + TWO16 - 1) % TWO16 else line }

  lemma LastLineIs(line: nat, x: byte)
    ensures LastLine(line, x) == if x == LF then (line + TWO16 - 1) % TWO16 else line
  {
  }

  lemma ForwardOne(b: seq<byte>, a: seq<byte>, line: nat, keep: bool)
    requires |a| > 0 && line < TWO16
    ensures keep ==> MovedForward(b, a, line, 1, true, b + [a[0]], a[1..], NextLine(line, a[0]))
    ensures !keep ==> MovedForward(b, a, line, 1, false, b, a[1..], line)
  {
    assert a[..1] == [a[0]] && b + [] == b;
    LinesOne(a[0]);
  }

  lemma BackwardOne(b: seq<byte>, a: seq<byte>, line: nat, keep: bool)
    requires |b| > 0 && line < TWO16
    ensures keep ==> MovedBackward(b, a, line, 1, true, b[..|b| - 1], [b[|b| - 1]] + a, LastLine(line, b[|b| - 1]))
    ensures !keep ==> MovedBackward(b, a, line, 1, false, b[..|b| - 1], a, LastLine(line, b[|b| - 1]))
  {
    assert b[|b| - 1..] == [b[|b| - 1]] && [] + a == a;
    LinesOne(b[|b| - 1]);
  }

  lemma NotMoved(b: seq<byte>, a: seq<byte>, line: nat, keep: bool)
    ensures line < TWO16 ==> MovedForward(b, a, line, 0, keep, b, a, line)
    ensures line < TWO16 ==> MovedBackward(b, a, line, 0, keep, b, a, line)
  {
    assert b[|b|..] == [] && b[..|b|] == b && a[0..] == a && [] + a == a && b + [] == b && a[..0] == [];
  }

  lemma ForwardAgain(b: seq<byte>, a: seq<byte>, line: nat, n: nat, keep: bool,
                     b1: seq<byte>, a1: seq<byte>, line1: nat, b2: seq<byte>, a2: seq<byte>, line2: nat)
    requires MovedForward(b, a, line, n, keep, b1, a1, line1) && MovedForward(b1, a1, line1, 1, keep, b2, a2, line2)
    ensures MovedForward(b, a, line, n + 1, keep, b2, a2, line2)
  {
    assert a[n..][..1] == a[n..n + 1] && a[n..][1..] == a[n + 1..] && a[..n + 1] == a[..n] + a[n..n + 1];
    LinesSum(a[..n], a[n..n + 1]);
    AddTwice(line, Lines(a[..n]), Lines(a[n..n + 1]));
  }

  lemma AddTwice(x: nat, y: nat, z: nat)
    ensures ((x + y) % TWO16 + z) % TWO16 == (x + (y + z)) % TWO16
  {
  }

  lemma BackwardAgain(b: seq<byte>, a: seq<byte>, line: nat, n: nat, keep: bool,
                      b1: seq<byte>, a1: seq<byte>, line1: nat, b2: seq<byte>, a2: seq<byte>, line2: nat)
    requires MovedBackward(b, a, line, n, keep, b1, a1, line1) && MovedBackward(b1, a1, line1, 1, keep, b2, a2, line2)
    ensures MovedBackward(b, a, line, n + 1, keep, b2, a2, line2)
  {
    var m := |b| - n;
    assert b[..m][m - 1..] == b[m - 1..m] && b[..m][..m - 1] == b[..m - 1] && b[m - 1..] == b[m - 1..m] + b[m..];
    LinesSum(b[m - 1..m], b[m..]);
    AddTwice(line2, Lines(b[m - 1..m]), Lines(b[m..]));
  }

  lemma KeepForward(w: seq<byte>, b: seq<byte>, a: seq<byte>, u: seq<byte>, line: nat, n: nat, keep: bool,
                    b': seq<byte>, a': seq<byte>, line': nat)
    requires MovedForward(b, a, line, n, keep, b', a', line') && Numbered(w, b, line)
    ensures Numbered(w, b', line')
    ensures keep ==> b' + a' == b + a && All(w, b', a', u) == All(w, b, a, u)
  {
    hide Lines;
    assert a == a[..n] + a[n..];
    LinesSum(b, a[..n]);
    AddTwice(1 + Lines(w) + Lines(b), 0, Lines(a[..n]));
    if keep { assert w + b' + a' == w + (b' + a') && w + b + a == w + (b + a); }
    if !keep { assert b' == b; }
  }

  lemma KeepBackward(w: seq<byte>, b: seq<byte>, a: seq<byte>, u: seq<byte>, line: nat, n: nat, keep: bool,
                     b': seq<byte>, a': seq<byte>, line': nat)
    requires MovedBackward(b, a, line, n, keep, b', a', line') && Numbered(w, b, line)
    ensures Numbered(w, b', line')
    ensures keep ==> b' + a' == b + a && All(w, b', a', u) == All(w, b, a, u)
  {
    hide Lines;
    assert b == b[..|b| - n] + b[|b| - n..];
    LinesSum(b[..|b| - n], b[|b| - n..]);
    if keep { assert w + b' + a' == w + (b' + a') && w + b + a == w + (b + a); }
  }

  function Least(x: nat, y: nat): nat { if x < y then x else y }

  lemma LeastIs(x: nat, y: nat)
    ensures Least(x, y) == if x < y then x else y
  {
  }

  lemma Dropped(b: seq<byte>, a: seq<byte>, line: nat, n: nat, b': seq<byte>, a': seq<byte>, line': nat)
    ensures MovedForward(b, a, line, n, false, b', a', line') ==> n <= |a| && b' == b && a' == a[n..]
    ensures MovedBackward(b, a, line, n, false, b', a', line') ==> n <= |b| && a' == a && b' == b[..|b| - n]
  {
    hide Lines;
    assert b + [] == b && [] + a == a;
  }

  /** Characters of `a` up to and including its `n`-th line feed, or all of them. */
  function LineEnd(a: seq<byte>, n: nat): (k: nat)
    requires 1 <= n
    ensures k <= |a|
    decreases |a|
  {
    if |a| == 0 then 0
    else if a[0] != LF then 1 + LineEnd(a[1..], n)
    else if n == 1 then 1
    else 1 + LineEnd(a[1..], n - 1)
  }

  lemma LineEndStep(a: seq<byte>, i: nat, n: nat)
    requires i <= |a| && 1 <= n
    ensures i == |a| ==> LineEnd(a[i..], n) == 0
    ensures i < |a| && a[i] != LF ==> LineEnd(a[i..], n) == 1 + LineEnd(a[i + 1..], n)
    ensures i < |a| && a[i] == LF && n == 1 ==> LineEnd(a[i..], n) == 1
    ensures i < |a| && a[i] == LF && n > 1 ==> LineEnd(a[i..], n) == 1 + LineEnd(a[i + 1..], n - 1)
  {
    if i < |a| { assert a[i..][0] == a[i] && a[i..][1..] == a[i + 1..]; }
  }

  /** What passing over `n` lines passes over: `n` line feeds, or all that are left; and it stops just
      behind one, or at the end. */
  lemma {:induction false} LineEndIsLines(a: seq<byte>, n: nat)
    requires 1 <= n
    ensures var k := LineEnd(a, n);
      && Lines(a[..k]) == Least(n, Lines(a)) && (k == |a| || a[k - 1] == LF)
    decreases |a|
  {
    var k := LineEnd(a, n);
    if |a| > 0 {
      var m := if a[0] == LF then n - 1 else n;
      assert a == [a[0]] + a[1..];
      LinesSum([a[0]], a[1..]);
      LinesOne(a[0]);
      if m == 0 {
        assert a[..1] == [a[0]];
      } else {
        LineEndIsLines(a[1..], m);
        assert a[..k] == [a[0]] + a[1..][..k - 1];
        LinesSum([a[0]], a[1..][..k - 1]);
      }
    } else {
      assert a[..0] == a;
    }
  }

  lemma OneMore(w: seq<byte>, b: seq<byte>, line: nat, x: byte)
    requires Numbered(w, b, line)
    ensures Numbered(w, b + [x], NextLine(line, x))
  {
    hide Lines;
    LinesSum(b, [x]);
    LinesOne(x);
    AddTwice(1 + Lines(w) + Lines(b), 0, Lines([x]));
  }

  /** Source characters asked for to get `n` lines: the lines, and the end-of-file character if it
      comes first. */
  function Needed(u: seq<byte>, n: nat): (k: nat)
    requires 1 <= n
    ensures 1 <= k
    decreases |u|
  {
    if |u| == 0 then 1
    else if u[0] != LF then 1 + Needed(u[1..], n)
    else if n == 1 then 1
    else 1 + Needed(u[1..], n - 1)
  }

  lemma NeededStep(a: seq<byte>, i: nat, n: nat)
    requires i <= |a| && 1 <= n
    ensures 1 <= Needed(a[i..], n)
    ensures i == |a| ==> Needed(a[i..], n) == 1
    ensures i < |a| && a[i] != LF ==> Needed(a[i..], n) == 1 + Needed(a[i + 1..], n)
    ensures i < |a| && a[i] == LF && n == 1 ==> Needed(a[i..], n) == 1
    ensures i < |a| && a[i] == LF && n > 1 ==> Needed(a[i..], n) == 1 + Needed(a[i + 1..], n - 1)
  {
    if i < |a| { assert a[i..][0] == a[i] && a[i..][1..] == a[i + 1..]; }
  }

  /** One character more is asked for exactly when the lines run out. */
  lemma {:induction false} NeededIs(u: seq<byte>, n: nat)
    requires 1 <= n
    ensures Needed(u, n) == LineEnd(u, n) + if n <= Lines(u) then 0 else 1
    decreases |u|
  {
    if |u| > 0 {
      assert u == [u[0]] + u[1..];
      LinesSum([u[0]], u[1..]);
      LinesOne(u[0]);
      if u[0] != LF { NeededIs(u[1..], n); } else if n > 1 { NeededIs(u[1..], n - 1); }
    }
  }

  lemma Constants()
    ensures TWO16 == 0x1_0000 && HEAP_LIMIT == 0xF000 && ALL == 0xffff
  {
  }

  /** `k` characters of the source `u` were appended to `b`; or, `needed` being more than the `room` there
      was, as many as it holds. */
  ghost predicate Appended(b: seq<byte>, u: seq<byte>, room: int, k: nat, needed: nat, o: Outcome, b': seq<byte>,
                           u': seq<byte>)
  {
    if needed <= room then o == Fine && k <= |u| && b' == b + u[..k] && u' == u[k..]
    else o == Overflow && 0 <= room <= |u| && b' == b + u[..room] && u' == u[room..]
  }

  lemma AppendedIs(b: seq<byte>, u: seq<byte>, room: int, k: nat, needed: nat, o: Outcome, b': seq<byte>, u': seq<byte>)
    requires if needed <= room then o == Fine && k <= |u| && b' == b + u[..k] && u' == u[k..]
      else o == Overflow && 0 <= room <= |u| && b' == b + u[..room] && u' == u[room..]
    ensures Appended(b, u, room, k, needed, o, b', u')
  {
  }

  /** `k` characters of `u` have been read into the buffer. */
  ghost predicate PartRead(b: seq<byte>, u: seq<byte>, k: nat, b': seq<byte>, u': seq<byte>) {
    k <= |u| && b' == b + u[..k] && u' == u[k..]
  }

  lemma NothingRead(b: seq<byte>, u: seq<byte>)
    ensures PartRead(b, u, 0, b, u)
  {
    assert b + u[..0] == b && u[0..] == u;
  }

  lemma ReadMore(b: seq<byte>, u: seq<byte>, k: nat, room: int, b1: seq<byte>, u1: seq<byte>, l: nat, needed: nat,
                 o: Outcome,
                 b2: seq<byte>, u2: seq<byte>)
    requires PartRead(b, u, k, b1, u1) && Appended(b1, u1, room - k, l, needed, o, b2, u2)
    ensures needed <= room - k ==>
      && o == Fine && PartRead(b, u, k + l, b2, u2) && l <= |u1| && u2 == u1[l..] && |b2| == |b1| + l
    ensures needed > room - k ==>
      o == Overflow && forall m: nat, n: nat :: n > room ==> Appended(b, u, room, m, n, o, b2, u2)
  {
    var j := if needed <= room - k then l else room - k;
    assert u[k..][..j] == u[k .. k + j] && u[..k] + u[k .. k + j] == u[..k + j] && u[k..][j..] == u[k + j..];
    assert b + u[..k] + u[k .. k + j] == b + (u[..k] + u[k .. k + j]);
  }

  lemma AllRead(b: seq<byte>, u: seq<byte>, k: nat, room: int, needed: nat, b': seq<byte>, u': seq<byte>)
    requires PartRead(b, u, k, b', u') && needed <= room
    ensures Appended(b, u, room, k, needed, Fine, b', u')
  {
  }

  /** Passing over `n` lines is passing over one and then over the rest. */
  lemma {:induction false} FirstLine(u: seq<byte>, n: nat)
    requires 1 <= n
    ensures var k := LineEnd(u, 1);
      && k <= |u| && k <= Needed(u, 1) <= Needed(u, n)
      && (k == Needed(u, 1) && n > 1 ==>
           LineEnd(u, n) == k + LineEnd(u[k..], n - 1) && Needed(u, n) == k + Needed(u[k..], n - 1))
      && (k < Needed(u, 1) || n == 1 ==> LineEnd(u, n) == k && Needed(u, n) == Needed(u, 1))
    decreases |u|
  {
    if |u| > 0 {
      var k := LineEnd(u, 1);
      if u[0] != LF {
        FirstLine(u[1..], n);
        assert u[1..][k - 1..] == u[k..];
      }
    }
  }

  /** Characters read while fewer than `want` are there: whole lines. */
  function Upto(u: seq<byte>, want: int): (k: nat)
    ensures k <= |u|
    decreases |u|
  {
    if want <= 0 || |u| == 0 then 0
    else (LineEndSome(u, 1); var k := LineEnd(u, 1); k + Upto(u[k..], want - k))
  }

  /** Source characters asked for on the way. */
  function UptoNeeded(u: seq<byte>, want: int): (k: nat)
    decreases |u|
  {
    if want <= 0 then 0
    else if |u| == 0 || LineEnd(u, 1) < Needed(u, 1) then Needed(u, 1)
    else (LineEndSome(u, 1); var k := LineEnd(u, 1); k + UptoNeeded(u[k..], want - k))
  }

  lemma LineEndSome(u: seq<byte>, n: nat)
    requires 1 <= n && |u| > 0
    ensures 1 <= LineEnd(u, n) <= |u|
  {
  }

  lemma FirstUpto(u: seq<byte>, want: int)
    ensures want <= 0 ==> Upto(u, want) == 0 && UptoNeeded(u, want) == 0
    ensures want > 0 ==> var k := LineEnd(u, 1);
      && k <= |u| && k <= Needed(u, 1) <= UptoNeeded(u, want) && (k == Needed(u, 1) ==> 1 <= k)
      && (k == Needed(u, 1) ==>
           Upto(u, want) == k + Upto(u[k..], want - k) && UptoNeeded(u, want) == k + UptoNeeded(u[k..], want - k))
      && (k < Needed(u, 1) ==> Upto(u, want) == k && UptoNeeded(u, want) == Needed(u, 1))
  {
    FirstLine(u, 1);
    NeededIs(u, 1);
    LineEndIsLines(u, 1);
    if want > 0 && |u| > 0 {
      LineEndSome(u, 1);
    }
  }

  /** `apphalf` with `k` characters read, `u1` to come and at most `d` lines to go. */
  ghost predicate HalfLeft(u: seq<byte>, want: int, room: int, k: nat, u1: seq<byte>, d: nat) {
    if d == 0 then k == Upto(u, want) && UptoNeeded(u, want) <= room
    else
      && d <= 0xffff <= k + d && Upto(u, want) == k + Upto(u1, want - k)
      && UptoNeeded(u, want) == k + UptoNeeded(u1, want - k)
  }

  lemma HalfStarts(u: seq<byte>, want: int, room: int)
    ensures HalfLeft(u, want, room, 0, u, 0xffff)
  {
    hide *;
    HalfLeftIs(u, want, room, 0, u, 0xffff);
  }

  lemma HalfLeftIs(u: seq<byte>, want: int, room: int, k: nat, u1: seq<byte>, d: nat)
    ensures HalfLeft(u, want, room, k, u1, d) ==
      if d == 0 then k == Upto(u, want) && UptoNeeded(u, want) <= room
      else
        && d <= 0xffff <= k + d && Upto(u, want) == k + Upto(u1, want - k)
        && UptoNeeded(u, want) == k + UptoNeeded(u1, want - k)
  {
    hide Upto, UptoNeeded;
  }

  lemma HalfStep(u: seq<byte>, want: int, room: int, k: nat, u1: seq<byte>, d: nat)
    requires HalfLeft(u, want, room, k, u1, d) && 0 < d && 0 <= room - k
    ensures d <= 0xffff
    ensures want <= k ==> HalfLeft(u, want, room, k, u1, 0)
    ensures var l, needed := LineEnd(u1, 1), Needed(u1, 1);
      && l <= |u1|
      && (k < want && needed > room - k ==> UptoNeeded(u, want) > room)
      && (k < want && needed <= room - k && k + l < 0xffff ==>
        HalfLeft(u, want, room, k + l, u1[l..], if l == needed then d - 1 else 0))
  {
    hide *;
    FirstUpto(u1, want - k);
    FirstLine(u1, 1);
    HalfLeftIs(u, want, room, k, u1, d);
    HalfLeftIs(u, want, room, k, u1, 0);
    var l := LineEnd(u1, 1);
    HalfLeftIs(u, want, room, k + l, u1[l..], if l == Needed(u1, 1) then d - 1 else 0);
  }

  lemma HalfDone(u: seq<byte>, want: int, room: int, k: nat, u1: seq<byte>)
    requires HalfLeft(u, want, room, k, u1, 0)
    ensures k == Upto(u, want) && UptoNeeded(u, want) <= room
  {
  }

  /** Reading stops behind the first line that brings the text to `want` characters, or at the end. */
  lemma {:induction false} UptoIsFirst(u: seq<byte>, want: int)
    ensures var k := Upto(u, want);
      && (want <= k || k == |u|) && (k == 0 || k == |u| || u[k - 1] == LF)
      && (forall i :: 0 <= i < k - 1 && u[i] == LF ==> i + 1 < want)
    decreases |u|
  {
    hide *;
    UptoStep(u, want);
    if want > 0 && |u| > 0 {
      var l := LineEnd(u, 1);
      var rest := u[l..];
      UptoIsFirst(rest, want - l);
      var k := Upto(u, want);
      forall i | 0 <= i < k - 1 && u[i] == LF
        ensures i + 1 < want
      {
        if i >= l { assert rest[i - l] == u[i]; } else { FirstFeed(u, i); }
      }
      if l < k { assert rest[k - l - 1] == u[k - 1]; }
    }
  }

  lemma UptoStep(u: seq<byte>, want: int)
    ensures want <= 0 || |u| == 0 ==> Upto(u, want) == 0
    ensures var l := LineEnd(u, 1); want > 0 && |u| > 0 ==>
      && 1 <= l <= |u| && (l == |u| || u[l - 1] == LF)
      && Upto(u, want) == l + Upto(u[l..], want - l) && Upto(u[l..], want - l) <= |u| - l
      && (want <= l ==> Upto(u[l..], want - l) == 0)
  {
    LineEndIsLines(u, 1);
    if want > 0 && |u| > 0 { LineEndSome(u, 1); }
  }

  lemma {:induction false} FirstFeed(u: seq<byte>, i: nat)
    requires i < |u| && u[i] == LF
    ensures LineEnd(u, 1) <= i + 1
    decreases |u|
  {
    if u[0] != LF { FirstFeed(u[1..], i - 1); }
  }

  lemma AppendedMeans(w: seq<byte>, b: seq<byte>, a: seq<byte>, u: seq<byte>, room: int, k: nat, needed: nat,
                      o: Outcome,
                      b': seq<byte>, a': seq<byte>, u': seq<byte>)
    requires Appended(b + a, u, room, k, needed, o, b', u') && a' == []
    ensures (o == Fine) == (needed <= room)
    ensures (o != Fine ==> o == Overflow && 0 <= room <= |u| && b' == b + a + u[..room] && u' == u[room..])
    ensures o == Fine ==> k <= |u| && b' == b + (a + u[..k]) && u' == u[k..]
    ensures All(w, b', a', u') == All(w, b, a, u)
  {
    var j := if needed <= room then k else room;
    assert u == u[..j] + u[j..];
    assert w + b' + a' + u' == w + b + a + (u[..j] + u[j..]);
  }

  lemma SplitAt(b: seq<byte>, a: seq<byte>, b': seq<byte>, a': seq<byte>)
    requires b' + a' == b + a && |b'| == |b|
    ensures b' == b && a' == a
  {
    assert (b' + a')[..|b|] == b' && (b + a)[..|b|] == b && (b' + a')[|b|..] == a' && (b + a)[|b|..] == a;
  }

  lemma OneWritten(w: seq<byte>, line: nat, x: byte)
    requires Numbered(w, [], line)
    ensures Numbered(w + [x], [], NextLine(line, x))
  {
    hide Lines;
    LinesSum(w, [x]);
    LinesOne(x);
    AddTwice(1 + Lines(w) + Lines([]), 0, Lines([x]));
  }

  lemma OneRead(b: seq<byte>, u: seq<byte>, k: nat, b1: seq<byte>, u1: seq<byte>, b2: seq<byte>, u2: seq<byte>)
    requires PartRead(b, u, k, b1, u1) && |u1| > 0 && b2 == b1 + [u1[0]] && u2 == u1[1..]
    ensures k < |u| && u1[0] == u[k] && u2 == u[k + 1..] && PartRead(b, u, k + 1, b2, u2)
  {
    assert u[..k + 1] == u[..k] + [u[k]];
  }

  lemma MoreRead(b: seq<byte>, u: seq<byte>, k: nat, b1: seq<byte>, u1: seq<byte>, l: nat, b2: seq<byte>, u2: seq<byte>)
    requires PartRead(b, u, k, b1, u1) && PartRead(b1, u1, l, b2, u2)
    ensures PartRead(b, u, k + l, b2, u2) && u2 == u1[l..] && l + |u2| == |u1|
  {
    assert u[k..][..l] == u[k .. k + l] && u[..k] + u[k .. k + l] == u[..k + l] && u[k..][l..] == u[k + l..];
    assert b + u[..k] + u[k .. k + l] == b + (u[..k] + u[k .. k + l]);
  }

  lemma NeededBound(u: seq<byte>)
    ensures Needed(u, 1) <= |u| + 1
  {
    NeededIs(u, 1);
  }

  lemma WrittenMeans(w: seq<byte>, b: seq<byte>, a: seq<byte>, text: seq<byte>, k: nat, w': seq<byte>, rest: seq<byte>,
                     b': seq<byte>, a': seq<byte>, u: seq<byte>)
    requires PartRead(w, text, k, w', rest) && b' + a' == rest && text == b + a
    ensures k <= |text| && w' == w + text[..k] && b' + a' == text[k..] && All(w', b', a', u) == All(w, b, a, u)
  {
    assert text == text[..k] + text[k..];
    assert w + text[..k] + text[k..] == w + (text[..k] + text[k..]);
    assert w' + b' + a' == w' + (b' + a') && w + b + a == w + (b + a);
  }

  /** More lines than there are characters are all lines. */
  lemma {:induction false} AllLines(a: seq<byte>, n: nat)
    requires |a| < n
    ensures LineEnd(a, n) == |a|
    decreases |a|
  {
    if |a| > 0 { AllLines(a[1..], if a[0] == LF then n - 1 else n); }
  }

  /** `p` stands at place `i` of `a`; there must be text at `i` even if `p` is empty. */
  predicate OccursAt(a: seq<byte>, p: seq<byte>, i: nat) {
    i < |a| && i + |p| <= |a| && a[i..i + |p|] == p
  }

  /** Where `p` first occurs in `a`, or -1. */
  function First(a: seq<byte>, p: seq<byte>): (i: int)
    ensures -1 <= i
    decreases |a|
  {
    if |a| == 0 then -1
    else if OccursAt(a, p, 0) then 0
    else var r := First(a[1..], p); if r < 0 then -1 else r + 1
  }

  lemma {:induction false} FirstIsLeast(a: seq<byte>, p: seq<byte>)
    ensures First(a, p) < 0 <==> forall j: nat :: !OccursAt(a, p, j)
    ensures First(a, p) >= 0 ==> OccursAt(a, p, First(a, p)) && forall j: nat :: j < First(a, p) ==> !OccursAt(a, p, j)
    decreases |a|
  {
    hide OccursAt;
    if |a| > 0 {
      var rest := a[1..];
      FirstIsLeast(rest, p);
      forall j: nat | 0 < j
        ensures OccursAt(a, p, j) == OccursAt(rest, p, j - 1)
      {
        OccursShift(a, p, j);
      }
      var r := First(rest, p);
      if r >= 0 { OccursShift(a, p, r + 1); }
      forall k: nat | OccursAt(rest, p, k)
        ensures OccursAt(a, p, k + 1)
      {
        OccursShift(a, p, k + 1);
      }
    } else {
      forall j: nat ensures !OccursAt(a, p, j) { OccursIs(a, p, j); }
    }
  }

  lemma OccursShift(a: seq<byte>, p: seq<byte>, j: nat)
    requires 0 < j && |a| > 0
    ensures OccursAt(a, p, j) == OccursAt(a[1..], p, j - 1)
  {
    if j + |p| <= |a| { assert a[1..][j - 1 .. j - 1 + |p|] == a[j .. j + |p|]; }
  }

  lemma FirstFits(a: seq<byte>, p: seq<byte>)
    ensures First(a, p) >= 0 ==> First(a, p) < |a| && First(a, p) + |p| <= |a|
  {
    FirstIsLeast(a, p);
  }

  lemma FirstFrom(a: seq<byte>, p: seq<byte>, i: nat)
    requires i <= |a|
    ensures a[0..] == a
    ensures i == |a| ==> First(a[i..], p) == -1
    ensures i < |a| && OccursAt(a, p, i) ==> First(a[i..], p) == 0
    ensures i < |a| && !OccursAt(a, p, i) ==>
      First(a[i..], p) == if First(a[i + 1..], p) < 0 then -1 else First(a[i + 1..], p) + 1
    ensures First(a[i..], p) >= -1
  {
    if i < |a| {
      assert a[i..][1..] == a[i + 1..];
      if i + |p| <= |a| { assert a[i..][0..|p|] == a[i..i + |p|]; }
    }
  }

  lemma OccursIs(a: seq<byte>, p: seq<byte>, i: nat)
    ensures OccursAt(a, p, i) == (i < |a| && i + |p| <= |a| && a[i..i + |p|] == p)
  {
  }

  /** The first `k` characters of `p` stand at place `i` of `a`. */
  predicate Matches(a: seq<byte>, p: seq<byte>, i: nat, k: nat) {
    k <= |p| && i + k <= |a| && a[i..i + k] == p[..k]
  }

  lemma MatchMore(a: seq<byte>, p: seq<byte>, i: nat, k: nat)
    ensures i <= |a| ==> Matches(a, p, i, 0)
    ensures i < |a| && Matches(a, p, i, k) ==>
      && i + k <= |a|
      && (k == |p| ==> OccursAt(a, p, i))
      && (k < |p| && (i + k == |a| || a[i + k] != p[k]) ==> !OccursAt(a, p, i))
      && (k < |p| && i + k < |a| && a[i + k] == p[k] ==> Matches(a, p, i, k + 1))
  {
    if Matches(a, p, i, k) && k < |p| && i + k < |a| && a[i + k] == p[k] {
      assert a[i..i + k + 1] == a[i..i + k] + [a[i + k]] && p[..k + 1] == p[..k] + [p[k]];
    }
    if k < |p| && i + k < |a| && i + |p| <= |a| && a[i + k] != p[k] {
      assert a[i..i + |p|][k] != p[k];
    }
    if k == |p| { assert p[..k] == p; }
  }

  datatype Edited = Edit(o: Outcome, before: seq<byte>, after: seq<byte>)

  /** `n` replacements of `p` by `r`, with `gap` characters of room to begin with. */
  function Substituted(b: seq<byte>, a: seq<byte>, p: seq<byte>, r: seq<byte>, n: nat, gap: nat): Edited
    decreases n
  {
    var i := First(a, p);
    if n == 0 then Edit(Fine, b, a)
    else if i < 0 then Edit(Overcount, b, a)
    else
      FirstFits(a, p);
      var rest, room := a[i + |p|..], gap + |p|;
      if room < |r| then Edit(Overflow, b + a[..i] + r[..room], rest)
      else Substituted(b + a[..i] + r, rest, p, r, n - 1, room - |r|)
  }

  lemma SubstitutedStep(b: seq<byte>, a: seq<byte>, p: seq<byte>, r: seq<byte>, n: nat, gap: nat)
    ensures n == 0 ==> Substituted(b, a, p, r, n, gap) == Edit(Fine, b, a)
    ensures n > 0 && First(a, p) < 0 ==> Substituted(b, a, p, r, n, gap) == Edit(Overcount, b, a)
    ensures var i := First(a, p); n > 0 && i >= 0 ==>
      && i + |p| <= |a|
      && var b1 := (b + a[..i + |p|])[..|b| + i];
      && b1 == b + a[..i]
      && (gap + |p| < |r| ==>
           Substituted(b, a, p, r, n, gap) == Edit(Overflow, b1 + r[..Least(|r|, gap + |p|)], a[i + |p|..]))
      && (gap + |p| >= |r| ==>
        Substituted(b, a, p, r, n, gap) == Substituted(b1 + r[..Least(|r|, gap + |p|)], a[i + |p|..], p, r, n - 1,
          gap + |p| - Least(|r|, gap + |p|)))
  {
    hide First;
    FirstFits(a, p);
    var i := First(a, p);
    if i >= 0 && n > 0 {
      assert (b + a[..i + |p|])[..|b| + i] == b + a[..i];
      assert r[..|r|] == r;
    }
  }

  /** Pieces end to end, with `sep` between them. */
  function Join(pieces: seq<seq<byte>>, sep: seq<byte>): seq<byte>
    requires |pieces| > 0
  {
    if |pieces| == 1 then pieces[0] else pieces[0] + sep + Join(pieces[1..], sep)
  }

  /** `a` is `pieces` with `p` between them, each `p` the leftmost in what is left of `a` there. */
  ghost predicate Split(a: seq<byte>, p: seq<byte>, pieces: seq<seq<byte>>)
    requires |pieces| > 0
    decreases |pieces|
  {
    && a == Join(pieces, p)
    && (|pieces| > 1 ==> First(a, p) == |pieces[0]| && Split(Join(pieces[1..], p), p, pieces[1..]))
  }

  /** A substitution that succeeds replaces `n` non-overlapping occurrences, each the leftmost in what
      comes after the last one. */
  lemma {:induction false} SubstituteIsReplacement(b: seq<byte>, a: seq<byte>, p: seq<byte>, r: seq<byte>, n: nat,
                                                   gap: nat)
      returns (pieces: seq<seq<byte>>)
    requires Substituted(b, a, p, r, n, gap).o == Fine
    ensures |pieces| == n + 1 && Split(a, p, pieces)
    ensures var e := Substituted(b, a, p, r, n, gap);
      e.before + e.after == b + Join(pieces, r) && e.after == pieces[n]
    decreases n
  {
    hide First, Split, OccursAt;
    if n == 0 {
      pieces := [a];
      OnePiece(a, p);
    } else {
      FirstFits(a, p);
      var i := First(a, p);
      var more := SubstituteIsReplacement(b + a[..i] + r, a[i + |p|..], p, r, n - 1, gap + |p| - |r|);
      pieces := [a[..i]] + more;
      MorePieces(a, p, i, more);
      JoinMore(a[..i], more, r);
      assert b + a[..i] + r + Join(more, r) == b + (a[..i] + r + Join(more, r));
    }
  }

  lemma OnePiece(a: seq<byte>, p: seq<byte>)
    ensures Split(a, p, [a])
  {
  }

  lemma JoinMore(x: seq<byte>, more: seq<seq<byte>>, r: seq<byte>)
    requires |more| > 0
    ensures Join([x] + more, r) == x + r + Join(more, r)
  {
    assert ([x] + more)[1..] == more;
  }

  lemma SplitIs(a: seq<byte>, p: seq<byte>, pieces: seq<seq<byte>>)
    requires |pieces| > 0
    ensures Split(a, p, pieces) <==>
      a == Join(pieces, p) && (|pieces| > 1 ==>
        First(a, p) == |pieces[0]| && Split(Join(pieces[1..], p), p, pieces[1..]))
  {
    hide First, Join;
  }

  lemma MorePieces(a: seq<byte>, p: seq<byte>, i: nat, more: seq<seq<byte>>)
    requires First(a, p) == i && i + |p| <= |a| && |more| > 0 && Split(a[i + |p|..], p, more)
    ensures Split(a, p, [a[..i]] + more)
  {
    hide *;
    var x, rest := a[..i], a[i + |p|..];
    OccursFirst(a, p);
    JoinMore(x, more, p);
    SplitIs(rest, p, more);
    SplitIs(a, p, [x] + more);
  }

  lemma OccursFirst(a: seq<byte>, p: seq<byte>)
    ensures var i := First(a, p); i >= 0 ==> i + |p| <= |a| && a == a[..i] + p + a[i + |p|..]
  {
    FirstIsLeast(a, p);
  }

  /** Only a longer string can lack room; the other failure leaves no occurrence behind the cursor. */
  lemma {:induction false} SubstituteFails(b: seq<byte>, a: seq<byte>, p: seq<byte>, r: seq<byte>, n: nat, gap: nat)
    ensures var e := Substituted(b, a, p, r, n, gap);
      (|r| <= |p| ==> e.o != Overflow) && (e.o == Overcount ==> First(e.after, p) < 0)
    decreases n
  {
    var i := First(a, p);
    if n > 0 && i >= 0 {
      FirstFits(a, p);
      if gap + |p| >= |r| { SubstituteFails(b + a[..i] + r, a[i + |p|..], p, r, n - 1, gap + |p| - |r|); }
    }
  }
}

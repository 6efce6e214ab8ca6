/** Programs on the machine of `Machine`: a sequence of calls with FCBs in memory is a run of
    `Sessions`, so what is proved of runs holds of the arrays. */
module Programs {
  import opened DiskParams
  import opened DiskMap
  import opened Directory
  import opened Volume
  import opened Layout
  import opened RecordIo
  import opened FileSystem
  import opened Files
  import opened Machine
  import opened Transitions
  import opened Transfers
  import opened RecordAccess
  import opened Scanning
  import opened Sessions
  import Addressing
  import FileCalls
  import Truncation

  /** The call that an operation makes. */
  function CallOf(op: Op): nat
    requires !op.Release? && !op.Point? && !op.Relogin?
  {
    match op
    case Make(_, _) => 22
    case Open(_, _) => 15
    case Close(_) => 16
    case Read(_, mode) => if mode == Sequential then 20 else 33
    case Write(_, mode, _) => if mode == Sequential then 21 else if mode == Random then 34 else 40
    case Erase(_) => 19
    case Truncate(_) => 99
  }

  /** Caller's buffers, apart from each other and from the machine's. */
  ghost predicate Apart(b: Bdos, fcbs: seq<array<byte>>, tmp: array<byte>)
  {
    && b.Valid() && b.Fcb36(tmp)
    && (forall i :: 0 <= i < |fcbs| ==> b.Fcb36(fcbs[i]) && fcbs[i] != tmp)
    && (forall i, j :: 0 <= i < j < |fcbs| ==> fcbs[i] != fcbs[j])
  }

  /** An FCB in memory, the drive byte read as the BDOS does during a call. */
  ghost function Seen(b: Bdos, fcb: array<byte>): FcbValue
    requires fcb.Length == FCB_BYTES
    reads fcb
  {
    WithDrive(FcbOf(fcb[..]), b.user)
  }

  /** Drive and FCBs in use are those of `w`. */
  ghost predicate Shows(b: Bdos, fcbs: seq<array<byte>>, tmp: array<byte>, w: World)
    requires Apart(b, fcbs, tmp)
    reads b, b.disk, b.alv, b.csv, b.dirbuf, b.dma, fcbs
  {
    && b.State() == w.v && b.user == w.user && |fcbs| == |w.fcbs| == |w.open|
    && forall i :: 0 <= i < |fcbs| && w.open[i] ==> Seen(b, fcbs[i]) == w.fcbs[i]
  }

  /** A service on a logged-in drive whose FCB keeps its user number. */
  method Call(b: Bdos, fcb: array<byte>, func: nat) returns (rtn: nat)
    requires b.Valid() && b.Fcb36(fcb) && func in FILE_CALLS && b.State().logged
    requires func in {20, 21} ==> Seen(b, fcb).cur <= 128
    modifies b, b.disk, b.csv, b.dirbuf, b.alv, b.dma, fcb
    ensures var r := Perform(b.p, old(b.State()), old(Seen(b, fcb)), func);
      b.State() == r.0 && Seen(b, fcb) == WithDrive(r.1, b.user) && rtn == r.2
  {
    rtn := b.Service(func, fcb);
  }

  /** The program fills in an FCB. */
  method Fill(b: Bdos, fcb: array<byte>, f: FcbValue)
    requires b.Valid() && b.Fcb36(fcb)
    modifies fcb
    ensures b.State() == old(b.State()) && FcbOf(fcb[..]) == f
  {
    ghost var v := b.State();
    var s := Bytes(f.ent) + [f.cur, f.ran0, f.ran1, f.ran2];
    var i := 0;
    while i < 36
      invariant i <= 36 && fcb[..i] == s[..i]
    {
      fcb[i] := s[i];
      i := i + 1;
    }
    b.Unmoved();
    assert fcb[..] == s && s[..32] == Bytes(f.ent);
    BytesRoundTrip(f.ent, Bytes(f.ent));
  }

  /** The program puts a record into the DMA buffer. */
  method SetDma(b: Bdos, data: Sector)
    requires b.Valid()
    modifies b.dma
    ensures b.State() == old(b.State()).(dma := data)
  {
    hide Fits, Dpb.WellFormed, Layout.BitsOf;
    var i := 0;
    while i < 128
      invariant i <= 128 && b.dma[..i] == data[..i]
    {
      b.dma[i] := data[i];
      i := i + 1;
    }
    assert b.dma[..] == data;
  }

  /** An FCB in use keeps its user number, so reading the drive byte as that changes nothing. */
  lemma UserKept(p: Dpb, w: World, pend: int, j: nat)
    requires Inv(p, w, pend) && j < |w.fcbs| && w.open[j]
    ensures WithDrive(w.fcbs[j], w.user) == w.fcbs[j]
  {
  }

  /** World and return code after call `func` on FCB slot `j`. */
  function AfterCall(p: Dpb, w: World, j: nat, func: nat): (World, nat)
    requires Fits(p, w.v) && func in FILE_CALLS && j < |w.fcbs| && (func in {20, 21} ==> w.fcbs[j].cur <= 128)
  {
    var r := Perform(p, w.v, w.fcbs[j], func);
    (With(w, r.0, j, r.1), r.2)
  }

  /** A call on the FCB in slot `j`, which leaves world `x`. */
  method FcbCall(b: Bdos, fcbs: seq<array<byte>>, tmp: array<byte>, j: nat, func: nat, ghost w: World, ghost x: World)
    returns (code: nat)
    requires j < |fcbs| && Apart(b, fcbs, tmp) && Shows(b, fcbs, tmp, w) && w.v.logged && w.open[j]
    requires func in FILE_CALLS && (func in {20, 21} ==> w.fcbs[j].cur <= 128) && Fits(b.p, w.v)
    requires x == AfterCall(b.p, w, j, func).0 && Inv(b.p, x, -1)
    modifies b, b.disk, b.csv, b.dirbuf, b.alv, b.dma, fcbs[j]
    ensures Shows(b, fcbs, tmp, x) && code == AfterCall(b.p, w, j, func).1
  {
    hide Inv, Perform, Fits, WithDrive, FcbOf, Bdos.Valid, Bdos.State;
    code := Call(b, fcbs[j], func);
    UserKept(b.p, x, -1, j);
  }

  /** Make or open through the FCB in slot `j`, which nobody uses. */
  method NewCall(b: Bdos, fcbs: seq<array<byte>>, tmp: array<byte>, j: nat, func: nat, f: FcbValue, ghost w: World,
                 ghost x: World)
    returns (code: nat)
    requires j < |fcbs| && Apart(b, fcbs, tmp) && Shows(b, fcbs, tmp, w) && w.v.logged && !w.open[j]
    requires func in {15, 22} && f.ent.entry == w.user && Fits(b.p, w.v)
    requires x == Taken(w, j, Perform(b.p, w.v, f, func)).0 && Inv(b.p, x, -1)
    modifies b, b.disk, b.csv, b.dirbuf, b.alv, b.dma, fcbs[j]
    ensures Shows(b, fcbs, tmp, x) && code == Perform(b.p, w.v, f, func).2
  {
    hide Inv, Perform, Fits, FcbOf, Bdos.Valid, Bdos.State;
    Fill(b, fcbs[j], f);
    code := Call(b, fcbs[j], func);
    if code < 255 { UserKept(b.p, x, -1, j); }
  }

  /** Delete or truncate through an FCB of its own. */
  method FileCall(b: Bdos, fcbs: seq<array<byte>>, tmp: array<byte>, func: nat, f: FcbValue, ghost w: World,
                  ghost x: World)
    returns (code: nat)
    requires Apart(b, fcbs, tmp) && Shows(b, fcbs, tmp, w) && w.v.logged
    requires func in {19, 99} && f.ent.entry == w.user && Fits(b.p, w.v) && x == w.(v := Perform(b.p, w.v, f, func).0)
    modifies b, b.disk, b.csv, b.dirbuf, b.alv, b.dma, tmp
    ensures Shows(b, fcbs, tmp, x) && code == Perform(b.p, w.v, f, func).2
  {
    hide Perform, Fits, FcbOf, Bdos.Valid, Bdos.State;
    Fill(b, tmp, f);
    code := Call(b, tmp, func);
  }

  /** The program sets the record fields of an FCB. */
  method SetFields(b: Bdos, fcbs: seq<array<byte>>, tmp: array<byte>, j: nat, cur: byte, ran0: byte, ran1: byte,
                   ran2: byte,
                   ghost w: World, ghost x: World)
    requires j < |fcbs| && Apart(b, fcbs, tmp) && Shows(b, fcbs, tmp, w) && w.open[j]
    requires x == With(w, w.v, j, Fcb(w.fcbs[j].ent, cur, ran0, ran1, ran2))
    modifies fcbs[j]
    ensures Shows(b, fcbs, tmp, x)
  {
    hide Fits, Bdos.Valid, Bdos.State;
    var fcb := fcbs[j];
    fcb[32], fcb[33], fcb[34], fcb[35] := cur, ran0, ran1, ran2;
    assert fcb[..][..32] == old(fcb[..][..32]);
    b.Unmoved();
  }

  /** Disk reset, and the login that the next call would bring. */
  method LogIn(b: Bdos, fcbs: seq<array<byte>>, tmp: array<byte>, ghost w: World, ghost x: World)
    requires Apart(b, fcbs, tmp) && Shows(b, fcbs, tmp, w) && !w.v.ro && Fits(b.p, w.v)
    requires x == w.(v := Login(b.p, w.v.(logged := false, crit := false)))
    modifies b, b.disk, b.csv, b.dirbuf, b.alv
    ensures Shows(b, fcbs, tmp, x)
  {
    hide Login, Fits, Bdos.Valid;
    b.Reset();
    assert b.State() == w.v.(logged := false, crit := false);
    b.Seldsk();
  }

  /** The program puts the record to be written into the DMA buffer. */
  method PutData(b: Bdos, fcbs: seq<array<byte>>, tmp: array<byte>, data: Sector, ghost w: World)
    requires Apart(b, fcbs, tmp) && Shows(b, fcbs, tmp, w)
    modifies b.dma
    ensures Shows(b, fcbs, tmp, w.(v := w.v.(dma := data)))
  {
    hide Fits, Bdos.State;
    SetDma(b, data);
  }

  // ---------------------------------------------------------------- calls 35 and 36

  /** Call 35 leaves the file's size in the random-record field, and nothing else changes but buffers. */
  lemma SizeCall(p: Dpb, w: World, f: FcbValue)
    requires Inv(p, w, -1) && Addressed(w.user, f) && NoFcbFor(StateOf(p, w), Key(f.ent))
    ensures Fits(p, w.v)
    ensures var r := Perform(p, w.v, f, 35);
      OnlyLooked(w.v, r.0) && UnpackRan(r.1) == Truncation.SizeFrom(p, FilesOf(p, w), Key(f.ent), 0)
  {
    hide Inv, FilesOf, FileCalls.GetSize, NoFcbFor, Key, Addressed;
    InvBasics(p, w, -1);
    Truncation.SizeKnown(p, w, f);
  }

  /** Call 36 leaves the number of the record the FCB stands at, and a random read goes there. */
  lemma SetRanCall(p: Dpb, w: World, j: nat)
    requires Inv(p, w, -1) && j < |w.fcbs| && w.open[j] && w.fcbs[j].cur <= 128
    ensures Fits(p, w.v)
    ensures var f, r := w.fcbs[j], Perform(p, w.v, w.fcbs[j], 36);
      && r.0 == w.v && r.1.ent == f.ent && r.1.cur == f.cur && UnpackRan(r.1) == RecordOf(f)
      && (RecordOf(f) < 0x8000 ==> Wanted(r.1, Random) == RecordOf(f))
  {
    hide Inv, UnpackRan;
    InvBasics(p, w, -1);
    Addressing.SetRanNumber(w.fcbs[j]);
    Addressing.DecodeExact(Addressing.SetRan(w.fcbs[j]));
  }

  // ---------------------------------------------------------------- runs

  /** What each operation is in terms of its call. */
  lemma ExecIsCall(p: Dpb, w: World, op: Op)
    requires Fits(p, w.v) && Callable(w, op)
    ensures op.Make? || op.Open? ==> Exec(p, w, op) == Taken(w, op.j, Perform(p, w.v, op.f, CallOf(op)))
    ensures op.Close? || op.Read? ==> Exec(p, w, op) == AfterCall(p, w, op.j, CallOf(op))
    ensures op.Write? ==> Exec(p, w, op) == AfterCall(p, w.(v := w.v.(dma := op.data)), op.j, CallOf(op))
    ensures op.Erase? || op.Truncate? ==>
      var r := Perform(p, w.v, op.f, CallOf(op)); Exec(p, w, op) == (w.(v := r.0), r.2)
    ensures op.Release? ==> Exec(p, w, op) == (w.(open := w.open[op.j := false]), 0)
    ensures op.Point? ==>
      Exec(p, w, op) == (With(w, w.v, op.j, Fcb(w.fcbs[op.j].ent, op.cur, op.ran0, op.ran1, op.ran2)), 0)
    ensures op.Relogin? ==> Exec(p, w, op) == (w.(v := Login(p, w.v.(logged := false, crit := false))), 0)
  {
    hide BdosRw, CloseFi, FileCalls.MakeCall, FileCalls.OpenCall, FileCalls.DeleteCall, Truncation.TruncateFi, Login,
      FileCalls.GetSize;
  }

  lemma InUse(p: Dpb, w: World, op: Op)
    requires Inv(p, w, -1) && Allowed(p, w, op)
    ensures Fits(p, w.v) && w.v.logged && !w.v.ro && Callable(w, op)
    ensures op.Write? ==> Fits(p, w.v.(dma := op.data))
    ensures op.Make? || op.Open? ==> !w.open[op.j] && op.f.ent.entry == w.user
    ensures op.Close? || op.Read? || op.Write? || op.Release? || op.Point? ==> w.open[op.j]
    ensures op.Erase? || op.Truncate? ==> op.f.ent.entry == w.user
  {
  }

  lemma SameSlots(b: Bdos, fcbs: seq<array<byte>>, tmp: array<byte>, w: World)
    requires Apart(b, fcbs, tmp) && Shows(b, fcbs, tmp, w)
    ensures |fcbs| == |w.fcbs| == |w.open|
  {
  }

  lemma StopsUsing(b: Bdos, fcbs: seq<array<byte>>, tmp: array<byte>, w: World, j: nat)
    requires Apart(b, fcbs, tmp) && Shows(b, fcbs, tmp, w) && j < |fcbs|
    ensures Shows(b, fcbs, tmp, w.(open := w.open[j := false]))
  {
    hide Bdos.State, WithDrive, FcbOf;
  }

  /** One operation on the machine does what `Exec` does to the world it shows. */
  method Do(b: Bdos, fcbs: seq<array<byte>>, tmp: array<byte>, op: Op, ghost w: World) returns (code: nat)
    requires Apart(b, fcbs, tmp) && Shows(b, fcbs, tmp, w) && Inv(b.p, w, -1) && Allowed(b.p, w, op)
    modifies b, b.disk, b.csv, b.dirbuf, b.alv, b.dma, tmp, fcbs
    ensures var x := Exec(b.p, w, op); Shows(b, fcbs, tmp, x.0) && code == x.1
  {
    hide Inv, Exec, Perform, Fits, Allowed, AfterCall, Apart, Shows, Effect, Login, Bdos.Valid, Bdos.State;
    InUse(b.p, w, op);
    SameSlots(b, fcbs, tmp, w);
    CallKeeps(b.p, w, op);
    ExecIsCall(b.p, w, op);
    ghost var x := Exec(b.p, w, op);
    code := 0;
    match op {
      case Make(j, f) => code := NewCall(b, fcbs, tmp, j, 22, f, w, x.0);
      case Open(j, f) => code := NewCall(b, fcbs, tmp, j, 15, f, w, x.0);
      case Close(j) => code := FcbCall(b, fcbs, tmp, j, 16, w, x.0);
      case Release(j) => StopsUsing(b, fcbs, tmp, w, j);
      case Point(j, cur, ran0, ran1, ran2) => SetFields(b, fcbs, tmp, j, cur, ran0, ran1, ran2, w, x.0);
      case Read(j, mode) => code := FcbCall(b, fcbs, tmp, j, if mode == Sequential then 20 else 33, w, x.0);
      case Write(j, mode, data) =>
        PutData(b, fcbs, tmp, data, w);
        code := FcbCall(b, fcbs, tmp, j, if mode == Sequential then 21 else if mode == Random then 34
          else 40, w.(v := w.v.(dma := data)), x.0);
      case Erase(f) => code := FileCall(b, fcbs, tmp, 19, f, w, x.0);
      case Truncate(f) => code := FileCall(b, fcbs, tmp, 99, f, w, x.0);
      case Relogin => LogIn(b, fcbs, tmp, w, x.0);
    }
  }

  /** A program's calls on the machine are a run: in the end it shows the world the run leads to, so the
      invariant holds and every record written and not since erased or cut off can be read. */
  method Execute(b: Bdos, fcbs: seq<array<byte>>, tmp: array<byte>, ops: seq<Op>, ghost w: World, ghost log: Log)
    requires Apart(b, fcbs, tmp) && Shows(b, fcbs, tmp, w) && Inv(b.p, w, -1) && LogHolds(b.p, w, log)
    requires AllowedRun(b.p, w, ops)
    modifies b, b.disk, b.csv, b.dirbuf, b.alv, b.dma, tmp, fcbs
    ensures var r := Run(b.p, w, log, ops); Shows(b, fcbs, tmp, r.0) && Inv(b.p, r.0, -1) && LogHolds(b.p, r.0, r.1)
  {
    hide *;
    InvBasics(b.p, w, -1);
    ghost var x, seen := w, log;
    assert ops[0..] == ops;
    var i := 0;
    while i < |ops|
      invariant i <= |ops| && Shows(b, fcbs, tmp, x) && Inv(b.p, x, -1) && Fits(b.p, x.v)
      invariant AllowedRun(b.p, x, ops[i..])
      invariant Run(b.p, x, seen, ops[i..]) == Run(b.p, w, log, ops)
    {
      RunStep(b.p, x, seen, ops[i..]);
      assert ops[i..][0] == ops[i] && ops[i..][1..] == ops[i + 1..];
      var code := Do(b, fcbs, tmp, ops[i], x);
      x, seen := Exec(b.p, x, ops[i]).0, Noted(seen, x, ops[i], code);
      i := i + 1;
    }
    RunEnds(b.p, x, seen);
    assert ops[i..] == [];
    RunKeeps(b.p, w, log, ops);
  }

  lemma RunStep(p: Dpb, w: World, log: Log, ops: seq<Op>)
    requires Inv(p, w, -1) && Fits(p, w.v) && AllowedRun(p, w, ops) && |ops| > 0
    ensures Allowed(p, w, ops[0]) && Callable(w, ops[0])
    ensures var r := Exec(p, w, ops[0]);
      && Inv(p, r.0, -1) && Fits(p, r.0.v) && AllowedRun(p, r.0, ops[1..])
      && Run(p, w, log, ops) == Run(p, r.0, Noted(log, w, ops[0], r.1), ops[1..])
  {
    hide Inv, Allowed, Exec, Noted, Effect;
    AllowedIsCallable(p, w, ops[0]);
    CallKeeps(p, w, ops[0]);
  }

  lemma RunEnds(p: Dpb, w: World, log: Log)
    requires Fits(p, w.v)
    ensures AllowedRun(p, w, []) && Run(p, w, log, []) == (w, log)
  {
  }
}

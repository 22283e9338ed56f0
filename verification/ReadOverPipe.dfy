/** The reading protocol over a control pipe that is written piece by piece: a writer holds the lock while its frame
    goes in by short writes, and may fail before the frame or in the middle of it. Every run of this finer system is
    a run of the protocol, whose frames go in at once. */
module ReadOverPipe {
  import opened Bytes
  import opened ReadProtocol
  import opened ReadSafety
  import opened ReadGuarantees
  import opened ReadRuns
  import Pool = SlotPool
  import Wire = ControlPipe

  /** Who holds the lock, and how much of its frame is in the pipe. A writer that failed in the middle leaves a torn
      frame of request `q`. */
  datatype Writer = Nobody | Writing(t: Tid, sent: nat) | Torn(q: Wire.Request, sent: nat)

  /** The system with what is really in the pipe. */
  datatype Fine = Fine(s: System, writer: Writer)

  /** `Write(n)` is a write that takes at most `n` more bytes. */
  datatype FineStep = Lock(t: Tid) | Write(n: positive) | Fail | Other(e: Step)

  function StartFine(): Fine {
    Fine(Start(), Nobody)
  }

  predicate MayWrite(s: System, t: Tid) {
    InStage(s, t, Armed) && RequestFits(s.threads[t])
  }

  /** A torn frame is the last: nobody writes behind it. The steps of the threads and the responder are those of
      the protocol, but for the control write. */
  predicate FineEnabled(f: Fine, e: FineStep) {
    match e
    case Lock(t) => f.writer.Nobody? && MayWrite(f.s, t)
    case Write(_) => f.writer.Writing? && MayWrite(f.s, f.writer.t)
    case Fail => f.writer.Writing? && MayWrite(f.s, f.writer.t)
    case Other(e) =>
      && Enabled(f.s, e) && !e.WriteRequest?
      && (e.WriteFails? && f.writer.Writing? ==> e.t != f.writer.t)
  }

  function Own(s: System, t: Tid): Wire.Request
    requires MayWrite(s, t)
  {
    RequestFor(s.threads[t])
  }

  function WriteEnd(f: Fine, n: positive): nat
    requires f.writer.Writing? && MayWrite(f.s, f.writer.t)
  {
    Min(f.writer.sent + n, |Wire.Frame(Own(f.s, f.writer.t))|)
  }

  function FineDo(f: Fine, e: FineStep): Fine
    requires FineEnabled(f, e)
  {
    match e
    case Lock(t) => f.(writer := Writing(t, 0))
    case Write(n) =>
      var t, sent, end := f.writer.t, f.writer.sent, WriteEnd(f, n);
      var q := Own(f.s, t);
      var piece := if sent <= end then Wire.Frame(q)[sent..end] else [];
      if end < |Wire.Frame(q)| then Fine(f.s.(pipe := f.s.pipe + piece), Writing(t, end))
      else Fine(Ask(f.s, t, q).(pipe := f.s.pipe + piece), Nobody)
    case Fail =>
      var t, sent := f.writer.t, f.writer.sent;
      Fine(Leave(f.s, t, Pool.WriteFails(t.n)), if sent == 0 then Nobody else Torn(Own(f.s, t), sent))
    case Other(e) => Fine(Do(f.s, e), f.writer)
  }

  // ----- What the finer system means

  /** What the last writer has in the pipe of a frame that is not whole. */
  function Part(f: Fine): seq<byte> {
    match f.writer
    case Nobody => []
    case Writing(t, sent) =>
      if MayWrite(f.s, t) then Wire.Frame(Own(f.s, t))[..Min(sent, |Wire.Frame(Own(f.s, t))|)] else []
    case Torn(q, sent) => Wire.Frame(q)[..Min(sent, |Wire.Frame(q)|)]
  }

  /** The protocol's state: the same, with whole frames only in the pipe. */
  function Whole(f: Fine): System {
    f.s.(pipe := Concat(FramesOf(f.s.queue)))
  }

  /** The pipe holds whole frames and at most one unfinished one behind them. */
  ghost predicate Tailed(f: Fine) {
    && f.s.pipe == Concat(FramesOf(f.s.queue)) + Part(f)
    && (f.writer.Writing? ==>
          MayWrite(f.s, f.writer.t) && f.writer.sent < |Wire.Frame(Own(f.s, f.writer.t))|)
    && (f.writer.Torn? ==> Wire.ValidRequest(f.writer.q) && f.writer.sent < |Wire.Frame(f.writer.q)|)
  }

  ghost predicate FineInv(f: Fine) {
    Tailed(f) && Inv(Whole(f))
  }

  lemma StartFineInv()
    ensures FineInv(StartFine()) && Whole(StartFine()) == Start()
  {
    StartInv();
    assert FramesOf([]) == [];
    assert Concat([]) == [];
  }

  /** A reader finds a whole frame at the front of the pipe exactly when a request is waiting, and then it is that
      request: what is unfinished behind the frames is never taken for one. */
  lemma FrontIsFirstRequest(f: Fine)
    requires Tailed(f) && Registered(Whole(f))
    ensures Wire.ParseFrame(f.s.pipe).Parsed? <==> f.s.queue != []
    ensures f.s.queue != [] ==>
              Wire.ParseFrame(f.s.pipe) == Wire.Parsed(f.s.queue[0].q, Concat(FramesOf(f.s.queue[1..])) + Part(f))
  {
    if f.s.queue == [] {
      assert f.s.pipe == Part(f);
      PartIsNoFrame(f);
    } else {
      FrontWithPart(f.s.queue, Part(f), f.s.pipe);
      assert TicketFits(Whole(f), f.s.queue[0]);
    }
  }

  lemma FrontWithPart(queue: seq<Ticket>, part: seq<byte>, pipe: seq<byte>)
    requires queue != [] && pipe == Concat(FramesOf(queue)) + part
    ensures Wire.ValidRequest(queue[0].q) ==>
              Wire.ParseFrame(pipe) == Wire.Parsed(queue[0].q, Concat(FramesOf(queue[1..])) + part)
  {
    FramesCons(queue);
    Wire.AssociateTail(Wire.Frame(queue[0].q), Concat(FramesOf(queue[1..])), part);
    if Wire.ValidRequest(queue[0].q) {
      Wire.FrameRoundTrip(queue[0].q, Concat(FramesOf(queue[1..])) + part);
    }
  }

  lemma PartIsNoFrame(f: Fine)
    requires Tailed(f)
    ensures Wire.ParseFrame(Part(f)) == Wire.Incomplete
  {
    match f.writer
    case Nobody =>
    case Writing(t, sent) => Wire.PartialFrameIsIncomplete(Own(f.s, t), sent);
    case Torn(q, sent) => Wire.PartialFrameIsIncomplete(q, sent);
  }

  // ----- Every step is a step of the protocol, or none

  /** The step of the protocol that a step of the finer system is: the control write happens when its last byte goes
      in. */
  function StepOf(f: Fine, e: FineStep): seq<Step>
    requires FineEnabled(f, e)
  {
    match e
    case Lock(_) => []
    case Write(n) =>
      if WriteEnd(f, n) < |Wire.Frame(Own(f.s, f.writer.t))| then [] else [WriteRequest(f.writer.t)]
    case Fail => [WriteFails(f.writer.t)]
    case Other(e) => [e]
  }

  ghost predicate Matches(f: Fine, e: FineStep)
    requires FineEnabled(f, e)
  {
    var es, s, r := StepOf(f, e), Whole(f), FineDo(f, e);
    if es == [] then Whole(r) == s else Enabled(s, es[0]) && Whole(r) == Do(s, es[0])
  }

  lemma LockMatches(f: Fine, t: Tid)
    requires Tailed(f) && FineEnabled(f, Lock(t))
    ensures Matches(f, Lock(t)) && Tailed(FineDo(f, Lock(t)))
  {
    var r := FineDo(f, Lock(t));
    assert Part(r) == [] && Whole(r) == Whole(f);
  }

  lemma Pieces(a: seq<byte>, m: seq<byte>, i: nat, j: nat)
    requires i <= j <= |m|
    ensures a + m[..i] + m[i..j] == a + m[..j]
    ensures m[..|m|] == m
  {}

  lemma ShortWriteMatches(f: Fine, n: positive)
    requires Tailed(f) && FineEnabled(f, Write(n)) && StepOf(f, Write(n)) == []
    ensures Matches(f, Write(n)) && Tailed(FineDo(f, Write(n)))
  {
    var r, q := FineDo(f, Write(n)), Own(f.s, f.writer.t);
    Pieces(Concat(FramesOf(f.s.queue)), Wire.Frame(q), f.writer.sent, WriteEnd(f, n));
    assert Whole(r) == Whole(f);
    assert Own(r.s, f.writer.t) == q;
  }

  lemma LastWriteMatches(f: Fine, n: positive)
    requires Tailed(f) && FineEnabled(f, Write(n)) && StepOf(f, Write(n)) != []
    ensures Matches(f, Write(n)) && Tailed(FineDo(f, Write(n)))
  {
    var t, s, r := f.writer.t, Whole(f), FineDo(f, Write(n));
    var q := Own(f.s, t);
    Pieces(Concat(FramesOf(f.s.queue)), Wire.Frame(q), f.writer.sent, WriteEnd(f, n));
    FramesSnoc(f.s.queue, Ticket(f.s.threads[t].job.serial, q));
  }

  lemma FramesSnoc(queue: seq<Ticket>, k: Ticket)
    ensures Concat(FramesOf(queue + [k])) == Concat(FramesOf(queue)) + Wire.Frame(k.q)
  {
    assert FramesOf(queue + [k]) == FramesOf(queue) + [Wire.Frame(k.q)];
    ConcatSnoc(FramesOf(queue), Wire.Frame(k.q));
  }

  lemma FailMatches(f: Fine)
    requires Tailed(f) && FineEnabled(f, Fail)
    ensures Matches(f, Fail) && Tailed(FineDo(f, Fail))
  {
    assert Wire.Frame(Own(f.s, f.writer.t))[..0] == [];
    assert Part(FineDo(f, Fail)) == Part(f);
  }

  /** The same system with another pipe. */
  predicate SameButPipe(s: System, r: System) {
    r == s.(pipe := r.pipe)
  }

  /** Steps that have nothing to do with the pipe: of a thread, */
  lemma ThreadStepIsSame(s: System, r: System, e: Step)
    requires SameButPipe(s, r) && Enabled(s, e) && (e.TakeId? || e.ResetSlot? || e.ReceiveChunk?)
    ensures Enabled(r, e) && SameButPipe(Do(s, e), Do(r, e))
    ensures Do(s, e).pipe == s.pipe && Do(s, e).queue == s.queue && Do(r, e).pipe == r.pipe
  {
    match e
    case TakeId(_, _, _, _) =>
    case ResetSlot(t) => assert Quiet(s, s.threads[t].id) == Quiet(r, s.threads[t].id);
    case ReceiveChunk(t) => assert SessionOf(s, t) == SessionOf(r, t);
  }

  /** of a thread that leaves, */
  lemma LeavingIsSame(s: System, r: System, e: Step)
    requires SameButPipe(s, r) && Enabled(s, e) && (e.WriteFails? || e.Return? || e.TimeOut?)
    ensures Enabled(r, e) && SameButPipe(Do(s, e), Do(r, e))
    ensures Do(s, e).pipe == s.pipe && Do(s, e).queue == s.queue && Do(r, e).pipe == r.pipe
  {
    match e
    case WriteFails(_) =>
    case Return(_) =>
    case TimeOut(_) =>
  }

  /** and of the responder on a lane. */
  lemma LaneStepIsSame(s: System, r: System, e: Step)
    requires SameButPipe(s, r) && Enabled(s, e) && (e.SendChunk? || e.Discard?)
    ensures Enabled(r, e) && SameButPipe(Do(s, e), Do(r, e))
    ensures Do(s, e).pipe == s.pipe && Do(s, e).queue == s.queue && Do(r, e).pipe == r.pipe
  {
    match e
    case SendChunk(_) =>
    case Discard(_) =>
  }

  lemma OtherIsSame(s: System, r: System, e: Step)
    requires SameButPipe(s, r) && Enabled(s, e) && !e.WriteRequest? && !e.Respond? && !e.Drop?
    ensures Enabled(r, e) && SameButPipe(Do(s, e), Do(r, e))
    ensures Do(s, e).pipe == s.pipe && Do(s, e).queue == s.queue && Do(r, e).pipe == r.pipe
  {
    if e.TakeId? || e.ResetSlot? || e.ReceiveChunk? {
      ThreadStepIsSame(s, r, e);
    } else if e.SendChunk? || e.Discard? {
      LaneStepIsSame(s, r, e);
    } else {
      LeavingIsSame(s, r, e);
    }
  }

  /** A step leaves the threads that it is not a step of alone. */
  lemma OthersLeftAlone(s: System, e: Step, t: Tid)
    requires InStage(s, t, Armed) && Enabled(s, e) && !e.WriteRequest? && (e.WriteFails? ==> e.t != t)
    ensures t in Do(s, e).threads && Do(s, e).threads[t] == s.threads[t]
  {
    match e
    case TakeId(u, _, _, _) =>
    case ResetSlot(u) =>
    case WriteFails(u) =>
    case Respond(_) =>
    case Drop =>
    case SendChunk(_) =>
    case Discard(_) =>
    case ReceiveChunk(u) =>
    case Return(u) =>
    case TimeOut(u) =>
  }

  lemma OtherMatches(f: Fine, e: Step)
    requires Tailed(f) && FineEnabled(f, Other(e)) && !e.Respond? && !e.Drop?
    ensures Matches(f, Other(e)) && Tailed(FineDo(f, Other(e)))
  {
    OtherIsSame(f.s, Whole(f), e);
    if f.writer.Writing? {
      OthersLeftAlone(f.s, e, f.writer.t);
    }
  }

  /** The responder reads the same request off the pipe as it would with whole frames only. */
  lemma ReaderMatches(f: Fine, e: Step)
    requires Tailed(f) && Registered(Whole(f)) && FineEnabled(f, Other(e)) && (e.Respond? || e.Drop?)
    ensures Matches(f, Other(e)) && Tailed(FineDo(f, Other(e)))
  {
    FrontIsFirstRequest(f);
    HeadOfPipe(Whole(f));
    if f.writer.Writing? {
      OthersLeftAlone(f.s, e, f.writer.t);
    }
  }

  lemma StepMatches(f: Fine, e: FineStep)
    requires Tailed(f) && Registered(Whole(f)) && FineEnabled(f, e)
    ensures Matches(f, e) && Tailed(FineDo(f, e))
  {
    match e
    case Lock(t) => LockMatches(f, t);
    case Write(n) =>
      if StepOf(f, e) == [] {
        ShortWriteMatches(f, n);
      } else {
        LastWriteMatches(f, n);
      }
    case Fail => FailMatches(f);
    case Other(e) =>
      if e.Respond? || e.Drop? {
        ReaderMatches(f, e);
      } else {
        OtherMatches(f, e);
      }
  }

  lemma MatchKeepsInv(f: Fine, e: FineStep)
    requires FineEnabled(f, e) && Matches(f, e) && Inv(Whole(f))
    ensures Inv(Whole(FineDo(f, e)))
  {
    if StepOf(f, e) != [] {
      StepKeeps(Whole(f), StepOf(f, e)[0]);
    }
  }

  lemma FineStepKeeps(f: Fine, e: FineStep)
    requires FineInv(f) && FineEnabled(f, e)
    ensures Matches(f, e) && FineInv(FineDo(f, e))
  {
    StepMatches(f, e);
    MatchKeepsInv(f, e);
  }

  // ----- Every run is a run of the protocol

  predicate FineObeys(f: Fine, e: FineStep)
    requires FineEnabled(f, e)
  {
    e.Other? ==> Obeys(f.s, e.e)
  }

  /** The runs of the finer system; if `kept`, those in which the responder keeps the last part of its contract. */
  predicate FinePlays(f: Fine, fs: seq<FineStep>, kept: bool)
    decreases |fs|
  {
    fs == []
    || (FineEnabled(f, fs[0]) && (kept ==> FineObeys(f, fs[0])) && FinePlays(FineDo(f, fs[0]), fs[1..], kept))
  }

  function FinePlay(f: Fine, fs: seq<FineStep>, kept: bool): Fine
    requires FinePlays(f, fs, kept)
    decreases |fs|
  {
    if fs == [] then f else FinePlay(FineDo(f, fs[0]), fs[1..], kept)
  }

  /** Refinement. With frames that go in by short writes, with failing writes, and with a torn frame that nobody
      writes behind, the threads and the responder can do only what they can when every frame goes in at once. */
  lemma {:induction false} FineRunIsRun(f: Fine, fs: seq<FineStep>, kept: bool) returns (es: seq<Step>)
    requires FineInv(f) && FinePlays(f, fs, kept)
    ensures FineInv(FinePlay(f, fs, kept))
    ensures Plays(Whole(f), es) && Play(Whole(f), es) == Whole(FinePlay(f, fs, kept))
    ensures kept ==> PlaysByContract(Whole(f), es)
    decreases |fs|
  {
    es := [];
    if fs != [] {
      FineStepKeeps(f, fs[0]);
      es := FineRunIsRun(FineDo(f, fs[0]), fs[1..], kept);
      es := MatchCons(f, fs[0], es, kept);
    }
  }

  lemma MatchCons(f: Fine, e: FineStep, es: seq<Step>, kept: bool) returns (fs: seq<Step>)
    requires FineEnabled(f, e) && Matches(f, e) && Plays(Whole(FineDo(f, e)), es) && (kept ==> FineObeys(f, e))
    ensures Plays(Whole(f), fs) && Play(Whole(f), fs) == Play(Whole(FineDo(f, e)), es)
    ensures kept && PlaysByContract(Whole(FineDo(f, e)), es) ==> PlaysByContract(Whole(f), fs)
  {
    fs := es;
    if StepOf(f, e) != [] {
      var c := StepOf(f, e)[0];
      if kept && e.Other? {
        ObeysAlike(f.s, Whole(f), c);
      }
      RunCons(Whole(f), c, es);
      fs := [c] + es;
    }
  }

  lemma ObeysAlike(s: System, r: System, e: Step)
    requires SameButPipe(s, r) && Enabled(s, e) && Enabled(r, e)
    ensures Obeys(s, e) <==> Obeys(r, e)
  {
    match e
    case TimeOut(t) => assert Quiet(s, s.threads[t].id) == Quiet(r, s.threads[t].id);
    case Return(t) => assert Quiet(s, s.threads[t].id) == Quiet(r, s.threads[t].id);
    case _ =>
  }

  /** The end-to-end theorem over the pipe: every completed read of at least one byte returned exactly its own bytes,
      though frames go in piece by piece. */
  lemma ReadsOverPipeReturnTheirOwnBytes(fs: seq<FineStep>, k: nat)
    requires FinePlays(StartFine(), fs, true)
    requires var s := FinePlay(StartFine(), fs, true).s; k in s.results && s.results[k].job.size > 0
    ensures var s := FinePlay(StartFine(), fs, true).s;
            OwnBytes(s, k) && s.results[k].took == {k}
  {
    StartFineInv();
    var es := FineRunIsRun(StartFine(), fs, true);
    ReadsReturnTheirOwnBytes(es, k);
  }
}

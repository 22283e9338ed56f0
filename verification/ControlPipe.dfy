/** The control pipe of `fuse/blkfs_shared.c`: requests framed as a fixed record and a path, written
    under a lock by writes that may be short, and read back by the responder. */
module ControlPipe {
  import opened Bytes

  // ----- Records and frames

  /** `struct blkfs_record`, whose fields are naturally aligned: 40 bytes without padding. */
  datatype Record = Record(clientId: int64, offset: int64, txId: int64,
                           pathLen: int32, length: int32, command: int32, increment: int32)

  const RECORD_SIZE: nat := 40

  const COMMAND_DATA: int32 := 0
  const COMMAND_ATTR: int32 := 1
  const COMMAND_LIST: int32 := 2
  const COMMAND_FOLLOW_LINK: int32 := 3

  function EncodeRecord(r: Record): (bs: seq<byte>)
    ensures |bs| == RECORD_SIZE
  {
    Encode(r.clientId, 8) + Encode(r.offset, 8) + Encode(r.txId, 8)
    + Encode(r.pathLen, 4) + Encode(r.length, 4) + Encode(r.command, 4) + Encode(r.increment, 4)
  }

  lemma SignedInRange(bs: seq<byte>)
    ensures |bs| == 4 ==> -0x8000_0000 <= Signed(bs) < 0x8000_0000
    ensures |bs| == 8 ==> -0x8000_0000_0000_0000 <= Signed(bs) < 0x8000_0000_0000_0000
  {
    PowersOf256();
    UnsignedBound(bs);
  }

  lemma {:induction false} UnsignedBound(bs: seq<byte>)
    ensures Unsigned(bs) < Pow256(|bs|)
  {
    if bs != [] {
      UnsignedBound(bs[1..]);
    }
  }

  function Int32At(bs: seq<byte>, at: nat): int32
    requires at + 4 <= |bs|
  {
    SignedInRange(bs[at..at + 4]);
    Signed(bs[at..at + 4])
  }

  function Int64At(bs: seq<byte>, at: nat): int64
    requires at + 8 <= |bs|
  {
    SignedInRange(bs[at..at + 8]);
    Signed(bs[at..at + 8])
  }

  function DecodeRecord(bs: seq<byte>): Record
    requires |bs| == RECORD_SIZE
  {
    Record(Int64At(bs, 0), Int64At(bs, 8), Int64At(bs, 16),
           Int32At(bs, 24), Int32At(bs, 28), Int32At(bs, 32), Int32At(bs, 36))
  }

  lemma IntRoundTrip(v: int, width: nat)
    requires (width == 4 && -0x8000_0000 <= v < 0x8000_0000)
          || (width == 8 && -0x8000_0000_0000_0000 <= v < 0x8000_0000_0000_0000)
    ensures Signed(Encode(v, width)) == v
  {
    PowersOf256();
    SignedOfEncode(v, width);
  }

  lemma RecordRoundTrip(r: Record)
    ensures DecodeRecord(EncodeRecord(r)) == r
  {
    var bs := EncodeRecord(r);
    assert bs[0..8] == Encode(r.clientId, 8);
    assert bs[8..16] == Encode(r.offset, 8);
    assert bs[16..24] == Encode(r.txId, 8);
    assert bs[24..28] == Encode(r.pathLen, 4);
    assert bs[28..32] == Encode(r.length, 4);
    assert bs[32..36] == Encode(r.command, 4);
    assert bs[36..40] == Encode(r.increment, 4);
    IntRoundTrip(r.clientId, 8);
    IntRoundTrip(r.offset, 8);
    IntRoundTrip(r.txId, 8);
    IntRoundTrip(r.pathLen, 4);
    IntRoundTrip(r.length, 4);
    IntRoundTrip(r.command, 4);
    IntRoundTrip(r.increment, 4);
  }

  /** Where each field is. */
  lemma RecordLayout(r: Record)
    ensures var bs := EncodeRecord(r);
            && |bs| == 40 && Holds64(bs, 0, r.clientId) && Holds64(bs, 8, r.offset) && Holds64(bs, 16, r.txId)
            && Holds32(bs, 24, r.pathLen) && Holds32(bs, 28, r.length)
            && Holds32(bs, 32, r.command) && Holds32(bs, 36, r.increment)
  {
    var bs := EncodeRecord(r);
    assert bs[0..8] == Encode(r.clientId, 8);
    assert bs[8..16] == Encode(r.offset, 8);
    assert bs[16..24] == Encode(r.txId, 8);
    assert bs[24..28] == Encode(r.pathLen, 4);
    assert bs[28..32] == Encode(r.length, 4);
    assert bs[32..36] == Encode(r.command, 4);
    assert bs[36..40] == Encode(r.increment, 4);
    EncodedInEight(bs, 0, r.clientId);
    EncodedInEight(bs, 8, r.offset);
    EncodedInEight(bs, 16, r.txId);
    EncodedInFour(bs, 24, r.pathLen);
    EncodedInFour(bs, 28, r.length);
    EncodedInFour(bs, 32, r.command);
    EncodedInFour(bs, 36, r.increment);
  }

  datatype Request = Request(rec: Record, path: seq<byte>)

  /** Every caller sets `pathLen` to the path's length. */
  predicate ValidRequest(q: Request) {
    q.rec.pathLen == |q.path|
  }

  /** The record that every operation fills in, with its path. */
  function NewRequest(id: nat, path: seq<byte>, offset: int64, length: int32, command: int32): Request
    requires id < 0x8000_0000 && |path| < 0x7fff_0000
  {
    Request(Record(0, offset, id, |path|, length, command, 0), path)
  }

  function Frame(q: Request): seq<byte> {
    EncodeRecord(q.rec) + q.path
  }

  datatype Parsed = Incomplete | Parsed(q: Request, rest: seq<byte>)

  /** What a reader makes of the bytes at the front of the pipe. */
  function ParseFrame(bs: seq<byte>): (p: Parsed)
    ensures p.Parsed? ==> |p.rest| < |bs|
  {
    if |bs| < RECORD_SIZE then Incomplete
    else
      var rec := DecodeRecord(bs[..RECORD_SIZE]);
      var end := RECORD_SIZE + rec.pathLen;
      if rec.pathLen < 0 || end > |bs| then Incomplete
      else Parsed(Request(rec, bs[RECORD_SIZE..end]), bs[end..])
  }

  lemma FrameRoundTrip(q: Request, rest: seq<byte>)
    requires ValidRequest(q)
    ensures ParseFrame(Frame(q) + rest) == Parsed(q, rest)
  {
    var bs := Frame(q) + rest;
    assert bs[..RECORD_SIZE] == EncodeRecord(q.rec);
    RecordRoundTrip(q.rec);
    assert bs[RECORD_SIZE..RECORD_SIZE + |q.path|] == q.path;
    assert bs[RECORD_SIZE + |q.path|..] == rest;
  }

  /** One whole request, byte by byte: client 0, increment 0, the slot's id, the path with its length, and what is
      asked of it. */
  predicate AsksInBytes(bs: seq<byte>, id: nat, path: seq<byte>, offset: int, length: int, command: int) {
    && |bs| == 40 + |path| && bs[40..] == path
    && Holds64(bs, 0, 0) && Holds64(bs, 8, offset) && Holds64(bs, 16, id)
    && Holds32(bs, 24, |path|) && Holds32(bs, 28, length) && Holds32(bs, 32, command) && Holds32(bs, 36, 0)
  }

  /** What a reader makes of it. */
  predicate ReadsAs(p: Parsed, id: nat, path: seq<byte>, offset: int, length: int, command: int) {
    && p.Parsed? && p.rest == [] && p.q.path == path
    && p.q.rec.clientId == 0 && p.q.rec.offset == offset && p.q.rec.txId == id && p.q.rec.pathLen == |path|
    && p.q.rec.length == length && p.q.rec.command == command && p.q.rec.increment == 0
  }

  predicate Asks(bs: seq<byte>, id: nat, path: seq<byte>, offset: int, length: int, command: int) {
    AsksInBytes(bs, id, path, offset, length, command) && ReadsAs(ParseFrame(bs), id, path, offset, length, command)
  }

  lemma HoldsBehind(bs: seq<byte>, tail: seq<byte>, at: nat, v: int)
    ensures Holds32(bs, at, v) ==> Holds32(bs + tail, at, v)
    ensures Holds64(bs, at, v) ==> Holds64(bs + tail, at, v)
  {}

  lemma RequestInBytes(id: nat, path: seq<byte>, offset: int64, length: int32, command: int32)
    requires id < 0x8000_0000 && |path| < 0x7fff_0000
    ensures AsksInBytes(Frame(NewRequest(id, path, offset, length, command)), id, path, offset, length, command)
  {
    var rec := NewRequest(id, path, offset, length, command).rec;
    var bs := EncodeRecord(rec);
    RecordLayout(rec);
    HoldsBehind(bs, path, 0, 0);
    HoldsBehind(bs, path, 8, offset);
    HoldsBehind(bs, path, 16, id);
    HoldsBehind(bs, path, 24, |path|);
    HoldsBehind(bs, path, 28, length);
    HoldsBehind(bs, path, 32, command);
    HoldsBehind(bs, path, 36, 0);
  }

  lemma RequestAsks(id: nat, path: seq<byte>, offset: int64, length: int32, command: int32)
    requires id < 0x8000_0000 && |path| < 0x7fff_0000
    ensures Asks(Frame(NewRequest(id, path, offset, length, command)), id, path, offset, length, command)
  {
    var q := NewRequest(id, path, offset, length, command);
    RequestInBytes(id, path, offset, length, command);
    assert Frame(q) + [] == Frame(q);
    FrameRoundTrip(q, []);
  }

  /** Less than a whole frame is never taken for one. */
  lemma PartialFrameIsIncomplete(q: Request, n: nat)
    requires ValidRequest(q) && n < |Frame(q)|
    ensures ParseFrame(Frame(q)[..n]) == Incomplete
  {
    if n >= RECORD_SIZE {
      assert Frame(q)[..n][..RECORD_SIZE] == EncodeRecord(q.rec);
      RecordRoundTrip(q.rec);
    }
  }

  // ----- Streams of frames

  ghost predicate IsFrame(m: seq<byte>) {
    exists q :: ValidRequest(q) && m == Frame(q)
  }

  ghost predicate AllFrames(ms: seq<seq<byte>>) {
    forall i :: 0 <= i < |ms| ==> IsFrame(ms[i])
  }

  /** The request that a whole frame stands for. */
  function RequestOf(m: seq<byte>): Request {
    match ParseFrame(m)
    case Parsed(q, _) => q
    case Incomplete => Request(Record(0, 0, 0, 0, 0, 0, 0), [])
  }

  function RequestsOf(ms: seq<seq<byte>>): seq<Request> {
    seq(|ms|, i requires 0 <= i < |ms| => RequestOf(ms[i]))
  }

  /** Everything a reader makes of the pipe, front to back. */
  function DecodeAll(bs: seq<byte>): seq<Request>
    decreases |bs|
  {
    match ParseFrame(bs)
    case Incomplete => []
    case Parsed(q, rest) => [q] + DecodeAll(rest)
  }

  lemma RequestOfFrame(q: Request)
    requires ValidRequest(q)
    ensures RequestOf(Frame(q)) == q
  {
    FrameRoundTrip(q, []);
    assert Frame(q) + [] == Frame(q);
  }

  lemma DecodeFirst(m: seq<byte>, rest: seq<byte>)
    requires IsFrame(m)
    ensures ParseFrame(m + rest) == Parsed(RequestOf(m), rest)
  {
    var q :| ValidRequest(q) && m == Frame(q);
    FrameRoundTrip(q, rest);
    RequestOfFrame(q);
  }

  lemma DecodeCons(m: seq<byte>, rest: seq<byte>)
    requires IsFrame(m)
    ensures DecodeAll(m + rest) == [RequestOf(m)] + DecodeAll(rest)
  {
    DecodeFirst(m, rest);
  }

  lemma AssociateTail(a: seq<byte>, b: seq<byte>, c: seq<byte>)
    ensures a + b + c == a + (b + c)
  {}

  lemma StreamCons(ms: seq<seq<byte>>, tail: seq<byte>)
    requires ms != [] && IsFrame(ms[0])
    ensures DecodeAll(Concat(ms) + tail) == [RequestOf(ms[0])] + DecodeAll(Concat(ms[1..]) + tail)
  {
    DecodeCons(ms[0], Concat(ms[1..]) + tail);
    AssociateTail(ms[0], Concat(ms[1..]), tail);
  }

  /** The reader recovers the requests written, whatever incomplete bytes follow them. */
  lemma {:induction false} StreamRoundTrip(ms: seq<seq<byte>>, tail: seq<byte>)
    requires AllFrames(ms) && DecodeAll(tail) == []
    ensures DecodeAll(Concat(ms) + tail) == RequestsOf(ms)
  {
    if ms == [] {
      assert Concat(ms) + tail == tail;
    } else {
      StreamCons(ms, tail);
      StreamRoundTrip(ms[1..], tail);
      RequestsCons(ms);
    }
  }

  lemma RequestsCons(ms: seq<seq<byte>>)
    requires ms != []
    ensures RequestsOf(ms) == [RequestOf(ms[0])] + RequestsOf(ms[1..])
  {}

  function Frames(qs: seq<Request>): (ms: seq<seq<byte>>)
    ensures |ms| == |qs|
  {
    seq(|qs|, i requires 0 <= i < |qs| => Frame(qs[i]))
  }

  lemma FramesAreFrames(qs: seq<Request>)
    requires forall i :: 0 <= i < |qs| ==> ValidRequest(qs[i])
    ensures AllFrames(Frames(qs)) && RequestsOf(Frames(qs)) == qs
  {
    forall i | 0 <= i < |qs|
      ensures IsFrame(Frames(qs)[i]) && RequestOf(Frames(qs)[i]) == qs[i]
    {
      RequestOfFrame(qs[i]);
      assert Frames(qs)[i] == Frame(qs[i]);
    }
  }

  lemma FramesDecode(qs: seq<Request>)
    requires forall i :: 0 <= i < |qs| ==> ValidRequest(qs[i])
    ensures DecodeAll(Concat(Frames(qs))) == qs
  {
    FramesAreFrames(qs);
    StreamRoundTrip(Frames(qs), []);
    assert Concat(Frames(qs)) + [] == Concat(Frames(qs));
  }

  /** The byte stream determines the sequence of requests. */
  lemma FramingIsInjective(a: seq<Request>, b: seq<Request>)
    requires forall i :: 0 <= i < |a| ==> ValidRequest(a[i])
    requires forall i :: 0 <= i < |b| ==> ValidRequest(b[i])
    ensures Concat(Frames(a)) == Concat(Frames(b)) <==> a == b
  {
    FramesDecode(a);
    FramesDecode(b);
  }

  // ----- Any number of writers

  /** One lock-holder's turn at the pipe, over or not: its message and how many bytes of it went in. */
  datatype Turn = Turn(msg: seq<byte>, sent: nat)

  /** The pipe, the writer that holds the lock if any, and the turns that are over, in lock order. */
  datatype Pipe = Pipe(content: seq<byte>, holders: seq<Turn>, log: seq<Turn>)

  /** `Lock` is a writer's attempt to get the lock; `Write(n)` a write that takes at least one and at
      most `n` bytes of what the holder has left; `Fail` a write that returns -1. */
  datatype Move = Lock(msg: seq<byte>) | Write(n: positive) | Fail

  predicate ValidTurn(t: Turn) {
    t.sent <= |t.msg| && t.msg != []
  }

  predicate Complete(t: Turn) {
    t.sent == |t.msg|
  }

  function Apply(p: Pipe, m: Move): Pipe {
    match m
    case Lock(msg) => if p.holders == [] then p.(holders := [Turn(msg, 0)]) else p
    case Write(n) =>
      if p.holders == [] then p
      else
        var t := p.holders[0];
        var end := Min(t.sent + n, |t.msg|);
        var bytes := if t.sent <= end then t.msg[t.sent..end] else [];
        var u := t.(sent := end);
        if Complete(u) then Pipe(p.content + bytes, [], p.log + [u])
        else Pipe(p.content + bytes, [u], p.log)
    case Fail => if p.holders == [] then p else p.(holders := [], log := p.log + p.holders)
  }

  function Run(p: Pipe, ms: seq<Move>): Pipe
    decreases |ms|
  {
    if ms == [] then p else Run(Apply(p, ms[0]), ms[1..])
  }

  /** What each turn left in the pipe. */
  function Parts(ts: seq<Turn>): (ps: seq<seq<byte>>)
    ensures |ps| == |ts|
  {
    seq(|ts|, i requires 0 <= i < |ts| => ts[i].msg[..Min(ts[i].sent, |ts[i].msg|)])
  }

  ghost predicate Inv(p: Pipe) {
    && |p.holders| <= 1
    && (forall i :: 0 <= i < |p.holders| ==> ValidTurn(p.holders[i]) && !Complete(p.holders[i]))
    && (forall i :: 0 <= i < |p.log| ==> ValidTurn(p.log[i]))
    && p.content == Concat(Parts(p.log + p.holders))
  }

  predicate ValidMove(m: Move) {
    m.Lock? ==> m.msg != []
  }

  lemma PartsSnoc(ts: seq<Turn>, t: Turn)
    requires t.sent <= |t.msg|
    ensures Concat(Parts(ts + [t])) == Concat(Parts(ts)) + t.msg[..t.sent]
  {
    assert Parts(ts + [t]) == Parts(ts) + [t.msg[..t.sent]];
    ConcatSnoc(Parts(ts), t.msg[..t.sent]);
  }

  lemma ApplyKeepsInv(p: Pipe, m: Move)
    requires Inv(p) && ValidMove(m)
    ensures Inv(Apply(p, m))
  {
    if m.Lock? && p.holders == [] {
      PartsSnoc(p.log, Turn(m.msg, 0));
      assert p.log + p.holders == p.log;
    } else if !m.Lock? && p.holders != [] {
      var t := p.holders[0];
      assert p.holders == [t];
      assert p.log + p.holders + [] == p.log + p.holders;
      if m.Write? {
        var end := Min(t.sent + m.n, |t.msg|);
        WriteExtends(p.log, t, end);
        assert Apply(p, m).log + Apply(p, m).holders == p.log + [t.(sent := end)];
      }
    }
  }

  lemma WriteExtends(log: seq<Turn>, t: Turn, end: nat)
    requires t.sent <= end <= |t.msg|
    ensures Concat(Parts(log + [t])) + t.msg[t.sent..end] == Concat(Parts(log + [t.(sent := end)]))
  {
    PartsSnoc(log, t);
    PartsSnoc(log, t.(sent := end));
    assert t.msg[..t.sent] + t.msg[t.sent..end] == t.msg[..end];
  }

  lemma {:induction false} RunKeepsInv(p: Pipe, ms: seq<Move>)
    requires Inv(p) && forall i :: 0 <= i < |ms| ==> ValidMove(ms[i])
    ensures Inv(Run(p, ms))
    decreases |ms|
  {
    if ms != [] {
      ApplyKeepsInv(p, ms[0]);
      RunKeepsInv(Apply(p, ms[0]), ms[1..]);
    }
  }

  /** The messages of the turns that wrote everything. */
  function Completed(log: seq<Turn>): seq<seq<byte>> {
    if log == [] then []
    else (if Complete(log[0]) then [log[0].msg] else []) + Completed(log[1..])
  }

  /** A turn that failed after some of its bytes were written. */
  predicate Torn(t: Turn) {
    !Complete(t) && t.sent > 0
  }

  predicate NoneTorn(log: seq<Turn>) {
    forall i :: 0 <= i < |log| ==> !Torn(log[i])
  }

  lemma {:induction false} PartsOfLog(log: seq<Turn>)
    requires forall i :: 0 <= i < |log| ==> ValidTurn(log[i])
    ensures |Concat(Parts(log))| >= |Concat(Completed(log))|
    ensures |Concat(Parts(log))| == |Concat(Completed(log))| <==> NoneTorn(log)
    ensures NoneTorn(log) ==> Concat(Parts(log)) == Concat(Completed(log))
  {
    if log != [] {
      var t := log[0];
      PartsOfLog(log[1..]);
      assert Parts(log) == [t.msg[..t.sent]] + Parts(log[1..]);
      ConcatCons(t.msg[..t.sent], Parts(log[1..]));
      assert NoneTorn(log) <==> !Torn(t) && NoneTorn(log[1..]) by {
        assert log == [t] + log[1..];
      }
      if Complete(t) {
        assert t.msg[..t.sent] == t.msg;
        ConcatCons(t.msg, Completed(log[1..]));
      } else {
        assert Completed(log) == [] + Completed(log[1..]) == Completed(log[1..]);
      }
    }
  }

  const EMPTY: Pipe := Pipe([], [], [])

  /** Lock theorem. For every interleaving of writers and every pattern of short writes: with the lock
      free, the pipe holds the complete messages, in lock order, and nothing else, if and only if no
      writer failed after part of its message was written. */
  lemma WholeMessagesInLockOrder(ms: seq<Move>)
    requires forall i :: 0 <= i < |ms| ==> ValidMove(ms[i])
    ensures var p := Run(EMPTY, ms);
            && (p.holders == [] ==> (p.content == Concat(Completed(p.log)) <==> NoneTorn(p.log)))
            && (p.holders != [] && NoneTorn(p.log) ==>
                  && p.holders[0].sent < |p.holders[0].msg|
                  && p.content == Concat(Completed(p.log)) + p.holders[0].msg[..p.holders[0].sent])
  {
    assert Inv(EMPTY);
    RunKeepsInv(EMPTY, ms);
    var p := Run(EMPTY, ms);
    PartsOfLog(p.log);
    if p.holders == [] {
      assert p.log + p.holders == p.log;
    } else {
      assert p.holders == [p.holders[0]];
      PartsSnoc(p.log, p.holders[0]);
    }
  }

  lemma {:induction false} CompletedSnoc(ts: seq<Turn>, t: Turn)
    ensures Completed(ts + [t]) == Completed(ts) + if Complete(t) then [t.msg] else []
  {
    if ts == [] {
      assert ts + [t] == [t];
    } else {
      var first := if Complete(ts[0]) then [ts[0].msg] else [];
      assert (ts + [t])[0] == ts[0] && (ts + [t])[1..] == ts[1..] + [t];
      CompletedSnoc(ts[1..], t);
      assert Completed(ts + [t]) == first + Completed(ts[1..] + [t]);
    }
  }

  /** The turns in lock order, the holder's last. */
  function TurnsOf(p: Pipe): seq<Turn> {
    p.log + p.holders
  }

  /** No turn was torn, except perhaps the last one, which has nothing behind it. */
  predicate NothingBehindTorn(ts: seq<Turn>) {
    ts != [] ==> NoneTorn(ts[..|ts| - 1])
  }

  /** Whole frames, and a part of another behind them. */
  lemma TailIsIgnored(init: seq<Turn>, t: Turn, content: seq<byte>)
    requires ValidTurn(t) && IsFrame(t.msg) && AllFrames(Completed(init))
    requires content == Concat(Completed(init)) + t.msg[..t.sent]
    ensures DecodeAll(content) == RequestsOf(Completed(init + [t]))
  {
    CompletedSnoc(init, t);
    if Complete(t) {
      assert t.msg[..t.sent] == t.msg;
      ConcatSnoc(Completed(init), t.msg);
      assert content == Concat(Completed(init + [t])) + [];
      StreamRoundTrip(Completed(init + [t]), []);
    } else {
      PartIsIncomplete(t.msg, t.sent);
      assert Completed(init + [t]) == Completed(init);
      StreamRoundTrip(Completed(init), t.msg[..t.sent]);
    }
  }

  /** Framing theorem. When the messages are frames, the responder decodes at every moment exactly the
      requests of the completed turns in lock order, as long as nothing is behind a torn frame. */
  lemma FramesDecodeInLockOrder(ms: seq<Move>)
    requires forall i :: 0 <= i < |ms| ==> ms[i].Lock? ==> IsFrame(ms[i].msg)
    ensures var p := Run(EMPTY, ms);
            NothingBehindTorn(TurnsOf(p)) ==> DecodeAll(p.content) == RequestsOf(Completed(TurnsOf(p)))
  {
    FramesRun(ms);
    var p := Run(EMPTY, ms);
    if NothingBehindTorn(TurnsOf(p)) {
      TurnsDecode(TurnsOf(p), p.content);
    }
  }

  lemma FramesRun(ms: seq<Move>)
    requires forall i :: 0 <= i < |ms| ==> ms[i].Lock? ==> IsFrame(ms[i].msg)
    ensures var p := Run(EMPTY, ms);
            && (forall i :: 0 <= i < |TurnsOf(p)| ==> ValidTurn(TurnsOf(p)[i])) && HoldsFrames(TurnsOf(p))
            && p.content == Concat(Parts(TurnsOf(p)))
  {
    forall i | 0 <= i < |ms| ensures ValidMove(ms[i]) {}
    assert Inv(EMPTY);
    RunKeepsInv(EMPTY, ms);
    TurnsAreFrames(EMPTY, ms);
  }

  lemma TurnsDecode(ts: seq<Turn>, content: seq<byte>)
    requires (forall i :: 0 <= i < |ts| ==> ValidTurn(ts[i])) && HoldsFrames(ts) && NothingBehindTorn(ts)
    requires content == Concat(Parts(ts))
    ensures DecodeAll(content) == RequestsOf(Completed(ts))
  {
    if ts == [] {
      assert Completed(ts) == [];
    } else {
      var init, last := ts[..|ts| - 1], ts[|ts| - 1];
      assert ts == init + [last];
      PartsSnoc(init, last);
      PartsOfLog(init);
      CompletedAreFrames(init);
      TailIsIgnored(init, last, content);
    }
  }

  /** A writer fails in the middle of message `f`, after `n` bytes, and another writes `g` whole. */
  function TornMoves(f: seq<byte>, n: positive, g: seq<byte>): seq<Move> {
    [Lock(f), Write(n), Fail, Lock(g), Write(if g == [] then 1 else |g|)]
  }

  lemma TornRun(f: seq<byte>, n: positive, g: seq<byte>)
    requires n < |f| && g != []
    ensures Run(EMPTY, TornMoves(f, n, g)) == Pipe(f[..n] + g, [], [Turn(f, n), Turn(g, |g|)])
  {
    var ms := TornMoves(f, n, g);
    var a := Pipe([], [Turn(f, 0)], []);
    var b := Pipe(f[..n], [Turn(f, n)], []);
    var c := Pipe(f[..n], [], [Turn(f, n)]);
    var d := Pipe(f[..n], [Turn(g, 0)], [Turn(f, n)]);
    var e := Pipe(f[..n] + g, [], [Turn(f, n), Turn(g, |g|)]);
    assert Apply(EMPTY, ms[0]) == a;
    assert f[0..n] == f[..n] && [] + f[..n] == f[..n] && Apply(a, ms[1]) == b;
    assert Apply(b, ms[2]) == c && Apply(c, ms[3]) == d;
    assert g[0..|g|] == g && Apply(d, ms[4]) == e;
    assert Run(d, ms[4..]) == Run(e, ms[5..]) == e;
    assert Run(c, ms[3..]) == Run(d, ms[3..][1..]) && ms[3..][1..] == ms[4..];
    assert Run(b, ms[2..]) == Run(c, ms[2..][1..]) && ms[2..][1..] == ms[3..];
    assert Run(a, ms[1..]) == Run(b, ms[1..][1..]) && ms[1..][1..] == ms[2..];
  }

  lemma CompletedAfterTorn(f: seq<byte>, n: nat, g: seq<byte>)
    requires n < |f|
    ensures Completed([Turn(f, n), Turn(g, |g|)]) == [g]
  {
    var torn, whole := Turn(f, n), Turn(g, |g|);
    CompletedSnoc([torn], whole);
    CompletedSnoc([], torn);
    assert [] + [torn] == [torn] && [torn] + [whole] == [torn, whole];
    assert Completed([]) == [] && Completed([torn]) == [] && [] + [g] == [g];
  }

  /** The path that a reader makes up when a frame of `q` breaks off after `n` bytes, its record whole: what is missing
      is taken from the bytes behind it. */
  function MendedPath(q: Request, n: nat, behind: seq<byte>): seq<byte>
    requires RECORD_SIZE <= n < |Frame(q)| && |Frame(q)| - n <= |behind|
  {
    q.path[..n - RECORD_SIZE] + behind[..|Frame(q)| - n]
  }

  lemma MendedFrame(q: Request, n: nat, behind: seq<byte>)
    requires ValidRequest(q) && RECORD_SIZE <= n < |Frame(q)| && |Frame(q)| - n <= |behind|
    ensures ParseFrame(Frame(q)[..n] + behind)
         == Parsed(Request(q.rec, MendedPath(q, n, behind)), behind[|Frame(q)| - n..])
  {
    var mended := Request(q.rec, MendedPath(q, n, behind));
    var k := |Frame(q)| - n;
    MendedBytes(EncodeRecord(q.rec), q.path, n, behind, k);
    FrameRoundTrip(mended, behind[k..]);
  }

  lemma MendedBytes(record: seq<byte>, path: seq<byte>, n: nat, behind: seq<byte>, k: nat)
    requires |record| <= n <= |record + path| && k <= |behind|
    ensures (record + path)[..n] + behind == record + (path[..n - |record|] + behind[..k]) + behind[k..]
  {
    assert (record + path)[..n] == record + path[..n - |record|];
  }

  /** Behind a torn frame the responder is misled. For any two requests: when a writer of the first fails after the
      record, in the middle of the path, and the second goes in behind it, the responder first decodes a request
      with the first one's record and a path that is partly the second one's frame. Only the second was made. */
  lemma TornFrameMisleads(q: Request, n: positive, q2: Request)
    requires ValidRequest(q) && ValidRequest(q2)
    requires RECORD_SIZE <= n < |Frame(q)| && |Frame(q)| - n <= |Frame(q2)| && q.rec != q2.rec
    ensures var p := Run(EMPTY, TornMoves(Frame(q), n, Frame(q2)));
            && RequestsOf(Completed(TurnsOf(p))) == [q2]
            && DecodeAll(p.content) != [] && DecodeAll(p.content)[0] == Request(q.rec, MendedPath(q, n, Frame(q2)))
            && DecodeAll(p.content) != RequestsOf(Completed(TurnsOf(p)))
  {
    var f, g := Frame(q), Frame(q2);
    TornRun(f, n, g);
    CompletedAfterTorn(f, n, g);
    var p := Pipe(f[..n] + g, [], [Turn(f, n), Turn(g, |g|)]);
    assert TurnsOf(p) == p.log;
    RequestOfFrame(q2);
    assert RequestsOf([g]) == [q2];
    MendedFrame(q, n, g);
    FirstDecoded(p.content);
  }

  lemma FirstDecoded(bs: seq<byte>)
    requires ParseFrame(bs).Parsed?
    ensures DecodeAll(bs) != [] && DecodeAll(bs)[0] == ParseFrame(bs).q
  {}

  lemma PartIsIncomplete(m: seq<byte>, n: nat)
    requires IsFrame(m) && n < |m|
    ensures ParseFrame(m[..n]) == Incomplete
  {
    var q :| ValidRequest(q) && m == Frame(q);
    PartialFrameIsIncomplete(q, n);
  }

  ghost predicate HoldsFrames(ts: seq<Turn>) {
    forall i :: 0 <= i < |ts| ==> IsFrame(ts[i].msg)
  }

  lemma {:induction false} TurnsAreFrames(p: Pipe, ms: seq<Move>)
    requires HoldsFrames(p.log) && HoldsFrames(p.holders)
    requires forall i :: 0 <= i < |ms| ==> ms[i].Lock? ==> IsFrame(ms[i].msg)
    ensures HoldsFrames(Run(p, ms).log) && HoldsFrames(Run(p, ms).holders)
    decreases |ms|
  {
    if ms != [] {
      assert ms[0].Lock? ==> IsFrame(ms[0].msg);
      TurnsAreFrames(Apply(p, ms[0]), ms[1..]);
    }
  }

  lemma {:induction false} CompletedAreFrames(log: seq<Turn>)
    requires HoldsFrames(log)
    ensures AllFrames(Completed(log))
  {
    if log != [] {
      CompletedAreFrames(log[1..]);
    }
  }

  // ----- The writing calls

  /** The results of successive `write` calls: a short count, or -1. When the list is used up a
      write takes everything it is given. */
  datatype Outcome = Wrote(n: positive) | WriteError

  /** How many of `len` bytes go in. */
  function Transferred(len: positive, outcomes: seq<Outcome>): (n: nat)
    ensures n <= len
    decreases |outcomes|
  {
    if outcomes == [] then len
    else if outcomes[0].WriteError? then 0
    else
      var n := outcomes[0].n;
      if n >= len then len else n + Transferred(len - n, outcomes[1..])
  }

  class Control {
    var content: seq<byte>

    constructor ()
      ensures content == []
    {
      content := [];
    }

    /** `blkfs_do_write_control_string`: recursion finishes a short write. */
    method DoWriteString(msg: seq<byte>, outcomes: seq<Outcome>) returns (rez: int)
      requires msg != []
      modifies this
      ensures content == old(content) + msg[..Transferred(|msg|, outcomes)]
      ensures rez == if Transferred(|msg|, outcomes) == |msg| then 0 else -1
      decreases |outcomes|
    {
      if |outcomes| > 0 && outcomes[0].WriteError? {
        assert content == old(content) + msg[..0];
        return -1;
      }
      var writeRet := if |outcomes| == 0 then |msg| else Min(outcomes[0].n, |msg|);
      content := content + msg[..writeRet];
      if writeRet < |msg| {
        rez := DoWriteString(msg[writeRet..], outcomes[1..]);
        ghost var n := Transferred(|msg| - writeRet, outcomes[1..]);
        assert msg[..writeRet] + msg[writeRet..][..n] == msg[..writeRet + n];
        return rez;
      }
      assert msg[..|msg|] == msg;
      return 0;
    }

    /** `blkfs_write_control_message`. It returns 0 exactly when the whole frame is in the pipe, and
        otherwise -1 with a proper prefix of it there. */
    method WriteMessage(q: Request, haveMemory: bool, outcomes: seq<Outcome>) returns (rez: int)
      modifies this
      ensures rez == 0 || rez == -1
      ensures rez == 0 ==> content == old(content) + Frame(q)
      ensures rez == -1 ==> exists n: nat :: n < |Frame(q)| && content == old(content) + Frame(q)[..n]
      ensures rez == 0 <==> haveMemory && Transferred(|Frame(q)|, outcomes) == |Frame(q)|
    {
      if !haveMemory {
        assert content == old(content) + Frame(q)[..0];
        return -1;
      }
      var buf := Frame(q);
      rez := DoWriteString(buf, outcomes);
      assert buf[..|buf|] == buf;
    }
  }

  /** The call's writes as moves of the lock-holder. */
  function Moves(len: positive, outcomes: seq<Outcome>): seq<Move>
    decreases |outcomes|
  {
    if outcomes == [] then [Write(len)]
    else if outcomes[0].WriteError? then [Fail]
    else
      var n := outcomes[0].n;
      if n >= len then [Write(n)] else [Write(n)] + Moves(len - n, outcomes[1..])
  }

  /** The pipe when the holder's turn has ended with `k` more bytes written. */
  function TurnEnded(p: Pipe, t: Turn, k: nat): Pipe
    requires t.sent + k <= |t.msg|
  {
    Pipe(p.content + t.msg[t.sent..t.sent + k], [], p.log + [Turn(t.msg, t.sent + k)])
  }

  lemma ErrorEndsTurn(p: Pipe, t: Turn)
    requires p.holders == [t] && t.sent < |t.msg|
    ensures Run(p, [Fail]) == TurnEnded(p, t, 0)
  {
    assert t.msg[t.sent..t.sent] == [];
    assert Run(p, [Fail]) == Run(Apply(p, Fail), [Fail][1..]);
  }

  lemma LastWriteEndsTurn(p: Pipe, t: Turn, n: positive)
    requires p.holders == [t] && t.sent < |t.msg| <= t.sent + n
    ensures Run(p, [Write(n)]) == TurnEnded(p, t, |t.msg| - t.sent)
  {
    assert Run(p, [Write(n)]) == Run(Apply(p, Write(n)), [Write(n)][1..]);
  }

  /** A short write leaves the lock with its holder. */
  function Written(p: Pipe, t: Turn, n: positive): Pipe
    requires t.sent + n < |t.msg|
  {
    Pipe(p.content + t.msg[t.sent..t.sent + n], [Turn(t.msg, t.sent + n)], p.log)
  }

  lemma ShortWriteStays(p: Pipe, t: Turn, n: positive, ms: seq<Move>)
    requires p.holders == [t] && t.sent + n < |t.msg|
    ensures Run(p, [Write(n)] + ms) == Run(Written(p, t, n), ms)
  {
    assert ([Write(n)] + ms)[1..] == ms;
  }

  lemma TurnEndsLater(p: Pipe, t: Turn, n: positive, k: nat)
    requires t.sent + n < |t.msg| && t.sent + n + k <= |t.msg|
    ensures TurnEnded(Written(p, t, n), Turn(t.msg, t.sent + n), k) == TurnEnded(p, t, n + k)
  {
    var a, b, c := t.sent, t.sent + n, t.sent + n + k;
    assert t.msg[a..b] + t.msg[b..c] == t.msg[a..c];
  }

  /** The call is one turn of the lock. */
  predicate OneTurn(p: Pipe, t: Turn, outcomes: seq<Outcome>)
    requires t.sent < |t.msg|
  {
    var len := |t.msg| - t.sent;
    Run(p, Moves(len, outcomes)) == TurnEnded(p, t, Transferred(len, outcomes))
  }

  lemma ShortCallIsOneTurn(p: Pipe, t: Turn, n: positive, rest: seq<Outcome>)
    requires p.holders == [t] && t.sent + n < |t.msg|
    requires OneTurn(Written(p, t, n), Turn(t.msg, t.sent + n), rest)
    ensures OneTurn(p, t, [Wrote(n)] + rest)
  {
    var len, outcomes := |t.msg| - t.sent, [Wrote(n)] + rest;
    assert outcomes[1..] == rest;
    ShortWriteStays(p, t, n, Moves(len - n, rest));
    TurnEndsLater(p, t, n, Transferred(len - n, rest));
  }

  /** What the call puts into the pipe is what its moves put there: it is one turn of the lock. */
  lemma {:induction false} CallIsOneTurn(p: Pipe, t: Turn, outcomes: seq<Outcome>)
    requires p.holders == [t] && t.sent < |t.msg|
    ensures OneTurn(p, t, outcomes)
    decreases |outcomes|
  {
    var len := |t.msg| - t.sent;
    if outcomes == [] {
      LastWriteEndsTurn(p, t, len);
    } else if outcomes[0].WriteError? {
      ErrorEndsTurn(p, t);
    } else if outcomes[0].n >= len {
      LastWriteEndsTurn(p, t, outcomes[0].n);
    } else {
      var n := outcomes[0].n;
      CallIsOneTurn(Written(p, t, n), Turn(t.msg, t.sent + n), outcomes[1..]);
      ShortCallIsOneTurn(p, t, n, outcomes[1..]);
      assert outcomes == [Wrote(n)] + outcomes[1..];
    }
  }
}

/** The receiving call against a peer that only sends: the call is one run of the interleaved
    programs, so it returns what the transfer theorem says every interleaving delivers. */
module Delivery {
  import opened Bytes
  import opened MemSlot
  import opened Transfer
  import opened SlotCalls

  function Sends(out: seq<seq<byte>>): (es: seq<Event>)
    ensures |es| == |out| && forall i :: 0 <= i < |out| ==> es[i] == Send(out[i])
  {
    seq(|out|, i requires 0 <= i < |out| => Send(out[i]))
  }

  lemma SendsRest(out: seq<seq<byte>>)
    requires out != []
    ensures Sends(out)[1..] == Sends(out[1..])
  {}

  ghost predicate Reaches(a: Session, b: Session, n: nat)
    decreases n
  {
    if n == 0 then a == b else exists m :: Next(a, m) && Reaches(m, b, n - 1)
  }

  lemma ReachesFirst(a: Session, m: Session, b: Session, n: nat)
    requires Next(a, m) && Reaches(m, b, n)
    ensures Reaches(a, b, n + 1)
  {}

  lemma {:induction false} ReachesKeeps(kept: Session -> bool, a: Session, b: Session, n: nat)
    requires kept(a) && Reaches(a, b, n)
    requires forall x, y :: kept(x) && Next(x, y) ==> kept(y)
    ensures kept(b)
    decreases n
  {
    if n > 0 {
      var m :| Next(a, m) && Reaches(m, b, n - 1);
      ReachesKeeps(kept, m, b, n - 1);
    }
  }

  lemma CarriesReaches(a: Session, b: Session, n: nat, msg: seq<byte>, marked: bool, max: positive)
    requires Carries(a, msg, marked, max) && Reaches(a, b, n)
    ensures Carries(b, msg, marked, max)
  {
    var kept: Session -> bool := (x: Session) => Carries(x, msg, marked, max);
    forall x: Session, y: Session | kept(x) && Next(x, y) ensures kept(y) {
      CarriesNext(x, y, msg, marked, max);
    }
    ReachesKeeps(kept, a, b, n);
    assert kept(b);
  }

  /** What one receiving call does to the peer's list of sends. */
  datatype Left = Left(n: nat, out: seq<seq<byte>>)

  /** The session in which a gathered result leaves a call: a failed call is one that is waiting. */
  function Ended(r: Gathered, out: seq<seq<byte>>): Session {
    Session(r.h.slot, out, if r.client.phase.Failed? then r.client.(phase := Running) else r.client)
  }

  lemma ImplSends(h: History, c: Client, out: seq<seq<byte>>)
    requires WellFormed(h.slot) && CanSend(h.slot) && out != [] && !h.slot.terminated
    requires c.phase.Running? && |c.got| < c.max
    ensures ReceiveLoop(h, c, Sends(out)) == ReceiveLoop(Step(h, Send(out[0])), c, Sends(out[1..]))
  {
    SendsRest(out);
    var g := Step(h, Send(out[0]));
    assert WaitFor(h, Sending, Sends(out)) == WaitFor(g, Sending, Sends(out[1..])) == Waited(true, g, Sends(out[1..]));
    assert ReceiveImpl(h, Remaining(c), Sends(out)) == ReceiveImpl(g, Remaining(c), Sends(out[1..]));
  }

  lemma ImplTimesOut(h: History, c: Client)
    requires WellFormed(h.slot) && CanSend(h.slot)
    requires c.phase.Running? && |c.got| < c.max
    ensures ReceiveLoop(h, c, []) == Gathered(h, c.(phase := Failed), [])
  {
    assert ReceiveImpl(h, Remaining(c), []) == Called(h, -1, [], []);
  }

  ghost predicate IsRunOf(h: History, c: Client, out: seq<seq<byte>>, left: Left)
    requires WellFormed(h.slot) && LoopState(c)
  {
    var r := ReceiveLoop(h, c, Sends(out));
    && Reaches(Session(h.slot, out, c), Ended(r, left.out), left.n)
    && r.rest == Sends(left.out)
    && (r.client.phase.Failed? ==> Stuck(Ended(r, left.out)))
  }

  /** The call is a run of the session, turn by turn, up to the point where it returns or, if it
      fails, where neither program has a turn left. */
  lemma {:induction false} ReceiveLoopIsARun(h: History, c: Client, out: seq<seq<byte>>) returns (left: Left)
    requires WellFormed(h.slot) && !h.slot.terminated && LoopState(c) && !c.phase.Failed?
    ensures IsRunOf(h, c, out, left)
    decreases if c.phase.Running? then c.max - |c.got| else 0, |out|, 1
  {
    if !c.phase.Running? {
      left := Left(0, out);
    } else if CanReceive(h.slot) {
      left := ReceiveComesFirst(h, c, out);
    } else if out != [] {
      left := SendComesFirst(h, c, out);
    } else {
      ImplTimesOut(h, c);
      assert Sends(out) == [];
      left := Left(0, out);
    }
  }

  lemma {:induction false} ReceiveComesFirst(h: History, c: Client, out: seq<seq<byte>>) returns (left: Left)
    requires WellFormed(h.slot) && !h.slot.terminated && LoopState(c)
    requires c.phase.Running? && CanReceive(h.slot)
    ensures IsRunOf(h, c, out, left)
    decreases c.max - |c.got|, |out|, 0
  {
    LoopTurn(h, c, Sends(out));
    var x := TakeBytes(h.slot, Remaining(c));
    var a := Session(h.slot, out, c);
    var b := ReceiveTurn(a);
    var g := History(x.slot, h.accepted, h.received + x.data);
    left := ReceiveLoopIsARun(g, b.client, out);
    ReachesFirst(a, b, Ended(ReceiveLoop(g, b.client, Sends(out)), left.out), left.n);
    left := Left(left.n + 1, left.out);
  }

  lemma {:induction false} SendComesFirst(h: History, c: Client, out: seq<seq<byte>>) returns (left: Left)
    requires WellFormed(h.slot) && !h.slot.terminated && LoopState(c)
    requires c.phase.Running? && CanSend(h.slot) && out != []
    ensures IsRunOf(h, c, out, left)
    decreases c.max - |c.got|, |out|, 0
  {
    ImplSends(h, c, out);
    StoreChunkKeeps(h.slot, out[0]);
    var a := Session(h.slot, out, c);
    var b := SendTurn(a);
    var g := Step(h, Send(out[0]));
    left := ReceiveLoopIsARun(g, c, out[1..]);
    ReachesFirst(a, b, Ended(ReceiveLoop(g, c, Sends(out[1..])), left.out), left.n);
    left := Left(left.n + 1, left.out);
  }

  /** `memslot_receive_fully(max)` on a reset slot, while the peer sends one message: it returns
      min(len, max) with exactly those bytes, or -1 after taking the whole message, the latter
      exactly when the message is unmarked, shorter than asked and a multiple of the buffer size. */
  lemma ReceiveFullyDelivers(slot: Slot, msg: seq<byte>, marked: bool, max: positive)
    requires |slot.buffer| == BUFFER_SIZE && !slot.terminated
    ensures var r := ReceiveFully(History(Reset(slot), [], []), max, Sends(Plan(msg, marked)));
            var blocked := !marked && NeedsMark(|msg|, max);
            && ReturnCode(r.client) == (if blocked then -1 else Min(|msg|, max))
            && r.client.got == msg[..Min(|msg|, max)]
  {
    var h, out := History(Reset(slot), [], []), Plan(msg, marked);
    CarriesAtStart(Reset(slot), msg, marked, max);
    var left := ReceiveLoopIsARun(h, Begin(max), out);
    var r := ReceiveFully(h, max, Sends(out));
    var e := Ended(r, left.out);
    CarriesReaches(Session(h.slot, out, Begin(max)), e, left.n, msg, marked, max);
    if r.client.phase.Failed? {
      var rest := msg[|r.client.got|..];
      assert Plan(rest, marked) == [];
      assert rest == [];
    }
  }

  // ----- The sending call

  /** While a sender has `todo` still to send, each event is the next receive of the receiving program `c`. */
  predicate ClientServes(slot: Slot, todo: seq<seq<byte>>, c: Client, script: seq<Event>)
    requires WellFormed(slot)
    decreases |todo| + |script|
  {
    if todo == [] then true
    else if CanSend(slot) then
      StoreChunkKeeps(slot, todo[0]);
      ClientServes(StoreChunk(slot, todo[0]), todo[1..], c, script)
    else if script == [] then true
    else
      && c.phase.Running? && Remaining(c) > 0 && script[0] == Receive(Remaining(c))
      && (TakeBytesKeeps(slot, Remaining(c));
          var x := TakeBytes(slot, Remaining(c));
          ClientServes(x.slot, todo, Absorb(c, x), script[1..]))
  }

  /** Where the sending call leaves the session: it has sent everything, or is waiting with something left. */
  ghost predicate SendsTo(a: Session, b: Session, r: Called, len: nat, n: nat) {
    && Reaches(a, b, n) && b.slot == r.h.slot
    && (r.rez == len || r.rez == -1)
    && (r.rez == len ==> b.out == [])
    && (r.rez == -1 ==> b.out != [] && !CanSend(b.slot))
  }

  lemma SendsToFirst(a: Session, m: Session, b: Session, r: Called, len: nat, n: nat)
    requires Next(a, m) && SendsTo(m, b, r, len, n)
    ensures SendsTo(a, b, r, len, n + 1)
  {
    ReachesFirst(a, m, b, n);
  }

  /** The sending call against a receiving program is one run of the two, turn by turn: what it hands to the slot
      is `Chunks` of the data, all of it when it returns the length, and when it fails it is waiting with
      some of them left. */
  lemma {:induction false} SendLoopIsARun(h: History, data: seq<byte>, sent: nat, script: seq<Event>, c: Client)
    returns (b: Session, n: nat)
    requires WellFormed(h.slot) && !h.slot.terminated && sent < |data|
    requires ClientServes(h.slot, Chunks(data[sent..]), c, script)
    ensures SendsTo(Session(h.slot, Chunks(data[sent..]), c), b, SendLoop(h, data, sent, script), |data|, n)
    decreases |data| - sent, |script|
  {
    if CanSend(h.slot) {
      b, n := SendsFirst(h, data, sent, script, c);
    } else if script == [] {
      b, n := Session(h.slot, Chunks(data[sent..]), c), 0;
      assert SendImpl(h, data[sent..], []) == Called(h, -1, [], []);
    } else {
      b, n := ReceivesFirst(h, data, sent, script, c);
    }
  }

  lemma {:induction false} SendsFirst(h: History, data: seq<byte>, sent: nat, script: seq<Event>, c: Client)
    returns (b: Session, n: nat)
    requires WellFormed(h.slot) && !h.slot.terminated && sent < |data| && CanSend(h.slot)
    requires ClientServes(h.slot, Chunks(data[sent..]), c, script)
    ensures SendsTo(Session(h.slot, Chunks(data[sent..]), c), b, SendLoop(h, data, sent, script), |data|, n)
    decreases |data| - sent, |script|, 0
  {
    var todo := Chunks(data[sent..]);
    var a := Session(h.slot, todo, c);
    SendsAreChunks(data, sent);
    var g := Step(h, Send(data[sent..]));
    var k := |Chunk(data[sent..])|;
    StoreChunkKeeps(h.slot, todo[0]);
    assert Chunk(todo[0]) == todo[0];
    assert SendImpl(h, data[sent..], script) == Called(g, k, [], script);
    var m := SendTurn(a);
    assert m == Session(g.slot, todo[1..], c);
    if sent + k == |data| {
      b, n := m, 0;
    } else {
      b, n := SendLoopIsARun(g, data, sent + k, script, c);
    }
    ReachesFirst(a, m, b, n);
    n := n + 1;
  }

  /** A sender whose slot is not free sleeps through the first event. */
  lemma ImplWaits(h: History, data: seq<byte>, script: seq<Event>)
    requires WellFormed(h.slot) && !h.slot.terminated && !CanSend(h.slot) && script != []
    ensures SendImpl(h, data, script) == SendImpl(Step(h, script[0]), data, script[1..])
  {}

  lemma LoopWaits(h: History, data: seq<byte>, sent: nat, script: seq<Event>)
    requires WellFormed(h.slot) && !h.slot.terminated && !CanSend(h.slot) && script != [] && sent < |data|
    ensures SendLoop(h, data, sent, script) == SendLoop(Step(h, script[0]), data, sent, script[1..])
  {
    ImplWaits(h, data[sent..], script);
  }

  /** That event is the client's next turn. */
  lemma ServedTurn(h: History, todo: seq<seq<byte>>, script: seq<Event>, c: Client) returns (m: Session)
    requires WellFormed(h.slot) && !CanSend(h.slot) && todo != [] && script != []
    requires ClientServes(h.slot, todo, c, script)
    ensures Next(Session(h.slot, todo, c), m) && m.slot == Step(h, script[0]).slot && m.out == todo
    ensures m.slot.terminated == h.slot.terminated && ClientServes(m.slot, todo, m.client, script[1..])
  {
    m := ReceiveTurn(Session(h.slot, todo, c));
    TakeBytesKeeps(h.slot, Remaining(c));
  }

  lemma {:induction false} ReceivesFirst(h: History, data: seq<byte>, sent: nat, script: seq<Event>, c: Client)
    returns (b: Session, n: nat)
    requires WellFormed(h.slot) && !h.slot.terminated && sent < |data| && !CanSend(h.slot) && script != []
    requires ClientServes(h.slot, Chunks(data[sent..]), c, script)
    ensures SendsTo(Session(h.slot, Chunks(data[sent..]), c), b, SendLoop(h, data, sent, script), |data|, n)
    decreases |data| - sent, |script|, 0
  {
    var a := Session(h.slot, Chunks(data[sent..]), c);
    var m := ServedTurn(h, a.out, script, c);
    var g := Step(h, script[0]);
    LoopWaits(h, data, sent, script);
    b, n := SendLoopIsARun(g, data, sent, script[1..], m.client);
    SendsToFirst(a, m, b, SendLoop(g, data, sent, script[1..]), |data|, n);
    n := n + 1;
  }

  lemma {:induction false} EmptySendIsARun(h: History, script: seq<Event>, c: Client) returns (b: Session, n: nat)
    requires WellFormed(h.slot) && !h.slot.terminated && ClientServes(h.slot, [[]], c, script)
    ensures SendsTo(Session(h.slot, [[]], c), b, SendImpl(h, [], script), 0, n)
    decreases |script|
  {
    var a := Session(h.slot, [[]], c);
    if CanSend(h.slot) {
      b, n := SendTurn(a), 1;
      assert Chunk([]) == [];
      assert a.out[0] == [] && a.out[1..] == [];
      ReachesFirst(a, b, b, 0);
    } else if script == [] {
      b, n := a, 0;
    } else {
      var m := ServedTurn(h, a.out, script, c);
      var g := Step(h, script[0]);
      ImplWaits(h, [], script);
      b, n := EmptySendIsARun(g, script[1..], m.client);
      ReachesFirst(a, m, b, n);
      n := n + 1;
    }
  }

  lemma SendFullyIsARun(h: History, data: seq<byte>, script: seq<Event>, c: Client) returns (b: Session, n: nat)
    requires WellFormed(h.slot) && !h.slot.terminated && ClientServes(h.slot, Chunks(data), c, script)
    ensures SendsTo(Session(h.slot, Chunks(data), c), b, SendFully(h, data, script), |data|, n)
  {
    if data == [] {
      b, n := EmptySendIsARun(h, script, c);
    } else {
      assert data[0..] == data;
      b, n := SendLoopIsARun(h, data, 0, script, c);
    }
  }

  /** When `memslot_send_fully` returns the length of a message, sent on a reset slot to a receiving program, the
      receiver has the message in order but for what is still in the slot. */
  lemma SendFullyDelivers(slot: Slot, msg: seq<byte>, max: positive, script: seq<Event>) returns (b: Session, n: nat)
    requires |slot.buffer| == BUFFER_SIZE && !slot.terminated && msg != []
    requires ClientServes(Reset(slot), Chunks(msg), Begin(max), script)
    ensures var h := History(Reset(slot), [], []);
            var r := SendFully(h, msg, script);
            && SendsTo(Session(Reset(slot), Chunks(msg), Begin(max)), b, r, |msg|, n)
            && (r.rez == |msg| ==> b.client.got + Pending(r.h.slot) == msg)
            && (r.rez == -1 ==> b.client.got < msg)
  {
    b, n := SendFullyIsARun(History(Reset(slot), [], []), msg, script, Begin(max));
    CarriesAtStart(Reset(slot), msg, false, max);
    assert Plan(msg, false) == Chunks(msg);
    CarriesReaches(Session(Reset(slot), Chunks(msg), Begin(max)), b, n, msg, false, max);
    RestInSlot(b, msg, max);
  }

  lemma RestInSlot(b: Session, msg: seq<byte>, max: positive)
    requires Carries(b, msg, false, max)
    ensures b.out == [] ==> b.client.got + Pending(b.slot) == msg
    ensures b.out != [] ==> b.client.got < msg
  {
    if b.client.phase.Running? {
      var rest := msg[|b.client.got|..];
      assert msg == b.client.got + rest;
      if b.out == [] && !CanSend(b.slot) {
        PlanInFlight(b.slot, b.out, rest, false);
      }
    } else {
      assert b.client.got + ToCome(b) == msg;
      if b.out != [] {
        assert b.out[0] in b.out && Concat(b.out) == b.out[0] + Concat(b.out[1..]);
      }
    }
  }
}

/** The calls of `fuse/memslot.c` as functions of what the peer does while a call waits.
    A wait releases the slot's lock; `script` lists what other processes then do to the slot, one
    event for each time the waiter sleeps. A wait whose script runs out has timed out. */
module SlotCalls {
  import opened Bytes
  import opened MemSlot
  import opened Transfer

  // ----- One critical section with its wait

  datatype Waited = Waited(ok: bool, h: History, rest: seq<Event>)

  function WaitFor(h: History, wanted: Flag, script: seq<Event>): (w: Waited)
    requires WellFormed(h.slot)
    ensures WellFormed(w.h.slot) && |w.rest| <= |script|
    ensures w.ok <==> w.h.slot.flag == wanted
    decreases |script|
  {
    if h.slot.flag == wanted then Waited(true, h, script)
    else if h.slot.terminated then Waited(false, h, script)
    else if script == [] then Waited(false, h, [])
    else WaitFor(Step(h, script[0]), wanted, script[1..])
  }

  lemma WaitOnce(h: History, wanted: Flag, script: seq<Event>, used: nat) returns (g: History)
    requires WellFormed(h.slot) && h.slot.flag != wanted && !h.slot.terminated && used < |script|
    ensures WellFormed(g.slot) && g.slot == Apply(h.slot, script[used])
    ensures WaitFor(h, wanted, script[used..]) == WaitFor(g, wanted, script[used + 1..])
  {
    g := Step(h, script[used]);
    assert script[used..][1..] == script[used + 1..];
  }

  /** What ends a wait, said without its loop: the events up to the first moment at which the flag is as wanted or the
      slot is terminated, or all of them when there is no such moment. */
  ghost predicate EndsAt(h: History, wanted: Flag, script: seq<Event>, k: nat)
    requires WellFormed(h.slot) && k <= |script|
  {
    && (forall i :: 0 <= i < k ==>
          var s := Run(h, script[..i]).slot;
          s.flag != wanted && !s.terminated)
    && (var s := Run(h, script[..k]).slot;
        s.flag == wanted || s.terminated || k == |script|)
  }

  lemma RunFirst(h: History, script: seq<Event>, i: nat)
    requires WellFormed(h.slot) && 0 < i <= |script|
    ensures Run(h, script[..i]) == Run(Step(h, script[0]), script[1..][..i - 1])
  {
    assert script[..i][1..] == script[1..][..i - 1];
  }

  lemma {:induction false} WaitEnds(h: History, wanted: Flag, script: seq<Event>) returns (k: nat)
    requires WellFormed(h.slot)
    ensures k <= |script| && EndsAt(h, wanted, script, k)
    ensures var g := Run(h, script[..k]); WaitFor(h, wanted, script) == Waited(g.slot.flag == wanted, g, script[k..])
    decreases |script|
  {
    assert script[..0] == [] && script[0..] == script;
    k := 0;
    if h.slot.flag != wanted && !h.slot.terminated && script != [] {
      k := WaitEnds(Step(h, script[0]), wanted, script[1..]);
      forall i | 0 < i <= |script| ensures Run(h, script[..i]) == Run(Step(h, script[0]), script[1..][..i - 1]) {
        RunFirst(h, script, i);
      }
      assert script[1..][k..] == script[k + 1..];
      k := k + 1;
    }
  }

  /** There is only one such moment. */
  lemma EndIsUnique(h: History, wanted: Flag, script: seq<Event>, j: nat, k: nat)
    requires WellFormed(h.slot) && j <= |script| && k <= |script|
    requires EndsAt(h, wanted, script, j) && EndsAt(h, wanted, script, k)
    ensures j == k
  {}

  /** Wait theorem. A wait goes through exactly the events up to its end, and is satisfied if and only if the flag
      is then as wanted. */
  lemma WaitIs(h: History, wanted: Flag, script: seq<Event>, k: nat)
    requires WellFormed(h.slot) && k <= |script| && EndsAt(h, wanted, script, k)
    ensures var g := Run(h, script[..k]); WaitFor(h, wanted, script) == Waited(g.slot.flag == wanted, g, script[k..])
  {
    var j := WaitEnds(h, wanted, script);
    EndIsUnique(h, wanted, script, j, k);
  }

  /** Outcome of one call: the slot's history, the return code, the bytes copied to the caller,
      and the part of the script that was not needed. */
  datatype Called = Called(h: History, rez: int, data: seq<byte>, rest: seq<Event>)

  function SendImpl(h: History, data: seq<byte>, script: seq<Event>): (r: Called)
    requires WellFormed(h.slot)
    ensures WellFormed(r.h.slot)
    ensures r.rez == -1 || r.rez == |Chunk(data)|
  {
    var w := WaitFor(h, Waiting, script);
    if !w.ok then Called(w.h, -1, [], w.rest)
    else Called(Step(w.h, Send(data)), |Chunk(data)|, [], w.rest)
  }

  function ReceiveImpl(h: History, max: positive, script: seq<Event>): (r: Called)
    requires WellFormed(h.slot)
    ensures WellFormed(r.h.slot)
    ensures r.rez == -1 || r.rez == |r.data| <= max
    ensures r.rez == -1 ==> r.data == []
  {
    var w := if h.slot.flag.Underread? then Waited(true, h, script) else WaitFor(h, Sending, script);
    if !w.ok then Called(w.h, -1, [], w.rest)
    else
      var x := TakeBytes(w.h.slot, max);
      TakeBytesKeeps(w.h.slot, max);
      Called(Step(w.h, Receive(max)), x.rez, x.data, w.rest)
  }

  // ----- The loops

  function SendLoop(h: History, data: seq<byte>, sent: nat, script: seq<Event>): (r: Called)
    requires WellFormed(h.slot) && sent <= |data|
    ensures WellFormed(r.h.slot)
    decreases |data| - sent
  {
    if sent == |data| then Called(h, sent, [], script)
    else
      var c := SendImpl(h, data[sent..], script);
      if c.rez <= 0 then c.(rez := -1)
      else SendLoop(c.h, data, sent + c.rez, c.rest)
  }

  lemma OneMoreSend(h: History, data: seq<byte>, sent: nat, script: seq<Event>, x: Called)
    requires WellFormed(h.slot) && sent < |data|
    requires x == SendImpl(h, data[sent..], script)
    ensures x.rez <= |data| - sent
    ensures SendLoop(h, data, sent, script)
         == if x.rez <= 0 then x.(rez := -1) else SendLoop(x.h, data, sent + x.rez, x.rest)
  {}

  function SendFully(h: History, data: seq<byte>, script: seq<Event>): (r: Called)
    requires WellFormed(h.slot)
    ensures WellFormed(r.h.slot)
  {
    if data == [] then SendImpl(h, [], script) else SendLoop(h, data, 0, script)
  }

  predicate LoopState(c: Client) {
    c.phase.Running? ==> |c.got| < c.max
  }

  datatype Gathered = Gathered(h: History, client: Client, rest: seq<Event>)

  function ReceiveLoop(h: History, c: Client, script: seq<Event>): (r: Gathered)
    requires WellFormed(h.slot) && LoopState(c)
    ensures WellFormed(r.h.slot) && !r.client.phase.Running? && r.client.max == c.max
    ensures |c.got| <= c.max ==> |r.client.got| <= c.max
    decreases if c.phase.Running? then c.max - |c.got| else 0
  {
    if !c.phase.Running? then Gathered(h, c, script)
    else
      var x := ReceiveImpl(h, Remaining(c), script);
      ReceiveLoop(x.h, Absorb(c, Received(x.h.slot, x.rez, x.data)), x.rest)
  }

  lemma OneMoreTurn(h: History, c: Client, script: seq<Event>, x: Called)
    requires WellFormed(h.slot) && LoopState(c) && c.phase.Running?
    requires x == ReceiveImpl(h, Remaining(c), script)
    ensures LoopState(Absorb(c, Received(x.h.slot, x.rez, x.data)))
    ensures ReceiveLoop(h, c, script) == ReceiveLoop(x.h, Absorb(c, Received(x.h.slot, x.rez, x.data)), x.rest)
  {}

  /** What one turn makes of the loop's state. */
  lemma TurnOutcome(h: History, c: Client, script: seq<Event>, x: Called) returns (d: Client)
    requires WellFormed(h.slot) && LoopState(c) && c.phase.Running?
    requires x == ReceiveImpl(h, Remaining(c), script)
    ensures d.max == c.max && d.got == c.got + x.data && |d.got| <= d.max && LoopState(d)
    ensures d.phase == if x.rez == 0 then Finished else if x.rez < 0 then Failed
                       else if (x.rez < BUFFER_SIZE && x.rez < c.max) || |d.got| >= c.max then Finished else Running
    ensures ReceiveLoop(h, c, script) == ReceiveLoop(x.h, d, x.rest)
  {
    OneMoreTurn(h, c, script, x);
    d := Absorb(c, Received(x.h.slot, x.rez, x.data));
    assert c.got + [] == c.got;
  }

  function ReceiveFully(h: History, max: int, script: seq<Event>): (r: Gathered)
    requires WellFormed(h.slot)
    ensures WellFormed(r.h.slot) && (0 <= max ==> |r.client.got| <= max)
  {
    ReceiveLoop(h, Begin(max), script)
  }

  /** What `memslot_receive_fully` returns. On failure the bytes gathered so far are in the caller's
      buffer but the count is lost. */
  function ReturnCode(c: Client): int {
    if c.phase.Failed? then -1 else |c.got|
  }

  // ----- Termination

  /** Through the first `k` events the flag is not the wanted one. */
  ghost predicate Blocked(h: History, script: seq<Event>, k: nat, wanted: Flag)
    requires WellFormed(h.slot) && k <= |script|
  {
    forall i :: 0 <= i <= k ==> Run(h, script[..i]).slot.flag != wanted
  }

  /** A wait that the flag does not end is ended by `memslot_close`. */
  lemma CloseEndsWait(h: History, script: seq<Event>, k: nat, wanted: Flag)
    requires WellFormed(h.slot) && k <= |script| && Blocked(h, script, k, wanted)
    requires Run(h, script[..k]).slot.terminated
    requires forall i :: 0 <= i < k ==> !Run(h, script[..i]).slot.terminated
    ensures WaitFor(h, wanted, script) == Waited(false, Run(h, script[..k]), script[k..])
  {
    WaitIs(h, wanted, script, k);
  }

  /** A send that sleeps returns -1 as soon as it finds the slot terminated: on entry, or after the event that closed
      it. It has used no further event and left the slot as it found it. */
  lemma CloseEndsSend(h: History, data: seq<byte>, script: seq<Event>, k: nat)
    requires WellFormed(h.slot) && k <= |script| && Blocked(h, script, k, Waiting)
    requires Run(h, script[..k]).slot.terminated
    requires forall i :: 0 <= i < k ==> !Run(h, script[..i]).slot.terminated
    ensures SendFully(h, data, script) == Called(Run(h, script[..k]), -1, [], script[k..])
  {
    CloseEndsWait(h, script, k, Waiting);
    assert data[0..] == data;
  }

  /** So does a receive on a slot with nothing to take. */
  lemma CloseEndsReceive(h: History, max: positive, script: seq<Event>, k: nat)
    requires WellFormed(h.slot) && k <= |script| && Blocked(h, script, k, Sending) && !h.slot.flag.Underread?
    requires Run(h, script[..k]).slot.terminated
    requires forall i :: 0 <= i < k ==> !Run(h, script[..i]).slot.terminated
    ensures ReceiveFully(h, max, script) == Gathered(Run(h, script[..k]), Client(max, [], Failed), script[k..])
  {
    CloseEndsWait(h, script, k, Sending);
    var g := Run(h, script[..k]);
    assert ReceiveImpl(h, Remaining(Begin(max)), script) == Called(g, -1, [], script[k..]);
    OneMoreTurn(h, Begin(max), script, Called(g, -1, [], script[k..]));
  }

  /** On a slot that is already terminated a call that would have to wait returns -1 at once, and one that would not
      goes on as on any other. */
  lemma ClosedSlotDoesNotWait(h: History, data: seq<byte>, max: positive, script: seq<Event>)
    requires WellFormed(h.slot) && h.slot.terminated
    ensures !h.slot.flag.Waiting? ==> SendFully(h, data, script) == Called(h, -1, [], script)
    ensures h.slot.flag.Waiting? ==> ReceiveFully(h, max, script) == Gathered(h, Client(max, [], Failed), script)
    ensures h.slot.flag.Waiting? && |data| <= 51200 ==>
              SendFully(h, data, script) == Called(Step(h, Send(data)), |data|, [], script)
    ensures EndsWithChunk(Pending(h.slot), max) ==>
              ReceiveFully(h, max, script).client.got == Pending(h.slot)[..Min(max, |Pending(h.slot)|)]
  {
    assert script[..0] == [] && script[0..] == script;
    if h.slot.flag.Waiting? {
      CloseEndsReceive(h, max, script, 0);
      if |data| <= 51200 {
        AcceptedAtOnce(h, data, script);
      }
    } else {
      CloseEndsSend(h, data, script, 0);
    }
    if EndsWithChunk(Pending(h.slot), max) {
      ReadWithinChunk(h, max, script);
    }
  }

  /** `memslot_close` wakes a sleeping call, which then returns -1, leaving the slot but for the mark. */
  lemma CloseWakes(h: History, data: seq<byte>, max: positive, script: seq<Event>)
    requires WellFormed(h.slot) && !h.slot.terminated && script != [] && script[0] == Close
    ensures var g := h.(slot := h.slot.(terminated := true));
            && (!h.slot.flag.Waiting? ==> SendFully(h, data, script) == Called(g, -1, [], script[1..]))
            && (h.slot.flag.Waiting? ==>
                  ReceiveFully(h, max, script) == Gathered(g, Client(max, [], Failed), script[1..]))
  {
    assert script[..0] == [] && script[..1] == [Close] && [Close][1..] == [];
    assert Run(h, script[..1]) == Run(Step(h, Close), []) == h.(slot := h.slot.(terminated := true));
    if h.slot.flag.Waiting? {
      CloseEndsReceive(h, max, script, 1);
    } else {
      CloseEndsSend(h, data, script, 1);
    }
  }

  lemma AcceptedAtOnce(h: History, data: seq<byte>, script: seq<Event>)
    requires WellFormed(h.slot) && h.slot.flag.Waiting? && |data| <= 51200
    ensures SendFully(h, data, script) == Called(Step(h, Send(data)), |data|, [], script)
  {
    var x := Called(Step(h, Send(data)), |data|, [], script);
    assert data[0..] == data && Chunk(data) == data;
    assert SendImpl(h, data, script) == x;
    if data != [] {
      OneMoreSend(h, data, 0, script, x);
    }
  }

  // ----- The sender's contract

  /** While a send waits, nobody else sends on the slot or resets it. */
  predicate OnlySender(script: seq<Event>) {
    forall e :: e in script ==> !e.Send? && !e.PreReceive?
  }

  lemma {:induction false} WaitAcceptsNothing(h: History, wanted: Flag, script: seq<Event>)
    requires WellFormed(h.slot) && OnlySender(script)
    ensures var w := WaitFor(h, wanted, script);
            w.h.accepted == h.accepted && OnlySender(w.rest)
    decreases |script|
  {
    if h.slot.flag != wanted && !h.slot.terminated && script != [] {
      WaitAcceptsNothing(Step(h, script[0]), wanted, script[1..]);
    }
  }

  /** The slot accepts exactly what `memslot_send_fully` reports: all of the data in order when it
      returns the length, and whole buffers from its front when it fails. */
  lemma {:induction false} SendLoopAccepts(h: History, data: seq<byte>, sent: nat, script: seq<Event>)
    requires WellFormed(h.slot) && sent <= |data| && OnlySender(script)
    requires sent < |data| ==> WholeBuffers(sent)
    ensures var r := SendLoop(h, data, sent, script);
            || (r.rez == |data| && r.h.accepted == h.accepted + data[sent..])
            || (r.rez == -1 && exists k :: sent <= k < |data| && WholeBuffers(k)
                                           && r.h.accepted == h.accepted + data[sent..k])
    decreases |data| - sent
  {
    if sent < |data| {
      WaitAcceptsNothing(h, Waiting, script);
      var c := SendImpl(h, data[sent..], script);
      if c.rez > 0 {
        var next := sent + c.rez;
        assert Chunk(data[sent..]) == data[sent..next];
        SendLoopAccepts(c.h, data, next, c.rest);
        Splice(h.accepted, data, sent, next);
      } else {
        assert data[sent..sent] == [];
      }
    } else {
      assert data[sent..] == [];
    }
  }

  lemma Splice(a: seq<byte>, data: seq<byte>, i: nat, j: nat)
    requires i <= j <= |data|
    ensures a + data[i..j] + data[j..] == a + data[i..]
    ensures forall k :: j <= k <= |data| ==> a + data[i..j] + data[j..k] == a + data[i..k]
  {}

  lemma SendFullyAccepts(h: History, data: seq<byte>, script: seq<Event>)
    requires WellFormed(h.slot) && OnlySender(script)
    ensures var r := SendFully(h, data, script);
            || (r.rez == |data| && r.h.accepted == h.accepted + data)
            || (r.rez == -1 && exists k :: 0 <= k <= |data| && WholeBuffers(k) && (k == |data| ==> data == [])
                                           && r.h.accepted == h.accepted + data[..k])
  {
    WaitAcceptsNothing(h, Waiting, script);
    if data == [] {
      assert data[..0] == [];
    } else {
      SendLoopAccepts(h, data, 0, script);
      assert data[0..] == data;
      forall k | 0 <= k <= |data| ensures data[0..k] == data[..k] {}
    }
  }

  /** The loop's successive sends are the chunks of the message. */
  lemma SendsAreChunks(data: seq<byte>, sent: nat)
    requires sent < |data|
    ensures var c := Chunk(data[sent..]);
            && Chunks(data[sent..])[0] == c
            && Chunks(data[sent..])[1..] == if sent + |c| == |data| then [] else Chunks(data[sent + |c|..])
  {
    var c := Chunk(data[sent..]);
    if |data| - sent > BUFFER_SIZE {
      assert data[sent..][BUFFER_SIZE..] == data[sent + |c|..];
    }
  }

  // ----- Reads that resume a chunk

  /** One turn of the receiving loop that needs no wait. */
  lemma LoopTurn(h: History, c: Client, script: seq<Event>)
    requires WellFormed(h.slot) && CanReceive(h.slot) && c.phase.Running? && |c.got| < c.max
    ensures var x := TakeBytes(h.slot, Remaining(c));
            && x.rez == |x.data| && WellFormed(x.slot)
            && ReceiveLoop(h, c, script)
               == ReceiveLoop(History(x.slot, h.accepted, h.received + x.data), Absorb(c, x), script)
  {
    TakeBytesKeeps(h.slot, Remaining(c));
    var x := TakeBytes(h.slot, Remaining(c));
    assert ReceiveImpl(h, Remaining(c), script)
        == Called(History(x.slot, h.accepted, h.received + x.data), x.rez, x.data, script);
  }

  /** What is left of the current chunk is `q`, and a read of `max` will not go past it. */
  predicate EndsWithChunk(q: seq<byte>, max: positive) {
    q != [] && !(|q| == BUFFER_SIZE < max)
  }

  lemma TakeWithinChunk(slot: Slot, max: positive)
    requires WellFormed(slot) && CanReceive(slot) && EndsWithChunk(Pending(slot), max)
    ensures var x, q := TakeBytes(slot, max), Pending(slot);
            && Absorb(Begin(max), x) == Client(max, q[..Min(max, |q|)], Finished)
            && WellFormed(x.slot) && Pending(x.slot) == q[Min(max, |q|)..]
            && (x.slot.flag.Waiting? <==> max >= |q|) && (max < |q| ==> x.slot.flag.Underread?)
            && x.slot.terminated == slot.terminated
  {
    TakeBytesKeeps(slot, max);
    var x := TakeBytes(slot, max);
    assert Pending(slot) == x.data + Pending(x.slot);
    assert Absorb(Begin(max), x) == Client(max, x.data, Finished);
  }

  /** Any read of at most what a chunk can give, and in particular every read begun in UNDERREAD, returns
      exactly min(max, q) of the q bytes left, waits for nothing, never crosses into the next chunk, and
      leaves the slot WAITING exactly when the chunk is used up. */
  lemma ReadWithinChunk(h: History, max: positive, script: seq<Event>)
    requires WellFormed(h.slot) && CanReceive(h.slot)
    requires EndsWithChunk(Pending(h.slot), max)
    ensures var r, q := ReceiveFully(h, max, script), Pending(h.slot);
            && r.client == Client(max, q[..Min(max, |q|)], Finished)
            && r.rest == script
            && (r.h.slot.flag.Waiting? <==> max >= |q|)
            && (max < |q| ==> r.h.slot.flag.Underread?)
            && Pending(r.h.slot) == q[Min(max, |q|)..]
            && r.h.slot.terminated == h.slot.terminated
  {
    LoopTurn(h, Begin(max), script);
    TakeWithinChunk(h.slot, max);
  }

  /** A read on the end marker returns at once, with nothing. */
  lemma ReadOfMark(h: History, max: positive, script: seq<Event>)
    requires WellFormed(h.slot) && CanReceive(h.slot) && Pending(h.slot) == []
    ensures ReceiveFully(h, max, script) == Gathered(h, Client(max, [], Finished), script)
  {
    LoopTurn(h, Begin(max), script);
    TakeBytesKeeps(h.slot, max);
    var x := TakeBytes(h.slot, max);
    assert h.received + x.data == h.received;
  }

  /** The reads `maxes`, one after another, stopping when the slot is reset for the next chunk. */
  function ReadAll(h: History, maxes: seq<positive>, script: seq<Event>): (r: (History, seq<seq<byte>>))
    requires WellFormed(h.slot)
    ensures WellFormed(r.0.slot)
    decreases |maxes|
  {
    if maxes == [] || h.slot.flag.Waiting? then (h, [])
    else
      var g := ReceiveFully(h, maxes[0], script);
      var more := ReadAll(g.h, maxes[1..], g.rest);
      (more.0, [g.client.got] + more.1)
  }

  function Sum(maxes: seq<positive>): nat {
    if maxes == [] then 0 else maxes[0] + Sum(maxes[1..])
  }

  predicate NoneRunsOn(q: seq<byte>, maxes: seq<positive>) {
    q != [] && maxes != [] ==> EndsWithChunk(q, maxes[0])
  }

  lemma SplitPrefix(q: seq<byte>, m: nat, n: nat)
    ensures var k := Min(m, |q|);
            && q[..k] + q[k..][..Min(n, |q| - k)] == q[..Min(m + n, |q|)]
            && q[k..][Min(n, |q| - k)..] == q[Min(m + n, |q|)..]
  {}

  /** Reads that took the first `n` bytes of a chunk's `q`, or all of them, in order, and left the others. */
  predicate Partitions(r: (History, seq<seq<byte>>), q: seq<byte>, n: nat) {
    && WellFormed(r.0.slot)
    && Concat(r.1) == q[..Min(n, |q|)]
    && Pending(r.0.slot) == q[Min(n, |q|)..]
    && (r.0.slot.flag.Waiting? <==> n >= |q|)
  }

  lemma OneMoreRead(q: seq<byte>, m: nat, more: (History, seq<seq<byte>>), n: nat)
    requires Partitions(more, q[Min(m, |q|)..], n)
    ensures Partitions((more.0, [q[..Min(m, |q|)]] + more.1), q, m + n)
  {
    ConcatCons(q[..Min(m, |q|)], more.1);
    SplitPrefix(q, m, n);
  }

  /** After the first read the others meet a rest that is shorter than a buffer. */
  lemma FirstRead(h: History, maxes: seq<positive>, script: seq<Event>)
    requires WellFormed(h.slot) && !AtEndMarker(h.slot) && NoneRunsOn(Pending(h.slot), maxes)
    requires maxes != [] && !h.slot.flag.Waiting?
    ensures var g, q := ReceiveFully(h, maxes[0], script), Pending(h.slot);
            && g.client.got == q[..Min(maxes[0], |q|)] && Pending(g.h.slot) == q[Min(maxes[0], |q|)..]
            && !AtEndMarker(g.h.slot) && NoneRunsOn(Pending(g.h.slot), maxes[1..])
  {
    ReadWithinChunk(h, maxes[0], script);
  }

  lemma {:induction false} ReadsPartition(h: History, maxes: seq<positive>, script: seq<Event>)
    requires WellFormed(h.slot) && !AtEndMarker(h.slot) && NoneRunsOn(Pending(h.slot), maxes)
    ensures Partitions(ReadAll(h, maxes, script), Pending(h.slot), Sum(maxes))
    decreases |maxes|
  {
    if maxes == [] {
    } else if h.slot.flag.Waiting? {
      assert Pending(h.slot) == [];
    } else {
      FirstRead(h, maxes, script);
      var g := ReceiveFully(h, maxes[0], script);
      ReadsPartition(g.h, maxes[1..], g.rest);
      OneMoreRead(Pending(h.slot), maxes[0], ReadAll(g.h, maxes[1..], g.rest), Sum(maxes[1..]));
    }
  }

  /** A read that asked for more than a full buffer goes on to wait for the next chunk, and with
      nobody sending one it fails although the whole chunk was taken. */
  lemma FullBufferKeepsWaiting(h: History, max: positive)
    requires WellFormed(h.slot) && h.slot.flag.Sending? && |Pending(h.slot)| == BUFFER_SIZE < max
    ensures var r := ReceiveFully(h, max, []);
            r.client == Client(max, Pending(h.slot), Failed) && r.h.slot.flag.Waiting?
  {
    LoopTurn(h, Begin(max), []);
    TakeBytesKeeps(h.slot, max);
    var x := TakeBytes(h.slot, max);
    assert x.data == Pending(h.slot);
    var c := Client(max, x.data, Running);
    assert Absorb(Begin(max), x) == c;
    var t := History(x.slot, h.accepted, h.received + x.data);
    assert ReceiveImpl(t, Remaining(c), []) == Called(t, -1, [], []);
  }

  /** Reads of one message that fits the buffer hand it out piece by piece, in order, and the slot is
      WAITING again exactly when it is used up, unless the message is a full buffer and the first read
      asks for more. In that case, and only then, the first read does not return the message. */
  lemma ReadsPartitionMessage(h: History, maxes: seq<positive>)
    requires WellFormed(h.slot) && h.slot.flag.Sending? && Pending(h.slot) != [] && maxes != []
    ensures var r, q := ReadAll(h, maxes, []), Pending(h.slot);
            && (!(|q| == BUFFER_SIZE < maxes[0]) ==>
                  && Concat(r.1) == q[..Min(Sum(maxes), |q|)]
                  && (r.0.slot.flag.Waiting? <==> Sum(maxes) >= |q|))
            && (ReceiveFully(h, maxes[0], []).client.phase.Finished? <==> !(|q| == BUFFER_SIZE < maxes[0]))
  {
    if |Pending(h.slot)| == BUFFER_SIZE < maxes[0] {
      FullBufferKeepsWaiting(h, maxes[0]);
    } else {
      ReadWithinChunk(h, maxes[0], []);
      ReadsPartition(h, maxes, []);
    }
  }
}

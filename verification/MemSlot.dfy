/** The state of one memory slot and the effect of each critical section of
    `fuse/memslot.c` on it. Every function here is one lock-protected region; a
    region whose wait is not satisfied is not entered. */
module MemSlot {
  import opened Bytes

  const SLOT_COUNT: nat := 20
  const BUFFER_SIZE: nat := 51200

  // The buffer size is written out where it divides, here and in Listing.BufferEnd: the solver is quick about
  // division by a literal only.

  /** `n` is a multiple of the buffer size. */
  predicate WholeBuffers(n: nat) {
    n % 51200 == 0
  }

  /** The number of buffers that `n` bytes need: n / BUFFER_SIZE, rounded up. */
  function BuffersFor(n: nat): nat {
    (n + 51199) / 51200
  }

  datatype Flag = Sending | Waiting | Underread

  /** `cursor` is the client's position, relative to the start of the slot's buffer. */
  datatype Slot = Slot(flag: Flag, bufLen: int, buffer: seq<byte>, cursor: int, txNo: int, terminated: bool)

  /** What the server's freshly created file holds: zeroes, which read as SENDING with
      nothing to send. The client's cursor is still null. */
  function Zeroed(): Slot {
    Slot(Sending, 0, seq(BUFFER_SIZE, _ => 0), -1, 0, false)
  }

  // ----- The critical sections

  function Reset(s: Slot): Slot {
    s.(flag := Waiting, bufLen := -1, cursor := 0, txNo := s.txNo + 1)
  }

  /** The part of `data` that one send moves. */
  function Chunk(data: seq<byte>): (c: seq<byte>)
    ensures |c| <= BUFFER_SIZE && c <= data
  {
    data[..Min(|data|, BUFFER_SIZE)]
  }

  function StoreChunk(s: Slot, data: seq<byte>): Slot
    requires |s.buffer| == BUFFER_SIZE
  {
    var c := Chunk(data);
    s.(flag := Sending, bufLen := |c|, buffer := c + s.buffer[|c|..])
  }

  /** Outcome of one receive: the new slot, the return code, and the bytes copied out. */
  datatype Received = Received(slot: Slot, rez: int, data: seq<byte>)

  /** The client's window lies inside its own buffer whenever there is something to copy. */
  predicate WindowInside(s: Slot) {
    s.bufLen > 0 ==> 0 <= s.cursor && s.cursor + s.bufLen <= |s.buffer|
  }

  function TakeBytes(s: Slot, max: positive): Received
    requires WindowInside(s)
  {
    if s.bufLen > 0 then
      var amt := Min(max, s.bufLen);
      var data := s.buffer[s.cursor..s.cursor + amt];
      if amt >= s.bufLen then
        Received(Reset(s), amt, data)
      else
        Received(s.(flag := Underread, bufLen := s.bufLen - amt, cursor := s.cursor + amt), amt, data)
    else if s.bufLen < 0 then
      Received(s, -1, [])
    else
      Received(s, 0, [])
  }

  predicate CanSend(s: Slot) {
    s.flag.Waiting?
  }

  predicate CanReceive(s: Slot) {
    s.flag.Underread? || s.flag.Sending?
  }

  // ----- The slot invariant

  predicate WellFormed(s: Slot) {
    && |s.buffer| == BUFFER_SIZE
    && (s.flag.Waiting? <==> s.bufLen == -1)
    && (s.flag.Waiting? ==> s.cursor == 0)
    && (s.flag.Sending? ==> 0 <= s.bufLen <= BUFFER_SIZE)
    && (s.flag.Sending? && s.bufLen > 0 ==> s.cursor == 0)
    && (s.flag.Underread? ==> 0 < s.bufLen < BUFFER_SIZE && 0 < s.cursor && s.cursor + s.bufLen <= BUFFER_SIZE)
  }

  /** The bytes that were sent but not yet received. */
  function Pending(s: Slot): seq<byte>
    requires WellFormed(s)
  {
    if s.bufLen > 0 then s.buffer[s.cursor..s.cursor + s.bufLen] else []
  }

  lemma StoreChunkKeeps(s: Slot, data: seq<byte>)
    requires WellFormed(s) && CanSend(s)
    ensures WellFormed(StoreChunk(s, data)) && Pending(StoreChunk(s, data)) == Chunk(data)
  {
    var t := StoreChunk(s, data);
    if t.bufLen > 0 {
      assert t.buffer[..|Chunk(data)|] == Chunk(data);
    }
  }

  lemma WindowSplits(buffer: seq<byte>, from: nat, mid: nat, to: nat)
    requires from <= mid <= to <= |buffer|
    ensures buffer[from..mid] + buffer[mid..to] == buffer[from..to]
  {}

  lemma TakeBytesKeeps(s: Slot, max: positive)
    requires WellFormed(s) && CanReceive(s)
    ensures var x := TakeBytes(s, max);
            && WellFormed(x.slot)
            && x.rez == |x.data| == Min(max, |Pending(s)|)
            && x.data + Pending(x.slot) == Pending(s)
            && (CanSend(x.slot) <==> 0 < |Pending(s)| <= max)
            && (|Pending(s)| == 0 ==> x.slot == s)
  {
    var x := TakeBytes(s, max);
    if s.bufLen > 0 && max < s.bufLen {
      WindowSplits(s.buffer, s.cursor, s.cursor + max, s.cursor + s.bufLen);
    }
  }

  // ----- Runs of one slot

  /** Whatever any process may do to a slot. A send or receive whose wait is not satisfied
      changes nothing: it sleeps, and may in the end report a timeout. */
  datatype Event = PreReceive | Send(data: seq<byte>) | Receive(max: positive) | Close | Nothing

  function Apply(s: Slot, e: Event): (t: Slot)
    requires WellFormed(s)
    ensures WellFormed(t)
  {
    match e
    case PreReceive => Reset(s)
    case Send(data) =>
      if CanSend(s) then
        StoreChunkKeeps(s, data);
        StoreChunk(s, data)
      else s
    case Receive(max) =>
      if CanReceive(s) then
        TakeBytesKeeps(s, max);
        TakeBytes(s, max).slot
      else s
    case Close => s.(terminated := true)
    case Nothing => s
  }

  /** A slot with what was accepted from senders and handed to receivers since the last
      `memslot_pre_receive`. */
  datatype History = History(slot: Slot, accepted: seq<byte>, received: seq<byte>)

  function Step(h: History, e: Event): (r: History)
    requires WellFormed(h.slot)
    ensures WellFormed(r.slot)
  {
    var t := Apply(h.slot, e);
    match e
    case PreReceive => History(t, [], [])
    case Send(data) =>
      if CanSend(h.slot) then History(t, h.accepted + Chunk(data), h.received) else h
    case Receive(max) =>
      if CanReceive(h.slot) then History(t, h.accepted, h.received + TakeBytes(h.slot, max).data) else h
    case Close => h.(slot := t)
    case Nothing => h
  }

  function Run(h: History, es: seq<Event>): (r: History)
    requires WellFormed(h.slot)
    ensures WellFormed(r.slot)
    decreases |es|
  {
    if es == [] then h else Run(Step(h, es[0]), es[1..])
  }

  predicate Conserved(h: History)
    requires WellFormed(h.slot)
  {
    h.received + Pending(h.slot) == h.accepted
  }

  lemma SendConserves(h: History, data: seq<byte>)
    requires WellFormed(h.slot) && Conserved(h) && CanSend(h.slot)
    ensures Conserved(Step(h, Send(data)))
  {
    StoreChunkKeeps(h.slot, data);
    assert h.accepted == h.received;
  }

  lemma ReceiveConserves(h: History, max: positive)
    requires WellFormed(h.slot) && Conserved(h) && CanReceive(h.slot)
    ensures Conserved(Step(h, Receive(max)))
  {
    var x := TakeBytes(h.slot, max);
    TakeBytesKeeps(h.slot, max);
    assert (h.received + x.data) + Pending(x.slot) == h.received + (x.data + Pending(x.slot));
  }

  lemma StepConserves(h: History, e: Event)
    requires WellFormed(h.slot) && Conserved(h)
    ensures Conserved(Step(h, e))
  {
    if e.Send? && CanSend(h.slot) {
      SendConserves(h, e.data);
    } else if e.Receive? && CanReceive(h.slot) {
      ReceiveConserves(h, e.max);
    }
  }

  lemma {:induction false} RunConserves(h: History, es: seq<Event>)
    requires WellFormed(h.slot) && Conserved(h)
    ensures Conserved(Run(h, es))
    decreases |es|
  {
    if es != [] {
      StepConserves(h, es[0]);
      RunConserves(Step(h, es[0]), es[1..]);
    }
  }

  /** Stream theorem. From whatever contents a slot holds when the client resets it, and whatever
      any processes then do, in any order: what was received followed by what is pending at the
      cursor is what was accepted. Nothing is lost, duplicated or reordered. */
  lemma StreamConserved(s: Slot, es: seq<Event>)
    requires |s.buffer| == BUFFER_SIZE
    ensures WellFormed(Reset(s))
    ensures Conserved(Run(History(Reset(s), [], []), es))
  {
    RunConserves(History(Reset(s), [], []), es);
  }

  /** State theorem. Over every run from the zeroed file: the flag and `bufLen` agree as the source
      intends, the cursor window stays inside the buffer, exactly one of the send and receive waits
      is satisfied, and a receive that gets past its wait never meets a negative length. */
  lemma SlotStates(es: seq<Event>, max: positive)
    ensures WellFormed(Zeroed())
    ensures var s := Run(History(Zeroed(), [], []), es).slot;
            && (s.flag.Waiting? <==> s.bufLen == -1)
            && (s.flag.Underread? ==> 0 < s.bufLen < BUFFER_SIZE)
            && (s.flag.Sending? ==> 0 <= s.bufLen <= BUFFER_SIZE)
            && (CanSend(s) <==> !CanReceive(s))
            && WindowInside(s)
            && (CanReceive(s) ==> TakeBytes(s, max).rez >= 0)
  {
    var s := Run(History(Zeroed(), [], []), es).slot;
    if CanReceive(s) {
      TakeBytesKeeps(s, max);
    }
  }

  /** A reset of the slot by its receiver, on demand or when a chunk is used up. */
  predicate Resets(s: Slot, e: Event, t: Slot) {
    e == PreReceive || (s.flag != Waiting && t.flag == Waiting)
  }

  /** What an event leaves alone: `txNo` counts resets, only `memslot_close` terminates, and it does nothing else; and
      a send or receive whose wait is not satisfied does nothing. */
  lemma StepMarks(h: History, e: Event)
    requires WellFormed(h.slot)
    ensures var s, t := h.slot, Step(h, e).slot;
            && t.txNo == s.txNo + (if Resets(s, e, t) then 1 else 0)
            && (t.terminated <==> s.terminated || e == Close)
            && (e == Close ==> t == s.(terminated := true))
            && ((e.Send? && s.flag != Waiting) || (e.Receive? && s.flag == Waiting) || e == Nothing ==> Step(h, e) == h)
  {}

  function ResetsIn(h: History, es: seq<Event>): nat
    requires WellFormed(h.slot)
    decreases |es|
  {
    if es == [] then 0
    else (if Resets(h.slot, es[0], Step(h, es[0]).slot) then 1 else 0) + ResetsIn(Step(h, es[0]), es[1..])
  }

  /** Over every run: a slot is terminated if and only if it was or has been closed, and `txNo` counts its resets. */
  lemma {:induction false} RunMarks(h: History, es: seq<Event>)
    requires WellFormed(h.slot)
    ensures var t := Run(h, es).slot;
            && (t.terminated <==> h.slot.terminated || Close in es)
            && t.txNo == h.slot.txNo + ResetsIn(h, es)
    decreases |es|
  {
    if es != [] {
      StepMarks(h, es[0]);
      RunMarks(Step(h, es[0]), es[1..]);
      assert es == [es[0]] + es[1..];
    }
  }

  predicate AtEndMarker(s: Slot) {
    s.flag.Sending? && s.bufLen == 0
  }

  /** A zero-length send is absorbing: until the next `memslot_pre_receive` every receive
      returns 0, every send stays blocked, and nothing more is accepted or delivered. */
  lemma {:induction false} EndMarkerAbsorbs(h: History, es: seq<Event>, max: positive)
    requires WellFormed(h.slot) && AtEndMarker(h.slot)
    requires PreReceive !in es
    ensures var r := Run(h, es);
            && AtEndMarker(r.slot) && !CanSend(r.slot)
            && r.accepted == h.accepted && r.received == h.received
            && TakeBytes(r.slot, max) == Received(r.slot, 0, [])
    decreases |es|
  {
    if es != [] {
      EndMarkerAbsorbs(Step(h, es[0]), es[1..], max);
    }
  }

  /** Only a zero-length send gets a reset slot there. */
  lemma {:induction false} OnlyEmptySendsMarkEnd(h: History, es: seq<Event>)
    requires WellFormed(h.slot) && !AtEndMarker(h.slot)
    requires Send([]) !in es
    ensures !AtEndMarker(Run(h, es).slot)
    decreases |es|
  {
    if es != [] {
      OnlyEmptySendsMarkEnd(Step(h, es[0]), es[1..]);
    }
  }
}

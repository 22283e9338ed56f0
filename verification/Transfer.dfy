/** `memslot_send_fully` against `memslot_receive_fully`: the two loops as programs whose turns
    are the critical sections of one slot, and what every interleaving of them delivers. */
module Transfer {
  import opened Bytes
  import opened MemSlot

  // ----- Cutting a message into chunks

  /** What `memslot_send_fully` hands to the slot, send by send. An empty message is one empty send. */
  function Chunks(msg: seq<byte>): seq<seq<byte>> {
    if |msg| <= BUFFER_SIZE then [msg] else [msg[..BUFFER_SIZE]] + Chunks(msg[BUFFER_SIZE..])
  }

  predicate AllFit(out: seq<seq<byte>>) {
    forall c :: c in out ==> |c| <= BUFFER_SIZE
  }

  /** Chunking keeps every byte in order and uses ceil(len / B) sends. */
  lemma {:induction false} ChunksCover(msg: seq<byte>)
    ensures Concat(Chunks(msg)) == msg && AllFit(Chunks(msg))
    ensures msg != [] ==> |Chunks(msg)| == BuffersFor(|msg|)
    ensures msg != [] ==> forall c :: c in Chunks(msg) ==> c != []
  {
    if |msg| <= BUFFER_SIZE {
      assert Concat([msg]) == msg + Concat([]) == msg;
    } else {
      var rest := msg[BUFFER_SIZE..];
      ChunksCover(rest);
      assert Chunks(msg)[1..] == Chunks(rest);
      assert msg == msg[..BUFFER_SIZE] + rest;
    }
  }

  // ----- The receiving loop as a program

  datatype Phase = Running | Finished | Failed

  /** `memslot_receive_fully(max)` with what it has gathered so far. */
  datatype Client = Client(max: int, got: seq<byte>, phase: Phase)

  function Begin(max: int): Client {
    Client(max, [], if 0 < max then Running else Finished)
  }

  function Remaining(c: Client): int {
    c.max - |c.got|
  }

  /** The loop body after one receive returned: zero ends, negative fails, and a receive below both
      the buffer size and the caller's maximum is taken for the end of the message. */
  function Absorb(c: Client, x: Received): Client {
    if x.rez == 0 then c.(phase := Finished)
    else if x.rez < 0 then c.(phase := Failed)
    else
      var got := c.got + x.data;
      var hasEof := x.rez < BUFFER_SIZE && x.rez < c.max;
      Client(c.max, got, if hasEof || |got| >= c.max then Finished else Running)
  }

  // ----- Sender and receiver interleaved

  /** A slot, the chunks its sender still has to send, and its receiver. */
  datatype Session = Session(slot: Slot, out: seq<seq<byte>>, client: Client)

  predicate SendEnabled(s: Session) {
    CanSend(s.slot) && s.out != []
  }

  predicate ReceiveEnabled(s: Session) {
    s.client.phase.Running? && Remaining(s.client) > 0 && CanReceive(s.slot)
  }

  function SendTurn(s: Session): Session
    requires WellFormed(s.slot) && SendEnabled(s)
  {
    s.(slot := StoreChunk(s.slot, s.out[0]), out := s.out[1..])
  }

  function ReceiveTurn(s: Session): Session
    requires WellFormed(s.slot) && ReceiveEnabled(s)
  {
    var x := TakeBytes(s.slot, Remaining(s.client));
    s.(slot := x.slot, client := Absorb(s.client, x))
  }

  predicate Next(a: Session, b: Session) {
    && WellFormed(a.slot)
    && (|| (SendEnabled(a) && b == SendTurn(a))
        || (ReceiveEnabled(a) && b == ReceiveTurn(a)))
  }

  ghost predicate IsRun(tr: seq<Session>, start: Session) {
    && |tr| > 0 && tr[0] == start
    && forall i :: 0 < i < |tr| ==> Next(tr[i - 1], tr[i])
  }

  // ----- The invariant of a session that carries one message

  function Body(msg: seq<byte>): seq<seq<byte>> {
    if msg == [] then [] else Chunks(msg)
  }

  /** The sends for one message, with or without a zero-length send after it. */
  function Plan(msg: seq<byte>, marked: bool): seq<seq<byte>> {
    Body(msg) + if marked then [[]] else []
  }

  lemma PlanFits(msg: seq<byte>, marked: bool)
    ensures AllFit(Plan(msg, marked))
    ensures Concat(Plan(msg, marked)) == msg
  {
    ChunksCover(msg);
    ConcatAppend(Body(msg), if marked then [[]] else []);
    assert Concat([[]]) == [] + Concat([]) == [];
  }

  /** A marked message is one the receiver could not otherwise know the end of. */
  predicate NeedsMark(len: nat, max: int) {
    len < max && WholeBuffers(len)
  }

  /** The bytes sent or yet to be sent that the receiver has not taken. */
  function ToCome(s: Session): seq<byte>
    requires WellFormed(s.slot)
  {
    Pending(s.slot) + Concat(s.out)
  }

  /** The first chunk of `plan` is in the slot, the others are still to be sent. */
  predicate InFlight(slot: Slot, out: seq<seq<byte>>, plan: seq<seq<byte>>)
    requires WellFormed(slot)
  {
    plan != [] && Pending(slot) == plan[0] && out == plan[1..]
  }

  /** The receiver has taken whole buffers only, and the rest of the plan is in the slot or to come. */
  ghost predicate Receiving(s: Session, msg: seq<byte>, marked: bool)
    requires WellFormed(s.slot)
  {
    var k := |s.client.got|;
    && k <= |msg| && k < s.client.max && WholeBuffers(k) && s.client.got == msg[..k]
    && (CanSend(s.slot) ==> s.out == Plan(msg[k..], marked))
    && (!CanSend(s.slot) ==> s.slot.flag.Sending? && InFlight(s.slot, s.out, Plan(msg[k..], marked)))
  }

  /** The receiver has returned with what it should, and knew that the message was over. */
  ghost predicate Returned(s: Session, msg: seq<byte>, marked: bool)
    requires WellFormed(s.slot)
  {
    var max := s.client.max;
    && max > 0
    && s.client.got == msg[..Min(|msg|, max)]
    && s.client.got + ToCome(s) == msg
    && (marked || !NeedsMark(|msg|, max))
    && (|msg| <= max && marked == NeedsMark(|msg|, max) ==> s.out == [])
  }

  ghost predicate Carries(s: Session, msg: seq<byte>, marked: bool, max: positive) {
    && WellFormed(s.slot)
    && s.client.max == max
    && AllFit(s.out)
    && (!marked ==> !AtEndMarker(s.slot) && [] !in s.out)
    && !s.client.phase.Failed?
    && (s.client.phase.Running? ==> Receiving(s, msg, marked))
    && (s.client.phase.Finished? ==> Returned(s, msg, marked))
  }

  lemma CarriesAtStart(slot: Slot, msg: seq<byte>, marked: bool, max: positive)
    requires WellFormed(slot) && CanSend(slot)
    ensures Carries(Session(slot, Plan(msg, marked), Begin(max)), msg, marked, max)
  {
    PlanFits(msg, marked);
    ChunksCover(msg);
    assert msg[0..] == msg;
  }

  lemma CarriesSendTurn(s: Session, msg: seq<byte>, marked: bool, max: positive)
    requires Carries(s, msg, marked, max) && SendEnabled(s)
    ensures Carries(SendTurn(s), msg, marked, max)
  {
    var t := SendTurn(s);
    StoreChunkKeeps(s.slot, s.out[0]);
    assert s.out[0] in s.out;
    assert Pending(t.slot) == s.out[0];
    if s.client.phase.Finished? {
      assert Pending(s.slot) == [];
      assert ToCome(t) == s.out[0] + Concat(s.out[1..]) == ToCome(s);
    }
  }

  /** How the plan for what is left of a message begins. */
  lemma PlanUnfolds(rest: seq<byte>, marked: bool)
    requires Plan(rest, marked) != []
    ensures var p := Plan(rest, marked);
            && (rest == [] ==> marked && p == [[]])
            && (rest != [] ==> p[0] == Chunk(rest) && p[1..] == Plan(rest[|p[0]|..], marked))
  {
    if 0 < |rest| <= BUFFER_SIZE {
      assert rest[..|rest|] == rest;
    }
  }

  /** What a receive finds when `rest` is still to come. */
  ghost predicate TookFromPlan(x: Received, slot: Slot, out: seq<seq<byte>>, rest: seq<byte>, marked: bool,
                               max: positive) {
    && WellFormed(x.slot)
    && x.rez == |x.data| == Min(max, Min(|rest|, BUFFER_SIZE))
    && x.data + (Pending(x.slot) + Concat(out)) == rest
    && (rest == [] ==> x.slot == slot && marked && out == [])
    && (AtEndMarker(x.slot) ==> marked)
    && (rest != [] ==> out == Plan(rest[Min(|rest|, BUFFER_SIZE)..], marked))
    && (rest != [] ==> (CanSend(x.slot) <==> |x.data| == Min(|rest|, BUFFER_SIZE)))
  }

  lemma TakeFromPlan(slot: Slot, out: seq<seq<byte>>, rest: seq<byte>, marked: bool, max: positive)
    requires WellFormed(slot) && slot.flag.Sending?
    requires InFlight(slot, out, Plan(rest, marked))
    ensures TookFromPlan(TakeBytes(slot, max), slot, out, rest, marked, max)
  {
    PlanInFlight(slot, out, rest, marked);
    TakeBytesKeeps(slot, max);
    var x := TakeBytes(slot, max);
    Reassociate(x.data, Pending(x.slot), Concat(out));
  }

  lemma PlanInFlight(slot: Slot, out: seq<seq<byte>>, rest: seq<byte>, marked: bool)
    requires WellFormed(slot) && InFlight(slot, out, Plan(rest, marked))
    ensures rest == Pending(slot) + Concat(out)
    ensures rest == [] ==> marked && Pending(slot) == [] && out == []
    ensures rest != [] ==> Pending(slot) == Chunk(rest) && out == Plan(rest[|Chunk(rest)|..], marked)
  {
    PlanUnfolds(rest, marked);
    PlanFits(rest, marked);
  }

  lemma Reassociate(a: seq<byte>, b: seq<byte>, c: seq<byte>)
    ensures a + (b + c) == (a + b) + c
  {}

  /** The receiver absorbs the next `n` bytes of the message. */
  lemma AbsorbOnPlan(c: Client, x: Received, msg: seq<byte>, tail: seq<byte>)
    requires var k := |c.got|;
             && c.phase.Running? && k < c.max && k <= |msg| && c.got == msg[..k]
             && x.rez == |x.data| == Min(c.max - k, Min(|msg| - k, BUFFER_SIZE))
             && x.data + tail == msg[k..]
    ensures var k, r := |c.got|, Absorb(c, x);
            && r.max == c.max && r.got == msg[..k + |x.data|] && r.got + tail == msg
            && r.phase == if |x.data| == BUFFER_SIZE && k + BUFFER_SIZE < c.max then Running else Finished
  {
    PrefixGrows(msg, |c.got|, x.data, tail);
  }

  /** A receiver that had `k` bytes of the message takes the next ones and goes on, or returns. */
  lemma ReceivesMore(s: Session, t: Session, x: Received, msg: seq<byte>, marked: bool)
    requires WellFormed(s.slot) && s.client.phase.Running? && Receiving(s, msg, marked)
    requires var k := |s.client.got|; TookFromPlan(x, s.slot, s.out, msg[k..], marked, s.client.max - k)
    requires t == Session(x.slot, s.out, Absorb(s.client, x)) && t.client.phase.Running?
    ensures Receiving(t, msg, marked)
  {
    var k := |s.client.got|;
    AbsorbOnPlan(s.client, x, msg, Pending(x.slot) + Concat(s.out));
    assert msg[k..][BUFFER_SIZE..] == msg[k + BUFFER_SIZE..];
  }

  lemma ReceivesLast(s: Session, t: Session, x: Received, msg: seq<byte>, marked: bool)
    requires WellFormed(s.slot) && s.client.phase.Running? && Receiving(s, msg, marked)
    requires var k := |s.client.got|; TookFromPlan(x, s.slot, s.out, msg[k..], marked, s.client.max - k)
    requires t == Session(x.slot, s.out, Absorb(s.client, x)) && t.client.phase.Finished?
    ensures Returned(t, msg, marked)
  {
    var k, max := |s.client.got|, s.client.max;
    AbsorbOnPlan(s.client, x, msg, Pending(x.slot) + Concat(s.out));
    LastReceive(|msg|, k, max, |x.data|);
    if k < |msg| <= max {
      assert msg[k..][|msg| - k..] == [];
    }
  }

  /** A receive that ends the loop reached the maximum or the end of the message, and if the
      message was then in need of a mark it was the mark itself. */
  lemma LastReceive(len: nat, k: nat, max: nat, n: nat)
    requires k <= len && k < max && WholeBuffers(k)
    requires n == Min(max - k, Min(len - k, BUFFER_SIZE)) && !(n == BUFFER_SIZE && k + n < max)
    ensures k + n == Min(len, max)
    ensures k < len && len <= max ==> n == Min(len - k, BUFFER_SIZE) == len - k
    ensures NeedsMark(len, max) ==> k == len
  {
  }

  lemma PrefixGrows(msg: seq<byte>, k: nat, data: seq<byte>, tail: seq<byte>)
    requires k <= |msg| && data + tail == msg[k..]
    ensures k + |data| <= |msg| && msg[..k] + data == msg[..k + |data|]
    ensures msg[..k + |data|] + tail == msg
  {
    assert msg == msg[..k] + data + tail;
  }

  lemma CarriesReceiveTurn(s: Session, msg: seq<byte>, marked: bool, max: positive)
    requires Carries(s, msg, marked, max) && ReceiveEnabled(s)
    ensures Carries(ReceiveTurn(s), msg, marked, max)
  {
    TurnTakesFromPlan(s, msg, marked);
    CarriesAfterTake(s, ReceiveTurn(s), TakeBytes(s.slot, Remaining(s.client)), msg, marked, max);
  }

  lemma TurnTakesFromPlan(s: Session, msg: seq<byte>, marked: bool)
    requires WellFormed(s.slot) && ReceiveEnabled(s) && Receiving(s, msg, marked)
    ensures TookFromPlan(TakeBytes(s.slot, Remaining(s.client)), s.slot, s.out, msg[|s.client.got|..], marked,
                         Remaining(s.client))
  {
    TakeFromPlan(s.slot, s.out, msg[|s.client.got|..], marked, Remaining(s.client));
  }

  lemma CarriesAfterTake(s: Session, t: Session, x: Received, msg: seq<byte>, marked: bool, max: positive)
    requires Carries(s, msg, marked, max) && s.client.phase.Running?
    requires TookFromPlan(x, s.slot, s.out, msg[|s.client.got|..], marked, max - |s.client.got|)
    requires t == Session(x.slot, s.out, Absorb(s.client, x))
    ensures Carries(t, msg, marked, max)
  {
    if t.client.phase.Running? {
      ReceivesMore(s, t, x, msg, marked);
    } else {
      ReceivesLast(s, t, x, msg, marked);
    }
  }

  lemma CarriesNext(a: Session, b: Session, msg: seq<byte>, marked: bool, max: positive)
    requires Carries(a, msg, marked, max) && Next(a, b)
    ensures Carries(b, msg, marked, max)
  {
    if SendEnabled(a) {
      CarriesSendTurn(a, msg, marked, max);
    } else {
      CarriesReceiveTurn(a, msg, marked, max);
    }
  }

  lemma {:induction false} CarriesThroughout(tr: seq<Session>, i: nat, slot: Slot, msg: seq<byte>, marked: bool,
                                             max: positive)
    requires |slot.buffer| == BUFFER_SIZE
    requires IsRun(tr, Session(Reset(slot), Plan(msg, marked), Begin(max))) && i < |tr|
    ensures Carries(tr[i], msg, marked, max)
  {
    if i == 0 {
      CarriesAtStart(Reset(slot), msg, marked, max);
    } else {
      CarriesThroughout(tr, i - 1, slot, msg, marked, max);
      CarriesNext(tr[i - 1], tr[i], msg, marked, max);
    }
  }

  // ----- What every interleaving delivers

  predicate Stuck(s: Session) {
    !SendEnabled(s) && !ReceiveEnabled(s)
  }

  /** Transfer theorem. In every state of every interleaving of one `memslot_send_fully(msg)` (followed,
      if `marked`, by a zero-length send) with one `memslot_receive_fully(max)` on a freshly reset slot,
      the receiver holds a prefix of the message; it has returned only with the first min(len, max) bytes;
      and when nothing more can happen it has returned, unless the message is unmarked, shorter
      than asked and a multiple of the buffer size: then it holds all of it and is still waiting. */
  lemma TransferDelivers(tr: seq<Session>, i: nat, slot: Slot, msg: seq<byte>, marked: bool, max: positive)
    requires |slot.buffer| == BUFFER_SIZE
    requires IsRun(tr, Session(Reset(slot), Plan(msg, marked), Begin(max))) && i < |tr|
    ensures tr[i].client.got <= msg && !tr[i].client.phase.Failed?
    ensures tr[i].client.phase.Finished? ==> tr[i].client.got == msg[..Min(|msg|, max)]
    ensures !marked && NeedsMark(|msg|, max) ==> tr[i].client.phase.Running?
    ensures Stuck(tr[i]) ==>
              (tr[i].client.phase.Running? <==> !marked && NeedsMark(|msg|, max))
    ensures Stuck(tr[i]) && tr[i].client.phase.Running? ==> tr[i].client.got == msg
  {
    CarriesThroughout(tr, i, slot, msg, marked, max);
    var s := tr[i];
    if s.client.phase.Running? && Stuck(s) {
      var rest := msg[|s.client.got|..];
      assert Plan(rest, marked) == [];
      assert rest == [];
    }
  }

  /** The turns that are still possible. */
  function TurnsLeft(s: Session): nat {
    2 * |s.out| + (if s.slot.flag.Sending? then 1 else 0) + (if s.client.phase.Running? then 1 else 0)
  }

  /** Both programs together stop: every turn uses up at least one of finitely many. */
  lemma {:induction false} TransferTerminates(tr: seq<Session>, i: nat, slot: Slot, msg: seq<byte>, marked: bool,
                                              max: positive)
    requires |slot.buffer| == BUFFER_SIZE
    requires IsRun(tr, Session(Reset(slot), Plan(msg, marked), Begin(max))) && i < |tr|
    ensures i + TurnsLeft(tr[i]) <= 2 * |Plan(msg, marked)| + 1
  {
    if i > 0 {
      TransferTerminates(tr, i - 1, slot, msg, marked, max);
      CarriesThroughout(tr, i - 1, slot, msg, marked, max);
      TurnIsUsedUp(tr[i - 1], tr[i], msg, marked, max);
    }
  }

  lemma TurnIsUsedUp(a: Session, b: Session, msg: seq<byte>, marked: bool, max: positive)
    requires Carries(a, msg, marked, max) && Next(a, b)
    ensures TurnsLeft(b) < TurnsLeft(a)
  {
    if SendEnabled(a) {
      StoreChunkKeeps(a.slot, a.out[0]);
    } else {
      TakeBytesKeeps(a.slot, Remaining(a.client));
    }
  }

  /** Where an exact transfer of `n` chunks is after `i` turns. */
  predicate AtTurn(s: Session, i: nat, n: nat) {
    && i <= 2 * n
    && |s.out| == n - (i + 1) / 2
    && (s.slot.flag.Waiting? <==> i % 2 == 0)
    && (s.slot.flag.Sending? <==> i % 2 == 1)
  }

  /** Step count. When exactly `max` bytes are sent, turns alternate strictly, send first, in every
      run; no state before the last is stuck; and a stuck run has made exactly ceil(len / B) sends and
      as many receives, leaving the slot reset and the whole message delivered. */
  lemma ExactTransferAlternates(tr: seq<Session>, i: nat, slot: Slot, msg: seq<byte>)
    requires |slot.buffer| == BUFFER_SIZE && msg != []
    requires IsRun(tr, Session(Reset(slot), Plan(msg, false), Begin(|msg|))) && i < |tr|
    ensures var n := BuffersFor(|msg|);
            && i <= 2 * n
            && (SendEnabled(tr[i]) <==> i % 2 == 0 && i < 2 * n)
            && (ReceiveEnabled(tr[i]) <==> i % 2 == 1)
            && (Stuck(tr[i]) <==> i == 2 * n)
            && (i == 2 * n ==> tr[i].client == Client(|msg|, msg, Finished) && tr[i].slot.flag.Waiting?)
  {
    ExactTurns(tr, i, slot, msg);
    CarriesThroughout(tr, i, slot, msg, false, |msg|);
    ExactEnabled(tr[i], msg);
  }

  lemma {:induction false} ExactTurns(tr: seq<Session>, i: nat, slot: Slot, msg: seq<byte>)
    requires |slot.buffer| == BUFFER_SIZE && msg != []
    requires IsRun(tr, Session(Reset(slot), Plan(msg, false), Begin(|msg|))) && i < |tr|
    ensures AtTurn(tr[i], i, BuffersFor(|msg|))
  {
    if i == 0 {
      ChunksCover(msg);
    } else {
      ExactTurns(tr, i - 1, slot, msg);
      CarriesThroughout(tr, i - 1, slot, msg, false, |msg|);
      ExactTurn(tr[i - 1], tr[i], msg);
      AtNextTurn(tr[i - 1], tr[i], i - 1, BuffersFor(|msg|));
    }
  }

  lemma AtNextTurn(s: Session, t: Session, i: nat, n: nat)
    requires AtTurn(s, i, n)
    requires if s.slot.flag.Waiting? then t.slot.flag.Sending? && |t.out| == |s.out| - 1
             else s.slot.flag.Sending? && t.slot.flag.Waiting? && t.out == s.out
    ensures AtTurn(t, i + 1, n)
  {}

  /** With an exact length a receive always takes the whole chunk. */
  lemma ExactTurn(s: Session, t: Session, msg: seq<byte>)
    requires msg != [] && Carries(s, msg, false, |msg|) && Next(s, t)
    ensures if s.slot.flag.Waiting? then t.slot.flag.Sending? && |t.out| == |s.out| - 1
            else s.slot.flag.Sending? && t.slot.flag.Waiting? && t.out == s.out
  {
    if ReceiveEnabled(s) {
      var k := |s.client.got|;
      TakeFromPlan(s.slot, s.out, msg[k..], false, |msg| - k);
    }
  }

  lemma ExactEnabled(s: Session, msg: seq<byte>)
    requires msg != [] && Carries(s, msg, false, |msg|)
    ensures s.client.phase.Running? <==> s.out != [] || s.slot.flag.Sending?
    ensures s.client.phase.Finished? ==> s.client == Client(|msg|, msg, Finished)
  {
    var k := |s.client.got|;
    if s.client.phase.Running? && CanSend(s.slot) {
      assert msg[k..] != [];
    } else if s.client.phase.Finished? {
      assert s.client.got == msg[..|msg|] == msg;
    }
  }
}

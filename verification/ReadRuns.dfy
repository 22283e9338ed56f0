/** Runs of the reading protocol: the implementation's read as one of them, a timeout after which the slot
    serves the next read, and what happens without the last part of the responder's contract. */
module ReadRuns {
  import opened Bytes
  import opened MemSlot
  import opened Transfer
  import opened SlotCalls
  import opened Delivery
  import opened Chains
  import opened ReadProtocol
  import opened ReadTracks
  import opened ReadSafety
  import opened ReadGuarantees
  import Pool = SlotPool
  import Wire = ControlPipe

  // ----- Paths

  /** One step; if `kept`, one that keeps the contract. */
  ghost predicate Follows(s: System, r: System, kept: bool) {
    exists e :: Enabled(s, e) && (kept ==> Obeys(s, e)) && r == Do(s, e)
  }

  ghost function Next(kept: bool): (System, System) -> bool {
    (s: System, r: System) => Follows(s, r, kept)
  }

  ghost predicate Leads(s: System, r: System, kept: bool) {
    Connects(Next(kept), s, r)
  }

  lemma Then(a: System, b: System, c: System, kept: bool)
    requires Leads(a, b, kept) && Leads(b, c, kept)
    ensures Leads(a, c, kept)
  {
    ConnectsOn(Next(kept), a, b, c);
  }

  lemma StepLeads(s: System, e: Step, kept: bool)
    requires Enabled(s, e) && (kept ==> Obeys(s, e))
    ensures Leads(s, Do(s, e), kept)
  {
    assert Follows(s, Do(s, e), kept);
    ConnectsOne(Next(kept), s, Do(s, e));
  }

  lemma FollowsKeeps(s: System, r: System, kept: bool)
    requires Inv(s) && Follows(s, r, kept)
    ensures Inv(r)
  {
    var e :| Enabled(s, e) && r == Do(s, e);
    StepKeeps(s, e);
  }

  lemma LeadsToInv(s: System, r: System, kept: bool)
    requires Inv(s) && Leads(s, r, kept)
    ensures Inv(r)
  {
    var inv: System -> bool := (x: System) => Inv(x);
    forall x: System, y: System | inv(x) && Next(kept)(x, y) ensures inv(y) {
      FollowsKeeps(x, y, kept);
    }
    ConnectsKeeps(Next(kept), inv, s, r);
    assert inv(r);
  }

  lemma RunCons(s: System, e: Step, es: seq<Step>)
    requires Enabled(s, e) && Plays(Do(s, e), es)
    ensures Plays(s, [e] + es) && Play(s, [e] + es) == Play(Do(s, e), es)
    ensures Obeys(s, e) && PlaysByContract(Do(s, e), es) ==> PlaysByContract(s, [e] + es)
  {
    var fs := [e] + es;
    assert fs[0] == e && fs[1..] == es;
  }

  /** Such a path is a run. */
  lemma {:induction false} ChainIsRun(tr: seq<System>, kept: bool) returns (es: seq<Step>)
    requires Chain(Next(kept), tr)
    ensures Plays(tr[0], es) && Play(tr[0], es) == tr[|tr| - 1] && (kept ==> PlaysByContract(tr[0], es))
  {
    es := [];
    if |tr| > 1 {
      assert Next(kept)(tr[0], tr[1]);
      var e :| Enabled(tr[0], e) && (kept ==> Obeys(tr[0], e)) && tr[1] == Do(tr[0], e);
      es := ChainIsRun(tr[1..], kept);
      RunCons(tr[0], e, es);
      es := [e] + es;
    }
  }

  // ----- A thread up to its request

  /** A read that can start: an id is free for a thread that is not in a read. */
  predicate MayStart(s: System, t: Tid, job: Job) {
    && t.party < 2 && t !in s.threads && Pool.Take(s.pools[t.party].pool).Granted?
    && |job.path| < 0x7fff_0000 && job.size < 0x8000_0000 && job.serial == s.nextSerial
  }

  function Newcomer(s: System, t: Tid, job: Job): Thread
    requires MayStart(s, t, job)
  {
    Thread(Holding, Pool.Take(s.pools[t.party].pool).id, job, Begin(job.size), false, {})
  }

  function AfterTaking(s: System, t: Tid, job: Job): (r: System)
    requires MayStart(s, t, job)
    ensures r.lanes == s.lanes && r.queue == s.queue
  {
    Enter(s, t, Newcomer(s, t, job))
  }

  function AfterReset(s: System, t: Tid, job: Job): System
    requires MayStart(s, t, job)
  {
    var th := Newcomer(s, t, job);
    Update(AfterTaking(s, t, job), t, th.(stage := Armed, quiet := Quiet(s, th.id)), ResetLane(s.lanes[th.id]))
  }

  /** The thread when it has asked. */
  function Reader(s: System, t: Tid, job: Job): (th: Thread)
    requires MayStart(s, t, job)
    ensures RequestFits(th)
  {
    var th := Newcomer(s, t, job);
    th.(stage := Reading, quiet := Quiet(s, th.id))
  }

  function AfterAsking(s: System, t: Tid, job: Job): System
    requires MayStart(s, t, job)
  {
    Ask(AfterReset(s, t, job), t, RequestFor(Reader(s, t, job)))
  }

  lemma Taking(s: System, t: Tid, job: Job)
    requires MayStart(s, t, job)
    ensures var e := TakeId(t, job.path, job.size, job.offset);
            Enabled(s, e) && Obeys(s, e) && Do(s, e) == AfterTaking(s, t, job)
  {}

  lemma Resetting(s: System, t: Tid, job: Job)
    requires MayStart(s, t, job)
    ensures var a, e := AfterTaking(s, t, job), ResetSlot(t);
            Enabled(a, e) && Obeys(a, e) && Do(a, e) == AfterReset(s, t, job)
  {
    var a, th := AfterTaking(s, t, job), Newcomer(s, t, job);
    assert a.threads[t] == th;
    assert Quiet(a, th.id) == Quiet(s, th.id);
  }

  lemma Writing(s: System, t: Tid, job: Job)
    requires MayStart(s, t, job)
    ensures var b, e := AfterReset(s, t, job), WriteRequest(t);
            Enabled(b, e) && Obeys(b, e) && Do(b, e) == AfterAsking(s, t, job)
  {
    var b := AfterReset(s, t, job);
    assert RequestFor(b.threads[t]) == RequestFor(Reader(s, t, job));
  }

  /** What the pool of a process with party `p` and the rest of the state look like when thread `t` has asked. */
  predicate HasAsked(s: System, r: System, t: Tid, job: Job)
    requires MayStart(s, t, job)
  {
    var th := Reader(s, t, job);
    && r.threads == s.threads[t := th]
    && r.lanes == s.lanes[th.id := ResetLane(s.lanes[th.id])]
    && r.queue == s.queue + [Ticket(job.serial, RequestFor(th))]
    && r.pools == s.pools[t.party := Pool.Act(s.pools[t.party], Pool.Begin(t.n, Pool.Read))]
    && r.answers == s.answers && r.results == s.results && r.nextSerial == s.nextSerial + 1
  }

  /** Any thread that may start can get as far as waiting for its reply. */
  lemma Asking(s: System, t: Tid, job: Job) returns (r: System)
    requires MayStart(s, t, job)
    ensures Leads(s, r, true) && HasAsked(s, r, t, job)
  {
    Taking(s, t, job);
    Resetting(s, t, job);
    Writing(s, t, job);
    var a, b := AfterTaking(s, t, job), AfterReset(s, t, job);
    r := AfterAsking(s, t, job);
    StepLeads(s, TakeId(t, job.path, job.size, job.offset), true);
    StepLeads(a, ResetSlot(t), true);
    StepLeads(b, WriteRequest(t), true);
    Then(s, a, b, true);
    Then(s, b, r, true);
    AskedState(s, t, job);
  }

  lemma AskedState(s: System, t: Tid, job: Job)
    requires MayStart(s, t, job)
    ensures HasAsked(s, AfterAsking(s, t, job), t, job)
  {}

  // ----- The responder's part

  predicate SameButLanes(s: System, r: System) {
    && r.threads == s.threads && r.pools == s.pools && r.results == s.results && r.nextSerial == s.nextSerial
  }

  lemma Answering(s: System, reply: seq<byte>) returns (r: System)
    requires Piped(s) && Registered(s) && s.queue != [] && ReplyAllowed(s.queue[0].q, reply)
    ensures Leads(s, r, true)
    ensures var k := s.queue[0];
            var id := k.q.rec.txId;
            && 0 <= id < SLOT_COUNT && SameButLanes(s, r) && r.queue == s.queue[1..]
            && r.lanes == s.lanes[id := Replied(s.lanes[id], k.serial, ReplyPlan(reply, k.q.rec.length))]
            && r.answers == s.answers[k.serial := Answer(k.q, reply)]
  {
    HeadOfPipe(s);
    assert TicketFits(s, s.queue[0]);
    StepLeads(s, Respond(reply), true);
    r := Do(s, Respond(reply));
  }

  lemma Dropping(s: System) returns (r: System)
    requires Piped(s) && Registered(s) && s.queue != []
    ensures Leads(s, r, true)
    ensures var k := s.queue[0];
            var id := k.q.rec.txId;
            && 0 <= id < SLOT_COUNT && SameButLanes(s, r) && r.queue == s.queue[1..]
            && r.lanes == s.lanes[id := Dropped(s.lanes[id], k.serial)] && r.answers == s.answers
  {
    HeadOfPipe(s);
    assert TicketFits(s, s.queue[0]);
    StepLeads(s, Drop, true);
    r := Do(s, Drop);
  }

  // ----- One byte

  /** Read number `k` of one byte of a file with an empty name. */
  function OneByte(k: nat): Job {
    Job(k, [], 1, 0)
  }

  lemma OneBytePlan(b: byte)
    ensures ReplyPlan([b], 1) == [[b]]
  {}

  /** A thread that has asked for one byte, on a slot where one byte is the next to be sent. */
  predicate OneByteDue(s: System, t: Tid, b: byte) {
    && InStage(s, t, Reading)
    && var th := s.threads[t];
    && th.job.size == 1 && th.client == Begin(1) && th.took == {}
    && s.lanes[th.id].sends != [] && s.lanes[th.id].sends[0].data == [b] && CanSend(s.lanes[th.id].slot)
  }

  lemma Sending(s: System, t: Tid, b: byte) returns (r: System)
    requires OneByteDue(s, t, b)
    ensures Leads(s, r, true)
    ensures var id := s.threads[t].id;
            && SameButLanes(s, r) && r.answers == s.answers && Pending(r.lanes[id].slot) == [b]
            && r.lanes[id].slot.flag.Sending?
            && r.lanes[id].loaded == s.lanes[id].sends[0].serial && r.lanes[id].gaveUp == s.lanes[id].gaveUp
  {
    var id := s.threads[t].id;
    StoreChunkKeeps(s.lanes[id].slot, [b]);
    StepLeads(s, SendChunk(id), true);
    r := Do(s, SendChunk(id));
  }

  lemma TakesOneByte(slot: Slot, b: byte)
    requires WellFormed(slot) && CanReceive(slot) && Pending(slot) == [b]
    ensures Absorb(Begin(1), TakeBytes(slot, 1)) == Client(1, [b], Finished)
  {
    TakeBytesKeeps(slot, 1);
    var x := TakeBytes(slot, 1);
    assert |x.data| == 1;
    assert x.data == (x.data + Pending(x.slot))[..1] == [b];
  }

  lemma Receiving(s: System, t: Tid, b: byte) returns (r: System)
    requires InStage(s, t, Reading) && s.threads[t].client == Begin(1)
    requires s.lanes[s.threads[t].id].slot.flag.Sending? && Pending(s.lanes[s.threads[t].id].slot) == [b]
    ensures Leads(s, r, true)
    ensures var th := s.threads[t];
            && r.threads == s.threads[t := th.(client := Client(1, [b], Finished),
                                               took := th.took + {s.lanes[th.id].loaded})]
            && r.answers == s.answers && r.lanes[th.id].gaveUp == s.lanes[th.id].gaveUp
  {
    TakesOneByte(s.lanes[s.threads[t].id].slot, b);
    StepLeads(s, ReceiveChunk(t), true);
    r := Do(s, ReceiveChunk(t));
  }

  lemma Finishing(s: System, t: Tid) returns (r: System)
    requires InStage(s, t, Reading) && s.threads[t].client.phase.Finished? && s.threads[t].job.size > 0
    ensures Leads(s, r, true)
    ensures var th := s.threads[t];
            && r.answers == s.answers && th.job.serial in r.results
            && r.results[th.job.serial] == Result(th.job, th.client.got, th.quiet, th.took, s.lanes[th.id].gaveUp)
  {
    StepLeads(s, Return(t), true);
    r := Do(s, Return(t));
  }

  /** The byte reaches the caller. */
  lemma Delivering(s: System, t: Tid, b: byte) returns (r: System)
    requires OneByteDue(s, t, b)
    ensures Leads(s, r, true)
    ensures var th := s.threads[t];
            var lane := s.lanes[th.id];
            && th.job.serial in r.results && r.answers == s.answers
            && r.results[th.job.serial] == Result(th.job, [b], th.quiet, {lane.sends[0].serial}, lane.gaveUp)
  {
    var s1 := Sending(s, t, b);
    var s2 := Receiving(s1, t, b);
    r := Finishing(s2, t);
    Then(s, s1, s2, true);
    Then(s, s2, r, true);
  }

  // ----- A timeout, and the next read on the same slot

  const A: Tid := Tid(0, 0)
  const B: Tid := Tid(0, 1)

  /** Thread `A` has asked for a byte on slot 0, and nothing is answered yet. */
  predicate FirstAsked(s: System) {
    && s.threads.Keys == {A} && InStage(s, A, Reading)
    && var th := s.threads[A];
    && th.id == 0 && th.quiet && th.client == Begin(1) && th.took == {} && th.job == OneByte(0)
    && s.queue == [Ticket(0, RequestFor(th))]
    && s.lanes[0].sends == [] && CanSend(s.lanes[0].slot)
    && s.pools[0].held == map[0 := Pool.Hold(Pool.Read, 0)] && s.pools[0].pool == Pool.Pool(2, [])
    && s.answers == map[] && s.results == map[] && s.nextSerial == 1
  }

  lemma FirstAsks() returns (s: System)
    ensures Leads(Start(), s, true) && FirstAsked(s)
  {
    s := Asking(Start(), A, OneByte(0));
  }

  /** Slot 0 and the pool, when thread `A` has timed out. */
  predicate FirstTimedOut(s: System) {
    && s.threads == map[] && s.lanes[0].sends == []
    && s.pools[0].held == map[] && s.pools[0].pool == Pool.Pool(2, [0])
    && s.answers == map[] && s.results == map[] && s.nextSerial == 1
  }

  /** Thread `A` waits, and nothing is on the way to it. */
  predicate Waits(s: System) {
    && s.threads.Keys == {A} && InStage(s, A, Reading)
    && s.threads[A].id == 0 && s.threads[A].client == Begin(1)
    && s.lanes[0].sends == [] && CanSend(s.lanes[0].slot)
    && s.pools[0].held == map[0 := Pool.Hold(Pool.Read, 0)] && s.pools[0].pool == Pool.Pool(2, [])
    && s.answers == map[] && s.results == map[] && s.nextSerial == 1
  }

  lemma FirstTimesOut(s: System) returns (r: System)
    requires Waits(s)
    ensures Enabled(s, TimeOut(A)) && r == Do(s, TimeOut(A)) && FirstTimedOut(r) && r.queue == s.queue
    ensures Obeys(s, TimeOut(A)) <==> OnSlot(s.queue, 0) == []
    ensures Leads(s, r, false)
  {
    r := Do(s, TimeOut(A));
    assert r.threads == map[];
    assert r.pools[0].held == map[];
    StepLeads(s, TimeOut(A), false);
  }

  /** Thread `B` has asked on slot 0 after that. */
  predicate NextAsked(s: System, quiet: bool) {
    && InStage(s, B, Reading)
    && var th := s.threads[B];
    && th.id == 0 && th.quiet == quiet && th.client == Begin(1) && th.took == {} && th.job == OneByte(1)
    && s.queue != [] && s.queue[|s.queue| - 1] == Ticket(1, RequestFor(th))
    && s.lanes[0].sends == [] && CanSend(s.lanes[0].slot)
    && s.answers == map[] && s.results == map[]
  }

  lemma NextAsks(s: System) returns (r: System)
    requires FirstTimedOut(s)
    ensures Leads(s, r, true)
    ensures NextAsked(r, OnSlot(s.queue, 0) == []) && r.queue[..|r.queue| - 1] == s.queue
    ensures r.lanes[0].gaveUp == {}
  {
    r := Asking(s, B, OneByte(1));
  }

  lemma FirstIsGivenUp() returns (s: System)
    ensures Leads(Start(), s, true) && Waits(s) && s.queue == []
  {
    var f := FirstAsks();
    StartInv();
    LeadsToInv(Start(), f, true);
    s := Dropping(f);
    Then(Start(), f, s, true);
  }

  /** The next request is answered, with nothing before it. */
  lemma NextIsAnswered(s: System, quiet: bool, own: byte) returns (r: System)
    requires Piped(s) && Registered(s) && NextAsked(s, quiet) && |s.queue| == 1
    ensures Leads(s, r, true)
    ensures OneByteDue(r, B, own) && r.threads == s.threads && r.results == map[]
    ensures r.lanes[0].gaveUp == s.lanes[0].gaveUp && r.lanes[0].sends != [] && r.lanes[0].sends[0].serial == 1
    ensures r.answers == map[1 := Answer(RequestFor(s.threads[B]), [own])]
  {
    OneBytePlan(own);
    r := Answering(s, [own]);
  }

  /** By contract: the responder gives up `A`'s request, `A` times out, and slot 0 serves the next read, which
      returns its own byte. */
  lemma TimedOutSlotServesNextRead(own: byte) returns (s: System, r: System)
    ensures Leads(Start(), s, true) && Enabled(s, TimeOut(A)) && Obeys(s, TimeOut(A)) && s.threads[A].id == 0
    ensures Leads(Do(s, TimeOut(A)), r, true)
    ensures 1 in r.results && r.results[1].job == OneByte(1) && r.results[1].bytes == [own]
    ensures OwnBytes(r, 1) && r.answers[1].q.rec.txId == 0
  {
    s := FirstIsGivenUp();
    var a := FirstTimesOut(s);
    var b := NextAsks(a);
    ReachedOverTimeOut(s, a, b);
    var c := NextIsAnswered(b, true, own);
    r := Delivering(c, B, own);
    Then(a, b, c, true);
    Then(a, c, r, true);
  }

  lemma ReachedOverTimeOut(s: System, a: System, b: System)
    requires Leads(Start(), s, true) && Leads(s, a, false) && Leads(a, b, true)
    ensures Inv(b)
  {
    StartInv();
    LeadsToInv(Start(), s, true);
    LeadsToInv(s, a, false);
    LeadsToInv(a, b, true);
  }

  // ----- Without the last part of the contract

  lemma FirstIsLate() returns (s: System)
    ensures Leads(Start(), s, true) && Waits(s) && |s.queue| == 1 && LateTicket(s.queue[0])
  {
    s := FirstAsks();
  }

  /** Read 0's request for one byte on slot 0. */
  predicate LateTicket(k: Ticket) {
    k.serial == 0 && k.q.rec.txId == 0 && k.q.rec.length == 1
  }

  /** Read 0's byte is the next to be sent to thread `B`, whose own read is number 1. */
  predicate LateByteDue(s: System, late: byte) {
    && OneByteDue(s, B, late) && s.threads[B].job == OneByte(1) && !s.threads[B].quiet
    && s.threads[B].id == 0 && s.lanes[0].sends[0].serial == 0
  }

  lemma LateIsAnswered(s: System, late: byte) returns (r: System)
    requires Piped(s) && Registered(s) && NextAsked(s, false) && |s.queue| == 2 && LateTicket(s.queue[0])
    ensures Leads(s, r, true) && LateByteDue(r, late)
    ensures r.queue == [Ticket(1, RequestFor(s.threads[B]))] && r.lanes[0].gaveUp == s.lanes[0].gaveUp
  {
    OneBytePlan(late);
    r := Answering(s, [late]);
  }

  lemma BothAreAnswered(s: System, late: byte, own: byte) returns (r: System)
    requires Inv(s) && NextAsked(s, false) && |s.queue| == 2 && LateTicket(s.queue[0])
    ensures Leads(s, r, true) && LateByteDue(r, late)
    ensures 1 in r.answers && r.answers[1].reply == [own] && r.lanes[0].gaveUp == s.lanes[0].gaveUp
  {
    OneBytePlan(own);
    var m := LateIsAnswered(s, late);
    LeadsToInv(s, m, true);
    r := Answering(m, [own]);
    Then(s, m, r, true);
  }

  /** Why the last part of the contract is there: in this run thread `A` times out before its request is answered,
      `B` gets the same slot, and then both are answered. `B`'s read completes with the byte meant for `A`, though
      another was sent for it: `txNo` counts resets but is never looked at. */
  lemma LateReplyIsTaken(late: byte, own: byte) returns (s: System, r: System)
    ensures Leads(Start(), s, true) && Enabled(s, TimeOut(A)) && !Obeys(s, TimeOut(A))
    ensures Leads(Do(s, TimeOut(A)), r, true) && 1 in r.results && r.results[1].job == OneByte(1)
    ensures r.results[1].bytes == [late] && r.results[1].took == {0} && !r.results[1].quiet && r.results[1].gaveUp == {}
    ensures 1 in r.answers && r.answers[1].reply == [own]
    ensures late != own ==> !OwnBytes(r, 1)
  {
    s := FirstIsLate();
    var a := FirstTimesOut(s);
    var b := NextAsks(a);
    ReachedOverTimeOut(s, a, b);
    var c := BothAreAnswered(b, late, own);
    r := Delivering(c, B, late);
    Then(a, b, c, true);
    Then(a, c, r, true);
  }

  lemma LateIsDropped(s: System) returns (r: System)
    requires Inv(s) && NextAsked(s, false) && |s.queue| == 2 && LateTicket(s.queue[0]) && s.lanes[0].gaveUp == {}
    ensures Leads(s, r, true) && NextAsked(r, false) && |r.queue| == 1 && r.lanes[0].gaveUp == {0}
  {
    r := Dropping(s);
  }

  /** Why `QuietResetDecides` leaves out what the responder gives up: in this run `A`'s late request is dropped
      instead, and `B`'s read has its own byte, although its slot was not quiet. */
  lemma LateRequestIsDropped(own: byte) returns (s: System, r: System)
    ensures Leads(Start(), s, true) && Enabled(s, TimeOut(A)) && !Obeys(s, TimeOut(A))
    ensures Leads(Do(s, TimeOut(A)), r, true) && 1 in r.results && r.results[1].job == OneByte(1)
    ensures OwnBytes(r, 1) && r.results[1].took == {1} && !r.results[1].quiet && r.results[1].gaveUp == {0}
  {
    s := FirstIsLate();
    var a := FirstTimesOut(s);
    var b := NextAsks(a);
    ReachedOverTimeOut(s, a, b);
    var c := LateIsDropped(b);
    LeadsToInv(b, c, true);
    var d := NextIsAnswered(c, false, own);
    r := Delivering(d, B, own);
    Then(a, b, c, true);
    Then(a, c, d, true);
    Then(a, d, r, true);
  }

  // ----- The implementation's read is a run

  /** Only the lane's slot and sends, and what thread `t` has received, are changed. */
  predicate SameRead(s: System, r: System, t: Tid) {
    && t in s.threads && t in r.threads
    && r.threads[t] == s.threads[t].(client := r.threads[t].client, took := r.threads[t].took)
    && r.pools == s.pools && r.queue == s.queue && r.answers == s.answers && r.results == s.results
  }

  lemma TurnIsStep(s: System, t: Tid, m: Session) returns (r: System)
    requires InStage(s, t, Reading) && Transfer.Next(SessionOf(s, t), m)
    ensures Leads(s, r, true) && SameRead(s, r, t) && SessionOf(r, t) == m
  {
    var id := s.threads[t].id;
    var x := SessionOf(s, t);
    if SendEnabled(x) && m == SendTurn(x) {
      assert DataOf(s.lanes[id].sends)[1..] == DataOf(s.lanes[id].sends[1..]);
      StepLeads(s, SendChunk(id), true);
      r := Do(s, SendChunk(id));
    } else {
      StepLeads(s, ReceiveChunk(t), true);
      r := Do(s, ReceiveChunk(t));
    }
  }

  lemma FirstTurnIsStep(s: System, t: Tid, b: Session, n: nat) returns (r: System)
    requires InStage(s, t, Reading) && n > 0 && Reaches(SessionOf(s, t), b, n)
    ensures Leads(s, r, true) && SameRead(s, r, t) && Reaches(SessionOf(r, t), b, n - 1)
  {
    var m :| Transfer.Next(SessionOf(s, t), m) && Reaches(m, b, n - 1);
    r := TurnIsStep(s, t, m);
  }

  lemma {:induction false} TurnsAreSteps(s: System, t: Tid, b: Session, n: nat) returns (r: System)
    requires InStage(s, t, Reading) && Reaches(SessionOf(s, t), b, n)
    ensures Leads(s, r, true) && SameRead(s, r, t) && SessionOf(r, t) == b
    decreases n
  {
    if n == 0 {
      r := s;
      Stays(s);
    } else {
      var x := FirstTurnIsStep(s, t, b, n);
      r := TurnsAreSteps(x, t, b, n - 1);
      Then(s, x, r, true);
    }
  }

  lemma Stays(s: System)
    ensures Leads(s, s, true)
  {
    assert Chain(Next(true), [s]) && [s][0] == s && [s][|[s]| - 1] == s;
  }

  /** What `memslot_receive_fully` does on a slot that thread `t` has just reset, while the responder sends `reply`. */
  function Call(slot: Slot, reply: seq<byte>, size: nat): Gathered
    requires |slot.buffer| == BUFFER_SIZE
  {
    ReceiveFully(History(Reset(slot), [], []), size, Sends(ReplyPlan(reply, size)))
  }

  lemma ReplyIsReceived(s: System, t: Tid, slot: Slot, reply: seq<byte>) returns (r: System)
    requires InStage(s, t, Reading) && 0 < s.threads[t].job.size && |reply| <= s.threads[t].job.size
    requires |slot.buffer| == BUFFER_SIZE && !slot.terminated
    requires var size := s.threads[t].job.size;
             SessionOf(s, t) == Session(Reset(slot), ReplyPlan(reply, size), Begin(size))
    ensures Leads(s, r, true) && SameRead(s, r, t)
    ensures var call := Call(slot, reply, s.threads[t].job.size);
            && r.threads[t].client == call.client && r.lanes[r.threads[t].id].slot == call.h.slot
            && call.client.phase.Finished? && call.client.got == reply
  {
    var size := s.threads[t].job.size;
    var h, plan := History(Reset(slot), [], []), ReplyPlan(reply, size);
    var left := ReceiveLoopIsARun(h, Begin(size), plan);
    ReceiveFullyDelivers(slot, reply, reply == [] || NeedsMark(|reply|, size), size);
    assert reply[..|reply|] == reply;
    r := TurnsAreSteps(s, t, Ended(Call(slot, reply, size), left.out), left.n);
  }

  /** A slot on which nothing is asked or being sent. Requests for other slots may be waiting. */
  predicate Free(s: System, id: nat)
    requires id < SLOT_COUNT
  {
    Quiet(s, id) && !s.lanes[id].slot.terminated
  }

  /** The responder answers the first request, leaving a slot alone that no request names. */
  lemma HeadIsAnswered(s: System, id: nat) returns (r: System)
    requires Inv(s) && id < SLOT_COUNT && OnSlot(s.queue, id) == [] && s.queue != []
    ensures Leads(s, r, true) && Inv(r) && r.queue == s.queue[1..] && OnSlot(r.queue, id) == []
    ensures SameButLanes(s, r) && r.lanes[id] == s.lanes[id]
  {
    r := Answering(s, []);
    LeadsToInv(s, r, true);
  }

  /** It can answer everything that waits in the pipe. */
  lemma {:induction false} PipeIsEmptied(s: System, id: nat) returns (r: System)
    requires Inv(s) && id < SLOT_COUNT && OnSlot(s.queue, id) == []
    ensures Leads(s, r, true) && Inv(r) && r.queue == [] && SameButLanes(s, r) && r.lanes[id] == s.lanes[id]
    decreases |s.queue|
  {
    if s.queue == [] {
      r := s;
      Stays(s);
    } else {
      var m := HeadIsAnswered(s, id);
      r := PipeIsEmptied(m, id);
      Then(s, m, r, true);
    }
  }

  lemma AnsweredAlone(s: System, t: Tid, job: Job, reply: seq<byte>) returns (r: System)
    requires Inv(s) && MayStart(s, t, job) && Free(s, Reader(s, t, job).id) && s.queue == [] && |reply| <= job.size
    ensures Leads(s, r, true) && InStage(r, t, Reading) && r.threads[t] == Reader(s, t, job)
    ensures var id := r.threads[t].id;
            SessionOf(r, t) == Session(Reset(s.lanes[id].slot), ReplyPlan(reply, job.size), Begin(job.size))
    ensures r.pools == s.pools[t.party := Pool.Act(s.pools[t.party], Pool.Begin(t.n, Pool.Read))]
  {
    var a := Asking(s, t, job);
    LeadsToInv(s, a, true);
    r := Answering(a, reply);
    Then(s, a, r, true);
    var id, plan := r.threads[t].id, ReplyPlan(reply, job.size);
    assert r.lanes[id].sends == [] + Parcels(job.serial, plan);
    assert DataOf(r.lanes[id].sends) == plan;
  }

  /** The implementation's read is a run. When a read can start on a free slot, the protocol has a run, by contract,
      in which it gets any reply that is allowed, with the slot and the pool left exactly as the calls of the
      implementation leave them. */
  lemma ReadIsARun(s: System, t: Tid, job: Job, reply: seq<byte>) returns (r: System)
    requires Inv(s) && MayStart(s, t, job) && Free(s, Reader(s, t, job).id) && |reply| <= job.size && 0 < job.size
    ensures Leads(s, r, true) && job.serial in r.results
    ensures var id := Reader(s, t, job).id;
            var call := Call(s.lanes[id].slot, reply, job.size);
            && r.results[job.serial].job == job && r.results[job.serial].bytes == call.client.got == reply
            && ReturnCode(call.client) == |reply| && r.lanes[id].slot == call.h.slot
            && r.pools[t.party].pool == Pool.Give(Pool.Take(s.pools[t.party].pool).pool, id)
  {
    var id := Reader(s, t, job).id;
    var e := PipeIsEmptied(s, id);
    var a := AnsweredAlone(e, t, job, reply);
    var b := ReplyIsReceived(a, t, s.lanes[id].slot, reply);
    LeadsToInv(e, a, true);
    LeadsToInv(a, b, true);
    r := Completing(b, t);
    Then(s, e, a, true);
    Then(s, a, b, true);
    Then(s, b, r, true);
  }

  lemma Completing(s: System, t: Tid) returns (r: System)
    requires Linked(s) && InStage(s, t, Reading) && s.threads[t].client.phase.Finished? && s.threads[t].job.size > 0
    ensures Leads(s, r, true) && r.lanes == s.lanes
    ensures var th := s.threads[t];
            && th.job.serial in r.results && r.results[th.job.serial].job == th.job
            && r.results[th.job.serial].bytes == th.client.got
            && r.pools[t.party].pool == Pool.Give(s.pools[t.party].pool, th.id)
  {
    StepLeads(s, Return(t), true);
    r := Do(s, Return(t));
  }
}

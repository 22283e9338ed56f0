/** What every run of the reading protocol keeps, and what it means for the callers of `blkfs_do_read`. */
module ReadSafety {
  import opened Bytes
  import opened MemSlot
  import opened Transfer
  import opened ReadProtocol
  import opened ReadTracks
  import Pool = SlotPool
  import Wire = ControlPipe

  // ----- Invariant

  /** Each pool is what its history of actions made it. */
  ghost predicate Ran(s: System) {
    forall p :: 0 <= p < 2 ==> s.pools[p] == Pool.Run(Pool.Start(p), s.acts[p])
  }

  /** A thread in a read holds its id, for a read. */
  predicate HoldsIds(s: System) {
    forall t :: t in s.threads ==>
      t.n in s.pools[t.party].held && s.pools[t.party].held[t.n] == Pool.Hold(Pool.Read, s.threads[t].id)
  }

  ghost predicate OnlyThreadsHold(s: System) {
    forall p, n :: 0 <= p < 2 && n in s.pools[p].held ==> Tid(p, n) in s.threads
  }

  /** The pools say of each thread in a read that it holds its id, and of nobody else. */
  ghost predicate Linked(s: System) {
    Ran(s) && HoldsIds(s) && OnlyThreadsHold(s)
  }

  /** Every serial number in use belongs to one thread and one slot. */
  ghost predicate Registered(s: System) {
    && (forall t :: t in s.threads ==>
          var k := s.threads[t].job.serial;
          k < s.nextSerial && k !in s.results && k in s.owners && s.owners[k] == Owner(t, s.threads[t].id))
    && (forall i :: 0 <= i < |s.queue| ==> TicketFits(s, s.queue[i]))
    && (forall id, i :: 0 <= id < SLOT_COUNT && 0 <= i < |s.lanes[id].sends| ==>
          s.lanes[id].sends[i].serial < s.nextSerial)
    && (forall k :: k in s.answers || k in s.results ==> k < s.nextSerial)
  }

  predicate TicketFits(s: System, k: Ticket) {
    && k.serial < s.nextSerial && k.serial in s.owners && s.owners[k.serial].id == k.q.rec.txId
    && Wire.ValidRequest(k.q) && 0 <= k.q.rec.txId < SLOT_COUNT && 0 <= k.q.rec.length
  }

  function FramesOf(queue: seq<Ticket>): (ms: seq<seq<byte>>)
    ensures |ms| == |queue|
  {
    seq(|queue|, i requires 0 <= i < |queue| => Wire.Frame(queue[i].q))
  }

  ghost predicate Piped(s: System) {
    s.pipe == Concat(FramesOf(s.queue))
  }

  function AnswersTo(answers: map<nat, Answer>, k: nat): seq<Answer> {
    if k in answers then [answers[k]] else []
  }

  ghost predicate OnTrack(s: System, t: Tid)
    requires t in s.threads
  {
    var th := s.threads[t];
    Track(th, s.lanes[th.id], OnSlot(s.queue, th.id), AnswersTo(s.answers, th.job.serial))
  }

  ghost predicate AllOnTrack(s: System) {
    forall t {:trigger OnTrack(s, t)} :: t in s.threads ==> OnTrack(s, t)
  }

  ghost predicate ResultFits(s: System, k: nat)
    requires k in s.results
  {
    var r := s.results[k];
    && r.job.serial == k
    && (r.job.size > 0 ==> Settled(r, AnswersTo(s.answers, k)))
    && (r.job.size > 0 && r.quiet ==> forall i :: 0 <= i < |s.queue| ==> s.queue[i].serial != k)
  }

  ghost predicate AllSettled(s: System) {
    forall k {:trigger ResultFits(s, k)} :: k in s.results ==> ResultFits(s, k)
  }

  ghost predicate Inv(s: System) {
    Linked(s) && Registered(s) && Piped(s) && AllOnTrack(s) && AllSettled(s)
  }

  lemma StartInv()
    ensures Inv(Start())
  {
    assert Concat([]) == [];
    assert FramesOf([]) == [];
  }

  /** Two threads in a read never hold the same slot, whatever their processes. */
  lemma IdsDiffer(s: System, t: Tid, u: Tid)
    requires Linked(s) && t in s.threads && u in s.threads && t != u
    ensures s.threads[t].id != s.threads[u].id
  {
    Pool.OneProcess(t.party, s.acts[t.party]);
    Pool.OneProcess(u.party, s.acts[u.party]);
    if t.party == u.party {
      assert t.n != u.n;
    }
  }

  // ----- Requests for one slot

  lemma {:induction false} OnSlotSnoc(queue: seq<Ticket>, k: Ticket, id: nat)
    ensures OnSlot(queue + [k], id) == OnSlot(queue, id) + if k.q.rec.txId == id then [k] else []
  {
    if queue == [] {
      assert queue + [k] == [k];
    } else {
      assert (queue + [k])[0] == queue[0] && (queue + [k])[1..] == queue[1..] + [k];
      OnSlotSnoc(queue[1..], k, id);
      var first := if queue[0].q.rec.txId == id then [queue[0]] else [];
      var last := if k.q.rec.txId == id then [k] else [];
      assert first + OnSlot(queue[1..], id) + last == first + (OnSlot(queue[1..], id) + last);
    }
  }

  lemma {:induction false} OnSlotHas(queue: seq<Ticket>, i: nat, id: nat)
    requires i < |queue| && queue[i].q.rec.txId == id
    ensures OnSlot(queue, id) != []
  {
    if i > 0 {
      OnSlotHas(queue[1..], i - 1, id);
    }
  }

  // ----- Threads and answers that a step leaves alone

  /** A thread stays on track while it, its lane, the requests for its slot and its answer are left alone. */
  predicate LeftAlone(s: System, r: System, t: Tid)
    requires t in s.threads
  {
    var th := s.threads[t];
    && t in r.threads && r.threads[t] == th && r.lanes[th.id] == s.lanes[th.id]
    && OnSlot(r.queue, th.id) == OnSlot(s.queue, th.id)
    && AnswersTo(r.answers, th.job.serial) == AnswersTo(s.answers, th.job.serial)
  }

  lemma AllKeepTrack(s: System, r: System)
    requires AllOnTrack(s)
    requires forall t :: t in r.threads ==> (t in s.threads && LeftAlone(s, r, t)) || OnTrack(r, t)
    ensures AllOnTrack(r)
  {
    forall t | t in r.threads ensures OnTrack(r, t) {
      if t in s.threads && LeftAlone(s, r, t) {
        assert OnTrack(s, t);
      }
    }
  }

  predicate SameThreads(s: System, r: System) {
    && r.threads.Keys == s.threads.Keys
    && forall t :: t in s.threads ==> r.threads[t].id == s.threads[t].id && r.threads[t].job == s.threads[t].job
  }

  lemma LinkedFrame(s: System, r: System)
    requires Linked(s) && SameThreads(s, r) && r.pools == s.pools && r.acts == s.acts
    ensures Linked(r)
  {}

  lemma SettledFrame(s: System, r: System)
    requires AllSettled(s) && r.results == s.results && r.answers == s.answers && r.queue == s.queue
    ensures AllSettled(r)
  {
    forall k | k in r.results ensures ResultFits(r, k) {
      assert ResultFits(s, k);
    }
  }

  // ----- Steps of one thread on its lane

  /** Thread `t` and its lane are changed, and nothing is sent on it that was not to be sent before. */
  predicate Adjusted(s: System, t: Tid, r: System) {
    && t in s.threads && t in r.threads
    && var was, th := s.threads[t], r.threads[t];
    && th.id == was.id && th.job == was.job && r.lanes[th.id].sends == s.lanes[th.id].sends
    && r == Update(s, t, th, r.lanes[th.id])
  }

  lemma AdjustedRegistered(s: System, t: Tid, r: System)
    requires Registered(s) && Adjusted(s, t, r)
    ensures Registered(r)
  {
    forall i | 0 <= i < |r.queue| ensures TicketFits(r, r.queue[i]) {
      assert TicketFits(s, s.queue[i]);
    }
  }

  lemma AdjustedOnTrack(s: System, t: Tid, r: System)
    requires Linked(s) && AllOnTrack(s) && Adjusted(s, t, r) && OnTrack(r, t)
    ensures AllOnTrack(r)
  {
    forall u | u in s.threads && u != t ensures LeftAlone(s, r, u) {
      AdjustedElsewhere(s, t, r, u);
    }
    AllKeepTrack(s, r);
  }

  lemma AdjustedElsewhere(s: System, t: Tid, r: System, u: Tid)
    requires Linked(s) && Adjusted(s, t, r) && u in s.threads && u != t
    ensures LeftAlone(s, r, u)
  {
    IdsDiffer(s, t, u);
  }

  lemma AdjustedKeeps(s: System, t: Tid, r: System)
    requires Inv(s) && Adjusted(s, t, r) && OnTrack(r, t)
    ensures Inv(r)
  {
    AdjustedLinked(s, t, r);
    AdjustedRegistered(s, t, r);
    AdjustedOnTrack(s, t, r);
    SettledFrame(s, r);
  }

  lemma AdjustedLinked(s: System, t: Tid, r: System)
    requires Linked(s) && Adjusted(s, t, r)
    ensures Linked(r)
  {
    AdjustedSame(s, t, r);
    LinkedFrame(s, r);
  }

  lemma AdjustedSame(s: System, t: Tid, r: System)
    requires Adjusted(s, t, r)
    ensures SameThreads(s, r) && r.pools == s.pools && r.acts == s.acts
  {}

  lemma ResetSlotKeeps(s: System, t: Tid)
    requires Inv(s) && Enabled(s, ResetSlot(t))
    ensures Inv(Do(s, ResetSlot(t)))
  {
    var th := s.threads[t];
    assert OnTrack(s, t);
    ResetTracks(th, s.lanes[th.id], OnSlot(s.queue, th.id), AnswersTo(s.answers, th.job.serial));
    AdjustedKeeps(s, t, Do(s, ResetSlot(t)));
  }

  lemma ReceiveChunkKeeps(s: System, t: Tid)
    requires Inv(s) && Enabled(s, ReceiveChunk(t))
    ensures Inv(Do(s, ReceiveChunk(t)))
  {
    var th := s.threads[t];
    assert OnTrack(s, t);
    ReceiveTracks(th, s.lanes[th.id], OnSlot(s.queue, th.id), AnswersTo(s.answers, th.job.serial),
                  ReceiveTurn(SessionOf(s, t)));
    AdjustedKeeps(s, t, Do(s, ReceiveChunk(t)));
  }

  // ----- Steps of the responder on a lane

  predicate OneLane(s: System, r: System, id: nat) {
    && id < SLOT_COUNT && r == s.(lanes := r.lanes)
    && (forall j :: 0 <= j < SLOT_COUNT && j != id ==> r.lanes[j] == s.lanes[j])
    && (forall i :: 0 <= i < |r.lanes[id].sends| ==> r.lanes[id].sends[i].serial < s.nextSerial)
  }

  lemma OneLaneKeeps(s: System, r: System, id: nat)
    requires Inv(s) && OneLane(s, r, id)
    requires forall t :: t in s.threads && s.threads[t].id == id ==> OnTrack(r, t)
    ensures Inv(r)
  {
    OneLaneLinked(s, r, id);
    OneLaneRegistered(s, r, id);
    OneLaneOnTrack(s, r, id);
    SettledFrame(s, r);
  }

  lemma OneLaneLinked(s: System, r: System, id: nat)
    requires Linked(s) && OneLane(s, r, id)
    ensures Linked(r)
  {
    LinkedFrame(s, r);
  }

  lemma OneLaneOnTrack(s: System, r: System, id: nat)
    requires AllOnTrack(s) && OneLane(s, r, id)
    requires forall t :: t in s.threads && s.threads[t].id == id ==> OnTrack(r, t)
    ensures AllOnTrack(r)
  {
    AllKeepTrack(s, r);
  }

  lemma OneLaneRegistered(s: System, r: System, id: nat)
    requires Registered(s) && OneLane(s, r, id)
    ensures Registered(r)
  {
    forall i | 0 <= i < |r.queue| ensures TicketFits(r, r.queue[i]) {
      assert TicketFits(s, s.queue[i]);
    }
  }

  lemma SendChunkKeeps(s: System, id: nat)
    requires Inv(s) && Enabled(s, SendChunk(id))
    ensures Inv(Do(s, SendChunk(id)))
  {
    var r := Do(s, SendChunk(id));
    forall t | t in s.threads && s.threads[t].id == id ensures OnTrack(r, t) {
      assert OnTrack(s, t);
      SendTracks(s.threads[t], s.lanes[id], OnSlot(s.queue, id), AnswersTo(s.answers, s.threads[t].job.serial));
    }
    assert forall i :: 0 <= i < |r.lanes[id].sends| ==> r.lanes[id].sends[i] == s.lanes[id].sends[i + 1];
    OneLaneKeeps(s, r, id);
  }

  lemma DiscardKeeps(s: System, id: nat)
    requires Inv(s) && Enabled(s, Discard(id))
    ensures Inv(Do(s, Discard(id)))
  {
    var r := Do(s, Discard(id));
    forall t | t in s.threads && s.threads[t].id == id ensures OnTrack(r, t) {
      assert OnTrack(s, t);
      DiscardTracks(s.threads[t], s.lanes[id], OnSlot(s.queue, id), AnswersTo(s.answers, s.threads[t].job.serial));
    }
    OneLaneKeeps(s, r, id);
  }

  // ----- Steps of the responder on the pipe

  lemma FramesCons(queue: seq<Ticket>)
    requires queue != []
    ensures Concat(FramesOf(queue)) == Wire.Frame(queue[0].q) + Concat(FramesOf(queue[1..]))
  {
    assert FramesOf(queue)[1..] == FramesOf(queue[1..]);
  }

  /** The front of the pipe is the first waiting request. */
  lemma HeadOfPipe(s: System)
    requires Piped(s) && Registered(s) && s.queue != []
    ensures Wire.ParseFrame(s.pipe) == Wire.Parsed(s.queue[0].q, Concat(FramesOf(s.queue[1..])))
    ensures Asked(s)
  {
    var q := s.queue[0].q;
    assert TicketFits(s, s.queue[0]);
    FramesCons(s.queue);
    Wire.FrameRoundTrip(q, Concat(FramesOf(s.queue[1..])));
  }

  /** The first request is off the pipe; its lane, and perhaps its answer, are changed. */
  predicate HeadTaken(s: System, r: System) {
    && s.queue != [] && 0 <= s.queue[0].q.rec.txId < SLOT_COUNT
    && var k, id := s.queue[0].serial, s.queue[0].q.rec.txId;
    && r == Taken(s, Concat(FramesOf(s.queue[1..])), id, r.lanes[id]).(answers := r.answers)
    && (r.answers == s.answers || (k in r.answers && r.answers == s.answers[k := r.answers[k]]))
    && (forall i :: 0 <= i < |r.lanes[id].sends| ==> r.lanes[id].sends[i].serial < s.nextSerial)
  }

  lemma HeadTakenRegistered(s: System, r: System)
    requires Registered(s) && HeadTaken(s, r)
    ensures Registered(r)
  {
    assert TicketFits(s, s.queue[0]);
    forall i | 0 <= i < |r.queue| ensures TicketFits(r, r.queue[i]) {
      assert TicketFits(s, s.queue[i + 1]);
    }
  }

  lemma HeadTakenSettled(s: System, r: System)
    requires AllSettled(s) && HeadTaken(s, r)
    ensures AllSettled(r)
  {
    forall k | k in r.results ensures ResultFits(r, k) {
      assert ResultFits(s, k);
      forall i | 0 <= i < |r.queue| ensures r.queue[i] == s.queue[i + 1] {}
    }
  }

  lemma HeadTakenOnTrack(s: System, r: System)
    requires Linked(s) && Registered(s) && AllOnTrack(s) && HeadTaken(s, r)
    requires forall t :: t in s.threads && s.threads[t].id == s.queue[0].q.rec.txId ==> OnTrack(r, t)
    ensures AllOnTrack(r)
  {
    var id := s.queue[0].q.rec.txId;
    forall t | t in s.threads && s.threads[t].id != id ensures LeftAlone(s, r, t) {
      HeadTakenElsewhere(s, r, t);
    }
    AllKeepTrack(s, r);
  }

  lemma HeadTakenElsewhere(s: System, r: System, t: Tid)
    requires Registered(s) && HeadTaken(s, r) && t in s.threads && s.threads[t].id != s.queue[0].q.rec.txId
    ensures LeftAlone(s, r, t)
  {
    assert TicketFits(s, s.queue[0]);
    assert s.threads[t].job.serial != s.queue[0].serial;
  }

  lemma HeadTakenKeeps(s: System, r: System)
    requires Inv(s) && HeadTaken(s, r)
    requires forall t :: t in s.threads && s.threads[t].id == s.queue[0].q.rec.txId ==> OnTrack(r, t)
    ensures Inv(r)
  {
    LinkedFrame(s, r);
    HeadTakenRegistered(s, r);
    HeadTakenOnTrack(s, r);
    HeadTakenSettled(s, r);
  }

  lemma RespondOnTrack(s: System, r: System, reply: seq<byte>)
    requires Registered(s) && AllOnTrack(s) && HeadTaken(s, r) && ReplyAllowed(s.queue[0].q, reply)
    requires var k := s.queue[0];
             && r.lanes[k.q.rec.txId] == Replied(s.lanes[k.q.rec.txId], k.serial, ReplyPlan(reply, k.q.rec.length))
             && r.answers == s.answers[k.serial := Answer(k.q, reply)]
    ensures forall t :: t in s.threads && s.threads[t].id == s.queue[0].q.rec.txId ==> OnTrack(r, t)
  {
    var id := s.queue[0].q.rec.txId;
    forall t | t in s.threads && s.threads[t].id == id ensures OnTrack(r, t) {
      assert OnTrack(s, t);
      var th := s.threads[t];
      RespondTracks(th, s.lanes[id], OnSlot(s.queue, id), AnswersTo(s.answers, th.job.serial), reply);
      assert OnSlot(s.queue, id)[1..] == OnSlot(s.queue[1..], id);
    }
  }

  lemma RespondKeeps(s: System, reply: seq<byte>)
    requires Inv(s) && Enabled(s, Respond(reply))
    ensures Inv(Do(s, Respond(reply)))
  {
    HeadOfPipe(s);
    var r := Do(s, Respond(reply));
    assert TicketFits(s, s.queue[0]);
    RespondOnTrack(s, r, reply);
    HeadTakenKeeps(s, r);
  }

  lemma DropKeeps(s: System)
    requires Inv(s) && Enabled(s, Drop)
    ensures Inv(Do(s, Drop))
  {
    HeadOfPipe(s);
    var r := Do(s, Drop);
    var k := s.queue[0];
    var id := k.q.rec.txId;
    assert TicketFits(s, k);
    forall t | t in s.threads && s.threads[t].id == id ensures OnTrack(r, t) {
      assert OnTrack(s, t);
      DropTracks(s.threads[t], s.lanes[id], OnSlot(s.queue, id), AnswersTo(s.answers, s.threads[t].job.serial));
      assert OnSlot(s.queue, id)[1..] == OnSlot(s.queue[1..], id);
    }
    HeadTakenKeeps(s, r);
  }

  // ----- Taking an id

  lemma OnPoolRuns(s: System, party: nat, a: Pool.Action, r: System)
    requires Ran(s) && party < 2
    requires r.pools == OnPool(s, party, a).pools && r.acts == OnPool(s, party, a).acts
    ensures Ran(r)
  {
    Pool.RunSnoc(Pool.Start(party), s.acts[party], a);
  }

  lemma EnterHolds(s: System, t: Tid, th: Thread)
    requires HoldsIds(s) && OnlyThreadsHold(s) && t.party < 2 && t !in s.threads
    requires Pool.Take(s.pools[t.party].pool).Granted? && th.id == Pool.Take(s.pools[t.party].pool).id < SLOT_COUNT
    ensures HoldsIds(Enter(s, t, th))
  {
    assert t == Tid(t.party, t.n);
    assert t.n !in s.pools[t.party].held;
    forall u | u in s.threads && u.party == t.party ensures u.n != t.n {
      assert u == Tid(u.party, u.n);
    }
  }

  lemma EnterHoldsOnly(s: System, t: Tid, th: Thread)
    requires OnlyThreadsHold(s) && t.party < 2 && th.id < SLOT_COUNT
    ensures OnlyThreadsHold(Enter(s, t, th))
  {
    assert t == Tid(t.party, t.n);
    var held := Enter(s, t, th).pools[t.party].held;
    assert forall n :: n in held ==> n == t.n || n in s.pools[t.party].held;
  }

  lemma EnterRegistered(s: System, t: Tid, th: Thread)
    requires Registered(s) && t.party < 2 && t !in s.threads && th.id < SLOT_COUNT && th.job.serial == s.nextSerial
    ensures Registered(Enter(s, t, th))
  {
    var r := Enter(s, t, th);
    forall i | 0 <= i < |r.queue| ensures TicketFits(r, r.queue[i]) {
      assert TicketFits(s, s.queue[i]);
    }
  }

  lemma {:induction false} OnSlotFits(queue: seq<Ticket>, id: nat, bound: nat)
    requires forall i :: 0 <= i < |queue| ==> queue[i].serial < bound
    ensures forall i :: 0 <= i < |OnSlot(queue, id)| ==> OnSlot(queue, id)[i].serial < bound
  {
    if queue != [] {
      OnSlotFits(queue[1..], id, bound);
    }
  }

  lemma EnterOnTrack(s: System, t: Tid, th: Thread)
    requires Registered(s) && AllOnTrack(s) && t.party < 2 && t !in s.threads && RequestFits(th)
    requires th == Thread(Holding, th.id, th.job, Begin(th.job.size), false, {}) && th.job.serial == s.nextSerial
    ensures AllOnTrack(Enter(s, t, th))
  {
    var r := Enter(s, t, th);
    forall i | 0 <= i < |s.queue| ensures s.queue[i].serial < s.nextSerial {
      assert TicketFits(s, s.queue[i]);
    }
    OnSlotFits(s.queue, th.id, s.nextSerial);
    assert OnTrack(r, t);
    AllKeepTrack(s, r);
  }

  lemma TakeIdKeeps(s: System, e: Step)
    requires Inv(s) && e.TakeId? && Enabled(s, e)
    ensures Inv(Do(s, e))
  {
    var t, r := e.t, Do(s, e);
    var th := r.threads[t];
    assert r == Enter(s, t, th);
    EnterHolds(s, t, th);
    EnterHoldsOnly(s, t, th);
    OnPoolRuns(s, t.party, Pool.Begin(t.n, Pool.Read), r);
    EnterRegistered(s, t, th);
    EnterOnTrack(s, t, th);
    SettledFrame(s, r);
  }

  // ----- Writing the request

  predicate Written(s: System, r: System, t: Tid) {
    InStage(s, t, Armed) && RequestFits(s.threads[t]) && r == Ask(s, t, RequestFor(s.threads[t]))
  }

  lemma AskLinked(s: System, r: System, t: Tid)
    requires Linked(s) && Written(s, r, t)
    ensures Linked(r)
  {
    AskSame(s, r, t);
    LinkedFrame(s, r);
  }

  lemma AskSame(s: System, r: System, t: Tid)
    requires Written(s, r, t)
    ensures SameThreads(s, r) && r.pools == s.pools && r.acts == s.acts
  {}

  lemma AskRegistered(s: System, r: System, t: Tid)
    requires Registered(s) && Written(s, r, t)
    ensures Registered(r)
  {
    forall i | 0 <= i < |r.queue| ensures TicketFits(r, r.queue[i]) {
      if i < |s.queue| {
        assert TicketFits(s, s.queue[i]);
      }
    }
  }

  lemma AskPiped(s: System, r: System, t: Tid)
    requires Piped(s) && Written(s, r, t)
    ensures Piped(r)
  {
    var q := RequestFor(s.threads[t]);
    assert FramesOf(r.queue) == FramesOf(s.queue) + [Wire.Frame(q)];
    ConcatSnoc(FramesOf(s.queue), Wire.Frame(q));
  }

  lemma AskOnTrack(s: System, r: System, t: Tid)
    requires Linked(s) && AllOnTrack(s) && Written(s, r, t)
    ensures AllOnTrack(r)
  {
    var th := s.threads[t];
    var k := Ticket(th.job.serial, RequestFor(th));
    assert OnTrack(s, t);
    OnSlotSnoc(s.queue, k, th.id);
    AskTracks(th, s.lanes[th.id], OnSlot(s.queue, th.id), AnswersTo(s.answers, th.job.serial));
    assert OnTrack(r, t);
    forall u | u in s.threads && u != t ensures LeftAlone(s, r, u) {
      AskElsewhere(s, r, t, u);
    }
    AllKeepTrack(s, r);
  }

  lemma AskElsewhere(s: System, r: System, t: Tid, u: Tid)
    requires Linked(s) && Written(s, r, t) && u in s.threads && u != t
    ensures LeftAlone(s, r, u)
  {
    var th := s.threads[t];
    IdsDiffer(s, t, u);
    OnSlotSnoc(s.queue, Ticket(th.job.serial, RequestFor(th)), s.threads[u].id);
  }

  lemma AskSettled(s: System, r: System, t: Tid)
    requires Registered(s) && AllSettled(s) && Written(s, r, t)
    ensures AllSettled(r)
  {
    forall k | k in r.results ensures ResultFits(r, k) {
      assert ResultFits(s, k);
    }
  }

  lemma WriteRequestKeeps(s: System, t: Tid)
    requires Inv(s) && Enabled(s, WriteRequest(t))
    ensures Inv(Do(s, WriteRequest(t)))
  {
    var r := Do(s, WriteRequest(t));
    AskLinked(s, r, t);
    AskRegistered(s, r, t);
    AskPiped(s, r, t);
    AskOnTrack(s, r, t);
    AskSettled(s, r, t);
  }

  // ----- Leaving

  predicate Ends(t: Tid, a: Pool.Action) {
    a == Pool.Finish(t.n) || a == Pool.WriteFails(t.n)
  }

  lemma LeaveHolds(s: System, t: Tid, a: Pool.Action)
    requires HoldsIds(s) && t in s.threads && Ends(t, a)
    ensures HoldsIds(Leave(s, t, a))
  {
    forall u | u in s.threads && u != t && u.party == t.party ensures u.n != t.n {
      assert u == Tid(u.party, u.n);
    }
  }

  lemma LeaveHoldsOnly(s: System, t: Tid, a: Pool.Action)
    requires HoldsIds(s) && OnlyThreadsHold(s) && t in s.threads && Ends(t, a)
    ensures OnlyThreadsHold(Leave(s, t, a))
  {
    var held := Leave(s, t, a).pools[t.party].held;
    assert t.n !in held && forall n :: n in held ==> n in s.pools[t.party].held;
  }

  lemma LeaveRegistered(s: System, t: Tid, a: Pool.Action)
    requires Registered(s) && t in s.threads
    ensures Registered(Leave(s, t, a))
  {
    var r := Leave(s, t, a);
    forall i | 0 <= i < |r.queue| ensures TicketFits(r, r.queue[i]) {
      assert TicketFits(s, s.queue[i]);
    }
  }

  lemma LeaveOnTrack(s: System, t: Tid, a: Pool.Action)
    requires AllOnTrack(s) && t in s.threads
    ensures AllOnTrack(Leave(s, t, a))
  {
    AllKeepTrack(s, Leave(s, t, a));
  }

  lemma LeaveKeeps(s: System, t: Tid, a: Pool.Action)
    requires Inv(s) && t in s.threads && Ends(t, a)
    ensures Inv(Leave(s, t, a))
  {
    var r := Leave(s, t, a);
    LeaveHolds(s, t, a);
    LeaveHoldsOnly(s, t, a);
    OnPoolRuns(s, t.party, a, r);
    LeaveRegistered(s, t, a);
    LeaveOnTrack(s, t, a);
    SettledFrame(s, r);
  }

  /** The result of a read, and nothing else, is noted. */
  lemma NotedKeeps(s: System, r: System, k: nat)
    requires Inv(s) && k in r.results && r == s.(results := s.results[k := r.results[k]]) && k < s.nextSerial
    requires forall u :: u in s.threads ==> s.threads[u].job.serial != k
    requires ResultFits(r, k)
    ensures Inv(r)
  {
    NotedLinked(s, r);
    NotedRegistered(s, r, k);
    NotedOnTrack(s, r);
    NotedSettled(s, r, k);
  }

  lemma NotedLinked(s: System, r: System)
    requires Linked(s) && r == s.(results := r.results)
    ensures Linked(r)
  {
    LinkedFrame(s, r);
  }

  lemma NotedOnTrack(s: System, r: System)
    requires AllOnTrack(s) && r == s.(results := r.results)
    ensures AllOnTrack(r)
  {
    AllKeepTrack(s, r);
  }

  lemma NotedRegistered(s: System, r: System, k: nat)
    requires Registered(s) && k in r.results && r == s.(results := s.results[k := r.results[k]]) && k < s.nextSerial
    requires forall u :: u in s.threads ==> s.threads[u].job.serial != k
    ensures Registered(r)
  {
    forall i | 0 <= i < |r.queue| ensures TicketFits(r, r.queue[i]) {
      assert TicketFits(s, s.queue[i]);
    }
  }

  lemma NotedSettled(s: System, r: System, k: nat)
    requires AllSettled(s) && k in r.results && r == s.(results := s.results[k := r.results[k]]) && ResultFits(r, k)
    ensures AllSettled(r)
  {
    forall j | j in r.results ensures ResultFits(r, j) {
      if j != k {
        assert ResultFits(s, j);
      }
    }
  }

  /** What is returned to the caller fits. */
  lemma ReturnFits(s: System, t: Tid)
    requires Registered(s) && Enabled(s, Return(t)) && OnTrack(s, t)
    ensures ResultFits(Do(s, Return(t)), s.threads[t].job.serial)
  {
    var th := s.threads[t];
    var w := OnSlot(s.queue, th.id);
    if th.job.size > 0 {
      FinishedIsSettled(th, s.lanes[th.id], w, AnswersTo(s.answers, th.job.serial));
      forall i | 0 <= i < |s.queue| && th.quiet ensures s.queue[i].serial != th.job.serial {
        assert TicketFits(s, s.queue[i]);
        if s.queue[i].serial == th.job.serial {
          OnSlotHas(s.queue, i, th.id);
        }
      }
    }
  }

  lemma SerialsDiffer(s: System, t: Tid)
    requires Registered(s) && t in s.threads
    ensures forall u :: u in s.threads && u != t ==> s.threads[u].job.serial != s.threads[t].job.serial
  {}

  lemma ReturnKeeps(s: System, t: Tid)
    requires Inv(s) && Enabled(s, Return(t))
    ensures Inv(Do(s, Return(t)))
  {
    assert OnTrack(s, t);
    ReturnFits(s, t);
    SerialsDiffer(s, t);
    LeaveKeeps(s, t, Pool.Finish(t.n));
    NotedKeeps(Leave(s, t, Pool.Finish(t.n)), Do(s, Return(t)), s.threads[t].job.serial);
  }

  // ----- Every step keeps the invariant

  lemma StepKeeps(s: System, e: Step)
    requires Inv(s) && Enabled(s, e)
    ensures Inv(Do(s, e))
  {
    match e
    case TakeId(_, _, _, _) => TakeIdKeeps(s, e);
    case ResetSlot(t) => ResetSlotKeeps(s, t);
    case WriteRequest(t) => WriteRequestKeeps(s, t);
    case WriteFails(t) => LeaveKeeps(s, t, Pool.WriteFails(t.n));
    case Respond(reply) => RespondKeeps(s, reply);
    case Drop => DropKeeps(s);
    case SendChunk(id) => SendChunkKeeps(s, id);
    case Discard(id) => DiscardKeeps(s, id);
    case ReceiveChunk(t) => ReceiveChunkKeeps(s, t);
    case Return(t) => ReturnKeeps(s, t);
    case TimeOut(t) => LeaveKeeps(s, t, Pool.Finish(t.n));
  }

  lemma {:induction false} RunKeeps(s: System, es: seq<Step>)
    requires Inv(s) && Plays(s, es)
    ensures Inv(Play(s, es))
    decreases |es|
  {
    if es != [] {
      StepKeeps(s, es[0]);
      RunKeeps(Do(s, es[0]), es[1..]);
    }
  }
}

/** Every read ends: without new reads the threads and the responder have only so many steps left, and by contract
    they do not stop before every thread has left its read. */
module ReadProgress {
  import opened Bytes
  import opened MemSlot
  import opened Transfer
  import opened ReadProtocol
  import opened ReadSafety
  import opened ReadGuarantees
  import Wire = ControlPipe

  // ----- Work left to do

  /** A request: taking it off the pipe, and for each send of the longest reply to it three steps at most. */
  function RequestWork(length: int): nat {
    if length < 0 then 1 else 1 + 3 * (BuffersFor(length) + 1)
  }

  function SlotWork(slot: Slot): nat {
    match slot.flag
    case Sending => 2
    case Underread => 1
    case Waiting => 0
  }

  function LaneWork(lane: Lane): nat {
    3 * |lane.sends| + SlotWork(lane.slot)
  }

  function ThreadWork(th: Thread): nat {
    match th.stage
    case Holding => 4 + RequestWork(th.job.size)
    case Armed => 3 + RequestWork(th.job.size)
    case Reading => if th.client.phase.Running? then 2 else 1
  }

  function LanesWork(lanes: seq<Lane>): nat {
    if lanes == [] then 0 else LaneWork(lanes[0]) + LanesWork(lanes[1..])
  }

  function QueueWork(queue: seq<Ticket>): nat {
    if queue == [] then 0 else RequestWork(queue[0].q.rec.length) + QueueWork(queue[1..])
  }

  ghost function ThreadsWork(threads: map<Tid, Thread>): nat
    decreases |threads|
  {
    if threads == map[] then 0
    else
      var t :| t in threads;
      ThreadWork(threads[t]) + ThreadsWork(threads - {t})
  }

  ghost function Work(s: System): nat {
    ThreadsWork(s.threads) + LanesWork(s.lanes) + QueueWork(s.queue)
  }

  // ----- One part at a time

  lemma {:induction false} LanesWorkAt(lanes: seq<Lane>, id: nat, lane: Lane)
    requires id < |lanes|
    ensures LanesWork(lanes[id := lane]) + LaneWork(lanes[id]) == LanesWork(lanes) + LaneWork(lane)
  {
    var r := lanes[id := lane];
    if id == 0 {
      assert r[1..] == lanes[1..];
    } else {
      assert r[1..] == lanes[1..][id - 1 := lane];
      LanesWorkAt(lanes[1..], id - 1, lane);
    }
  }

  lemma {:induction false} QueueWorkSnoc(queue: seq<Ticket>, k: Ticket)
    ensures QueueWork(queue + [k]) == QueueWork(queue) + RequestWork(k.q.rec.length)
  {
    if queue == [] {
      assert queue + [k] == [k];
    } else {
      assert (queue + [k])[0] == queue[0] && (queue + [k])[1..] == queue[1..] + [k];
      QueueWorkSnoc(queue[1..], k);
    }
  }

  lemma {:induction false} ThreadsWorkWithout(threads: map<Tid, Thread>, t: Tid)
    requires t in threads
    ensures ThreadsWork(threads) == ThreadWork(threads[t]) + ThreadsWork(threads - {t})
    decreases |threads|
  {
    var u :| u in threads && ThreadsWork(threads) == ThreadWork(threads[u]) + ThreadsWork(threads - {u});
    if u != t {
      ThreadsWorkWithout(threads - {u}, t);
      ThreadsWorkWithout(threads - {t}, u);
      assert threads - {u} - {t} == threads - {t} - {u};
    }
  }

  lemma ThreadsWorkAt(threads: map<Tid, Thread>, t: Tid, th: Thread)
    requires t in threads
    ensures ThreadsWork(threads[t := th]) + ThreadWork(threads[t]) == ThreadsWork(threads) + ThreadWork(th)
  {
    ThreadsWorkWithout(threads, t);
    ThreadsWorkWithout(threads[t := th], t);
    assert threads[t := th] - {t} == threads - {t};
  }

  /** A reply of at most the length asked for takes no more sends than were counted for its request. */
  lemma PlanWork(reply: seq<byte>, length: nat)
    requires |reply| <= length
    ensures |ReplyPlan(reply, length)| <= BuffersFor(length) + 1
  {
    ChunksCover(reply);
  }

  // ----- Every step but a new read uses up work

  lemma UpdateWork(s: System, t: Tid, th: Thread, lane: Lane)
    requires t in s.threads && th.id == s.threads[t].id && WellFormed(lane.slot)
    ensures Work(Update(s, t, th, lane)) + ThreadWork(s.threads[t]) + LaneWork(s.lanes[th.id])
         == Work(s) + ThreadWork(th) + LaneWork(lane)
  {
    ThreadsWorkAt(s.threads, t, th);
    LanesWorkAt(s.lanes, th.id, lane);
  }

  /** A turn of the receiver takes the whole chunk, or ends its loop. */
  lemma TurnUsesWork(x: Session)
    requires WellFormed(x.slot) && ReceiveEnabled(x)
    ensures var y := ReceiveTurn(x);
            SlotWork(y.slot) + (if y.client.phase.Running? then 2 else 1) < SlotWork(x.slot) + 2
  {
    TakeBytesKeeps(x.slot, Remaining(x.client));
  }

  lemma ReceiveUsesWork(s: System, t: Tid)
    requires Enabled(s, ReceiveChunk(t))
    ensures Work(Do(s, ReceiveChunk(t))) < Work(s)
  {
    var r, id := Do(s, ReceiveChunk(t)), s.threads[t].id;
    TurnUsesWork(SessionOf(s, t));
    UpdateWork(s, t, r.threads[t], r.lanes[id]);
  }

  lemma ResetUsesWork(s: System, t: Tid)
    requires Enabled(s, ResetSlot(t))
    ensures Work(Do(s, ResetSlot(t))) < Work(s)
  {
    var r, id := Do(s, ResetSlot(t)), s.threads[t].id;
    UpdateWork(s, t, r.threads[t], r.lanes[id]);
  }

  lemma WriteUsesWork(s: System, t: Tid)
    requires Enabled(s, WriteRequest(t))
    ensures Work(Do(s, WriteRequest(t))) < Work(s)
  {
    var th := s.threads[t];
    ThreadsWorkAt(s.threads, t, th.(stage := Reading));
    QueueWorkSnoc(s.queue, Ticket(th.job.serial, RequestFor(th)));
  }

  lemma LeaveUsesWork(s: System, t: Tid, r: System)
    requires t in s.threads && r.threads == s.threads - {t} && r.lanes == s.lanes && r.queue == s.queue
    ensures Work(r) < Work(s)
  {
    ThreadsWorkWithout(s.threads, t);
  }

  lemma LaneUsesWork(s: System, id: nat, r: System)
    requires id < SLOT_COUNT && r.lanes == s.lanes[id := r.lanes[id]] && LaneWork(r.lanes[id]) < LaneWork(s.lanes[id])
    requires r.threads == s.threads && r.queue == s.queue
    ensures Work(r) < Work(s)
  {
    LanesWorkAt(s.lanes, id, r.lanes[id]);
  }

  lemma SendUsesWork(s: System, id: nat)
    requires Enabled(s, SendChunk(id))
    ensures Work(Do(s, SendChunk(id))) < Work(s)
  {
    LaneUsesWork(s, id, Do(s, SendChunk(id)));
  }

  lemma HeadUsesWork(s: System, r: System)
    requires HeadTaken(s, r) && 0 <= s.queue[0].q.rec.length
    requires var id := s.queue[0].q.rec.txId;
             LaneWork(r.lanes[id]) < LaneWork(s.lanes[id]) + RequestWork(s.queue[0].q.rec.length)
    ensures Work(r) < Work(s)
  {
    var id := s.queue[0].q.rec.txId;
    LanesWorkAt(s.lanes, id, r.lanes[id]);
  }

  lemma RespondUsesWork(s: System, reply: seq<byte>)
    requires Piped(s) && Registered(s) && Enabled(s, Respond(reply))
    ensures Work(Do(s, Respond(reply))) < Work(s)
  {
    HeadOfPipe(s);
    assert TicketFits(s, s.queue[0]);
    PlanWork(reply, s.queue[0].q.rec.length);
    HeadUsesWork(s, Do(s, Respond(reply)));
  }

  lemma DropUsesWork(s: System)
    requires Piped(s) && Registered(s) && Enabled(s, Drop)
    ensures Work(Do(s, Drop)) < Work(s)
  {
    HeadOfPipe(s);
    assert TicketFits(s, s.queue[0]);
    HeadUsesWork(s, Do(s, Drop));
  }

  lemma StepUsesWork(s: System, e: Step)
    requires Piped(s) && Registered(s) && Enabled(s, e) && !e.TakeId?
    ensures Work(Do(s, e)) < Work(s)
  {
    match e
    case ResetSlot(t) => ResetUsesWork(s, t);
    case WriteRequest(t) => WriteUsesWork(s, t);
    case WriteFails(t) => LeaveUsesWork(s, t, Do(s, e));
    case Respond(reply) => RespondUsesWork(s, reply);
    case Drop => DropUsesWork(s);
    case SendChunk(id) => SendUsesWork(s, id);
    case Discard(id) => LaneUsesWork(s, id, Do(s, e));
    case ReceiveChunk(t) => ReceiveUsesWork(s, t);
    case Return(t) => LeaveUsesWork(s, t, Do(s, e));
    case TimeOut(t) => LeaveUsesWork(s, t, Do(s, e));
  }

  predicate NoNewRead(es: seq<Step>) {
    forall i :: 0 <= i < |es| ==> !es[i].TakeId?
  }

  /** Termination. From any reachable state a run without new reads, whatever the responder does, has at most as
      many steps as there is work. */
  lemma {:induction false} RunIsBounded(s: System, es: seq<Step>)
    requires Inv(s) && Plays(s, es) && NoNewRead(es)
    ensures |es| + Work(Play(s, es)) <= Work(s)
    decreases |es|
  {
    if es != [] {
      StepUsesWork(s, es[0]);
      StepKeeps(s, es[0]);
      RunIsBounded(Do(s, es[0]), es[1..]);
    }
  }

  /** Every read ends. Go on from any state reached by contract, by contract and without new reads: the run has
      boundedly many steps, and while a thread is inside a read it can be continued by a step for it. So
      when nothing more is possible, every thread has returned, failed or timed out. */
  lemma EveryReadEnds(es: seq<Step>, fs: seq<Step>, t: Tid)
    requires PlaysByContract(Start(), es) && PlaysByContract(Play(Start(), es), fs) && NoNewRead(fs)
    ensures |fs| <= Work(Play(Start(), es))
    ensures var r := Play(Play(Start(), es), fs);
            t in r.threads ==> CanGoOn(r, t) || MayTimeOut(r, t)
  {
    var s := ReachableByContract(es);
    RunIsBounded(s, fs);
    RunCalms(s, fs);
    var r := Play(s, fs);
    if t in r.threads {
      ReadGoesOn(r, t);
    }
  }
}

/** What `blkfs_do_read` guarantees over every run of the protocol: by itself, and when the responder keeps the
    last part of its contract. */
module ReadGuarantees {
  import opened Bytes
  import opened MemSlot
  import opened Transfer
  import opened ReadProtocol
  import opened ReadTracks
  import opened ReadSafety
  import Pool = SlotPool
  import Wire = ControlPipe

  /** A completed read has exactly the bytes given for its own record, which asked for data. */
  predicate OwnBytes(s: System, k: nat)
    requires k in s.results
  {
    var r := s.results[k];
    && k in s.answers && r.bytes == s.answers[k].reply
    && s.answers[k].q.path == r.job.path
    && s.answers[k].q.rec.offset == r.job.offset
    && s.answers[k].q.rec.length == r.job.size && s.answers[k].q.rec.command == 0
  }

  lemma Reachable(es: seq<Step>) returns (s: System)
    requires Plays(Start(), es)
    ensures s == Play(Start(), es) && Inv(s)
  {
    StartInv();
    RunKeeps(Start(), es);
    s := Play(Start(), es);
  }

  lemma ResultSettled(s: System, k: nat)
    requires AllSettled(s) && k in s.results && s.results[k].job.size > 0
    ensures var r := s.results[k];
            && (r.quiet ==> OwnBytes(s, k) && r.took == {k})
            && (r.gaveUp <= {k} ==> (r.took == {k} <==> r.quiet))
  {
    assert ResultFits(s, k);
  }

  /** Exact condition. In every run, whatever timeouts there are and whatever the responder does after them: a
      completed read of at least one byte took only sends made for it if and only if its slot was quiet when it
      reset it, unless the responder itself gave up what else was there; and whenever the slot was quiet, the
      read returned exactly its own bytes. */
  lemma QuietResetDecides(es: seq<Step>, k: nat)
    requires Plays(Start(), es) && k in Play(Start(), es).results && Play(Start(), es).results[k].job.size > 0
    ensures var s := Play(Start(), es);
            var r := s.results[k];
            && (r.quiet ==> OwnBytes(s, k) && r.took == {k})
            && (r.gaveUp <= {k} ==> (r.took == {k} <==> r.quiet))
  {
    var s := Reachable(es);
    ResultSettled(s, k);
  }

  // ----- The responder keeps its contract

  ghost predicate HasReader(s: System, id: nat) {
    exists t :: InStage(s, t, Reading) && s.threads[t].id == id
  }

  predicate KnownQuiet(th: Thread) {
    th.stage.Holding? || th.quiet
  }

  /** A quiet slot with no unread byte in it. */
  predicate Idle(s: System, id: nat)
    requires id < SLOT_COUNT
  {
    Quiet(s, id) && Pending(s.lanes[id].slot) == []
  }

  /** Every slot was quiet when it was reset, and is idle unless a thread is reading on it. */
  ghost predicate Calm(s: System) {
    && (forall t :: t in s.threads ==> KnownQuiet(s.threads[t]))
    && (forall id {:trigger HasReader(s, id)} :: 0 <= id < SLOT_COUNT ==> Idle(s, id) || HasReader(s, id))
    && (forall k :: k in s.results ==> s.results[k].quiet)
  }

  /** Readers go on reading, and no slot without a reader gets anything to do. */
  lemma CalmFrame(s: System, r: System)
    requires Calm(s) && r.results == s.results
    requires forall t :: t in r.threads ==> KnownQuiet(r.threads[t])
    requires forall t :: InStage(s, t, Reading) ==> InStage(r, t, Reading) && r.threads[t].id == s.threads[t].id
    requires forall id :: 0 <= id < SLOT_COUNT && Idle(s, id) ==> Idle(r, id) || HasReader(r, id)
    ensures Calm(r)
  {
    forall id | 0 <= id < SLOT_COUNT ensures Idle(r, id) || HasReader(r, id) {
      if HasReader(s, id) {
        var t :| InStage(s, t, Reading) && s.threads[t].id == id;
        assert InStage(r, t, Reading);
      }
    }
  }

  /** A read on a quiet slot that completes has its whole reply, and the responder is then done with the slot:
      for a read of at least one byte the last part of the contract follows from the rest. */
  lemma CompletionIsQuiet(s: System, t: Tid)
    requires InStage(s, t, Reading) && OnTrack(s, t) && s.threads[t].quiet && s.threads[t].job.size > 0
    requires s.threads[t].client.phase.Finished?
    ensures s.threads[t].job.serial in s.answers
    ensures s.threads[t].client.got == s.answers[s.threads[t].job.serial].reply
    ensures Idle(s, s.threads[t].id)
  {
    var th := s.threads[t];
    FinishedIsSettled(th, s.lanes[th.id], OnSlot(s.queue, th.id), AnswersTo(s.answers, th.job.serial));
  }

  lemma LeaveIdle(s: System, t: Tid, r: System, id: nat)
    requires t in s.threads && id < SLOT_COUNT && Idle(s, s.threads[t].id) && (Idle(s, id) || HasReader(s, id))
    requires r.threads == s.threads - {t} && r.lanes == s.lanes && r.queue == s.queue
    ensures Idle(r, id) || HasReader(r, id)
  {
    if !Idle(s, id) {
      var u :| InStage(s, u, Reading) && s.threads[u].id == id;
      assert InStage(r, u, Reading);
    }
  }

  lemma LeaveCalm(s: System, t: Tid, r: System)
    requires Calm(s) && t in s.threads && Idle(s, s.threads[t].id)
    requires r.threads == s.threads - {t} && r.lanes == s.lanes && r.queue == s.queue
    requires forall k :: k in r.results ==> r.results[k].quiet
    ensures Calm(r)
  {
    forall id | 0 <= id < SLOT_COUNT ensures Idle(r, id) || HasReader(r, id) {
      assert Idle(s, id) || HasReader(s, id);
      LeaveIdle(s, t, r, id);
    }
  }

  /** A thread that has not asked yet sits on an idle slot. */
  lemma BeforeAskingIdle(s: System, t: Tid)
    requires Calm(s) && Linked(s) && t in s.threads && !s.threads[t].stage.Reading?
    ensures Idle(s, s.threads[t].id)
  {
    var id := s.threads[t].id;
    if HasReader(s, id) {
      var u :| InStage(s, u, Reading) && s.threads[u].id == id;
      IdsDiffer(s, t, u);
    } else {
      assert Idle(s, id);
    }
  }

  /** A thread resets an idle slot. */
  lemma ResetIdle(s: System, t: Tid)
    requires Enabled(s, ResetSlot(t)) && Idle(s, s.threads[t].id)
    ensures var r := Do(s, ResetSlot(t));
            && r.threads == s.threads[t := s.threads[t].(stage := Armed, quiet := true)] && r.results == s.results
            && forall id :: 0 <= id < SLOT_COUNT && Idle(s, id) ==> Idle(r, id)
  {}

  lemma ArmedCalm(s: System, t: Tid, r: System)
    requires Calm(s) && InStage(s, t, Holding) && r.results == s.results
    requires r.threads == s.threads[t := s.threads[t].(stage := Armed, quiet := true)]
    requires forall id :: 0 <= id < SLOT_COUNT && Idle(s, id) ==> Idle(r, id)
    ensures Calm(r)
  {
    CalmFrame(s, r);
  }

  lemma ResetCalm(s: System, t: Tid)
    requires Calm(s) && Linked(s) && Enabled(s, ResetSlot(t))
    ensures Calm(Do(s, ResetSlot(t)))
  {
    BeforeAskingIdle(s, t);
    ResetIdle(s, t);
    ArmedCalm(s, t, Do(s, ResetSlot(t)));
  }

  lemma AskCalm(s: System, t: Tid)
    requires Calm(s) && Enabled(s, WriteRequest(t))
    ensures Calm(Do(s, WriteRequest(t)))
  {
    var r, th := Do(s, WriteRequest(t)), s.threads[t];
    forall id | 0 <= id < SLOT_COUNT && Idle(s, id) ensures Idle(r, id) || HasReader(r, id) {
      OnSlotSnoc(s.queue, Ticket(th.job.serial, RequestFor(th)), id);
      if id == th.id {
        assert InStage(r, t, Reading);
      }
    }
    CalmFrame(s, r);
  }

  lemma HeadIdle(s: System, e: Step)
    requires Piped(s) && Registered(s) && (e.Respond? || e.Drop?) && Enabled(s, e)
    ensures Do(s, e).threads == s.threads && Do(s, e).results == s.results
    ensures forall id :: 0 <= id < SLOT_COUNT && Idle(s, id) ==> Idle(Do(s, e), id)
  {
    HeadOfPipe(s);
    var r := Do(s, e);
    assert r.queue == s.queue[1..];
    forall id | 0 <= id < SLOT_COUNT && Idle(s, id) ensures Idle(r, id) {
      assert s.queue[0].q.rec.txId != id && OnSlot(s.queue[1..], id) == [];
    }
  }

  lemma HeadCalm(s: System, e: Step)
    requires Calm(s) && Piped(s) && Registered(s) && (e.Respond? || e.Drop?) && Enabled(s, e)
    ensures Calm(Do(s, e))
  {
    HeadIdle(s, e);
    CalmFrame(s, Do(s, e));
  }

  lemma WriteFailsCalm(s: System, t: Tid)
    requires Calm(s) && Linked(s) && Enabled(s, WriteFails(t))
    ensures Calm(Do(s, WriteFails(t)))
  {
    BeforeAskingIdle(s, t);
    LeaveCalm(s, t, Do(s, WriteFails(t)));
  }

  lemma TakeIdCalm(s: System, e: Step)
    requires Calm(s) && e.TakeId? && Enabled(s, e)
    ensures Calm(Do(s, e))
  {
    CalmFrame(s, Do(s, e));
  }

  lemma SendCalm(s: System, id: nat)
    requires Calm(s) && Enabled(s, SendChunk(id))
    ensures Calm(Do(s, SendChunk(id)))
  {
    CalmFrame(s, Do(s, SendChunk(id)));
  }

  lemma DiscardCalm(s: System, id: nat)
    requires Calm(s) && Enabled(s, Discard(id))
    ensures Calm(Do(s, Discard(id)))
  {
    CalmFrame(s, Do(s, Discard(id)));
  }

  lemma ReceiveCalm(s: System, t: Tid)
    requires Calm(s) && Enabled(s, ReceiveChunk(t))
    ensures Calm(Do(s, ReceiveChunk(t)))
  {
    var r := Do(s, ReceiveChunk(t));
    assert InStage(r, t, Reading);
    CalmFrame(s, r);
  }

  /** Who leaves a slot on which the responder has nothing more to do leaves no byte in it. */
  lemma LeavesIdle(s: System, t: Tid)
    requires Calm(s) && InStage(s, t, Reading) && OnTrack(s, t) && Quiet(s, s.threads[t].id)
    requires CanSend(s.lanes[s.threads[t].id].slot) || s.threads[t].job.size == 0
    ensures Idle(s, s.threads[t].id)
  {
    var th := s.threads[t];
    NothingPending(th, s.lanes[th.id], OnSlot(s.queue, th.id), AnswersTo(s.answers, th.job.serial));
  }

  lemma ReturnCalm(s: System, t: Tid)
    requires Calm(s) && Enabled(s, Return(t)) && Obeys(s, Return(t)) && OnTrack(s, t)
    ensures Calm(Do(s, Return(t)))
  {
    if s.threads[t].job.size > 0 {
      CompletionIsQuiet(s, t);
    } else {
      LeavesIdle(s, t);
    }
    LeaveCalm(s, t, Do(s, Return(t)));
  }

  lemma TimeOutCalm(s: System, t: Tid)
    requires Calm(s) && Enabled(s, TimeOut(t)) && Obeys(s, TimeOut(t)) && OnTrack(s, t)
    ensures Calm(Do(s, TimeOut(t)))
  {
    LeavesIdle(s, t);
    LeaveCalm(s, t, Do(s, TimeOut(t)));
  }

  lemma StepCalms(s: System, e: Step)
    requires Inv(s) && Calm(s) && Enabled(s, e) && Obeys(s, e)
    ensures Calm(Do(s, e))
  {
    match e
    case TakeId(_, _, _, _) => TakeIdCalm(s, e);
    case ResetSlot(t) => ResetCalm(s, t);
    case WriteRequest(t) => AskCalm(s, t);
    case WriteFails(t) => WriteFailsCalm(s, t);
    case Respond(_) => HeadCalm(s, e);
    case Drop => HeadCalm(s, e);
    case SendChunk(id) => SendCalm(s, id);
    case Discard(id) => DiscardCalm(s, id);
    case ReceiveChunk(t) => ReceiveCalm(s, t);
    case Return(t) =>
      assert OnTrack(s, t);
      ReturnCalm(s, t);
    case TimeOut(t) =>
      assert OnTrack(s, t);
      TimeOutCalm(s, t);
  }

  lemma {:induction false} RunCalms(s: System, es: seq<Step>)
    requires Inv(s) && Calm(s) && PlaysByContract(s, es)
    ensures Inv(Play(s, es)) && Calm(Play(s, es))
    decreases |es|
  {
    if es != [] {
      StepKeeps(s, es[0]);
      StepCalms(s, es[0]);
      RunCalms(Do(s, es[0]), es[1..]);
    }
  }

  lemma ReachableByContract(es: seq<Step>) returns (s: System)
    requires PlaysByContract(Start(), es)
    ensures s == Play(Start(), es) && Inv(s) && Calm(s)
  {
    StartInv();
    RunCalms(Start(), es);
    s := Play(Start(), es);
  }

  /** End-to-end theorem. In every interleaving of any number of threads of both processes with a responder that
      keeps its contract, timeouts and given-up requests included: every completed read of at least one byte
      returned exactly the bytes given for its own record and took sends of no other. */
  lemma ReadsReturnTheirOwnBytes(es: seq<Step>, k: nat)
    requires PlaysByContract(Start(), es)
    requires k in Play(Start(), es).results && Play(Start(), es).results[k].job.size > 0
    ensures var s := Play(Start(), es);
            OwnBytes(s, k) && s.results[k].took == {k}
  {
    var s := ReachableByContract(es);
    ResultSettled(s, k);
  }

  /** In every run at all, two threads inside a read hold different slots, whichever processes they are of. */
  lemma NoSlotIsShared(es: seq<Step>, t: Tid, u: Tid)
    requires Plays(Start(), es) && t in Play(Start(), es).threads && u in Play(Start(), es).threads && t != u
    ensures Play(Start(), es).threads[t].id != Play(Start(), es).threads[u].id
  {
    var s := Reachable(es);
    IdsDiffer(s, t, u);
  }

  lemma StepKeepsLost(s: System, e: Step, p: nat)
    requires Enabled(s, e) && p < 2
    ensures s.pools[p].lost <= Do(s, e).pools[p].lost
  {}

  lemma {:induction false} RunKeepsLost(s: System, es: seq<Step>, p: nat)
    requires Plays(s, es) && p < 2
    ensures s.pools[p].lost <= Play(s, es).pools[p].lost
    decreases |es|
  {
    if es != [] {
      StepKeepsLost(s, es[0], p);
      RunKeepsLost(Do(s, es[0]), es[1..], p);
    }
  }

  lemma LostIsNotHeld(s: System, p: nat, id: nat, u: Tid)
    requires Linked(s) && p < 2 && id in s.pools[p].lost && u in s.threads
    ensures s.threads[u].id != id
  {
    Pool.LostIsNotHeld(p, s.acts[p], id, u.party, s.acts[u.party], u.n);
  }

  /** A read whose control write fails takes its slot with it: in every run, no thread ever reads on it again. */
  lemma FailedWriteLosesSlot(es: seq<Step>, t: Tid, fs: seq<Step>, u: Tid)
    requires Plays(Start(), es) && Enabled(Play(Start(), es), WriteFails(t))
    requires Plays(Do(Play(Start(), es), WriteFails(t)), fs)
    ensures var s := Play(Start(), es);
            var r := Play(Do(s, WriteFails(t)), fs);
            u in r.threads ==> r.threads[u].id != s.threads[t].id
  {
    var s := Reachable(es);
    var m := Do(s, WriteFails(t));
    StepKeeps(s, WriteFails(t));
    RunKeeps(m, fs);
    FailureIsLost(s, t);
    RunKeepsLost(m, fs, t.party);
    if u in Play(m, fs).threads {
      LostIsNotHeld(Play(m, fs), t.party, s.threads[t].id, u);
    }
  }

  lemma FailureIsLost(s: System, t: Tid)
    requires HoldsIds(s) && Enabled(s, WriteFails(t))
    ensures s.threads[t].id in Do(s, WriteFails(t)).pools[t.party].lost
  {
    assert s.pools[t.party].held[t.n] == Pool.Hold(Pool.Read, s.threads[t].id);
  }

  /** The reset never wipes a byte of a reply: when a thread resets its slot there is no unread byte in it, nothing
      is left to be sent on it, and nothing has been asked on it that is not answered. */
  lemma ResetWipesNoReply(es: seq<Step>, t: Tid)
    requires PlaysByContract(Start(), es) && Enabled(Play(Start(), es), ResetSlot(t))
    ensures var s := Play(Start(), es);
            var id := s.threads[t].id;
            Pending(s.lanes[id].slot) == [] && s.lanes[id].sends == [] && OnSlot(s.queue, id) == []
  {
    var s := ReachableByContract(es);
    BeforeAskingIdle(s, t);
  }

  // ----- Progress

  /** A step that brings thread `t`'s read on: its own, a send on its slot, or an answer to the front of the pipe
      while its request is in there. */
  predicate Serves(s: System, t: Tid, e: Step)
    requires t in s.threads
  {
    match e
    case ResetSlot(u) => u == t
    case WriteRequest(u) => u == t
    case ReceiveChunk(u) => u == t
    case Return(u) => u == t
    case SendChunk(id) => id == s.threads[t].id
    case Respond(_) => OnSlot(s.queue, s.threads[t].id) != []
    case _ => false
  }

  ghost predicate CanGoOn(s: System, t: Tid)
    requires t in s.threads
  {
    exists e :: Enabled(s, e) && Obeys(s, e) && Serves(s, t, e)
  }

  /** The responder has given up the request of thread `t`, or what was left of its reply, and there is nothing
      left to receive: then the thread may time out. */
  predicate MayTimeOut(s: System, t: Tid) {
    && t in s.threads && s.lanes[s.threads[t].id].gaveUp == {s.threads[t].job.serial}
    && Enabled(s, TimeOut(t)) && Obeys(s, TimeOut(t))
  }

  lemma GoesOnBy(s: System, t: Tid, e: Step)
    requires t in s.threads && Enabled(s, e) && Obeys(s, e) && Serves(s, t, e)
    ensures CanGoOn(s, t)
  {}

  lemma RequestGoesOn(s: System, t: Tid)
    requires Piped(s) && Registered(s) && t in s.threads && OnSlot(s.queue, s.threads[t].id) != []
    ensures CanGoOn(s, t)
  {
    HeadOfPipe(s);
    assert TicketFits(s, s.queue[0]);
    GoesOnBy(s, t, Respond([]));
  }

  /** A read with nothing to take, and nothing asked or sent, has been given up. */
  lemma AbandonedMayTimeOut(s: System, t: Tid)
    requires InStage(s, t, Reading) && s.threads[t].quiet && OnTrack(s, t) && s.threads[t].client.phase.Running?
    requires Quiet(s, s.threads[t].id) && !CanReceive(s.lanes[s.threads[t].id].slot)
    ensures MayTimeOut(s, t)
  {
    var th := s.threads[t];
    var lane := s.lanes[th.id];
    if th.job.serial in s.answers {
      var reply, k := s.answers[th.job.serial].reply, |th.client.got|;
      assert DataOf(lane.sends) + lane.lost == Plan(reply[k..], NeedsMark(|reply|, th.job.size));
    }
  }

  lemma RunningGoesOn(s: System, t: Tid)
    requires Piped(s) && Registered(s) && InStage(s, t, Reading) && s.threads[t].quiet && OnTrack(s, t)
    requires s.threads[t].client.phase.Running?
    ensures CanGoOn(s, t) || MayTimeOut(s, t)
  {
    var th := s.threads[t];
    var lane := s.lanes[th.id];
    if OnSlot(s.queue, th.id) != [] {
      RequestGoesOn(s, t);
    } else if CanReceive(lane.slot) {
      assert th.job.serial in s.answers;
      GoesOnBy(s, t, ReceiveChunk(t));
    } else if lane.sends != [] {
      GoesOnBy(s, t, SendChunk(th.id));
    } else {
      AbandonedMayTimeOut(s, t);
    }
  }

  lemma FinishedGoesOn(s: System, t: Tid)
    requires Piped(s) && Registered(s) && InStage(s, t, Reading) && s.threads[t].quiet && OnTrack(s, t)
    requires s.threads[t].client.phase.Finished?
    ensures CanGoOn(s, t)
  {
    var th := s.threads[t];
    if th.job.size > 0 {
      CompletionIsQuiet(s, t);
    }
    if OnSlot(s.queue, th.id) != [] {
      RequestGoesOn(s, t);
    } else if s.lanes[th.id].sends != [] {
      GoesOnBy(s, t, SendChunk(th.id));
    } else {
      GoesOnBy(s, t, Return(t));
    }
  }

  lemma ReadGoesOn(s: System, t: Tid)
    requires Inv(s) && Calm(s) && t in s.threads
    ensures CanGoOn(s, t) || MayTimeOut(s, t)
  {
    assert OnTrack(s, t);
    TrackedGoesOn(s, t);
  }

  lemma NeverFailed(s: System, t: Tid)
    requires InStage(s, t, Reading) && s.threads[t].quiet && OnTrack(s, t)
    ensures !s.threads[t].client.phase.Failed?
  {}

  lemma TrackedGoesOn(s: System, t: Tid)
    requires Piped(s) && Registered(s) && t in s.threads && KnownQuiet(s.threads[t]) && OnTrack(s, t)
    ensures CanGoOn(s, t) || MayTimeOut(s, t)
  {
    match s.threads[t].stage
    case Holding => GoesOnBy(s, t, ResetSlot(t));
    case Armed => GoesOnBy(s, t, WriteRequest(t));
    case Reading =>
      if s.threads[t].client.phase.Running? {
        RunningGoesOn(s, t);
      } else {
        NeverFailed(s, t);
        FinishedGoesOn(s, t);
      }
  }

  /** Progress theorem. While a thread is inside a read, some step is possible that brings this very read on, unless
      the responder has given it up: then it may time out. So client and responder are never blocked on each
      other. */
  lemma NeverBlocked(es: seq<Step>, t: Tid)
    requires PlaysByContract(Start(), es) && t in Play(Start(), es).threads
    ensures CanGoOn(Play(Start(), es), t) || MayTimeOut(Play(Start(), es), t)
  {
    var s := ReachableByContract(es);
    ReadGoesOn(s, t);
  }
}

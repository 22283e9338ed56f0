/** How far one read has got, told from its thread, its lane, the requests for its slot and its answer, and
    how every step that touches them moves it on. */
module ReadTracks {
  import opened Bytes
  import opened MemSlot
  import opened Transfer
  import opened ReadProtocol
  import Wire = ControlPipe

  /** Before it asks, nothing is marked with the read's serial number. */
  predicate Unasked(serial: nat, lane: Lane, w: seq<Ticket>, a: seq<Answer>) {
    && a == []
    && (forall i :: 0 <= i < |w| ==> w[i].serial != serial)
    && (forall i :: 0 <= i < |lane.sends| ==> lane.sends[i].serial != serial)
  }

  /** With what was given up put back, the session carries the reply. */
  ghost predicate Arriving(th: Thread, lane: Lane, reply: seq<byte>)
    requires WellFormed(lane.slot)
  {
    if th.job.size == 0 then
      && Pending(lane.slot) == []
      && (lane.sends == [] || (|lane.sends| == 1 && lane.sends[0].data == [] && CanSend(lane.slot)))
    else
      && |reply| <= th.job.size
      && Carries(Session(lane.slot, DataOf(lane.sends) + lane.lost, th.client), reply, NeedsMark(|reply|, th.job.size),
                 th.job.size)
  }

  /** Nothing has been sent yet. */
  predicate Untouched(th: Thread, lane: Lane)
    requires WellFormed(lane.slot)
  {
    CanSend(lane.slot) && lane.sends == [] && lane.lost == [] && th.took == {}
  }

  /** A read that reset a quiet slot has the lane to itself. */
  ghost predicate OwnLane(th: Thread, lane: Lane, w: seq<Ticket>, a: seq<Answer>)
    requires WellFormed(lane.slot) && RequestFits(th)
  {
    var k := th.job.serial;
    && (forall i :: 0 <= i < |lane.sends| ==> lane.sends[i].serial == k)
    && lane.gaveUp <= {k} && th.took <= {k}
    && (!CanSend(lane.slot) ==> lane.loaded == k)
    && (lane.lost != [] ==> lane.sends == [])
    && (a != [] ==> lane.gaveUp == if lane.lost == [] then {} else {k})
    && (a == [] ==> Untouched(th, lane) && Position(th, lane, w))
    && (a != [] ==> th.stage.Reading? && w == [] && a[0].q == RequestFor(th) && Arriving(th, lane, a[0].reply))
  }

  /** Where its request is, when there is no answer: not yet written, in the pipe, or dropped. */
  predicate Position(th: Thread, lane: Lane, w: seq<Ticket>)
    requires RequestFits(th)
  {
    var k := th.job.serial;
    || (th.stage.Armed? && w == [] && lane.gaveUp == {})
    || (th.stage.Reading? && w == [Ticket(k, RequestFor(th))] && lane.gaveUp == {})
    || (th.stage.Reading? && w == [] && lane.gaveUp == {k})
  }

  /** What comes first on the lane was made for, or asked by, another read. */
  predicate ForeignFirst(serial: nat, lane: Lane, w: seq<Ticket>) {
    if !CanSend(lane.slot) then lane.loaded != serial
    else if lane.sends != [] then lane.sends[0].serial != serial
    else w != [] && w[0].serial != serial
  }

  /** A read that reset a slot which was not quiet takes another's sends first, unless they are given up. */
  predicate SharedLane(th: Thread, lane: Lane, w: seq<Ticket>) {
    var k := th.job.serial;
    lane.gaveUp <= {k} && th.took <= {k} ==> th.took == {} && ForeignFirst(k, lane, w)
  }

  ghost predicate Track(th: Thread, lane: Lane, w: seq<Ticket>, a: seq<Answer>)
    requires WellFormed(lane.slot)
  {
    && RequestFits(th) && |a| <= 1
    && (th.took == {} ==> th.client == Begin(th.job.size))
    && (th.job.size == 0 ==> th.client == Begin(0))
    && (!th.stage.Reading? ==> th.took == {} && Unasked(th.job.serial, lane, w, a))
    && (!th.stage.Holding? && th.quiet ==> OwnLane(th, lane, w, a))
    && (!th.stage.Holding? && !th.quiet ==> SharedLane(th, lane, w))
  }

  // ----- The read's own steps

  lemma ResetTracks(th: Thread, lane: Lane, w: seq<Ticket>, a: seq<Answer>)
    requires WellFormed(lane.slot) && Track(th, lane, w, a) && th.stage.Holding?
    ensures Track(th.(stage := Armed, quiet := lane.sends == [] && w == []), ResetLane(lane), w, a)
  {}

  lemma AskTracks(th: Thread, lane: Lane, w: seq<Ticket>, a: seq<Answer>)
    requires WellFormed(lane.slot) && Track(th, lane, w, a) && th.stage.Armed?
    ensures Track(th.(stage := Reading), lane, w + [Ticket(th.job.serial, RequestFor(th))], a)
  {
    assert RequestFor(th.(stage := Reading)) == RequestFor(th);
  }

  function TurnOf(th: Thread, lane: Lane): Session {
    Session(lane.slot, DataOf(lane.sends), th.client)
  }

  lemma ReceiveTracks(th: Thread, lane: Lane, w: seq<Ticket>, a: seq<Answer>, r: Session)
    requires WellFormed(lane.slot) && Track(th, lane, w, a) && th.stage.Reading?
    requires ReceiveEnabled(TurnOf(th, lane)) && r == ReceiveTurn(TurnOf(th, lane))
    ensures WellFormed(r.slot)
    ensures Track(th.(client := r.client, took := th.took + {lane.loaded}), lane.(slot := r.slot), w, a)
  {
    TakeBytesKeeps(lane.slot, Remaining(th.client));
    var th' := th.(client := r.client, took := th.took + {lane.loaded});
    assert lane.loaded in th'.took;
    assert th.job.size > 0;
    if th.quiet {
      ReceiveOnOwnLane(th, lane, w, a, r);
    }
  }

  lemma ReceiveOnOwnLane(th: Thread, lane: Lane, w: seq<Ticket>, a: seq<Answer>, r: Session)
    requires WellFormed(lane.slot) && RequestFits(th) && OwnLane(th, lane, w, a) && th.stage.Reading? && th.job.size > 0
    requires ReceiveEnabled(TurnOf(th, lane)) && r == ReceiveTurn(TurnOf(th, lane)) && WellFormed(r.slot)
    ensures OwnLane(th.(client := r.client, took := th.took + {lane.loaded}), lane.(slot := r.slot), w, a)
  {
    assert a != [];
    var reply, size := a[0].reply, th.job.size;
    var whole := Session(lane.slot, DataOf(lane.sends) + lane.lost, th.client);
    CarriesReceiveTurn(whole, reply, NeedsMark(|reply|, size), size);
    assert ReceiveTurn(whole) == Session(r.slot, whole.out, r.client);
    assert RequestFor(th.(client := r.client, took := th.took + {lane.loaded})) == RequestFor(th);
  }

  // ----- The responder's steps

  lemma SendTracks(th: Thread, lane: Lane, w: seq<Ticket>, a: seq<Answer>)
    requires WellFormed(lane.slot) && Track(th, lane, w, a) && lane.sends != [] && CanSend(lane.slot)
    ensures WellFormed(Sent(lane).slot) && Track(th, Sent(lane), w, a)
  {
    StoreChunkKeeps(lane.slot, lane.sends[0].data);
    if !th.stage.Holding? && th.quiet && th.job.size > 0 {
      var reply, size := a[0].reply, th.job.size;
      assert lane.lost == [];
      assert DataOf(lane.sends) + [] == DataOf(lane.sends);
      var whole := Session(lane.slot, DataOf(lane.sends) + lane.lost, th.client);
      CarriesSendTurn(whole, reply, NeedsMark(|reply|, size), size);
      assert DataOf(lane.sends)[1..] == DataOf(lane.sends[1..]) == DataOf(Sent(lane).sends) + [];
      assert SendTurn(whole) == Session(Sent(lane).slot, DataOf(Sent(lane).sends) + lane.lost, th.client);
    }
  }

  lemma SendersOf(ps: seq<Parcel>, i: nat)
    requires i < |ps|
    ensures ps[i].serial in Senders(ps)
  {}

  lemma DiscardTracks(th: Thread, lane: Lane, w: seq<Ticket>, a: seq<Answer>)
    requires WellFormed(lane.slot) && Track(th, lane, w, a) && lane.sends != []
    ensures Track(th, Discarded(lane), w, a)
  {
    SendersOf(lane.sends, 0);
    if !th.stage.Holding? && th.quiet {
      assert Senders(lane.sends) == {th.job.serial};
      assert DataOf([]) + ([] + DataOf(lane.sends)) == DataOf(lane.sends) + [];
      assert lane.lost == [];
      assert DataOf(lane.sends) != [];
    }
  }

  /** The front request of the slot is answered. */
  lemma RespondTracks(th: Thread, lane: Lane, w: seq<Ticket>, a: seq<Answer>, reply: seq<byte>)
    requires WellFormed(lane.slot) && Track(th, lane, w, a) && w != [] && ReplyAllowed(w[0].q, reply)
    ensures var b := if th.job.serial == w[0].serial then [Answer(w[0].q, reply)] else a;
            Track(th, Replied(lane, w[0].serial, ReplyPlan(reply, w[0].q.rec.length)), w[1..], b)
  {
    if !th.stage.Holding? && th.quiet {
      assert w == [Ticket(th.job.serial, RequestFor(th))];
      AnswerArrives(th, lane, reply);
    }
  }

  lemma AnswerArrives(th: Thread, lane: Lane, reply: seq<byte>)
    requires WellFormed(lane.slot) && RequestFits(th) && Untouched(th, lane)
    requires th.client == Begin(th.job.size) && |reply| <= th.job.size
    ensures var r := Replied(lane, th.job.serial, ReplyPlan(reply, th.job.size));
            Arriving(th, r, reply) && forall i :: 0 <= i < |r.sends| ==> r.sends[i].serial == th.job.serial
  {
    var plan := ReplyPlan(reply, th.job.size);
    var r := Replied(lane, th.job.serial, plan);
    assert r.sends == Parcels(th.job.serial, plan);
    assert DataOf(r.sends) + r.lost == plan;
    if th.job.size > 0 {
      CarriesAtStart(lane.slot, reply, NeedsMark(|reply|, th.job.size), th.job.size);
    }
  }

  /** The front request of the slot is dropped. */
  lemma DropTracks(th: Thread, lane: Lane, w: seq<Ticket>, a: seq<Answer>)
    requires WellFormed(lane.slot) && Track(th, lane, w, a) && w != []
    ensures Track(th, Dropped(lane, w[0].serial), w[1..], a)
  {
    assert w[0].serial in Dropped(lane, w[0].serial).gaveUp;
    if !th.stage.Holding? && th.quiet {
      assert w == [Ticket(th.job.serial, RequestFor(th))];
    }
  }

  // ----- What a finished read has got

  /** A completed read of at least one byte. On a slot that was quiet when it was reset it has its own reply, whole,
      and took only sends made for it; otherwise it took another's, unless the responder gave those up. */
  ghost predicate Settled(r: Result, a: seq<Answer>) {
    var k := r.job.serial;
    && (r.quiet ==>
          && |a| == 1 && r.bytes == a[0].reply && r.took == {k} && r.gaveUp == {}
          && a[0].q.path == r.job.path && a[0].q.rec.offset == r.job.offset && a[0].q.rec.length == r.job.size
          && a[0].q.rec.command == 0)
    && (!r.quiet && r.gaveUp <= {k} ==> !(r.took <= {k}))
  }

  lemma FinishedIsSettled(th: Thread, lane: Lane, w: seq<Ticket>, a: seq<Answer>)
    requires WellFormed(lane.slot) && Track(th, lane, w, a)
    requires th.stage.Reading? && th.client.phase.Finished? && th.job.size > 0
    ensures th.took != {}
    ensures Settled(Result(th.job, th.client.got, th.quiet, th.took, lane.gaveUp), a)
    ensures th.quiet ==> w == [] && lane.sends == [] && Pending(lane.slot) == []
  {
    if th.quiet {
      assert a != [];
      var reply, size := a[0].reply, th.job.size;
      assert DataOf(lane.sends) + lane.lost == [];
      assert |DataOf(lane.sends)| == 0;
      assert lane.sends == [] && lane.lost == [];
      assert reply[..|reply|] == reply;
      assert |reply + (Pending(lane.slot) + Concat([]))| == |reply|;
    }
  }

  /** A read that cannot receive, or that asked for no bytes, leaves none in its slot. */
  lemma NothingPending(th: Thread, lane: Lane, w: seq<Ticket>, a: seq<Answer>)
    requires WellFormed(lane.slot) && Track(th, lane, w, a) && !th.stage.Holding? && th.quiet
    requires CanSend(lane.slot) || th.job.size == 0
    ensures Pending(lane.slot) == []
  {}
}

/** `blkfs_do_read` end to end: any number of threads of two filesystem processes share the slots and the
    control pipe with one responder, and every lock-protected region is one step. */
module ReadProtocol {
  import opened Bytes
  import opened MemSlot
  import opened Transfer
  import Pool = SlotPool
  import Wire = ControlPipe

  // ----- State

  /** One read: a serial number that only this proof sees, and what the caller asked for. */
  datatype Job = Job(serial: nat, path: seq<byte>, size: nat, offset: int64)

  /** A thread is known by its process's party and a number. */
  datatype Tid = Tid(party: nat, n: nat)

  /** It holds an id; then it has also reset the slot; then it has written its request and receives. */
  datatype Stage = Holding | Armed | Reading

  /** History: `quiet` says whether the slot was quiet when the thread reset it, and `took` is the set of reads
      that the sends it has taken from the slot were made for. */
  datatype Thread = Thread(stage: Stage, id: nat, job: Job, client: Client, quiet: bool, took: set<nat>)

  /** A request in the pipe, or a send to be made, and the read it is for. */
  datatype Ticket = Ticket(serial: nat, q: Wire.Request)

  datatype Parcel = Parcel(serial: nat, data: seq<byte>)

  datatype Answer = Answer(q: Wire.Request, reply: seq<byte>)

  datatype Result = Result(job: Job, bytes: seq<byte>, quiet: bool, took: set<nat>, gaveUp: set<nat>)

  datatype Owner = Owner(t: Tid, id: nat)

  /** A slot and the sends that the responder still has to make on it. History: the read that the last send
      was for and, since the slot was last reset, the sends that the responder has given up and the reads whose
      request or whose sends it has given up. */
  datatype Lane = Lane(slot: Slot, sends: seq<Parcel>, loaded: nat, lost: seq<seq<byte>>, gaveUp: set<nat>)

  /** The two processes' pools, the lanes, the bytes in the control pipe and the threads inside a read.
      The rest is history: what was done to each pool, the requests that are in the pipe, and by serial number
      the thread and the slot of a read, the answers given and the results returned. */
  datatype State = State(pools: seq<Pool.Ledger>, lanes: seq<Lane>, pipe: seq<byte>, threads: map<Tid, Thread>,
                         acts: seq<seq<Pool.Action>>, queue: seq<Ticket>, nextSerial: nat, owners: map<nat, Owner>,
                         answers: map<nat, Answer>, results: map<nat, Result>)

  function Start(): State {
    State([Pool.Start(0), Pool.Start(1)], seq(SLOT_COUNT, _ => Lane(Zeroed(), [], 0, [], {})), [], map[],
          [[], []], [], 0, map[], map[], map[])
  }

  predicate SmallIds(l: Pool.Ledger) {
    && (forall i :: 0 <= i < |l.pool.free| ==> l.pool.free[i] < SLOT_COUNT)
    && (forall n :: n in l.held ==> l.held[n].id < SLOT_COUNT)
  }

  predicate Shape(s: State) {
    && |s.pools| == |s.acts| == 2 && |s.lanes| == SLOT_COUNT
    && SmallIds(s.pools[0]) && SmallIds(s.pools[1])
    && (forall i :: 0 <= i < SLOT_COUNT ==> WellFormed(s.lanes[i].slot))
    && (forall t :: t in s.threads ==> t.party < 2 && s.threads[t].id < SLOT_COUNT)
  }

  /** Two processes and twenty slots. */
  type System = s: State | Shape(s) witness Start()

  /** The record that `blkfs_do_read` fills in, with its path. */
  function RequestFor(th: Thread): Wire.Request
    requires RequestFits(th)
  {
    Wire.NewRequest(th.id, th.job.path, th.job.offset, th.job.size, Wire.COMMAND_DATA)
  }

  predicate RequestFits(th: Thread) {
    th.id < SLOT_COUNT && |th.job.path| < 0x7fff_0000 && th.job.size < 0x8000_0000
  }

  function DataOf(ps: seq<Parcel>): (ds: seq<seq<byte>>)
    ensures |ds| == |ps|
  {
    seq(|ps|, i requires 0 <= i < |ps| => ps[i].data)
  }

  function Parcels(serial: nat, ds: seq<seq<byte>>): (ps: seq<Parcel>)
    ensures |ps| == |ds|
    ensures forall i :: 0 <= i < |ps| ==> ps[i] == Parcel(serial, ds[i])
  {
    seq(|ds|, i requires 0 <= i < |ds| => Parcel(serial, ds[i]))
  }

  function Senders(ps: seq<Parcel>): set<nat> {
    set i | 0 <= i < |ps| :: ps[i].serial
  }

  /** The requests in the pipe that name slot `id`. */
  function OnSlot(queue: seq<Ticket>, id: nat): seq<Ticket> {
    if queue == [] then []
    else (if queue[0].q.rec.txId == id then [queue[0]] else []) + OnSlot(queue[1..], id)
  }

  // ----- The responder's contract

  /** A reply has at most the length asked for. */
  predicate ReplyAllowed(q: Wire.Request, reply: seq<byte>) {
    |reply| <= q.rec.length
  }

  /** It is followed by a zero-length send when it is empty, or shorter than asked and a multiple of the buffer size. */
  function ReplyPlan(reply: seq<byte>, length: int): (p: seq<seq<byte>>)
    ensures p != []
  {
    Plan(reply, reply == [] || NeedsMark(|reply|, length))
  }

  /** Nothing is asked or being sent on slot `id`. */
  predicate Quiet(s: System, id: nat)
    requires id < SLOT_COUNT
  {
    s.lanes[id].sends == [] && OnSlot(s.queue, id) == []
  }

  /** The contract's last part: when a client gives up on a slot, or leaves it after a read of no bytes, the
      responder has nothing more to do there. */
  predicate Obeys(s: System, e: Step)
    requires Enabled(s, e)
  {
    match e
    case TimeOut(t) => Quiet(s, s.threads[t].id)
    case Return(t) => s.threads[t].job.size == 0 ==> Quiet(s, s.threads[t].id)
    case _ => true
  }

  // ----- Steps

  /** `WriteFails` is a control write that fails having written nothing. The responder may take a request off
      the pipe and never answer it (`Drop`), and give up the sends that are left on a slot (`Discard`). */
  datatype Step =
    | TakeId(t: Tid, path: seq<byte>, size: nat, offset: int64)
    | ResetSlot(t: Tid)
    | WriteRequest(t: Tid)
    | WriteFails(t: Tid)
    | Respond(reply: seq<byte>)
    | Drop
    | SendChunk(id: nat)
    | Discard(id: nat)
    | ReceiveChunk(t: Tid)
    | Return(t: Tid)
    | TimeOut(t: Tid)

  predicate InStage(s: System, t: Tid, stage: Stage) {
    t in s.threads && s.threads[t].stage == stage
  }

  /** The pipe's first frame is whole and names a slot. */
  predicate Asked(s: System) {
    && s.queue != [] && Wire.ParseFrame(s.pipe).Parsed?
    && 0 <= Wire.ParseFrame(s.pipe).q.rec.txId < SLOT_COUNT
  }

  predicate Enabled(s: System, e: Step) {
    match e
    case TakeId(t, path, size, offset) =>
      && t.party < 2 && t !in s.threads && Pool.Take(s.pools[t.party].pool).Granted?
      && |path| < 0x7fff_0000 && size < 0x8000_0000
    case ResetSlot(t) => InStage(s, t, Holding)
    case WriteRequest(t) => InStage(s, t, Armed) && RequestFits(s.threads[t])
    case WriteFails(t) => InStage(s, t, Armed)
    case Respond(reply) => Asked(s) && ReplyAllowed(Wire.ParseFrame(s.pipe).q, reply)
    case Drop => Asked(s)
    case SendChunk(id) => id < SLOT_COUNT && s.lanes[id].sends != [] && CanSend(s.lanes[id].slot)
    case Discard(id) => id < SLOT_COUNT && s.lanes[id].sends != []
    case ReceiveChunk(t) => InStage(s, t, Reading) && ReceiveEnabled(SessionOf(s, t))
    case Return(t) => InStage(s, t, Reading) && s.threads[t].client.phase.Finished?
    case TimeOut(t) =>
      && InStage(s, t, Reading) && s.threads[t].client.phase.Running?
      && !CanReceive(s.lanes[s.threads[t].id].slot)
  }

  /** A thread, its slot and what the responder still sends on it. */
  function SessionOf(s: System, t: Tid): Session
    requires t in s.threads
  {
    var lane := s.lanes[s.threads[t].id];
    Session(lane.slot, DataOf(lane.sends), s.threads[t].client)
  }

  function OnPool(s: System, party: nat, a: Pool.Action): System
    requires party < 2
  {
    s.(pools := s.pools[party := Pool.Act(s.pools[party], a)], acts := s.acts[party := s.acts[party] + [a]])
  }

  function Leave(s: System, t: Tid, a: Pool.Action): System
    requires t in s.threads
  {
    OnPool(s, t.party, a).(threads := s.threads - {t})
  }

  function Enter(s: System, t: Tid, th: Thread): System
    requires t.party < 2 && th.id < SLOT_COUNT
  {
    OnPool(s, t.party, Pool.Begin(t.n, Pool.Read))
      .(threads := s.threads[t := th], nextSerial := s.nextSerial + 1,
        owners := s.owners[s.nextSerial := Owner(t, th.id)])
  }

  /** Changes one thread and its lane. */
  function Update(s: System, t: Tid, th: Thread, lane: Lane): System
    requires t in s.threads && th.id == s.threads[t].id && WellFormed(lane.slot)
  {
    s.(lanes := s.lanes[th.id := lane], threads := s.threads[t := th])
  }

  function Ask(s: System, t: Tid, q: Wire.Request): System
    requires t in s.threads
  {
    var th := s.threads[t];
    s.(pipe := s.pipe + Wire.Frame(q), queue := s.queue + [Ticket(th.job.serial, q)],
       threads := s.threads[t := th.(stage := Reading)])
  }

  /** The responder takes the first request off the pipe, leaving `rest`. */
  function Taken(s: System, rest: seq<byte>, id: nat, lane: Lane): System
    requires s.queue != [] && id < SLOT_COUNT && WellFormed(lane.slot)
  {
    s.(pipe := rest, queue := s.queue[1..], lanes := s.lanes[id := lane])
  }

  // What happens to a lane.

  function Replied(lane: Lane, serial: nat, plan: seq<seq<byte>>): Lane {
    lane.(sends := lane.sends + Parcels(serial, plan))
  }

  function Dropped(lane: Lane, serial: nat): Lane {
    lane.(gaveUp := lane.gaveUp + {serial})
  }

  function Discarded(lane: Lane): Lane {
    lane.(sends := [], lost := lane.lost + DataOf(lane.sends), gaveUp := lane.gaveUp + Senders(lane.sends))
  }

  function Sent(lane: Lane): Lane
    requires lane.sends != [] && WellFormed(lane.slot)
  {
    lane.(slot := StoreChunk(lane.slot, lane.sends[0].data), sends := lane.sends[1..], loaded := lane.sends[0].serial)
  }

  function ResetLane(lane: Lane): Lane {
    lane.(slot := Reset(lane.slot), lost := [], gaveUp := {})
  }

  function Do(s: System, e: Step): System
    requires Enabled(s, e)
  {
    match e
    case TakeId(t, path, size, offset) =>
      var id := Pool.Take(s.pools[t.party].pool).id;
      Enter(s, t, Thread(Holding, id, Job(s.nextSerial, path, size, offset), Begin(size), false, {}))
    case ResetSlot(t) =>
      var th := s.threads[t];
      Update(s, t, th.(stage := Armed, quiet := Quiet(s, th.id)), ResetLane(s.lanes[th.id]))
    case WriteRequest(t) => Ask(s, t, RequestFor(s.threads[t]))
    case WriteFails(t) => Leave(s, t, Pool.WriteFails(t.n))
    case Respond(reply) =>
      var p, serial := Wire.ParseFrame(s.pipe), s.queue[0].serial;
      var id := p.q.rec.txId;
      Taken(s, p.rest, id, Replied(s.lanes[id], serial, ReplyPlan(reply, p.q.rec.length)))
        .(answers := s.answers[serial := Answer(p.q, reply)])
    case Drop =>
      var p := Wire.ParseFrame(s.pipe);
      var id := p.q.rec.txId;
      Taken(s, p.rest, id, Dropped(s.lanes[id], s.queue[0].serial))
    case SendChunk(id) =>
      StoreChunkKeeps(s.lanes[id].slot, s.lanes[id].sends[0].data);
      s.(lanes := s.lanes[id := Sent(s.lanes[id])])
    case Discard(id) => s.(lanes := s.lanes[id := Discarded(s.lanes[id])])
    case ReceiveChunk(t) =>
      var th := s.threads[t];
      var lane := s.lanes[th.id];
      TakeBytesKeeps(lane.slot, Remaining(th.client));
      var r := ReceiveTurn(SessionOf(s, t));
      Update(s, t, th.(client := r.client, took := th.took + {lane.loaded}), lane.(slot := r.slot))
    case Return(t) =>
      var th := s.threads[t];
      Leave(s, t, Pool.Finish(t.n))
        .(results := s.results[th.job.serial :=
                                 Result(th.job, th.client.got, th.quiet, th.took, s.lanes[th.id].gaveUp)])
    case TimeOut(t) => Leave(s, t, Pool.Finish(t.n))
  }

  // ----- Runs

  /** Every run of the threads and the responder is a sequence of enabled steps from the start. */
  predicate Plays(s: System, es: seq<Step>)
    decreases |es|
  {
    es == [] || (Enabled(s, es[0]) && Plays(Do(s, es[0]), es[1..]))
  }

  function Play(s: System, es: seq<Step>): System
    requires Plays(s, es)
    decreases |es|
  {
    if es == [] then s else Play(Do(s, es[0]), es[1..])
  }

  /** The runs in which the responder keeps the last part of its contract. */
  predicate PlaysByContract(s: System, es: seq<Step>)
    ensures PlaysByContract(s, es) ==> Plays(s, es)
    decreases |es|
  {
    es == [] || (Enabled(s, es[0]) && Obeys(s, es[0]) && PlaysByContract(Do(s, es[0]), es[1..]))
  }
}

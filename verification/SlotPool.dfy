/** The pool of slot ids of `fuse/blkfs_shared.c`: a free list used as a stack, and a counter that
    steps by two from the process's party number. */
module SlotPool {

  const MAX_PIPES: nat := 20
  const NULL_PIPE: nat := 21
  const MAX_WAIT_TIME_SECS: nat := 30

  datatype Pool = Pool(txNum: nat, free: seq<nat>)

  datatype Grant = Busy | Granted(id: nat, pool: Pool)

  /** One look at the pool under its lock. */
  function Take(p: Pool): Grant {
    if p.free != [] then Granted(p.free[0], p.(free := p.free[1..]))
    else if p.txNum >= MAX_PIPES then Busy
    else Granted(p.txNum, p.(txNum := p.txNum + 2))
  }

  /** `blkfs_unlink_datafile`. */
  function Give(p: Pool, id: nat): Pool {
    if id == NULL_PIPE then p else p.(free := [id] + p.free)
  }

  /** An id taken and given back leaves a pool that grants the same id next, and whose free list
      differs at most by that id. */
  lemma GiveUndoesTake(p: Pool)
    requires Take(p).Granted? && Take(p).id != NULL_PIPE
    ensures var id := Take(p).id;
            var q := Give(Take(p).pool, id);
            && Take(q).Granted? && Take(q).id == id && Take(q).pool == Take(p).pool
            && (p.free != [] ==> q == p)
            && (p.free == [] ==> q == Pool(p.txNum + 2, [id]))
  {
    if p.free != [] {
      assert p.free == [p.free[0]] + p.free[1..];
    }
  }

  // ----- Getting an id

  /** What other threads do to the pool while this one sleeps, and the clock when it wakes. */
  datatype PoolEvent = Gives(id: nat) | Takes

  datatype Sleep = Sleep(events: seq<PoolEvent>, now: int)

  function ApplyOne(p: Pool, e: PoolEvent): Pool {
    match e
    case Gives(id) => Give(p, id)
    case Takes => if Take(p).Granted? then Take(p).pool else p
  }

  function ApplyAll(p: Pool, es: seq<PoolEvent>): Pool
    decreases |es|
  {
    if es == [] then p else ApplyAll(ApplyOne(p, es[0]), es[1..])
  }

  datatype Next = Next(id: nat, pool: Pool)

  /** `blkfs_get_next_datafile` begun at time `start`, the clock now being `now`. When no more sleeps are
      listed, the last one lasted past the deadline and nothing was returned during it. */
  function GetNext(p: Pool, start: int, now: int, sleeps: seq<Sleep>): Next
    decreases |sleeps|
  {
    if now - start > MAX_WAIT_TIME_SECS then Next(NULL_PIPE, p)
    else
      match Take(p)
      case Granted(id, q) => Next(id, q)
      case Busy =>
        if sleeps == [] then Next(NULL_PIPE, p)
        else GetNext(ApplyAll(p, sleeps[0].events), start, sleeps[0].now, sleeps[1..])
  }

  function EventsOf(sleeps: seq<Sleep>): seq<PoolEvent> {
    if sleeps == [] then [] else sleeps[0].events + EventsOf(sleeps[1..])
  }

  lemma {:induction false} ApplyAllAppend(p: Pool, a: seq<PoolEvent>, b: seq<PoolEvent>)
    ensures ApplyAll(p, a + b) == ApplyAll(ApplyAll(p, a), b)
    decreases |a|
  {
    if a == [] {
      assert a + b == b;
    } else {
      assert (a + b)[1..] == a[1..] + b;
      ApplyAllAppend(ApplyOne(p, a[0]), a[1..], b);
    }
  }

  /** How many of the sleeps `GetNext` goes through. */
  function SleepsUsed(p: Pool, start: int, now: int, sleeps: seq<Sleep>): (k: nat)
    ensures k <= |sleeps|
    decreases |sleeps|
  {
    if now - start > MAX_WAIT_TIME_SECS || Take(p).Granted? || sleeps == [] then 0
    else 1 + SleepsUsed(ApplyAll(p, sleeps[0].events), start, sleeps[0].now, sleeps[1..])
  }

  /** After its sleeps the caller either gets the id that the pool then grants, or gives up, and then it is
      either past the deadline or it has slept through them all with the pool still empty. */
  lemma {:induction false} GetNextGrantsOrGivesUp(p: Pool, start: int, now: int, sleeps: seq<Sleep>)
    ensures var k := SleepsUsed(p, start, now, sleeps);
            var r := GetNext(p, start, now, sleeps);
            var q := ApplyAll(p, EventsOf(sleeps[..k]));
            var time := if k == 0 then now else sleeps[k - 1].now;
            || (time - start <= 30 && Take(q) == Granted(r.id, r.pool))
            || (r == Next(21, q) && (time - start > 30 || (k == |sleeps| && Take(q) == Busy)))
    decreases |sleeps|
  {
    if now - start > MAX_WAIT_TIME_SECS || Take(p).Granted? || sleeps == [] {
      assert EventsOf(sleeps[..0]) == [];
    } else {
      var q := ApplyAll(p, sleeps[0].events);
      var k := SleepsUsed(q, start, sleeps[0].now, sleeps[1..]);
      GetNextGrantsOrGivesUp(q, start, sleeps[0].now, sleeps[1..]);
      assert sleeps[..k + 1][1..] == sleeps[1..][..k];
      ApplyAllAppend(p, sleeps[0].events, EventsOf(sleeps[1..][..k]));
    }
  }

  /** It sleeps only as long as it finds nothing in time. */
  lemma {:induction false} SleepsOnlyWhenBusy(p: Pool, start: int, now: int, sleeps: seq<Sleep>, i: nat)
    requires i < SleepsUsed(p, start, now, sleeps)
    ensures Take(ApplyAll(p, EventsOf(sleeps[..i]))) == Busy
    ensures (if i == 0 then now else sleeps[i - 1].now) - start <= 30
    decreases |sleeps|
  {
    if i == 0 {
      assert EventsOf(sleeps[..0]) == [];
    } else {
      var q := ApplyAll(p, sleeps[0].events);
      SleepsOnlyWhenBusy(q, start, sleeps[0].now, sleeps[1..], i - 1);
      assert sleeps[..i][1..] == sleeps[1..][..i - 1];
      ApplyAllAppend(p, sleeps[0].events, EventsOf(sleeps[1..][..i - 1]));
    }
  }

  /** An id that comes back to an exhausted pool is granted to a caller that wakes up within 30 seconds of its
      beginning, and to no other. */
  lemma ReturnedIdIsGranted(p: Pool, id: nat, start: int, now: int, woken: int, sleeps: seq<Sleep>)
    requires p.free == [] && p.txNum >= 20 && id < 20 && now - start <= 30
    requires sleeps != [] && sleeps[0] == Sleep([Gives(id)], woken)
    ensures GetNext(p, start, now, sleeps) == if woken - start <= 30 then Next(id, p) else Next(21, Pool(p.txNum, [id]))
  {
    var q := Pool(p.txNum, [id]);
    assert ApplyOne(p, Gives(id)) == q && [Gives(id)][1..] == [];
    assert ApplyAll(p, [Gives(id)]) == ApplyAll(q, []) == q;
    assert GetNext(p, start, now, sleeps) == GetNext(q, start, woken, sleeps[1..]);
  }

  class SharedPool {
    var txNum: nat
    var pipeList: seq<nat>

    function View(): Pool
      reads this
    {
      Pool(txNum, pipeList)
    }

    constructor (party: nat)
      ensures View() == Pool(party, [])
    {
      txNum := party;
      pipeList := [];
    }

    method Unlink(id: nat)
      modifies this
      ensures View() == Give(old(View()), id)
      ensures View() == if id == 21 then old(View()) else Pool(old(txNum), [id] + old(pipeList))
    {
      if id == NULL_PIPE {
        return;
      }
      pipeList := [id] + pipeList;
    }

    method OthersAct(es: seq<PoolEvent>)
      modifies this
      ensures View() == ApplyAll(old(View()), es)
    {
      var i := 0;
      while i < |es|
        invariant i <= |es|
        invariant ApplyAll(old(View()), es) == ApplyAll(View(), es[i..])
      {
        assert es[i..][1..] == es[i + 1..];
        match es[i] {
          case Gives(id) => Unlink(id);
          case Takes =>
            if pipeList != [] {
              pipeList := pipeList[1..];
            } else if txNum < MAX_PIPES {
              txNum := txNum + 2;
            }
        }
        i := i + 1;
      }
    }

    method GetNextDatafile(start: int, now: int, sleeps: seq<Sleep>) returns (nextPipe: nat)
      modifies this
      ensures Next(nextPipe, View()) == GetNext(old(View()), start, now, sleeps)
    {
      nextPipe := NULL_PIPE;
      var later, used := now, 0;
      while true
        invariant used <= |sleeps| && nextPipe == NULL_PIPE
        invariant GetNext(old(View()), start, now, sleeps) == GetNext(View(), start, later, sleeps[used..])
        decreases |sleeps| - used
      {
        if later - start > MAX_WAIT_TIME_SECS {
          break;
        }
        if pipeList != [] {
          nextPipe := pipeList[0];
          pipeList := pipeList[1..];
          break;
        } else if txNum >= MAX_PIPES {
          if used == |sleeps| {
            break;
          }
          OthersAct(sleeps[used].events);
          later := sleeps[used].now;
          assert sleeps[used..][1..] == sleeps[used + 1..];
          used := used + 1;
        } else {
          nextPipe := txNum;
          txNum := txNum + 2;
          break;
        }
      }
    }
  }

  // ----- All operations of one process

  datatype Op = Read | Getattr | Readdir | Readlink

  datatype Hold = Hold(op: Op, id: nat)

  /** The pool, the ids that threads hold, and the ids whose holder returned without giving them back. */
  datatype Ledger = Ledger(party: nat, pool: Pool, held: map<nat, Hold>, lost: seq<nat>)

  /** A thread begins an operation and gets an id (or times out and gets none), or ends it with a good
      control write, or with a failed one. */
  datatype Action = Begin(thread: nat, op: Op) | Finish(thread: nat) | WriteFails(thread: nat)

  /** The operations that do not give their id back when the control write fails. */
  predicate KeepsIdOnFailure(op: Op) {
    op.Read? || op.Getattr?
  }

  function Act(l: Ledger, a: Action): Ledger {
    match a
    case Begin(t, op) =>
      if t in l.held || Take(l.pool).Busy? then l
      else l.(pool := Take(l.pool).pool, held := l.held[t := Hold(op, Take(l.pool).id)])
    case Finish(t) =>
      if t !in l.held then l
      else l.(pool := Give(l.pool, l.held[t].id), held := l.held - {t})
    case WriteFails(t) =>
      if t !in l.held then l
      else if KeepsIdOnFailure(l.held[t].op) then
        l.(held := l.held - {t}, lost := l.lost + [l.held[t].id])
      else
        l.(pool := Give(l.pool, l.held[t].id), held := l.held - {t})
  }

  function Run(l: Ledger, acts: seq<Action>): Ledger
    decreases |acts|
  {
    if acts == [] then l else Run(Act(l, acts[0]), acts[1..])
  }

  lemma {:induction false} RunSnoc(l: Ledger, acts: seq<Action>, a: Action)
    ensures Run(l, acts + [a]) == Act(Run(l, acts), a)
    decreases |acts|
  {
    if acts == [] {
      assert acts + [a] == [a];
      assert Run(Act(l, a), [a][1..]) == Act(l, a);
    } else {
      assert (acts + [a])[1..] == acts[1..] + [a];
      RunSnoc(Act(l, acts[0]), acts[1..], a);
    }
  }

  /** What an action does to the pool, as another thread sees it. */
  function Effect(l: Ledger, a: Action): seq<PoolEvent> {
    match a
    case Begin(t, _) => if t in l.held || Take(l.pool).Busy? then [] else [Takes]
    case Finish(t) => if t in l.held then [Gives(l.held[t].id)] else []
    case WriteFails(t) => if t in l.held && !KeepsIdOnFailure(l.held[t].op) then [Gives(l.held[t].id)] else []
  }

  function Effects(l: Ledger, acts: seq<Action>): seq<PoolEvent>
    decreases |acts|
  {
    if acts == [] then [] else Effect(l, acts[0]) + Effects(Act(l, acts[0]), acts[1..])
  }

  lemma EffectIsAct(l: Ledger, a: Action)
    ensures ApplyAll(l.pool, Effect(l, a)) == Act(l, a).pool
  {
    var es := Effect(l, a);
    if es != [] {
      assert ApplyAll(l.pool, es) == ApplyOne(l.pool, es[0]);
    }
  }

  /** Other threads leave a thread's hold alone, and change the pool by their effects. */
  lemma {:induction false} OthersRun(l: Ledger, acts: seq<Action>, t: nat)
    requires forall i :: 0 <= i < |acts| ==> acts[i].thread != t
    ensures Run(l, acts).pool == ApplyAll(l.pool, Effects(l, acts))
    ensures t in l.held ==> t in Run(l, acts).held && Run(l, acts).held[t] == l.held[t]
    decreases |acts|
  {
    if acts != [] {
      var m := Act(l, acts[0]);
      EffectIsAct(l, acts[0]);
      ApplyAllAppend(l.pool, Effect(l, acts[0]), Effects(m, acts[1..]));
      OthersRun(m, acts[1..], t);
    }
  }

  /** After what others do during its sleeps, a caller gets the id that the process's pool then grants, or
      gives up and leaves that pool alone. */
  lemma GrantInLedger(l: Ledger, before: seq<Action>, t: nat, start: int, now: int, sleeps: seq<Sleep>)
    requires t !in l.held && forall i :: 0 <= i < |before| ==> before[i].thread != t
    requires EventsOf(sleeps[..SleepsUsed(l.pool, start, now, sleeps)]) == Effects(l, before)
    ensures var m, r := Run(l, before), GetNext(l.pool, start, now, sleeps);
            && m.pool == ApplyAll(l.pool, Effects(l, before)) && t !in m.held
            && (Take(m.pool) == Granted(r.id, r.pool) || r == Next(NULL_PIPE, m.pool))
  {
    GetNextGrantsOrGivesUp(l.pool, start, now, sleeps);
    OthersRun(l, before, t);
    OthersDoNotBegin(l, before, t);
  }

  /** Other threads' actions do not make a thread hold an id. */
  lemma {:induction false} OthersDoNotBegin(l: Ledger, acts: seq<Action>, t: nat)
    requires t !in l.held && forall i :: 0 <= i < |acts| ==> acts[i].thread != t
    ensures t !in Run(l, acts).held
    decreases |acts|
  {
    if acts != [] {
      OthersDoNotBegin(Act(l, acts[0]), acts[1..], t);
    }
  }

  function Start(party: nat): Ledger {
    Ledger(party, Pool(party, []), map[], [])
  }

  /** Ids not available to anyone: held, or lost. */
  function Outstanding(l: Ledger): nat {
    |l.held| + |l.lost|
  }

  function Max(a: nat, b: nat): nat {
    if a < b then b else a
  }

  /** The largest number of ids outstanding at once during a run. */
  function HighWater(l: Ledger, acts: seq<Action>): nat
    decreases |acts|
  {
    if acts == [] then Outstanding(l) else Max(Outstanding(l), HighWater(Act(l, acts[0]), acts[1..]))
  }

  predicate Issued(l: Ledger, id: nat) {
    id < l.pool.txNum && id % 2 == l.party
  }

  /** Free, held and lost ids are issued, and no id occurs twice among them. */
  ghost predicate Exclusive(l: Ledger) {
    && (forall i :: 0 <= i < |l.pool.free| ==> Issued(l, l.pool.free[i]))
    && (forall t :: t in l.held ==> Issued(l, l.held[t].id))
    && (forall i :: 0 <= i < |l.lost| ==> Issued(l, l.lost[i]))
    && (forall i, j :: 0 <= i < j < |l.pool.free| ==> l.pool.free[i] != l.pool.free[j])
    && (forall t, u :: t in l.held && u in l.held && t != u ==> l.held[t].id != l.held[u].id)
    && (forall i, j :: 0 <= i < j < |l.lost| ==> l.lost[i] != l.lost[j])
    && (forall t :: t in l.held ==> l.held[t].id !in l.pool.free && l.held[t].id !in l.lost)
    && (forall i :: 0 <= i < |l.lost| ==> l.lost[i] !in l.pool.free)
  }

  ghost predicate Counted(l: Ledger, peak: nat) {
    && l.party <= 1
    && l.pool.txNum == l.party + 2 * peak <= MAX_PIPES + l.party
    && |l.pool.free| + |l.held| + |l.lost| == peak
  }

  lemma ExclusiveIds(l: Ledger, peak: nat, id: nat)
    requires Counted(l, peak) && Issued(l, id)
    ensures id < MAX_PIPES && id != NULL_PIPE
  {}

  /** A thread takes the first free id. */
  function Reused(l: Ledger, t: nat, op: Op): Ledger
    requires l.pool.free != []
  {
    l.(pool := l.pool.(free := l.pool.free[1..]), held := l.held[t := Hold(op, l.pool.free[0])])
  }

  lemma ReuseExcludes(l: Ledger, t: nat, op: Op)
    requires t !in l.held && l.pool.free != [] && Exclusive(l)
    ensures Exclusive(Reused(l, t, op))
  {
    var free := l.pool.free;
    assert forall i :: 0 <= i < |free[1..]| ==> free[1..][i] == free[i + 1];
    assert free[0] !in free[1..];
    assert forall id :: id in free[1..] ==> id in free;
  }

  lemma ReuseCounts(l: Ledger, t: nat, op: Op, peak: nat)
    requires t !in l.held && l.pool.free != [] && Counted(l, peak)
    ensures Counted(Reused(l, t, op), peak) && Outstanding(Reused(l, t, op)) <= peak
  {}

  /** A thread gets a fresh id. */
  function FreshIssued(l: Ledger, t: nat, op: Op): Ledger {
    l.(pool := l.pool.(txNum := l.pool.txNum + 2), held := l.held[t := Hold(op, l.pool.txNum)])
  }

  lemma IssueExcludes(l: Ledger, t: nat, op: Op)
    requires t !in l.held && l.pool.free == [] && l.pool.txNum % 2 == l.party && Exclusive(l)
    ensures Exclusive(FreshIssued(l, t, op))
  {
    var r := FreshIssued(l, t, op);
    forall id | Issued(l, id) ensures Issued(r, id) && id != l.pool.txNum {}
    forall i | 0 <= i < |r.lost| ensures Issued(r, r.lost[i]) && r.lost[i] != l.pool.txNum {
      assert Issued(l, l.lost[i]);
    }
  }

  lemma IssueCounts(l: Ledger, t: nat, op: Op, peak: nat)
    requires t !in l.held && l.pool.free == [] && l.pool.txNum < MAX_PIPES && Counted(l, peak)
    ensures Counted(FreshIssued(l, t, op), peak + 1) && Outstanding(FreshIssued(l, t, op)) == peak + 1
  {}

  lemma BeginKeeps(l: Ledger, a: Action, peak: nat)
    requires a.Begin? && Exclusive(l) && Counted(l, peak)
    ensures Exclusive(Act(l, a)) && Counted(Act(l, a), Max(peak, Outstanding(Act(l, a))))
  {
    if a.thread !in l.held && Take(l.pool).Granted? {
      if l.pool.free != [] {
        ReuseExcludes(l, a.thread, a.op);
        ReuseCounts(l, a.thread, a.op, peak);
        assert Act(l, a) == Reused(l, a.thread, a.op);
      } else {
        IssueExcludes(l, a.thread, a.op);
        IssueCounts(l, a.thread, a.op, peak);
        assert Act(l, a) == FreshIssued(l, a.thread, a.op);
      }
    }
  }

  /** A thread gives its id back. */
  function Returned(l: Ledger, t: nat): Ledger
    requires t in l.held
  {
    l.(pool := Give(l.pool, l.held[t].id), held := l.held - {t})
  }

  lemma GiveExcludes(l: Ledger, t: nat)
    requires t in l.held && l.held[t].id != NULL_PIPE && Exclusive(l)
    ensures Exclusive(Returned(l, t))
  {}

  lemma GiveKeeps(l: Ledger, t: nat, peak: nat)
    requires t in l.held && Exclusive(l) && Counted(l, peak)
    ensures Exclusive(Returned(l, t)) && Counted(Returned(l, t), peak)
  {
    ExclusiveIds(l, peak, l.held[t].id);
    GiveExcludes(l, t);
    assert Returned(l, t).held.Keys == l.held.Keys - {t};
  }

  /** A thread returns without giving its id back. */
  function Lost(l: Ledger, t: nat): Ledger
    requires t in l.held
  {
    l.(held := l.held - {t}, lost := l.lost + [l.held[t].id])
  }

  lemma LoseExcludes(l: Ledger, t: nat)
    requires t in l.held && Exclusive(l)
    ensures Exclusive(Lost(l, t))
  {}

  lemma LoseCounts(l: Ledger, t: nat, peak: nat)
    requires t in l.held && Counted(l, peak)
    ensures Counted(Lost(l, t), peak)
  {
    assert Lost(l, t).held.Keys == l.held.Keys - {t};
  }

  lemma ActKeeps(l: Ledger, a: Action, peak: nat)
    requires Exclusive(l) && Counted(l, peak)
    ensures Exclusive(Act(l, a)) && Counted(Act(l, a), Max(peak, Outstanding(Act(l, a))))
  {
    match a
    case Begin(t, op) => BeginKeeps(l, a, peak);
    case Finish(t) =>
      if t in l.held {
        GiveKeeps(l, t, peak);
      }
    case WriteFails(t) =>
      if t in l.held {
        if KeepsIdOnFailure(l.held[t].op) {
          LoseExcludes(l, t);
          LoseCounts(l, t, peak);
        } else {
          GiveKeeps(l, t, peak);
        }
      }
  }

  lemma {:induction false} RunKeeps(l: Ledger, acts: seq<Action>, peak: nat)
    requires Exclusive(l) && Counted(l, peak)
    ensures Exclusive(Run(l, acts)) && Counted(Run(l, acts), Max(peak, HighWater(l, acts)))
    decreases |acts|
  {
    if acts != [] {
      ActKeeps(l, acts[0], peak);
      RunKeeps(Act(l, acts[0]), acts[1..], Max(peak, Outstanding(Act(l, acts[0]))));
      assert HighWater(l, acts) == Max(Outstanding(l), HighWater(Act(l, acts[0]), acts[1..]));
    }
  }

  predicate Holds(l: Ledger, id: nat) {
    exists t :: t in l.held && l.held[t].id == id
  }

  /** Every issued id is free, or held, or lost. */
  ghost predicate Covered(l: Ledger) {
    forall id {:trigger Holds(l, id)} :: Issued(l, id) ==> id in l.pool.free || Holds(l, id) || id in l.lost
  }

  lemma TakeCovers(l: Ledger, t: nat, op: Op)
    requires Covered(l) && l.party <= 1 && l.pool.txNum % 2 == l.party && t !in l.held && Take(l.pool).Granted?
    ensures Covered(Act(l, Begin(t, op)))
  {
    var r := Act(l, Begin(t, op));
    forall id | Issued(r, id) ensures id in r.pool.free || Holds(r, id) || id in r.lost {
      if id == r.held[t].id {
        assert Holds(r, id);
      } else {
        assert Issued(l, id);
        if Holds(l, id) {
          var u :| u in l.held && l.held[u].id == id;
          assert r.held[u].id == id;
        }
      }
    }
  }

  /** An id that a thread stops holding goes to the free list or is lost. */
  lemma EndCovers(l: Ledger, r: Ledger, t: nat)
    requires Covered(l) && t in l.held && r.held == l.held - {t} && r.party == l.party && r.pool.txNum == l.pool.txNum
    requires forall id :: id in l.pool.free ==> id in r.pool.free
    requires forall id :: id in l.lost ==> id in r.lost
    requires l.held[t].id in r.pool.free || l.held[t].id in r.lost
    ensures Covered(r)
  {
    forall id | Issued(r, id) ensures id in r.pool.free || Holds(r, id) || id in r.lost {
      assert Issued(l, id);
      if Holds(l, id) && id != l.held[t].id {
        var u :| u in l.held && l.held[u].id == id;
        assert r.held[u].id == id;
      }
    }
  }

  lemma ActCovers(l: Ledger, a: Action, peak: nat)
    requires Exclusive(l) && Counted(l, peak) && Covered(l)
    ensures Covered(Act(l, a))
  {
    match a
    case Begin(t, op) =>
      if t !in l.held && Take(l.pool).Granted? {
        TakeCovers(l, t, op);
      }
    case Finish(t) => EndActCovers(l, a, peak);
    case WriteFails(t) => EndActCovers(l, a, peak);
  }

  lemma EndActCovers(l: Ledger, a: Action, peak: nat)
    requires !a.Begin? && Exclusive(l) && Counted(l, peak) && Covered(l)
    ensures Covered(Act(l, a))
  {
    if a.thread in l.held {
      ExclusiveIds(l, peak, l.held[a.thread].id);
      EndCovers(l, Act(l, a), a.thread);
    }
  }

  lemma {:induction false} RunCovers(l: Ledger, acts: seq<Action>, peak: nat)
    requires Exclusive(l) && Counted(l, peak) && Covered(l)
    ensures Covered(Run(l, acts))
    decreases |acts|
  {
    if acts != [] {
      ActCovers(l, acts[0], peak);
      ActKeeps(l, acts[0], peak);
      RunCovers(Act(l, acts[0]), acts[1..], Max(peak, Outstanding(Act(l, acts[0]))));
    }
  }

  /** How many control writes of reads and getattrs fail during a run. */
  function FailedWrites(l: Ledger, acts: seq<Action>): nat
    decreases |acts|
  {
    if acts == [] then 0
    else
      var a := acts[0];
      var fails := a.WriteFails? && a.thread in l.held && l.held[a.thread].op in {Read, Getattr};
      (if fails then 1 else 0) + FailedWrites(Act(l, a), acts[1..])
  }

  lemma {:induction false} FailedWritesLose(l: Ledger, acts: seq<Action>)
    ensures |Run(l, acts).lost| == |l.lost| + FailedWrites(l, acts)
    decreases |acts|
  {
    if acts != [] {
      FailedWritesLose(Act(l, acts[0]), acts[1..]);
    }
  }

  /** How a thread stops holding an id, in every run: a failed control write of a read or a getattr loses it, and
      everything else puts it in front of the free list. */
  lemma HowHoldsEnd(party: nat, acts: seq<Action>, t: nat)
    requires party <= 1 && t in Run(Start(party), acts).held
    ensures var l := Run(Start(party), acts);
            var id, op := l.held[t].id, l.held[t].op;
            var f, w := Act(l, Finish(t)), Act(l, WriteFails(t));
            && f.held == w.held == l.held - {t} && f.pool.txNum == w.pool.txNum == l.pool.txNum
            && f.pool.free == [id] + l.pool.free && f.lost == l.lost
            && (op == Readdir || op == Readlink ==> w == f)
            && (op == Read || op == Getattr ==> w.pool == l.pool && id !in w.pool.free && w.lost == l.lost + [id])
  {
    OneProcess(party, acts);
  }

  /** Accounting theorem. Over every run of any number of threads: the issued ids are exactly the free, held and
      lost ones, and no id is counted twice; the lost ones are as many as the failed control writes of reads and
      getattrs; and the counter stands at party + 2 * (the most ids ever outstanding at once), since a fresh
      id is issued only when the free list is empty. */
  lemma LedgerAccounts(party: nat, acts: seq<Action>)
    requires party <= 1
    ensures var l := Run(Start(party), acts);
            && l.party == party
            && (forall id: nat :: Issued(l, id) <==> id in l.pool.free || Holds(l, id) || id in l.lost)
            && |l.pool.free| + |l.held| + |l.lost| == (l.pool.txNum - party) / 2
            && |l.lost| == FailedWrites(Start(party), acts)
            && l.pool.txNum == party + 2 * HighWater(Start(party), acts)
  {
    var l := Run(Start(party), acts);
    RunKeeps(Start(party), acts, 0);
    RunCovers(Start(party), acts, 0);
    PartyFixed(Start(party), acts);
    FailedWritesLose(Start(party), acts);
    forall id: nat ensures Issued(l, id) <==> id in l.pool.free || Holds(l, id) || id in l.lost {
      if id in l.pool.free || id in l.lost || Holds(l, id) {
        assert Exclusive(l);
      }
    }
  }

  lemma {:induction false} PartyFixed(l: Ledger, acts: seq<Action>)
    ensures Run(l, acts).party == l.party
    decreases |acts|
  {
    if acts != [] {
      PartyFixed(Act(l, acts[0]), acts[1..]);
    }
  }

  lemma OneProcess(party: nat, acts: seq<Action>)
    requires party <= 1
    ensures var l := Run(Start(party), acts);
            Exclusive(l) && forall t :: t in l.held ==> l.held[t].id < MAX_PIPES && l.held[t].id % 2 == party
  {
    RunKeeps(Start(party), acts, 0);
    PartyFixed(Start(party), acts);
    var l := Run(Start(party), acts);
    forall t | t in l.held ensures l.held[t].id < MAX_PIPES && l.held[t].id % 2 == party {
      ExclusiveIds(l, Max(0, HighWater(Start(party), acts)), l.held[t].id);
    }
  }

  /** Capacity theorem. A process can have ten ids out at once, held or lost, and never more. While it has fewer, a
      caller gets one without sleeping, which is below 20 and of the process's party; with ten out, a caller finds
      none, and is given the null id 21 when nothing comes back. */
  lemma TenIdsAtOnce(party: nat, acts: seq<Action>, start: int, now: int, sleeps: seq<Sleep>)
    requires party <= 1 && now - start <= 30
    ensures var l := Run(Start(party), acts);
            var out, r := |l.held| + |l.lost|, GetNext(l.pool, start, now, sleeps);
            && out <= 10
            && (out < 10 ==> r.id < 20 && r.id % 2 == party && r == GetNext(l.pool, start, now, []))
            && (out < 10 ==> !Holds(l, r.id) && r.id !in l.lost && r.id !in r.pool.free)
            && (out == 10 ==> GetNext(l.pool, start, now, []) == Next(21, l.pool))
  {
    RunKeeps(Start(party), acts, 0);
    PartyFixed(Start(party), acts);
    GrantIsNew(Run(Start(party), acts), Max(0, HighWater(Start(party), acts)));
  }

  lemma GrantIsNew(l: Ledger, peak: nat)
    requires Exclusive(l) && Counted(l, peak)
    ensures Take(l.pool).Granted? <==> |l.held| + |l.lost| < 10
    ensures Take(l.pool).Granted? ==>
              var id := Take(l.pool).id;
              id < 20 && id % 2 == l.party && !Holds(l, id) && id !in l.lost && id !in Take(l.pool).pool.free
  {
    if Take(l.pool).Granted? {
      if l.pool.free == [] {
        assert !Issued(l, Take(l.pool).id);
      } else {
        assert Issued(l, l.pool.free[0]);
      }
    }
  }

  /** An id that one process has lost is held by no thread of either. */
  lemma LostIsNotHeld(p: nat, acts: seq<Action>, id: nat, q: nat, others: seq<Action>, t: nat)
    requires p <= 1 && q <= 1 && (p == q ==> acts == others)
    requires id in Run(Start(p), acts).lost && t in Run(Start(q), others).held
    ensures Run(Start(q), others).held[t].id != id
  {
    OneProcess(p, acts);
    OneProcess(q, others);
    PartyFixed(Start(p), acts);
    var l := Run(Start(p), acts);
    var i :| 0 <= i < |l.lost| && l.lost[i] == id;
    assert Issued(l, l.lost[i]);
  }

  /** Exclusivity theorem. Over all runs of two processes with parties 0 and 1: within each, no id is both
      free and held, or held twice; every held id names a real slot; and no slot is held by both. */
  lemma SlotsAreExclusive(acts0: seq<Action>, acts1: seq<Action>)
    ensures var a, b := Run(Start(0), acts0), Run(Start(1), acts1);
            && Exclusive(a) && Exclusive(b)
            && (forall t :: t in a.held ==> a.held[t].id < 20 && a.held[t].id % 2 == 0)
            && (forall t :: t in b.held ==> b.held[t].id < 20 && b.held[t].id % 2 == 1)
            && (forall t, u :: t in a.held && u in b.held ==> a.held[t].id != b.held[u].id)
  {
    OneProcess(0, acts0);
    OneProcess(1, acts1);
  }
}

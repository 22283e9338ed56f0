/** The FUSE operations of `fuse/blkfs.c` and `fuse/blkfs_shared.c` on the shared state: each takes a slot id,
    resets the slot, writes its request, receives the reply and gives the id back. */
module FileOperations {
  import opened Bytes
  import opened MemSlot
  import opened Transfer
  import opened SlotCalls
  import opened Delivery
  import Memory = SlotMemory
  import Pool = SlotPool
  import Wire = ControlPipe
  import Listing
  import opened WaitClock
  import ReadProtocol
  import ReadRuns
  import ReadSafety

  const EBUSY: int := 16
  const EPIPE: int := 32
  const ENOENT: int := 2

  /** What happens around one operation: the clock and other threads while it waits for an id; the memory and the
      writes of its request, and what is done to its slot between the request and the first look at the slot;
      `errno` where the code returns whatever is in it; the responder while it sleeps for its reply with the clock
      of its waits; and other threads' use of the pool before it gives the id back. */
  datatype World = World(start: int, now: int, sleeps: seq<Pool.Sleep>,
                         haveMemory: bool, writes: seq<Wire.Outcome>, prompt: seq<Event>, errno: int,
                         events: seq<Event>, clock: Clock, meanwhile: seq<Pool.PoolEvent>)

  // ----- The pool around an operation

  /** Every id that is given back is the number of a slot, which SlotPool.SlotsAreExclusive shows of ids that
      came from the pool. */
  predicate RealIds(p: Pool.Pool) {
    forall i :: 0 <= i < |p.free| ==> p.free[i] < SLOT_COUNT
  }

  predicate RealEvents(es: seq<Pool.PoolEvent>) {
    forall i :: 0 <= i < |es| ==> es[i].Gives? ==> es[i].id < SLOT_COUNT
  }

  predicate RealSleeps(sleeps: seq<Pool.Sleep>) {
    forall i :: 0 <= i < |sleeps| ==> RealEvents(sleeps[i].events)
  }

  predicate RealWorld(w: World) {
    RealSleeps(w.sleeps) && RealEvents(w.meanwhile)
  }

  lemma {:induction false} EventsKeepIdsReal(p: Pool.Pool, es: seq<Pool.PoolEvent>)
    requires RealIds(p) && RealEvents(es)
    ensures RealIds(Pool.ApplyAll(p, es))
    decreases |es|
  {
    if es != [] {
      EventsKeepIdsReal(Pool.ApplyOne(p, es[0]), es[1..]);
    }
  }

  lemma {:induction false} GrantIsReal(p: Pool.Pool, start: int, now: int, sleeps: seq<Pool.Sleep>)
    requires RealIds(p) && RealSleeps(sleeps)
    ensures var r := Pool.GetNext(p, start, now, sleeps);
            RealIds(r.pool) && (r.id == Pool.NULL_PIPE || r.id < SLOT_COUNT)
    decreases |sleeps|
  {
    if now - start <= 30 && Pool.Take(p).Busy? && sleeps != [] {
      assert RealEvents(sleeps[0].events);
      EventsKeepIdsReal(p, sleeps[0].events);
      GrantIsReal(Pool.ApplyAll(p, sleeps[0].events), start, sleeps[0].now, sleeps[1..]);
    }
  }

  function Granted(p: Pool.Pool, w: World): (r: Pool.Next)
    requires RealIds(p) && RealWorld(w)
    ensures r.id == Pool.NULL_PIPE || r.id < SLOT_COUNT
    ensures RealIds(r.pool)
  {
    GrantIsReal(p, w.start, w.now, w.sleeps);
    Pool.GetNext(p, w.start, w.now, w.sleeps)
  }

  /** The request with its 40-byte record goes in whole. */
  predicate Written(path: seq<byte>, w: World) {
    w.haveMemory && Wire.Transferred(40 + |path|, w.writes) == 40 + |path|
  }

  /** The pool when an operation returns. */
  function PoolAfter(op: Pool.Op, p: Pool.Pool, w: World, written: bool): Pool.Pool
    requires RealIds(p) && RealWorld(w)
  {
    EndOf(op, Granted(p, w), w.meanwhile, written)
  }

  function EndOf(op: Pool.Op, g: Pool.Next, meanwhile: seq<Pool.PoolEvent>, written: bool): Pool.Pool {
    if g.id == Pool.NULL_PIPE || (!written && Pool.KeepsIdOnFailure(op)) then g.pool
    else Pool.Give(Pool.ApplyAll(g.pool, meanwhile), g.id)
  }

  /** The id is the next that the pool hands out. */
  predicate GivenBack(p: Pool.Pool, id: nat) {
    p.free != [] && p.free[0] == id
  }

  /** No free id occurs twice or is still to be issued, as in every pool that SlotPool.OneProcess speaks of. */
  predicate NoRepeats(p: Pool.Pool) {
    && (forall i, j :: 0 <= i < j < |p.free| ==> p.free[i] != p.free[j])
    && (forall i :: 0 <= i < |p.free| ==> p.free[i] < p.txNum)
  }

  lemma PoolsHaveNoRepeats(party: nat, acts: seq<Pool.Action>)
    requires party <= 1
    ensures NoRepeats(Pool.Run(Pool.Start(party), acts).pool)
  {
    Pool.OneProcess(party, acts);
    var l := Pool.Run(Pool.Start(party), acts);
    forall i | 0 <= i < |l.pool.free| ensures l.pool.free[i] < l.pool.txNum {
      assert Pool.Issued(l, l.pool.free[i]);
    }
  }

  /** The pool after what others do during the sleeps of a call. */
  function PoolWhenGranted(p: Pool.Pool, w: World): Pool.Pool {
    Pool.ApplyAll(p, Pool.EventsOf(w.sleeps[..Pool.SleepsUsed(p, w.start, w.now, w.sleeps)]))
  }

  lemma GrantedIsTaken(p: Pool.Pool, w: World)
    requires RealIds(p) && RealWorld(w) && Granted(p, w).id != 21
    ensures NoRepeats(PoolWhenGranted(p, w)) ==> Granted(p, w).id !in Granted(p, w).pool.free
  {
    Pool.GetNextGrantsOrGivesUp(p, w.start, w.now, w.sleeps);
    var q := PoolWhenGranted(p, w);
    if NoRepeats(q) && q.free != [] {
      assert forall i :: 0 <= i < |q.free[1..]| ==> q.free[1..][i] == q.free[i + 1];
    }
  }

  // ----- The request and the reply

  /** Behind what was in the pipe there is one whole request. */
  predicate Requested(before: seq<byte>, after: seq<byte>, id: nat, path: seq<byte>, offset: int, length: int,
                      command: int) {
    before <= after && Wire.Asks(after[|before|..], id, path, offset, length, command)
  }

  /** There is less than one. */
  ghost predicate RequestedInPart(before: seq<byte>, after: seq<byte>, id: nat, path: seq<byte>, offset: int,
                                  length: int, command: int) {
    && before <= after && Wire.ParseFrame(after[|before|..]) == Wire.Incomplete
    && exists bs :: Wire.Asks(bs, id, path, offset, length, command) && after[|before|..] < bs
  }

  datatype Traffic = WholeRequest | PartOfRequest | SomethingElse

  /** What went into the pipe. */
  ghost function Wrote(before: seq<byte>, after: seq<byte>, id: nat, path: seq<byte>, offset: int, length: int,
                       command: int): Traffic {
    if Requested(before, after, id, path, offset, length, command) then WholeRequest
    else if RequestedInPart(before, after, id, path, offset, length, command) then PartOfRequest
    else SomethingElse
  }

  /** What an operation puts there. */
  function Outgoing(path: seq<byte>, w: World): Traffic {
    if Written(path, w) then WholeRequest else PartOfRequest
  }

  lemma FrameIsRequested(before: seq<byte>, n: nat, id: nat, path: seq<byte>, offset: int64, length: int32,
                         command: int32)
    requires id < 0x8000_0000 && |path| < 0x7fff_0000
    ensures var f := Wire.Frame(Wire.NewRequest(id, path, offset, length, command));
            && |f| == 40 + |path|
            && Wrote(before, before + f, id, path, offset, length, command) == WholeRequest
            && (n < |f| ==> Wrote(before, before + f[..n], id, path, offset, length, command) == PartOfRequest)
  {
    var q := Wire.NewRequest(id, path, offset, length, command);
    var f := Wire.Frame(q);
    Wire.RequestAsks(id, path, offset, length, command);
    assert (before + f)[|before|..] == f;
    if n < |f| {
      assert (before + f[..n])[|before|..] == f[..n] < f;
      Wire.PartialFrameIsIncomplete(q, n);
    }
  }

  /** An operation's slot when it first looks for its reply: reset, and then whatever was done to it since the
      request went out. */
  function Heard(slot: Slot, w: World): (h: History)
    requires |slot.buffer| == BUFFER_SIZE
    ensures WellFormed(h.slot)
  {
    Run(History(Reset(slot), [], []), w.prompt)
  }

  /** What one `memslot_receive_fully` then gathers. */
  function Reply(slot: Slot, max: int, w: World): Gathered
    requires |slot.buffer| == BUFFER_SIZE
  {
    ReceiveFully(Heard(slot, w), max, w.events)
  }

  // ----- getattr

  /** `struct blkfs_stat`. */
  datatype Status = Status(size: int64, kind: int64, ts: int64)

  const STAT_SIZE: nat := 24

  function EncodeStatus(s: Status): (bs: seq<byte>)
    ensures |bs| == STAT_SIZE
  {
    Encode(s.size, 8) + Encode(s.kind, 8) + Encode(s.ts, 8)
  }

  function DecodeStatus(bs: seq<byte>): Status
    requires |bs| == STAT_SIZE
  {
    Status(Wire.Int64At(bs, 0), Wire.Int64At(bs, 8), Wire.Int64At(bs, 16))
  }

  lemma StatusRoundTrip(s: Status)
    ensures DecodeStatus(EncodeStatus(s)) == s
  {
    var bs := EncodeStatus(s);
    assert bs[0..8] == Encode(s.size, 8);
    assert bs[8..16] == Encode(s.kind, 8);
    assert bs[16..24] == Encode(s.ts, 8);
    Wire.IntRoundTrip(s.size, 8);
    Wire.IntRoundTrip(s.kind, 8);
    Wire.IntRoundTrip(s.ts, 8);
  }

  datatype Kind = Regular | Directory | Symlink

  /** The caller's `struct stat`: left alone, or set to zero, or filled in. */
  datatype Stat = Untouched | Cleared | Filled(kind: Kind, permissions: int, nlink: int, size: int, mtime: int)

  const PERMISSIONS_0444 := 0x124
  const PERMISSIONS_0555 := 0x16D

  datatype Attributes = Attributes(rez: int, stat: Stat)

  /** Where each field is. */
  lemma StatusLayout(s: Status)
    ensures var bs := EncodeStatus(s);
            |bs| == 24 && Holds64(bs, 0, s.size) && Holds64(bs, 8, s.kind) && Holds64(bs, 16, s.ts)
  {
    var bs := EncodeStatus(s);
    assert bs[0..8] == Encode(s.size, 8);
    assert bs[8..16] == Encode(s.kind, 8);
    assert bs[16..24] == Encode(s.ts, 8);
    EncodedInEight(bs, 0, s.size);
    EncodedInEight(bs, 8, s.kind);
    EncodedInEight(bs, 16, s.ts);
  }

  function AttributesOf(s: Status): Attributes {
    if s.kind == -1 then Attributes(-ENOENT, Untouched)
    else if s.kind == 0 then Attributes(0, Filled(Regular, PERMISSIONS_0444, 1, s.size, s.ts))
    else if s.kind == 1 then Attributes(0, Filled(Directory, PERMISSIONS_0555, 2, 4096, s.ts))
    else if s.kind == 2 then Attributes(0, Filled(Symlink, PERMISSIONS_0555, 1, s.size, s.ts))
    else Attributes(-EPIPE, Cleared)
  }

  /** A failed receive sets `errno` to EPIPE; a short reply is an error too. */
  function AttributesFrom(c: Client): Attributes
    requires |c.got| <= STAT_SIZE
  {
    if ReturnCode(c) != STAT_SIZE then Attributes(-EPIPE, Untouched) else AttributesOf(DecodeStatus(c.got))
  }

  predicate IsKnown(kind: int64) {
    kind == 0 || kind == 1 || kind == 2
  }

  /** Nobody may write: the three write bits of the permissions are clear. */
  predicate IsReadOnly(permissions: int) {
    permissions / 0x80 % 2 == 0 && permissions / 0x10 % 2 == 0 && permissions / 0x2 % 2 == 0
  }

  /** What a caller can tell from the outcome: success means that a whole status of a known kind arrived, ENOENT
      that the responder said so, and EPIPE everything else; and the caller's structure is filled in exactly on
      success, for reading only, and cleared exactly for an unknown kind. */
  lemma GetattrOutcomes(c: Client)
    requires |c.got| <= STAT_SIZE
    ensures var a, whole := AttributesFrom(c), ReturnCode(c) == STAT_SIZE;
            && (a.rez == 0 <==> whole && IsKnown(DecodeStatus(c.got).kind))
            && (a.rez == -2 <==> whole && DecodeStatus(c.got).kind == -1)
            && (a.rez == 0 || a.rez == -2 || a.rez == -32)
            && (a.stat.Filled? <==> a.rez == 0)
            && (a.stat.Cleared? <==> whole && DecodeStatus(c.got).kind != -1 && !IsKnown(DecodeStatus(c.got).kind))
            && (a.stat.Filled? ==> IsReadOnly(a.stat.permissions) && a.stat.mtime == DecodeStatus(c.got).ts)
  {}

  /** The attributes give back the status they were made from, but for the size of a directory. */
  lemma AttributesTellStatus(s: Status, t: Status)
    requires AttributesOf(s) == AttributesOf(t) && AttributesOf(s).rez == 0
    ensures s.kind == t.kind && s.ts == t.ts && (s.kind != 1 ==> s.size == t.size)
  {}

  // ----- readlink

  /** What is copied to the caller's buffer. */
  function Terminated(c: Client): seq<byte> {
    if ReturnCode(c) > 0 then c.got + [0] else c.got
  }

  class Filesystem {
    const pool: Pool.SharedPool
    const slots: Memory.SharedSlots
    const control: Wire.Control

    constructor (pool: Pool.SharedPool, slots: Memory.SharedSlots, control: Wire.Control)
      ensures this.pool == pool && this.slots == slots && this.control == control
    {
      this.pool := pool;
      this.slots := slots;
      this.control := control;
    }

    ghost predicate Ready(path: seq<byte>, w: World)
      reads pool
    {
      slots.Valid() && RealIds(pool.View()) && RealWorld(w) && |path| < 0x7fff_0000
    }

    method WriteRequest(txNum: nat, path: seq<byte>, offset: int64, length: int32, command: int32, w: World)
      returns (retVal: int)
      requires txNum < SLOT_COUNT && |path| < 0x7fff_0000
      modifies control
      ensures retVal == if Written(path, w) then 0 else -1
      ensures Wrote(old(control.content), control.content, txNum, path, offset, length, command) == Outgoing(path, w)
    {
      var q := Wire.NewRequest(txNum, path, offset, length, command);
      ghost var before := control.content;
      retVal := control.WriteMessage(q, w.haveMemory, w.writes);
      FrameIsRequested(before, 0, txNum, path, offset, length, command);
      if retVal != 0 {
        ghost var n: nat :| n < |Wire.Frame(q)| && control.content == before + Wire.Frame(q)[..n];
        FrameIsRequested(before, n, txNum, path, offset, length, command);
      }
    }

    /** The request goes out, and from then on the responder may act on the slot. */
    method SendRequest(txNum: nat, path: seq<byte>, offset: int64, length: int32, command: int32, w: World,
                       ghost h: History) returns (retVal: int)
      requires slots.Valid() && txNum < SLOT_COUNT && |path| < 0x7fff_0000
      requires WellFormed(slots.View(txNum)) && h.slot == slots.View(txNum)
      modifies control, slots.mem, slots.headers, slots.cursors
      ensures retVal == if Written(path, w) then 0 else -1
      ensures Wrote(old(control.content), control.content, txNum, path, offset, length, command) == Outgoing(path, w)
      ensures slots.View(txNum) == Run(h, w.prompt).slot
      ensures forall j: nat :: j < SLOT_COUNT && j != txNum ==> slots.View(j) == old(slots.View(j))
    {
      retVal := WriteRequest(txNum, path, offset, length, command, w);
      slots.PeersAct(txNum, w.prompt, h);
    }

    /** How every operation begins: an id, a reset of its slot, then the request. */
    method Ask(path: seq<byte>, offset: int64, length: int32, command: int32, w: World)
      returns (txNum: nat, retVal: int, ghost h: History)
      requires Ready(path, w)
      modifies pool, control, slots.mem, slots.headers, slots.cursors
      ensures Pool.Next(txNum, pool.View()) == Granted(old(pool.View()), w)
      ensures txNum == 21 ==>
                control.content == old(control.content)
                && forall j: nat :: j < SLOT_COUNT ==> slots.View(j) == old(slots.View(j))
      ensures txNum != 21 ==>
                && txNum < SLOT_COUNT && h == Heard(old(slots.View(txNum)), w) && slots.View(txNum) == h.slot
                && retVal == (if Written(path, w) then 0 else -1)
                && Wrote(old(control.content), control.content, txNum, path, offset, length, command)
                   == Outgoing(path, w)
                && forall j: nat :: j < SLOT_COUNT && j != txNum ==> slots.View(j) == old(slots.View(j))
    {
      txNum := pool.GetNextDatafile(w.start, w.now, w.sleeps);
      retVal := 0;
      h := History(Zeroed(), [], []);
      ghost var g := Granted(old(pool.View()), w);
      if txNum == Pool.NULL_PIPE {
        return;
      }
      h := Heard(slots.View(txNum), w);
      slots.PreReceive(txNum);
      retVal := SendRequest(txNum, path, offset, length, command, w, History(slots.View(txNum), [], []));
    }

    /** The reply, while other threads use the pool. */
    method Receive(txNum: nat, dest: array<byte>, max: int, w: World, ghost h: History)
      returns (retVal: int, ghost r: Gathered)
      requires slots.Valid() && txNum < SLOT_COUNT && WellFormed(slots.View(txNum)) && h.slot == slots.View(txNum)
      requires max <= dest.Length && dest != slots.mem
      modifies pool, slots.mem, slots.headers, slots.cursors, dest
      ensures r == SlotCalls.ReceiveFully(h, max, w.events)
      ensures slots.View(txNum) == r.h.slot && retVal == ReturnCode(r.client)
      ensures |r.client.got| <= dest.Length && dest[..] == r.client.got + old(dest[..])[|r.client.got|..]
      ensures pool.View() == Pool.ApplyAll(old(pool.View()), w.meanwhile)
      ensures forall j: nat :: j < SLOT_COUNT && j != txNum ==> slots.View(j) == old(slots.View(j))
    {
      ghost var rest;
      retVal, rest, r := slots.ReceiveFully(txNum, dest, max, w.events, w.clock, h);
      pool.OthersAct(w.meanwhile);
    }

    /** `blkfs_do_read`. */
    method DoRead(path: seq<byte>, buf: array<byte>, size: nat, offset: int64, w: World) returns (rez: int)
      requires Ready(path, w) && size <= buf.Length && buf != slots.mem
      modifies pool, control, slots.mem, slots.headers, slots.cursors, buf
      ensures var id := Granted(old(pool.View()), w).id;
              if id == 21 then
                && rez == -16 && buf[..] == old(buf[..]) && control.content == old(control.content)
                && pool.View() == PoolAfter(Pool.Read, old(pool.View()), w, false)
              else if !Written(path, w) then
                && rez == -32 && buf[..] == old(buf[..]) && slots.View(id) == Heard(old(slots.View(id)), w).slot
                && Wrote(old(control.content), control.content, id, path, offset, ToInt32(size), 0) == PartOfRequest
                && pool.View() == PoolAfter(Pool.Read, old(pool.View()), w, false)
                && (NoRepeats(PoolWhenGranted(old(pool.View()), w)) ==> id !in pool.View().free)
              else
                var r := Reply(old(slots.View(id)), ToInt32(size), w);
                && Wrote(old(control.content), control.content, id, path, offset, ToInt32(size), 0) == WholeRequest
                && rez == ReturnCode(r.client) && slots.View(id) == r.h.slot
                && |r.client.got| <= buf.Length && buf[..] == r.client.got + old(buf[..])[|r.client.got|..]
                && pool.View() == PoolAfter(Pool.Read, old(pool.View()), w, true)
                && GivenBack(pool.View(), id)
      ensures forall j: nat :: j < SLOT_COUNT && j != Granted(old(pool.View()), w).id ==>
                slots.View(j) == old(slots.View(j))
    {
      ghost var p := pool.View();
      ghost var h, r;
      var txNum, retVal;
      txNum, retVal, h := Ask(path, offset, ToInt32(size), Wire.COMMAND_DATA, w);
      if txNum == Pool.NULL_PIPE {
        return -EBUSY;
      }
      if retVal == -1 {
        GrantedIsTaken(p, w);
        return -EPIPE;
      }
      retVal, r := Receive(txNum, buf, ToInt32(size), w, h);
      pool.Unlink(txNum);
      return retVal;
    }

    method ReceiveStatus(txNum: nat, w: World, ghost h: History) returns (retVal: int, myStat: seq<byte>)
      requires slots.Valid() && txNum < SLOT_COUNT && WellFormed(slots.View(txNum)) && h.slot == slots.View(txNum)
      modifies pool, slots.mem, slots.headers, slots.cursors
      ensures var r := SlotCalls.ReceiveFully(h, STAT_SIZE, w.events);
              && slots.View(txNum) == r.h.slot && retVal == ReturnCode(r.client) && |myStat| == STAT_SIZE
              && (retVal == STAT_SIZE ==> myStat == r.client.got)
      ensures pool.View() == Pool.ApplyAll(old(pool.View()), w.meanwhile)
      ensures forall j: nat :: j < SLOT_COUNT && j != txNum ==> slots.View(j) == old(slots.View(j))
    {
      var field := new byte[STAT_SIZE];
      ghost var r;
      retVal, r := Receive(txNum, field, STAT_SIZE, w, h);
      myStat := field[..];
    }

    /** What `blkfs_getattr` makes of the reply. */
    method Interpret(retVal: int, myStat: seq<byte>) returns (a: Attributes)
      requires |myStat| == STAT_SIZE
      ensures a == if retVal == STAT_SIZE then AttributesOf(DecodeStatus(myStat)) else Attributes(-EPIPE, Untouched)
    {
      if retVal == -1 {
        return Attributes(-EPIPE, Untouched);
      }
      if retVal == 0 {
        return Attributes(-EPIPE, Untouched);
      }
      if retVal != STAT_SIZE {
        return Attributes(-EPIPE, Untouched);
      }
      var stat := DecodeStatus(myStat);
      if stat.kind == -1 {
        return Attributes(-ENOENT, Untouched);
      }
      if stat.kind == 0 {
        return Attributes(0, Filled(Regular, PERMISSIONS_0444, 1, stat.size, stat.ts));
      } else if stat.kind == 1 {
        return Attributes(0, Filled(Directory, PERMISSIONS_0555, 2, 4096, stat.ts));
      } else if stat.kind == 2 {
        return Attributes(0, Filled(Symlink, PERMISSIONS_0555, 1, stat.size, stat.ts));
      }
      return Attributes(-EPIPE, Cleared);
    }

    /** `blkfs_getattr` of an unmapped path. */
    method Getattr(path: seq<byte>, w: World) returns (a: Attributes)
      requires Ready(path, w)
      modifies pool, control, slots.mem, slots.headers, slots.cursors
      ensures var id := Granted(old(pool.View()), w).id;
              if id == 21 then
                && a == Attributes(-16, Untouched) && control.content == old(control.content)
                && pool.View() == PoolAfter(Pool.Getattr, old(pool.View()), w, false)
              else if !Written(path, w) then
                && a == Attributes(-w.errno, Untouched) && slots.View(id) == Heard(old(slots.View(id)), w).slot
                && Wrote(old(control.content), control.content, id, path, 0, 0, 1) == PartOfRequest
                && pool.View() == PoolAfter(Pool.Getattr, old(pool.View()), w, false)
                && (NoRepeats(PoolWhenGranted(old(pool.View()), w)) ==> id !in pool.View().free)
              else
                var r := Reply(old(slots.View(id)), 24, w);
                && Wrote(old(control.content), control.content, id, path, 0, 0, 1) == WholeRequest
                && a == AttributesFrom(r.client) && slots.View(id) == r.h.slot
                && pool.View() == PoolAfter(Pool.Getattr, old(pool.View()), w, true)
                && GivenBack(pool.View(), id)
      ensures forall j: nat :: j < SLOT_COUNT && j != Granted(old(pool.View()), w).id ==>
                slots.View(j) == old(slots.View(j))
    {
      ghost var p := pool.View();
      ghost var h;
      var txNum, retVal;
      txNum, retVal, h := Ask(path, 0, 0, Wire.COMMAND_ATTR, w);
      if txNum == Pool.NULL_PIPE {
        return Attributes(-EBUSY, Untouched);
      }
      if retVal == -1 {
        GrantedIsTaken(p, w);
        return Attributes(-w.errno, Untouched);
      }
      var myStat;
      retVal, myStat := ReceiveStatus(txNum, w, h);
      pool.Unlink(txNum);
      a := Interpret(retVal, myStat);
    }

    /** `blkfs_readlink` of an unmapped path. */
    method Readlink(path: seq<byte>, dest: array<byte>, size: nat, w: World) returns (rez: int)
      requires Ready(path, w) && size <= dest.Length && dest != slots.mem
      modifies pool, control, slots.mem, slots.headers, slots.cursors, dest
      ensures var id := Granted(old(pool.View()), w).id;
              if id == 21 then
                && rez == -16 && dest[..] == old(dest[..]) && control.content == old(control.content)
                && pool.View() == PoolAfter(Pool.Readlink, old(pool.View()), w, false)
              else if !Written(path, w) then
                && rez == -w.errno && dest[..] == old(dest[..])
                && slots.View(id) == Heard(old(slots.View(id)), w).slot
                && Wrote(old(control.content), control.content, id, path, 0, 0, 3) == PartOfRequest
                && pool.View() == PoolAfter(Pool.Readlink, old(pool.View()), w, false)
                && GivenBack(pool.View(), id)
              else
                var r := Reply(old(slots.View(id)), ToInt32(size - 1), w);
                var copied := Terminated(r.client);
                && Wrote(old(control.content), control.content, id, path, 0, 0, 3) == WholeRequest
                && rez == (if ReturnCode(r.client) < 0 then -1 else 0) && slots.View(id) == r.h.slot
                && |copied| <= dest.Length && dest[..] == copied + old(dest[..])[|copied|..]
                && pool.View() == PoolAfter(Pool.Readlink, old(pool.View()), w, true)
                && GivenBack(pool.View(), id)
      ensures forall j: nat :: j < SLOT_COUNT && j != Granted(old(pool.View()), w).id ==>
                slots.View(j) == old(slots.View(j))
    {
      ghost var h;
      var txNum, retVal;
      txNum, retVal, h := Ask(path, 0, 0, Wire.COMMAND_FOLLOW_LINK, w);
      if txNum == Pool.NULL_PIPE {
        return -EBUSY;
      }
      if retVal == -1 {
        Abandon(txNum, w);
        return -w.errno;
      }
      rez := ReceiveLink(txNum, dest, size, w, h);
    }

    /** The id is given back though the request was not written. */
    method Abandon(txNum: nat, w: World)
      modifies pool
      ensures pool.View() == Pool.Give(Pool.ApplyAll(old(pool.View()), w.meanwhile), txNum)
    {
      pool.OthersAct(w.meanwhile);
      pool.Unlink(txNum);
    }

    /** The target, cut to what the caller has room for, and a NUL behind it; then the id is given back. */
    method ReceiveLink(txNum: nat, dest: array<byte>, size: nat, w: World, ghost h: History) returns (retVal: int)
      requires slots.Valid() && txNum < SLOT_COUNT && WellFormed(slots.View(txNum)) && h.slot == slots.View(txNum)
      requires size <= dest.Length && dest != slots.mem
      modifies pool, slots.mem, slots.headers, slots.cursors, dest
      ensures var r := SlotCalls.ReceiveFully(h, ToInt32(size - 1), w.events);
              var copied := Terminated(r.client);
              && slots.View(txNum) == r.h.slot
              && retVal == (if ReturnCode(r.client) < 0 then -1 else 0)
              && |copied| <= dest.Length && dest[..] == copied + old(dest[..])[|copied|..]
      ensures pool.View() == Pool.Give(Pool.ApplyAll(old(pool.View()), w.meanwhile), txNum)
      ensures forall j: nat :: j < SLOT_COUNT && j != txNum ==> slots.View(j) == old(slots.View(j))
    {
      ghost var r;
      retVal, r := Receive(txNum, dest, ToInt32(size - 1), w, h);
      if retVal > 0 {
        dest[retVal] := 0;
        retVal := 0;
      }
      pool.Unlink(txNum);
    }

    /** The name, into memory for `payload` bytes and a NUL. */
    method ReadName(txNum: nat, payload: int, events: seq<Event>, clock: Clock, ghost h: History)
      returns (entry: Listing.Entry, rest: seq<Event>, ghost g: History)
      requires slots.Valid() && txNum < SLOT_COUNT && WellFormed(slots.View(txNum)) && h.slot == slots.View(txNum)
      requires -1 <= payload
      modifies slots.mem, slots.headers, slots.cursors
      ensures Listing.ReadName(h, payload, events) == Listing.Step(entry, g, rest) && g.slot == slots.View(txNum)
      ensures forall j: nat :: j < SLOT_COUNT && j != txNum ==> slots.View(j) == old(slots.View(j))
    {
      var dest := new byte[payload + 1];
      var retVal;
      ghost var r;
      retVal, rest, r := slots.ReceiveFully(txNum, dest, payload, events, clock, h);
      g := r.h;
      if retVal < 1 {
        return (if retVal < 0 then Listing.Error else Listing.End), rest, g;
      }
      assert dest[..retVal] == r.client.got;
      return Listing.Name(Listing.AsText(dest[..retVal], payload)), rest, g;
    }

    /** `blkfs_read_var_pipe_entry_string`. */
    method ReadEntryString(txNum: nat, events: seq<Event>, clock: Clock, ghost h: History)
      returns (entry: Listing.Entry, rest: seq<Event>, ghost g: History)
      requires slots.Valid() && txNum < SLOT_COUNT && WellFormed(slots.View(txNum)) && h.slot == slots.View(txNum)
      modifies slots.mem, slots.headers, slots.cursors
      ensures Listing.ReadEntry(h, events) == Listing.Step(entry, g, rest) && g.slot == slots.View(txNum)
      ensures forall j: nat :: j < SLOT_COUNT && j != txNum ==> slots.View(j) == old(slots.View(j))
    {
      var field := new byte[4];
      var retVal;
      ghost var r;
      retVal, rest, r := slots.ReceiveFully(txNum, field, 4, events, clock, h);
      g := r.h;
      if retVal == 4 {
        assert field[..] == r.client.got;
        var payload := Signed(field[..]);
        if payload > Listing.STRING_MAX_LEN {
          return Listing.Error, rest, g;
        }
        if payload == 0 {
          return Listing.End, rest, g;
        }
        if payload < -1 {
          return Listing.Error, rest, g;
        }
        entry, rest, g := ReadName(txNum, payload, rest, clock, g);
        return;
      } else if retVal == -1 {
        return Listing.Error, rest, g;
      }
      return (if retVal == 0 then Listing.End else Listing.NullName), rest, g;
    }

    /** The loop of `blkfs_readdir`. `accepts` says which names the kernel's filler takes. */
    method ReadList(txNum: nat, accepts: nat -> bool, events: seq<Event>, clock: Clock, ghost h: History)
      returns (names: seq<Listing.Text>, ending: Listing.Ending, ghost rest: seq<Event>, ghost g: History)
      requires slots.Valid() && txNum < SLOT_COUNT && WellFormed(slots.View(txNum)) && h.slot == slots.View(txNum)
      modifies slots.mem, slots.headers, slots.cursors
      ensures Listing.ReadNames(h, events, accepts, 0) == Listing.Listed(names, ending, g, rest)
      ensures g.slot == slots.View(txNum)
      ensures forall j: nat :: j < SLOT_COUNT && j != txNum ==> slots.View(j) == old(slots.View(j))
    {
      names := [];
      g, rest := h, events;
      var left := events;
      ghost var all := Listing.ReadNames(h, events, accepts, 0);
      Listing.NothingRead(h, events, accepts);
      while true
        invariant WellFormed(slots.View(txNum)) && g.slot == slots.View(txNum) && rest == left
        invariant Listing.Continues(all, g, left, accepts, names)
        invariant forall j: nat :: j < SLOT_COUNT && j != txNum ==> slots.View(j) == old(slots.View(j))
        decreases Listing.Potential(g, left)
      {
        ghost var before, script := g, left;
        var entry;
        entry, left, g := ReadEntryString(txNum, left, clock, g);
        Listing.OneMoreEntry(all, before, script, accepts, names, Listing.Step(entry, g, left));
        rest := left;
        match entry {
          case End => return names, Listing.Completed, rest, g;
          case Error => return names, Listing.Broken, rest, g;
          case NullName => return names, Listing.Undefined, rest, g;
          case Name(text) =>
            if !accepts(|names|) {
              return names, Listing.Broken, rest, g;
            }
            names := names + [text];
        }
      }
    }

    /** The names, while other threads use the pool. */
    method ReceiveList(txNum: nat, accepts: nat -> bool, w: World, ghost h: History)
      returns (names: seq<Listing.Text>, ending: Listing.Ending, ghost l: Listing.Listed)
      requires slots.Valid() && txNum < SLOT_COUNT && WellFormed(slots.View(txNum)) && h.slot == slots.View(txNum)
      modifies pool, slots.mem, slots.headers, slots.cursors
      ensures l == Listing.ReadNames(h, w.events, accepts, 0) && names == l.names && ending == l.ending
      ensures slots.View(txNum) == l.h.slot
      ensures pool.View() == Pool.ApplyAll(old(pool.View()), w.meanwhile)
      ensures forall j: nat :: j < SLOT_COUNT && j != txNum ==> slots.View(j) == old(slots.View(j))
    {
      ghost var rest, g;
      names, ending, rest, g := ReadList(txNum, accepts, w.events, w.clock, h);
      l := Listing.Listed(names, ending, g, rest);
      pool.OthersAct(w.meanwhile);
    }

    /** `blkfs_readdir` of an unmapped path. `offered` is everything the filler is given and does not refuse
        before the last two. A null name crashes the process, with the id still taken. */
    method Readdir(path: seq<byte>, accepts: nat -> bool, w: World)
      returns (rez: int, offered: seq<Listing.Text>, crashed: bool)
      requires Ready(path, w)
      modifies pool, control, slots.mem, slots.headers, slots.cursors
      ensures var id := Granted(old(pool.View()), w).id;
              if id == 21 then
                && rez == -16 && offered == [] && !crashed && control.content == old(control.content)
                && pool.View() == PoolAfter(Pool.Readdir, old(pool.View()), w, false)
              else if !Written(path, w) then
                && rez == -w.errno && offered == [] && !crashed
                && slots.View(id) == Heard(old(slots.View(id)), w).slot
                && Wrote(old(control.content), control.content, id, path, 0, 0, 2) == PartOfRequest
                && pool.View() == PoolAfter(Pool.Readdir, old(pool.View()), w, false)
                && GivenBack(pool.View(), id)
              else
                var l := Listing.ReadNames(Heard(old(slots.View(id)), w), w.events, accepts, 0);
                && Wrote(old(control.content), control.content, id, path, 0, 0, 2) == WholeRequest
                && slots.View(id) == l.h.slot
                && (crashed <==> l.ending == Listing.Undefined)
                && (!crashed ==>
                      && offered == Listing.Filled(l.names)
                      && rez == (if l.ending == Listing.Completed then 0 else -w.errno)
                      && pool.View() == PoolAfter(Pool.Readdir, old(pool.View()), w, true)
                      && GivenBack(pool.View(), id))
      ensures forall j: nat :: j < SLOT_COUNT && j != Granted(old(pool.View()), w).id ==>
                slots.View(j) == old(slots.View(j))
    {
      crashed, offered := false, [];
      ghost var h, l;
      var txNum, retVal;
      txNum, retVal, h := Ask(path, 0, 0, Wire.COMMAND_LIST, w);
      if txNum == Pool.NULL_PIPE {
        return -EBUSY, [], false;
      }
      if retVal == -1 {
        Abandon(txNum, w);
        return -w.errno, [], false;
      }
      var names, ending;
      names, ending, l := ReceiveList(txNum, accepts, w, h);
      if ending == Listing.Undefined {
        return 0, names, true;
      }
      pool.Unlink(txNum);
      offered := names;
      if |names| > 0 {
        offered := offered + [Listing.DOT, Listing.DOT_DOT];
      }
      if ending == Listing.Broken {
        return -w.errno, offered, false;
      }
      return 0, offered, false;
    }
  }

  // ----- What the operations amount to

  /** The operations are the ledger's actions. Others act while the caller sleeps for an id, and again until it
      gives the id back; then the operation changes the pool exactly as beginning and ending, or failing, does
      in the process's accounts, and not at all when it gets no id. So SlotPool.LedgerAccounts and
      SlotPool.SlotsAreExclusive speak of the operations. */
  lemma OperationIsLedgered(l: Pool.Ledger, t: nat, op: Pool.Op, w: World, written: bool,
                            before: seq<Pool.Action>, acts: seq<Pool.Action>)
    requires RealIds(l.pool) && RealWorld(w) && t !in l.held
    requires forall i :: 0 <= i < |before| ==> before[i].thread != t
    requires forall i :: 0 <= i < |acts| ==> acts[i].thread != t
    requires Pool.EventsOf(w.sleeps[..Pool.SleepsUsed(l.pool, w.start, w.now, w.sleeps)]) == Pool.Effects(l, before)
    requires w.meanwhile == Pool.Effects(Pool.Act(Pool.Run(l, before), Pool.Begin(t, op)), acts)
    ensures var m := Pool.Run(l, before);
            var begun := Pool.Act(m, Pool.Begin(t, op));
            PoolAfter(op, l.pool, w, written)
            == if Granted(l.pool, w).id == Pool.NULL_PIPE then m.pool
               else if written then Pool.Act(Pool.Run(begun, acts), Pool.Finish(t)).pool
               else if op == Pool.Read || op == Pool.Getattr then Pool.Act(begun, Pool.WriteFails(t)).pool
               else Pool.Act(Pool.Run(begun, acts), Pool.WriteFails(t)).pool
    ensures Granted(l.pool, w).id != Pool.NULL_PIPE ==>
              Pool.Act(Pool.Run(l, before), Pool.Begin(t, op)).held
              == Pool.Run(l, before).held[t := Pool.Hold(op, Granted(l.pool, w).id)]
  {
    Pool.GrantInLedger(l, before, t, w.start, w.now, w.sleeps);
    var m := Pool.Run(l, before);
    EventsAreReal(w.sleeps, Pool.SleepsUsed(l.pool, w.start, w.now, w.sleeps));
    EventsKeepIdsReal(l.pool, Pool.Effects(l, before));
    EndsInLedger(m, t, op, w.meanwhile, written, Granted(l.pool, w), acts);
  }

  lemma {:induction false} EventsAreReal(sleeps: seq<Pool.Sleep>, k: nat)
    requires RealSleeps(sleeps) && k <= |sleeps|
    ensures RealEvents(Pool.EventsOf(sleeps[..k]))
  {
    if k > 0 {
      assert sleeps[..k][1..] == sleeps[1..][..k - 1];
      assert RealEvents(sleeps[0].events);
      EventsAreReal(sleeps[1..], k - 1);
    }
  }

  lemma EndsInLedger(m: Pool.Ledger, t: nat, op: Pool.Op, meanwhile: seq<Pool.PoolEvent>, written: bool,
                     g: Pool.Next, acts: seq<Pool.Action>)
    requires RealIds(m.pool) && t !in m.held
    requires Pool.Take(m.pool) == Pool.Granted(g.id, g.pool) || g == Pool.Next(Pool.NULL_PIPE, m.pool)
    requires forall i :: 0 <= i < |acts| ==> acts[i].thread != t
    requires meanwhile == Pool.Effects(Pool.Act(m, Pool.Begin(t, op)), acts)
    ensures var begun := Pool.Act(m, Pool.Begin(t, op));
            && EndOf(op, g, meanwhile, written)
               == (if g.id == Pool.NULL_PIPE then m.pool
                   else if written then Pool.Act(Pool.Run(begun, acts), Pool.Finish(t)).pool
                   else if op == Pool.Read || op == Pool.Getattr then Pool.Act(begun, Pool.WriteFails(t)).pool
                   else Pool.Act(Pool.Run(begun, acts), Pool.WriteFails(t)).pool)
            && (g.id != Pool.NULL_PIPE ==> begun.held == m.held[t := Pool.Hold(op, g.id)])
  {
    if g.id != Pool.NULL_PIPE {
      var begun := Pool.Act(m, Pool.Begin(t, op));
      assert begun.pool == g.pool && begun.held == m.held[t := Pool.Hold(op, g.id)];
      Pool.OthersRun(begun, acts, t);
      var r := Pool.Run(begun, acts);
      assert r.held[t] == Pool.Hold(op, g.id) && r.pool == Pool.ApplyAll(g.pool, meanwhile);
    }
  }

  /** The peer sends `out` and nothing else happens to the slot: the first send may come before the operation looks
      at its slot for the first time. */
  predicate Answered(w: World, out: seq<seq<byte>>) {
    || (w.prompt == [] && w.events == Sends(out))
    || (out != [] && w.prompt == [Send(out[0])] && w.events == Sends(out[1..]))
  }

  lemma HeardPromptly(slot: Slot, w: World)
    requires |slot.buffer| == BUFFER_SIZE
    ensures w.prompt == [] ==> Heard(slot, w) == History(Reset(slot), [], [])
    ensures |w.prompt| == 1 ==> Heard(slot, w) == Step(History(Reset(slot), [], []), w.prompt[0])
  {
    var h := History(Reset(slot), [], []);
    if |w.prompt| == 1 {
      assert Run(h, w.prompt) == Run(Step(h, w.prompt[0]), w.prompt[1..]);
    }
  }

  /** It makes no difference when the first send comes. */
  lemma AnsweredIsReceived(slot: Slot, out: seq<seq<byte>>, max: int, w: World)
    requires |slot.buffer| == BUFFER_SIZE && !slot.terminated && Answered(w, out)
    ensures var h := History(Reset(slot), [], []);
            && Reply(slot, max, w).client == ReceiveFully(h, max, Sends(out)).client
            && (0 < max ==> Reply(slot, max, w) == ReceiveFully(h, max, Sends(out)))
  {
    HeardPromptly(slot, w);
    if w.prompt != [] && 0 < max {
      ImplSends(History(Reset(slot), [], []), Begin(max), out);
    }
  }

  /** A reply sent as the responder's contract says is what `blkfs_do_read` returns, byte for byte. */
  lemma ReadReturnsReply(slot: Slot, reply: seq<byte>, size: nat, w: World)
    requires |slot.buffer| == BUFFER_SIZE && !slot.terminated && |reply| <= size < 0x8000_0000
    requires Answered(w, ReadProtocol.ReplyPlan(reply, size))
    ensures var r := Reply(slot, ToInt32(size), w);
            ReturnCode(r.client) == |reply| && r.client.got == reply
  {
    SmallIsKept(size);
    AnsweredIsReceived(slot, ReadProtocol.ReplyPlan(reply, size), size, w);
    if size > 0 {
      ReceiveFullyDelivers(slot, reply, reply == [] || NeedsMark(|reply|, size), size);
    }
  }

  /** What this module says of a read is a run of the protocol. The call begins with the pool `p`, and in state `s`
      others have made of the pool what they do during its sleeps; requests for other slots may be waiting. From
      there the same reply reaches the caller, and slot and pool are left as `DoRead` leaves them when no other
      thread uses the pool before the id is given back. */
  lemma DoReadIsARun(p: Pool.Pool, s: ReadProtocol.System, t: ReadProtocol.Tid, job: ReadProtocol.Job,
                     reply: seq<byte>, w: World)
    returns (r: ReadProtocol.System)
    requires ReadSafety.Inv(s) && ReadRuns.MayStart(s, t, job) && 0 < job.size && |reply| <= job.size
    requires ReadRuns.Free(s, ReadRuns.Reader(s, t, job).id)
    requires Answered(w, ReadProtocol.ReplyPlan(reply, job.size))
    requires RealIds(p) && RealWorld(w) && Granted(p, w).id != 21 && w.meanwhile == []
    requires s.pools[t.party].pool == PoolWhenGranted(p, w)
    ensures ReadRuns.Leads(s, r, true) && job.serial in r.results
    ensures var id := Granted(p, w).id;
            && id == ReadRuns.Reader(s, t, job).id
            && var call := Reply(s.lanes[id].slot, ToInt32(job.size), w);
            && r.results[job.serial].bytes == call.client.got && ReturnCode(call.client) == |call.client.got|
            && r.lanes[id].slot == call.h.slot
            && r.pools[t.party].pool == PoolAfter(Pool.Read, p, w, true)
  {
    Pool.GetNextGrantsOrGivesUp(p, w.start, w.now, w.sleeps);
    r := ReadRuns.ReadIsARun(s, t, job, reply);
    SmallIsKept(job.size);
    var slot := s.lanes[ReadRuns.Reader(s, t, job).id].slot;
    AnsweredIsReceived(slot, ReadProtocol.ReplyPlan(reply, job.size), job.size, w);
  }

  /** A status record sent whole reaches the caller as the attributes it stands for: a regular file 0444, a directory
      0555 of size 4096 with two links, or a symbolic link 0555; or as ENOENT (2), or for an unknown kind as
      EPIPE (32). */
  lemma GetattrAnswers(slot: Slot, s: Status, w: World)
    requires |slot.buffer| == BUFFER_SIZE && !slot.terminated && Answered(w, Plan(EncodeStatus(s), false))
    ensures var r := Reply(slot, 24, w);
            |r.client.got| <= 24 &&
            var a := AttributesFrom(r.client);
            && (s.kind == 0 ==> a == Attributes(0, Filled(Regular, 0x124, 1, s.size, s.ts)))
            && (s.kind == 1 ==> a == Attributes(0, Filled(Directory, 0x16D, 2, 4096, s.ts)))
            && (s.kind == 2 ==> a == Attributes(0, Filled(Symlink, 0x16D, 1, s.size, s.ts)))
            && (s.kind == -1 ==> a == Attributes(-2, Untouched))
            && (!(-1 <= s.kind <= 2) ==> a == Attributes(-32, Cleared))
  {
    AnsweredIsReceived(slot, Plan(EncodeStatus(s), false), 24, w);
    ReceiveFullyDelivers(slot, EncodeStatus(s), false, 24);
    StatusRoundTrip(s);
    assert EncodeStatus(s)[..24] == EncodeStatus(s);
  }

  /** Any other reply, a shorter one or none, is EPIPE, and the caller's structure is left alone. */
  lemma GetattrFails(slot: Slot, reply: seq<byte>, w: World)
    requires |slot.buffer| == BUFFER_SIZE && !slot.terminated && |reply| < 24
    requires Answered(w, Plan(reply, false)) || Answered(w, Plan(reply, true))
    ensures var r := Reply(slot, 24, w);
            |r.client.got| <= 24 && AttributesFrom(r.client) == Attributes(-32, Untouched)
  {
    forall marked | Answered(w, Plan(reply, marked))
      ensures AttributesFrom(Reply(slot, 24, w).client) == Attributes(-32, Untouched)
    {
      AnsweredIsReceived(slot, Plan(reply, marked), 24, w);
      ReceiveFullyDelivers(slot, reply, marked, 24);
    }
  }

  lemma LinkIsReceived(slot: Slot, target: seq<byte>, marked: bool, max: positive, w: World)
    requires |slot.buffer| == BUFFER_SIZE && !slot.terminated && Answered(w, Plan(target, marked))
    ensures var c := Reply(slot, max, w).client;
            if !marked && NeedsMark(|target|, max) then ReturnCode(c) == -1
            else ReturnCode(c) == Min(|target|, max) && c.got == target[..Min(|target|, max)]
  {
    AnsweredIsReceived(slot, Plan(target, marked), max, w);
    ReceiveFullyDelivers(slot, target, marked, max);
  }

  /** A link's target is copied up to the caller's room and ends in a NUL, unless the responder leaves out the
      zero-length send that a target of whole buffers needs: then the call fails. */
  lemma ReadlinkCopies(slot: Slot, target: seq<byte>, marked: bool, size: nat, w: World)
    requires |slot.buffer| == BUFFER_SIZE && !slot.terminated && target != [] && 1 < size <= 0x8000_0000
    requires Answered(w, Plan(target, marked))
    ensures var r := Reply(slot, ToInt32(size - 1), w);
            if !marked && NeedsMark(|target|, size - 1) then ReturnCode(r.client) == -1
            else Terminated(r.client) == target[..Min(|target|, size - 1)] + [0]
  {
    SmallIsKept(size - 1);
    LinkIsReceived(slot, target, marked, size - 1, w);
  }

  /** Nothing is copied for an empty target, nor when there is no room for more than a NUL. */
  lemma ReadlinkCopiesNothing(slot: Slot, size: nat, w: World)
    requires |slot.buffer| == BUFFER_SIZE && !slot.terminated && size <= 0x8000_0000
    requires size <= 1 || Answered(w, [[]])
    ensures var r := Reply(slot, ToInt32(size - 1), w);
            ReturnCode(r.client) == 0 && Terminated(r.client) == []
  {
    if size > 1 {
      SmallIsKept(size - 1);
      assert Plan([], true) == [[]];
      AnsweredIsReceived(slot, [[]], size - 1, w);
      ReceiveFullyDelivers(slot, [], true, size - 1);
    }
  }

  lemma EntryPromptly(slot: Slot, out: seq<seq<byte>>, accepts: nat -> bool, w: World)
    requires |slot.buffer| == BUFFER_SIZE && !slot.terminated && Answered(w, out)
    ensures Listing.ReadNames(Heard(slot, w), w.events, accepts, 0)
         == Listing.ReadNames(History(Reset(slot), [], []), Sends(out), accepts, 0)
  {
    AnsweredIsReceived(slot, out, 4, w);
    HeardPromptly(slot, w);
    assert Listing.ReadEntry(Heard(slot, w), w.events)
        == Listing.ReadEntry(History(Reset(slot), [], []), Sends(out));
  }

  /** A listing that crosses no buffer boundary in the middle of a field is offered to the kernel name by name, up to
      the first name that the kernel refuses, and the two dot entries after it exactly when a name was taken. The
      call succeeds if and only if no name was refused and the listing has an end: a zero length, or an empty
      send. */
  lemma ReaddirOffers(slot: Slot, names: seq<seq<byte>>, zero: bool, marked: bool, accepts: nat -> bool, k: nat,
                      w: World)
    requires |slot.buffer| == BUFFER_SIZE && !slot.terminated
    requires Listing.GoodNames(names) && Listing.NoStraddle(Listing.Fields(names, zero), 0)
    requires Listing.TakesUpTo(accepts, 0, k, |names|)
    requires Answered(w, Plan(Concat(Listing.Fields(names, zero)), marked))
    ensures var l := Listing.ReadNames(Heard(slot, w), w.events, accepts, 0);
            && l.ending == (if k == |names| && (zero || marked) then Listing.Completed else Listing.Broken)
            && Listing.Filled(l.names)
               == if k == 0 then []
                  else Listing.Whole(names[..k]) + [Listing.Text([46], 0), Listing.Text([46, 46], 0)]
  {
    EntryPromptly(slot, Plan(Concat(Listing.Fields(names, zero)), marked), accepts, w);
    Listing.ListingOutcome(slot, names, zero, marked, accepts, k);
  }
}

/** The mapped file of `fuse/memslot.c`: twenty headers, each followed by its buffer, and the client's
    cursors into those buffers, updated in place. Every method is proved against the functions of
    MemSlot and SlotCalls, and leaves all other slots as they were. */
module SlotMemory {
  import opened Bytes
  import opened MemSlot
  import opened Transfer
  import opened SlotCalls
  import opened WaitClock

  // ----- Layout

  function SlotSize(headerSize: nat): nat {
    headerSize + BUFFER_SIZE
  }

  function MemSize(headerSize: nat): nat {
    SLOT_COUNT * SlotSize(headerSize) + 1
  }

  function SlotBase(headerSize: nat, slot: nat): nat {
    SlotSize(headerSize) * slot
  }

  function BufferBase(headerSize: nat, slot: nat): nat {
    SlotBase(headerSize, slot) + headerSize
  }

  /** The bound that `getSlot` checks. */
  predicate GuardAccepts(slotNo: int) {
    !(slotNo > SLOT_COUNT || slotNo < 0)
  }

  /** Header-plus-buffer regions never overlap. */
  lemma RegionsAreDisjoint(headerSize: nat, i: nat, j: nat)
    requires i < j
    ensures BufferBase(headerSize, i) + 51200 <= SlotBase(headerSize, j)
  {
    var z := SlotSize(headerSize);
    Monotone(z, i + 1, j);
    assert z * (i + 1) == z * i + z;
  }

  /** Of the slot numbers that the guard accepts, exactly those below 20 have their region inside the file. */
  lemma RegionIsInside(headerSize: nat, j: nat)
    requires GuardAccepts(j)
    ensures BufferBase(headerSize, j) + 51200 <= MemSize(headerSize) <==> j < 20
  {
    if j < SLOT_COUNT {
      RegionsAreDisjoint(headerSize, j, SLOT_COUNT);
    }
  }

  lemma Monotone(z: nat, a: nat, b: nat)
    requires a <= b
    ensures z * a <= z * b
  {}

  // ----- Waits

  /** Where the loop of a wait stops: a wait that needs no sleep has left everything alone, and one that fails has met
      a terminated slot or its deadline. */
  lemma WaitStops(h: History, wanted: Flag, script: seq<Event>, g: History, used: nat)
    requires WellFormed(h.slot) && WellFormed(g.slot) && used <= |script|
    requires WaitFor(h, wanted, script) == WaitFor(g, wanted, script[used..])
    requires g.slot.flag == wanted || g.slot.terminated || used == |script|
    ensures WaitFor(h, wanted, script) == Waited(g.slot.flag == wanted, g, script[used..])
    ensures h.slot.flag == wanted || h.slot.terminated ==> g == h && used == 0
  {
    assert WaitFor(g, wanted, script[used..]) == Waited(g.slot.flag == wanted, g, script[used..]);
    if h.slot.flag == wanted || h.slot.terminated {
      assert WaitFor(h, wanted, script) == Waited(h.slot.flag == wanted, h, script);
      assert |script[used..]| == |script|;
    }
  }

  // ----- The mapped file

  /** Two slots in the order of the file. */
  predicate Before(i: int, j: int) {
    0 <= i < j < SLOT_COUNT
  }

  datatype Header = Header(terminated: bool, txNo: int, waiting: Flag, bufLen: int)

  datatype Cursor = Null | At(address: int)

  /** A buffer with `data` written over it at an offset. */
  function Pasted(before: seq<byte>, off: nat, data: seq<byte>): seq<byte>
    requires off + |data| <= |before|
  {
    before[..off] + data + before[off + |data|..]
  }

  lemma PastedInside(before: seq<byte>, base: nat, data: seq<byte>)
    requires |data| <= BUFFER_SIZE && base + BUFFER_SIZE <= |before|
    ensures Pasted(before, base, data)[base..base + BUFFER_SIZE]
         == data + before[base..base + BUFFER_SIZE][|data|..]
  {}

  lemma PastedElsewhere(before: seq<byte>, at: nat, data: seq<byte>, base: nat)
    requires at + |data| <= |before| && base + BUFFER_SIZE <= |before|
    requires at + |data| <= base || base + BUFFER_SIZE <= at
    ensures Pasted(before, at, data)[base..base + BUFFER_SIZE] == before[base..base + BUFFER_SIZE]
  {}

  lemma NothingPasted(before: seq<byte>, off: nat)
    requires off <= |before|
    ensures Pasted(before, off, []) == before
  {}

  /** The slot when `amt` of its pending bytes have been taken. */
  function Consumed(s: Slot, amt: nat): Slot {
    if amt >= s.bufLen then Reset(s)
    else s.(flag := Underread, bufLen := s.bufLen - amt, cursor := s.cursor + amt)
  }

  lemma TakesWindow(s: Slot, max: positive, amt: nat)
    requires WellFormed(s) && s.bufLen > 0 && amt == Min(max, s.bufLen)
    ensures TakeBytes(s, max) == Received(Consumed(s, amt), amt, s.buffer[s.cursor..s.cursor + amt])
  {}

  class SharedSlots {
    const headerSize: nat
    /** `g_buffers`: where each slot's buffer starts. */
    const buffers: seq<nat>
    const mem: array<byte>
    const headers: array<Header>
    const cursors: array<Cursor>

    ghost predicate Valid() {
      && |buffers| == SLOT_COUNT
      && (forall i :: 0 <= i < SLOT_COUNT ==> buffers[i] + BUFFER_SIZE <= mem.Length)
      && (forall i, j {:trigger Before(i, j)} :: Before(i, j) ==> buffers[i] + BUFFER_SIZE <= buffers[j])
      && headers.Length == SLOT_COUNT
      && cursors.Length == SLOT_COUNT
    }

    function CursorOf(slot: nat): int
      requires Valid() && slot < SLOT_COUNT
      reads cursors
    {
      match cursors[slot]
      case Null => -1
      case At(a) => a - buffers[slot]
    }

    /** The bytes of the mapped file. */
    ghost function Image(): seq<byte>
      reads mem
    {
      mem[..]
    }

    /** One slot, read out of the mapped file. */
    ghost function View(slot: nat): (s: Slot)
      requires Valid() && slot < SLOT_COUNT
      reads mem, headers, cursors
      ensures |s.buffer| == BUFFER_SIZE
    {
      var b, h := buffers[slot], headers[slot];
      Slot(h.waiting, h.bufLen, Image()[b..b + BUFFER_SIZE], CursorOf(slot), h.txNo, h.terminated)
    }

    /** The server creates the file: all zeroes. */
    constructor (headerSize: nat)
      ensures Valid() && this.headerSize == headerSize && mem.Length == 20 * (headerSize + 51200) + 1
      ensures |buffers| == 20 && forall i :: 0 <= i < 20 ==> buffers[i] == (headerSize + 51200) * i + headerSize
      ensures fresh(mem) && fresh(headers) && fresh(cursors)
      ensures forall i: nat :: i < 20 ==>
                View(i) == Slot(Sending, 0, seq(51200, _ => 0), -1, 0, false)
    {
      this.headerSize := headerSize;
      forall i: nat, j: nat | i < j
        ensures BufferBase(headerSize, i) + BUFFER_SIZE <= BufferBase(headerSize, j)
      {
        RegionsAreDisjoint(headerSize, i, j);
      }
      forall i: nat | i < SLOT_COUNT
        ensures BufferBase(headerSize, i) + BUFFER_SIZE <= MemSize(headerSize)
      {
        RegionIsInside(headerSize, i);
      }
      buffers := seq(SLOT_COUNT, i requires 0 <= i => BufferBase(headerSize, i));
      mem := new byte[MemSize(headerSize)](_ => 0);
      headers := new Header[SLOT_COUNT](_ => Header(false, 0, Sending, 0));
      cursors := new Cursor[SLOT_COUNT](_ => Null);
    }

    // ----- Critical sections

    method PreReceive(slot: nat)
      requires Valid() && slot < SLOT_COUNT
      modifies headers, cursors
      ensures View(slot) == Reset(old(View(slot)))
      ensures forall j: nat :: j < SLOT_COUNT && j != slot ==> View(j) == old(View(j))
    {
      var h := headers[slot];
      headers[slot] := h.(waiting := Waiting, bufLen := -1, txNo := h.txNo + 1);
      cursors[slot] := At(buffers[slot]);
    }

    /** `memcpy` into the mapped file. */
    method StoreBytes(at: nat, data: seq<byte>)
      requires at + |data| <= mem.Length
      modifies mem
      ensures Image() == Pasted(old(Image()), at, data)
    {
      forall k | 0 <= k < |data| {
        mem[at + k] := data[k];
      }
    }

    /** The part of a send after its wait. */
    method CopyIn(slot: nat, data: seq<byte>) returns (len: nat)
      requires Valid() && slot < SLOT_COUNT
      modifies mem, headers
      ensures len == |Chunk(data)|
      ensures View(slot) == StoreChunk(old(View(slot)), data)
      ensures forall j: nat :: j < SLOT_COUNT && j != slot ==> View(j) == old(View(j))
    {
      len := Min(|data|, BUFFER_SIZE);
      var b := buffers[slot];
      ghost var before := Image();
      StoreBytes(b, data[..len]);
      headers[slot] := headers[slot].(bufLen := len, waiting := Sending);
      PastedInside(before, b, data[..len]);
      forall j: nat | j < SLOT_COUNT && j != slot
        ensures View(j) == old(View(j))
      {
        assert Before(slot, j) || Before(j, slot);
        PastedElsewhere(before, b, data[..len], buffers[j]);
      }
    }

    /** `memcpy` out of the mapped file. */
    method CopyBytes(dest: array<byte>, off: nat, from: nat, n: nat)
      requires dest != mem && off + n <= dest.Length && from + n <= mem.Length
      modifies dest
      ensures dest[..] == Pasted(old(dest[..]), off, Image()[from..from + n])
    {
      forall k | 0 <= k < n {
        dest[off + k] := mem[from + k];
      }
    }

    /** What is copied starts at the cursor and stays inside the slot's buffer. */
    method CopyWindow(slot: nat, dest: array<byte>, off: nat, n: positive)
      requires Valid() && slot < SLOT_COUNT && WellFormed(View(slot)) && n <= View(slot).bufLen
      requires dest != mem && off + n <= dest.Length
      modifies dest
      ensures var s := View(slot);
              dest[..] == Pasted(old(dest[..]), off, s.buffer[s.cursor..s.cursor + n])
    {
      SliceOfSlice(Image(), buffers[slot], BUFFER_SIZE, CursorOf(slot), n);
      CopyBytes(dest, off, buffers[slot] + CursorOf(slot), n);
    }

    /** A receive frees the slot, or moves the cursor on in it. */
    method Consume(slot: nat, amt: nat)
      requires Valid() && slot < SLOT_COUNT && WellFormed(View(slot)) && amt <= View(slot).bufLen
      modifies headers, cursors
      ensures View(slot) == Consumed(old(View(slot)), amt)
      ensures forall j: nat :: j < SLOT_COUNT && j != slot ==> View(j) == old(View(j))
    {
      var h := headers[slot];
      if amt >= h.bufLen {
        PreReceive(slot);
      } else {
        headers[slot] := h.(waiting := Underread, bufLen := h.bufLen - amt);
        cursors[slot] := At(buffers[slot] + CursorOf(slot) + amt);
      }
    }

    /** What a receive does when there is something to copy. */
    method MoveOut(slot: nat, dest: array<byte>, off: nat, n: positive)
      requires Valid() && slot < SLOT_COUNT && WellFormed(View(slot)) && n <= View(slot).bufLen
      requires dest != mem && off + n <= dest.Length
      modifies headers, cursors, dest
      ensures View(slot) == Consumed(old(View(slot)), n)
      ensures var s := old(View(slot));
              dest[..] == Pasted(old(dest[..]), off, s.buffer[s.cursor..s.cursor + n])
      ensures forall j: nat :: j < SLOT_COUNT && j != slot ==> View(j) == old(View(j))
    {
      CopyWindow(slot, dest, off, n);
      ghost var copied := dest[..];
      Consume(slot, n);
      assert dest[..] == copied;
    }

    /** The part of a receive after its wait. */
    method CopyOut(slot: nat, dest: array<byte>, off: nat, max: positive) returns (rez: int)
      requires Valid() && slot < SLOT_COUNT
      requires WellFormed(View(slot)) && CanReceive(View(slot))
      requires dest != mem && off + max <= dest.Length
      modifies headers, cursors, dest
      ensures var x := TakeBytes(old(View(slot)), max);
              && rez == x.rez && View(slot) == x.slot
              && |x.data| <= max
              && dest[..] == Pasted(old(dest[..]), off, x.data)
      ensures forall j: nat :: j < SLOT_COUNT && j != slot ==> View(j) == old(View(j))
    {
      var h := headers[slot];
      ghost var s := View(slot);
      rez := 0;
      if h.bufLen > 0 {
        rez := max;
        if rez > h.bufLen {
          rez := h.bufLen;
        }
        TakesWindow(s, max, rez);
        MoveOut(slot, dest, off, rez);
      } else {
        NothingPasted(dest[..], off);
        assert TakeBytes(s, max).slot == s && TakeBytes(s, max).data == [];
        if h.bufLen < 0 {
          rez := -1;
        }
      }
    }

    /** Whatever another process does to the slot while its lock is free. */
    method PeerActs(slot: nat, e: Event)
      requires Valid() && slot < SLOT_COUNT && WellFormed(View(slot))
      modifies mem, headers, cursors
      ensures View(slot) == Apply(old(View(slot)), e)
      ensures forall j: nat :: j < SLOT_COUNT && j != slot ==> View(j) == old(View(j))
    {
      match e
      case PreReceive => PreReceive(slot);
      case Send(data) =>
        if headers[slot].waiting == Waiting {
          var _ := CopyIn(slot, data);
        }
      case Receive(max) =>
        if headers[slot].waiting != Waiting {
          var theirs := new byte[max];
          var _ := CopyOut(slot, theirs, 0, max);
        }
      case Close => headers[slot] := headers[slot].(terminated := true);
      case Nothing =>
    }

    method PeersAct(slot: nat, es: seq<Event>, ghost h: History)
      requires Valid() && slot < SLOT_COUNT && WellFormed(View(slot)) && h.slot == View(slot)
      modifies mem, headers, cursors
      ensures View(slot) == Run(h, es).slot
      ensures forall j: nat :: j < SLOT_COUNT && j != slot ==> View(j) == old(View(j))
    {
      ghost var g := h;
      assert es[0..] == es;
      for i := 0 to |es|
        invariant WellFormed(g.slot) && g.slot == View(slot)
        invariant Run(h, es) == Run(g, es[i..])
        invariant forall j: nat :: j < SLOT_COUNT && j != slot ==> View(j) == old(View(j))
      {
        assert es[i..][1..] == es[i + 1..];
        PeerActs(slot, es[i]);
        g := Step(g, es[i]);
      }
    }

    // ----- Calls

    /** What happens in one sleep of a wait. */
    method SleepOnce(slot: nat, wanted: Flag, e: Event, ghost es: seq<Event>, ghost used: nat, ghost h: History)
      returns (ghost g: History)
      requires Valid() && slot < SLOT_COUNT && WellFormed(View(slot)) && h.slot == View(slot)
      requires used < |es| && e == es[used] && h.slot.flag != wanted && !h.slot.terminated
      modifies mem, headers, cursors
      ensures WellFormed(g.slot) && g.slot == View(slot)
      ensures WaitFor(h, wanted, es[used..]) == WaitFor(g, wanted, es[used + 1..])
      ensures forall j: nat :: j < SLOT_COUNT && j != slot ==> View(j) == old(View(j))
    {
      g := WaitOnce(h, wanted, es, used);
      PeerActs(slot, e);
    }

    /** Sleeps until the flag is `wanted`. The clock reads `start` on entry and `ticks[k].now` before the
        k-th sleep, and past the deadline when the ticks are used up. The result is 1 exactly when the flag
        came to be `wanted` through what happened before the deadline. */
    method WaitOnSlot(slot: nat, wanted: Flag, start: Timespec, ticks: seq<Tick>, ghost h: History)
      returns (rez: int, used: nat, ghost g: History)
      requires Valid() && slot < SLOT_COUNT && WellFormed(View(slot)) && h.slot == View(slot)
      modifies mem, headers, cursors
      ensures (rez == 1 || rez == -1) && g.slot == View(slot) && used <= |InTime(start, ticks)|
      ensures WaitFor(h, wanted, InTime(start, ticks)) == Waited(rez == 1, g, InTime(start, ticks)[used..])
      ensures rez == 1 <==> g.slot.flag == wanted
      ensures h.slot.flag == wanted || h.slot.terminated ==> used == 0 && g == h
      ensures rez == -1 ==> g.slot.terminated || used == |InTime(start, ticks)|
      ensures forall j: nat :: j < SLOT_COUNT && j != slot ==> View(j) == old(View(j))
    {
      used, g := 0, h;
      ghost var es := InTime(start, ticks);
      assert es[used..] == es;
      while headers[slot].waiting != wanted
        invariant used <= |es|
        invariant g.slot == View(slot) && WellFormed(g.slot)
        invariant WaitFor(h, wanted, es) == WaitFor(g, wanted, es[used..])
        invariant forall j: nat :: j < SLOT_COUNT && j != slot ==> View(j) == old(View(j))
        decreases |es| - used
      {
        if headers[slot].terminated {
          WaitStops(h, wanted, es, g, used);
          return -1, used, g;
        }
        var late := OutOfTime(start, ticks, used);
        if late {
          WaitStops(h, wanted, es, g, used);
          return -1, used, g;
        }
        g := SleepOnce(slot, wanted, ticks[used].event, es, used, g);
        used := used + 1;
      }
      WaitStops(h, wanted, es, g, used);
      return 1, used, g;
    }

    /** A wait of a call: `script` is what may happen before its deadline, and `clock` says what it reads. */
    method Await(slot: nat, wanted: Flag, script: seq<Event>, clock: Clock, ghost h: History)
      returns (rez: int, rest: seq<Event>, ghost g: History)
      requires Valid() && slot < SLOT_COUNT && WellFormed(View(slot)) && h.slot == View(slot)
      modifies mem, headers, cursors
      ensures WaitFor(h, wanted, script) == Waited(rez == 1, g, rest) && (rez == 1 || rez == -1)
      ensures g.slot == View(slot)
      ensures forall j: nat :: j < SLOT_COUNT && j != slot ==> View(j) == old(View(j))
    {
      var readings := clock(script);
      var used;
      rez, used, g := WaitOnSlot(slot, wanted, readings.start, readings.ticks, h);
      rest := script[used..];
    }

    method SendImpl(slot: nat, data: seq<byte>, script: seq<Event>, clock: Clock, ghost h: History)
      returns (rez: int, rest: seq<Event>, ghost g: History)
      requires Valid() && slot < SLOT_COUNT && WellFormed(View(slot)) && h.slot == View(slot)
      modifies mem, headers, cursors
      ensures SlotCalls.SendImpl(h, data, script) == Called(g, rez, [], rest) && g.slot == View(slot)
      ensures forall j: nat :: j < SLOT_COUNT && j != slot ==> View(j) == old(View(j))
    {
      rez, rest, g := Await(slot, Waiting, script, clock, h);
      if rez < 1 {
        return -1, rest, g;
      }
      rez := CopyIn(slot, data);
      g := Step(g, Send(data));
    }

    method ReceiveImpl(slot: nat, dest: array<byte>, off: nat, max: positive, script: seq<Event>, clock: Clock,
                       ghost h: History)
      returns (rez: int, rest: seq<Event>, ghost r: Called)
      requires Valid() && slot < SLOT_COUNT && WellFormed(View(slot)) && h.slot == View(slot)
      requires dest != mem && off + max <= dest.Length
      modifies mem, headers, cursors, dest
      ensures r == SlotCalls.ReceiveImpl(h, max, script) && r.rez == rez && r.rest == rest
      ensures r.h.slot == View(slot)
      ensures |r.data| <= max && dest[..] == Pasted(old(dest[..]), off, r.data)
      ensures forall j: nat :: j < SLOT_COUNT && j != slot ==> View(j) == old(View(j))
    {
      r := SlotCalls.ReceiveImpl(h, max, script);
      rest := script;
      ghost var g;
      if headers[slot].waiting != Underread {
        rez, rest, g := Await(slot, Sending, script, clock, h);
        if rez < 1 {
          NothingPasted(dest[..], off);
          return -1, rest, r;
        }
      }
      rez := CopyOut(slot, dest, off, max);
    }

    method SendFully(slot: nat, data: seq<byte>, script: seq<Event>, clock: Clock, ghost h: History)
      returns (rez: int, rest: seq<Event>, ghost g: History)
      requires Valid() && slot < SLOT_COUNT && WellFormed(View(slot)) && h.slot == View(slot)
      modifies mem, headers, cursors
      ensures SlotCalls.SendFully(h, data, script) == Called(g, rez, [], rest) && g.slot == View(slot)
      ensures forall j: nat :: j < SLOT_COUNT && j != slot ==> View(j) == old(View(j))
    {
      g, rest := h, script;
      if |data| == 0 {
        rez, rest, g := SendImpl(slot, [], script, clock, h);
        if rez < 0 {
          return -1, rest, g;
        }
        return 0, rest, g;
      }
      var amtSent := 0;
      while amtSent < |data|
        invariant 0 <= amtSent <= |data|
        invariant WellFormed(View(slot)) && g.slot == View(slot)
        invariant SendLoop(h, data, 0, script) == SendLoop(g, data, amtSent, rest)
        invariant forall j: nat :: j < SLOT_COUNT && j != slot ==> View(j) == old(View(j))
        decreases |data| - amtSent
      {
        ghost var before, script' := g, rest;
        rez, rest, g := SendImpl(slot, data[amtSent..], rest, clock, g);
        OneMoreSend(before, data, amtSent, script', Called(g, rez, [], rest));
        if rez <= 0 {
          return -1, rest, g;
        }
        amtSent := amtSent + rez;
      }
      rez := amtSent;
    }

    /** One receive of the loop of `memslot_receive_fully`, behind the `amtRecv` bytes it has gathered. */
    method ReceiveOnce(slot: nat, buffer: array<byte>, amtRecv: nat, max: int, script: seq<Event>, clock: Clock,
                       ghost h: History, ghost c: Client, ghost original: seq<byte>)
      returns (rez: int, rest: seq<Event>, ghost g: History, ghost d: Client)
      requires Valid() && slot < SLOT_COUNT && WellFormed(View(slot)) && h.slot == View(slot)
      requires buffer != mem && amtRecv < max <= buffer.Length == |original|
      requires c.phase.Running? && |c.got| == amtRecv && c.max == max
      requires buffer[..] == c.got + original[amtRecv..]
      modifies mem, headers, cursors, buffer
      ensures WellFormed(View(slot)) && g.slot == View(slot)
      ensures d.max == max && LoopState(d) && |d.got| == amtRecv + (if rez < 0 then 0 else rez) <= max
      ensures ReceiveLoop(h, c, script) == ReceiveLoop(g, d, rest)
      ensures d.phase == if rez == 0 then Finished else if rez < 0 then Failed
                         else if (rez < BUFFER_SIZE && rez < max) || |d.got| >= max then Finished else Running
      ensures buffer[..] == d.got + original[|d.got|..]
      ensures forall j: nat :: j < SLOT_COUNT && j != slot ==> View(j) == old(View(j))
    {
      ghost var x;
      ghost var before := buffer[..];
      rez, rest, x := ReceiveImpl(slot, buffer, amtRecv, max - amtRecv, script, clock, h);
      assert buffer[..] == Pasted(before, amtRecv, x.data);
      d := GatherMore(h, c, script, x, original);
      g := x.h;
    }

    method ReceiveFully(slot: nat, buffer: array<byte>, max: int, script: seq<Event>, clock: Clock, ghost h: History)
      returns (rez: int, rest: seq<Event>, ghost r: Gathered)
      requires Valid() && slot < SLOT_COUNT && WellFormed(View(slot)) && h.slot == View(slot)
      requires buffer != mem && max <= buffer.Length
      modifies mem, headers, cursors, buffer
      ensures r == SlotCalls.ReceiveFully(h, max, script)
      ensures rez == ReturnCode(r.client) && rest == r.rest && r.h.slot == View(slot)
      ensures |r.client.got| <= buffer.Length
      ensures buffer[..] == r.client.got + old(buffer[..])[|r.client.got|..]
      ensures forall j: nat :: j < SLOT_COUNT && j != slot ==> View(j) == old(View(j))
    {
      var amtRecv, hasEof := 0, false;
      ghost var g, c, original := h, Begin(max), buffer[..];
      rest := script;
      while amtRecv < max && !hasEof
        invariant LoopState(c) && !c.phase.Failed? && |c.got| == amtRecv <= buffer.Length && c.max == max
        invariant c.phase.Running? <==> amtRecv < max && !hasEof
        invariant WellFormed(View(slot)) && g.slot == View(slot)
        invariant ReceiveLoop(h, Begin(max), script) == ReceiveLoop(g, c, rest)
        invariant buffer[..] == c.got + original[amtRecv..]
        invariant forall j: nat :: j < SLOT_COUNT && j != slot ==> View(j) == old(View(j))
        decreases max - amtRecv, !hasEof
      {
        rez, rest, g, c := ReceiveOnce(slot, buffer, amtRecv, max, rest, clock, g, c, original);
        if rez == 0 {
          break;
        } else if rez < 0 {
          r := Gathered(g, c, rest);
          return -1, rest, r;
        } else if rez < BUFFER_SIZE && rez < max {
          hasEof := true;
        }
        amtRecv := amtRecv + rez;
      }
      r := Gathered(g, c, rest);
      rez := amtRecv;
    }

    /** Marks every slot as terminated. */
    method Close()
      requires Valid()
      modifies headers
      ensures forall i: nat :: i < SLOT_COUNT ==> View(i) == old(View(i)).(terminated := true)
    {
      for x := 0 to SLOT_COUNT
        invariant forall i: nat :: i < SLOT_COUNT ==>
                    View(i) == old(View(i)).(terminated := i < x || old(View(i)).terminated)
      {
        headers[x] := headers[x].(terminated := true);
      }
    }
  }

  /** Bytes copied in behind a prefix extend it. */
  /** What such a receive does to the loop's state and to the buffer. */
  lemma GatherMore(h: History, c: Client, script: seq<Event>, x: Called, original: seq<byte>) returns (d: Client)
    requires WellFormed(h.slot) && LoopState(c) && c.phase.Running? && c.max <= |original|
    requires x == SlotCalls.ReceiveImpl(h, Remaining(c), script)
    ensures WellFormed(x.h.slot) && LoopState(d) && d.max == c.max && |d.got| == |c.got| + |x.data| <= d.max
    ensures d.phase == if x.rez == 0 then Finished else if x.rez < 0 then Failed
                       else if (x.rez < BUFFER_SIZE && x.rez < c.max) || |d.got| >= c.max then Finished else Running
    ensures ReceiveLoop(h, c, script) == ReceiveLoop(x.h, d, x.rest)
    ensures Pasted(c.got + original[|c.got|..], |c.got|, x.data) == d.got + original[|d.got|..]
  {
    d := TurnOutcome(h, c, script, x);
    Stitch(c.got, x.data, original);
  }

  lemma Stitch(got: seq<byte>, data: seq<byte>, original: seq<byte>)
    requires |got| + |data| <= |original|
    ensures Pasted(got + original[|got|..], |got|, data) == (got + data) + original[|got| + |data|..]
  {}

  lemma SliceOfSlice(m: seq<byte>, base: nat, len: nat, from: nat, n: nat)
    requires base + len <= |m| && from + n <= len
    ensures m[base..base + len][from..from + n] == m[base + from..base + from + n]
  {
    var a, b := m[base..base + len][from..from + n], m[base + from..base + from + n];
    assert |a| == |b| && forall k :: 0 <= k < n ==> a[k] == b[k];
  }
}

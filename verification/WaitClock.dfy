/** The clock arithmetic of `memslot_wait_on_slot`. */
module WaitClock {
  import opened MemSlot

  const TIMEOUT_SECS: nat := 300
  const NANOS: int := 1_000_000_000

  datatype Timespec = Timespec(sec: int, nsec: int)

  predicate Normalized(t: Timespec) {
    0 <= t.nsec < NANOS
  }

  function Nanos(t: Timespec): int {
    t.sec * 1_000_000_000 + t.nsec
  }

  function Elapsed(start: Timespec, end: Timespec): int {
    Nanos(end) - Nanos(start)
  }

  /** C's division by 1000, which truncates towards zero. */
  function TruncThousandth(n: int): int {
    if n >= 0 then n / 1000 else -((-n) / 1000)
  }

  /** The microseconds the loop computes, before they are stored in an unsigned 64-bit variable. */
  function DeltaMicros(start: Timespec, end: Timespec): int {
    (end.sec - start.sec) * 1_000_000 + TruncThousandth(end.nsec - start.nsec)
  }

  /** C's conversion of a 64-bit `long` to `uint64_t`. */
  function ToUnsigned64(n: int): int {
    if n >= 0 then n else n + 0x1_0000_0000_0000_0000
  }

  predicate TimedOut(start: Timespec, end: Timespec) {
    ToUnsigned64(DeltaMicros(start, end)) / 1000 > TIMEOUT_SECS * 1000
  }

  /** For normalized readings of a clock that does not go back, the truncating formula is
      nonnegative and less than a microsecond away from the time that really passed. */
  lemma DeltaIsAccurate(start: Timespec, end: Timespec)
    requires Normalized(start) && Normalized(end) && Elapsed(start, end) >= 0
    ensures DeltaMicros(start, end) >= 0
    ensures -1000 < 1000 * DeltaMicros(start, end) - Elapsed(start, end) < 1000
  {
    var n := end.nsec - start.nsec;
    assert -1000 < 1000 * TruncThousandth(n) - n < 1000;
    if n < 0 {
      assert end.sec - start.sec >= 1;
    }
  }

  /** A wait gives up only after more than 300 seconds have really passed, and always once
      300.001 seconds have. */
  lemma TimeoutIsHonest(start: Timespec, end: Timespec)
    requires Normalized(start) && Normalized(end)
    requires 0 <= Elapsed(start, end)
    ensures TimedOut(start, end) ==> Elapsed(start, end) > 300_000_999_000
    ensures Elapsed(start, end) >= 300_001_000_000 ==> TimedOut(start, end)
  {
    DeltaIsAccurate(start, end);
  }

  /** A clock that has gone back by a microsecond or more makes a wait give up at once: the difference is stored
      unsigned. */
  lemma BackwardsIsTimeout(start: Timespec, end: Timespec)
    requires -0x1000_0000_0000_0000 <= DeltaMicros(start, end) < 0
    ensures TimedOut(start, end)
  {}

  /** While the waiter sleeps for the k-th time, the clock read `now` before the sleep and `event`
      happens to the slot during it. */
  datatype Tick = Tick(now: Timespec, event: Event)

  /** What happens to the slot before a wait begun at `start` gives up. */
  function InTime(start: Timespec, ticks: seq<Tick>): seq<Event> {
    if ticks == [] || TimedOut(start, ticks[0].now) then [] else [ticks[0].event] + InTime(start, ticks[1..])
  }

  /** It is what happens up to the first late reading. */
  lemma {:induction false} InTimeEndsAtDeadline(start: Timespec, ticks: seq<Tick>)
    ensures var es := InTime(start, ticks);
            && |es| <= |ticks|
            && (|es| < |ticks| ==> TimedOut(start, ticks[|es|].now))
            && forall k :: 0 <= k < |es| ==> es[k] == ticks[k].event && !TimedOut(start, ticks[k].now)
  {
    if ticks != [] && !TimedOut(start, ticks[0].now) {
      InTimeEndsAtDeadline(start, ticks[1..]);
    }
  }

  /** The waiter's test before it sleeps for the `used`-th time. */
  method OutOfTime(start: Timespec, ticks: seq<Tick>, used: nat) returns (late: bool)
    requires used <= |InTime(start, ticks)|
    ensures late <==> used == |InTime(start, ticks)|
    ensures !late ==> used < |ticks| && InTime(start, ticks)[used] == ticks[used].event
  {
    InTimeEndsAtDeadline(start, ticks);
    late := used == |ticks| || TimedOut(start, ticks[used].now);
  }

  /** If every sleep lets the clock advance by at least `step` nanoseconds, the number of sleeps of
      one wait is bounded. */
  lemma SleepsAreBounded(start: Timespec, ticks: seq<Tick>, step: nat)
    requires step > 0 && Normalized(start)
    requires forall k :: 0 <= k < |ticks| ==>
               && Normalized(ticks[k].now)
               && k * step <= Elapsed(start, ticks[k].now)
    ensures InTime(start, ticks) != [] ==> (|InTime(start, ticks)| - 1) * step < 300_001_000_000
  {
    var n := |InTime(start, ticks)|;
    InTimeEndsAtDeadline(start, ticks);
    if n > 0 {
      var k := n - 1;
      assert !TimedOut(start, ticks[k].now) && Normalized(ticks[k].now);
      TimeoutIsHonest(start, ticks[k].now);
      assert k * step < 300_001_000_000;
    }
  }

  // ----- The clock of a call

  /** What the clock shows at the beginning of a wait and before each of its sleeps. */
  datatype Readings = Readings(start: Timespec, ticks: seq<Tick>)

  /** A call waits several times. Its clock says, for what happens to the slot before a wait's deadline, what
      that wait reads: any readings at all, and whatever happens later. */
  ghost predicate Shows(clock: seq<Event> -> Readings) {
    forall es :: InTime(clock(es).start, clock(es).ticks) == es
  }

  type Clock = c: seq<Event> -> Readings | Shows(c) ghost witness (StillShows(); Still)

  // There are such clocks: for one, the clock that stands still.

  const ENTRY: Timespec := Timespec(0, 0)

  function AtOnce(now: Timespec, script: seq<Event>): seq<Tick> {
    if script == [] then [] else [Tick(now, script[0])] + AtOnce(now, script[1..])
  }

  lemma {:induction false} AtOnceIsInTime(now: Timespec, script: seq<Event>)
    requires !TimedOut(now, now)
    ensures |AtOnce(now, script)| == |script| && InTime(now, AtOnce(now, script)) == script
  {
    if script != [] {
      AtOnceIsInTime(now, script[1..]);
      assert AtOnce(now, script)[1..] == AtOnce(now, script[1..]);
    }
  }

  lemma StillClock(script: seq<Event>)
    ensures InTime(ENTRY, AtOnce(ENTRY, script)) == script
  {
    TimeoutIsHonest(ENTRY, ENTRY);
    AtOnceIsInTime(ENTRY, script);
  }

  function Still(script: seq<Event>): Readings {
    Readings(ENTRY, AtOnce(ENTRY, script))
  }

  lemma StillShows()
    ensures Shows(Still)
  {
    forall es: seq<Event> ensures InTime(Still(es).start, Still(es).ticks) == es {
      StillClock(es);
    }
  }
}

/** Directory listings over a slot: length-prefixed names decoded by
    `blkfs_read_var_pipe_entry_string` in the loop of `blkfs_readdir`. */
module Listing {
  import opened Bytes
  import opened MemSlot
  import opened Transfer
  import opened SlotCalls
  import opened Delivery

  const STRING_MAX_LEN: nat := 10000

  // ----- One entry

  /** What the caller's `malloc`ed string holds: the text up to the first NUL, and how many of its
      bytes before that were never written. */
  datatype Text = Text(text: seq<byte>, unset: nat)

  function CString(bs: seq<byte>): seq<byte> {
    if bs == [] || bs[0] == 0 then [] else [bs[0]] + CString(bs[1..])
  }

  function AsText(got: seq<byte>, declared: nat): Text
    requires |got| <= declared
  {
    Text(CString(got), if |CString(got)| < |got| then 0 else declared - |got|)
  }

  /** One call of `blkfs_read_var_pipe_entry_string`: a name, a return of 0, a return of -1, or a positive
      return that leaves the destination null. */
  datatype Entry = Name(text: Text) | End | Error | NullName

  datatype Step = Step(entry: Entry, h: History, rest: seq<Event>)

  /** The name behind a length. */
  function ReadName(h: History, payload: int, script: seq<Event>): (s: Step)
    requires WellFormed(h.slot)
    ensures WellFormed(s.h.slot)
  {
    var name := ReceiveFully(h, payload, script);
    var got := ReturnCode(name.client);
    if got < 0 then Step(Error, name.h, name.rest)
    else if got == 0 then Step(End, name.h, name.rest)
    else Step(Name(AsText(name.client.got, payload)), name.h, name.rest)
  }

  function ReadEntry(h: History, script: seq<Event>): (s: Step)
    requires WellFormed(h.slot)
    ensures WellFormed(s.h.slot)
  {
    var len := ReceiveFully(h, 4, script);
    var rez := ReturnCode(len.client);
    if rez == 4 then
      var payload := Signed(len.client.got);
      if payload > STRING_MAX_LEN then Step(Error, len.h, len.rest)
      else if payload == 0 then Step(End, len.h, len.rest)
      else if payload < -1 then Step(Error, len.h, len.rest)  // malloc of a huge size fails
      else ReadName(len.h, payload, len.rest)
    else if rez == -1 then Step(Error, len.h, len.rest)
    else if rez == 0 then Step(End, len.h, len.rest)
    else Step(NullName, len.h, len.rest)
  }

  // ----- Bytes only get fewer

  function ToArrive(script: seq<Event>): nat {
    if script == [] then 0
    else (if script[0].Send? then |script[0].data| else 0) + ToArrive(script[1..])
  }

  /** Bytes in the slot and in the sends to come. */
  function Potential(h: History, script: seq<Event>): nat
    requires WellFormed(h.slot)
  {
    |Pending(h.slot)| + ToArrive(script)
  }

  lemma {:induction false} WaitAddsNothing(h: History, wanted: Flag, script: seq<Event>)
    requires WellFormed(h.slot)
    ensures var w := WaitFor(h, wanted, script); Potential(w.h, w.rest) <= Potential(h, script)
    decreases |script|
  {
    if h.slot.flag != wanted && !h.slot.terminated && script != [] {
      var e := script[0];
      if e.Send? && CanSend(h.slot) {
        StoreChunkKeeps(h.slot, e.data);
      } else if e.Receive? && CanReceive(h.slot) {
        TakeBytesKeeps(h.slot, e.max);
      }
      WaitAddsNothing(MemSlot.Step(h, e), wanted, script[1..]);
    }
  }

  lemma {:induction false} LoopUsesBytes(h: History, c: Client, script: seq<Event>)
    requires WellFormed(h.slot) && LoopState(c)
    ensures var r := ReceiveLoop(h, c, script);
            Potential(r.h, r.rest) + |r.client.got| <= Potential(h, script) + |c.got|
    decreases if c.phase.Running? then c.max - |c.got| else 0
  {
    if c.phase.Running? {
      var x := ReceiveImpl(h, Remaining(c), script);
      ImplUsesBytes(h, Remaining(c), script);
      LoopUsesBytes(x.h, Absorb(c, Received(x.h.slot, x.rez, x.data)), x.rest);
    }
  }

  lemma ImplUsesBytes(h: History, max: positive, script: seq<Event>)
    requires WellFormed(h.slot)
    ensures var x := ReceiveImpl(h, max, script);
            Potential(x.h, x.rest) + |x.data| <= Potential(h, script)
  {
    WaitAddsNothing(h, Sending, script);
    var w := if h.slot.flag.Underread? then Waited(true, h, script) else WaitFor(h, Sending, script);
    if w.ok {
      TakeBytesKeeps(w.h.slot, max);
    }
  }

  lemma NamesUseBytes(h: History, script: seq<Event>)
    requires WellFormed(h.slot)
    ensures var s := ReadEntry(h, script);
            && Potential(s.h, s.rest) <= Potential(h, script)
            && (s.entry.Name? ==> Potential(s.h, s.rest) < Potential(h, script))
  {
    LoopUsesBytes(h, Begin(4), script);
    var len := ReceiveFully(h, 4, script);
    if ReturnCode(len.client) == 4 {
      LoopUsesBytes(len.h, Begin(Signed(len.client.got)), len.rest);
    }
  }

  // ----- The loop of readdir

  /** How the loop ended: `Undefined` is the call of the filler on a null name. */
  datatype Ending = Completed | Broken | Undefined

  datatype Listed = Listed(names: seq<Text>, ending: Ending, h: History, rest: seq<Event>)

  /** `accepts` says of each name, by its position, whether the kernel's filler takes it. The
      recursion ends because every name uses up bytes: the loop terminates whatever arrives. */
  function ReadNames(h: History, script: seq<Event>, accepts: nat -> bool, count: nat): (r: Listed)
    requires WellFormed(h.slot)
    ensures WellFormed(r.h.slot)
    decreases Potential(h, script)
  {
    var s := ReadEntry(h, script);
    NamesUseBytes(h, script);
    match s.entry
    case End => Listed([], Completed, s.h, s.rest)
    case Error => Listed([], Broken, s.h, s.rest)
    case NullName => Listed([], Undefined, s.h, s.rest)
    case Name(text) =>
      if !accepts(count) then Listed([], Broken, s.h, s.rest)
      else
        var more := ReadNames(s.h, s.rest, accepts, count + 1);
        more.(names := [text] + more.names)
  }

  /** The rest of a listing behind the names already read. */
  function Behind(names: seq<Text>, more: Listed): Listed {
    more.(names := names + more.names)
  }

  lemma OneBehind(names: seq<Text>, text: Text, more: Listed)
    ensures Behind(names, more.(names := [text] + more.names)) == Behind(names + [text], more)
  {
    assert names + ([text] + more.names) == (names + [text]) + more.names;
  }

  lemma NothingBehind(names: seq<Text>, end: Ending, h: History, rest: seq<Event>)
    ensures Behind(names, Listed([], end, h, rest)) == Listed(names, end, h, rest)
  {
    assert names + [] == names;
  }

  /** Reading on from here, behind `names`, gives `all`. */
  predicate Continues(all: Listed, h: History, script: seq<Event>, accepts: nat -> bool, names: seq<Text>)
    requires WellFormed(h.slot)
  {
    all == Behind(names, ReadNames(h, script, accepts, |names|))
  }

  lemma NothingRead(h: History, script: seq<Event>, accepts: nat -> bool)
    requires WellFormed(h.slot)
    ensures Continues(ReadNames(h, script, accepts, 0), h, script, accepts, [])
  {}

  lemma OneMoreName(all: Listed, h: History, script: seq<Event>, accepts: nat -> bool, names: seq<Text>, s: Step)
    requires WellFormed(h.slot) && s == ReadEntry(h, script) && Continues(all, h, script, accepts, names)
    requires s.entry.Name? && accepts(|names|)
    ensures Continues(all, s.h, s.rest, accepts, names + [s.entry.text])
  {
    NamesUseBytes(h, script);
    OneBehind(names, s.entry.text, ReadNames(s.h, s.rest, accepts, |names| + 1));
  }

  lemma OneMoreEntry(all: Listed, h: History, script: seq<Event>, accepts: nat -> bool, names: seq<Text>, s: Step)
    requires WellFormed(h.slot) && s == ReadEntry(h, script) && Continues(all, h, script, accepts, names)
    ensures match s.entry
            case End => all == Listed(names, Completed, s.h, s.rest)
            case Error => all == Listed(names, Broken, s.h, s.rest)
            case NullName => all == Listed(names, Undefined, s.h, s.rest)
            case Name(text) =>
              if accepts(|names|) then Continues(all, s.h, s.rest, accepts, names + [text])
              else all == Listed(names, Broken, s.h, s.rest)
    ensures s.entry.Name? ==> Potential(s.h, s.rest) < Potential(h, script)
  {
    NamesUseBytes(h, script);
    if s.entry.Name? && accepts(|names|) {
      OneMoreName(all, h, script, accepts, names, s);
    } else {
      var here := ReadNames(h, script, accepts, |names|);
      NothingBehind(names, here.ending, s.h, s.rest);
    }
  }

  /** A filler that takes every name. */
  predicate Always(position: nat) {
    true
  }

  const DOT: Text := Text([46], 0)
  const DOT_DOT: Text := Text([46, 46], 0)

  /** What the filler is given in all. */
  function Filled(names: seq<Text>): seq<Text> {
    if names == [] then [] else names + [DOT, DOT_DOT]
  }

  // ----- Reads smaller than a buffer

  /** The chunks, or rests of chunks, that the receiver will meet. */
  function Feed(s: Slot, out: seq<seq<byte>>): seq<seq<byte>>
    requires WellFormed(s)
  {
    if s.flag.Waiting? then out else [Pending(s)] + out
  }

  datatype Bite = Bite(rez: int, data: seq<byte>, feed: seq<seq<byte>>)

  /** Without the first `n` bytes of the first chunk. */
  function Drop(feed: seq<seq<byte>>, n: nat): seq<seq<byte>> {
    if feed == [] then []
    else if n >= |feed[0]| then feed[1..]
    else [feed[0][n..]] + feed[1..]
  }

  /** A read of fewer bytes than a buffer, on the chunks to come: it never crosses into the next chunk. */
  function SmallRead(feed: seq<seq<byte>>, max: positive): Bite {
    if feed == [] then Bite(-1, [], [])
    else if feed[0] == [] then Bite(0, [], feed)
    else
      var n := Min(max, |feed[0]|);
      Bite(n, feed[0][..n], Drop(feed, n))
  }

  /** A call that did what a read of the chunks does, leaving the peer with `left` still to send. */
  ghost predicate IsBite(r: Gathered, b: Bite, left: seq<seq<byte>>) {
    && WellFormed(r.h.slot) && !r.h.slot.terminated && AllFit(left)
    && ReturnCode(r.client) == b.rez && r.client.got == b.data
    && Feed(r.h.slot, left) == b.feed && r.rest == Sends(left)
  }

  lemma SmallReadOfChunk(h: History, max: positive, out: seq<seq<byte>>)
    requires WellFormed(h.slot) && !h.slot.terminated && CanReceive(h.slot) && AllFit(out) && max < BUFFER_SIZE
    ensures IsBite(ReceiveFully(h, max, Sends(out)), SmallRead(Feed(h.slot, out), max), out)
  {
    if Pending(h.slot) == [] {
      ReadOfMark(h, max, Sends(out));
    } else {
      ReadWithinChunk(h, max, Sends(out));
    }
  }

  /** The next chunk goes into the slot: there is as much to come as before. */
  lemma ChunkArrives(h: History, out: seq<seq<byte>>)
    requires WellFormed(h.slot) && CanSend(h.slot) && AllFit(out) && out != []
    ensures var g := MemSlot.Step(h, Send(out[0]));
            CanReceive(g.slot) && Feed(g.slot, out[1..]) == Feed(h.slot, out) && g.slot.terminated == h.slot.terminated
  {
    StoreChunkKeeps(h.slot, out[0]);
    assert out[0] in out && Chunk(out[0]) == out[0];
    assert [out[0]] + out[1..] == out;
  }

  /** On a slot whose peer only sends, such a read is `SmallRead`. */
  lemma SmallReadIsReceiveFully(h: History, max: positive, out: seq<seq<byte>>) returns (left: seq<seq<byte>>)
    requires WellFormed(h.slot) && !h.slot.terminated && AllFit(out) && max < BUFFER_SIZE
    ensures IsBite(ReceiveFully(h, max, Sends(out)), SmallRead(Feed(h.slot, out), max), left)
  {
    left := out;
    if CanReceive(h.slot) {
      SmallReadOfChunk(h, max, out);
    } else if out == [] {
      ImplTimesOut(h, Begin(max));
      assert Sends(out) == [];
    } else {
      left := out[1..];
      ImplSends(h, Begin(max), out);
      ChunkArrives(h, out);
      SmallReadOfChunk(MemSlot.Step(h, Send(out[0])), max, left);
    }
  }

  // ----- The loop, on chunks

  datatype FeedStep = FeedStep(entry: Entry, feed: seq<seq<byte>>)

  function FeedEntry(feed: seq<seq<byte>>): FeedStep {
    var len := SmallRead(feed, 4);
    if len.rez == 4 then
      var payload := Signed(len.data);
      if payload > STRING_MAX_LEN then FeedStep(Error, len.feed)
      else if payload == 0 then FeedStep(End, len.feed)
      else if payload < -1 then FeedStep(Error, len.feed)
      else if payload < 0 then FeedStep(End, len.feed)
      else
        var name := SmallRead(len.feed, payload);
        if name.rez < 0 then FeedStep(Error, name.feed)
        else if name.rez == 0 then FeedStep(End, name.feed)
        else FeedStep(Name(AsText(name.data, payload)), name.feed)
    else if len.rez == -1 then FeedStep(Error, len.feed)
    else if len.rez == 0 then FeedStep(End, len.feed)
    else FeedStep(NullName, len.feed)
  }

  /** An entry read by the calls that is the one read from the chunks. */
  ghost predicate IsFeedStep(s: Step, f: FeedStep, left: seq<seq<byte>>) {
    && WellFormed(s.h.slot) && !s.h.slot.terminated && AllFit(left)
    && s.entry == f.entry && Feed(s.h.slot, left) == f.feed && s.rest == Sends(left)
  }

  lemma NamedEntryOnFeed(h: History, out: seq<seq<byte>>, mid: seq<seq<byte>>) returns (left: seq<seq<byte>>)
    requires WellFormed(h.slot)
    requires IsBite(ReceiveFully(h, 4, Sends(out)), SmallRead(Feed(h.slot, out), 4), mid)
    requires var len := SmallRead(Feed(h.slot, out), 4); len.rez == 4 && 0 < Signed(len.data) <= STRING_MAX_LEN
    ensures IsFeedStep(ReadEntry(h, Sends(out)), FeedEntry(Feed(h.slot, out)), left)
  {
    var len := ReceiveFully(h, 4, Sends(out));
    left := SmallReadIsReceiveFully(len.h, Signed(len.client.got), mid);
  }

  lemma ReadEntryOnFeed(h: History, out: seq<seq<byte>>) returns (left: seq<seq<byte>>)
    requires WellFormed(h.slot) && !h.slot.terminated && AllFit(out)
    ensures IsFeedStep(ReadEntry(h, Sends(out)), FeedEntry(Feed(h.slot, out)), left)
  {
    left := SmallReadIsReceiveFully(h, 4, out);
    var len := SmallRead(Feed(h.slot, out), 4);
    if len.rez == 4 && 0 < Signed(len.data) <= STRING_MAX_LEN {
      left := NamedEntryOnFeed(h, out, left);
    }
  }

  // ----- Round trip

  predicate ValidName(n: seq<byte>) {
    1 <= |n| <= 10000
  }

  /** The fields of a listing: a length and a name for each entry, and a zero length if `zero`. */
  function Fields(names: seq<seq<byte>>, zero: bool): seq<seq<byte>> {
    if names == [] then (if zero then [Encode(0, 4)] else [])
    else [Encode(|names[0]|, 4), names[0]] + Fields(names[1..], zero)
  }

  /** No field straddles a chunk boundary: each fits in what is left of the chunk it begins in. */
  predicate Aligned(fields: seq<seq<byte>>, chunks: seq<seq<byte>>) {
    fields == []
    || (chunks != [] && |fields[0]| <= |chunks[0]| && Aligned(fields[1..], Drop(chunks, |fields[0]|)))
  }

  predicate NonEmptyChunks(chunks: seq<seq<byte>>) {
    forall i :: 0 <= i < |chunks| ==> chunks[i] != []
  }

  function Whole(names: seq<seq<byte>>): seq<Text> {
    seq(|names|, i requires 0 <= i < |names| => Text(names[i], 0))
  }

  predicate NoNul(names: seq<seq<byte>>) {
    forall n :: n in names ==> 0 !in n
  }

  lemma {:induction false} CStringKeeps(n: seq<byte>)
    ensures |CString(n)| <= |n|
    ensures |CString(n)| == |n| <==> 0 !in n
    ensures CString(n) == n <==> 0 !in n
  {
    if n != [] && n[0] != 0 {
      CStringKeeps(n[1..]);
      assert n == [n[0]] + n[1..];
    }
  }

  lemma DropSplits(chunks: seq<seq<byte>>, n: nat)
    requires chunks != [] && n <= |chunks[0]|
    ensures Concat(chunks) == chunks[0][..n] + Concat(Drop(chunks, n))
  {
    var c, d := chunks[0], Drop(chunks, n);
    if n == |c| {
      assert c[..n] == c;
    } else {
      assert d[1..] == chunks[1..];
      Splice(c, n, Concat(chunks[1..]));
    }
  }

  lemma Splice(c: seq<byte>, n: nat, tail: seq<byte>)
    requires n <= |c|
    ensures c[..n] + (c[n..] + tail) == c + tail
  {}

  lemma DropOfAppend(chunks: seq<seq<byte>>, after: seq<seq<byte>>, n: nat)
    requires chunks != [] && NonEmptyChunks(chunks) && n <= |chunks[0]|
    ensures Drop(chunks + after, n) == Drop(chunks, n) + after
    ensures (chunks + after)[0] == chunks[0] && NonEmptyChunks(Drop(chunks, n))
  {
    assert (chunks + after)[1..] == chunks[1..] + after;
  }

  lemma FirstOfChunks(chunks: seq<seq<byte>>)
    requires Concat(chunks) != [] && NonEmptyChunks(chunks)
    ensures chunks != [] && chunks[0] != [] && Concat(chunks)[..|chunks[0]|] == chunks[0]
  {}

  lemma SameSplit(a: seq<byte>, b: seq<byte>, c: seq<byte>, d: seq<byte>)
    requires a + b == c + d && |a| == |c|
    ensures a == c && b == d
  {
    assert a == (a + b)[..|a|] && c == (c + d)[..|a|];
    assert b == (a + b)[|a|..] && d == (c + d)[|a|..];
  }

  /** One field at the front of the chunks: read whole exactly when it does not straddle. */
  lemma BiteField(chunks: seq<seq<byte>>, after: seq<seq<byte>>, f: seq<byte>, others: seq<byte>)
    requires NonEmptyChunks(chunks) && Concat(chunks) == f + others && f != []
    ensures chunks != []
    ensures |f| <= |chunks[0]| ==>
              var d := Drop(chunks, |f|);
              SmallRead(chunks + after, |f|) == Bite(|f|, f, d + after) && Concat(d) == others && NonEmptyChunks(d)
    ensures |f| > |chunks[0]| ==>
              var b := SmallRead(chunks + after, |f|);
              0 < b.rez < |f| && b.data == chunks[0] && |b.data| == b.rez
  {
    FirstOfChunks(chunks);
    var c, n := chunks[0], Min(|f|, |chunks[0]|);
    DropSplits(chunks, n);
    DropOfAppend(chunks, after, n);
    if |f| <= |c| {
      SameSplit(f, others, c[..n], Concat(Drop(chunks, n)));
    } else {
      assert c[..n] == c;
    }
  }

  lemma LengthField(n: nat)
    requires n <= 10000
    ensures Signed(Encode(n, 4)) == n
  {
    PowersOf256();
    SignedOfEncode(n, 4);
  }

  /** How an entry comes out of the chunks: whole exactly when neither of its fields straddles a
      boundary and the name holds no NUL. */
  lemma EntryRoundTrip(chunks: seq<seq<byte>>, after: seq<seq<byte>>, n: seq<byte>, others: seq<byte>)
    requires NonEmptyChunks(chunks) && ValidName(n)
    requires Concat(chunks) == Encode(|n|, 4) + (n + others)
    ensures chunks != []
    ensures var s := FeedEntry(chunks + after);
            if Aligned([Encode(|n|, 4), n], chunks) then
              var d := Drop(Drop(chunks, 4), |n|);
              && s == FeedStep(Name(AsText(n, |n|)), d + after)
              && NonEmptyChunks(d) && Concat(d) == others
              && (AsText(n, |n|) == Text(n, 0) <==> 0 !in n)
            else
              s.entry == NullName || (s.entry.Name? && s.entry.text != Text(n, 0))
  {
    var f := Encode(|n|, 4);
    BiteField(chunks, after, f, n + others);
    LengthField(|n|);
    CStringKeeps(n);
    assert [f, n][1..] == [n];
    if 4 <= |chunks[0]| {
      var d := Drop(chunks, 4);
      BiteField(d, after, n, others);
      if |n| > |d[0]| {
        CStringKeeps(d[0]);
        assert !Aligned([n], d);
      } else {
        assert Aligned([n], d);
      }
    }
  }

  lemma AlignedCons(f: seq<byte>, fs: seq<seq<byte>>, chunks: seq<seq<byte>>)
    ensures Aligned([f] + fs, chunks)
       <==> chunks != [] && |f| <= |chunks[0]| && Aligned(fs, Drop(chunks, |f|))
  {
    assert ([f] + fs)[1..] == fs;
  }

  lemma AlignedSplits(names: seq<seq<byte>>, zero: bool, chunks: seq<seq<byte>>)
    requires names != []
    ensures var f, n := Encode(|names[0]|, 4), names[0];
            Aligned(Fields(names, zero), chunks) <==>
            Aligned([f, n], chunks) && Aligned(Fields(names[1..], zero), Drop(Drop(chunks, 4), |n|))
  {
    var f, n, more := Encode(|names[0]|, 4), names[0], Fields(names[1..], zero);
    assert Fields(names, zero) == [f] + ([n] + more);
    AlignedCons(f, [n] + more, chunks);
    AlignedCons(n, more, Drop(chunks, 4));
    assert [f, n] == [f] + ([n] + []);
    AlignedCons(f, [n] + [], chunks);
    AlignedCons(n, [], Drop(chunks, 4));
  }

  lemma WholeSplits(names: seq<seq<byte>>)
    requires names != []
    ensures Whole(names)[0] == Text(names[0], 0) && Whole(names)[1..] == Whole(names[1..])
    ensures NoNul(names) <==> 0 !in names[0] && NoNul(names[1..])
  {
    assert names == [names[0]] + names[1..];
  }

  lemma NamesCons(text: Text, more: seq<Text>, names: seq<seq<byte>>)
    requires names != []
    ensures [text] + more == Whole(names) <==> text == Text(names[0], 0) && more == Whole(names[1..])
  {
    WholeSplits(names);
    var w := Whole(names);
    assert w == [w[0]] + w[1..];
    assert ([text] + more)[0] == text && ([text] + more)[1..] == more;
  }

  /** The loop ends properly, having collected exactly `names`. */
  ghost predicate Collected(h: History, script: seq<Event>, names: seq<seq<byte>>, count: nat)
    requires WellFormed(h.slot)
  {
    var r := ReadNames(h, script, Always, count);
    r.ending == Completed && r.names == Whole(names)
  }

  lemma CollectedNone(h: History, script: seq<Event>, count: nat)
    requires WellFormed(h.slot)
    ensures Collected(h, script, [], count) <==> ReadEntry(h, script).entry == End
  {}

  lemma CollectedFirst(h: History, script: seq<Event>, names: seq<seq<byte>>, count: nat)
    requires WellFormed(h.slot) && names != []
    ensures var s := ReadEntry(h, script);
            Collected(h, script, names, count)
            <==> s.entry == Name(Text(names[0], 0)) && Collected(s.h, s.rest, names[1..], count + 1)
  {
    var s := ReadEntry(h, script);
    if s.entry.Name? {
      NamesCons(s.entry.text, ReadNames(s.h, s.rest, Always, count + 1).names, names);
    }
  }

  /** Listing theorem. The peer sends the fields of a listing in any non-empty chunks, ended by a zero
      length or by a zero-length send, and then anything. The loop of readdir terminates; it ends
      properly having collected exactly those names in order if and only if no field straddles a
      chunk boundary and no name contains a NUL. */
  lemma {:induction false} ListingRoundTrip(h: History, out: seq<seq<byte>>, names: seq<seq<byte>>, zero: bool,
                                            chunks: seq<seq<byte>>, after: seq<seq<byte>>, count: nat)
    requires WellFormed(h.slot) && !h.slot.terminated && AllFit(out)
    requires forall n :: n in names ==> ValidName(n)
    requires NonEmptyChunks(chunks) && Concat(chunks) == Concat(Fields(names, zero))
    requires Feed(h.slot, out) == chunks + after && (zero || (after != [] && after[0] == []))
    ensures Collected(h, Sends(out), names, count) <==> Aligned(Fields(names, zero), chunks) && NoNul(names)
    decreases |names|
  {
    var left := ReadEntryOnFeed(h, out);
    var s := ReadEntry(h, Sends(out));
    if names == [] {
      CollectedNone(h, Sends(out), count);
      LastEntry(chunks, after, zero);
    } else {
      CollectedFirst(h, Sends(out), names, count);
      var n := names[0];
      var others := Concat(Fields(names[1..], zero));
      assert n in names;
      FirstEntry(names, zero);
      EntryRoundTrip(chunks, after, n, others);
      AlignedSplits(names, zero, chunks);
      WholeSplits(names);
      if Aligned([Encode(|n|, 4), n], chunks) {
        var d := Drop(Drop(chunks, 4), |n|);
        ListingRoundTrip(s.h, left, names[1..], zero, d, after, count + 1);
      }
    }
  }

  lemma FirstEntry(names: seq<seq<byte>>, zero: bool)
    requires names != []
    ensures Concat(Fields(names, zero))
         == Encode(|names[0]|, 4) + (names[0] + Concat(Fields(names[1..], zero)))
  {
    var fs := Fields(names, zero);
    assert fs[1..] == [names[0]] + Fields(names[1..], zero);
    assert fs[1..][1..] == Fields(names[1..], zero);
  }

  /** The end of a listing: a zero length that does not straddle, or a zero-length send. */
  lemma LastEntry(chunks: seq<seq<byte>>, after: seq<seq<byte>>, zero: bool)
    requires NonEmptyChunks(chunks) && Concat(chunks) == Concat(Fields([], zero))
    requires zero || (after != [] && after[0] == [])
    ensures FeedEntry(chunks + after).entry == if Aligned(Fields([], zero), chunks) then End else NullName
  {
    var f := Encode(0, 4);
    if zero {
      assert Concat([f]) == f + Concat([]) == f + [];
      BiteField(chunks, after, f, []);
      LengthField(0);
      var last: seq<seq<byte>> := [];
      assert [f][1..] == last;
    } else {
      assert chunks == [];
      assert chunks + after == after;
    }
  }

  // ----- Listings that do not end, and fillers that refuse

  /** A length and a name that are read whole. */
  lemma FirstNameIsRead(h: History, out: seq<seq<byte>>, names: seq<seq<byte>>, zero: bool,
                        chunks: seq<seq<byte>>, after: seq<seq<byte>>) returns (left: seq<seq<byte>>)
    requires WellFormed(h.slot) && !h.slot.terminated && AllFit(out)
    requires names != [] && ValidName(names[0]) && 0 !in names[0]
    requires NonEmptyChunks(chunks) && Concat(chunks) == Concat(Fields(names, zero))
    requires Feed(h.slot, out) == chunks + after && Aligned(Fields(names, zero), chunks)
    ensures var s := ReadEntry(h, Sends(out));
            && s.entry == Name(Text(names[0], 0)) && s.rest == Sends(left)
            && WellFormed(s.h.slot) && !s.h.slot.terminated && AllFit(left) && chunks != []
            && var d := Drop(Drop(chunks, 4), |names[0]|);
            && NonEmptyChunks(d) && Concat(d) == Concat(Fields(names[1..], zero))
            && Feed(s.h.slot, left) == d + after && Aligned(Fields(names[1..], zero), d)
  {
    left := ReadEntryOnFeed(h, out);
    FirstEntry(names, zero);
    EntryRoundTrip(chunks, after, names[0], Concat(Fields(names[1..], zero)));
    AlignedSplits(names, zero, chunks);
  }

  /** The end of the loop: the listing's own end, or that of the sends. */
  lemma EndIsRead(h: History, out: seq<seq<byte>>, zero: bool, chunks: seq<seq<byte>>, after: seq<seq<byte>>)
    requires WellFormed(h.slot) && !h.slot.terminated && AllFit(out)
    requires NonEmptyChunks(chunks) && Concat(chunks) == Concat(Fields([], zero))
    requires Feed(h.slot, out) == chunks + after && Aligned(Fields([], zero), chunks)
    ensures zero || (after != [] && after[0] == []) ==> ReadEntry(h, Sends(out)).entry == End
    ensures !zero && after == [] ==> ReadEntry(h, Sends(out)).entry == Error
  {
    var _ := ReadEntryOnFeed(h, out);
    if zero || (after != [] && after[0] == []) {
      LastEntry(chunks, after, zero);
    } else if after == [] {
      assert chunks == [] && chunks + after == [];
    }
  }

  /** Of the names at positions `from` to `to` the filler takes those before `stop` and refuses the one there. */
  predicate TakesUpTo(accepts: nat -> bool, from: nat, stop: nat, to: nat) {
    from <= stop <= to && (forall i :: from <= i < stop ==> accepts(i)) && (stop < to ==> !accepts(stop))
  }

  /** The first `k` names were collected, and the loop ended properly exactly when those were all and the listing had
      an end. */
  predicate IsOutcome(r: Listed, names: seq<seq<byte>>, k: nat, ended: bool)
    requires k <= |names|
  {
    r.names == Whole(names[..k]) && r.ending == if k == |names| && ended then Completed else Broken
  }

  lemma NamesBehindFirst(h: History, script: seq<Event>, accepts: nat -> bool, count: nat, s: Step)
    requires WellFormed(h.slot) && s == ReadEntry(h, script) && s.entry.Name?
    ensures var r := ReadNames(h, script, accepts, count);
            if accepts(count) then
              var more := ReadNames(s.h, s.rest, accepts, count + 1);
              r.names == [s.entry.text] + more.names && r.ending == more.ending
            else r.names == [] && r.ending == Broken
  {}

  lemma FirstOfWhole(names: seq<seq<byte>>, k: nat)
    requires 0 < k <= |names|
    ensures Whole(names[..k]) == [Text(names[0], 0)] + Whole(names[1..][..k - 1])
  {
    assert names[..k][1..] == names[1..][..k - 1];
  }

  lemma OneMoreOutcome(r: Listed, more: Listed, names: seq<seq<byte>>, k: nat, ended: bool)
    requires 0 < k <= |names| && IsOutcome(more, names[1..], k - 1, ended)
    requires r.names == [Text(names[0], 0)] + more.names && r.ending == more.ending
    ensures IsOutcome(r, names, k, ended)
  {
    FirstOfWhole(names, k);
  }

  predicate GoodNames(names: seq<seq<byte>>) {
    forall n :: n in names ==> ValidName(n) && 0 !in n
  }

  lemma GoodRest(names: seq<seq<byte>>)
    requires GoodNames(names) && names != []
    ensures ValidName(names[0]) && 0 !in names[0] && GoodNames(names[1..])
  {
    assert names[0] in names;
  }

  /** The entries read from here on are `names`, and then `last`. */
  ghost predicate Reads(h: History, script: seq<Event>, names: seq<seq<byte>>, last: Entry)
    requires WellFormed(h.slot)
    decreases |names|
  {
    var s := ReadEntry(h, script);
    if names == [] then s.entry == last
    else s.entry == Name(Text(names[0], 0)) && Reads(s.h, s.rest, names[1..], last)
  }

  /** A listing that crosses no chunk boundary is read entry by entry. */
  lemma {:induction false} AlignedListingIsRead(h: History, out: seq<seq<byte>>, names: seq<seq<byte>>, zero: bool,
                                                chunks: seq<seq<byte>>, after: seq<seq<byte>>)
    requires WellFormed(h.slot) && !h.slot.terminated && AllFit(out) && GoodNames(names)
    requires NonEmptyChunks(chunks) && Concat(chunks) == Concat(Fields(names, zero))
    requires Feed(h.slot, out) == chunks + after && Aligned(Fields(names, zero), chunks)
    requires after == [] || after[0] == []
    ensures Reads(h, Sends(out), names, if zero || after != [] then End else Error)
    decreases |names|
  {
    if names == [] {
      EndIsRead(h, out, zero, chunks, after);
    } else {
      GoodRest(names);
      var left := FirstNameIsRead(h, out, names, zero, chunks, after);
      var d := Drop(Drop(chunks, 4), |names[0]|);
      AlignedListingIsRead(ReadEntry(h, Sends(out)).h, left, names[1..], zero, d, after);
    }
  }

  lemma NoneOffered(h: History, script: seq<Event>, names: seq<seq<byte>>, ended: bool,
                    accepts: nat -> bool, count: nat)
    requires WellFormed(h.slot) && Reads(h, script, names, if ended then End else Error)
    requires names != [] ==> !accepts(count)
    ensures IsOutcome(ReadNames(h, script, accepts, count), names, 0, ended)
  {
    assert Whole(names[..0]) == [];
  }

  /** To a filler that takes the names up to one: those are collected, and the loop ends properly if and only if none
      was refused and the listing has an end. */
  lemma {:induction false} ReadsAreOffered(h: History, script: seq<Event>, names: seq<seq<byte>>, ended: bool,
                                           accepts: nat -> bool, count: nat, stop: nat)
    requires WellFormed(h.slot) && Reads(h, script, names, if ended then End else Error)
    requires TakesUpTo(accepts, count, stop, count + |names|)
    ensures IsOutcome(ReadNames(h, script, accepts, count), names, stop - count, ended)
    decreases |names|
  {
    if stop == count {
      NoneOffered(h, script, names, ended, accepts, count);
    } else {
      var s := ReadEntry(h, script);
      NamesBehindFirst(h, script, accepts, count, s);
      ReadsAreOffered(s.h, s.rest, names[1..], ended, accepts, count + 1, stop);
      OneMoreOutcome(ReadNames(h, script, accepts, count), ReadNames(s.h, s.rest, accepts, count + 1), names,
                     stop - count, ended);
    }
  }

  /** What a length `v` makes of the chunks behind it: more than 10000 is an error, 0 and -1 end the listing, what is
      below -1 is an error, and anything else is a name of at most so many bytes of the next chunk. */
  predicate Decides(v: int, e: Entry, rest: seq<seq<byte>>) {
    && (v > 10000 || v < -1 ==> e == Error)
    && (v == 0 || v == -1 ==> e == End)
    && (1 <= v <= 10000 && rest == [] ==> e == Error)
    && (1 <= v <= 10000 && rest != [] && rest[0] == [] ==> e == End)
    && (1 <= v <= 10000 && rest != [] && rest[0] != [] ==> e == Name(AsText(rest[0][..Min(v, |rest[0]|)], v)))
  }

  lemma LengthInFeed(feed: seq<seq<byte>>, v: int)
    requires feed != [] && Holds32(feed[0], 0, v)
    ensures Decides(v, FeedEntry(feed).entry, Drop(feed, 4))
  {
    var c := feed[0];
    SignedOfFour(c[..4]);
    assert SmallRead(feed, 4) == Bite(4, c[..4], Drop(feed, 4));
    assert Signed(c[..4]) == v;
  }

  lemma LengthDecides(h: History, out: seq<seq<byte>>, v: int)
    requires WellFormed(h.slot) && !h.slot.terminated && AllFit(out)
    requires Feed(h.slot, out) != [] && Holds32(Feed(h.slot, out)[0], 0, v)
    ensures Decides(v, ReadEntry(h, Sends(out)).entry, Drop(Feed(h.slot, out), 4))
  {
    var _ := ReadEntryOnFeed(h, out);
    LengthInFeed(Feed(h.slot, out), v);
  }

  /** Without four bytes in the next chunk there is no length: one to three bytes are a null name, an empty send ends
      the listing, and no send at all is an error. */
  lemma NoLengthDecides(h: History, out: seq<seq<byte>>)
    requires WellFormed(h.slot) && !h.slot.terminated && AllFit(out)
    ensures var e, feed := ReadEntry(h, Sends(out)).entry, Feed(h.slot, out);
            && (feed == [] ==> e == Error)
            && (feed != [] && |feed[0]| == 0 ==> e == End)
            && (feed != [] && 1 <= |feed[0]| <= 3 ==> e == NullName)
  {
    var _ := ReadEntryOnFeed(h, out);
  }

  /** The text of a name ends at its first NUL; bytes that were declared and did not come are unset. */
  lemma {:induction false} TextEndsAtNul(got: seq<byte>, declared: nat)
    requires |got| <= declared
    ensures var t := AsText(got, declared);
            && t.text <= got && 0 !in t.text
            && (|t.text| < |got| ==> got[|t.text|] == 0 && t.unset == 0)
            && (|t.text| == |got| ==> t.unset == declared - |got|)
  {
    if got != [] && got[0] != 0 {
      TextEndsAtNul(got[1..], declared);
      var rest := CString(got[1..]);
      assert CString(got) == [got[0]] + rest && got == [got[0]] + got[1..];
    }
  }

  // ----- A listing that is one message

  /** Where the buffer that holds offset `a` of a message ends. */
  function BufferEnd(a: nat): nat {
    a - a % 51200 + 51200
  }

  /** In a message cut at multiples of the buffer size, no field that begins at `a` or later straddles. */
  predicate NoStraddle(fields: seq<seq<byte>>, a: nat) {
    fields == [] || (a + |fields[0]| <= BufferEnd(a) && NoStraddle(fields[1..], a + |fields[0]|))
  }

  /** The chunks of message `m` from offset `a` on. */
  function ChunksFrom(m: seq<byte>, a: nat): seq<seq<byte>>
    requires a <= |m|
  {
    if a == |m| then []
    else
      var e := Min(BufferEnd(a), |m|);
      [m[a..e]] + Body(m[e..])
  }

  lemma ChunksFromBufferStart(m: seq<byte>, a: nat)
    requires a <= |m| && WholeBuffers(a)
    ensures ChunksFrom(m, a) == Body(m[a..])
  {
    if a < |m| {
      var e := Min(BufferEnd(a), |m|);
      assert BufferEnd(a) == a + BUFFER_SIZE;
      if |m| - a > BUFFER_SIZE {
        assert m[a..][BUFFER_SIZE..] == m[e..];
        assert m[a..][..BUFFER_SIZE] == m[a..e];
      } else {
        assert m[a..e] == m[a..];
      }
    }
  }

  lemma DropFromChunks(m: seq<byte>, a: nat, n: nat)
    requires 0 < n && a + n <= |m| && a + n <= BufferEnd(a)
    ensures Drop(ChunksFrom(m, a), n) == ChunksFrom(m, a + n)
  {
    var e := Min(BufferEnd(a), |m|);
    var cs := ChunksFrom(m, a);
    assert cs[0] == m[a..e] && cs[1..] == Body(m[e..]);
    if a + n == e {
      RestOfChunks(m, a);
    } else {
      DropInBuffer(m, a, n);
    }
  }

  lemma DropInBuffer(m: seq<byte>, a: nat, n: nat)
    requires 0 < n && a + n < Min(BufferEnd(a), |m|)
    ensures Drop(ChunksFrom(m, a), n) == ChunksFrom(m, a + n)
  {
    SameBuffer(a, n);
    var e := Min(BufferEnd(a), |m|);
    assert m[a..e][n..] == m[a + n..e];
  }

  lemma RestOfChunks(m: seq<byte>, a: nat)
    requires a < |m|
    ensures var e := Min(BufferEnd(a), |m|); Body(m[e..]) == ChunksFrom(m, e)
  {
    var e := Min(BufferEnd(a), |m|);
    if e == |m| {
      assert m[e..] == [];
    } else {
      BufferEndIsWhole(a);
      ChunksFromBufferStart(m, e);
    }
  }

  lemma BufferEndIsWhole(a: nat)
    ensures WholeBuffers(BufferEnd(a))
  {}

  lemma SameBuffer(a: nat, n: nat)
    requires a + n < BufferEnd(a)
    ensures BufferEnd(a + n) == BufferEnd(a)
  {}

  lemma FitsFirstChunk(m: seq<byte>, a: nat, n: nat)
    requires 0 < n && a + n <= |m|
    ensures ChunksFrom(m, a) != [] && (n <= |ChunksFrom(m, a)[0]| <==> a + n <= BufferEnd(a))
  {}

  lemma RestOfFields(fields: seq<seq<byte>>, m: seq<byte>, a: nat)
    requires fields != [] && a <= |m| && Concat(fields) == m[a..]
    ensures a + |fields[0]| <= |m| && Concat(fields[1..]) == m[a + |fields[0]|..]
  {
    var n := |fields[0]|;
    assert Concat(fields[1..]) == Concat(fields)[n..];
    assert m[a..][n..] == m[a + n..];
  }

  lemma {:induction false} AlignedInMessage(fields: seq<seq<byte>>, m: seq<byte>, a: nat)
    requires NonEmptyChunks(fields) && a <= |m| && Concat(fields) == m[a..]
    ensures Aligned(fields, ChunksFrom(m, a)) <==> NoStraddle(fields, a)
    decreases |fields|
  {
    if fields != [] {
      var n := |fields[0]|;
      assert |m[a..]| == n + |Concat(fields[1..])|;
      FitsFirstChunk(m, a, n);
      if a + n <= BufferEnd(a) {
        DropFromChunks(m, a, n);
        RestOfFields(fields, m, a);
        AlignedInMessage(fields[1..], m, a + n);
      }
    }
  }

  lemma {:induction false} FieldsNonEmpty(names: seq<seq<byte>>, zero: bool)
    requires forall n :: n in names ==> ValidName(n)
    ensures NonEmptyChunks(Fields(names, zero))
  {
    if names != [] {
      assert names[0] in names;
      FieldsNonEmpty(names[1..], zero);
    }
  }

  lemma BodyCovers(m: seq<byte>)
    ensures NonEmptyChunks(Body(m)) && Concat(Body(m)) == m
  {
    ChunksCover(m);
    forall i | 0 <= i < |Body(m)| ensures Body(m)[i] != [] {
      assert Body(m)[i] in Chunks(m);
    }
  }

  /** A listing sent by one `memslot_send_fully`, closed by a zero length or by a zero-length send, on a
      slot the client has just reset: it arrives as sent if and only if no length or name straddles
      a multiple of the buffer size and no name contains a NUL. */
  lemma ListingInOneMessage(slot: Slot, names: seq<seq<byte>>, zero: bool)
    requires |slot.buffer| == BUFFER_SIZE && !slot.terminated
    requires forall n :: n in names ==> ValidName(n)
    ensures var fields := Fields(names, zero);
            Collected(History(Reset(slot), [], []), Sends(Plan(Concat(fields), !zero)), names, 0)
            <==> NoStraddle(fields, 0) && NoNul(names)
  {
    var fields := Fields(names, zero);
    var m := Concat(fields);
    FieldsNonEmpty(names, zero);
    ChunksFromBufferStart(m, 0);
    assert m[0..] == m;
    AlignedInMessage(fields, m, 0);
    BodyCovers(m);
    PlanFits(m, !zero);
    var after: seq<seq<byte>> := if zero then [] else [[]];
    ListingRoundTrip(History(Reset(slot), [], []), Plan(m, !zero), names, zero, Body(m), after, 0);
  }

  lemma MessageIsRead(slot: Slot, names: seq<seq<byte>>, zero: bool, marked: bool)
    requires |slot.buffer| == BUFFER_SIZE && !slot.terminated && GoodNames(names)
    requires NoStraddle(Fields(names, zero), 0)
    ensures Reads(History(Reset(slot), [], []), Sends(Plan(Concat(Fields(names, zero)), marked)), names,
                  if zero || marked then End else Error)
  {
    var fields := Fields(names, zero);
    var m := Concat(fields);
    FieldsNonEmpty(names, zero);
    ChunksFromBufferStart(m, 0);
    assert m[0..] == m;
    AlignedInMessage(fields, m, 0);
    BodyCovers(m);
    PlanFits(m, marked);
    var after: seq<seq<byte>> := if marked then [[]] else [];
    AlignedListingIsRead(History(Reset(slot), [], []), Plan(m, marked), names, zero, Body(m), after);
  }

  /** To a filler that takes the first `k` names of a listing in one message that does not straddle: the loop offers
      those, and ends properly if and only if none was refused and the listing has an end. */
  lemma ListingOutcome(slot: Slot, names: seq<seq<byte>>, zero: bool, marked: bool, accepts: nat -> bool, k: nat)
    requires |slot.buffer| == BUFFER_SIZE && !slot.terminated
    requires GoodNames(names) && NoStraddle(Fields(names, zero), 0) && TakesUpTo(accepts, 0, k, |names|)
    ensures var out := Plan(Concat(Fields(names, zero)), marked);
            var r := ReadNames(History(Reset(slot), [], []), Sends(out), accepts, 0);
            && r.names == Whole(names[..k])
            && r.ending == if k == |names| && (zero || marked) then Completed else Broken
  {
    MessageIsRead(slot, names, zero, marked);
    var out := Plan(Concat(Fields(names, zero)), marked);
    ReadsAreOffered(History(Reset(slot), [], []), Sends(out), names, zero || marked, accepts, 0, k);
  }

  lemma NoStraddleEntry(n: seq<byte>, names: seq<seq<byte>>, a: nat)
    ensures NoStraddle(Fields([n] + names, true), a)
       <==> a + 4 <= BufferEnd(a) && a + 4 + |n| <= BufferEnd(a + 4) && NoStraddle(Fields(names, true), a + 4 + |n|)
  {
    var fs := Fields([n] + names, true);
    assert ([n] + names)[1..] == names;
    assert fs == [Encode(|n|, 4), n] + Fields(names, true);
    assert fs[1..] == [n] + Fields(names, true) && fs[1..][1..] == Fields(names, true);
  }

  function Copies(x: seq<byte>, k: nat, tail: seq<seq<byte>>): seq<seq<byte>> {
    if k == 0 then tail else [x] + Copies(x, k - 1, tail)
  }

  lemma {:induction false} CopiesStraddle(x: seq<byte>, k: nat, tail: seq<seq<byte>>, a: nat)
    requires |x| == 10000 && !NoStraddle(Fields(tail, true), a + 10004 * k)
    ensures !NoStraddle(Fields(Copies(x, k, tail), true), a)
  {
    if k > 0 {
      CopiesStraddle(x, k - 1, tail, a + 10004);
      NoStraddleEntry(x, Copies(x, k - 1, tail), a);
    }
  }

  lemma {:induction false} CopiesValid(x: seq<byte>, k: nat, tail: seq<seq<byte>>)
    requires ValidName(x) && forall n :: n in tail ==> ValidName(n)
    ensures forall n :: n in Copies(x, k, tail) ==> ValidName(n)
  {
    if k > 0 {
      CopiesValid(x, k - 1, tail);
    }
  }

  lemma LastStraddles(y: seq<byte>)
    requires |y| == 2000
    ensures !NoStraddle(Fields([y], true), 10004 * 5)
  {
    NoStraddleEntry(y, [], 50020);
    assert [y] + [] == [y];
  }

  /** A listing that is not collected: five names of 10000 bytes end at 50020, so the sixth, of 2000 bytes, lies on
      both sides of 51200. */
  lemma StraddlingNameIsLost(slot: Slot, x: seq<byte>, y: seq<byte>)
    requires |slot.buffer| == BUFFER_SIZE && !slot.terminated && |x| == 10000 && |y| == 2000
    ensures var names := Copies(x, 5, [y]);
            && (forall n :: n in names ==> ValidName(n))
            && !Collected(History(Reset(slot), [], []), Sends(Plan(Concat(Fields(names, true)), false)), names, 0)
  {
    LastStraddles(y);
    CopiesStraddle(x, 5, [y], 0);
    CopiesValid(x, 5, [y]);
    ListingInOneMessage(slot, Copies(x, 5, [y]), true);
  }
}

/** What the multiplexer guarantees: its caches never change what is read (a fresh multiplexer
    resumes anywhere), and a batch read pop by pop is exactly a one-pass decoding of it. */
module MultiplexerProperties {
  import opened Types
  import opened Rlp
  import opened SequencerMessages
  import opened Multiplexer

  // ---- Scanning

  lemma {:induction false} ScanStops(segments: seq<bytes>, c: Cursor, target: nat)
    requires c.passed <= target
    ensures var r := Scan(segments, c, target);
            && c.segment <= r.segment
            && (c.segment <= |segments| ==> r.segment <= |segments|)
            && r.passed <= target
            && (r.segment < |segments| ==> r.passed == target && HoldsPlace(segments[r.segment]))
    decreases |segments| - c.segment
  {
    if c.segment < |segments| {
      var s := segments[c.segment];
      if !HoldsPlace(s) {
        var (t, b) := Tick(s, c.timestamp, c.block);
        ScanStops(segments, Cursor(c.segment + 1, t, b, c.passed), target);
      } else if c.passed < target {
        ScanStops(segments, c.(segment := c.segment + 1, passed := c.passed + 1), target);
      }
    }
  }

  /** Scanning in two goes is scanning in one. */
  lemma {:induction false} ScanResumes(segments: seq<bytes>, c: Cursor, first: nat, target: nat)
    requires first <= target
    ensures Scan(segments, Scan(segments, c, first), target) == Scan(segments, c, target)
    decreases |segments| - c.segment
  {
    if c.segment < |segments| {
      var s := segments[c.segment];
      if !HoldsPlace(s) {
        var (t, b) := Tick(s, c.timestamp, c.block);
        ScanResumes(segments, Cursor(c.segment + 1, t, b, c.passed), first, target);
      } else if c.passed < first {
        ScanResumes(segments, c.(segment := c.segment + 1, passed := c.passed + 1), first, target);
      }
    }
  }

  // ---- Resuming

  /** The caches hold some earlier stage of scanning the batch from its start. */
  ghost predicate Coherent(w: World, m: Mux) {
    match m.cached
    case None => m.cursor == ORIGIN
    case Some(sm) =>
      && m.inboxPos < |w.inbox|
      && Parse(w.decoder, w.inbox[m.inboxPos]) == Ok(sm)
      && exists t: nat :: t <= m.position && m.cursor == Scan(sm.segments, ORIGIN, t)
  }

  /** A multiplexer that knows only its position in the inbox and the delayed count. */
  function Fresh(m: Mux): Mux {
    m.(cached := None, cursor := ORIGIN)
  }

  /** One pop: the caches make no difference to the result or to the state that follows. */
  lemma PopResumes(w: World, m: Mux)
    requires Coherent(w, m)
    ensures Pop(w, m) == Pop(w, Fresh(m))
    ensures Coherent(w, Pop(w, m).0)
  {
    hide Parse;
    hide Scan;
    hide Fetch;
    hide IsLast;
    if m.cached.Some? {
      var sm := m.cached.value;
      var t: nat :| t <= m.position && m.cursor == Scan(sm.segments, ORIGIN, t);
      ScanResumes(sm.segments, ORIGIN, t, m.position);
    }
  }

  /** The results of n pops, and the state after them. */
  function Pops(w: World, m: Mux, n: nat): (seq<Result<MessageWithMeta, MuxError>>, Mux)
    decreases n
  {
    if n == 0 then ([], m)
    else
      var (m1, r) := Pop(w, m);
      var (rest, last) := Pops(w, m1, n - 1);
      ([r] + rest, last)
  }

  /** The same with every pop made by a fresh multiplexer. */
  function FreshPops(w: World, m: Mux, n: nat): (seq<Result<MessageWithMeta, MuxError>>, Mux)
    decreases n
  {
    if n == 0 then ([], m)
    else
      var (m1, r) := Pop(w, Fresh(m));
      var (rest, last) := FreshPops(w, m1, n - 1);
      ([r] + rest, last)
  }

  /** Resume equivalence: however many messages were popped, on whatever batches, replaying each pop
      from the bare position gives the same messages. */
  lemma {:induction false} ResumeEquivalence(w: World, m: Mux, n: nat)
    requires Coherent(w, m)
    ensures Pops(w, m, n) == FreshPops(w, m, n)
    ensures Coherent(w, Pops(w, m, n).1)
    decreases n
  {
    hide Pop;
    if n > 0 {
      PopResumes(w, m);
      ResumeEquivalence(w, Pop(w, m).0, n - 1);
    }
  }

  // ---- Segments by their first byte

  /** A clock as a reader sees it: its own value within the bounds, and otherwise the bound it is beyond. */
  predicate SeenWithin(clock: u64, lo: u64, hi: u64, seen: u64) {
    && (lo <= clock <= hi ==> seen == clock)
    && (clock < lo ==> seen == lo)
    && (lo <= clock && hi < clock ==> seen == hi)
  }

  /** A message of the sequencer's own, under the bounds of its batch. */
  predicate IsOwnMessage(sm: SequencerMessage, timestamp: u64, block: u64, delayedRead: u64, data: bytes,
                         m: MessageWithMeta)
  {
    && m.delayedRead == delayedRead && m.message.Some?
    && var L1Message(header, l2msg, gas) := m.message.value;
    && l2msg == data && gas == None
    && header.kind == L1_KIND_L2_MESSAGE && header.poster == BATCH_POSTER_ADDRESS
    && header.requestId == None && header.l1BaseFee == Some(0)
    && SeenWithin(timestamp, sm.minTimestamp, sm.maxTimestamp, header.timestamp)
    && SeenWithin(block, sm.minL1Block, sm.maxL1Block, header.blockNumber)
  }

  /** What each kind of segment stands for: messages plain and compressed, and the next delayed message, or an invalid
      one when the batch's count is reached. No other kind holds a message. */
  lemma MessageByKind(w: World, sm: SequencerMessage, segment: bytes, timestamp: u64, block: u64, delayedRead: u64)
    requires segment != []
    ensures var (fetched, after) := Fetch(w, sm, segment, timestamp, block, delayedRead);
            var data := segment[1..];
            match segment[0]
            case 0 =>
              after == delayedRead && fetched.Message? &&
              IsOwnMessage(sm, timestamp, block, delayedRead, data, fetched.msg)
            case 1 =>
              && after == delayedRead
              && var inner := w.decoder.decompress(data, 256 * 1024);
              && if inner.None? then fetched.Unparsable?
                 else fetched.Message? && IsOwnMessage(sm, timestamp, block, delayedRead, inner.value, fetched.msg)
            case 2 =>
              if delayedRead >= sm.afterDelayed then
                after == delayedRead &&
                fetched == Message(MessageWithMeta(Some(INVALID_L1_MESSAGE), sm.afterDelayed))
              else if delayedRead !in w.delayed then after == delayedRead && fetched.Unavailable?
              else
                && after == delayedRead + 1
                && fetched == Message(MessageWithMeta(Some(w.delayed[delayedRead]), delayedRead + 1))
            case _ => after == delayedRead && fetched.Unparsable?
  {
  }

  /** Which segments move the clocks: an integer moves the timestamp or the block by as much, modulo the word. */
  lemma ClockByKind(segment: bytes, timestamp: u64, block: u64)
    ensures var (t, b) := Tick(segment, timestamp, block);
            if segment != [] && segment[0] in {3, 4} && DecodeUint(segment[1..]).Some? then
              var diff := DecodeUint(segment[1..]).value;
              if segment[0] == 3 then t == (timestamp + diff) % TWO64 && b == block
              else t == timestamp && b == (block + diff) % TWO64
            else t == timestamp && b == block
    ensures HoldsPlace(segment) <==> segment != [] && segment[0] !in {3, 4}
    ensures CarriesMessage(segment) <==> segment != [] && segment[0] in {0, 1, 2}
  {
  }

  // ---- One-pass decoding

  /** Every delayed message in [from, until) can be read. */
  ghost predicate Readable(w: World, from: u64, until: u64) {
    forall i: u64 :: from <= i < until ==> i in w.delayed
  }

  /** The message a segment stands for in a batch whose delayed messages can be read. */
  ghost function Head(w: World, sm: SequencerMessage, segment: bytes, timestamp: u64, block: u64, delayedRead: u64)
    : (r: (MessageWithMeta, u64))
    requires segment != []
    requires delayedRead <= sm.afterDelayed && Readable(w, delayedRead, sm.afterDelayed)
    ensures delayedRead <= r.1 <= delayedRead + 1 && r.1 <= sm.afterDelayed
    ensures r.0.delayedRead == r.1 && r.0.message.Some?
    ensures segment[0] == KIND_DELAYED && delayedRead < sm.afterDelayed ==> r.1 == delayedRead + 1
  {
    var (fetched, d) := Fetch(w, sm, segment, timestamp, block, delayedRead);
    (if fetched.Message? then fetched.msg else Invalid(d), d)
  }

  /** The messages of (the rest of) a batch, read in one pass without positions or caches. */
  ghost function Decode(w: World, sm: SequencerMessage, segments: seq<bytes>, timestamp: u64, block: u64,
      delayedRead: u64)
    : (r: seq<MessageWithMeta>)
    requires delayedRead <= sm.afterDelayed && Readable(w, delayedRead, sm.afterDelayed)
    ensures r != []
    decreases |segments| + (sm.afterDelayed - delayedRead)
  {
    if segments != [] && !HoldsPlace(segments[0]) then
      var (t, b) := Tick(segments[0], timestamp, block);
      Decode(w, sm, segments[1..], t, b, delayedRead)
    else
      var rest := if segments == [] then [] else segments[1..];
      var (msg, d) := Head(w, sm, SegmentAt(segments, 0), timestamp, block, delayedRead);
      if d >= sm.afterDelayed && !AnyCarriesMessage(rest) then [msg]
      else [msg] + Decode(w, sm, rest, timestamp, block, d)
  }

  /** Skipping the segments that hold no place does not change what is decoded. */
  lemma {:induction false} DecodeFromScan(w: World, sm: SequencerMessage, c: Cursor, delayedRead: u64)
    requires delayedRead <= sm.afterDelayed && Readable(w, delayedRead, sm.afterDelayed)
    requires c.segment <= |sm.segments|
    ensures var r := Scan(sm.segments, c, c.passed);
            && r.segment <= |sm.segments|
            && Decode(w, sm, sm.segments[c.segment..], c.timestamp, c.block, delayedRead) ==
               Decode(w, sm, sm.segments[r.segment..], r.timestamp, r.block, delayedRead)
    decreases |sm.segments| - c.segment
  {
    if c.segment < |sm.segments| && !HoldsPlace(sm.segments[c.segment]) {
      var (t, b) := Tick(sm.segments[c.segment], c.timestamp, c.block);
      var rest := sm.segments[c.segment..];
      assert rest[0] == sm.segments[c.segment] && rest[1..] == sm.segments[c.segment + 1..];
      DecodeFromScan(w, sm, Cursor(c.segment + 1, t, b, c.passed), delayedRead);
    }
  }

  /** The batch a multiplexer is reading or about to read. */
  ghost predicate Reading(w: World, m: Mux, sm: SequencerMessage) {
    && Coherent(w, m)
    && m.inboxPos < |w.inbox|
    && Parse(w.decoder, w.inbox[m.inboxPos]) == Ok(sm)
    && m.delayedRead <= sm.afterDelayed
    && Readable(w, m.delayedRead, sm.afterDelayed)
  }

  /** The messages still to come from the batch being read. */
  ghost function Pending(w: World, m: Mux, sm: SequencerMessage): (r: seq<MessageWithMeta>)
    requires Reading(w, m, sm)
    ensures r != []
  {
    var c := Scan(sm.segments, ORIGIN, m.position);
    ScanStops(sm.segments, ORIGIN, m.position);
    Decode(w, sm, sm.segments[c.segment..], c.timestamp, c.block, m.delayedRead)
  }

  /** A pop takes the first pending message; after the last one it moves to the next batch, with
      the delayed count the batch declares. */
  lemma PopTakesPending(w: World, m: Mux, sm: SequencerMessage)
    requires Reading(w, m, sm)
    ensures var (m1, r) := Pop(w, m);
            var pending := Pending(w, m, sm);
            && r == Ok(pending[0])
            && (|pending| == 1 ==> m1 == Mux(m.inboxPos + 1, 0, sm.afterDelayed, None, ORIGIN))
            && (|pending| > 1 ==> m1.inboxPos == m.inboxPos && m1.position == m.position + 1 &&
                                  Reading(w, m1, sm) && Pending(w, m1, sm) == pending[1..])
  {
    var c := Scan(sm.segments, ORIGIN, m.position);
    var next := sm.segments[Min(c.segment + 1, |sm.segments|)..];
    var msg, d := PopDelivers(w, m, sm, c);
    if !IsLast(sm, c.segment, d) {
      PendingContinues(w, m, Pop(w, m).0, sm, c);
      var rest := Decode(w, sm, next, c.timestamp, c.block, d);
      assert ([msg] + rest)[1..] == rest;
    }
    hide *;
  }

  /** The state and result of a pop, in terms of the scan from the start of the batch. */
  lemma PopDelivers(w: World, m: Mux, sm: SequencerMessage, c: Cursor) returns (msg: MessageWithMeta, d: u64)
    requires Reading(w, m, sm) && c == Scan(sm.segments, ORIGIN, m.position)
    ensures m.delayedRead <= d <= sm.afterDelayed && Readable(w, d, sm.afterDelayed)
    ensures Pop(w, m) ==
            (if IsLast(sm, c.segment, d) then Mux(m.inboxPos + 1, 0, sm.afterDelayed, None, ORIGIN)
             else Mux(m.inboxPos, m.position + 1, d, Some(sm), c), Ok(msg))
    ensures Pending(w, m, sm) ==
            if IsLast(sm, c.segment, d) then [msg]
            else [msg] + Decode(w, sm, sm.segments[Min(c.segment + 1, |sm.segments|)..], c.timestamp, c.block, d)
    ensures !IsLast(sm, c.segment, d) ==> Reading(w, Pop(w, m).0, sm)
  {
    PopResumes(w, m);
    hide Parse;
    ScanStops(sm.segments, ORIGIN, m.position);
    hide Scan;
    var here := sm.segments[c.segment..];
    assert SegmentAt(sm.segments, c.segment) == SegmentAt(here, 0);
    var (msg', d') := Head(w, sm, SegmentAt(here, 0), c.timestamp, c.block, m.delayedRead);
    msg, d := msg', d';
    assert Pop(w, m) == PopFrom(w, Fresh(m), sm);
    assert Pop(w, m) ==
           (if IsLast(sm, c.segment, d) then Mux(m.inboxPos + 1, 0, sm.afterDelayed, None, ORIGIN)
            else Mux(m.inboxPos, m.position + 1, d, Some(sm), c), Ok(msg));
    hide Pop;
    hide Fetch;
    hide Head;
    DecodeHead(w, sm, here, c.timestamp, c.block, m.delayedRead);
    assert (if here == [] then [] else here[1..]) == sm.segments[Min(c.segment + 1, |sm.segments|)..];
  }

  lemma DecodeHead(w: World, sm: SequencerMessage, segments: seq<bytes>, timestamp: u64, block: u64, delayedRead: u64)
    requires delayedRead <= sm.afterDelayed && Readable(w, delayedRead, sm.afterDelayed)
    requires segments == [] || HoldsPlace(segments[0])
    ensures var rest := if segments == [] then [] else segments[1..];
            var (msg, d) := Head(w, sm, SegmentAt(segments, 0), timestamp, block, delayedRead);
            Decode(w, sm, segments, timestamp, block, delayedRead) ==
            if d >= sm.afterDelayed && !AnyCarriesMessage(rest) then [msg]
            else [msg] + Decode(w, sm, rest, timestamp, block, d)
  {
    hide Head;
  }

  /** Past a message, the pending messages are those decoded from the next segment on. */
  lemma PendingContinues(w: World, m: Mux, m1: Mux, sm: SequencerMessage, c: Cursor)
    requires c == Scan(sm.segments, ORIGIN, m.position)
    requires m1.position == m.position + 1
    requires Reading(w, m1, sm)
    ensures Pending(w, m1, sm) ==
            Decode(w, sm, sm.segments[Min(c.segment + 1, |sm.segments|)..], c.timestamp, c.block, m1.delayedRead)
  {
    ScanStops(sm.segments, ORIGIN, m.position);
    ScanResumes(sm.segments, ORIGIN, m.position, m.position + 1);
    if c.segment < |sm.segments| {
      var after := c.(segment := c.segment + 1, passed := c.passed + 1);
      assert Scan(sm.segments, c, m.position + 1) == Scan(sm.segments, after, after.passed);
      DecodeFromScan(w, sm, after, m1.delayedRead);
    }
  }

  /** Popping as often as there are messages returns them in order, without error, and ends there. */
  ghost predicate PopsExactly(w: World, m: Mux, msgs: seq<MessageWithMeta>, end: Mux) {
    var (results, m1) := Pops(w, m, |msgs|);
    && |results| == |msgs|
    && (forall i :: 0 <= i < |msgs| ==> results[i] == Ok(msgs[i]))
    && m1 == end
  }

  /** Popping through a whole batch returns its one-pass decoding and nothing else. */
  lemma {:induction false} BatchIsDecoded(w: World, m: Mux, sm: SequencerMessage)
    requires Reading(w, m, sm)
    ensures PopsExactly(w, m, Pending(w, m, sm), Mux(m.inboxPos + 1, 0, sm.afterDelayed, None, ORIGIN))
    decreases |Pending(w, m, sm)|
  {
    var pending := Pending(w, m, sm);
    PopTakesPending(w, m, sm);
    if |pending| > 1 {
      BatchIsDecoded(w, Pop(w, m).0, sm);
    } else {
      assert Pops(w, Pop(w, m).0, 0) == ([], Pop(w, m).0);
    }
  }

  /** At the start of a batch everything in it is pending. */
  lemma PendingAtStart(w: World, inboxPos: nat, sm: SequencerMessage, delayedRead: u64)
    requires Reading(w, Mux(inboxPos, 0, delayedRead, None, ORIGIN), sm)
    ensures Pending(w, Mux(inboxPos, 0, delayedRead, None, ORIGIN), sm) ==
            Decode(w, sm, sm.segments, 0, 0, delayedRead)
  {
    DecodeFromScan(w, sm, ORIGIN, delayedRead);
    assert sm.segments[0..] == sm.segments;
  }

  // ---- What every batch guarantees, whatever its bytes

  /** Delayed counts rise by at most one per message. */
  predicate StepsByOne(from: u64, msgs: seq<MessageWithMeta>) {
    forall i :: 0 <= i < |msgs| ==> CountBefore(from, msgs, i) <= msgs[i].delayedRead <= CountBefore(from, msgs, i) + 1
  }

  function CountBefore(from: u64, msgs: seq<MessageWithMeta>, i: nat): u64
    requires i <= |msgs|
  {
    if i == 0 then from else msgs[i - 1].delayedRead
  }

  lemma StepsAfterFirst(from: u64, first: MessageWithMeta, tail: seq<MessageWithMeta>)
    requires from <= first.delayedRead <= from + 1
    requires StepsByOne(first.delayedRead, tail)
    ensures StepsByOne(from, [first] + tail)
  {
    var msgs := [first] + tail;
    forall i | 0 < i < |msgs|
      ensures CountBefore(from, msgs, i) <= msgs[i].delayedRead <= CountBefore(from, msgs, i) + 1
    {
      assert msgs[i] == tail[i - 1] && CountBefore(from, msgs, i) == CountBefore(first.delayedRead, tail, i - 1);
    }
  }

  lemma {:induction false} DecodeSteps(w: World, sm: SequencerMessage, segments: seq<bytes>,
                                       timestamp: u64, block: u64, delayedRead: u64)
    requires delayedRead <= sm.afterDelayed && Readable(w, delayedRead, sm.afterDelayed)
    ensures StepsByOne(delayedRead, Decode(w, sm, segments, timestamp, block, delayedRead))
    ensures forall msg <- Decode(w, sm, segments, timestamp, block, delayedRead) :: msg.message.Some?
    decreases |segments| + (sm.afterDelayed - delayedRead)
  {
    if segments != [] && !HoldsPlace(segments[0]) {
      var (t, b) := Tick(segments[0], timestamp, block);
      DecodeSteps(w, sm, segments[1..], t, b, delayedRead);
    } else {
      var rest := if segments == [] then [] else segments[1..];
      var (msg, d) := Head(w, sm, SegmentAt(segments, 0), timestamp, block, delayedRead);
      if !(d >= sm.afterDelayed && !AnyCarriesMessage(rest)) {
        DecodeSteps(w, sm, rest, timestamp, block, d);
        StepsAfterFirst(delayedRead, msg, Decode(w, sm, rest, timestamp, block, d));
      }
    }
  }

  /** A batch ends exactly at the delayed count it declares, after boundedly many messages. */
  lemma {:induction false} DecodeEnds(w: World, sm: SequencerMessage, segments: seq<bytes>,
                                      timestamp: u64, block: u64, delayedRead: u64)
    requires delayedRead <= sm.afterDelayed && Readable(w, delayedRead, sm.afterDelayed)
    ensures var msgs := Decode(w, sm, segments, timestamp, block, delayedRead);
            && msgs[|msgs| - 1].delayedRead == sm.afterDelayed
            && |msgs| <= |segments| + (sm.afterDelayed - delayedRead) + 1
    decreases |segments| + (sm.afterDelayed - delayedRead)
  {
    if segments != [] && !HoldsPlace(segments[0]) {
      var (t, b) := Tick(segments[0], timestamp, block);
      DecodeEnds(w, sm, segments[1..], t, b, delayedRead);
    } else {
      var rest := if segments == [] then [] else segments[1..];
      var (msg, d) := Head(w, sm, SegmentAt(segments, 0), timestamp, block, delayedRead);
      if !(d >= sm.afterDelayed && !AnyCarriesMessage(rest)) {
        DecodeEnds(w, sm, rest, timestamp, block, d);
        var tail := Decode(w, sm, rest, timestamp, block, d);
        assert ([msg] + tail)[|tail|] == tail[|tail| - 1];
      }
    }
  }

  // ---- Progress on any bytes

  /** What is left of the current batch: segments not yet passed, and delayed messages not yet read. */
  ghost function Remaining(w: World, m: Mux): nat {
    if m.inboxPos >= |w.inbox| || Parse(w.decoder, w.inbox[m.inboxPos]).Err? then 0
    else
      var sm := Parse(w.decoder, w.inbox[m.inboxPos]).value;
      ScanStops(sm.segments, ORIGIN, m.position);
      |sm.segments| - Scan(sm.segments, ORIGIN, m.position).segment + Max(0, sm.afterDelayed - m.delayedRead)
  }

  /** Every pop without a backend error moves to the next batch or uses up part of this one, whatever
      the batch bytes and delayed counts are. */
  lemma PopProgress(w: World, m: Mux)
    requires Coherent(w, m) && Pop(w, m).1.Ok?
    ensures Coherent(w, Pop(w, m).0)
    ensures var m1 := Pop(w, m).0;
            || m1.inboxPos == m.inboxPos + 1
            || (m1.inboxPos == m.inboxPos && Remaining(w, m1) < Remaining(w, m))
  {
    PopResumes(w, m);
    hide Parse;
    hide Scan;
    hide Fetch;
    hide AnyCarriesMessage;
    var sm := Parse(w.decoder, w.inbox[m.inboxPos]).value;
    ScanAdvances(sm.segments, m.position);
    var c := Scan(sm.segments, ORIGIN, m.position);
    FetchAdvances(w, sm, SegmentAt(sm.segments, c.segment), c.timestamp, c.block, m.delayedRead);
    assert Pop(w, m) == PopFrom(w, Fresh(m), sm);
  }

  lemma FetchAdvances(w: World, sm: SequencerMessage, segment: bytes, timestamp: u64, block: u64, delayedRead: u64)
    ensures segment != [] ==>
              var (fetched, d) := Fetch(w, sm, segment, timestamp, block, delayedRead);
              && delayedRead <= d
              && (segment[0] == KIND_DELAYED && fetched.Message? && delayedRead < sm.afterDelayed ==>
                   d == delayedRead + 1)
              && (segment[0] == KIND_DELAYED && delayedRead >= sm.afterDelayed ==> d == delayedRead)
  {
  }

  lemma ScanAdvances(segments: seq<bytes>, target: nat)
    ensures var c, c1 := Scan(segments, ORIGIN, target), Scan(segments, ORIGIN, target + 1);
            && c.segment <= c1.segment <= |segments|
            && (c.segment < |segments| ==> c.segment < c1.segment)
  {
    var c := Scan(segments, ORIGIN, target);
    ScanStops(segments, ORIGIN, target);
    ScanResumes(segments, ORIGIN, target, target + 1);
    ScanStops(segments, ORIGIN, target + 1);
    if c.segment < |segments| {
      var next := c.(segment := c.segment + 1, passed := c.passed + 1);
      assert Scan(segments, c, target + 1) == Scan(segments, next, target + 1);
      ScanStops(segments, next, target + 1);
    }
  }

  /** Worlds that hold the same delayed messages in [from, until). */
  ghost predicate SameDelayed(w: World, w1: World, from: u64, until: u64) {
    forall i: u64 :: from <= i < until && i in w.delayed ==> i in w1.delayed && w1.delayed[i] == w.delayed[i]
  }

  /** What the backend's other batches and delayed messages are has no bearing on decoding a batch. */
  lemma {:induction false} DecodeIsLocal(w: World, w1: World, sm: SequencerMessage, segments: seq<bytes>,
                                         timestamp: u64, block: u64, delayedRead: u64)
    requires delayedRead <= sm.afterDelayed && Readable(w, delayedRead, sm.afterDelayed)
    requires w1.decoder == w.decoder && SameDelayed(w, w1, delayedRead, sm.afterDelayed)
    ensures Readable(w1, delayedRead, sm.afterDelayed)
    ensures Decode(w, sm, segments, timestamp, block, delayedRead) ==
        Decode(w1, sm, segments, timestamp, block, delayedRead)
    decreases |segments| + (sm.afterDelayed - delayedRead)
  {
    if segments != [] && !HoldsPlace(segments[0]) {
      var (t, b) := Tick(segments[0], timestamp, block);
      DecodeIsLocal(w, w1, sm, segments[1..], t, b, delayedRead);
    } else {
      var rest := if segments == [] then [] else segments[1..];
      var (msg, d) := Head(w, sm, SegmentAt(segments, 0), timestamp, block, delayedRead);
      assert Head(w1, sm, SegmentAt(segments, 0), timestamp, block, delayedRead) == (msg, d);
      hide Head;
      if !(d >= sm.afterDelayed && !AnyCarriesMessage(rest)) {
        DecodeIsLocal(w, w1, sm, rest, timestamp, block, d);
      }
    }
  }
}

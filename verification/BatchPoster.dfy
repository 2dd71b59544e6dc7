/** The batch poster: turns a run of log messages into batch segments, trims what does not fit, and
    advances its position in the sequencer inbox. */
module BatchPoster {
  import opened Types
  import opened Rlp
  import opened SequencerMessages
  import opened Multiplexer

  /** The running values that segments are encoded against. */
  datatype Clock = Clock(timestamp: u64, block: u64, delayed: u64)

  function StartClock(firstDelayed: u64): Clock {
    Clock(0, 0, firstDelayed)
  }

  /** A message that may be added next: its delayed count repeats or advances by one. */
  predicate Accepts(c: Clock, m: MessageWithMeta) {
    && m.message.Some?
    && |m.message.value.l2msg| < MAX_U64
    && m.delayedRead <= c.delayed + 1
  }

  predicate IsDelayed(c: Clock, m: MessageWithMeta) {
    m.delayedRead > c.delayed
  }

  function DiffSegments(base: u64, value: u64, kind: byte): seq<bytes> {
    if value == base then [] else [[kind] + EncodeUint(WrapSub(value, base))]
  }

  function ClockSegments(c: Clock, h: Header): seq<bytes> {
    DiffSegments(c.timestamp, h.timestamp, KIND_ADVANCE_TIMESTAMP) +
    DiffSegments(c.block, h.blockNumber, KIND_ADVANCE_BLOCK)
  }

  /** The segments of one message. */
  function EncodeMessage(c: Clock, m: MessageWithMeta): seq<bytes>
    requires m.message.Some?
  {
    if IsDelayed(c, m) then [[KIND_DELAYED]]
    else ClockSegments(c, m.message.value.header) + [[KIND_L2_MESSAGE] + m.message.value.l2msg]
  }

  function Tock(c: Clock, m: MessageWithMeta): Clock
    requires m.message.Some?
  {
    if IsDelayed(c, m) then c.(delayed := c.delayed + 1)
    else c.(timestamp := m.message.value.header.timestamp, block := m.message.value.header.blockNumber)
  }

  predicate AcceptsAll(c: Clock, msgs: seq<MessageWithMeta>)
    decreases |msgs|
  {
    msgs != [] ==> Accepts(c, msgs[0]) && AcceptsAll(Tock(c, msgs[0]), msgs[1..])
  }

  /** The segments of a whole batch. */
  function EncodeMessages(c: Clock, msgs: seq<MessageWithMeta>): seq<bytes>
    requires AcceptsAll(c, msgs)
    decreases |msgs|
  {
    if msgs == [] then []
    else EncodeMessage(c, msgs[0]) + EncodeMessages(Tock(c, msgs[0]), msgs[1..])
  }

  function ClockAfter(c: Clock, msgs: seq<MessageWithMeta>): Clock
    requires AcceptsAll(c, msgs)
    decreases |msgs|
  {
    if msgs == [] then c else ClockAfter(Tock(c, msgs[0]), msgs[1..])
  }

  lemma {:induction false} EncodeAppended(c: Clock, msgs: seq<MessageWithMeta>, m: MessageWithMeta)
    requires AcceptsAll(c, msgs) && Accepts(ClockAfter(c, msgs), m)
    ensures AcceptsAll(c, msgs + [m])
    ensures EncodeMessages(c, msgs + [m]) == EncodeMessages(c, msgs) + EncodeMessage(ClockAfter(c, msgs), m)
    ensures ClockAfter(c, msgs + [m]) == Tock(ClockAfter(c, msgs), m)
    decreases |msgs|
  {
    hide EncodeMessage, Tock;
    if msgs == [] {
      assert msgs + [m] == [m] && [m][1..] == [];
    } else {
      EncodeAppended(Tock(c, msgs[0]), msgs[1..], m);
      assert (msgs + [m])[0] == msgs[0] && (msgs + [m])[1..] == msgs[1..] + [m];
    }
  }

  datatype AddError = BatchAlreadyClosed | DelayedJump | BatchTooLarge | TooManySegments

  /** Brotli, as the poster uses it. */
  type Compressor = (nat, bytes) -> bytes

  /** The bytes of a finished batch, as CloseAndGetBytes returns them: small enough for readers, and the compressed
      segments of the messages. */
  ghost predicate IsBatch(compress: Compressor, firstDelayed: u64, msgs: seq<MessageWithMeta>, data: bytes)
    requires AcceptsAll(StartClock(firstDelayed), msgs)
  {
    var segments := EncodeMessages(StartClock(firstDelayed), msgs);
    && |segments| < MAX_SEGMENTS
    && (forall s <- segments :: |s| < TWO64)
    && |EncodeSegments(segments)| <= MAX_DECOMPRESSED_LEN
    && exists level :: data == [BROTLI_HEADER_BYTE] + compress(level, EncodeSegments(segments))
  }

  predicate FitsLimits(segments: nat, size: nat) {
    segments < MAX_SEGMENTS && size <= MAX_DECOMPRESSED_LEN
  }

  ghost predicate Consistent(segments: seq<bytes>, trailing: nat, size: nat, done: bool, written: bytes) {
    && (forall s <- segments :: |s| < TWO64)
    && trailing <= |segments| <= MAX_SEGMENTS
    && size == |EncodeSegments(segments)|
    && (done ==> trailing == 0 && FitsLimits(|segments|, size) && written == EncodeSegments(segments))
  }

  lemma ConsistentNext(segments: seq<bytes>, trailing: nat, size: nat, written: bytes, segment: bytes, isHeader: bool,
                       next: bytes)
    requires Consistent(segments, trailing, size, false, written) && |segment| < TWO64 && |segments| < MAX_SEGMENTS
    ensures Consistent(segments + [segment], if isHeader then trailing + 1 else 0, size + |EncodeString(segment)|,
                       false, next)
  {
    assert (segments + [segment])[..|segments|] == segments;
    hide EncodeString;
  }

  lemma ConsistentTrimmed(segments: seq<bytes>, trailing: nat, size: nat, written: bytes, done: bool, next: bytes)
    requires Consistent(segments, trailing, size, false, written)
    requires var kept := segments[..|segments| - trailing];
             done ==> FitsLimits(|kept|, |EncodeSegments(kept)|) && next == EncodeSegments(kept)
    ensures var kept := segments[..|segments| - trailing]; Consistent(kept, 0, |EncodeSegments(kept)|, done, next)
  {
    hide EncodeSegments;
  }

  lemma ConsistentBounds(segments: seq<bytes>, trailing: nat, size: nat, done: bool, written: bytes)
    requires Consistent(segments, trailing, size, done, written)
    ensures trailing <= |segments| <= MAX_SEGMENTS && forall s <- segments :: |s| < TWO64
    ensures done ==> FitsLimits(|segments|, size)
  {
  }

  /** How many bytes segments take before they are compressed. */
  function SizeOf(segments: seq<bytes>): nat {
    if segments == [] then 0
    else
      var last := segments[|segments| - 1];
      SizeOf(segments[..|segments| - 1]) + if |last| < TWO64 then |EncodeString(last)| else 0
  }

  lemma SizeOfOne(segment: bytes)
    requires |segment| < TWO64
    ensures SizeOf([segment]) == |EncodeString(segment)|
  {
  }

  lemma {:induction false} SizeTogether(a: seq<bytes>, b: seq<bytes>)
    ensures SizeOf(a + b) == SizeOf(a) + SizeOf(b)
  {
    if b == [] {
      assert a + b == a;
    } else {
      assert (a + b)[..|a + b| - 1] == a + b[..|b| - 1];
      SizeTogether(a, b[..|b| - 1]);
    }
  }

  /** The batch being built. `written` is everything fed to the current compressor; `accepted`
      records the messages whose addition succeeded. */
  class BatchSegments {
    const firstDelayed: u64
    const sizeLimit: nat
    const recompressionLevel: nat
    const compress: Compressor
    var rawSegments: seq<bytes>
    var written: bytes
    var timestamp: u64
    var block: u64
    var delayedMsg: u64
    var newUncompressedSize: nat
    var totalUncompressedSize: nat
    var lastCompressedSize: nat
    var trailingHeaders: nat
    var isDone: bool
    ghost var accepted: seq<MessageWithMeta>

    ghost predicate Basic()
      reads this
    {
      && AcceptsAll(StartClock(firstDelayed), accepted)
      && Consistent(rawSegments, trailingHeaders, totalUncompressedSize, isDone, written)
    }

    predicate WithinLimits()
      reads this
    {
      FitsLimits(|rawSegments|, totalUncompressedSize)
    }

    function Clocks(): Clock
      reads this
    {
      Clock(timestamp, block, delayedMsg)
    }

    /** The segments, without trailing headers, are those of the accepted messages. A batch that is
        still open and within limits can accept more; one beyond the limits can never be closed. */
    ghost predicate Valid()
      reads this
    {
      && Basic()
      && var start := StartClock(firstDelayed);
      && trailingHeaders == 0
      && rawSegments == EncodeMessages(start, accepted)
      && delayedMsg == ClockAfter(start, accepted).delayed
      && (!isDone && WithinLimits() ==> Clocks() == ClockAfter(start, accepted))
    }

    /** What a flush of the compressor is due for, at the latest. */
    function Pending(): nat
      reads this
    {
      lastCompressedSize + newUncompressedSize
    }

    /** An open batch that can take such segments: they fit the limits, and no flush is due. */
    predicate HasRoom(segments: seq<bytes>)
      reads this
    {
      && !isDone && Pending() + SizeOf(segments) < sizeLimit
      && totalUncompressedSize + SizeOf(segments) <= MAX_DECOMPRESSED_LEN
      && |rawSegments| + |segments| <= MAX_SEGMENTS
    }

    constructor (firstDelayed: u64, sizeLimit: nat, recompressionLevel: nat, compress: Compressor)
      ensures Valid() && !isDone && accepted == []
      ensures this.firstDelayed == firstDelayed && this.compress == compress
      ensures this.recompressionLevel == recompressionLevel
    {
      this.firstDelayed, this.sizeLimit, this.recompressionLevel := firstDelayed, sizeLimit, recompressionLevel;
      this.compress := compress;
      rawSegments, written, timestamp, block, delayedMsg := [], [], 0, 0, firstDelayed;
      newUncompressedSize, totalUncompressedSize, lastCompressedSize, trailingHeaders := 0, 0, 0, 0;
      isDone, accepted := false, [];
    }

    method AddSegmentToCompressed(segment: bytes)
      requires |segment| < TWO64
      modifies this`written, this`newUncompressedSize, this`totalUncompressedSize
      ensures written == old(written) + EncodeString(segment)
      ensures totalUncompressedSize == old(totalUncompressedSize) + |EncodeString(segment)|
      ensures newUncompressedSize == old(newUncompressedSize) + |EncodeString(segment)|
    {
      var encoded := EncodeString(segment);
      written := written + encoded;
      newUncompressedSize := newUncompressedSize + |encoded|;
      totalUncompressedSize := totalUncompressedSize + |encoded|;
    }

    method RecompressAll() returns (err: Option<AddError>)
      requires forall s <- rawSegments :: |s| < TWO64
      modifies this`written, this`newUncompressedSize, this`totalUncompressedSize
      ensures written == EncodeSegments(rawSegments) && totalUncompressedSize == |EncodeSegments(rawSegments)|
      ensures err.None? <==> |rawSegments| < MAX_SEGMENTS && totalUncompressedSize <= MAX_DECOMPRESSED_LEN
      ensures err.Some? ==> err.value.BatchTooLarge? || err.value.TooManySegments?
    {
      written, newUncompressedSize, totalUncompressedSize := [], 0, 0;
      for i := 0 to |rawSegments|
        invariant written == EncodeSegments(rawSegments[..i])
        invariant totalUncompressedSize == |written|
      {
        assert rawSegments[..i + 1][..i] == rawSegments[..i];
        AddSegmentToCompressed(rawSegments[i]);
      }
      assert rawSegments[..|rawSegments|] == rawSegments;
      if totalUncompressedSize > MAX_DECOMPRESSED_LEN {
        return Some(BatchTooLarge);
      }
      if |rawSegments| >= MAX_SEGMENTS {
        return Some(TooManySegments);
      }
      return None;
    }

    /** `flushed` is the compressed size a flush of the compressor would report. */
    method TestForOverflow(isHeader: bool, flushed: nat) returns (overflow: bool)
      modifies this`lastCompressedSize, this`newUncompressedSize
      ensures var flushes := WithinLimits() && sizeLimit <= old(lastCompressedSize) + old(newUncompressedSize) &&
                             !isHeader && |rawSegments| != trailingHeaders;
              && overflow == (!WithinLimits() || (flushes && sizeLimit <= flushed))
              && lastCompressedSize == (if flushes then flushed else old(lastCompressedSize))
              && newUncompressedSize == (if flushes then 0 else old(newUncompressedSize))
    {
      if totalUncompressedSize > MAX_DECOMPRESSED_LEN {
        return true;
      }
      if |rawSegments| >= MAX_SEGMENTS {
        return true;
      }
      if lastCompressedSize + newUncompressedSize < sizeLimit {
        return false;
      }
      if isHeader || |rawSegments| == trailingHeaders {
        return false;
      }
      lastCompressedSize, newUncompressedSize := flushed, 0;
      return lastCompressedSize >= sizeLimit;
    }

    /** Drops trailing headers and recompresses; done unless the limits are exceeded. */
    method Close() returns (err: Option<AddError>)
      requires !isDone && trailingHeaders <= |rawSegments|
      requires forall s <- rawSegments :: |s| < TWO64
      modifies this
      ensures rawSegments == old(rawSegments)[..|old(rawSegments)| - old(trailingHeaders)] && trailingHeaders == 0
      ensures totalUncompressedSize == |EncodeSegments(rawSegments)|
      ensures isDone <==> err.None?
      ensures err.Some? ==> err.value.BatchTooLarge? || err.value.TooManySegments?
      ensures isDone <==> WithinLimits()
      ensures isDone ==> written == EncodeSegments(rawSegments)
      ensures Clocks() == old(Clocks()) && accepted == old(accepted)
    {
      hide EncodeSegments;
      rawSegments := rawSegments[..|rawSegments| - trailingHeaders];
      trailingHeaders := 0;
      err := RecompressAll();
      isDone := err.None?;
    }

    method AddSegment(segment: bytes, isHeader: bool, flushed: nat) returns (r: Result<bool, AddError>)
      requires Basic() && |segment| < TWO64
      modifies this
      ensures Basic()
      ensures Clocks() == old(Clocks()) && accepted == old(accepted)
      ensures r == Ok(true) ==>
        && !isDone && old(!isDone && WithinLimits())
        && rawSegments == old(rawSegments) + [segment]
        && trailingHeaders == (if isHeader then old(trailingHeaders) + 1 else 0)
        && totalUncompressedSize <= MAX_DECOMPRESSED_LEN
      ensures r != Ok(true) && old(!isDone) ==>
        && rawSegments == old(rawSegments)[..|old(rawSegments)| - old(trailingHeaders)] && trailingHeaders == 0
        && (isDone <==> r.Ok?) && (isDone <==> WithinLimits())
      ensures old(isDone) ==> r == Err(BatchAlreadyClosed) && rawSegments == old(rawSegments) && isDone
      ensures r.Err? && !old(isDone) ==> r.error.BatchTooLarge? || r.error.TooManySegments?
      ensures old(HasRoom([segment])) ==>
        && r == Ok(true) && Pending() == old(Pending()) + SizeOf([segment])
        && totalUncompressedSize == old(totalUncompressedSize) + SizeOf([segment])
    {
      hide Consistent, EncodeSegments, EncodeString, AcceptsAll, SizeOf;
      SizeOfOne(segment);
      ConsistentBounds(rawSegments, trailingHeaders, totalUncompressedSize, isDone, written);
      if isDone {
        return Err(BatchAlreadyClosed);
      }
      ghost var segments, trailing, size, before := rawSegments, trailingHeaders, totalUncompressedSize, written;
      AddSegmentToCompressed(segment);
      var overflow := TestForOverflow(isHeader, flushed);
      if overflow {
        var err := Close();
        ConsistentTrimmed(segments, trailing, size, before, isDone, written);
        return if err.Some? then Err(err.value) else Ok(false);
      }
      rawSegments := rawSegments + [segment];
      trailingHeaders := if isHeader then trailingHeaders + 1 else 0;
      ConsistentNext(segments, trailing, size, before, segment, isHeader, written);
      return Ok(true);
    }

    /** Adds a header segment for a clock that moved; the caller stores the clock's new value. `core`
        is what trimming would leave. */
    method MaybeAddDiffSegment(base: u64, value: u64, kind: byte, ghost core: seq<bytes>)
      returns (r: Result<bool, AddError>, updated: u64)
      requires Basic() && !isDone && rawSegments[..|rawSegments| - trailingHeaders] == core
      modifies this
      ensures Basic()
      ensures Clocks() == old(Clocks()) && accepted == old(accepted)
      ensures r == Ok(true) ==>
        && !isDone && updated == value
        && rawSegments == old(rawSegments) + DiffSegments(base, value, kind)
        && rawSegments[..|rawSegments| - trailingHeaders] == core
        && (WithinLimits() ==> old(WithinLimits()))
      ensures r != Ok(true) ==>
        && rawSegments == core && trailingHeaders == 0
        && (isDone <==> r.Ok?) && (isDone <==> WithinLimits())
      ensures r.Err? ==> r.error.BatchTooLarge? || r.error.TooManySegments?
      ensures old(HasRoom(DiffSegments(base, value, kind))) ==>
        && r == Ok(true) && Pending() == old(Pending()) + SizeOf(DiffSegments(base, value, kind))
        && totalUncompressedSize == old(totalUncompressedSize) + SizeOf(DiffSegments(base, value, kind))
    {
      if value == base {
        return Ok(true), value;
      }
      updated := base;
      var segment := [kind] + EncodeUint(WrapSub(value, base));
      EncodedUintIsShort(WrapSub(value, base));
      r := AddSegment(segment, true, 0);
      if r == Ok(true) {
        updated := value;
      }
    }

    method AddDelayedMessage(ghost m: MessageWithMeta, flushed: nat) returns (r: Result<bool, AddError>)
      requires Valid() && !isDone && m.message.Some? && |m.message.value.l2msg| < MAX_U64
      requires m.delayedRead == delayedMsg + 1
      modifies this
      ensures Valid()
      ensures accepted == if r == Ok(true) then old(accepted) + [m] else old(accepted)
      ensures r == Ok(false) ==> isDone
      ensures r.Err? ==> r.error.BatchTooLarge? || r.error.TooManySegments?
      ensures old(HasRoom([[KIND_DELAYED]])) ==> r == Ok(true)
    {
      hide Consistent, EncodeMessages, AcceptsAll, ClockAfter, SizeOf;
      r := AddSegment([KIND_DELAYED], false, flushed);
      if r == Ok(true) {
        EncodeAppended(StartClock(firstDelayed), accepted, m);
        delayedMsg := delayedMsg + 1;
        accepted := accepted + [m];
      }
    }

    /** Adds the headers a message needs, and moves the clocks. */
    method AddClockSegments(header: Header) returns (r: Result<bool, AddError>)
      requires Basic() && !isDone && trailingHeaders == 0
      modifies this
      ensures Basic() && accepted == old(accepted) && delayedMsg == old(delayedMsg)
      ensures r == Ok(true) ==>
        && !isDone && Clocks() == old(Clocks()).(timestamp := header.timestamp, block := header.blockNumber)
        && rawSegments == old(rawSegments) + ClockSegments(old(Clocks()), header)
        && rawSegments[..|rawSegments| - trailingHeaders] == old(rawSegments)
        && (WithinLimits() ==> old(WithinLimits()))
      ensures r != Ok(true) ==>
        && rawSegments == old(rawSegments) && trailingHeaders == 0
        && (isDone <==> r.Ok?) && (isDone <==> WithinLimits())
      ensures r.Err? ==> r.error.BatchTooLarge? || r.error.TooManySegments?
      ensures old(HasRoom(ClockSegments(Clocks(), header))) ==>
        && r == Ok(true) && Pending() == old(Pending()) + SizeOf(ClockSegments(old(Clocks()), header))
        && totalUncompressedSize == old(totalUncompressedSize) + SizeOf(ClockSegments(old(Clocks()), header))
    {
      hide Consistent, EncodeUint, AcceptsAll, SizeOf, DiffSegments;
      ghost var core, clock := rawSegments, Clocks();
      SizeTogether(DiffSegments(clock.timestamp, header.timestamp, KIND_ADVANCE_TIMESTAMP),
                   DiffSegments(clock.block, header.blockNumber, KIND_ADVANCE_BLOCK));
      r, timestamp := MaybeAddDiffSegment(timestamp, header.timestamp, KIND_ADVANCE_TIMESTAMP, core);
      if r != Ok(true) {
        return;
      }
      ghost var first := DiffSegments(clock.timestamp, header.timestamp, KIND_ADVANCE_TIMESTAMP);
      r, block := MaybeAddDiffSegment(block, header.blockNumber, KIND_ADVANCE_BLOCK, core);
      assert r == Ok(true) ==>
        rawSegments == core + (first + DiffSegments(clock.block, header.blockNumber, KIND_ADVANCE_BLOCK));
    }

    method AddSequencedMessage(m: MessageWithMeta, flushed: nat) returns (r: Result<bool, AddError>)
      requires Valid() && !isDone && m.message.Some? && |m.message.value.l2msg| < MAX_U64
      requires m.delayedRead <= delayedMsg
      modifies this
      ensures Valid()
      ensures accepted == if r == Ok(true) then old(accepted) + [m] else old(accepted)
      ensures r == Ok(false) ==> isDone
      ensures r.Err? ==> r.error.BatchTooLarge? || r.error.TooManySegments?
      ensures old(HasRoom(EncodeMessage(Clocks(), m))) ==> r == Ok(true)
    {
      hide Consistent, EncodeUint, SizeOf, ClockSegments;
      SizeTogether(ClockSegments(Clocks(), m.message.value.header), [[KIND_L2_MESSAGE] + m.message.value.l2msg]);
      ghost var before := rawSegments;
      r := AddClockSegments(m.message.value.header);
      if r != Ok(true) {
        return;
      }
      r := AddSegment([KIND_L2_MESSAGE] + m.message.value.l2msg, false, flushed);
      if r == Ok(true) {
        EncodeAppended(StartClock(firstDelayed), accepted, m);
        assert rawSegments == before + EncodeMessage(old(Clocks()), m);
        accepted := accepted + [m];
      }
    }

    /** Adds a message. Success records it; otherwise the batch is complete or unusable, and in either case still holds
        exactly the messages accepted before. While there is room, and the delayed count does not jump, it succeeds. */
    method AddMessage(m: MessageWithMeta, flushed: nat) returns (r: Result<bool, AddError>)
      requires Valid() && m.message.Some? && |m.message.value.l2msg| < MAX_U64
      modifies this
      ensures Valid()
      ensures accepted == if r == Ok(true) then old(accepted) + [m] else old(accepted)
      ensures r == Ok(false) ==> isDone
      ensures r == Err(BatchAlreadyClosed) <==> old(isDone)
      ensures r == Err(DelayedJump) <==> !old(isDone) && m.delayedRead > old(delayedMsg) + 1
      ensures m.delayedRead <= old(delayedMsg) + 1 && old(HasRoom(EncodeMessage(Clocks(), m))) ==> r == Ok(true)
    {
      hide Consistent, SizeOf, ClockSegments, EncodeMessages, AcceptsAll, ClockAfter;
      if isDone {
        return Err(BatchAlreadyClosed);
      }
      if m.delayedRead > delayedMsg {
        if m.delayedRead != delayedMsg + 1 {
          return Err(DelayedJump);
        }
        r := AddDelayedMessage(m, flushed);
      } else {
        r := AddSequencedMessage(m, flushed);
      }
    }

    /** Finishes the batch. The bytes, if any, are the compressed segments of the accepted messages;
        there are none exactly when nothing was accepted. */
    method CloseAndGetBytes() returns (r: Result<Option<bytes>, AddError>)
      requires Valid()
      modifies this
      ensures Valid() && accepted == old(accepted)
      ensures r.Ok? ==> isDone && (r.value.None? <==> accepted == [])
      ensures r.Ok? && r.value.Some? ==> IsBatch(compress, firstDelayed, accepted, r.value.value)
    {
      if !isDone {
        var err := Close();
        if err.Some? {
          return Err(err.value);
        }
      }
      assert rawSegments == [] <==> accepted == [];
      if |rawSegments| == 0 {
        return Ok(None);
      }
      return Ok(Some([BROTLI_HEADER_BYTE] + compress(recompressionLevel, written)));
    }
  }

  datatype Position = Position(messageCount: nat, delayedCount: u64, nextSeqNum: nat)

  /** Limits derived from the parent chain: messages beyond the maxima wait, unless one is already
      close to the maximum delay. */
  datatype Bounds = Bounds(minBlock: u64, minTimestamp: u64, maxBlock: u64, maxTimestamp: u64)

  datatype PostError = AlreadyPosted | AddFailed(cause: AddError) | CloseFailed(cause: AddError)

  /** A batch that holds exactly the log messages between two positions. */
  ghost predicate Posted(compress: Compressor, position: Position, log: seq<MessageWithMeta>, data: bytes,
                         next: Position)
  {
    && next.nextSeqNum == position.nextSeqNum + 1
    && position.messageCount < next.messageCount <= |log|
    && var start, msgs := StartClock(position.delayedCount), log[position.messageCount..next.messageCount];
    && AcceptsAll(start, msgs)
    && IsBatch(compress, position.delayedCount, msgs, data)
    && next.delayedCount == ClockAfter(start, msgs).delayed
  }

  /** A batch of some messages, as many as the position moves. */
  ghost predicate PostsOwn(compress: Compressor, position: Position, first: u64, msgs: seq<MessageWithMeta>,
                           data: bytes, next: Position)
  {
    && msgs != [] && AcceptsAll(StartClock(first), msgs) && IsBatch(compress, first, msgs, data)
    && next.messageCount == position.messageCount + |msgs| && next.nextSeqNum == position.nextSeqNum + 1
    && next.delayedCount == ClockAfter(StartClock(first), msgs).delayed
  }

  /** They are the messages of the log between the positions. */
  predicate FromLog(position: Position, log: seq<MessageWithMeta>, first: u64, msgs: seq<MessageWithMeta>) {
    && first == position.delayedCount && position.messageCount + |msgs| <= |log|
    && msgs == log[position.messageCount..position.messageCount + |msgs|]
  }

  /** Messages that go on in the log are from the log exactly if those before are. */
  lemma FromLogIff(position: Position, log: seq<MessageWithMeta>, first: u64, before: seq<MessageWithMeta>, end: nat,
                   msgs: seq<MessageWithMeta>)
    requires var at := position.messageCount + |before|;
             && at <= end <= Max(at, |log|)
             && msgs == before + if at <= |log| then log[at..end] else []
    ensures FromLog(position, log, first, msgs) <==>
            && first == position.delayedCount && position.messageCount + |before| <= |log|
            && before == log[position.messageCount..position.messageCount + |before|]
  {
    var start, at := position.messageCount, position.messageCount + |before|;
    if end <= |log| {
      assert log[start..end] == log[start..at] + log[at..end] && log[start..end][..|before|] == log[start..at];
    }
    assert msgs[..|before|] == before;
  }

  /** Then what is posted is the batch of the log between the positions. */
  lemma OwnIsPosted(compress: Compressor, position: Position, log: seq<MessageWithMeta>, first: u64,
                    msgs: seq<MessageWithMeta>, data: bytes, next: Position)
    requires PostsOwn(compress, position, first, msgs, data, next) && FromLog(position, log, first, msgs)
    ensures Posted(compress, position, log, data, next)
  {
    hide IsBatch;
  }

  /** A message too close to its maximum delay to wait. */
  predicate Urgent(bounds: Bounds, m: MessageWithMeta)
    requires m.message.Some?
  {
    m.message.value.header.blockNumber < bounds.minBlock || m.message.value.header.timestamp < bounds.minTimestamp
  }

  predicate Beyond(bounds: Bounds, m: MessageWithMeta)
    requires m.message.Some?
  {
    m.message.value.header.blockNumber > bounds.maxBlock || m.message.value.header.timestamp > bounds.maxTimestamp
  }

  predicate AnyUrgent(bounds: Bounds, msgs: seq<MessageWithMeta>)
    requires forall m <- msgs :: m.message.Some?
  {
    exists m <- msgs :: Urgent(bounds, m)
  }

  lemma AnyUrgentNext(bounds: Bounds, msgs: seq<MessageWithMeta>, m: MessageWithMeta)
    requires m.message.Some? && forall m <- msgs :: m.message.Some?
    ensures AnyUrgent(bounds, msgs + [m]) <==> AnyUrgent(bounds, msgs) || Urgent(bounds, m)
  {
    if AnyUrgent(bounds, msgs + [m]) && !Urgent(bounds, m) {
      var u :| u in msgs + [m] && Urgent(bounds, u);
      assert u in msgs;
    }
    assert m in msgs + [m];
  }

  /** A message that may go into the batch: one within the bounds, or any once an urgent one was met. */
  predicate MayBePosted(log: seq<MessageWithMeta>, bounds: Bounds, from: nat, i: nat)
    requires from <= i < |log| && forall m <- log :: m.message.Some?
  {
    !Beyond(bounds, log[i]) || AnyUrgent(bounds, log[from..i + 1])
  }

  /** The maxima while messages are added: none, once an urgent one was met. */
  function Limits(bounds: Bounds, msgs: seq<MessageWithMeta>): (u64, u64)
    requires forall m <- msgs :: m.message.Some?
  {
    if AnyUrgent(bounds, msgs) then (MAX_U64, MAX_U64) else (bounds.maxBlock, bounds.maxTimestamp)
  }

  lemma LimitsNext(log: seq<MessageWithMeta>, bounds: Bounds, from: nat, i: nat)
    requires from <= i < |log| && forall m <- log :: m.message.Some?
    ensures Limits(bounds, log[from..i + 1]) ==
            if Urgent(bounds, log[i]) then (MAX_U64, MAX_U64) else Limits(bounds, log[from..i])
    ensures var (header, limits) := (log[i].message.value.header, Limits(bounds, log[from..i + 1]));
            MayBePosted(log, bounds, from, i) <==> header.blockNumber <= limits.0 && header.timestamp <= limits.1
  {
    AnyUrgentNext(bounds, log[from..i], log[i]);
    assert log[from..i + 1] == log[from..i] + [log[i]];
    hide AnyUrgent;
  }

  lemma NoLimits(log: seq<MessageWithMeta>, bounds: Bounds, from: nat)
    requires from <= |log| && forall m <- log :: m.message.Some?
    ensures Limits(bounds, log[from..from]) == (bounds.maxBlock, bounds.maxTimestamp)
  {
  }

  predicate Useful(m: MessageWithMeta)
    requires m.message.Some?
  {
    m.message.value.header.kind != L1_KIND_BATCH_POSTING_REPORT
  }

  class Poster {
    const sizeLimit: nat
    const recompressionLevel: nat
    const compress: Compressor
    var building: BatchSegments?
    var startMsgCount: nat
    var msgCount: nat
    var haveUsefulMessage: bool

    constructor (sizeLimit: nat, recompressionLevel: nat, compress: Compressor)
      ensures building == null && this.compress == compress
    {
      this.sizeLimit, this.recompressionLevel, this.compress := sizeLimit, recompressionLevel, compress;
      building, startMsgCount, msgCount, haveUsefulMessage := null, 0, 0, false;
    }

    /** A batch that is kept holds as many messages as it counts. */
    ghost predicate Valid()
      reads this, building
    {
      building != null ==>
        && building.Valid() && building.compress == compress
        && startMsgCount + |building.accepted| == msgCount
    }

    /** A batch kept from an earlier call was built from this position and this log. */
    ghost predicate Building(position: Position, log: seq<MessageWithMeta>)
      reads this, building
    {
      && building != null
      && building.firstDelayed == position.delayedCount
      && startMsgCount == position.messageCount <= msgCount <= |log|
      && building.accepted == log[startMsgCount..msgCount]
    }

    /** Any batch for this position was. */
    ghost predicate Fits(position: Position, log: seq<MessageWithMeta>)
      reads this, building
    {
      building != null && startMsgCount == position.messageCount <= |log| ==> Building(position, log)
    }

    /** Adds the next message of the log, if the batch is not full. */
    method AddNext(m: MessageWithMeta, flushed: nat) returns (r: Result<bool, AddError>)
      requires m.message.Some? && |m.message.value.l2msg| < MAX_U64
      requires Valid() && building != null
      modifies this`msgCount, this`haveUsefulMessage, building
      ensures Valid()
      ensures if r == Ok(true) then
                && building.accepted == old(building.accepted) + [m] && msgCount == old(msgCount) + 1
                && (haveUsefulMessage <==> old(haveUsefulMessage) || Useful(m))
              else
                && building.accepted == old(building.accepted) && msgCount == old(msgCount)
                && (haveUsefulMessage <==> old(haveUsefulMessage) || r.Ok?)
      ensures r == Ok(false) ==> building.isDone
    {
      hide Consistent, EncodeMessages, AcceptsAll, ClockAfter;
      r := building.AddMessage(m, flushed);
      if r.Err? {
        return;
      }
      if !r.value {
        haveUsefulMessage := true;
        return;
      }
      haveUsefulMessage := haveUsefulMessage || m.message.value.header.kind != L1_KIND_BATCH_POSTING_REPORT;
      msgCount := msgCount + 1;
    }

    /** Adds log messages until the batch is full, the bounds are hit, or the log ends. */
    method FillBatch(log: seq<MessageWithMeta>, bounds: Bounds, flushed: nat -> nat) returns (r: Result<bool, AddError>)
      requires forall m <- log :: m.message.Some? && |m.message.value.l2msg| < MAX_U64
      requires Valid() && building != null
      modifies this`msgCount, this`haveUsefulMessage, building
      ensures Valid() && old(msgCount) <= msgCount <= Max(old(msgCount), |log|)
      ensures building.accepted ==
              old(building.accepted) + if old(msgCount) <= |log| then log[old(msgCount)..msgCount] else []
      ensures forall i :: old(msgCount) <= i < msgCount ==> MayBePosted(log, bounds, old(msgCount), i)
      ensures r == Ok(false) && msgCount < |log| ==> !MayBePosted(log, bounds, old(msgCount), msgCount)
      ensures r == Ok(true) ==> msgCount < |log| && building.isDone && MayBePosted(log, bounds, old(msgCount), msgCount)
      ensures haveUsefulMessage <==>
              || old(haveUsefulMessage)
              || r == Ok(true)
              || exists i :: old(msgCount) <= i < msgCount && Useful(log[i])
    {
      hide Consistent, EncodeMessages, AcceptsAll, ClockAfter, Limits, MayBePosted, Useful;
      if msgCount <= |log| {
        NoLimits(log, bounds, msgCount);
      }
      var maxBlock, maxTimestamp := bounds.maxBlock, bounds.maxTimestamp;
      while msgCount < |log|
        invariant Valid() && old(msgCount) <= msgCount <= Max(old(msgCount), |log|)
        invariant building.accepted ==
                  old(building.accepted) + if old(msgCount) <= |log| then log[old(msgCount)..msgCount] else []
        invariant msgCount <= |log| ==> (maxBlock, maxTimestamp) == Limits(bounds, log[old(msgCount)..msgCount])
        invariant forall i :: old(msgCount) <= i < msgCount ==> MayBePosted(log, bounds, old(msgCount), i)
        invariant haveUsefulMessage <==>
                  old(haveUsefulMessage) || exists i :: old(msgCount) <= i < msgCount && Useful(log[i])
      {
        var m := log[msgCount];
        var header := m.message.value.header;
        assert log[old(msgCount)..msgCount + 1] == log[old(msgCount)..msgCount] + [m];
        LimitsNext(log, bounds, old(msgCount), msgCount);
        if header.blockNumber < bounds.minBlock || header.timestamp < bounds.minTimestamp {
          maxBlock, maxTimestamp := MAX_U64, MAX_U64;
        }
        if header.blockNumber > maxBlock || header.timestamp > maxTimestamp {
          return Ok(false);
        }
        var added := AddNext(m, flushed(msgCount));
        if added.Err? {
          return added;
        }
        if !added.value {
          return Ok(true);
        }
      }
      return Ok(false);
    }

    /** Extends the batch from the log and, when due, finishes it. What is posted is a batch of as many messages as the
        position moves. They are the log messages between the old position and the new one if and only if the batch
        was not kept from an earlier call, or was built from this position and this log; a batch kept while the log
        was reorganized under it goes on with its own messages, because only the count it starts at is compared. */
    method MaybePost(position: Position, dbBatchCount: nat, log: seq<MessageWithMeta>, bounds: Bounds,
                     force: bool, waitForMaxDelay: bool, flushed: nat -> nat)
      returns (r: Result<Option<(bytes, Position)>, PostError>, ghost first: u64, ghost msgs: seq<MessageWithMeta>)
      requires forall m <- log :: m.message.Some? && |m.message.value.l2msg| < MAX_U64
      requires Valid()
      modifies this, building
      ensures Valid()
      ensures r.Ok? && r.value.Some? ==>
        var (data, next) := r.value.value;
        && building == null && PostsOwn(compress, position, first, msgs, data, next)
        && (FromLog(position, log, first, msgs) <==> old(Fits(position, log)))
        && (old(Fits(position, log)) ==> Posted(compress, position, log, data, next))
      ensures old(Fits(position, log)) ==> Fits(position, log)
      ensures r == Err(AlreadyPosted) <==> dbBatchCount > position.nextSeqNum
      ensures r == Ok(None) && force && building != null && position.messageCount < |log| ==> !haveUsefulMessage
    {
      hide Consistent, EncodeMessages, AcceptsAll, ClockAfter, IsBatch, Posted, MayBePosted, Useful, FromLog, PostsOwn;
      first, msgs := 0, [];
      if dbBatchCount > position.nextSeqNum {
        return Err(AlreadyPosted), first, msgs;
      }
      if building == null || startMsgCount != position.messageCount {
        building := new BatchSegments(position.delayedCount, sizeLimit, recompressionLevel, compress);
        startMsgCount, msgCount, haveUsefulMessage := position.messageCount, position.messageCount, false;
      }
      if |log| <= position.messageCount {
        return Ok(None), first, msgs;
      }
      ghost var before := building.accepted;
      var full := FillBatch(log, bounds, flushed);
      ghost var end := msgCount;
      if full.Err? {
        building := null;
        return Err(AddFailed(full.error)), first, msgs;
      }
      var forced := force || (full.value && !waitForMaxDelay);
      if !forced || !haveUsefulMessage {
        return Ok(None), first, msgs;
      }
      r, first, msgs := Finish(position);
      FromLogIff(position, log, first, before, end, msgs);
      if r.Ok? && r.value.Some? && old(Fits(position, log)) {
        OwnIsPosted(compress, position, log, first, msgs, r.value.value.0, r.value.value.1);
      }
    }

    /** Closes the batch; what it holds is what is posted. */
    method Finish(position: Position)
      returns (r: Result<Option<(bytes, Position)>, PostError>, ghost first: u64, ghost msgs: seq<MessageWithMeta>)
      requires Valid() && building != null && startMsgCount == position.messageCount
      modifies this, building
      ensures Valid() && startMsgCount == old(startMsgCount) && msgCount == old(msgCount)
      ensures (r == Ok(None) ==> building == null) && (r.Err? ==> r.error.CloseFailed?)
      ensures first == old(building.firstDelayed) && msgs == old(building.accepted)
      ensures building != null ==>
          building == old(building) && building.accepted == msgs && building.firstDelayed == first
      ensures r.Ok? && r.value.Some? ==>
        building == null && PostsOwn(compress, position, first, msgs, r.value.value.0, r.value.value.1)
    {
      hide Consistent;
      hide EncodeMessages;
      hide IsBatch;
      first, msgs := building.firstDelayed, building.accepted;
      var closed := building.CloseAndGetBytes();
      if closed.Err? {
        return Err(CloseFailed(closed.error)), first, msgs;
      }
      if closed.value.None? {
        building := null;
        return Ok(None), first, msgs;
      }
      var next := Position(msgCount, building.delayedMsg, position.nextSeqNum + 1);
      building := null;
      return Ok(Some((closed.value.value, next))), first, msgs;
    }
  }

  /** A batch kept from one log fits another exactly as long as that one still has the messages it holds. */
  lemma KeptFits(poster: Poster, position: Position, log: seq<MessageWithMeta>, next: seq<MessageWithMeta>)
    requires poster.Building(position, log) && position.messageCount <= |next|
    ensures poster.Fits(position, next) <==>
            poster.msgCount <= |next| &&
            forall i :: poster.startMsgCount <= i < poster.msgCount ==> next[i] == log[i]
  {
    var start, end := poster.startMsgCount, poster.msgCount;
    if end <= |next| {
      if next[start..end] == log[start..end] {
        forall i | start <= i < end ensures next[i] == log[i] {
          assert next[start..end][i - start] == log[start..end][i - start];
        }
      }
    }
  }

  /** A message of the sequencer's own. */
  function Tx(data: byte): MessageWithMeta {
    var header := Header(L1_KIND_L2_MESSAGE, BATCH_POSTER_ADDRESS, 0, 0, None, Some(0));
    MessageWithMeta(Some(L1Message(header, [data], None)), 1)
  }

  const AFTER_FIRST := Position(1, 1, 1)

  /** The second message of a log is replaced while a batch has it: the batch is kept, and is not one of the log. */
  lemma ReplacedDoesNotFit(poster: Poster)
    requires poster.Building(AFTER_FIRST, [Tx(0), Tx(1)]) && poster.msgCount == 2
    ensures !poster.Fits(AFTER_FIRST, [Tx(0), Tx(2)])
  {
    KeptFits(poster, AFTER_FIRST, [Tx(0), Tx(1)], [Tx(0), Tx(2)]);
    assert [Tx(0), Tx(2)][1] != [Tx(0), Tx(1)][1];
  }

  lemma EncodedUintIsShort(n: u64)
    ensures |EncodeUint(n)| <= 9
  {
    Pow256Eight();
    LengthBytesBound(n, 8);
  }
}

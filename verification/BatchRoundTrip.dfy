/** The batch poster and the inbox multiplexer agree: what one writes the other reads back. */
module BatchRoundTrip {
  import opened Types
  import opened Rlp
  import opened SequencerMessages
  import opened Multiplexer
  import opened MultiplexerProperties
  import opened BatchPoster

  /** A log message in the form the sequencer gives it: the next delayed message, or a message of
      its own with the sequencer's header. */
  ghost predicate Sequenced(w: World, c: Clock, m: MessageWithMeta) {
    && Accepts(c, m)
    && if IsDelayed(c, m) then c.delayed in w.delayed && m.message == Some(w.delayed[c.delayed])
       else
         var L1Message(h, l2msg, _) := m.message.value;
         && m.delayedRead == c.delayed
         && m.message.value ==
            L1Message(Header(L1_KIND_L2_MESSAGE, BATCH_POSTER_ADDRESS, h.blockNumber, h.timestamp, None, Some(0)),
                l2msg, None)
  }

  ghost predicate AllSequenced(w: World, c: Clock, msgs: seq<MessageWithMeta>)
    ensures AllSequenced(w, c, msgs) ==> AcceptsAll(c, msgs)
    decreases |msgs|
  {
    msgs != [] ==> Sequenced(w, c, msgs[0]) && AllSequenced(w, Tock(c, msgs[0]), msgs[1..])
  }

  /** A message as readers see it: its clocks are clamped to the batch's bounds. */
  function Received(sm: SequencerMessage, c: Clock, m: MessageWithMeta): MessageWithMeta
    requires m.message.Some?
  {
    if IsDelayed(c, m) then m
    else
      var h := m.message.value.header;
      m.(message := Some(L2Message(sm, h.timestamp, h.blockNumber, m.message.value.l2msg)))
  }

  function ReceivedAll(sm: SequencerMessage, c: Clock, msgs: seq<MessageWithMeta>): (r: seq<MessageWithMeta>)
    requires AcceptsAll(c, msgs)
    ensures |r| == |msgs|
    decreases |msgs|
  {
    if msgs == [] then []
    else [Received(sm, c, msgs[0])] + ReceivedAll(sm, Tock(c, msgs[0]), msgs[1..])
  }

  /** What becomes of a message between the sequencer and a reader of the batch, given the delayed count before it:
      delayed messages stay as they are, others only have their clocks moved within the batch's bounds. */
  predicate ReadAs(bounds: SequencerMessage, delayedBefore: u64, m: MessageWithMeta, seen: MessageWithMeta)
    requires m.message.Some?
  {
    if m.delayedRead > delayedBefore then seen == m
    else
      && seen.delayedRead == m.delayedRead && seen.message.Some?
      && var (was, now) := (m.message.value, seen.message.value);
      && now.l2msg == was.l2msg && now.batchGasCost == None
      && now.header.kind == L1_KIND_L2_MESSAGE && now.header.poster == BATCH_POSTER_ADDRESS
      && now.header.requestId == None && now.header.l1BaseFee == Some(0)
      && SeenWithin(was.header.timestamp, bounds.minTimestamp, bounds.maxTimestamp, now.header.timestamp)
      && SeenWithin(was.header.blockNumber, bounds.minL1Block, bounds.maxL1Block, now.header.blockNumber)
  }

  /** The delayed count before a message of a batch. */
  function CountBefore(first: u64, msgs: seq<MessageWithMeta>, i: nat): u64
    requires i < |msgs|
  {
    if i == 0 then first else msgs[i - 1].delayedRead
  }

  ghost predicate AllReadAs(bounds: SequencerMessage, first: u64, msgs: seq<MessageWithMeta>,
                            seen: seq<MessageWithMeta>)
  {
    && |seen| == |msgs|
    && forall i :: 0 <= i < |msgs| ==>
         msgs[i].message.Some? && ReadAs(bounds, CountBefore(first, msgs, i), msgs[i], seen[i])
  }

  lemma {:induction false} ReceivedIsReadAs(w: World, sm: SequencerMessage, c: Clock, msgs: seq<MessageWithMeta>)
    requires AllSequenced(w, c, msgs)
    ensures AllReadAs(sm, c.delayed, msgs, ReceivedAll(sm, c, msgs))
    decreases |msgs|
  {
    if msgs != [] {
      var c1, rest := Tock(c, msgs[0]), msgs[1..];
      ReceivedIsReadAs(w, sm, c1, rest);
      assert ReadAs(sm, c.delayed, msgs[0], Received(sm, c, msgs[0]));
      hide ReadAs, Received, Sequenced;
      forall i | 0 < i < |msgs|
        ensures msgs[i].message.Some? &&
                ReadAs(sm, CountBefore(c.delayed, msgs, i), msgs[i], ReceivedAll(sm, c, msgs)[i])
      {
        assert CountBefore(c1.delayed, rest, i - 1) == CountBefore(c.delayed, msgs, i) by {
          SequencedCount(w, c, msgs[0]);
        }
      }
    }
  }

  lemma SequencedCount(w: World, c: Clock, m: MessageWithMeta)
    requires Sequenced(w, c, m)
    ensures Tock(c, m).delayed == m.delayedRead
  {
  }

  lemma {:induction false} SequencedIsReadable(w: World, c: Clock, msgs: seq<MessageWithMeta>)
    requires AllSequenced(w, c, msgs)
    ensures c.delayed <= ClockAfter(c, msgs).delayed
    ensures Readable(w, c.delayed, ClockAfter(c, msgs).delayed)
    decreases |msgs|
  {
    if msgs != [] {
      SequencedIsReadable(w, Tock(c, msgs[0]), msgs[1..]);
    }
  }

  lemma DiffAdvances(base: u64, value: u64, kind: byte, timestamp: u64, block: u64)
    requires base != value
    requires kind == KIND_ADVANCE_TIMESTAMP ==> base == timestamp
    requires kind == KIND_ADVANCE_BLOCK ==> base == block
    requires kind == KIND_ADVANCE_TIMESTAMP || kind == KIND_ADVANCE_BLOCK
    ensures var s := DiffSegments(base, value, kind)[0];
            && IsClock(s)
            && Tick(s, timestamp, block) == if kind == KIND_ADVANCE_TIMESTAMP then (value, block)
                 else (timestamp, value)
  {
    hide EncodeUint, DecodeUint;
    var s := DiffSegments(base, value, kind)[0];
    var diff := WrapSub(value, base);
    DecodeEncodedUint(diff, []);
    assert s[1..] == EncodeUint(diff) + [];
  }

  /** The headers the poster wrote bring the reader's clocks to the message's own. */
  lemma DecodeClockSegments(w: World, sm: SequencerMessage, c: Clock, h: Header, rest: seq<bytes>)
    requires c.delayed <= sm.afterDelayed && Readable(w, c.delayed, sm.afterDelayed)
    ensures Decode(w, sm, ClockSegments(c, h) + rest, c.timestamp, c.block, c.delayed) ==
            Decode(w, sm, rest, h.timestamp, h.blockNumber, c.delayed)
  {
    var ts := DiffSegments(c.timestamp, h.timestamp, KIND_ADVANCE_TIMESTAMP);
    var bs := DiffSegments(c.block, h.blockNumber, KIND_ADVANCE_BLOCK);
    assert ClockSegments(c, h) + rest == ts + (bs + rest);
    if c.timestamp != h.timestamp {
      DiffAdvances(c.timestamp, h.timestamp, KIND_ADVANCE_TIMESTAMP, c.timestamp, c.block);
      assert (ts + (bs + rest))[1..] == bs + rest;
    } else {
      assert ts + (bs + rest) == bs + rest;
    }
    assert Decode(w, sm, ts + (bs + rest), c.timestamp, c.block, c.delayed) ==
           Decode(w, sm, bs + rest, h.timestamp, c.block, c.delayed);
    if c.block != h.blockNumber {
      DiffAdvances(c.block, h.blockNumber, KIND_ADVANCE_BLOCK, h.timestamp, c.block);
      assert (bs + rest)[1..] == rest;
    } else {
      assert bs + rest == rest;
    }
  }

  lemma EncodedCarriesMessage(c: Clock, msgs: seq<MessageWithMeta>)
    requires AcceptsAll(c, msgs) && msgs != []
    ensures AnyCarriesMessage(EncodeMessages(c, msgs))
  {
    var first := EncodeMessage(c, msgs[0]);
    assert CarriesMessage(EncodeMessages(c, msgs)[|first| - 1]);
  }

  /** Decoding the segments of one message yields it, and continues with the poster's clocks. */
  lemma DecodeOne(w: World, sm: SequencerMessage, c: Clock, m: MessageWithMeta, rest: seq<bytes>)
    requires Sequenced(w, c, m)
    requires Tock(c, m).delayed <= sm.afterDelayed && Readable(w, c.delayed, sm.afterDelayed)
    ensures var c1 := Tock(c, m);
            var r := Received(sm, c, m);
            Decode(w, sm, EncodeMessage(c, m) + rest, c.timestamp, c.block, c.delayed) ==
            if c1.delayed >= sm.afterDelayed && !AnyCarriesMessage(rest) then [r]
            else [r] + Decode(w, sm, rest, c1.timestamp, c1.block, c1.delayed)
  {
    if IsDelayed(c, m) {
      assert ([[KIND_DELAYED]] + rest)[1..] == rest;
    } else {
      var h, body := m.message.value.header, [KIND_L2_MESSAGE] + m.message.value.l2msg;
      assert EncodeMessage(c, m) + rest == ClockSegments(c, h) + ([body] + rest);
      DecodeClockSegments(w, sm, c, h, [body] + rest);
      assert ([body] + rest)[1..] == rest && body[1..] == m.message.value.l2msg;
    }
  }

  /** One-pass decoding undoes encoding. */
  lemma {:induction false} DecodeEncoded(w: World, sm: SequencerMessage, c: Clock, msgs: seq<MessageWithMeta>)
    requires AllSequenced(w, c, msgs) && msgs != []
    requires sm.afterDelayed == ClockAfter(c, msgs).delayed
    ensures c.delayed <= sm.afterDelayed && Readable(w, c.delayed, sm.afterDelayed)
    ensures Decode(w, sm, EncodeMessages(c, msgs), c.timestamp, c.block, c.delayed) == ReceivedAll(sm, c, msgs)
    ensures AllReadAs(sm, c.delayed, msgs, ReceivedAll(sm, c, msgs))
    decreases |msgs|
  {
    ReceivedIsReadAs(w, sm, c, msgs);
    hide ReadAs, AllReadAs, CountBefore;
    SequencedIsReadable(w, c, msgs);
    var c1, ms := Tock(c, msgs[0]), msgs[1..];
    SequencedIsReadable(w, c1, ms);
    DecodeOne(w, sm, c, msgs[0], EncodeMessages(c1, ms));
    if ms != [] {
      DecodeEncoded(w, sm, c1, ms);
      EncodedCarriesMessage(c1, ms);
    }
  }

  /** Brotli loses nothing, at any level. */
  ghost predicate Lossless(compress: Compressor, decompress: (bytes, nat) -> Option<bytes>) {
    forall level, data, limit :: |data| <= limit ==> decompress(compress(level, data), limit) == Some(data)
  }

  /** A posted batch parses to its header and the segments that were compressed. */
  lemma ParseBatch(dec: Decoder, compress: Compressor, header: SequencerMessage, segments: seq<bytes>, level: nat)
    requires Lossless(compress, dec.decompress)
    requires FirstAccepting(dec.providers, BROTLI_HEADER_BYTE).None?
    requires |segments| <= MAX_SEGMENTS && forall s <- segments :: |s| < TWO64
    requires |EncodeSegments(segments)| <= MAX_DECOMPRESSED_LEN
    ensures Parse(dec, Serialize(header, [BROTLI_HEADER_BYTE] + compress(level, EncodeSegments(segments)))) ==
            Ok(header.(segments := segments))
  {
    var compressed := compress(level, EncodeSegments(segments));
    ParseSerialized(dec, header, compressed);
    assert ([BROTLI_HEADER_BYTE] + compressed)[1..] == compressed;
    SegmentsRoundTrip(segments, 0);
  }

  /** Round trip: a batch posted from the log, under any time bounds, is popped as exactly the log messages between
      the poster's positions, with clocks moved within the bounds, and leaves the reader at the poster's next one. */
  lemma PostedBatchIsRead(w: World, compress: Compressor, header: SequencerMessage, position: Position, next: Position,
                          log: seq<MessageWithMeta>, data: bytes)
    requires Posted(compress, position, log, data, next)
    requires AllSequenced(w, StartClock(position.delayedCount), log[position.messageCount..next.messageCount])
    requires Lossless(compress, w.decoder.decompress)
    requires FirstAccepting(w.decoder.providers, BROTLI_HEADER_BYTE).None?
    requires header.afterDelayed == next.delayedCount
    requires position.nextSeqNum < |w.inbox| && w.inbox[position.nextSeqNum] == Serialize(header, data)
    ensures PopsExactly(w, Mux(position.nextSeqNum, 0, position.delayedCount, None, ORIGIN),
                        ReceivedAll(header, StartClock(position.delayedCount),
                            log[position.messageCount..next.messageCount]),
                        Mux(next.nextSeqNum, 0, next.delayedCount, None, ORIGIN))
    ensures var msgs := log[position.messageCount..next.messageCount];
            AllReadAs(header, position.delayedCount, msgs,
                      ReceivedAll(header, StartClock(position.delayedCount), msgs))
  {
    hide AllReadAs, Received, Sequenced, EncodeMessage, Decode, Parse;
    var start, msgs := StartClock(position.delayedCount), log[position.messageCount..next.messageCount];
    var segments := EncodeMessages(start, msgs);
    var sm := header.(segments := segments);
    var level :| data == [BROTLI_HEADER_BYTE] + compress(level, EncodeSegments(segments));
    ParseBatch(w.decoder, compress, header, segments, level);
    DecodeEncoded(w, sm, start, msgs);
    BoundsOnly(header, sm, start, msgs);
    ReceivedIsReadAs(w, header, start, msgs);
    var m := Mux(position.nextSeqNum, 0, position.delayedCount, None, ORIGIN);
    PendingAtStart(w, position.nextSeqNum, sm, position.delayedCount);
    BatchIsDecoded(w, m, sm);
  }

  /** Batches with the same bytes have the same segments. */
  lemma SameBytesSameSegments(compress: Compressor, decompress: (bytes, nat) -> Option<bytes>, first: u64,
                              msgs: seq<MessageWithMeta>, first1: u64, msgs1: seq<MessageWithMeta>, data: bytes)
    requires Lossless(compress, decompress)
    requires AcceptsAll(StartClock(first), msgs) && IsBatch(compress, first, msgs, data)
    requires AcceptsAll(StartClock(first1), msgs1) && IsBatch(compress, first1, msgs1, data)
    ensures EncodeMessages(StartClock(first), msgs) == EncodeMessages(StartClock(first1), msgs1)
  {
    var a, b := EncodeMessages(StartClock(first), msgs), EncodeMessages(StartClock(first1), msgs1);
    var level :| data == [BROTLI_HEADER_BYTE] + compress(level, EncodeSegments(a));
    var level1 :| data == [BROTLI_HEADER_BYTE] + compress(level1, EncodeSegments(b));
    assert compress(level, EncodeSegments(a)) == data[1..] == compress(level1, EncodeSegments(b));
    assert Some(EncodeSegments(a)) == decompress(data[1..], MAX_DECOMPRESSED_LEN) == Some(EncodeSegments(b));
    SegmentsRoundTrip(a, 0);
    SegmentsRoundTrip(b, 0);
  }

  /** What a batch kept from the log before posts for it has other bytes than a batch of the log after. */
  lemma ReplacedIsNotPosted(compress: Compressor, decompress: (bytes, nat) -> Option<bytes>, data: bytes,
                            next: Position)
    requires Lossless(compress, decompress)
    requires PostsOwn(compress, AFTER_FIRST, 1, [Tx(1)], data, next)
    ensures Posted(compress, AFTER_FIRST, [Tx(0), Tx(1)], data, next)
    ensures !Posted(compress, AFTER_FIRST, [Tx(0), Tx(2)], data, next)
  {
    hide IsBatch;
    assert [Tx(0), Tx(1)][1..2] == [Tx(1)] && [Tx(0), Tx(2)][1..2] == [Tx(2)];
    OwnIsPosted(compress, AFTER_FIRST, [Tx(0), Tx(1)], 1, [Tx(1)], data, next);
    if Posted(compress, AFTER_FIRST, [Tx(0), Tx(2)], data, next) {
      SameBytesSameSegments(compress, decompress, 1, [Tx(1)], 1, [Tx(2)], data);
      OneSegment(1);
      OneSegment(2);
    }
  }

  lemma OneSegment(data: byte)
    ensures AcceptsAll(StartClock(1), [Tx(data)])
    ensures EncodeMessages(StartClock(1), [Tx(data)]) == [[KIND_L2_MESSAGE, data]]
  {
    assert [Tx(data)][1..] == [] && [KIND_L2_MESSAGE] + [data] == [KIND_L2_MESSAGE, data];
    assert EncodeMessage(StartClock(1), Tx(data)) == [[KIND_L2_MESSAGE, data]];
  }

  lemma {:induction false} BoundsOnly(a: SequencerMessage, b: SequencerMessage, c: Clock, msgs: seq<MessageWithMeta>)
    requires a == b.(segments := a.segments) && AcceptsAll(c, msgs)
    ensures ReceivedAll(a, c, msgs) == ReceivedAll(b, c, msgs)
    decreases |msgs|
  {
    if msgs != [] { BoundsOnly(a, b, Tock(c, msgs[0]), msgs[1..]); }
  }
}

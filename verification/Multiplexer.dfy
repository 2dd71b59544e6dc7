/** The inbox multiplexer: pops one message at a time off the sequencer inbox, interleaving delayed
    messages, and keeps caches that let the next pop continue where the last one stopped. */
module Multiplexer {
  import opened Types
  import opened Rlp
  import opened SequencerMessages

  const KIND_L2_MESSAGE: byte := 0
  const KIND_L2_MESSAGE_BROTLI: byte := 1
  const KIND_DELAYED: byte := 2
  const KIND_ADVANCE_TIMESTAMP: byte := 3
  const KIND_ADVANCE_BLOCK: byte := 4

  const MAX_L2_MESSAGE_SIZE: nat := 256 * 1024

  /** The backend: serialized batches, the delayed inbox, and the foreign decoders. */
  datatype World = World(inbox: seq<bytes>, delayed: map<u64, L1Message>, decoder: Decoder)

  /** How far a batch was scanned: next segment, running clocks, and messages passed so far. */
  datatype Cursor = Cursor(segment: nat, timestamp: u64, block: u64, passed: nat)

  const ORIGIN: Cursor := Cursor(0, 0, 0, 0)

  /** The multiplexer with its backend position. The message position is unbounded here. */
  datatype Mux = Mux(
    inboxPos: nat,
    position: nat,
    delayedRead: u64,
    cached: Option<SequencerMessage>,
    cursor: Cursor)

  datatype MuxError = PastEndOfInbox | BadBatch(cause: ParseError) | DelayedUnavailable

  /** What scanning to a message yields: a message, a parse failure, or a backend error. */
  datatype Fetched = Message(msg: MessageWithMeta) | Unparsable | Unavailable

  predicate IsClock(segment: bytes) {
    segment != [] && (segment[0] == KIND_ADVANCE_TIMESTAMP || segment[0] == KIND_ADVANCE_BLOCK)
  }

  /** Segments that hold a place in the batch, whether or not their kind is known. */
  predicate HoldsPlace(segment: bytes) {
    segment != [] && !IsClock(segment)
  }

  /** Segments the end-of-batch test looks for. */
  predicate CarriesMessage(segment: bytes) {
    segment != [] && segment[0] <= KIND_DELAYED
  }

  predicate AnyCarriesMessage(segments: seq<bytes>) {
    exists i :: 0 <= i < |segments| && CarriesMessage(segments[i])
  }

  /** The clocks after a segment that holds no place; malformed clock segments change nothing. */
  function Tick(segment: bytes, timestamp: u64, block: u64): (u64, u64) {
    if IsClock(segment) then
      var advance := DecodeUint(segment[1..]);
      if advance.None? then (timestamp, block)
      else if segment[0] == KIND_ADVANCE_TIMESTAMP then (WrapAdd(timestamp, advance.value), block)
      else (timestamp, WrapAdd(block, advance.value))
    else (timestamp, block)
  }

  /** Scans forward from a cursor until `target` messages were passed and the next segment holds a
      place, or the batch ends. */
  function Scan(segments: seq<bytes>, c: Cursor, target: nat): Cursor
    decreases |segments| - c.segment
  {
    if c.segment >= |segments| then c
    else
      var s := segments[c.segment];
      if !HoldsPlace(s) then
        var (t, b) := Tick(s, c.timestamp, c.block);
        Scan(segments, Cursor(c.segment + 1, t, b, c.passed), target)
      else if c.passed < target then
        Scan(segments, c.(segment := c.segment + 1, passed := c.passed + 1), target)
      else c
  }

  function Clamp(x: u64, lo: u64, hi: u64): u64 {
    if x < lo then lo else if x > hi then hi else x
  }

  function L2Message(sm: SequencerMessage, timestamp: u64, block: u64, data: bytes): L1Message {
    L1Message(
      Header(L1_KIND_L2_MESSAGE, BATCH_POSTER_ADDRESS, Clamp(block, sm.minL1Block, sm.maxL1Block),
             Clamp(timestamp, sm.minTimestamp, sm.maxTimestamp), None, Some(0)),
      data, None)
  }

  function Invalid(delayedRead: u64): MessageWithMeta {
    MessageWithMeta(Some(INVALID_L1_MESSAGE), delayedRead)
  }

  /** The next delayed message, or an invalid one once the batch's delayed count is reached. */
  function FetchDelayed(w: World, sm: SequencerMessage, delayedRead: u64): (Fetched, u64) {
    if delayedRead >= sm.afterDelayed then (Message(Invalid(sm.afterDelayed)), delayedRead)
    else if delayedRead !in w.delayed then (Unavailable, delayedRead)
    else (Message(MessageWithMeta(Some(w.delayed[delayedRead]), delayedRead + 1)), delayedRead + 1)
  }

  /** The message held by a segment, and the delayed count after it. */
  function Fetch(w: World, sm: SequencerMessage, segment: bytes, timestamp: u64, block: u64, delayedRead: u64)
    : (Fetched, u64)
    requires segment != []
  {
    if segment[0] == KIND_L2_MESSAGE then
      (Message(MessageWithMeta(Some(L2Message(sm, timestamp, block, segment[1..])), delayedRead)), delayedRead)
    else if segment[0] == KIND_L2_MESSAGE_BROTLI then
      var data := w.decoder.decompress(segment[1..], MAX_L2_MESSAGE_SIZE);
      if data.None? then (Unparsable, delayedRead)
      else (Message(MessageWithMeta(Some(L2Message(sm, timestamp, block, data.value)), delayedRead)), delayedRead)
    else if segment[0] == KIND_DELAYED then FetchDelayed(w, sm, delayedRead)
    else (Unparsable, delayedRead)
  }

  /** The segment a cursor stands on; past the end of the batch there are virtual delayed ones. */
  function SegmentAt(segments: seq<bytes>, i: nat): bytes {
    if i < |segments| then segments[i] else [KIND_DELAYED]
  }

  predicate IsLast(sm: SequencerMessage, segment: nat, delayedRead: u64) {
    delayedRead >= sm.afterDelayed && !AnyCarriesMessage(sm.segments[Min(segment + 1, |sm.segments|)..])
  }

  /** Popping from a parsed batch. */
  function PopFrom(w: World, m: Mux, sm: SequencerMessage): (Mux, Result<MessageWithMeta, MuxError>) {
    var c := Scan(sm.segments, m.cursor, m.position);
    var segment := SegmentAt(sm.segments, c.segment);
    var (fetched, delayedRead) :=
      if segment == [] then (Unparsable, m.delayedRead)
      else Fetch(w, sm, segment, c.timestamp, c.block, m.delayedRead);
    var m' :=
      if IsLast(sm, c.segment, delayedRead) then Mux(m.inboxPos + 1, 0, sm.afterDelayed, None, ORIGIN)
      else Mux(m.inboxPos, m.position + 1, delayedRead, Some(sm), c);
    (m', match fetched
         case Message(msg) => Ok(msg)
         case Unparsable => Ok(Invalid(m'.delayedRead))
         case Unavailable => Err(DelayedUnavailable))
  }

  function Pop(w: World, m: Mux): (Mux, Result<MessageWithMeta, MuxError>) {
    if m.cached.Some? then PopFrom(w, m, m.cached.value)
    else if m.inboxPos >= |w.inbox| then (m, Err(PastEndOfInbox))
    else
      match Parse(w.decoder, w.inbox[m.inboxPos])
      case Err(e) => (m, Err(BadBatch(e)))
      case Ok(sm) => PopFrom(w, m, sm)
  }

  /** The imperative multiplexer. */
  class InboxMultiplexer {
    const world: World
    var inboxPos: nat
    var position: nat
    var delayedRead: u64
    var cachedMessage: Option<SequencerMessage>
    var cachedSegmentNum: nat
    var cachedTimestamp: u64
    var cachedBlock: u64
    var cachedSubMessage: nat

    function State(): Mux
      reads this
    {
      Mux(inboxPos, position, delayedRead, cachedMessage,
          Cursor(cachedSegmentNum, cachedTimestamp, cachedBlock, cachedSubMessage))
    }

    constructor (world: World, inboxPos: nat, position: nat, delayedRead: u64)
      ensures this.world == world
      ensures State() == Mux(inboxPos, position, delayedRead, None, ORIGIN)
    {
      this.world := world;
      this.inboxPos, this.position, this.delayedRead := inboxPos, position, delayedRead;
      cachedMessage, cachedSegmentNum, cachedTimestamp, cachedBlock, cachedSubMessage := None, 0, 0, 0, 0;
    }

    method PopMessage() returns (r: Result<MessageWithMeta, MuxError>)
      modifies this
      ensures (State(), r) == Pop(world, old(State()))
    {
      hide Parse;
      hide Scan;
      hide Fetch;
      hide IsLast;
      ghost var m := State();
      if cachedMessage.None? {
        if inboxPos >= |world.inbox| {
          return Err(PastEndOfInbox);
        }
        var parsed := Parse(world.decoder, world.inbox[inboxPos]);
        if parsed.Err? {
          return Err(BadBatch(parsed.error));
        }
        cachedMessage := Some(parsed.value);
      }
      var sm := cachedMessage.value;
      var fetched := GetNextMessage(sm);
      var last := IsCachedSegmentLast(sm);
      if last {
        AdvanceSequencerMessage(sm);
      } else {
        position := position + 1;
      }
      r := match fetched
           case Message(msg) => Ok(msg)
           case Unparsable => Ok(Invalid(delayedRead))
           case Unavailable => Err(DelayedUnavailable);
      assert (State(), r) == PopFrom(world, m, sm);
      hide PopFrom;
    }

    method AdvanceSequencerMessage(sm: SequencerMessage)
      modifies this
      ensures State() == Mux(old(inboxPos) + 1, 0, sm.afterDelayed, None, ORIGIN)
    {
      delayedRead, position, inboxPos := sm.afterDelayed, 0, inboxPos + 1;
      cachedMessage, cachedSegmentNum, cachedTimestamp, cachedBlock, cachedSubMessage := None, 0, 0, 0, 0;
    }

    method IsCachedSegmentLast(sm: SequencerMessage) returns (last: bool)
      ensures last == IsLast(sm, cachedSegmentNum, delayedRead)
    {
      if delayedRead < sm.afterDelayed {
        return false;
      }
      ghost var rest := sm.segments[Min(cachedSegmentNum + 1, |sm.segments|)..];
      var n := cachedSegmentNum + 1;
      while n < |sm.segments|
        invariant cachedSegmentNum + 1 <= n
        invariant forall i :: 0 <= i < n - cachedSegmentNum - 1 && i < |rest| ==> !CarriesMessage(rest[i])
      {
        assert rest[n - cachedSegmentNum - 1] == sm.segments[n];
        if CarriesMessage(sm.segments[n]) {
          return false;
        }
        n := n + 1;
      }
      return true;
    }

    method GetNextMessage(sm: SequencerMessage) returns (fetched: Fetched)
      modifies this
      ensures var c := Scan(sm.segments, old(State()).cursor, position);
              var segment := SegmentAt(sm.segments, c.segment);
              State().cursor == c &&
              (fetched, delayedRead) ==
                if segment == [] then (Unparsable, old(delayedRead))
                else Fetch(world, sm, segment, c.timestamp, c.block, old(delayedRead))
      ensures inboxPos == old(inboxPos) && position == old(position) && cachedMessage == old(cachedMessage)
    {
      var segmentNum: nat, timestamp: u64, block: u64, sub: nat :=
        cachedSegmentNum, cachedTimestamp, cachedBlock, cachedSubMessage;
      while segmentNum < |sm.segments|
        invariant Scan(sm.segments, Cursor(segmentNum, timestamp, block, sub), position) ==
                  Scan(sm.segments, old(State()).cursor, position)
        decreases |sm.segments| - segmentNum
      {
        var segment := sm.segments[segmentNum];
        if segment == [] {
          segmentNum := segmentNum + 1;
        } else if IsClock(segment) {
          var advancing := DecodeUint(segment[1..]);
          if advancing.Some? {
            if segment[0] == KIND_ADVANCE_TIMESTAMP {
              timestamp := WrapAdd(timestamp, advancing.value);
            } else {
              block := WrapAdd(block, advancing.value);
            }
          }
          segmentNum := segmentNum + 1;
        } else if sub < position {
          segmentNum, sub := segmentNum + 1, sub + 1;
        } else {
          break;
        }
      }
      cachedSegmentNum, cachedTimestamp, cachedBlock, cachedSubMessage := segmentNum, timestamp, block, sub;
      var segment := if segmentNum >= |sm.segments| then [KIND_DELAYED] else sm.segments[segmentNum];
      if segment == [] {
        fetched := Unparsable;
      } else {
        var (f, d) := Fetch(world, sm, segment, timestamp, block, delayedRead);
        fetched, delayedRead := f, d;
      }
    }
  }
}

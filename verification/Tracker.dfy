/** The inbox tracker: the delayed inbox as a hash chain, the metadata of sequencer batches, and an
    index from delayed counts to batches, kept in step with the message log. */
module Tracker {
  import opened Types
  import opened SequencerMessages
  import opened Multiplexer
  import opened MultiplexerProperties
  import opened Streamer

  /** Accumulators of the delayed inbox. Hashing is a free constructor: it covers the previous
      accumulator and every field of the message but the batch gas cost. */
  datatype Acc = ZeroAcc | Acc(before: Acc, header: Header, l2msg: bytes)

  function AfterAcc(before: Acc, m: L1Message): Acc {
    Acc(before, m.header, m.l2msg)
  }

  /** A delayed message as it arrives from the bridge. */
  datatype DelayedMessage = DelayedMessage(before: Acc, message: L1Message)

  /** A delayed message as it is stored. */
  datatype Entry = Entry(acc: Acc, message: L1Message)

  datatype BatchMeta = BatchMeta(acc: nat, messageCount: nat, delayedCount: u64)

  /** A sequencer batch as it arrives, with its fetched data. */
  datatype Batch = Batch(
    sequenceNumber: nat,
    beforeAcc: nat,
    afterAcc: nat,
    bounds: SequencerMessage,
    afterDelayedCount: u64,
    afterDelayedAcc: Acc,
    payload: bytes)

  function SerializeBatch(b: Batch): bytes {
    Serialize(b.bounds.(afterDelayed := b.afterDelayedCount), b.payload)
  }

  /** The tracker and the message log. `index` maps a positive delayed count to the first batch that
      reached it. */
  datatype Node = Node(delayed: seq<Entry>, metas: seq<BatchMeta>, index: map<nat, nat>, stream: Stream)

  const GENESIS: Node := Node([], [], map[], Stream([], Queue([], 0, false)))

  function PrevMeta(metas: seq<BatchMeta>, count: nat): BatchMeta
    requires count <= |metas|
  {
    if count == 0 then BatchMeta(0, 0, 0) else metas[count - 1]
  }

  function PrevAcc(delayed: seq<Entry>, pos: nat): Acc
    requires pos <= |delayed|
  {
    if pos == 0 then ZeroAcc else delayed[pos - 1].acc
  }

  // ---- Reorganizing batches

  function KeysUpTo(index: map<nat, nat>, count: nat): map<nat, nat> {
    map d | d in index && d <= count :: index[d]
  }

  /** Drops all batches from `count` on, and the messages after the batch before it. */
  function DropBatches(n: Node, count: nat, index: map<nat, nat>, execOk: bool): Option<Node>
    requires count <= |n.metas|
  {
    var truncated := Truncate(n.stream, PrevMeta(n.metas, count).messageCount, execOk);
    if truncated.Err? then None
    else Some(n.(metas := n.metas[..count], index := index, stream := truncated.value))
  }

  function ReorgBatchesTo(n: Node, count: nat, execOk: bool): Option<Node> {
    if count > |n.metas| then None
    else DropBatches(n, count, KeysUpTo(n.index, PrevMeta(n.metas, count).delayedCount), execOk)
  }

  // ---- The delayed inbox

  /** The least indexed delayed count above a given one. */
  ghost predicate IsNextKey(index: map<nat, nat>, count: nat, d: nat) {
    d in index && d > count && forall e :: e in index && e > count ==> d <= e
  }

  lemma NextKeyExists(index: map<nat, nat>, count: nat, d: nat)
    requires d in index && d > count
    ensures exists k :: IsNextKey(index, count, k)
    decreases d
  {
    if !IsNextKey(index, count, d) {
      var e :| e in index && e > count && e < d;
      NextKeyExists(index, count, e);
    }
  }

  ghost function NextKey(index: map<nat, nat>, count: nat): (d: nat)
    requires exists e :: e in index && e > count
    ensures IsNextKey(index, count, d)
  {
    var e :| e in index && e > count;
    NextKeyExists(index, count, e);
    var d :| IsNextKey(index, count, d);
    d
  }

  /** Replaces the delayed inbox. Batches that read beyond its end are dropped if allowed. */
  ghost function SetDelayed(n: Node, delayed: seq<Entry>, canReorg: bool, execOk: bool): Option<Node> {
    if forall d :: d in n.index ==> d <= |delayed| then Some(n.(delayed := delayed))
    else if !canReorg then None
    else
      var count := n.index[NextKey(n.index, |delayed|)];
      if count > |n.metas| then None
      else DropBatches(n.(delayed := delayed), count, KeysUpTo(n.index, |delayed|), execOk)
  }

  /** Messages that continue the chain from an accumulator, at consecutive sequence numbers. */
  predicate Continues(acc: Acc, pos: nat, msgs: seq<DelayedMessage>)
    decreases |msgs|
  {
    msgs != [] ==>
      && msgs[0].message.header.requestId == Some(pos)
      && msgs[0].before == acc
      && Continues(AfterAcc(acc, msgs[0].message), pos + 1, msgs[1..])
  }

  function Entries(msgs: seq<DelayedMessage>): (r: seq<Entry>)
    ensures |r| == |msgs|
    ensures forall i :: 0 <= i < |msgs| ==> r[i] == Entry(AfterAcc(msgs[i].before, msgs[i].message), msgs[i].message)
  {
    seq(|msgs|, i requires 0 <= i < |msgs| => Entry(AfterAcc(msgs[i].before, msgs[i].message), msgs[i].message))
  }

  /** Whether the last message is already stored with the same accumulator. */
  predicate AlreadyStored(delayed: seq<Entry>, pos: nat, msgs: seq<DelayedMessage>)
    requires msgs != []
  {
    var last := msgs[|msgs| - 1];
    pos + |msgs| <= |delayed| && delayed[pos + |msgs| - 1].acc == AfterAcc(last.before, last.message)
  }

  ghost function AddDelayed(n: Node, msgs: seq<DelayedMessage>, hardReorg: bool, execOk: bool): Option<Node> {
    if msgs == [] then Some(n)
    else if msgs[0].message.header.requestId.None? then None
    else
      var pos := msgs[0].message.header.requestId.value;
      if !hardReorg && AlreadyStored(n.delayed, pos, msgs) then Some(n)
      else if pos > |n.delayed| || !Continues(PrevAcc(n.delayed, pos), pos, msgs) then None
      else SetDelayed(n, n.delayed[..pos] + Entries(msgs), true, execOk)
  }

  ghost function ReorgDelayedTo(n: Node, count: nat, canReorg: bool, execOk: bool): Option<Node> {
    if count == |n.delayed| then Some(n)
    else if count > |n.delayed| then None
    else SetDelayed(n, n.delayed[..count], canReorg, execOk)
  }

  // ---- Adding batches

  /** Batches must be consecutive, chain on, and agree with the stored delayed inbox. */
  predicate Acceptable(delayed: seq<Entry>, pos: nat, acc: nat, batches: seq<Batch>)
    decreases |batches|
  {
    batches != [] ==>
      var b := batches[0];
      && b.sequenceNumber == pos
      && b.beforeAcc == acc
      && b.afterDelayedCount <= |delayed|
      && (b.afterDelayedCount > 0 ==> delayed[b.afterDelayedCount - 1].acc == b.afterDelayedAcc)
      && Acceptable(delayed, pos + 1, b.afterAcc, batches[1..])
  }

  /** Batches whose bytes parse and whose delayed counts do not go backwards. */
  predicate Parses(dec: Decoder, from: u64, batches: seq<Batch>)
    decreases |batches|
  {
    batches != [] ==>
      && from <= batches[0].afterDelayedCount
      && Parse(dec, SerializeBatch(batches[0])).Ok?
      && Parses(dec, batches[0].afterDelayedCount, batches[1..])
  }

  /** The world the multiplexer reads: the batches, and the delayed inbox below the stored count. */
  function WorldOf(dec: Decoder, delayed: seq<Entry>, batches: seq<Batch>): World {
    World(seq(|batches|, i requires 0 <= i < |batches| => SerializeBatch(batches[i])),
          map i: u64 | 0 <= i < |delayed| && i < TWO64 :: delayed[i].message, dec)
  }

  predicate NonEmpty(parts: seq<seq<MessageWithMeta>>) {
    forall i :: 0 <= i < |parts| ==> parts[i] != []
  }

  /** The messages of each batch in turn. */
  ghost function MessagesOf(dec: Decoder, delayed: seq<Entry>, from: u64, batches: seq<Batch>)
    : (r: seq<seq<MessageWithMeta>>)
    requires Parses(dec, from, batches)
    requires forall b <- batches :: b.afterDelayedCount <= |delayed|
    ensures |r| == |batches|
    ensures NonEmpty(r)
    decreases |batches|
  {
    if batches == [] then []
    else
      var sm := Parse(dec, SerializeBatch(batches[0])).value;
      ParsedDelayedCount(dec, batches[0]);
      [Decode(WorldOf(dec, delayed, []), sm, sm.segments, 0, 0, from)] +
      MessagesOf(dec, delayed, batches[0].afterDelayedCount, batches[1..])
  }

  /** A batch is read with the delayed count it was delivered with. */
  lemma ParsedDelayedCount(dec: Decoder, b: Batch)
    requires Parse(dec, SerializeBatch(b)).Ok?
    ensures Parse(dec, SerializeBatch(b)).value.afterDelayed == b.afterDelayedCount
  {
    var data := SerializeBatch(b);
    assert data[32..40] == Fixed(b.afterDelayedCount, 8);
    ReadFixed(b.afterDelayedCount);
  }

  function Flatten(parts: seq<seq<MessageWithMeta>>): seq<MessageWithMeta> {
    if parts == [] then [] else parts[0] + Flatten(parts[1..])
  }

  /** The metadata to store, given how many messages each batch holds. */
  function NewMetas(count: nat, batches: seq<Batch>, parts: seq<seq<MessageWithMeta>>): (r: seq<BatchMeta>)
    requires |batches| == |parts|
    ensures |r| == |batches|
    decreases |batches|
  {
    if batches == [] then []
    else
      var count1 := count + |parts[0]|;
      [BatchMeta(batches[0].afterAcc, count1, batches[0].afterDelayedCount)] +
          NewMetas(count1, batches[1..], parts[1..])
  }

  /** Each batch that raises the delayed count is indexed under its new count. */
  function NewIndex(index: map<nat, nat>, last: u64, batches: seq<Batch>): map<nat, nat>
    decreases |batches|
  {
    if batches == [] then index
    else
      var b := batches[0];
      NewIndex(if b.afterDelayedCount > last then index[b.afterDelayedCount := b.sequenceNumber] else index,
               b.afterDelayedCount, batches[1..])
  }

  ghost function AddBatches(n: Node, dec: Decoder, batches: seq<Batch>, execOk: bool): Option<Node> {
    if batches == [] then Some(n)
    else
      var pos := batches[0].sequenceNumber;
      if pos > |n.metas| then None
      else
        var prev := PrevMeta(n.metas, pos);
        if !Acceptable(n.delayed, pos, prev.acc, batches) || !Parses(dec, prev.delayedCount, batches) then None
        else
          AcceptableIsBounded(n.delayed, pos, prev.acc, batches);
          var parts := MessagesOf(dec, n.delayed, prev.delayedCount, batches);
          var added := AddConfirmed(n.stream, prev.messageCount, Flatten(parts), execOk);
          if added.Err? then None
          else
            Some(n.(
              metas := n.metas[..pos] + NewMetas(prev.messageCount, batches, parts),
              index := NewIndex(KeysUpTo(n.index, prev.delayedCount), prev.delayedCount, batches),
              stream := added.value))
  }

  lemma {:induction false} AcceptableIsBounded(delayed: seq<Entry>, pos: nat, acc: nat, batches: seq<Batch>)
    requires Acceptable(delayed, pos, acc, batches)
    ensures forall b <- batches :: b.afterDelayedCount <= |delayed|
    decreases |batches|
  {
    if batches != [] { AcceptableIsBounded(delayed, pos + 1, batches[0].afterAcc, batches[1..]); }
  }
}

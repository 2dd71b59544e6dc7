/** What is pruned is never read: operations at or after the batches pruned give the same without it. */
module PrunedReads {
  import opened Types
  import opened SequencerMessages
  import opened Multiplexer
  import opened MultiplexerProperties
  import opened Streamer
  import opened Tracker
  import opened TrackerProperties
  import Pruner

  /** The same length, and the same entries from one before a position on. */
  predicate SameFrom<V(==)>(a: seq<V>, b: seq<V>, from: nat) {
    |a| == |b| && forall i :: 0 <= i < |a| && from <= i + 1 ==> a[i] == b[i]
  }

  predicate SameStream(s: Stream, s1: Stream, from: nat) {
    s1.queue == s.queue && SameFrom(s.log, s1.log, from)
  }

  /** Nodes that differ at most in messages and delayed messages before those of some batch. */
  predicate Agree(n: Node, n1: Node, floor: BatchMeta) {
    && n1.metas == n.metas && n1.index == n.index
    && SameStream(n.stream, n1.stream, floor.messageCount)
    && SameFrom(n.delayed, n1.delayed, floor.delayedCount)
  }

  predicate BothAgree(r: Option<Node>, r1: Option<Node>, floor: BatchMeta) {
    r.Some? == r1.Some? && (r.Some? ==> Agree(r.value, r1.value, floor))
  }

  // ----- The message log -----

  predicate SameResult(r: Result<Stream, StreamError>, r1: Result<Stream, StreamError>, from: nat) {
    match r
    case Ok(s) => r1.Ok? && SameStream(s, r1.value, from)
    case Err(e) => r1 == r
  }

  lemma {:induction false} SameDuplicates(a: seq<MessageWithMeta>, b: seq<MessageWithMeta>, from: nat, pos: nat,
                                          msgs: seq<MessageWithMeta>)
    requires SameFrom(a, b, from) && from <= pos
    ensures CountDuplicates(a, pos, msgs) == CountDuplicates(b, pos, msgs)
    decreases |msgs|
  {
    hide Duplicate;
    if msgs != [] && pos < |a| {
      assert a[pos] == b[pos];
      SameDuplicates(a, b, from, pos + 1, msgs[1..]);
    }
  }

  lemma SamePlan(s: Stream, s1: Stream, from: nat, pos: nat, confirmed: bool, msgs: seq<MessageWithMeta>)
    requires SameStream(s, s1, from) && from <= pos
    ensures MakePlan(s, pos, confirmed, msgs) == MakePlan(s1, pos, confirmed, msgs)
  {
    SameDuplicates(s.log, s1.log, from, pos, msgs);
    var plan := MakePlan(s, pos, confirmed, msgs);
    SameDuplicates(s.log, s1.log, from, plan.start, plan.pending);
    hide CountDuplicates, QueueTail;
  }

  lemma SameCommit(s: Stream, s1: Stream, from: nat, pos: nat, msgs: seq<MessageWithMeta>, p: Plan, execOk: bool)
    requires SameStream(s, s1, from) && from <= pos
    requires p.known <= |msgs| && p.start == pos + p.known && p.held <= |p.pending| && p.start + p.held <= |s.log|
    ensures SameResult(Commit(s, pos, msgs, p, execOk), Commit(s1, pos, msgs, p, execOk), from)
  {
    hide Steps, QueueAfter, KeepGas;
  }

  lemma SameAdd(s: Stream, s1: Stream, from: nat, pos: nat, confirmed: bool, msgs: seq<MessageWithMeta>, execOk: bool)
    requires SameStream(s, s1, from) && from <= pos
    ensures SameResult(Add(s, pos, confirmed, msgs, execOk), Add(s1, pos, confirmed, msgs, execOk), from)
  {
    hide MakePlan, Commit;
    SamePlan(s, s1, from, pos, confirmed, msgs);
    if pos <= |s.log| {
      SameCommit(s, s1, from, pos, msgs, MakePlan(s, pos, confirmed, msgs), execOk);
    }
  }

  lemma SameConfirmed(s: Stream, s1: Stream, from: nat, pos: nat, msgs: seq<MessageWithMeta>, execOk: bool)
    requires SameStream(s, s1, from) && from <= pos
    ensures SameResult(AddConfirmed(s, pos, msgs, execOk), AddConfirmed(s1, pos, msgs, execOk), from)
  {
    hide CountDuplicates, Add;
    SameDuplicates(s.log, s1.log, from, pos, msgs);
    SameAdd(s, s1, from, pos, true, msgs, execOk);
  }

  lemma SameFeed(s: Stream, s1: Stream, from: nat, feed: seq<FeedMessage>, maxQueue: nat)
    requires SameStream(s, s1, from)
    requires feed != [] ==> from <= feed[0].sequenceNumber
    requires s.queue.msgs != [] ==> from <= s.queue.pos
    ensures var r, r1 := AddFeed(s, feed, maxQueue, true), AddFeed(s1, feed, maxQueue, true);
            SameStream(r.0, r1.0, from) && r1.1 == r.1
  {
    hide CountDuplicates, Add, GoodFeed;
    if feed != [] {
      var first := feed[0].sequenceNumber;
      SameDuplicates(s.log, s1.log, from, first, FeedContents(feed));
      var k := CountDuplicates(s.log, first, FeedContents(feed));
      var (q, start) := Enqueue(s.queue, first + k, FeedContents(feed)[k..], first + k < |s.log|, maxQueue);
      assert from <= start;
      SameAdd(s.(queue := q), s1.(queue := q), from, start, false, [], true);
    }
  }

  // ----- Batches and delayed messages -----

  lemma SameDropped(n: Node, n1: Node, floor: BatchMeta, count: nat, index: map<nat, nat>, execOk: bool)
    requires Agree(n, n1, floor) && count <= |n.metas|
    ensures BothAgree(DropBatches(n, count, index, execOk), DropBatches(n1, count, index, execOk), floor)
  {
  }

  lemma SameSetDelayed(n: Node, n1: Node, floor: BatchMeta, delayed: seq<Entry>, delayed1: seq<Entry>, canReorg: bool,
                       execOk: bool)
    requires Agree(n, n1, floor) && SameFrom(delayed, delayed1, floor.delayedCount)
    ensures BothAgree(SetDelayed(n, delayed, canReorg, execOk), SetDelayed(n1, delayed1, canReorg, execOk), floor)
  {
    hide DropBatches, KeysUpTo, SameStream;
    if exists d :: d in n.index && d > |delayed| {
      var count := n.index[NextKey(n.index, |delayed|)];
      if count <= |n.metas| {
        var index := KeysUpTo(n.index, |delayed|);
        SameDropped(n.(delayed := delayed), n1.(delayed := delayed1), floor, count, index, execOk);
      }
    }
  }

  lemma SameAddDelayed(n: Node, n1: Node, floor: BatchMeta, msgs: seq<DelayedMessage>, hardReorg: bool, execOk: bool)
    requires Agree(n, n1, floor)
    requires msgs != [] && msgs[0].message.header.requestId.Some? ==>
      floor.delayedCount <= msgs[0].message.header.requestId.value
    ensures BothAgree(AddDelayed(n, msgs, hardReorg, execOk), AddDelayed(n1, msgs, hardReorg, execOk), floor)
  {
    hide SetDelayed, Continues, SameStream;
    if msgs != [] && msgs[0].message.header.requestId.Some? {
      var pos := msgs[0].message.header.requestId.value;
      assert AlreadyStored(n.delayed, pos, msgs) == AlreadyStored(n1.delayed, pos, msgs);
      if pos <= |n.delayed| {
        assert PrevAcc(n.delayed, pos) == PrevAcc(n1.delayed, pos);
        SameSetDelayed(n, n1, floor, n.delayed[..pos] + Entries(msgs), n1.delayed[..pos] + Entries(msgs), true, execOk);
      }
    }
  }

  lemma SameReorgDelayed(n: Node, n1: Node, floor: BatchMeta, count: nat, canReorg: bool, execOk: bool)
    requires Agree(n, n1, floor)
    ensures BothAgree(ReorgDelayedTo(n, count, canReorg, execOk), ReorgDelayedTo(n1, count, canReorg, execOk), floor)
  {
    hide SetDelayed, SameStream;
    if count < |n.delayed| {
      SameSetDelayed(n, n1, floor, n.delayed[..count], n1.delayed[..count], canReorg, execOk);
    }
  }

  /** Whether batches are taken depends only on delayed messages from the count they start at on. */
  lemma {:induction false} SameAcceptable(a: seq<Entry>, b: seq<Entry>, from: u64, dec: Decoder, pos: nat, acc: nat,
                                          batches: seq<Batch>)
    requires SameFrom(a, b, from) && Parses(dec, from, batches)
    ensures Acceptable(a, pos, acc, batches) == Acceptable(b, pos, acc, batches)
    decreases |batches|
  {
    hide SequencerMessages.Parse, SerializeBatch;
    if batches != [] {
      assert SameFrom(a, b, batches[0].afterDelayedCount);
      SameAcceptable(a, b, batches[0].afterDelayedCount, dec, pos + 1, batches[0].afterAcc, batches[1..]);
    }
  }

  lemma SamePart(a: seq<Entry>, b: seq<Entry>, from: u64, dec: Decoder, batch: Batch)
    requires SameFrom(a, b, from) && Parse(dec, SerializeBatch(batch)).Ok?
    requires from <= batch.afterDelayedCount <= |a|
    ensures var sm := Parse(dec, SerializeBatch(batch)).value;
            && sm.afterDelayed == batch.afterDelayedCount
            && Readable(WorldOf(dec, a, []), from, sm.afterDelayed)
            && Readable(WorldOf(dec, b, []), from, sm.afterDelayed)
            && Decode(WorldOf(dec, a, []), sm, sm.segments, 0, 0, from) ==
               Decode(WorldOf(dec, b, []), sm, sm.segments, 0, 0, from)
  {
    ParsedDelayedCount(dec, batch);
    hide SequencerMessages.Parse, SerializeBatch, Decode;
    var sm := Parse(dec, SerializeBatch(batch)).value;
    DecodeIsLocal(WorldOf(dec, a, []), WorldOf(dec, b, []), sm, sm.segments, 0, 0, from);
  }

  lemma {:induction false} SameMessages(a: seq<Entry>, b: seq<Entry>, from: u64, dec: Decoder, batches: seq<Batch>)
    requires SameFrom(a, b, from) && Parses(dec, from, batches)
    requires forall batch <- batches :: batch.afterDelayedCount <= |a|
    ensures MessagesOf(dec, a, from, batches) == MessagesOf(dec, b, from, batches)
    decreases |batches|
  {
    hide SequencerMessages.Parse, SerializeBatch, Decode, WorldOf;
    if batches != [] {
      SamePart(a, b, from, dec, batches[0]);
      assert SameFrom(a, b, batches[0].afterDelayedCount);
      SameMessages(a, b, batches[0].afterDelayedCount, dec, batches[1..]);
    }
  }

  lemma SameAddBatches(n: Node, n1: Node, floor: BatchMeta, dec: Decoder, batches: seq<Batch>, execOk: bool)
    requires Agree(n, n1, floor)
    requires batches != [] && batches[0].sequenceNumber <= |n.metas| ==>
      var prev := PrevMeta(n.metas, batches[0].sequenceNumber);
      floor.messageCount <= prev.messageCount && floor.delayedCount <= prev.delayedCount
    ensures BothAgree(AddBatches(n, dec, batches, execOk), AddBatches(n1, dec, batches, execOk), floor)
  {
    hide Parses, Acceptable, MessagesOf, AddConfirmed, Flatten, NewMetas, NewIndex, KeysUpTo;
    if batches != [] && batches[0].sequenceNumber <= |n.metas| {
      var pos := batches[0].sequenceNumber;
      var prev := PrevMeta(n.metas, pos);
      if Parses(dec, prev.delayedCount, batches) {
        SameAcceptable(n.delayed, n1.delayed, prev.delayedCount, dec, pos, prev.acc, batches);
        if Acceptable(n.delayed, pos, prev.acc, batches) {
          AcceptableIsBounded(n.delayed, pos, prev.acc, batches);
          SameMessages(n.delayed, n1.delayed, prev.delayedCount, dec, batches);
          var msgs := Flatten(MessagesOf(dec, n.delayed, prev.delayedCount, batches));
          SameConfirmed(n.stream, n1.stream, floor.messageCount, prev.messageCount, msgs, execOk);
        }
      }
    }
  }

  // ----- Every operation -----

  ghost predicate Fails(n: Node, act: Op) {
    match act
    case OpAddDelayed(msgs, hardReorg, ok) => AddDelayed(n, msgs, hardReorg, ok).None?
    case OpReorgDelayed(count, canReorg, ok) => ReorgDelayedTo(n, count, canReorg, ok).None?
    case OpAddBatches(dec, batches, ok) => AddBatches(n, dec, batches, ok).None?
    case OpReorgBatches(count, ok) => ReorgBatchesTo(n, count, ok).None?
    case OpFeed(feed, maxQueue) => AddFeed(n.stream, feed, maxQueue, true).1.Some?
    case OpUnconfirmed(pos, msgs) => Add(n.stream, pos, false, msgs, true).Err?
    case OpSequence(_) => false
  }

  /** Whatever an operation adds, it adds at or after the batches pruned; so do the feed messages that wait. */
  predicate AddsAfter(n: Node, trimmed: nat, act: Op)
    requires trimmed <= |n.metas|
  {
    var floor := PrevMeta(n.metas, trimmed);
    match act
    case OpAddDelayed(msgs, _, _) =>
      msgs != [] && msgs[0].message.header.requestId.Some? ==>
        floor.delayedCount <= msgs[0].message.header.requestId.value
    case OpAddBatches(_, batches, _) => batches != [] ==> trimmed <= batches[0].sequenceNumber
    case OpFeed(feed, _) =>
      && (feed != [] ==> floor.messageCount <= feed[0].sequenceNumber)
      && (n.stream.queue.msgs != [] ==> floor.messageCount <= n.stream.queue.pos)
    case OpUnconfirmed(pos, _) => floor.messageCount <= pos
    case _ => true
  }

  lemma SameApply(n: Node, n1: Node, trimmed: nat, act: Op)
    requires TrackerProperties.Inv(n) && trimmed <= |n.metas| && AddsAfter(n, trimmed, act)
    requires Agree(n, n1, PrevMeta(n.metas, trimmed))
    ensures Fails(n1, act) <==> Fails(n, act)
    ensures Agree(TrackerProperties.Apply(n, act), TrackerProperties.Apply(n1, act), PrevMeta(n.metas, trimmed))
  {
    Pruner.InvOrdered(n);
    hide AddDelayed, ReorgDelayedTo, AddBatches, AddFeed, Add, DropBatches, TrackerProperties.Inv;
    var floor := PrevMeta(n.metas, trimmed);
    match act
    case OpAddDelayed(msgs, hardReorg, ok) => SameAddDelayed(n, n1, floor, msgs, hardReorg, ok);
    case OpReorgDelayed(count, canReorg, ok) => SameReorgDelayed(n, n1, floor, count, canReorg, ok);
    case OpAddBatches(dec, batches, ok) =>
      if batches != [] && batches[0].sequenceNumber <= |n.metas| {
        Pruner.CountsGrow(n.metas, trimmed, batches[0].sequenceNumber);
      }
      SameAddBatches(n, n1, floor, dec, batches, ok);
    case OpReorgBatches(count, ok) =>
      if count <= |n.metas| {
        SameDropped(n, n1, floor, count, KeysUpTo(n.index, PrevMeta(n.metas, count).delayedCount), ok);
      }
    case OpFeed(feed, maxQueue) => SameFeed(n.stream, n1.stream, floor.messageCount, feed, maxQueue);
    case OpUnconfirmed(pos, msgs) => SameAdd(n.stream, n1.stream, floor.messageCount, pos, false, msgs, true);
    case OpSequence(msg) =>
  }

  /** A log as long as another, with the entries of a table wherever it has one. */
  predicate Filled<V(==)>(db: map<nat, V>, log: seq<V>, filled: seq<V>) {
    |filled| == |log| && forall i :: 0 <= i < |filled| && i in db ==> filled[i] == db[i]
  }

  /** A node with what the tables have, and anything at all in the place of what was pruned. */
  predicate Backed(p: Pruner.Pruned, n: Node) {
    && n.metas == p.node.metas && n.index == p.node.index && n.stream.queue == p.node.stream.queue
    && Filled(p.messages.db, p.node.stream.log, n.stream.log)
    && Filled(p.delayed.db, p.node.delayed, n.delayed)
  }

  lemma FilledIsSame<V>(db: map<nat, V>, log: seq<V>, filled: seq<V>, from: nat)
    requires Pruner.HasFrom(db, log, from) && Filled(db, log, filled)
    ensures SameFrom(log, filled, from)
  {
    forall i | 0 <= i < |log| && from <= i + 1 ensures log[i] == filled[i] {
      assert Pruner.Has(db, log, i);
    }
  }

  /**
   * After any run of prunes, adds and reorganizations, an operation that adds at or after the batches pruned fails or
   * succeeds just as it would with nothing pruned, and has the same result from there on.
   */
  lemma PrunedIsNotRead(p: Pruner.Pruned, ops: seq<Pruner.Op>, backed: Node, act: Op)
    requires Pruner.Safe(p) && Pruner.KeepsConfirmed(p, ops)
    requires var q := Pruner.Run(p, ops); Backed(q, backed) && AddsAfter(q.node, q.trimmed, act)
    ensures var q := Pruner.Run(p, ops);
            && (Fails(backed, act) <==> Fails(q.node, act))
            && Agree(TrackerProperties.Apply(q.node, act), TrackerProperties.Apply(backed, act), Pruner.Floor(q))
  {
    var q := Pruner.Run(p, ops);
    assert Pruner.Safe(q);
    hide Pruner.Run, Pruner.KeepsConfirmed, Pruner.HasFrom, Filled, SameFrom, Fails, TrackerProperties.Apply,
         TrackerProperties.Inv, AddsAfter;
    FilledIsSame(q.messages.db, q.node.stream.log, backed.stream.log, Pruner.Floor(q).messageCount);
    FilledIsSame(q.delayed.db, q.node.delayed, backed.delayed, Pruner.Floor(q).delayedCount);
    SameApply(q.node, backed, q.trimmed, act);
  }
}

/** Pruning of confirmed messages from the database, and that what later batches and reorgs need is never pruned. */
module Pruner {
  import opened Types
  import opened SequencerMessages
  import opened Streamer
  import opened StreamerProperties
  import opened Tracker
  import opened TrackerProperties

  /** A table of the database by position, and how far it is known to have been pruned. */
  datatype Table<V> = Table(db: map<nat, V>, cached: nat)

  predicate IsFirstKey<V>(db: map<nat, V>, k: nat) {
    k in db && k >= 1 && forall j :: j in db && 1 <= j ==> k <= j
  }

  ghost predicate HasKeys<V>(db: map<nat, V>) {
    exists k :: k in db && k >= 1
  }

  function Without<V>(db: map<nat, V>, from: nat, to: nat): map<nat, V> {
    map k | k in db && !(from <= k < to) :: db[k]
  }

  lemma {:induction false} FirstKeyExists<V>(db: map<nat, V>, k: nat)
    requires k in db && k >= 1
    ensures exists first :: IsFirstKey(db, first)
    decreases k
  {
    if !IsFirstKey(db, k) {
      var j :| j in db && 1 <= j && j < k;
      FirstKeyExists(db, j);
    }
  }

  ghost function FirstKeyOf<V>(db: map<nat, V>): (first: nat)
    requires HasKeys(db)
    ensures IsFirstKey(db, first)
  {
    assert exists first :: IsFirstKey(db, first) by {
      var k :| k in db && k >= 1;
      FirstKeyExists(db, k);
    }
    var first :| IsFirstKey(db, first);
    first
  }

  /** Where pruning starts. */
  ghost function StartKey<V>(t: Table<V>): nat
    requires t.cached == 0 ==> HasKeys(t.db)
    ensures StartKey(t) >= 1
  {
    if t.cached > 0 then t.cached else FirstKeyOf(t.db)
  }

  /** Everything up to an end goes, but for the first entry of all and the last one before the end. */
  ghost function PruneTo<V>(t: Table<V>, end: nat): Table<V> {
    if t.cached == 0 && !HasKeys(t.db) then t
    else if end <= StartKey(t) then Table(t.db, StartKey(t))
    else Table(Without(t.db, StartKey(t), end - 1), end - 1)
  }

  /** Pruning removes nothing else. */
  lemma PruneKeeps<V>(t: Table<V>, end: nat, k: nat)
    requires k in t.db && (k == 0 || k + 1 >= end)
    ensures k in PruneTo(t, end).db && PruneTo(t, end).db[k] == t.db[k]
  {
  }

  /** No entry is left between the first of all and what has been pruned. */
  predicate PrunedUpTo<V>(t: Table<V>) {
    forall k :: k in t.db ==> k == 0 || k >= t.cached
  }

  lemma PruneRemoves<V>(t: Table<V>, end: nat)
    requires PrunedUpTo(t)
    ensures PrunedUpTo(PruneTo(t, end))
    ensures forall k :: k in PruneTo(t, end).db ==> k == 0 || k + 1 >= end
    ensures forall k :: k in PruneTo(t, end).db ==> k in t.db && PruneTo(t, end).db[k] == t.db[k]
  {
  }

  class PrunedTable<V> {
    var db: map<nat, V>
    var cachedPruned: nat

    ghost function Contents(): Table<V>
      reads this
    {
      Table(db, cachedPruned)
    }

    /** The smallest key from one on, as an iterator over the table finds it. */
    method FirstKey() returns (first: Option<nat>)
      ensures first.None? <==> !HasKeys(db)
      ensures first.Some? ==> IsFirstKey(db, first.value)
    {
      first := None;
      var rest := db.Keys;
      while rest != {}
        invariant rest <= db.Keys
        invariant first.None? ==> forall k :: k in db && k !in rest ==> k < 1
        invariant first.Some? ==> first.value in db && first.value >= 1
        invariant first.Some? ==> forall k :: k in db && k !in rest && k >= 1 ==> first.value <= k
        decreases rest
      {
        var k :| k in rest;
        rest := rest - {k};
        if k >= 1 && (first.None? || k < first.value) {
          first := Some(k);
        }
      }
    }

    method DeleteFromRange(start: nat, end: nat)
      modifies this`db
      ensures db == Without(old(db), start, end)
    {
      var key := start;
      while key < end
        invariant start <= key && (key <= end || key == start)
        invariant db == Without(old(db), start, key)
      {
        db := db - {key};
        key := key + 1;
      }
    }

    method DeleteFromLastPrunedUptoEndKey(end: nat)
      modifies this
      ensures Contents() == PruneTo(old(Contents()), end)
    {
      var start := cachedPruned;
      if start == 0 {
        var first := FirstKey();
        if first.None? {
          return;
        }
        start := first.value;
      }
      assert start == StartKey(Contents());
      if end <= start {
        cachedPruned := start;
        return;
      }
      DeleteFromRange(start, end - 1);
      cachedPruned := end - 1;
    }
  }

  // ----- Runs -----

  /** How many batches to prune: what is confirmed, but never the last few. */
  function TrimCount(batchCount: nat, confirmed: nat, minBatchesLeft: nat): nat {
    if batchCount < confirmed + minBatchesLeft then
      if batchCount < minBatchesLeft then 0 else batchCount - minBatchesLeft
    else confirmed
  }

  class MessagePruner {
    const messages: PrunedTable<MessageWithMeta>
    const delayed: PrunedTable<Entry>

    constructor (messages: PrunedTable<MessageWithMeta>, delayed: PrunedTable<Entry>)
      ensures this.messages == messages && this.delayed == delayed
    {
      this.messages, this.delayed := messages, delayed;
    }

    method Prune(metas: seq<BatchMeta>, confirmed: nat, minBatchesLeft: nat)
      modifies messages, delayed
      ensures var trim := TrimCount(|metas|, confirmed, minBatchesLeft);
              && messages.Contents() == (if trim < 1 then old(messages.Contents())
                                         else PruneTo(old(messages.Contents()), PrevMeta(metas, trim).messageCount))
              && delayed.Contents() == (if trim < 1 then old(delayed.Contents())
                                        else PruneTo(old(delayed.Contents()), PrevMeta(metas, trim).delayedCount))
    {
      hide PruneTo;
      var trimBatchCount := confirmed;
      if |metas| < trimBatchCount + minBatchesLeft {
        if |metas| < minBatchesLeft {
          return;
        }
        trimBatchCount := |metas| - minBatchesLeft;
      }
      if trimBatchCount < 1 {
        return;
      }
      var end := metas[trimBatchCount - 1];
      messages.DeleteFromLastPrunedUptoEndKey(end.messageCount);
      delayed.DeleteFromLastPrunedUptoEndKey(end.delayedCount);
    }
  }

  /** A node, what its database still has of the log and of the delayed messages, and how much was ever pruned. */
  datatype Pruned = Pruned(node: Node, messages: Table<MessageWithMeta>, delayed: Table<Entry>, trimmed: nat)

  /** A table after its entries from some position on are made those of a log. */
  function Overwrite<V>(db: map<nat, V>, log: seq<V>, from: nat): map<nat, V> {
    (map k | k in db && k < from :: db[k]) + (map k: nat | from <= k < |log| :: log[k])
  }

  /** The last batch pruned. */
  function Floor(p: Pruned): BatchMeta
    requires p.trimmed <= |p.node.metas|
  {
    PrevMeta(p.node.metas, p.trimmed)
  }

  /** Batches are pruned, or the node does something. */
  datatype Op = Prune(confirmed: nat, minBatchesLeft: nat) | Act(op: TrackerProperties.Op)

  /** What the node does is written to the tables from the batches pruned on. */
  ghost function Apply(p: Pruned, op: Op): Pruned
    requires p.trimmed <= |p.node.metas|
  {
    match op
    case Prune(confirmed, minBatchesLeft) =>
      var trim := TrimCount(|p.node.metas|, confirmed, minBatchesLeft);
      if trim < 1 then p
      else
        var meta := PrevMeta(p.node.metas, trim);
        p.(messages := PruneTo(p.messages, meta.messageCount), delayed := PruneTo(p.delayed, meta.delayedCount),
           trimmed := Max(p.trimmed, trim))
    case Act(act) =>
      var node := TrackerProperties.Apply(p.node, act);
      p.(node := node,
         messages := p.messages.(db := Overwrite(p.messages.db, node.stream.log, Floor(p).messageCount)),
         delayed := p.delayed.(db := Overwrite(p.delayed.db, node.delayed, Floor(p).delayedCount)))
  }

  /** Confirmed batches and what they have read stay: an operation starts at or after the batches pruned. */
  ghost predicate AfterTrimmed(p: Pruned, op: Op)
    requires p.trimmed <= |p.node.metas|
  {
    match op
    case Prune(_, _) => true
    case Act(OpAddDelayed(msgs, hardReorg, _)) =>
      msgs != [] && msgs[0].message.header.requestId.Some? ==>
        var pos := msgs[0].message.header.requestId.value;
        Floor(p).delayedCount <= pos || (!hardReorg && AlreadyStored(p.node.delayed, pos, msgs))
    case Act(OpReorgDelayed(count, _, _)) => Floor(p).delayedCount <= count
    case Act(OpAddBatches(_, batches, _)) => batches != [] ==> p.trimmed <= batches[0].sequenceNumber
    case Act(OpReorgBatches(count, _)) => p.trimmed <= count
    case Act(_) => true
  }

  // ----- Operations after the batches pruned leave what comes before -----

  /** The same batches, messages and delayed messages before some batch. */
  ghost predicate SameBefore(n: Node, n1: Node, batch: nat)
    requires batch <= |n.metas|
  {
    var meta := PrevMeta(n.metas, batch);
    && batch <= |n1.metas| && n1.metas[..batch] == n.metas[..batch]
    && meta.messageCount <= |n.stream.log| && meta.messageCount <= |n1.stream.log|
    && n1.stream.log[..meta.messageCount] == n.stream.log[..meta.messageCount]
    && meta.delayedCount <= |n.delayed| && meta.delayedCount <= |n1.delayed|
    && n1.delayed[..meta.delayedCount] == n.delayed[..meta.delayedCount]
  }

  lemma BatchIsInside(n: Node, batch: nat)
    requires TrackerProperties.Inv(n) && batch <= |n.metas|
    ensures PrevMeta(n.metas, batch).messageCount <= |n.stream.log|
    ensures PrevMeta(n.metas, batch).delayedCount <= |n.delayed|
  {
  }

  lemma LongerSameBefore(n: Node, stream: Stream, batch: nat)
    requires TrackerProperties.Inv(n) && batch <= |n.metas| && n.stream.log <= stream.log
    ensures SameBefore(n, n.(stream := stream), batch)
  {
    BatchIsInside(n, batch);
    hide TrackerProperties.Inv;
  }

  lemma DroppedSameBefore(n: Node, count: nat, execOk: bool, batch: nat)
    requires TrackerProperties.Inv(n) && batch <= count && ReorgBatchesTo(n, count, execOk).Some?
    ensures SameBefore(n, ReorgBatchesTo(n, count, execOk).value, batch)
  {
    hide TrackerProperties.Inv, Ordered;
    BatchIsInside(n, batch);
    InvOrdered(n);
    CountsGrow(n.metas, batch, count);
  }

  lemma BatchIsKept(metas: seq<BatchMeta>, batch: nat, delayedCount: nat, kept: nat)
    requires Ordered(metas) && batch <= |metas| && kept <= |metas|
    requires PrevMeta(metas, batch).delayedCount <= delayedCount
    requires kept < |metas| ==> metas[kept].delayedCount > delayedCount
    ensures batch <= kept
    ensures PrevMeta(metas, batch).messageCount <= PrevMeta(metas, kept).messageCount
  {
  }

  lemma InvOrdered(n: Node)
    requires TrackerProperties.Inv(n)
    ensures Ordered(n.metas)
  {
  }

  lemma DelayedSameBefore(n: Node, delayed: seq<Entry>, canReorg: bool, execOk: bool, batch: nat)
    requires TrackerProperties.Inv(n) && batch <= |n.metas| && SetDelayed(n, delayed, canReorg, execOk).Some?
    requires var count := PrevMeta(n.metas, batch).delayedCount;
             count <= |n.delayed| && count <= |delayed| && delayed[..count] == n.delayed[..count]
    ensures SameBefore(n, SetDelayed(n, delayed, canReorg, execOk).value, batch)
  {
    hide SetDelayed, TrackerProperties.Inv, Ordered, Indexed, LogAgrees;
    InvOrdered(n);
    BatchIsInside(n, batch);
    DelayedReorgIsExact(n, delayed, canReorg, execOk);
    var n1 := SetDelayed(n, delayed, canReorg, execOk).value;
    var kept := |n1.metas|;
    BatchIsKept(n.metas, batch, |delayed|, kept);
    assert n1.metas[..batch] == n.metas[..batch];
    if kept < |n.metas| {
      BatchIsInside(n, kept);
    }
  }

  lemma AddedSameBefore(n: Node, dec: Decoder, batches: seq<Batch>, execOk: bool, batch: nat)
    requires TrackerProperties.Inv(n) && batch <= |n.metas| && AddBatches(n, dec, batches, execOk).Some?
    requires batches != [] ==> batch <= batches[0].sequenceNumber
    ensures SameBefore(n, AddBatches(n, dec, batches, execOk).value, batch)
  {
    hide TrackerProperties.Inv, MessagesOf, Flatten, AddConfirmed, Ordered, NewMetas, NewIndex, Parses, Acceptable;
    BatchIsInside(n, batch);
    if batches != [] {
      var pos := batches[0].sequenceNumber;
      var prev := PrevMeta(n.metas, pos);
      AcceptableIsBounded(n.delayed, pos, prev.acc, batches);
      var msgs := Flatten(MessagesOf(dec, n.delayed, prev.delayedCount, batches));
      BatchIsInside(n, pos);
      InvOrdered(n);
      CountsGrow(n.metas, batch, pos);
      ConfirmedLog(n.stream, prev.messageCount, msgs, execOk);
      var log := AddConfirmed(n.stream, prev.messageCount, msgs, execOk).value.log;
      SamePrefix(log, n.stream.log, PrevMeta(n.metas, batch).messageCount, prev.messageCount);
    }
  }

  lemma SamePrefix<V>(a: seq<V>, b: seq<V>, i: nat, j: nat)
    requires i <= j <= |a| && j <= |b| && a[..j] == b[..j]
    ensures a[..i] == b[..i]
  {
    assert a[..i] == a[..j][..i] && b[..i] == b[..j][..i];
  }

  lemma ActSameBefore(p: Pruned, act: TrackerProperties.Op)
    requires TrackerProperties.Inv(p.node) && p.trimmed <= |p.node.metas| && AfterTrimmed(p, Act(act))
    ensures SameBefore(p.node, TrackerProperties.Apply(p.node, act), p.trimmed)
  {
    var n, batch := p.node, p.trimmed;
    LongerSameBefore(n, n.stream, batch);
    assert n.(stream := n.stream) == n;
    hide ReorgBatchesTo, SetDelayed, AddBatches, AddFeed, Add, SameBefore, TrackerProperties.Inv;
    match act
    case OpAddDelayed(msgs, hardReorg, ok) => if AddDelayed(n, msgs, hardReorg, ok).Some? {
      AddDelayedSameBefore(n, msgs, hardReorg, ok, p);
    }
    case OpReorgDelayed(count, canReorg, ok) => if ReorgDelayedTo(n, count, canReorg, ok).Some? {
      ReorgDelayedSameBefore(n, count, canReorg, ok, p);
    }
    case OpAddBatches(dec, batches, ok) => if AddBatches(n, dec, batches, ok).Some? {
      AddedSameBefore(n, dec, batches, ok, batch);
    }
    case OpReorgBatches(count, ok) => if ReorgBatchesTo(n, count, ok).Some? {
      DroppedSameBefore(n, count, ok, batch);
    }
    case OpFeed(feed, maxQueue) =>
      FeedOnlyAppends(n.stream, feed, maxQueue, true);
      LongerSameBefore(n, AddFeed(n.stream, feed, maxQueue, true).0, batch);
    case OpUnconfirmed(pos, msgs) => if Add(n.stream, pos, false, msgs, true).Ok? {
      UnconfirmedOnlyAppends(n.stream, pos, msgs, true);
      LongerSameBefore(n, Add(n.stream, pos, false, msgs, true).value, batch);
    }
    case OpSequence(msg) => LongerSameBefore(n, n.stream.(log := n.stream.log + [msg]), batch);
  }

  lemma AddDelayedSameBefore(n: Node, msgs: seq<DelayedMessage>, hardReorg: bool, execOk: bool, p: Pruned)
    requires TrackerProperties.Inv(n) && n == p.node && p.trimmed <= |n.metas|
    requires AfterTrimmed(p, Act(OpAddDelayed(msgs, hardReorg, execOk)))
    requires AddDelayed(n, msgs, hardReorg, execOk).Some?
    ensures SameBefore(n, AddDelayed(n, msgs, hardReorg, execOk).value, p.trimmed)
  {
    LongerSameBefore(n, n.stream, p.trimmed);
    assert n.(stream := n.stream) == n;
    BatchIsInside(n, p.trimmed);
    hide SetDelayed, SameBefore, TrackerProperties.Inv;
    if msgs != [] {
      var pos := msgs[0].message.header.requestId.value;
      if hardReorg || !AlreadyStored(n.delayed, pos, msgs) {
        var delayed := n.delayed[..pos] + Entries(msgs);
        var count := Floor(p).delayedCount;
        assert delayed[..count] == n.delayed[..count];
        DelayedSameBefore(n, delayed, true, execOk, p.trimmed);
      }
    }
  }

  lemma ReorgDelayedSameBefore(n: Node, count: nat, canReorg: bool, execOk: bool, p: Pruned)
    requires TrackerProperties.Inv(n) && n == p.node && p.trimmed <= |n.metas|
    requires AfterTrimmed(p, Act(OpReorgDelayed(count, canReorg, execOk)))
    requires ReorgDelayedTo(n, count, canReorg, execOk).Some?
    ensures SameBefore(n, ReorgDelayedTo(n, count, canReorg, execOk).value, p.trimmed)
  {
    LongerSameBefore(n, n.stream, p.trimmed);
    assert n.(stream := n.stream) == n;
    BatchIsInside(n, p.trimmed);
    hide SetDelayed, SameBefore, TrackerProperties.Inv;
    if count < |n.delayed| {
      var floor := Floor(p).delayedCount;
      assert n.delayed[..count][..floor] == n.delayed[..floor];
      DelayedSameBefore(n, n.delayed[..count], canReorg, execOk, p.trimmed);
    }
  }

  // ----- What is there after any run -----

  /** The table has the log's entry at a position. */
  ghost predicate Has<V>(db: map<nat, V>, log: seq<V>, i: nat) {
    i < |log| && i in db && db[i] == log[i]
  }

  /** The first entry, and all from one before some position on, are there. */
  ghost predicate HasFrom<V>(db: map<nat, V>, log: seq<V>, from: nat) {
    forall i: nat :: i < |log| && (i == 0 || i + 1 >= from) ==> Has(db, log, i)
  }

  ghost predicate Safe(p: Pruned) {
    && TrackerProperties.Inv(p.node)
    && p.trimmed <= |p.node.metas|
    && HasFrom(p.messages.db, p.node.stream.log, PrevMeta(p.node.metas, p.trimmed).messageCount)
    && HasFrom(p.delayed.db, p.node.delayed, PrevMeta(p.node.metas, p.trimmed).delayedCount)
  }

  lemma PruneHas<V>(t: Table<V>, log: seq<V>, from: nat, end: nat)
    requires HasFrom(t.db, log, from)
    ensures HasFrom(PruneTo(t, end).db, log, Max(from, end))
  {
    forall i: nat | i < |log| && (i == 0 || i + 1 >= Max(from, end)) ensures Has(PruneTo(t, end).db, log, i) {
      assert Has(t.db, log, i);
      PruneKeeps(t, end, i);
    }
  }

  lemma OverwriteHas<V>(db: map<nat, V>, log: seq<V>, changed: seq<V>, floor: nat, from: nat)
    requires HasFrom(db, log, floor) && floor <= from <= |log| && from <= |changed| && changed[..from] == log[..from]
    ensures HasFrom(Overwrite(db, changed, from), changed, floor)
  {
    forall i: nat | i < |changed| && (i == 0 || i + 1 >= floor) ensures Has(Overwrite(db, changed, from), changed, i) {
      if i < from {
        assert Has(db, log, i);
        assert changed[..from][i] == log[..from][i];
      }
    }
  }

  lemma CountsGrow(metas: seq<BatchMeta>, a: nat, b: nat)
    requires Ordered(metas) && a <= b <= |metas|
    ensures PrevMeta(metas, a).messageCount <= PrevMeta(metas, b).messageCount
    ensures PrevMeta(metas, a).delayedCount <= PrevMeta(metas, b).delayedCount
  {
  }

  lemma PruneKeepsSafe(p: Pruned, confirmed: nat, minBatchesLeft: nat)
    requires Safe(p)
    ensures Safe(Apply(p, Prune(confirmed, minBatchesLeft)))
  {
    var metas := p.node.metas;
    var trim := TrimCount(|metas|, confirmed, minBatchesLeft);
    if trim >= 1 {
      var last, next := PrevMeta(metas, p.trimmed), PrevMeta(metas, trim);
      CountsGrow(metas, Min(p.trimmed, trim), Max(p.trimmed, trim));
      PruneHas(p.messages, p.node.stream.log, last.messageCount, next.messageCount);
      PruneHas(p.delayed, p.node.delayed, last.delayedCount, next.delayedCount);
    }
    hide PruneTo, HasFrom;
  }

  lemma ActKeepsSafe(p: Pruned, act: TrackerProperties.Op)
    requires Safe(p) && AfterTrimmed(p, Act(act))
    ensures Safe(Apply(p, Act(act)))
  {
    ApplyKeepsInv(p.node, act);
    ActSameBefore(p, act);
    var node, floor := TrackerProperties.Apply(p.node, act), Floor(p);
    hide TrackerProperties.Apply, TrackerProperties.Inv, HasFrom, AfterTrimmed;
    assert PrevMeta(node.metas, p.trimmed) == floor by {
      assert p.trimmed > 0 ==> node.metas[..p.trimmed][p.trimmed - 1] == p.node.metas[..p.trimmed][p.trimmed - 1];
    }
    OverwriteHas(p.messages.db, p.node.stream.log, node.stream.log, floor.messageCount, floor.messageCount);
    OverwriteHas(p.delayed.db, p.node.delayed, node.delayed, floor.delayedCount, floor.delayedCount);
  }

  lemma OpKeeps(p: Pruned, op: Op)
    requires Safe(p) && AfterTrimmed(p, op)
    ensures Safe(Apply(p, op))
  {
    hide Apply, AfterTrimmed, Safe;
    match op
    case Prune(confirmed, minBatchesLeft) => PruneKeepsSafe(p, confirmed, minBatchesLeft);
    case Act(act) => ActKeepsSafe(p, act);
  }

  /** All the operations of a run start at or after the batches that are pruned by then. */
  ghost predicate KeepsConfirmed(p: Pruned, ops: seq<Op>)
    requires Safe(p)
    decreases |ops|
  {
    ops != [] ==>
      && AfterTrimmed(p, ops[0])
      && (OpKeeps(p, ops[0]); KeepsConfirmed(Apply(p, ops[0]), ops[1..]))
  }

  ghost function Run(p: Pruned, ops: seq<Op>): (q: Pruned)
    requires Safe(p) && KeepsConfirmed(p, ops)
    ensures Safe(q)
    decreases |ops|
  {
    if ops == [] then p
    else
      OpKeeps(p, ops[0]);
      Run(Apply(p, ops[0]), ops[1..])
  }

  /**
   * After any run of prunes, adds and reorganizations, whatever batch is added or reorganized to that is not among
   * those pruned finds the message and the delayed message before it, and all after it.
   */
  lemma NeededIsThere(p: Pruned, ops: seq<Op>, batch: nat)
    requires Safe(p) && KeepsConfirmed(p, ops)
    requires Run(p, ops).trimmed <= batch <= |Run(p, ops).node.metas|
    ensures var q := Run(p, ops);
            var meta := PrevMeta(q.node.metas, batch);
            && HasFrom(q.messages.db, q.node.stream.log, meta.messageCount)
            && HasFrom(q.delayed.db, q.node.delayed, meta.delayedCount)
            && (meta.messageCount > 0 ==> Has(q.messages.db, q.node.stream.log, meta.messageCount - 1))
            && (meta.delayedCount > 0 ==> Has(q.delayed.db, q.node.delayed, meta.delayedCount - 1))
  {
    var q := Run(p, ops);
    assert Safe(q);
    CountsGrow(q.node.metas, q.trimmed, batch);
    BatchIsInside(q.node, batch);
    hide Run, TrackerProperties.Inv;
  }

  // ----- How many batches are left -----

  /** Nothing is pruned, or that many batches are left. */
  predicate Roomy(p: Pruned, left: nat) {
    p.trimmed == 0 || p.trimmed + left <= |p.node.metas|
  }

  /** Once something is pruned, an operation starts at or after the batches left, too: it does not reach into them. */
  ghost predicate LeavesAlone(p: Pruned, op: Op, left: nat) {
    p.trimmed > 0 && p.trimmed + left <= |p.node.metas| ==> AfterTrimmed(p.(trimmed := p.trimmed + left), op)
  }

  /** Every prune of a run leaves that many batches, and no operation reaches into them. */
  ghost predicate LeavesRoom(p: Pruned, ops: seq<Op>, left: nat)
    requires Safe(p) && KeepsConfirmed(p, ops)
    decreases |ops|
  {
    ops != [] ==>
      && (ops[0].Prune? ==> left <= ops[0].minBatchesLeft)
      && LeavesAlone(p, ops[0], left)
      && (OpKeeps(p, ops[0]); LeavesRoom(Apply(p, ops[0]), ops[1..], left))
  }

  lemma ActLeavesRoom(p: Pruned, act: TrackerProperties.Op, left: nat)
    requires Safe(p) && Roomy(p, left) && LeavesAlone(p, Act(act), left)
    ensures Roomy(Apply(p, Act(act)), left)
  {
    if p.trimmed > 0 {
      ActSameBefore(p.(trimmed := p.trimmed + left), act);
    }
  }

  /** For a reorganization of batches that is the only way. */
  lemma ReorgLeavesRoom(p: Pruned, count: nat, execOk: bool, left: nat)
    requires Safe(p) && p.trimmed > 0 && Roomy(p, left) && p.trimmed <= count
    requires ReorgBatchesTo(p.node, count, execOk).Some?
    ensures Roomy(Apply(p, Act(OpReorgBatches(count, execOk))), left) <==>
            LeavesAlone(p, Act(OpReorgBatches(count, execOk)), left)
  {
    hide TrackerProperties.Inv, HasFrom;
    assert |ReorgBatchesTo(p.node, count, execOk).value.metas| == count;
  }

  lemma PruneLeavesRoom(p: Pruned, confirmed: nat, minBatchesLeft: nat, left: nat)
    requires p.trimmed <= |p.node.metas| && Roomy(p, left) && left <= minBatchesLeft
    ensures Roomy(Apply(p, Prune(confirmed, minBatchesLeft)), left)
    ensures Apply(p, Prune(confirmed, minBatchesLeft)).trimmed <= Max(p.trimmed, confirmed)
  {
  }

  lemma RoomyHas(p: Pruned, left: nat)
    requires Safe(p) && Roomy(p, left) && left <= |p.node.metas|
    ensures var meta := PrevMeta(p.node.metas, |p.node.metas| - left);
            HasFrom(p.messages.db, p.node.stream.log, meta.messageCount) &&
                HasFrom(p.delayed.db, p.node.delayed, meta.delayedCount)
  {
    CountsGrow(p.node.metas, p.trimmed, |p.node.metas| - left);
  }

  /** After such a run that many batches are left, and all their messages and delayed messages are in the tables. */
  lemma {:induction false} EnoughBatchesLeft(p: Pruned, ops: seq<Op>, left: nat)
    requires Safe(p) && KeepsConfirmed(p, ops) && Roomy(p, left) && LeavesRoom(p, ops, left)
    ensures var q := Run(p, ops);
            && Roomy(q, left)
            && (left <= |q.node.metas| ==>
                 var meta := PrevMeta(q.node.metas, |q.node.metas| - left);
                 && HasFrom(q.messages.db, q.node.stream.log, meta.messageCount)
                 && HasFrom(q.delayed.db, q.node.delayed, meta.delayedCount))
    decreases |ops|
  {
    hide Apply, AfterTrimmed, Safe, HasFrom, Roomy, LeavesAlone;
    if ops == [] {
      if left <= |p.node.metas| {
        RoomyHas(p, left);
      }
    } else {
      SafeIsInside(p);
      OpKeeps(p, ops[0]);
      if ops[0].Prune? {
        PruneLeavesRoom(p, ops[0].confirmed, ops[0].minBatchesLeft, left);
      } else {
        ActLeavesRoom(p, ops[0].op, left);
      }
      EnoughBatchesLeft(Apply(p, ops[0]), ops[1..], left);
    }
  }

  lemma SafeIsInside(p: Pruned)
    requires Safe(p)
    ensures p.trimmed <= |p.node.metas|
  {
  }
}

/** What every reachable state of the tracker and the message log satisfies, and what a
    reorganization of the delayed inbox does to batches. */
module TrackerProperties {
  import opened Types
  import opened SequencerMessages
  import opened Multiplexer
  import opened MultiplexerProperties
  import opened Streamer
  import opened StreamerProperties
  import opened Tracker

  // ---- The invariant

  /** Message counts strictly increase from batch to batch; delayed counts never decrease. */
  ghost predicate Ordered(metas: seq<BatchMeta>) {
    && (forall a :: 0 <= a < |metas| ==> metas[a].messageCount > 0)
    && forall a, b :: 0 <= a < b < |metas| ==>
         metas[a].messageCount < metas[b].messageCount && metas[a].delayedCount <= metas[b].delayedCount
  }

  /** The first batch that reached a delayed count. */
  ghost predicate IsFirst(metas: seq<BatchMeta>, d: nat, b: nat) {
    b < |metas| && metas[b].delayedCount == d && forall a :: 0 <= a < b ==> metas[a].delayedCount != d
  }

  /** The index holds exactly the positive delayed counts reached by some batch. */
  ghost predicate Indexed(index: map<nat, nat>, metas: seq<BatchMeta>) {
    && (forall d :: d in index ==> d > 0 && IsFirst(metas, d, index[d]))
    && forall b :: 0 <= b < |metas| && metas[b].delayedCount > 0 ==> metas[b].delayedCount in index
  }

  /** Every batch ends inside the log, at a message with the batch's delayed count. */
  ghost predicate LogAgrees(metas: seq<BatchMeta>, log: seq<MessageWithMeta>) {
    forall b :: 0 <= b < |metas| ==>
      0 < metas[b].messageCount <= |log| && log[metas[b].messageCount - 1].delayedRead == metas[b].delayedCount
  }

  /** The stored accumulators chain over the stored messages, each at its own sequence number. */
  ghost predicate Chained(delayed: seq<Entry>) {
    forall i :: 0 <= i < |delayed| ==> Linked(delayed, i)
  }

  predicate Linked(delayed: seq<Entry>, i: nat)
    requires i < |delayed|
  {
    && delayed[i].acc == AfterAcc(PrevAcc(delayed, i), delayed[i].message)
    && delayed[i].message.header.requestId == Some(i)
  }

  ghost predicate Inv(n: Node) {
    && Ordered(n.metas)
    && (forall b :: 0 <= b < |n.metas| ==> n.metas[b].delayedCount <= |n.delayed|)
    && Indexed(n.index, n.metas)
    && LogAgrees(n.metas, n.stream.log)
    && Chained(n.delayed)
  }

  // ---- Dropping batches

  lemma KeptIndex(metas: seq<BatchMeta>, index: map<nat, nat>, count: nat, limit: nat)
    requires Ordered(metas) && Indexed(index, metas) && count <= |metas|
    requires forall b :: 0 <= b < |metas| && metas[b].delayedCount <= limit && metas[b].delayedCount > 0 ==>
               index[metas[b].delayedCount] < count
    requires forall b :: 0 <= b < count ==> metas[b].delayedCount <= limit
    ensures Indexed(KeysUpTo(index, limit), metas[..count])
  {
    var kept := KeysUpTo(index, limit);
    forall d | d in kept ensures d > 0 && IsFirst(metas[..count], d, kept[d]) {
      assert metas[index[d]].delayedCount == d;
    }
  }

  lemma DroppedLog(n: Node, count: nat, index: map<nat, nat>, execOk: bool)
    requires Inv(n) && count <= |n.metas| && DropBatches(n, count, index, execOk).Some?
    ensures var n1 := DropBatches(n, count, index, execOk).value;
            && Ordered(n1.metas) && LogAgrees(n1.metas, n1.stream.log)
            && n1.stream.log == n.stream.log[..PrevMeta(n.metas, count).messageCount]
  {
    var end := PrevMeta(n.metas, count).messageCount;
    forall b | 0 <= b < count ensures n.metas[b].messageCount <= end {
      assert b == count - 1 || n.metas[b].messageCount < n.metas[count - 1].messageCount;
    }
  }

  lemma ReorgBatchesKeepsInv(n: Node, count: nat, execOk: bool)
    requires Inv(n) && ReorgBatchesTo(n, count, execOk).Some?
    ensures Inv(ReorgBatchesTo(n, count, execOk).value)
  {
    var limit := PrevMeta(n.metas, count).delayedCount;
    forall b | 0 <= b < count ensures n.metas[b].delayedCount <= limit {
      assert b == count - 1 || n.metas[b].delayedCount <= n.metas[count - 1].delayedCount;
    }
    forall b | 0 <= b < |n.metas| && 0 < n.metas[b].delayedCount <= limit
      ensures n.index[n.metas[b].delayedCount] < count
    {
      var d := n.metas[b].delayedCount;
      assert IsFirst(n.metas, d, n.index[d]);
    }
    KeptIndex(n.metas, n.index, count, limit);
    DroppedLog(n, count, KeysUpTo(n.index, limit), execOk);
  }

  /** Replacing the delayed inbox removes precisely the batches that read beyond its new end, and cuts
      the log at the end of the last batch that remains; without such batches it touches neither. */
  lemma DelayedReorgIsExact(n: Node, delayed: seq<Entry>, canReorg: bool, execOk: bool)
    requires Inv(n) && SetDelayed(n, delayed, canReorg, execOk).Some?
    ensures var n1 := SetDelayed(n, delayed, canReorg, execOk).value;
            && n1.delayed == delayed
            && |n1.metas| <= |n.metas| && n1.metas == n.metas[..|n1.metas|]
            && (forall b :: 0 <= b < |n.metas| ==> (b < |n1.metas| <==> n.metas[b].delayedCount <= |delayed|))
            && n1.stream.log ==
               (if |n1.metas| == |n.metas| then n.stream.log
                else n.stream.log[..PrevMeta(n.metas, |n1.metas|).messageCount])
            && Ordered(n1.metas) && Indexed(n1.index, n1.metas) && LogAgrees(n1.metas, n1.stream.log)
  {
    if forall d :: d in n.index ==> d <= |delayed| {
      assert n.metas[..|n.metas|] == n.metas;
    } else {
      var d := NextKey(n.index, |delayed|);
      var count := n.index[d];
      assert IsFirst(n.metas, d, count);
      forall b | 0 <= b < |n.metas|
        ensures b < count <==> n.metas[b].delayedCount <= |delayed|
      {
        var e := n.metas[b].delayedCount;
        if b < count {
          assert e <= d && e != d;
        } else if b > count {
          assert n.metas[count].delayedCount <= e;
        }
      }
      forall b | 0 <= b < |n.metas| && 0 < n.metas[b].delayedCount <= |delayed|
        ensures n.index[n.metas[b].delayedCount] < count
      {
        var e := n.metas[b].delayedCount;
        assert IsFirst(n.metas, e, n.index[e]);
      }
      KeptIndex(n.metas, n.index, count, |delayed|);
      DroppedLog(n, count, KeysUpTo(n.index, |delayed|), execOk);
    }
  }

  // ---- The delayed inbox

  lemma ChainExtends(delayed: seq<Entry>, e: Entry)
    requires Chained(delayed)
    requires e.acc == AfterAcc(PrevAcc(delayed, |delayed|), e.message)
    requires e.message.header.requestId == Some(|delayed|)
    ensures Chained(delayed + [e])
  {
    var r := delayed + [e];
    forall i | 0 <= i < |r| ensures Linked(r, i) {
      assert PrevAcc(r, i) == PrevAcc(delayed, i);
      if i < |delayed| { assert Linked(delayed, i); }
    }
  }

  lemma EntriesFront(delayed: seq<Entry>, msgs: seq<DelayedMessage>)
    requires msgs != []
    ensures var e := Entry(AfterAcc(msgs[0].before, msgs[0].message), msgs[0].message);
            delayed + Entries(msgs) == (delayed + [e]) + Entries(msgs[1..])
  {
    var e := Entry(AfterAcc(msgs[0].before, msgs[0].message), msgs[0].message);
    assert Entries(msgs) == [e] + Entries(msgs[1..]);
    hide Entries;
  }

  lemma {:induction false} ChainContinues(delayed: seq<Entry>, pos: nat, msgs: seq<DelayedMessage>)
    requires Chained(delayed) && pos == |delayed| && Continues(PrevAcc(delayed, pos), pos, msgs)
    ensures Chained(delayed + Entries(msgs))
    decreases |msgs|
  {
    hide Linked, Entries, Chained;
    if msgs == [] {
      NoEntries(delayed);
    } else {
      var e := Entry(AfterAcc(msgs[0].before, msgs[0].message), msgs[0].message);
      ChainExtends(delayed, e);
      assert PrevAcc(delayed + [e], pos + 1) == e.acc;
      hide PrevAcc;
      ChainContinues(delayed + [e], pos + 1, msgs[1..]);
      EntriesFront(delayed, msgs);
    }
  }

  lemma NoEntries(delayed: seq<Entry>)
    ensures delayed + Entries([]) == delayed
  {
  }

  lemma ChainPrefix(delayed: seq<Entry>, count: nat)
    requires Chained(delayed) && count <= |delayed|
    ensures Chained(delayed[..count]) && PrevAcc(delayed[..count], count) == PrevAcc(delayed, count)
  {
    var r := delayed[..count];
    forall i | 0 <= i < count ensures Linked(r, i) {
      assert PrevAcc(r, i) == PrevAcc(delayed, i) && Linked(delayed, i);
    }
  }

  lemma AddDelayedKeepsInv(n: Node, msgs: seq<DelayedMessage>, hardReorg: bool, execOk: bool)
    requires Inv(n) && AddDelayed(n, msgs, hardReorg, execOk).Some?
    ensures Inv(AddDelayed(n, msgs, hardReorg, execOk).value)
  {
    if msgs != [] {
      var pos := msgs[0].message.header.requestId.value;
      if hardReorg || !AlreadyStored(n.delayed, pos, msgs) {
        ChainPrefix(n.delayed, pos);
        ChainContinues(n.delayed[..pos], pos, msgs);
        DelayedReorgIsExact(n, n.delayed[..pos] + Entries(msgs), true, execOk);
      }
    }
  }

  lemma ReorgDelayedKeepsInv(n: Node, count: nat, canReorg: bool, execOk: bool)
    requires Inv(n) && ReorgDelayedTo(n, count, canReorg, execOk).Some?
    ensures Inv(ReorgDelayedTo(n, count, canReorg, execOk).value)
  {
    if count < |n.delayed| {
      ChainPrefix(n.delayed, count);
      DelayedReorgIsExact(n, n.delayed[..count], canReorg, execOk);
    }
  }

  /** Equal accumulators at one index mean equal messages, up to gas costs, at all lower ones. */
  lemma {:induction false} ChainAgreement(a: seq<Entry>, b: seq<Entry>, i: nat, j: nat)
    requires Chained(a) && Chained(b) && j <= i < |a| && i < |b| && a[i].acc == b[i].acc
    ensures a[j].acc == b[j].acc
    ensures a[j].message == b[j].message.(batchGasCost := a[j].message.batchGasCost)
    decreases i
  {
    assert Linked(a, i) && Linked(b, i);
    hide Linked;
    if j < i {
      assert PrevAcc(a, i) == PrevAcc(b, i);
      ChainAgreement(a, b, i - 1, j);
    }
  }

  // ---- Adding batches

  /** Adding the metadata of batches that follow on keeps it ordered and indexed. */
  lemma {:induction false} BatchesExtend(metas: seq<BatchMeta>, index: map<nat, nat>, delayed: seq<Entry>, acc: nat,
                                         dec: Decoder, batches: seq<Batch>, parts: seq<seq<MessageWithMeta>>)
    requires Ordered(metas) && Indexed(index, metas) && |parts| == |batches| && NonEmpty(parts)
    requires Acceptable(delayed, |metas|, acc, batches)
    requires Parses(dec, PrevMeta(metas, |metas|).delayedCount, batches)
    ensures var prev := PrevMeta(metas, |metas|);
            var metas1 := metas + NewMetas(prev.messageCount, batches, parts);
            Ordered(metas1) && Indexed(NewIndex(index, prev.delayedCount, batches), metas1)
    decreases |batches|
  {
    hide Ordered;
    hide Indexed;
    hide Parse;
    hide SerializeBatch;
    var prev := PrevMeta(metas, |metas|);
    if batches == [] {
      assert metas + NewMetas(prev.messageCount, batches, parts) == metas;
    } else {
      var b := batches[0];
      var meta := BatchMeta(b.afterAcc, prev.messageCount + |parts[0]|, b.afterDelayedCount);
      var index1 := if b.afterDelayedCount > prev.delayedCount then index[b.afterDelayedCount := b.sequenceNumber]
          else index;
      assert parts[0] != [];
      BatchExtends(metas, index, meta, index1);
      assert PrevMeta(metas + [meta], |metas| + 1) == meta;
      assert forall k :: 0 <= k < |parts[1..]| ==> parts[1..][k] == parts[k + 1];
      BatchesExtend(metas + [meta], index1, delayed, b.afterAcc, dec, batches[1..], parts[1..]);
      var later := NewMetas(meta.messageCount, batches[1..], parts[1..]);
      assert NewMetas(prev.messageCount, batches, parts) == [meta] + later;
      assert NewIndex(index, prev.delayedCount, batches) == NewIndex(index1, meta.delayedCount, batches[1..]);
      assert metas + ([meta] + later) == metas + [meta] + later;
      hide *;
    }
  }

  lemma BatchExtends(metas: seq<BatchMeta>, index: map<nat, nat>, meta: BatchMeta, index1: map<nat, nat>)
    requires Ordered(metas) && Indexed(index, metas)
    requires var prev := PrevMeta(metas, |metas|);
             && prev.messageCount < meta.messageCount && prev.delayedCount <= meta.delayedCount
             && index1 == if meta.delayedCount > prev.delayedCount then index[meta.delayedCount := |metas|] else index
    ensures Ordered(metas + [meta]) && Indexed(index1, metas + [meta])
  {
    var metas1, prev := metas + [meta], PrevMeta(metas, |metas|);
    forall a | 0 <= a < |metas| ensures metas[a].messageCount <= prev.messageCount &&
        metas[a].delayedCount <= prev.delayedCount {
      assert a == |metas| - 1 || metas[a].messageCount < metas[|metas| - 1].messageCount;
    }
    forall d | d in index1 ensures d > 0 && IsFirst(metas1, d, index1[d]) {
      if d in index && index1[d] == index[d] { assert IsFirst(metas, d, index[d]); }
    }
  }

  /** Where each batch ends in the concatenation of all messages. */
  lemma {:induction false} BatchEnds(count: nat, batches: seq<Batch>, parts: seq<seq<MessageWithMeta>>, i: nat)
    requires |batches| == |parts| && i < |batches| && NonEmpty(parts)
    ensures var end := NewMetas(count, batches, parts)[i].messageCount - count;
            && 0 < end <= |Flatten(parts)|
            && Flatten(parts)[end - 1] == parts[i][|parts[i]| - 1]
            && NewMetas(count, batches, parts)[i].delayedCount == batches[i].afterDelayedCount
    decreases i
  {
    assert Flatten(parts) == parts[0] + Flatten(parts[1..]);
    if i > 0 {
      assert forall k :: 0 <= k < |parts[1..]| ==> parts[1..][k] == parts[k + 1];
      BatchEnds(count + |parts[0]|, batches[1..], parts[1..], i - 1);
      var end := NewMetas(count, batches, parts)[i].messageCount - count;
      assert Flatten(parts)[end - 1] == Flatten(parts[1..])[end - |parts[0]| - 1];
    }
  }

  /** Each batch's messages step by at most one and end at the batch's delayed count. */
  lemma {:induction false} PartsStep(dec: Decoder, delayed: seq<Entry>, from: u64, batches: seq<Batch>)
    requires Parses(dec, from, batches) && forall b <- batches :: b.afterDelayedCount <= |delayed|
    ensures Steps(from, Flatten(MessagesOf(dec, delayed, from, batches)))
    decreases |batches|
  {
    if batches != [] {
      var b, parts := batches[0], MessagesOf(dec, delayed, from, batches);
      var rest := MessagesOf(dec, delayed, b.afterDelayedCount, batches[1..]);
      assert parts == [parts[0]] + rest && parts[1..] == rest;
      FirstPart(dec, delayed, from, batches);
      PartsStep(dec, delayed, b.afterDelayedCount, batches[1..]);
      StepsSplit(from, parts[0], Flatten(rest));
    }
  }

  lemma FirstPart(dec: Decoder, delayed: seq<Entry>, from: u64, batches: seq<Batch>)
    requires Parses(dec, from, batches) && (forall b <- batches :: b.afterDelayedCount <= |delayed|) && batches != []
    ensures var first := MessagesOf(dec, delayed, from, batches)[0];
            Steps(from, first) && first[|first| - 1].delayedRead == batches[0].afterDelayedCount
  {
    var first := MessagesOf(dec, delayed, from, batches)[0];
    var sm := Parse(dec, SerializeBatch(batches[0])).value;
    ParsedDelayedCount(dec, batches[0]);
    var w := WorldOf(dec, delayed, []);
    hide Parse;
    DecodeSteps(w, sm, sm.segments, 0, 0, from);
    DecodeEnds(w, sm, sm.segments, 0, 0, from);
    hide Decode;
    StepsFromSteps(from, first);
  }

  lemma {:induction false} PartsEnd(dec: Decoder, delayed: seq<Entry>, from: u64, batches: seq<Batch>, i: nat)
    requires Parses(dec, from, batches) && forall b <- batches :: b.afterDelayedCount <= |delayed|
    requires i < |batches|
    ensures var part := MessagesOf(dec, delayed, from, batches)[i];
            part[|part| - 1].delayedRead == batches[i].afterDelayedCount
    decreases i
  {
    hide Decode, SerializeBatch, Parse, WorldOf;
    if i == 0 {
      FirstPart(dec, delayed, from, batches);
    } else {
      assert MessagesOf(dec, delayed, from, batches)[i] ==
             MessagesOf(dec, delayed, batches[0].afterDelayedCount, batches[1..])[i - 1];
      PartsEnd(dec, delayed, batches[0].afterDelayedCount, batches[1..], i - 1);
    }
  }

  lemma {:induction false} StepsFromSteps(from: u64, msgs: seq<MessageWithMeta>)
    requires StepsByOne(from, msgs) && forall m <- msgs :: m.message.Some?
    ensures Steps(from, msgs)
    decreases |msgs|
  {
    if msgs != [] {
      forall i | 0 <= i < |msgs[1..]|
        ensures CountBefore(msgs[0].delayedRead, msgs[1..], i) <= msgs[1..][i].delayedRead
                <= CountBefore(msgs[0].delayedRead, msgs[1..], i) + 1
      {
        assert msgs[1..][i] == msgs[i + 1];
        assert CountBefore(msgs[0].delayedRead, msgs[1..], i) == CountBefore(from, msgs, i + 1);
      }
      assert CountBefore(from, msgs, 0) <= msgs[0].delayedRead <= CountBefore(from, msgs, 0) + 1;
      StepsFromSteps(msgs[0].delayedRead, msgs[1..]);
    }
  }

  /** The end of the last batch that stays is inside the log. */
  lemma PrevIsInside(n: Node, pos: nat)
    requires Inv(n) && pos <= |n.metas|
    ensures PrevMeta(n.metas, pos).messageCount <= |n.stream.log|
    ensures DelayedBefore(n.stream.log, PrevMeta(n.metas, pos).messageCount) == PrevMeta(n.metas, pos).delayedCount
  {
  }

  lemma KeptIndexAt(n: Node, pos: nat)
    requires Inv(n) && pos <= |n.metas|
    ensures Ordered(n.metas[..pos]) && LogAgrees(n.metas[..pos], n.stream.log)
    ensures Indexed(KeysUpTo(n.index, PrevMeta(n.metas, pos).delayedCount), n.metas[..pos])
  {
    var limit := PrevMeta(n.metas, pos).delayedCount;
    forall b | 0 <= b < pos ensures n.metas[b].delayedCount <= limit {
      assert b == pos - 1 || n.metas[b].delayedCount <= n.metas[pos - 1].delayedCount;
    }
    forall b | 0 <= b < |n.metas| && 0 < n.metas[b].delayedCount <= limit
      ensures n.index[n.metas[b].delayedCount] < pos
    {
      var d := n.metas[b].delayedCount;
      assert IsFirst(n.metas, d, n.index[d]);
    }
    KeptIndex(n.metas, n.index, pos, limit);
  }

  /** The batches, old and new, end in the new log where their metadata says. */
  lemma AddedLogAgrees(metas: seq<BatchMeta>, old_log: seq<MessageWithMeta>, log: seq<MessageWithMeta>,
                       batches: seq<Batch>, parts: seq<seq<MessageWithMeta>>)
    requires Ordered(metas) && LogAgrees(metas, old_log)
    requires |batches| == |parts| && NonEmpty(parts)
    requires forall i :: 0 <= i < |parts| ==> parts[i][|parts[i]| - 1].delayedRead == batches[i].afterDelayedCount
    requires var count := PrevMeta(metas, |metas|).messageCount;
             && count <= |old_log| && count + |Flatten(parts)| <= |log|
             && log[..count] == old_log[..count]
             && forall i :: 0 <= i < |Flatten(parts)| ==> SameMessage(log[count + i], Flatten(parts)[i])
    ensures LogAgrees(metas + NewMetas(PrevMeta(metas, |metas|).messageCount, batches, parts), log)
  {
    var count := PrevMeta(metas, |metas|).messageCount;
    var added := NewMetas(count, batches, parts);
    var all := metas + added;
    forall b | 0 <= b < |all|
      ensures 0 < all[b].messageCount <= |log| && log[all[b].messageCount - 1].delayedRead == all[b].delayedCount
    {
      if b < |metas| {
        var at := metas[b].messageCount - 1;
        assert b == |metas| - 1 || metas[b].messageCount < metas[|metas| - 1].messageCount;
        assert log[at] == log[..count][at] == old_log[..count][at];
      } else {
        BatchEnds(count, batches, parts, b - |metas|);
        var end := added[b - |metas|].messageCount - count;
        assert SameMessage(log[count + (end - 1)], Flatten(parts)[end - 1]);
      }
    }
  }

  lemma AddBatchesKeepsInv(n: Node, dec: Decoder, batches: seq<Batch>, execOk: bool)
    requires Inv(n) && AddBatches(n, dec, batches, execOk).Some?
    ensures Inv(AddBatches(n, dec, batches, execOk).value)
  {
    hide Acceptable;
    hide Parses;
    hide MessagesOf;
    hide Flatten;
    hide NewMetas;
    hide NewIndex;
    hide AddConfirmed;
    hide Ordered;
    hide Indexed;
    hide LogAgrees;
    hide Chained;
    if batches != [] {
      var pos := batches[0].sequenceNumber;
      var prev := PrevMeta(n.metas, pos);
      AcceptableIsBounded(n.delayed, pos, prev.acc, batches);
      var parts := MessagesOf(dec, n.delayed, prev.delayedCount, batches);
      var kept := n.metas[..pos];
      assert PrevMeta(kept, pos) == prev;
      PrevIsInside(n, pos);
      KeptIndexAt(n, pos);
      BatchesExtend(kept, KeysUpTo(n.index, prev.delayedCount), n.delayed, prev.acc, dec, batches, parts);
      forall i | 0 <= i < |parts| ensures parts[i][|parts[i]| - 1].delayedRead == batches[i].afterDelayedCount {
        PartsEnd(dec, n.delayed, prev.delayedCount, batches, i);
      }
      ConfirmedLog(n.stream, prev.messageCount, Flatten(parts), execOk);
      var n1 := AddBatches(n, dec, batches, execOk).value;
      AddedLogAgrees(kept, n.stream.log, n1.stream.log, batches, parts);
      NewDelayedCounts(kept, n.delayed, prev.messageCount, batches, parts);
    }
  }

  lemma NewDelayedCounts(metas: seq<BatchMeta>, delayed: seq<Entry>, count: nat, batches: seq<Batch>,
                         parts: seq<seq<MessageWithMeta>>)
    requires forall b :: 0 <= b < |metas| ==> metas[b].delayedCount <= |delayed|
    requires forall b <- batches :: b.afterDelayedCount <= |delayed|
    requires |batches| == |parts| && NonEmpty(parts)
    ensures var all := metas + NewMetas(count, batches, parts);
            forall b :: 0 <= b < |all| ==> all[b].delayedCount <= |delayed|
  {
    var all := metas + NewMetas(count, batches, parts);
    forall b | |metas| <= b < |all| ensures all[b].delayedCount <= |delayed| {
      BatchEnds(count, batches, parts, b - |metas|);
      assert batches[b - |metas|] in batches;
    }
  }

  /** Messages read from acceptable batches are never rejected for their delayed counts: a batch add
      that fails with a bad message was given a jump by the feed queue. */
  lemma BatchesNeverJump(n: Node, dec: Decoder, batches: seq<Batch>, execOk: bool)
    requires Inv(n) && batches != [] && batches[0].sequenceNumber <= |n.metas|
    requires var prev := PrevMeta(n.metas, batches[0].sequenceNumber);
             && Acceptable(n.delayed, batches[0].sequenceNumber, prev.acc, batches)
             && Parses(dec, prev.delayedCount, batches)
             && forall b <- batches :: b.afterDelayedCount <= |n.delayed|
    ensures var prev := PrevMeta(n.metas, batches[0].sequenceNumber);
            var msgs := Flatten(MessagesOf(dec, n.delayed, prev.delayedCount, batches));
            var k := CountDuplicates(n.stream.log, prev.messageCount, msgs);
            && Steps(prev.delayedCount, msgs)
            && (AddConfirmed(n.stream, prev.messageCount, msgs, execOk) == Err(BadMessage) <==>
                k < |msgs| && !Steps(msgs[|msgs| - 1].delayedRead,
                                     QueueTail(n.stream.queue, prev.messageCount + k, prev.messageCount + |msgs|)))
  {
    hide Inv;
    hide Acceptable;
    hide Parses;
    hide MessagesOf;
    hide Flatten;
    hide QueueTail;
    hide CountDuplicates;
    hide Add;
    hide Steps;
    var prev := PrevMeta(n.metas, batches[0].sequenceNumber);
    var msgs := Flatten(MessagesOf(dec, n.delayed, prev.delayedCount, batches));
    PrevIsInside(n, batches[0].sequenceNumber);
    PartsStep(dec, n.delayed, prev.delayedCount, batches);
    if CountDuplicates(n.stream.log, prev.messageCount, msgs) < |msgs| {
      ConfirmedNeverJump(n.stream, prev.messageCount, msgs, execOk);
    }
  }

  // ---- Runs

  /** Everything that happens to the tracker and the log. A flag tells whether the execution engine
      and the validator follow a reorganization; failures leave the node as it was. */
  datatype Op =
    | OpAddDelayed(delayed: seq<DelayedMessage>, hardReorg: bool, execOk: bool)
    | OpReorgDelayed(count: nat, canReorg: bool, execOk: bool)
    | OpAddBatches(dec: Decoder, batches: seq<Batch>, execOk: bool)
    | OpReorgBatches(count: nat, execOk: bool)
    | OpFeed(feed: seq<FeedMessage>, maxQueue: nat)
    | OpUnconfirmed(pos: nat, msgs: seq<MessageWithMeta>)
    | OpSequence(msg: MessageWithMeta)

  function OrElse(r: Option<Node>, n: Node): Node {
    if r.Some? then r.value else n
  }

  ghost function Apply(n: Node, op: Op): Node {
    match op
    case OpAddDelayed(delayed, hardReorg, ok) => OrElse(AddDelayed(n, delayed, hardReorg, ok), n)
    case OpReorgDelayed(count, canReorg, ok) => OrElse(ReorgDelayedTo(n, count, canReorg, ok), n)
    case OpAddBatches(dec, batches, ok) => OrElse(AddBatches(n, dec, batches, ok), n)
    case OpReorgBatches(count, ok) => OrElse(ReorgBatchesTo(n, count, ok), n)
    case OpFeed(feed, maxQueue) => n.(stream := AddFeed(n.stream, feed, maxQueue, true).0)
    case OpUnconfirmed(pos, msgs) => n.(stream := Outcome(n.stream, Add(n.stream, pos, false, msgs, true)).0)
    case OpSequence(msg) => n.(stream := n.stream.(log := n.stream.log + [msg]))
  }

  ghost function Run(n: Node, ops: seq<Op>): Node
    decreases |ops|
  {
    if ops == [] then n else Run(Apply(n, ops[0]), ops[1..])
  }

  lemma LongerLogAgrees(metas: seq<BatchMeta>, log: seq<MessageWithMeta>, longer: seq<MessageWithMeta>)
    requires LogAgrees(metas, log) && log <= longer
    ensures LogAgrees(metas, longer)
  {
  }

  lemma ApplyKeepsInv(n: Node, op: Op)
    requires Inv(n)
    ensures Inv(Apply(n, op))
  {
    hide AddDelayed;
    hide ReorgDelayedTo;
    hide AddBatches;
    hide ReorgBatchesTo;
    hide AddFeed;
    hide Add;
    match op
    case OpAddDelayed(delayed, hardReorg, ok) =>
      if AddDelayed(n, delayed, hardReorg, ok).Some? { AddDelayedKeepsInv(n, delayed, hardReorg, ok); }
    case OpReorgDelayed(count, canReorg, ok) =>
      if ReorgDelayedTo(n, count, canReorg, ok).Some? { ReorgDelayedKeepsInv(n, count, canReorg, ok); }
    case OpAddBatches(dec, batches, ok) =>
      if AddBatches(n, dec, batches, ok).Some? { AddBatchesKeepsInv(n, dec, batches, ok); }
    case OpReorgBatches(count, ok) =>
      if ReorgBatchesTo(n, count, ok).Some? { ReorgBatchesKeepsInv(n, count, ok); }
    case OpFeed(feed, maxQueue) =>
      FeedOnlyAppends(n.stream, feed, maxQueue, true);
      LongerLogAgrees(n.metas, n.stream.log, AddFeed(n.stream, feed, maxQueue, true).0.log);
    case OpUnconfirmed(pos, msgs) =>
      if Add(n.stream, pos, false, msgs, true).Ok? {
        UnconfirmedOnlyAppends(n.stream, pos, msgs, true);
        LongerLogAgrees(n.metas, n.stream.log, Add(n.stream, pos, false, msgs, true).value.log);
      }
    case OpSequence(msg) =>
      LongerLogAgrees(n.metas, n.stream.log, n.stream.log + [msg]);
  }

  /** Every state reached from an empty database by adds, reorganizations, feed messages and sequencing
      satisfies the invariant. */
  lemma {:induction false} ReachableInv(n: Node, ops: seq<Op>)
    requires Inv(n)
    ensures Inv(Run(n, ops))
    decreases |ops|
  {
    if ops != [] {
      ApplyKeepsInv(n, ops[0]);
      ReachableInv(Apply(n, ops[0]), ops[1..]);
    }
  }

  lemma RunsFromGenesis(ops: seq<Op>)
    ensures Inv(Run(GENESIS, ops))
  {
    ReachableInv(GENESIS, ops);
  }
}

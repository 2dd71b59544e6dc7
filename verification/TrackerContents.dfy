/** What adding delayed messages and batches leaves in the tracker and the log, and that it is what the parent chain
    committed to. */
module TrackerContents {
  import opened Types
  import opened SequencerMessages
  import opened Multiplexer
  import opened MultiplexerProperties
  import opened Streamer
  import opened StreamerProperties
  import opened Tracker
  import opened TrackerProperties
  import opened InboxTracker

  // ---- Batches

  /** A batch is the next one, follows the accumulator before it, and was made over the delayed inbox stored here. */
  predicate FollowsOn(delayed: seq<Entry>, pos: nat, acc: nat, batches: seq<Batch>, i: nat)
    requires i < |batches|
  {
    var b := batches[i];
    && b.sequenceNumber == pos + i
    && b.beforeAcc == (if i == 0 then acc else batches[i - 1].afterAcc)
    && (b.afterDelayedCount > 0 ==>
          b.afterDelayedCount <= |delayed| && delayed[b.afterDelayedCount - 1].acc == b.afterDelayedAcc)
  }

  /** Batches are acceptable exactly if each of them follows on. */
  lemma {:induction false} AcceptableIff(delayed: seq<Entry>, pos: nat, acc: nat, batches: seq<Batch>)
    ensures Acceptable(delayed, pos, acc, batches) <==>
            forall i :: 0 <= i < |batches| ==> FollowsOn(delayed, pos, acc, batches, i)
    decreases |batches|
  {
    if batches != [] {
      var rest, next, pos1 := batches[1..], batches[0].afterAcc, pos + 1;
      AcceptableIff(delayed, pos1, next, rest);
      assert forall i :: 0 < i < |batches| ==>
          FollowsOn(delayed, pos, acc, batches, i) == FollowsOn(delayed, pos1, next, rest, i - 1);
      if Acceptable(delayed, pos, acc, batches) {
        assert FollowsOn(delayed, pos, acc, batches, 0);
      } else if forall i :: 0 <= i < |batches| ==> FollowsOn(delayed, pos, acc, batches, i) {
        assert FollowsOn(delayed, pos, acc, batches, 0);
        forall i | 0 <= i < |rest| ensures FollowsOn(delayed, pos1, next, rest, i) {
          assert FollowsOn(delayed, pos, acc, batches, i + 1);
        }
      }
    }
  }

  /** The message count before a batch is added. */
  function CountBefore(n: Node, i: nat): nat
    requires i <= |n.metas|
  {
    PrevMeta(n.metas, i).messageCount
  }

  /**
   * After a successful add the batches stand where they say, each with its own accumulator and delayed count; all of
   * them follow on, and what came before and the delayed inbox are as they were.
   */
  lemma AddedBatches(n: Node, dec: Decoder, batches: seq<Batch>, execOk: bool, i: nat)
    requires AddBatches(n, dec, batches, execOk).Some? && i < |batches|
    ensures var n1 := AddBatches(n, dec, batches, execOk).value;
            var pos := batches[0].sequenceNumber;
            && pos <= |n.metas| && |n1.metas| == pos + |batches|
            && n1.metas[..pos] == n.metas[..pos] && n1.delayed == n.delayed
            && FollowsOn(n.delayed, pos, PrevMeta(n.metas, pos).acc, batches, i)
            && n1.metas[pos + i].acc == batches[i].afterAcc
            && n1.metas[pos + i].delayedCount == batches[i].afterDelayedCount
  {
    hide Parses, MessagesOf, AddConfirmed, Flatten, NewIndex, KeysUpTo, FollowsOn;
    var pos := batches[0].sequenceNumber;
    var prev := PrevMeta(n.metas, pos);
    AcceptableIff(n.delayed, pos, prev.acc, batches);
    AcceptableIsBounded(n.delayed, pos, prev.acc, batches);
    hide Acceptable;
    MetaAt(prev.messageCount, batches, MessagesOf(dec, n.delayed, prev.delayedCount, batches), i);
    hide NewMetas;
  }

  lemma {:induction false} FlattenAt(parts: seq<seq<MessageWithMeta>>, i: nat, j: nat)
    requires i < |parts| && j < |parts[i]|
    ensures |Flatten(parts[..i])| + |parts[i]| == |Flatten(parts[..i + 1])| <= |Flatten(parts)|
    ensures Flatten(parts)[|Flatten(parts[..i])| + j] == parts[i][j]
    decreases i
  {
    assert parts[..i + 1][0] == parts[0] && parts[..i + 1][1..] == parts[1..][..i];
    if i == 0 {
      assert parts[1..][..0] == [] && parts[..0] == [];
    } else {
      assert parts[..i][0] == parts[0] && parts[..i][1..] == parts[1..][..i - 1];
      FlattenAt(parts[1..], i - 1, j);
    }
  }

  /** The messages of an added batch are the log between its metadata and the one before: the one-pass decoding of its
      bytes, from the delayed count at which the batch before it ends. */
  lemma AddedLog(n: Node, dec: Decoder, batches: seq<Batch>, execOk: bool, i: nat)
    requires Inv(n) && AddBatches(n, dec, batches, execOk).Some? && i < |batches|
    ensures var n1 := AddBatches(n, dec, batches, execOk).value;
            var at := batches[0].sequenceNumber + i;
            && at < |n1.metas| && Parse(dec, SerializeBatch(batches[i])).Ok?
            && var (sm, from) := (Parse(dec, SerializeBatch(batches[i])).value, PrevMeta(n1.metas, at).delayedCount);
            && sm.afterDelayed == batches[i].afterDelayedCount && from <= sm.afterDelayed
            && Readable(WorldOf(dec, n.delayed, []), from, sm.afterDelayed)
            && var msgs := Decode(WorldOf(dec, n.delayed, []), sm, sm.segments, 0, 0, from);
            && n1.metas[at].messageCount == CountBefore(n1, at) + |msgs| <= |n1.stream.log|
            && forall j :: 0 <= j < |msgs| ==> SameMessage(n1.stream.log[CountBefore(n1, at) + j], msgs[j])
  {
    hide Parses, MessagesOf, AddConfirmed, Flatten, NewIndex, KeysUpTo, Acceptable, Parse, Decode, Readable, WorldOf;
    hide SerializeBatch, SameMessage, NewMetas;
    var pos := batches[0].sequenceNumber;
    var prev := PrevMeta(n.metas, pos);
    var n1 := AddBatches(n, dec, batches, execOk).value;
    AddedBatches(n, dec, batches, execOk, i);
    AcceptableIsBounded(n.delayed, pos, prev.acc, batches);
    var parts := MessagesOf(dec, n.delayed, prev.delayedCount, batches);
    PartAt(dec, n.delayed, prev.delayedCount, batches, i);
    MetaAt(prev.messageCount, batches, parts, i);
    PrevOfAdded(n, dec, batches, execOk, i);
    FlattenAt(parts, i, 0);
    PrevIsInside(n, pos);
    ConfirmedLog(n.stream, prev.messageCount, Flatten(parts), execOk);
    forall j | 0 <= j < |parts[i]| ensures SameMessage(n1.stream.log[CountBefore(n1, pos + i) + j], parts[i][j]) {
      FlattenAt(parts, i, j);
      var k := |Flatten(parts[..i])| + j;
      assert SameMessage(n1.stream.log[prev.messageCount + k], Flatten(parts)[k]);
    }
  }

  lemma PrevOfAdded(n: Node, dec: Decoder, batches: seq<Batch>, execOk: bool, i: nat)
    requires AddBatches(n, dec, batches, execOk).Some? && i < |batches|
    ensures var n1 := AddBatches(n, dec, batches, execOk).value;
            var pos := batches[0].sequenceNumber;
            && pos + i < |n1.metas| && pos <= |n.metas|
            && var prev := PrevMeta(n.metas, pos);
            && Acceptable(n.delayed, pos, prev.acc, batches) && Parses(dec, prev.delayedCount, batches)
            && (forall b <- batches :: b.afterDelayedCount <= |n.delayed|)
            && var parts := MessagesOf(dec, n.delayed, prev.delayedCount, batches);
            && CountBefore(n1, pos + i) == prev.messageCount + |Flatten(parts[..i])|
            && PrevMeta(n1.metas, pos + i).delayedCount == StartCount(prev.delayedCount, batches, i)
  {
    hide Parses, MessagesOf, AddConfirmed, NewIndex, KeysUpTo, Acceptable, NewMetas;
    var pos := batches[0].sequenceNumber;
    var prev := PrevMeta(n.metas, pos);
    AcceptableIsBounded(n.delayed, pos, prev.acc, batches);
    var parts := MessagesOf(dec, n.delayed, prev.delayedCount, batches);
    if i == 0 {
      assert parts[..0] == [];
    } else {
      MetaAt(prev.messageCount, batches, parts, i - 1);
    }
  }

  /**
   * Every delayed message that an added batch can have read is the one that the parent chain had when it took the
   * batch, up to gas cost: the batch carries the accumulator of the parent chain's delayed inbox.
   */
  lemma ReadsWhatWasCommitted(n: Node, dec: Decoder, batches: seq<Batch>, execOk: bool, i: nat, bridge: seq<Entry>,
                              j: nat)
    requires Inv(n) && AddBatches(n, dec, batches, execOk).Some? && i < |batches|
    requires Chained(bridge) && j < batches[i].afterDelayedCount <= |bridge|
    requires bridge[batches[i].afterDelayedCount - 1].acc == batches[i].afterDelayedAcc
    ensures batches[i].afterDelayedCount <= |n.delayed|
    ensures n.delayed[j].message == bridge[j].message.(batchGasCost := n.delayed[j].message.batchGasCost)
  {
    hide AddBatches, Inv, Chained;
    InvChained(n);
    AddedBatches(n, dec, batches, execOk, i);
    ChainAgreement(n.delayed, bridge, batches[i].afterDelayedCount - 1, j);
  }

  lemma InvChained(n: Node)
    requires Inv(n)
    ensures Chained(n.delayed)
  {
  }

  // ---- When batches and delayed messages are taken

  /** Whether the log takes confirmed messages: it has them all, or the feed messages behind them do not jump, and it is
      not changed from its first message on or, if it is changed at all, without the execution engine. */
  ghost predicate LogTakes(s: Stream, pos: nat, msgs: seq<MessageWithMeta>, last: u64, execOk: bool) {
    var changed := pos + CountDuplicates(s.log, pos, msgs);
    || changed == pos + |msgs|
    || (Steps(last, QueueTail(s.queue, changed, pos + |msgs|)) && (changed == |s.log| || (changed > 0 && execOk)))
  }

  /** Batches are added exactly if there is no gap before them, they follow on, they can be read with delayed counts
      that do not fall, and the log takes their messages. */
  lemma BatchesAreTaken(n: Node, dec: Decoder, batches: seq<Batch>, execOk: bool)
    requires Inv(n) && batches != []
    ensures var pos := batches[0].sequenceNumber;
            AddBatches(n, dec, batches, execOk).Some? <==>
              && pos <= |n.metas|
              && (forall i :: 0 <= i < |batches| ==>
                   && FollowsOn(n.delayed, pos, PrevMeta(n.metas, pos).acc, batches, i)
                   && Parse(dec, SerializeBatch(batches[i])).Ok?)
              && NonDecreasing(PrevMeta(n.metas, pos).delayedCount, batches)
              && ReadByLog(n, dec, batches, execOk)
  {
    hide Parse, SerializeBatch, FollowsOn, MessagesOf, Flatten, NewMetas, NewIndex, KeysUpTo, Parses, Acceptable;
    hide NonDecreasing, AddConfirmed, LogTakes;
    var pos := batches[0].sequenceNumber;
    if pos <= |n.metas| {
      var prev := PrevMeta(n.metas, pos);
      AcceptableIff(n.delayed, pos, prev.acc, batches);
      ParsesIff(dec, prev.delayedCount, batches);
      if Acceptable(n.delayed, pos, prev.acc, batches) && Parses(dec, prev.delayedCount, batches) {
        AcceptableIsBounded(n.delayed, pos, prev.acc, batches);
        TakenByLog(n, dec, batches, execOk);
      }
    }
  }

  /** The messages of such batches are taken by the log. */
  ghost predicate ReadByLog(n: Node, dec: Decoder, batches: seq<Batch>, execOk: bool)
    requires batches != [] && batches[0].sequenceNumber <= |n.metas|
  {
    var prev := PrevMeta(n.metas, batches[0].sequenceNumber);
    && Parses(dec, prev.delayedCount, batches)
    && (forall b <- batches :: b.afterDelayedCount <= |n.delayed|)
    && LogTakes(n.stream, prev.messageCount, Flatten(MessagesOf(dec, n.delayed, prev.delayedCount, batches)),
                batches[|batches| - 1].afterDelayedCount, execOk)
  }

  lemma {:induction false} ParsesIff(dec: Decoder, from: u64, batches: seq<Batch>)
    ensures Parses(dec, from, batches) <==>
            && NonDecreasing(from, batches)
            && forall i :: 0 <= i < |batches| ==> Parse(dec, SerializeBatch(batches[i])).Ok?
    decreases |batches|
  {
    hide Parse, SerializeBatch;
    if batches != [] {
      var rest := batches[1..];
      ParsesIff(dec, batches[0].afterDelayedCount, rest);
      assert forall i :: 0 < i < |batches| ==> batches[i] == rest[i - 1];
      if forall i :: 0 <= i < |batches| ==> Parse(dec, SerializeBatch(batches[i])).Ok? {
        forall i | 0 <= i < |rest| ensures Parse(dec, SerializeBatch(rest[i])).Ok? {
          assert rest[i] == batches[i + 1];
        }
      }
    }
  }

  lemma ConfirmedTaken(s: Stream, pos: nat, msgs: seq<MessageWithMeta>, execOk: bool)
    requires pos <= |s.log| && msgs != [] && Steps(DelayedBefore(s.log, pos), msgs)
    ensures AddConfirmed(s, pos, msgs, execOk).Ok? <==> LogTakes(s, pos, msgs, msgs[|msgs| - 1].delayedRead, execOk)
  {
    hide CountDuplicates, QueueTail, Steps, DelayedBefore, Add;
    if CountDuplicates(s.log, pos, msgs) < |msgs| {
      ConfirmedRefused(s, pos, msgs, execOk);
      ConfirmedNeverJump(s, pos, msgs, execOk);
    }
  }

  lemma TakenByLog(n: Node, dec: Decoder, batches: seq<Batch>, execOk: bool)
    requires Inv(n) && batches != [] && batches[0].sequenceNumber <= |n.metas|
    requires var prev := PrevMeta(n.metas, batches[0].sequenceNumber);
             && Parses(dec, prev.delayedCount, batches)
             && forall b <- batches :: b.afterDelayedCount <= |n.delayed|
    ensures var prev := PrevMeta(n.metas, batches[0].sequenceNumber);
            var msgs := Flatten(MessagesOf(dec, n.delayed, prev.delayedCount, batches));
            AddConfirmed(n.stream, prev.messageCount, msgs, execOk).Ok? <==>
            LogTakes(n.stream, prev.messageCount, msgs, batches[|batches| - 1].afterDelayedCount, execOk)
  {
    hide Parses, MessagesOf, Flatten, Steps, AddConfirmed, LogTakes, Inv;
    var pos := batches[0].sequenceNumber;
    var prev := PrevMeta(n.metas, pos);
    PrevIsInside(n, pos);
    var parts := MessagesOf(dec, n.delayed, prev.delayedCount, batches);
    PartsStep(dec, n.delayed, prev.delayedCount, batches);
    PartsEnd(dec, n.delayed, prev.delayedCount, batches, |batches| - 1);
    FlattenEnd(parts);
    ConfirmedTaken(n.stream, prev.messageCount, Flatten(parts), execOk);
  }

  lemma {:induction false} FlattenEnd(parts: seq<seq<MessageWithMeta>>)
    requires parts != [] && NonEmpty(parts)
    ensures Flatten(parts) != []
    ensures var last := parts[|parts| - 1]; Flatten(parts)[|Flatten(parts)| - 1] == last[|last| - 1]
  {
    assert parts[0] != [];
    if |parts| > 1 {
      assert forall k :: 0 <= k < |parts[1..]| ==> parts[1..][k] == parts[k + 1];
      FlattenEnd(parts[1..]);
    } else {
      assert parts[1..] == [];
    }
  }

  /** Batches are dropped exactly if some are left, there are that many, and the execution engine follows. */
  lemma BatchReorgIsTaken(n: Node, count: nat, execOk: bool)
    requires Inv(n)
    ensures ReorgBatchesTo(n, count, execOk).Some? <==> 0 < count <= |n.metas| && execOk
    ensures ReorgBatchesTo(n, count, execOk).Some? ==>
      var n1 := ReorgBatchesTo(n, count, execOk).value;
      && n1.metas == n.metas[..count] && n1.delayed == n.delayed
      && n1.stream.log == n.stream.log[..n.metas[count - 1].messageCount]
  {
    if count <= |n.metas| {
      PrevIsInside(n, count);
    }
  }

  /** Another delayed inbox is taken exactly if no batch has read past its end or, where batches may go, the first one
      has not and the execution engine follows. */
  lemma DelayedInboxIsTaken(n: Node, delayed: seq<Entry>, canReorg: bool, execOk: bool)
    requires Inv(n)
    ensures SetDelayed(n, delayed, canReorg, execOk).Some? <==>
            || (forall b :: 0 <= b < |n.metas| ==> n.metas[b].delayedCount <= |delayed|)
            || (canReorg && execOk && n.metas[0].delayedCount <= |delayed|)
  {
    if forall d :: d in n.index ==> d <= |delayed| {
      assert forall b :: 0 <= b < |n.metas| && n.metas[b].delayedCount > 0 ==> n.metas[b].delayedCount in n.index;
    } else {
      var d := NextKey(n.index, |delayed|);
      var count := n.index[d];
      assert IsFirst(n.metas, d, count);
      assert n.metas[count].delayedCount > |delayed|;
      assert count > 0 ==> n.metas[0].delayedCount <= |delayed| by {
        if count > 0 {
          var e := n.metas[0].delayedCount;
          assert e <= d && e != d;
          assert e > 0 ==> e in n.index;
        }
      }
      PrevIsInside(n, count);
    }
  }

  // ---- Delayed messages

  /** The message of the call is the one stored at its place. */
  predicate Stored(delayed: seq<Entry>, pos: nat, msgs: seq<DelayedMessage>, i: nat)
    requires i < |msgs|
  {
    pos + i < |delayed| && delayed[pos + i].acc == AfterAcc(msgs[i].before, msgs[i].message)
  }

  /** A message is the next one, and was made over the one before it. */
  predicate Next(acc: Acc, pos: nat, msgs: seq<DelayedMessage>, i: nat)
    requires i < |msgs|
  {
    && msgs[i].message.header.requestId == Some(pos + i)
    && msgs[i].before == if i == 0 then acc else AfterAcc(msgs[i - 1].before, msgs[i - 1].message)
  }

  /** Messages continue the chain exactly if each of them is the next. */
  lemma {:induction false} ContinuesIff(acc: Acc, pos: nat, msgs: seq<DelayedMessage>)
    ensures Continues(acc, pos, msgs) <==> forall i :: 0 <= i < |msgs| ==> Next(acc, pos, msgs, i)
    decreases |msgs|
  {
    if msgs != [] {
      var rest, next, pos1 := msgs[1..], AfterAcc(acc, msgs[0].message), pos + 1;
      ContinuesIff(next, pos1, rest);
      assert msgs[0].before == acc ==>
        forall i :: 0 < i < |msgs| ==> Next(acc, pos, msgs, i) == Next(next, pos1, rest, i - 1);
      if Continues(acc, pos, msgs) {
        assert Next(acc, pos, msgs, 0);
      } else if forall i :: 0 <= i < |msgs| ==> Next(acc, pos, msgs, i) {
        assert Next(acc, pos, msgs, 0);
        forall i | 0 <= i < |rest| ensures Next(next, pos1, rest, i) {
          assert Next(acc, pos, msgs, i + 1);
        }
      }
    }
  }

  lemma {:induction false} LastSettlesAll(delayed: seq<Entry>, acc: Acc, pos: nat, msgs: seq<DelayedMessage>, i: nat)
    requires Chained(delayed) && i < |msgs| && Continues(acc, pos, msgs) && Stored(delayed, pos, msgs, |msgs| - 1)
    ensures Stored(delayed, pos, msgs, i)
    decreases |msgs| - i
  {
    if i < |msgs| - 1 {
      LastSettlesAll(delayed, acc, pos, msgs, i + 1);
      ContinuesIff(acc, pos, msgs);
      assert Next(acc, pos, msgs, i + 1) && Linked(delayed, pos + i + 1);
      hide Continues;
    }
  }

  lemma StoredContinue(delayed: seq<Entry>, pos: nat, msgs: seq<DelayedMessage>)
    requires Chained(delayed) && msgs != [] && forall i :: 0 <= i < |msgs| ==> Stored(delayed, pos, msgs, i)
    ensures pos <= |delayed| && Continues(PrevAcc(delayed, pos), pos, msgs)
  {
    assert Stored(delayed, pos, msgs, 0);
    var acc := PrevAcc(delayed, pos);
    forall i | 0 <= i < |msgs| ensures Next(acc, pos, msgs, i) {
      assert Stored(delayed, pos, msgs, i) && Linked(delayed, pos + i);
      if i > 0 {
        assert Stored(delayed, pos, msgs, i - 1);
      }
    }
    ContinuesIff(acc, pos, msgs);
  }

  lemma DelayedWritten(n: Node, msgs: seq<DelayedMessage>, hardReorg: bool, execOk: bool)
    requires AddDelayed(n, msgs, hardReorg, execOk).Some? && msgs != []
    ensures msgs[0].message.header.requestId.Some?
    ensures var (n1, pos) := (AddDelayed(n, msgs, hardReorg, execOk).value, msgs[0].message.header.requestId.value);
            if !hardReorg && AlreadyStored(n.delayed, pos, msgs) then n1 == n
            else
              && pos <= |n.delayed| && Continues(PrevAcc(n.delayed, pos), pos, msgs)
              && n1.delayed == n.delayed[..pos] + Entries(msgs)
  {
    hide Continues, Entries, KeysUpTo, NextKey;
  }

  /** Delayed messages are added exactly if the last of them is there already and need not be written again, or there
      is no gap before them, each is the next, and the inbox they make is taken. */
  lemma DelayedIsTaken(n: Node, msgs: seq<DelayedMessage>, hardReorg: bool, execOk: bool)
    requires Inv(n) && msgs != []
    ensures AddDelayed(n, msgs, hardReorg, execOk).Some? <==>
            && msgs[0].message.header.requestId.Some?
            && var pos := msgs[0].message.header.requestId.value;
            || (!hardReorg && Stored(n.delayed, pos, msgs, |msgs| - 1))
            || (&& pos <= |n.delayed|
                && (forall i :: 0 <= i < |msgs| ==> Next(PrevAcc(n.delayed, pos), pos, msgs, i))
                && ((forall b :: 0 <= b < |n.metas| ==> n.metas[b].delayedCount <= pos + |msgs|) ||
                     (execOk && n.metas[0].delayedCount <= pos + |msgs|)))
  {
    hide Continues, SetDelayed, Inv, Next;
    if msgs[0].message.header.requestId.Some? {
      var pos := msgs[0].message.header.requestId.value;
      if pos <= |n.delayed| {
        ContinuesIff(PrevAcc(n.delayed, pos), pos, msgs);
        DelayedInboxIsTaken(n, n.delayed[..pos] + Entries(msgs), true, execOk);
      }
    }
  }

  /**
   * After a successful add the last message is the one stored at its place, and unless it was there already, nothing
   * comes after it and what came before is as it was. All the messages are stored exactly if they continue the stored
   * chain; the call does not look when the last of them is there already.
   */
  lemma AddedDelayed(n: Node, msgs: seq<DelayedMessage>, hardReorg: bool, execOk: bool)
    requires Inv(n) && AddDelayed(n, msgs, hardReorg, execOk).Some? && msgs != []
    ensures msgs[0].message.header.requestId.Some?
    ensures var (n1, pos) := (AddDelayed(n, msgs, hardReorg, execOk).value, msgs[0].message.header.requestId.value);
            && Stored(n1.delayed, pos, msgs, |msgs| - 1)
            && pos <= |n1.delayed|
            && ((forall i :: 0 <= i < |msgs| ==> Stored(n1.delayed, pos, msgs, i)) <==>
                 Continues(PrevAcc(n1.delayed, pos), pos, msgs))
            && (hardReorg || !AlreadyStored(n.delayed, pos, msgs) ==>
                 && |n1.delayed| == pos + |msgs| && pos <= |n.delayed| && n1.delayed[..pos] == n.delayed[..pos]
                 && forall i :: 0 <= i < |msgs| ==>
                      Stored(n1.delayed, pos, msgs, i) && n1.delayed[pos + i].message == msgs[i].message)
  {
    DelayedWritten(n, msgs, hardReorg, execOk);
    AddDelayedKeepsInv(n, msgs, hardReorg, execOk);
    hide AddDelayed, Continues;
    var n1, pos := AddDelayed(n, msgs, hardReorg, execOk).value, msgs[0].message.header.requestId.value;
    if forall i :: 0 <= i < |msgs| ==> Stored(n1.delayed, pos, msgs, i) {
      StoredContinue(n1.delayed, pos, msgs);
    }
    if Continues(PrevAcc(n1.delayed, pos), pos, msgs) {
      forall i | 0 <= i < |msgs| ensures Stored(n1.delayed, pos, msgs, i) {
        LastSettlesAll(n1.delayed, PrevAcc(n1.delayed, pos), pos, msgs, i);
      }
    }
  }

  function Deposit(id: nat, data: bytes): L1Message {
    L1Message(Header(L1_KIND_L2_MESSAGE, 0, 0, 0, Some(id), None), data, None)
  }

  /** Two messages of which the second is stored already: the add succeeds, whatever the first one is. */
  lemma OnlyTheLastIsCompared()
    ensures var first := AfterAcc(ZeroAcc, Deposit(0, []));
            var stored := [Entry(first, Deposit(0, [])), Entry(AfterAcc(first, Deposit(1, [])), Deposit(1, []))];
            var n := GENESIS.(delayed := stored);
            var msgs := [DelayedMessage(ZeroAcc, Deposit(0, [1])), DelayedMessage(first, Deposit(1, []))];
            && Inv(n) && AddDelayed(n, msgs, false, true) == Some(n)
            && !Stored(n.delayed, 0, msgs, 0)
  {
    var first := AfterAcc(ZeroAcc, Deposit(0, []));
    var stored := [Entry(first, Deposit(0, [])), Entry(AfterAcc(first, Deposit(1, [])), Deposit(1, []))];
    assert Linked(stored, 0) && Linked(stored, 1);
    hide SetDelayed;
  }
}

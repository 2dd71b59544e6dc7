/** What the message log promises: the feed only ever extends it, confirmed messages settle it, and
    every message stands where its source said it would. */
module StreamerProperties {
  import opened Types
  import opened Streamer

  lemma {:induction false} DuplicatesCounted(log: seq<MessageWithMeta>, pos: nat, msgs: seq<MessageWithMeta>)
    ensures var k := CountDuplicates(log, pos, msgs);
            && (forall i :: 0 <= i < k ==> pos + i < |log| && Duplicate(log[pos + i], msgs[i]))
            && (k < |msgs| && pos + k < |log| ==> !Duplicate(log[pos + k], msgs[k]))
    decreases |msgs|
  {
    var k := CountDuplicates(log, pos, msgs);
    if k > 0 {
      DuplicatesCounted(log, pos + 1, msgs[1..]);
      forall i | 0 <= i < k
        ensures pos + i < |log| && Duplicate(log[pos + i], msgs[i])
      {
        assert i > 0 ==> msgs[i] == msgs[1..][i - 1] && log[pos + i] == log[pos + 1 + (i - 1)];
      }
      assert k < |msgs| ==> msgs[k] == msgs[1..][k - 1];
    }
  }

  /** Messages are duplicates exactly if they are the same but for gas costs, and not both of these are there and
      differ. */
  lemma DuplicateIff(have: MessageWithMeta, next: MessageWithMeta)
    ensures Duplicate(have, next) <==>
            && have.delayedRead == next.delayedRead && have.message.Some? == next.message.Some?
            && (have.message.Some? ==>
                 var (a, b) := (have.message.value, next.message.value);
                 && a.header == b.header && a.l2msg == b.l2msg
                 && (a.batchGasCost == b.batchGasCost || a.batchGasCost == None || b.batchGasCost == None))
  {
  }

  // ---- Unconfirmed messages

  /** Unconfirmed messages, with the feed messages they bring along, only ever extend the log. */
  lemma UnconfirmedOnlyAppends(s: Stream, pos: nat, msgs: seq<MessageWithMeta>, execOk: bool)
    requires Add(s, pos, false, msgs, execOk).Ok?
    ensures pos <= |s.log|
    ensures var s1 := Add(s, pos, false, msgs, execOk).value;
            && s1.log == WithUnconfirmed(s.log, pos, msgs + QueueTail(s.queue, pos, pos + |msgs|))
            && s.log <= s1.log
  {
    assert MergeGas(s.log, pos, msgs[..0]) == s.log;
    assert msgs[0..] == msgs;
    var p := MakePlan(s, pos, false, msgs);
    assert p.pending[|p.pending|..] == [];
    assert s.log[..|s.log|] == s.log;
  }

  /** Whatever the feed sends, it never changes a message already in the log. */
  lemma FeedOnlyAppends(s: Stream, feed: seq<FeedMessage>, maxQueue: nat, execOk: bool)
    ensures s.log <= AddFeed(s, feed, maxQueue, execOk).0.log
  {
    hide Add;
    hide CountDuplicates;
    hide Enqueue;
    if feed != [] && GoodFeed(feed) {
      var k := CountDuplicates(s.log, feed[0].sequenceNumber, FeedContents(feed));
      var pos, msgs := feed[0].sequenceNumber + k, FeedContents(feed)[k..];
      if msgs != [] {
        var (q, start) := Enqueue(s.queue, pos, msgs, pos < |s.log|, maxQueue);
        if Add(s.(queue := q), start, false, [], execOk).Ok? {
          UnconfirmedOnlyAppends(s.(queue := q), start, [], execOk);
        }
      }
    }
  }

  // ---- Confirmed messages

  /** The log that confirmed messages and the feed messages behind them give. */
  ghost function Settled(s: Stream, pos: nat, msgs: seq<MessageWithMeta>): seq<MessageWithMeta>
    requires pos <= |s.log|
  {
    WithUnconfirmed(WithConfirmed(s.log, pos, msgs), pos + |msgs|,
                    QueueTail(s.queue, pos + CountDuplicates(s.log, pos, msgs), pos + |msgs|))
  }

  lemma NewMessagesSettle(s: Stream, pos: nat, msgs: seq<MessageWithMeta>, execOk: bool)
    requires pos <= |s.log| && CountDuplicates(s.log, pos, msgs) < |msgs|
    requires Add(s, pos, true, msgs, execOk).Ok?
    ensures pos + |msgs| <= |WithConfirmed(s.log, pos, msgs)|
    ensures Add(s, pos, true, msgs, execOk).value.log == Settled(s, pos, msgs)
  {
    hide CountDuplicates, QueueTail, QueueAfter, Steps, MakePlan;
    var k := CountDuplicates(s.log, pos, msgs);
    var tail := QueueTail(s.queue, pos + k, pos + |msgs|);
    var merged := MergeGas(s.log, pos, msgs[..k]);
    var confirmed := WithConfirmed(s.log, pos, msgs);
    hide MergeGas;
    NewPlan(s, pos, msgs);
    assert (msgs[k..] + tail)[0..] == msgs[k..] + tail && tail[0..] == tail;
    assert Add(s, pos, true, msgs, execOk).value.log == merged[..pos + k] + (msgs[k..] + tail);
    NoDuplicatesPastEnd(confirmed, tail);
    assert WithUnconfirmed(confirmed, pos + |msgs|, tail) == confirmed + tail;
  }

  lemma KnownPlan(s: Stream, pos: nat, msgs: seq<MessageWithMeta>)
    requires CountDuplicates(s.log, pos, msgs) == |msgs|
    ensures var tail := QueueTail(s.queue, pos + |msgs|, pos + |msgs|);
            MakePlan(s, pos, true, msgs) ==
            Plan(|msgs|, pos + |msgs|, tail, false, CountDuplicates(s.log, pos + |msgs|, tail))
  {
    hide CountDuplicates, QueueTail;
    var tail := QueueTail(s.queue, pos + |msgs|, pos + |msgs|);
    assert msgs[|msgs|..] + tail == tail;
  }

  lemma KnownPlanCommits(s: Stream, pos: nat, msgs: seq<MessageWithMeta>, p: Plan, execOk: bool)
    requires p.known <= |msgs| && p.start == pos + p.known && p.held <= |p.pending| && p.start + p.held <= |s.log|
    requires !p.isNew && Commit(s, pos, msgs, p, execOk).Ok?
    ensures var base := MergeGas(s.log, pos, msgs[..p.known]);
            Commit(s, pos, msgs, p, execOk).value.log ==
            if p.start + p.held < |s.log| then base else base + p.pending[p.held..]
  {
    hide QueueAfter, Steps;
    var base := MergeGas(s.log, pos, msgs[..p.known]);
    hide MergeGas;
    assert base[..|base|] == base && base + [] == base;
  }

  lemma KnownMessagesSettle(s: Stream, pos: nat, msgs: seq<MessageWithMeta>, execOk: bool)
    requires pos <= |s.log| && CountDuplicates(s.log, pos, msgs) == |msgs|
    requires Add(s, pos, true, msgs, execOk).Ok?
    ensures pos + |msgs| <= |WithConfirmed(s.log, pos, msgs)|
    ensures Add(s, pos, true, msgs, execOk).value.log == Settled(s, pos, msgs)
  {
    hide MergeGas, CountDuplicates, QueueTail, QueueAfter, Steps, Commit, KeepGas, MakePlan;
    var k := CountDuplicates(s.log, pos, msgs);
    var tail := QueueTail(s.queue, pos + k, pos + |msgs|);
    var merged := MergeGas(s.log, pos, msgs[..k]);
    SameDuplicates(s.log, merged, pos + k, tail);
    var held := CountDuplicates(merged, pos + k, tail);
    KnownPlan(s, pos, msgs);
    KnownPlanCommits(s, pos, msgs, Plan(k, pos + k, tail, false, held), execOk);
  }

  /** A confirmed add leaves the confirmed log, extended by the feed messages that follow it. */
  lemma ConfirmedSettlesLog(s: Stream, pos: nat, msgs: seq<MessageWithMeta>, execOk: bool)
    requires Add(s, pos, true, msgs, execOk).Ok?
    ensures pos <= |s.log|
    ensures var s1 := Add(s, pos, true, msgs, execOk).value;
            var k := CountDuplicates(s.log, pos, msgs);
            var confirmed := WithConfirmed(s.log, pos, msgs);
            && pos + |msgs| <= |confirmed|
            && s1.log == WithUnconfirmed(confirmed, pos + |msgs|, QueueTail(s.queue, pos + k, pos + |msgs|))
  {
    hide Commit, MakePlan, WithConfirmed, WithUnconfirmed, QueueTail;
    if CountDuplicates(s.log, pos, msgs) < |msgs| {
      NewMessagesSettle(s, pos, msgs, execOk);
    } else {
      KnownMessagesSettle(s, pos, msgs, execOk);
    }
  }

  lemma NoDuplicatesPastEnd(log: seq<MessageWithMeta>, msgs: seq<MessageWithMeta>)
    ensures CountDuplicates(log, |log|, msgs) == 0
  {
  }

  /** Counting duplicates looks only at the log from the position on. */
  lemma {:induction false} SameDuplicates(a: seq<MessageWithMeta>, b: seq<MessageWithMeta>, pos: nat,
      msgs: seq<MessageWithMeta>)
    requires |a| == |b| && forall i :: pos <= i < |a| ==> a[i] == b[i]
    ensures CountDuplicates(a, pos, msgs) == CountDuplicates(b, pos, msgs)
    decreases |msgs|
  {
    if msgs != [] { SameDuplicates(a, b, pos + 1, msgs[1..]); }
  }

  /** Equal but for a batch gas cost. */
  predicate SameMessage(a: MessageWithMeta, b: MessageWithMeta) {
    StripGas(a) == StripGas(b)
  }

  /** The confirmed log: the prefix stays, the given messages stand from the position on (with any
      gas cost they carry), the old log is cut only where it first contradicts them, and no gas cost is lost. */
  lemma ConfirmedContents(log: seq<MessageWithMeta>, pos: nat, msgs: seq<MessageWithMeta>)
    requires pos <= |log|
    ensures var r := WithConfirmed(log, pos, msgs);
            var k := CountDuplicates(log, pos, msgs);
            && pos + |msgs| <= |r|
            && r[..pos] == log[..pos]
            && (forall i :: 0 <= i < |msgs| ==> SameMessage(r[pos + i], msgs[i]))
            && (forall i :: 0 <= i < |msgs| && HasGas(msgs[i]) ==> r[pos + i] == msgs[i])
            && (forall i :: 0 <= i < |log| && i < pos + k ==> SameMessage(r[i], log[i]))
            && (forall i :: 0 <= i < |log| && i < pos + k && HasGas(log[i]) ==> r[i] == log[i])
            && (k < |msgs| ==> |r| == pos + |msgs|)
            && (k == |msgs| ==> |r| == |log| && r[pos + k..] == log[pos + k..])
            && (k < |msgs| && pos + k < |log| ==> !Duplicate(log[pos + k], msgs[k]))
  {
    DuplicatesCounted(log, pos, msgs);
    var k := CountDuplicates(log, pos, msgs);
    var merged := MergeGas(log, pos, msgs[..k]);
    var r := WithConfirmed(log, pos, msgs);
    forall i | 0 <= i < |msgs|
      ensures SameMessage(r[pos + i], msgs[i]) && (HasGas(msgs[i]) ==> r[pos + i] == msgs[i])
    {
      if i < k {
        assert r[pos + i] == merged[pos + i] == KeepGas(log[pos + i], msgs[i]);
        DuplicateKept(log[pos + i], msgs[i]);
      } else {
        assert r[pos + i] == msgs[i];
      }
    }
    forall i | 0 <= i < |log| && i < pos + k
      ensures SameMessage(r[i], log[i]) && (HasGas(log[i]) ==> r[i] == log[i])
    {
      if i >= pos { DuplicateKept(log[i], msgs[i - pos]); }
    }
  }

  lemma DuplicateKept(have: MessageWithMeta, next: MessageWithMeta)
    requires Duplicate(have, next)
    ensures SameMessage(have, next) && SameMessage(KeepGas(have, next), next) && SameMessage(KeepGas(have, next), have)
    ensures HasGas(next) ==> KeepGas(have, next) == next
    ensures HasGas(have) ==> KeepGas(have, next) == have
  {
  }

  /** Cutting the log: to any length but zero that it has, if the execution engine follows. */
  lemma TruncateIff(s: Stream, count: nat, execOk: bool)
    ensures var r := Truncate(s, count, execOk);
            && (r.Ok? <==> 0 < count <= |s.log| && execOk)
            && (r.Ok? ==> r.value.log == s.log[..count] && r.value.queue == s.queue)
            && (r == Err(CannotReorgInit) <==> count == 0)
            && (r == Err(MissingPrevious) <==> count > |s.log|)
  {
  }

  /** A confirmed add, whether or not it ended early: the log before the position is untouched, and
      the given messages stand from it on, up to gas costs. */
  lemma ConfirmedLog(s: Stream, pos: nat, msgs: seq<MessageWithMeta>, execOk: bool)
    requires AddConfirmed(s, pos, msgs, execOk).Ok? && pos <= |s.log|
    ensures var log := AddConfirmed(s, pos, msgs, execOk).value.log;
            && pos + |msgs| <= |log|
            && log[..pos] == s.log[..pos]
            && forall i :: 0 <= i < |msgs| ==> SameMessage(log[pos + i], msgs[i])
  {
    hide CountDuplicates;
    hide Add;
    hide WithConfirmed;
    DuplicatesCounted(s.log, pos, msgs);
    if CountDuplicates(s.log, pos, msgs) == |msgs| {
      forall i | 0 <= i < |msgs| ensures SameMessage(s.log[pos + i], msgs[i]) {
        DuplicateKept(s.log[pos + i], msgs[i]);
      }
    } else {
      ConfirmedSettlesLog(s, pos, msgs, execOk);
      ConfirmedContents(s.log, pos, msgs);
      var confirmed := WithConfirmed(s.log, pos, msgs);
      var log := AddConfirmed(s, pos, msgs, execOk).value.log;
      assert confirmed <= log;
      assert log[..pos] == confirmed[..pos];
    }
  }

  // ---- Positions named by the feed

  /** Pairs of a position and a message, as the feed announced them. */
  type Named = set<(nat, MessageWithMeta)>

  ghost predicate QueueNamed(q: Queue, named: Named) {
    forall i :: 0 <= i < |q.msgs| ==> (q.pos + i, q.msgs[i]) in named
  }

  ghost function Announced(feed: seq<FeedMessage>): Named {
    set i | 0 <= i < |feed| :: (feed[i].sequenceNumber, feed[i].message)
  }

  /** Every message that a feed call adds to the log stands at the position the feed named for it,
      in this call or an earlier one; what remains queued is named too. */
  lemma FeedLandsWhereNamed(s: Stream, feed: seq<FeedMessage>, maxQueue: nat, execOk: bool, named: Named)
    requires QueueNamed(s.queue, named)
    ensures var s1 := AddFeed(s, feed, maxQueue, execOk).0;
            var all := named + Announced(feed);
            && QueueNamed(s1.queue, all)
            && forall j :: |s.log| <= j < |s1.log| ==> (j, s1.log[j]) in all
  {
    hide Add;
    hide CountDuplicates;
    hide Enqueue;
    hide QueueNamed;
    var all := named + Announced(feed);
    StillNamed(s.queue, named, all);
    if feed != [] && GoodFeed(feed) {
      var k := CountDuplicates(s.log, feed[0].sequenceNumber, FeedContents(feed));
      var pos, msgs := feed[0].sequenceNumber + k, FeedContents(feed)[k..];
      if msgs != [] {
        forall i | 0 <= i < |msgs| ensures (pos + i, msgs[i]) in all {
          assert msgs[i] == feed[k + i].message;
        }
        var (q, start) := Enqueue(s.queue, pos, msgs, pos < |s.log|, maxQueue);
        EnqueueNamed(s.queue, pos, msgs, pos < |s.log|, maxQueue, all);
        if Add(s.(queue := q), start, false, [], execOk).Ok? {
          UnconfirmedLandsWhereNamed(s.(queue := q), start, [], execOk, all);
        }
      }
    }
  }

  lemma StillNamed(q: Queue, named: Named, all: Named)
    requires QueueNamed(q, named) && named <= all
    ensures QueueNamed(q, all)
  {
  }

  lemma EnqueueNamed(q: Queue, pos: nat, msgs: seq<MessageWithMeta>, reorg: bool, maxQueue: nat, named: Named)
    requires QueueNamed(q, named)
    requires forall i :: 0 <= i < |msgs| ==> (pos + i, msgs[i]) in named
    ensures QueueNamed(Enqueue(q, pos, msgs, reorg, maxQueue).0, named)
  {
  }

  lemma QueueAfterNamed(q: Queue, start: nat, after: nat, named: Named)
    requires QueueNamed(q, named)
    ensures QueueNamed(QueueAfter(q, start, after), named)
    ensures var tail := QueueTail(q, start, after);
            forall i :: 0 <= i < |tail| ==> (after + i, tail[i]) in named
  {
    var tail := QueueTail(q, start, after);
    forall i | 0 <= i < |tail| ensures (after + i, tail[i]) in named {
      assert tail[i] == q.msgs[after - q.pos + i];
    }
    var q1 := QueueAfter(q, start, after);
    forall i | 0 <= i < |q1.msgs| ensures (q1.pos + i, q1.msgs[i]) in named {
      if QueueApplies(q, start, after) { assert q1.msgs[i] == q.msgs[q1.pos - q.pos + i]; }
    }
  }

  /** Adding unconfirmed messages: each new log entry is the given message for its position or a
      queued one the feed named there. */
  lemma UnconfirmedLandsWhereNamed(s: Stream, pos: nat, msgs: seq<MessageWithMeta>, execOk: bool, named: Named)
    requires QueueNamed(s.queue, named)
    requires Add(s, pos, false, msgs, execOk).Ok?
    ensures var s1 := Add(s, pos, false, msgs, execOk).value;
            && QueueNamed(s1.queue, named)
            && forall j :: |s.log| <= j < |s1.log| ==>
                 (pos <= j < pos + |msgs| && s1.log[j] == msgs[j - pos]) || (j, s1.log[j]) in named
  {
    UnconfirmedOnlyAppends(s, pos, msgs, execOk);
    var after := pos + |msgs|;
    QueueAfterNamed(s.queue, pos, after, named);
    UnconfirmedQueue(s, pos, msgs, execOk);
    AppendedLandWhereNamed(s.log, pos, msgs, QueueTail(s.queue, pos, after), named);
    hide *;
  }

  lemma AppendedLandWhereNamed(log: seq<MessageWithMeta>, pos: nat, msgs: seq<MessageWithMeta>,
                               tail: seq<MessageWithMeta>, named: Named)
    requires pos <= |log|
    requires forall i :: 0 <= i < |tail| ==> (pos + |msgs| + i, tail[i]) in named
    ensures var r := WithUnconfirmed(log, pos, msgs + tail);
            forall j :: |log| <= j < |r| ==>
              (pos <= j < pos + |msgs| && r[j] == msgs[j - pos]) || (j, r[j]) in named
  {
    hide CountDuplicates;
    var after := pos + |msgs|;
    var k := CountDuplicates(log, pos, msgs + tail);
    var r := WithUnconfirmed(log, pos, msgs + tail);
    forall j | |log| <= j < |r|
      ensures (pos <= j < after && r[j] == msgs[j - pos]) || (j, r[j]) in named
    {
      assert r[j] == (msgs + tail)[k..][j - |log|] == (msgs + tail)[j - pos];
      if j >= after { assert r[j] == tail[j - after]; }
    }
  }

  lemma UnconfirmedQueue(s: Stream, pos: nat, msgs: seq<MessageWithMeta>, execOk: bool)
    requires Add(s, pos, false, msgs, execOk).Ok?
    ensures var q := Add(s, pos, false, msgs, execOk).value.queue;
            q == s.queue || q == QueueAfter(s.queue, pos, pos + |msgs|)
  {
    hide CountDuplicates;
    hide QueueAfter;
    hide QueueTail;
    hide MergeGas;
    hide Steps;
  }

  /** A confirmed add: entries beyond the confirmed messages that were not in the log before are
      queued ones the feed named for their positions. */
  lemma ConfirmedLandsWhereNamed(s: Stream, pos: nat, msgs: seq<MessageWithMeta>, execOk: bool, named: Named)
    requires QueueNamed(s.queue, named)
    requires Add(s, pos, true, msgs, execOk).Ok?
    ensures var s1 := Add(s, pos, true, msgs, execOk).value;
            && QueueNamed(s1.queue, named)
            && forall j :: pos + |msgs| <= j < |s1.log| ==>
                 (j < |s.log| && s1.log[j] == s.log[j]) || (j, s1.log[j]) in named
  {
    hide Add;
    hide WithConfirmed;
    hide WithUnconfirmed;
    hide CountDuplicates;
    hide QueueTail;
    hide QueueAfter;
    hide QueueNamed;
    ConfirmedSettlesLog(s, pos, msgs, execOk);
    var k, after := CountDuplicates(s.log, pos, msgs), pos + |msgs|;
    var tail, confirmed := QueueTail(s.queue, pos + k, after), WithConfirmed(s.log, pos, msgs);
    ConfirmedContents(s.log, pos, msgs);
    QueueAfterNamed(s.queue, pos + k, after, named);
    ConfirmedQueue(s, pos, msgs, execOk);
    ExtensionNamed(s.log, confirmed, after, tail, named);
  }

  lemma ConfirmedQueue(s: Stream, pos: nat, msgs: seq<MessageWithMeta>, execOk: bool)
    requires Add(s, pos, true, msgs, execOk).Ok?
    ensures var q := Add(s, pos, true, msgs, execOk).value.queue;
            q == s.queue || q == QueueAfter(s.queue, pos + CountDuplicates(s.log, pos, msgs), pos + |msgs|)
  {
    hide CountDuplicates;
    hide QueueAfter;
    hide QueueTail;
    hide MergeGas;
    hide Steps;
  }

  lemma ExtensionNamed(log: seq<MessageWithMeta>, confirmed: seq<MessageWithMeta>, after: nat,
                       tail: seq<MessageWithMeta>, named: Named)
    requires after <= |confirmed|
    requires |confirmed| == after || (|confirmed| == |log| && confirmed[after..] == log[after..])
    requires forall i :: 0 <= i < |tail| ==> (after + i, tail[i]) in named
    ensures var r := WithUnconfirmed(confirmed, after, tail);
            forall j :: after <= j < |r| ==> (j < |log| && r[j] == log[j]) || (j, r[j]) in named
  {
    var h := CountDuplicates(confirmed, after, tail);
    var r := WithUnconfirmed(confirmed, after, tail);
    forall j | after <= j < |r|
      ensures (j < |log| && r[j] == log[j]) || (j, r[j]) in named
    {
      if j < |confirmed| {
        assert confirmed[j] == confirmed[after..][j - after] == log[after..][j - after];
      } else {
        assert r[j] == tail[h..][j - |confirmed|] == tail[j - after];
      }
    }
  }

  // ---- Delayed counts

  lemma {:induction false} StepsSplit(last: u64, a: seq<MessageWithMeta>, b: seq<MessageWithMeta>)
    ensures Steps(last, a + b) <==> Steps(last, a) && Steps(if a == [] then last else a[|a| - 1].delayedRead, b)
    decreases |a|
  {
    if a == [] {
      assert a + b == b;
    } else {
      assert (a + b)[1..] == a[1..] + b;
      StepsSplit(a[0].delayedRead, a[1..], b);
    }
  }

  lemma {:induction false} StepsOfSameMessages(last: u64, a: seq<MessageWithMeta>, b: seq<MessageWithMeta>)
    requires |a| == |b| && forall i :: 0 <= i < |a| ==> SameMessage(a[i], b[i])
    ensures Steps(last, a) == Steps(last, b)
    decreases |a|
  {
    if a != [] {
      assert SameMessage(a[0], b[0]);
      assert forall i :: 0 <= i < |a[1..]| ==> a[1..][i] == a[i + 1] && b[1..][i] == b[i + 1];
      StepsOfSameMessages(a[0].delayedRead, a[1..], b[1..]);
    }
  }

  /** The log's own delayed counts never jump, and it holds no nil message. */
  predicate Stepped(log: seq<MessageWithMeta>) {
    Steps(0, log)
  }

  lemma SteppedPrefix(log: seq<MessageWithMeta>, n: nat)
    requires Stepped(log) && n <= |log|
    ensures Stepped(log[..n]) && Steps(DelayedBefore(log, n), log[n..])
  {
    assert log == log[..n] + log[n..];
    StepsSplit(0, log[..n], log[n..]);
  }

  lemma MergedSteps(log: seq<MessageWithMeta>, pos: nat, msgs: seq<MessageWithMeta>, n: nat)
    requires Stepped(log) && pos <= |log| && n <= |log|
    ensures var merged := MergeGas(log, pos, msgs[..CountDuplicates(log, pos, msgs)]);
            Stepped(merged[..n]) && DelayedBefore(merged, n) == DelayedBefore(log, n)
  {
    DuplicatesCounted(log, pos, msgs);
    var k := CountDuplicates(log, pos, msgs);
    var merged := MergeGas(log, pos, msgs[..k]);
    forall i | 0 <= i < |log| ensures SameMessage(merged[i], log[i]) {
      if pos <= i < pos + k {
        assert Duplicate(log[pos + (i - pos)], msgs[i - pos]);
        DuplicateKept(log[i], msgs[i - pos]);
      }
    }
    SteppedPrefix(log, n);
    StepsOfSameMessages(0, merged[..n], log[..n]);
  }

  /** Adding messages keeps delayed counts from jumping. */
  lemma AddKeepsSteps(s: Stream, pos: nat, confirmed: bool, msgs: seq<MessageWithMeta>, execOk: bool)
    requires Stepped(s.log) && Add(s, pos, confirmed, msgs, execOk).Ok?
    ensures Stepped(Add(s, pos, confirmed, msgs, execOk).value.log)
  {
    hide CountDuplicates;
    hide QueueTail;
    hide QueueAfter;
    hide Steps;
    var p := MakePlan(s, pos, confirmed, msgs);
    var at := p.start + p.held;
    var base := MergeGas(s.log, pos, msgs[..p.known]);
    if confirmed {
      MergedSteps(s.log, pos, msgs, |s.log|);
      MergedSteps(s.log, pos, msgs, at);
    } else {
      assert base == s.log;
      SteppedPrefix(s.log, at);
    }
    assert base[..|s.log|] == base;
    StepsSplit(0, base[..at], p.pending[p.held..]);
  }

  /** Confirmed messages whose counts follow on from the log are never rejected as a jump; only feed
      messages queued behind them can be, and exactly when their counts jump. */
  lemma ConfirmedNeverJump(s: Stream, pos: nat, msgs: seq<MessageWithMeta>, execOk: bool)
    requires pos <= |s.log| && Steps(DelayedBefore(s.log, pos), msgs)
    requires CountDuplicates(s.log, pos, msgs) < |msgs|
    ensures Add(s, pos, true, msgs, execOk) == Err(BadMessage) <==>
            !Steps(msgs[|msgs| - 1].delayedRead,
                   QueueTail(s.queue, pos + CountDuplicates(s.log, pos, msgs), pos + |msgs|))
  {
    hide Commit, MakePlan, CountDuplicates, QueueTail, Steps, DelayedBefore;
    var k := CountDuplicates(s.log, pos, msgs);
    var tail := QueueTail(s.queue, pos + k, pos + |msgs|);
    NewPlan(s, pos, msgs);
    NewPlanRejected(s, pos, msgs, MakePlan(s, pos, true, msgs), execOk);
    RemainingSteps(s.log, pos, msgs);
    StepsSplit(DelayedBefore(s.log, pos + k), msgs[k..], tail);
  }

  /** Why confirmed messages that are not all known are refused, exactly: a message before them is missing, they or the
      feed messages behind them jump, they change the very first message, or the execution engine does not follow. */
  lemma ConfirmedRefused(s: Stream, pos: nat, msgs: seq<MessageWithMeta>, execOk: bool)
    requires CountDuplicates(s.log, pos, msgs) < |msgs|
    ensures var r := AddConfirmed(s, pos, msgs, execOk);
            if pos > |s.log| then r == Err(MissingPrevious)
            else
              var changed := pos + CountDuplicates(s.log, pos, msgs);
              var news := msgs[changed - pos..] + QueueTail(s.queue, changed, pos + |msgs|);
              if !Steps(DelayedBefore(s.log, changed), news) then r == Err(BadMessage)
              else if changed == |s.log| then r.Ok?
              else if changed == 0 then r == Err(CannotReorgInit)
              else if !execOk then r == Err(ExecutionFailed)
              else r.Ok?
  {
    hide CountDuplicates, QueueTail, Steps, MergeGas, QueueAfter, DelayedBefore;
    if pos <= |s.log| {
      NewPlan(s, pos, msgs);
      var plan := MakePlan(s, pos, true, msgs);
      assert plan.pending[0..] == plan.pending;
    }
    hide MakePlan;
  }

  lemma NewPlan(s: Stream, pos: nat, msgs: seq<MessageWithMeta>)
    requires CountDuplicates(s.log, pos, msgs) < |msgs|
    ensures var k := CountDuplicates(s.log, pos, msgs);
            MakePlan(s, pos, true, msgs) ==
            Plan(k, pos + k, msgs[k..] + QueueTail(s.queue, pos + k, pos + |msgs|), true, 0)
  {
    hide CountDuplicates, QueueTail;
  }

  lemma NewPlanRejected(s: Stream, pos: nat, msgs: seq<MessageWithMeta>, p: Plan, execOk: bool)
    requires p.known <= |msgs| && p.start == pos + p.known <= |s.log| && p.isNew && p.held == 0
    ensures Commit(s, pos, msgs, p, execOk) == Err(BadMessage) <==> !Steps(DelayedBefore(s.log, p.start), p.pending)
  {
    hide MergeGas, QueueAfter, Steps, DelayedBefore;
    assert p.pending[0..] == p.pending;
  }

  lemma RemainingSteps(log: seq<MessageWithMeta>, pos: nat, msgs: seq<MessageWithMeta>)
    requires pos <= |log| && Steps(DelayedBefore(log, pos), msgs)
    ensures var k := CountDuplicates(log, pos, msgs);
            Steps(DelayedBefore(log, pos + k), msgs[k..])
  {
    DuplicatesCounted(log, pos, msgs);
    var k := CountDuplicates(log, pos, msgs);
    assert msgs == msgs[..k] + msgs[k..];
    StepsSplit(DelayedBefore(log, pos), msgs[..k], msgs[k..]);
    if k > 0 { DuplicateKept(log[pos + (k - 1)], msgs[k - 1]); }
  }
}

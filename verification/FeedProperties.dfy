/** What becomes of feed messages: when they are added to the log, when they wait, and what waits afterwards. */
module FeedProperties {
  import opened Types
  import opened Streamer
  import opened StreamerProperties

  const EMPTY: Queue := Queue([], 0, false)

  /** One past the position of the last message that waits. */
  function QueueEnd(q: Queue): nat {
    q.pos + |q.msgs|
  }

  /** The feed's messages, where it says they belong, and how many of them the log already has. */
  function FeedStart(feed: seq<FeedMessage>): nat
    requires feed != []
  {
    feed[0].sequenceNumber
  }

  function Known(s: Stream, feed: seq<FeedMessage>): nat
    requires feed != []
  {
    CountDuplicates(s.log, FeedStart(feed), FeedContents(feed))
  }

  /** The messages that are new, and where they start. */
  function News(s: Stream, feed: seq<FeedMessage>): seq<MessageWithMeta>
    requires feed != []
  {
    FeedContents(feed)[Known(s, feed)..]
  }

  function NewsStart(s: Stream, feed: seq<FeedMessage>): nat
    requires feed != []
  {
    FeedStart(feed) + Known(s, feed)
  }

  /** A feed call with something new. */
  predicate HasNews(s: Stream, feed: seq<FeedMessage>) {
    feed != [] && GoodFeed(feed) && Known(s, feed) < |feed|
  }

  /** Nothing new, or nothing sound, changes nothing. */
  lemma OldFeedIsIgnored(s: Stream, feed: seq<FeedMessage>, maxQueue: nat, execOk: bool)
    requires !HasNews(s, feed)
    ensures var (s1, err) := AddFeed(s, feed, maxQueue, execOk);
            s1 == s && (err.Some? <==> feed != [] && !GoodFeed(feed))
  {
    hide CountDuplicates, GoodFeed, Enqueue, Add;
  }

  /** A feed with a message missing, or not at its place, is refused. */
  lemma BadFeedIsRefused(s: Stream, feed: seq<FeedMessage>, maxQueue: nat, execOk: bool, i: nat)
    requires i < |feed|
    requires feed[i].message.message.None? || feed[i].sequenceNumber != FeedStart(feed) + i
    ensures AddFeed(s, feed, maxQueue, execOk) == (s, Some(BadFeed))
  {
    assert !GoodFeed(feed);
    hide CountDuplicates, Enqueue, Add;
  }

  /** How new messages meet the ones that wait: they take their place if none wait, if they start no later, if they are
      the first to contradict the log, or if they leave a gap; they join them, if there is room, if they follow on. */
  predicate Replaces(s: Stream, feed: seq<FeedMessage>)
    requires feed != []
  {
    var (q, pos) := (s.queue, NewsStart(s, feed));
    q.msgs == [] || (pos < |s.log| && !q.reorg) || pos <= q.pos || QueueEnd(q) != pos
  }

  lemma Enqueued(s: Stream, feed: seq<FeedMessage>, maxQueue: nat)
    requires HasNews(s, feed)
    ensures var (q, start) := Enqueue(s.queue, NewsStart(s, feed), News(s, feed), NewsStart(s, feed) < |s.log|,
                                      maxQueue);
            if Replaces(s, feed) then
              q == Queue(News(s, feed), NewsStart(s, feed), NewsStart(s, feed) < |s.log|) && q.pos == start
            else
              && q.pos == s.queue.pos == start && q.reorg == s.queue.reorg
              && q.msgs == s.queue.msgs +
                   if maxQueue == 0 || |s.queue.msgs| <= maxQueue then News(s, feed) else []
  {
    hide CountDuplicates, GoodFeed;
    assert s.queue.msgs + [] == s.queue.msgs;
  }

  lemma FeedByQueue(s: Stream, feed: seq<FeedMessage>, maxQueue: nat, execOk: bool)
    requires HasNews(s, feed)
    ensures var (q, start) := Enqueue(s.queue, NewsStart(s, feed), News(s, feed), NewsStart(s, feed) < |s.log|,
                                      maxQueue);
            AddFeed(s, feed, maxQueue, execOk) ==
            if q.reorg || q.msgs == [] || start > |s.log| then (s.(queue := q), None)
            else Outcome(s.(queue := q), Add(s.(queue := q), start, false, [], execOk))
  {
    hide CountDuplicates, GoodFeed, Enqueue, Add;
  }

  /** What becomes of waiting messages that leave no gap: if they repeat the end of the log and go on, the rest is added
      to it, provided the delayed counts follow on; if the log has them all or contradicts them, they stay. */
  function TriedQueue(s: Stream): (Stream, Option<StreamError>)
    requires s.queue.pos <= |s.log|
  {
    var q := s.queue;
    var k := CountDuplicates(s.log, q.pos, q.msgs);
    if q.pos + k < |s.log| || k == |q.msgs| then (s, None)
    else if Steps(DelayedBefore(s.log, |s.log|), q.msgs[k..]) then (Stream(s.log + q.msgs[k..], EMPTY), None)
    else (s, Some(BadMessage))
  }

  lemma QueueIsTried(s: Stream, execOk: bool)
    requires !s.queue.reorg && s.queue.pos <= |s.log|
    ensures Outcome(s, Add(s, s.queue.pos, false, [], execOk)) == TriedQueue(s)
  {
    hide Steps, DelayedBefore, CountDuplicates;
    var q := s.queue;
    assert QueueTail(q, q.pos, q.pos) == q.msgs;
    assert [] + q.msgs == q.msgs;
    var k := CountDuplicates(s.log, q.pos, q.msgs);
    assert MakePlan(s, q.pos, false, []) == Plan(0, q.pos, q.msgs, false, k);
    assert MergeGas(s.log, q.pos, []) == s.log && s.log[..|s.log|] == s.log;
    assert k == |q.msgs| ==> Steps(DelayedBefore(s.log, q.pos + k), q.msgs[k..]) by {
      assert q.msgs[|q.msgs|..] == [];
      NoSteps(DelayedBefore(s.log, q.pos + k));
    }
  }

  lemma NoSteps(last: u64)
    ensures Steps(last, [])
  {
  }

  /** New messages that start at the end of the log, and take the place of what waits, are added to it. */
  lemma FeedIsAdded(s: Stream, feed: seq<FeedMessage>, maxQueue: nat, execOk: bool)
    requires HasNews(s, feed) && NewsStart(s, feed) == |s.log| && Replaces(s, feed)
    ensures var news := News(s, feed);
            AddFeed(s, feed, maxQueue, execOk) ==
            if Steps(DelayedBefore(s.log, |s.log|), news) then (Stream(s.log + news, EMPTY), None)
            else (s.(queue := Queue(news, |s.log|, false)), Some(BadMessage))
  {
    hide CountDuplicates, GoodFeed, Enqueue, Add, Steps, NewsStart, Replaces;
    Enqueued(s, feed, maxQueue);
    FeedByQueue(s, feed, maxQueue, execOk);
    assert News(s, feed) != [];
    NoDuplicatesPastEnd(s.log, News(s, feed));
    assert News(s, feed)[0..] == News(s, feed);
    QueueIsTried(s.(queue := Queue(News(s, feed), |s.log|, false)), execOk);
  }

  /** New messages that follow ones that wait without a gap are tried together with them. */
  lemma FeedJoins(s: Stream, feed: seq<FeedMessage>, maxQueue: nat, execOk: bool)
    requires HasNews(s, feed) && !Replaces(s, feed) && s.queue.pos <= |s.log| && !s.queue.reorg
    ensures var joined := if maxQueue == 0 || |s.queue.msgs| <= maxQueue then News(s, feed) else [];
            AddFeed(s, feed, maxQueue, execOk) ==
            TriedQueue(s.(queue := s.queue.(msgs := s.queue.msgs + joined)))
  {
    assert s.queue.msgs != [];
    hide CountDuplicates, GoodFeed, Enqueue, Add, Steps, NewsStart, Replaces, TriedQueue, News;
    Enqueued(s, feed, maxQueue);
    FeedByQueue(s, feed, maxQueue, execOk);
    var joined := if maxQueue == 0 || |s.queue.msgs| <= maxQueue then News(s, feed) else [];
    QueueIsTried(s.(queue := s.queue.(msgs := s.queue.msgs + joined)), execOk);
  }

  /** New messages beyond the end of the log wait: behind the ones they follow, if there is room, or in their place. */
  lemma FeedWaits(s: Stream, feed: seq<FeedMessage>, maxQueue: nat, execOk: bool)
    requires HasNews(s, feed) && NewsStart(s, feed) > |s.log|
    requires !Replaces(s, feed) ==> s.queue.pos > |s.log|
    ensures NewsStart(s, feed) == FeedStart(feed) && News(s, feed) == FeedContents(feed)
    ensures AddFeed(s, feed, maxQueue, execOk) ==
            (s.(queue := if Replaces(s, feed) then Queue(FeedContents(feed), FeedStart(feed), false)
                         else if maxQueue == 0 || |s.queue.msgs| <= maxQueue
                         then s.queue.(msgs := s.queue.msgs + FeedContents(feed))
                         else s.queue), None)
  {
    assert Known(s, feed) == 0 && FeedContents(feed)[0..] == FeedContents(feed);
    hide CountDuplicates, GoodFeed, Enqueue, Add, Steps, Replaces;
    Enqueued(s, feed, maxQueue);
    FeedByQueue(s, feed, maxQueue, execOk);
    assert s.queue.msgs + [] == s.queue.msgs;
  }

  /** New messages that contradict the log leave it alone and wait for a reorganization, in the place of what waits; so
      do ones that follow messages that contradict it, behind them. */
  lemma FeedContradicts(s: Stream, feed: seq<FeedMessage>, maxQueue: nat, execOk: bool)
    requires HasNews(s, feed) && (NewsStart(s, feed) < |s.log| || (!Replaces(s, feed) && s.queue.reorg))
    ensures AddFeed(s, feed, maxQueue, execOk) ==
            (s.(queue := if Replaces(s, feed) then Queue(News(s, feed), NewsStart(s, feed), true)
                         else if maxQueue == 0 || |s.queue.msgs| <= maxQueue
                         then s.queue.(msgs := s.queue.msgs + News(s, feed))
                         else s.queue), None)
  {
    assert !Replaces(s, feed) ==> s.queue.reorg;
    hide CountDuplicates, GoodFeed, Enqueue, Add, Steps, Replaces;
    Enqueued(s, feed, maxQueue);
    FeedByQueue(s, feed, maxQueue, execOk);
    assert s.queue.msgs + [] == s.queue.msgs;
  }

  /** The plain case: a feed that starts at the end of the log, or repeats the end of it, while nothing waits. */
  lemma NextFeedIsAdded(s: Stream, feed: seq<FeedMessage>, maxQueue: nat, execOk: bool)
    requires feed != [] && GoodFeed(feed) && s.queue.msgs == []
    requires FeedStart(feed) <= |s.log| < FeedStart(feed) + |feed|
    requires forall i :: FeedStart(feed) <= i < |s.log| ==> Duplicate(s.log[i], feed[i - FeedStart(feed)].message)
    requires var news := FeedContents(feed)[|s.log| - FeedStart(feed)..];
             Steps(DelayedBefore(s.log, |s.log|), news)
    ensures var news := FeedContents(feed)[|s.log| - FeedStart(feed)..];
            AddFeed(s, feed, maxQueue, execOk) == (Stream(s.log + news, EMPTY), None)
  {
    DuplicatesCounted(s.log, FeedStart(feed), FeedContents(feed));
    var k := Known(s, feed);
    hide CountDuplicates, GoodFeed, Steps, AddFeed, Duplicate;
    assert FeedStart(feed) + k == |s.log|;
    FeedIsAdded(s, feed, maxQueue, execOk);
  }

  // ----- Confirmed messages and the queue -----

  /** Whether waiting messages take part when confirmed ones are written from a position to another: ones that
      contradict the log if the confirmed ones change it no later, others if they leave no gap. */
  predicate TakesPart(q: Queue, start: nat, after: nat) {
    if q.reorg then start <= q.pos else q.pos <= after
  }

  /**
   * What waits, when confirmed messages that are not all known are added: if it takes part, every waiting message past
   * the confirmed ones that leaves no gap is at its position in the log, and nothing waits any more but messages beyond
   * a gap, which no longer contradict the log; otherwise the log ends with the confirmed ones, and all of it waits on.
   */
  lemma ConfirmedMeetsQueue(s: Stream, pos: nat, msgs: seq<MessageWithMeta>, execOk: bool)
    requires pos <= |s.log| && CountDuplicates(s.log, pos, msgs) < |msgs|
    requires AddConfirmed(s, pos, msgs, execOk).Ok?
    ensures var (s1, q) := (AddConfirmed(s, pos, msgs, execOk).value, s.queue);
            var after, changed := pos + |msgs|, pos + CountDuplicates(s.log, pos, msgs);
            if TakesPart(q, changed, after) && q.pos <= after then
              && s1.queue == EMPTY && |s1.log| == Max(after, QueueEnd(q))
              && forall i :: after <= i < |s1.log| ==> s1.log[i] == q.msgs[i - q.pos]
            else
              && |s1.log| == after
              && s1.queue == if !TakesPart(q, changed, after) then q
                             else if q.msgs == [] then EMPTY else q.(reorg := false)
  {
    hide CountDuplicates, Steps, KeepGas;
    var k, after := CountDuplicates(s.log, pos, msgs), pos + |msgs|;
    var tail := QueueTail(s.queue, pos + k, after);
    NewPlan(s, pos, msgs);
    assert (msgs[k..] + tail)[0..] == msgs[k..] + tail;
    hide MakePlan;
    var base := MergeGas(s.log, pos, msgs[..k]);
    hide MergeGas;
    var s1 := AddConfirmed(s, pos, msgs, execOk).value;
    assert s1 == Stream(base[..pos + k] + (msgs[k..] + tail), QueueAfter(s.queue, pos + k, after));
  }
}

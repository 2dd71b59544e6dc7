/** The transaction streamer: the node's message log, and the queue of feed messages that wait for
    their place in it. Confirmed messages come from the parent chain and may reorganize the log;
    unconfirmed ones come from the feed or another sequencer and may only extend it. */
module Streamer {
  import opened Types

  datatype FeedMessage = FeedMessage(sequenceNumber: nat, message: MessageWithMeta)

  datatype StreamError = MissingPrevious | BadMessage | CannotReorgInit | ExecutionFailed
                       | BadFeed | NotChosen | WrongPosition

  /** The streamer's state as a value. */
  datatype Stream = Stream(log: seq<MessageWithMeta>, queue: Queue)

  /** Feed messages waiting for a place from `pos` on; `reorg` if they contradict the log. */
  datatype Queue = Queue(msgs: seq<MessageWithMeta>, pos: nat, reorg: bool)

  function StripGas(m: MessageWithMeta): MessageWithMeta {
    if m.message.None? then m else m.(message := Some(m.message.value.(batchGasCost := None)))
  }

  predicate HasGas(m: MessageWithMeta) {
    m.message.Some? && m.message.value.batchGasCost.Some?
  }

  /** Equal, or differing only in a batch gas cost that one side lacks. */
  predicate Duplicate(have: MessageWithMeta, next: MessageWithMeta) {
    || have == next
    || (next.message.Some? && (!HasGas(have) || !HasGas(next)) && StripGas(have) == StripGas(next))
  }

  /** How many leading messages the log already holds from a position on. */
  function CountDuplicates(log: seq<MessageWithMeta>, pos: nat, msgs: seq<MessageWithMeta>): (k: nat)
    ensures k <= |msgs| && (k > 0 || pos <= |log| ==> pos + k <= |log|)
    decreases |msgs|
  {
    if msgs == [] || pos >= |log| || !Duplicate(log[pos], msgs[0]) then 0
    else 1 + CountDuplicates(log, pos + 1, msgs[1..])
  }

  /** What is stored after seeing a duplicate: a gas cost is added, never removed. */
  function KeepGas(have: MessageWithMeta, next: MessageWithMeta): MessageWithMeta {
    if have != next && HasGas(next) then next else have
  }

  function MergeGas(log: seq<MessageWithMeta>, pos: nat, dups: seq<MessageWithMeta>): (r: seq<MessageWithMeta>)
    requires dups != [] ==> pos + |dups| <= |log|
    ensures |r| == |log|
    ensures forall i :: 0 <= i < |log| ==>
      r[i] == if pos <= i < pos + |dups| then KeepGas(log[i], dups[i - pos]) else log[i]
  {
    seq(|log|, i requires 0 <= i < |log| => if pos <= i < pos + |dups| then KeepGas(log[i], dups[i - pos]) else log[i])
  }

  /** The log once the messages at a position are known for sure. */
  function WithConfirmed(log: seq<MessageWithMeta>, pos: nat, msgs: seq<MessageWithMeta>): (r: seq<MessageWithMeta>)
    requires pos <= |log|
  {
    var k := CountDuplicates(log, pos, msgs);
    var merged := MergeGas(log, pos, msgs[..k]);
    if k == |msgs| then merged else merged[..pos + k] + msgs[k..]
  }

  /** The log extended by unconfirmed messages; any disagreement with the log discards them. */
  function WithUnconfirmed(log: seq<MessageWithMeta>, pos: nat, msgs: seq<MessageWithMeta>): (r: seq<MessageWithMeta>)
    requires pos <= |log|
  {
    var k := CountDuplicates(log, pos, msgs);
    if pos + k == |log| then log + msgs[k..] else log
  }

  /** Whether the queued feed messages may follow messages occupying [start, after). */
  predicate QueueApplies(q: Queue, start: nat, after: nat) {
    (q.reorg && start <= q.pos) || (!q.reorg && q.pos <= after)
  }

  /** The queued messages for positions from `after` on. */
  function QueueTail(q: Queue, start: nat, after: nat): seq<MessageWithMeta> {
    if QueueApplies(q, start, after) && q.pos <= after && after - q.pos < |q.msgs| then q.msgs[after - q.pos..] else []
  }

  /** The queue after messages were written. */
  function QueueAfter(q: Queue, start: nat, after: nat): Queue {
    if !QueueApplies(q, start, after) then q
    else
      var clear := if after < q.pos then 0 else after - q.pos + |QueueTail(q, start, after)|;
      if |q.msgs| > clear then Queue(q.msgs[clear..], q.pos + clear, false) else Queue([], 0, false)
  }

  /** Delayed counts never jump: each message repeats its predecessor's count or adds one. The
      difference is an unsigned 64-bit subtraction. */
  predicate Steps(last: u64, msgs: seq<MessageWithMeta>)
    decreases |msgs|
  {
    msgs != [] ==>
      WrapSub(msgs[0].delayedRead, last) <= 1 && msgs[0].message.Some? && Steps(msgs[0].delayedRead, msgs[1..])
  }

  function DelayedBefore(log: seq<MessageWithMeta>, pos: nat): u64
    requires pos <= |log|
  {
    if pos == 0 then 0 else log[pos - 1].delayedRead
  }

  /** How a call to add messages will go: the first `known` messages are confirmed duplicates, and of
      the messages pending after them, from `start` on, the log already holds `held`. */
  datatype Plan = Plan(known: nat, start: nat, pending: seq<MessageWithMeta>, isNew: bool, held: nat)

  function MakePlan(s: Stream, pos: nat, confirmed: bool, msgs: seq<MessageWithMeta>): (p: Plan)
    ensures p.known <= |msgs| && p.start == pos + p.known && p.held <= |p.pending|
    ensures pos <= |s.log| ==> p.start + p.held <= |s.log|
    ensures !confirmed ==> p.known == 0 && !p.isNew
    ensures p.isNew ==> p.held == 0 && p.pending != []
  {
    var k := if confirmed then CountDuplicates(s.log, pos, msgs) else 0;
    var pending := msgs[k..] + QueueTail(s.queue, pos + k, pos + |msgs|);
    var isNew := confirmed && k < |msgs|;
    Plan(k, pos + k, pending, isNew, if isNew then 0 else CountDuplicates(s.log, pos + k, pending))
  }

  /** Carrying out a plan. `execOk` tells whether the execution engine and the validator follow a
      reorganization. */
  function Commit(s: Stream, pos: nat, msgs: seq<MessageWithMeta>, p: Plan, execOk: bool): Result<Stream, StreamError>
    requires p.known <= |msgs| && p.start == pos + p.known && p.held <= |p.pending|
    requires p.start + p.held <= |s.log|
  {
    var base := MergeGas(s.log, pos, msgs[..p.known]);
    var at := p.start + p.held;
    if !p.isNew && p.held < |p.pending| && at < |s.log| then Ok(s.(log := base))
    else if !Steps(DelayedBefore(s.log, at), p.pending[p.held..]) then Err(BadMessage)
    else if p.isNew && at < |s.log| && at == 0 then Err(CannotReorgInit)
    else if p.isNew && at < |s.log| && !execOk then Err(ExecutionFailed)
    else if p.held == |p.pending| then Ok(s.(log := base))
    else Ok(Stream(base[..at] + p.pending[p.held..], QueueAfter(s.queue, p.start, pos + |msgs|)))
  }

  /** Adding messages at a position. */
  function Add(s: Stream, pos: nat, confirmed: bool, msgs: seq<MessageWithMeta>, execOk: bool)
    : Result<Stream, StreamError>
  {
    if pos > |s.log| then Err(MissingPrevious)
    else Commit(s, pos, msgs, MakePlan(s, pos, confirmed, msgs), execOk)
  }

  /** Confirmed messages that are all known already end the call early. */
  function AddConfirmed(s: Stream, pos: nat, msgs: seq<MessageWithMeta>, execOk: bool): Result<Stream, StreamError> {
    if CountDuplicates(s.log, pos, msgs) == |msgs| then Ok(s) else Add(s, pos, true, msgs, execOk)
  }

  function Truncate(s: Stream, count: nat, execOk: bool): Result<Stream, StreamError> {
    if count == 0 then Err(CannotReorgInit)
    else if count > |s.log| then Err(MissingPrevious)
    else if !execOk then Err(ExecutionFailed)
    else Ok(s.(log := s.log[..count]))
  }

  /** The feed messages of one call must be consecutive and present. */
  predicate GoodFeed(feed: seq<FeedMessage>) {
    forall i :: 0 <= i < |feed| ==>
        feed[i].sequenceNumber == feed[0].sequenceNumber + i && feed[i].message.message.Some?
  }

  function FeedContents(feed: seq<FeedMessage>): (r: seq<MessageWithMeta>)
    ensures |r| == |feed|
    ensures forall i :: 0 <= i < |feed| ==> r[i] == feed[i].message
  {
    seq(|feed|, i requires 0 <= i < |feed| => feed[i].message)
  }

  /** The queue once feed messages that are not in the log arrive. The second result is the position
      from which to try adding to the log. */
  function Enqueue(q: Queue, pos: nat, msgs: seq<MessageWithMeta>, reorg: bool, maxQueue: nat): (Queue, nat) {
    if q.msgs == [] || (reorg && !q.reorg) || q.pos >= pos then (Queue(msgs, pos, reorg), pos)
    else if q.pos + |q.msgs| == pos then
      (if maxQueue == 0 || |q.msgs| <= maxQueue then q.(msgs := q.msgs + msgs) else q, q.pos)
    else (Queue(msgs, pos, reorg), pos)
  }

  function AddFeed(s: Stream, feed: seq<FeedMessage>, maxQueue: nat, execOk: bool): (Stream, Option<StreamError>) {
    if feed == [] then (s, None)
    else if !GoodFeed(feed) then (s, Some(BadFeed))
    else
      var k := CountDuplicates(s.log, feed[0].sequenceNumber, FeedContents(feed));
      var pos := feed[0].sequenceNumber + k;
      var msgs := FeedContents(feed)[k..];
      if msgs == [] then (s, None)
      else
        var (q, start) := Enqueue(s.queue, pos, msgs, pos < |s.log|, maxQueue);
        if q.reorg || q.msgs == [] || start > |s.log| then (s.(queue := q), None)
        else Outcome(s.(queue := q), Add(s.(queue := q), start, false, [], execOk))
  }

  /** The outcome of an operation on the state it started from: errors leave the state alone. */
  function Outcome(s: Stream, r: Result<Stream, StreamError>): (Stream, Option<StreamError>) {
    match r
    case Ok(s1) => (s1, None)
    case Err(e) => (s, Some(e))
  }

  ghost predicate IsPrefix<T>(db: map<nat, T>, count: nat) {
    forall i: nat :: i in db <==> i < count
  }

  ghost function Contents<T>(db: map<nat, T>, count: nat): (r: seq<T>)
    requires IsPrefix(db, count)
    ensures |r| == count && forall i :: 0 <= i < count ==> r[i] == db[i]
  {
    seq(count, i requires 0 <= i < count => db[i])
  }

  /** The rewrites due for duplicates at a position. */
  ghost predicate AreGasUpdates(log: seq<MessageWithMeta>, pos: nat, dups: seq<MessageWithMeta>,
                                updates: map<nat, MessageWithMeta>)
  {
    && (dups != [] ==> pos + |dups| <= |log|)
    && (forall i: nat :: i in updates ==> pos <= i < pos + |dups|)
    && forall i: nat :: pos <= i < pos + |dups| ==>
         KeepGas(log[i], dups[i - pos]) == if i in updates then updates[i] else log[i]
  }

  lemma NoGasUpdates(log: seq<MessageWithMeta>, pos: nat)
    ensures AreGasUpdates(log, pos, [], map[])
  {
  }

  lemma GasUpdatesExtended(log: seq<MessageWithMeta>, pos: nat, dups: seq<MessageWithMeta>, next: MessageWithMeta,
                           before: map<nat, MessageWithMeta>, after: map<nat, MessageWithMeta>)
    requires AreGasUpdates(log, pos, dups, before) && pos + |dups| < |log|
    requires var have := log[pos + |dups|];
             after == if have != next && HasGas(next) then before[pos + |dups| := next] else before
    ensures AreGasUpdates(log, pos, dups + [next], after)
  {
  }

  lemma GasUpdatesTruncated(log: seq<MessageWithMeta>, pos: nat, dups: seq<MessageWithMeta>,
                            updates: map<nat, MessageWithMeta>, at: nat)
    requires AreGasUpdates(log, pos, dups, updates) && pos + |dups| <= at <= |log|
    ensures AreGasUpdates(log[..at], pos, dups, updates)
    ensures MergeGas(log[..at], pos, dups) == MergeGas(log, pos, dups)[..at]
  {
  }

  /** The streamer over its key-value database. */
  class TransactionStreamer {
    const maxQueue: nat
    var db: map<nat, MessageWithMeta>
    var count: nat
    var queue: seq<MessageWithMeta>
    var queuePos: nat
    var queueReorg: bool

    /** The database holds exactly the positions below the message count. */
    ghost predicate Valid()
      reads this
    {
      IsPrefix(db, count)
    }

    ghost function Log(): (log: seq<MessageWithMeta>)
      requires Valid()
      reads this
    {
      Contents(db, count)
    }

    function Queued(): Queue
      reads this
    {
      Queue(queue, queuePos, queueReorg)
    }

    ghost function State(): Stream
      requires Valid()
      reads this
    {
      Stream(Log(), Queued())
    }

    constructor (maxQueue: nat)
      ensures Valid() && State() == Stream([], Queue([], 0, false)) && this.maxQueue == maxQueue
    {
      this.maxQueue := maxQueue;
      db, count, queue, queuePos, queueReorg := map[], 0, [], 0, false;
    }

    /** Also collects the messages to rewrite because their gas cost became known. */
    method CountDuplicateMessages(pos: nat, msgs: seq<MessageWithMeta>)
      returns (dups: nat, reorg: bool, updates: map<nat, MessageWithMeta>)
      requires Valid()
      ensures dups == CountDuplicates(Log(), pos, msgs)
      ensures reorg <==> dups < |msgs| && pos + dups < count
      ensures AreGasUpdates(Log(), pos, msgs[..dups], updates)
    {
      ghost var log := Log();
      dups, updates := 0, map[];
      while dups < |msgs| && pos + dups in db
        invariant dups <= |msgs| && (dups > 0 ==> pos + dups <= count)
        invariant CountDuplicates(log, pos, msgs) == dups + CountDuplicates(log, pos + dups, msgs[dups..])
        invariant AreGasUpdates(log, pos, msgs[..dups], updates)
      {
        var have, next := db[pos + dups], msgs[dups];
        assert msgs[dups..][0] == next && msgs[dups..][1..] == msgs[dups + 1..];
        if have != next &&
           !(next.message.Some? && (!HasGas(have) || !HasGas(next)) && StripGas(have) == StripGas(next)) {
          return dups, true, updates;
        }
        assert Duplicate(have, next);
        ghost var before := updates;
        if have != next && HasGas(next) {
          updates := updates[pos + dups := next];
        }
        GasUpdatesExtended(log, pos, msgs[..dups], next, before, updates);
        assert msgs[..dups] + [next] == msgs[..dups + 1];
        dups := dups + 1;
      }
      reorg := false;
    }

    /** Deletes the log from a position on, if the execution engine and the validator follow. */
    method Reorg(newCount: nat, execOk: bool) returns (err: Option<StreamError>)
      requires Valid()
      modifies this`db, this`count
      ensures Valid()
      ensures (State(), err) == Outcome(old(State()), Truncate(old(State()), newCount, execOk))
    {
      if newCount == 0 {
        return Some(CannotReorgInit);
      }
      if newCount - 1 !in db {
        return Some(MissingPrevious);
      }
      if !execOk {
        return Some(ExecutionFailed);
      }
      db := map i | i in db && i < newCount :: db[i];
      count := newCount;
      assert Log() == old(Log())[..newCount];
      return None;
    }

    /** Writes messages at the end of the log. */
    method WriteMessages(pos: nat, msgs: seq<MessageWithMeta>)
      requires Valid() && pos == count
      modifies this`db, this`count
      ensures Valid() && Log() == old(Log()) + msgs
    {
      for i := 0 to |msgs|
        invariant count == pos
        invariant forall j: nat :: j in db <==> j < pos + i
        invariant forall j: nat :: j < pos ==> db[j] == old(db)[j]
        invariant forall j: nat :: pos <= j < pos + i ==> db[j] == msgs[j - pos]
      {
        db := db[pos + i := msgs[i]];
      }
      count := pos + |msgs|;
    }

    method WriteUpdates(updates: map<nat, MessageWithMeta>, ghost pos: nat, ghost dups: seq<MessageWithMeta>)
      requires Valid() && AreGasUpdates(Log(), pos, dups, updates)
      modifies this`db
      ensures Valid() && Log() == MergeGas(old(Log()), pos, dups)
    {
      db := db + updates;
      assert Log() == MergeGas(old(Log()), pos, dups);
    }

    method UsableQueue(start: nat, after: nat) returns (tail: seq<MessageWithMeta>)
      ensures tail == QueueTail(Queued(), start, after)
    {
      tail := [];
      if (queueReorg && start <= queuePos) || (!queueReorg && queuePos <= after) {
        if after >= queuePos {
          var index := after - queuePos;
          if index < |queue| {
            tail := queue[index..];
          }
        }
      }
    }

    /** The plan, with the gas cost updates it entails. */
    method PlanMessages(pos: nat, confirmed: bool, msgs: seq<MessageWithMeta>)
      returns (plan: Plan, updates: map<nat, MessageWithMeta>, conflict: bool)
      requires Valid()
      ensures plan == MakePlan(State(), pos, confirmed, msgs)
      ensures AreGasUpdates(Log(), pos, msgs[..plan.known], updates)
      ensures conflict <==> plan.held < |plan.pending| && plan.start + plan.held < count
    {
      hide CountDuplicates;
      hide QueueTail;
      hide AreGasUpdates;
      var start, after, pending, isNew := pos, pos + |msgs|, msgs, false;
      var known := 0;
      assert msgs[..0] == [] && msgs[0..] == msgs;
      updates, conflict := map[], false;
      NoGasUpdates(Log(), pos);
      if confirmed {
        known, conflict, updates := CountDuplicateMessages(pos, msgs);
        pending, start := msgs[known..], pos + known;
        isNew := |pending| > 0;
      }
      var tail := UsableQueue(start, after);
      pending := pending + tail;
      var held := 0;
      if !isNew {
        var ignored;
        held, conflict, ignored := CountDuplicateMessages(start, pending);
      }
      plan := Plan(known, start, pending, isNew, held);
    }

    method ClearQueue(start: nat, after: nat)
      modifies this`queue, this`queuePos, this`queueReorg
      ensures Queued() == QueueAfter(old(Queued()), start, after)
    {
      if (queueReorg && start <= queuePos) || (!queueReorg && queuePos <= after) {
        var clear := 0;
        if after >= queuePos {
          var index := after - queuePos;
          clear := index + if index < |queue| then |queue[index..]| else 0;
        }
        if |queue| > clear {
          queue, queuePos := queue[clear..], queuePos + clear;
        } else {
          queue, queuePos := [], 0;
        }
        queueReorg := false;
      }
    }

    /** Truncates the log if the plan reorganizes it, and writes what the plan adds. */
    method WritePlan(pos: nat, ghost dups: seq<MessageWithMeta>, updates: map<nat, MessageWithMeta>,
                     at: nat, msgs: seq<MessageWithMeta>, reorg: bool, execOk: bool)
      returns (err: Option<StreamError>)
      requires Valid() && AreGasUpdates(Log(), pos, dups, updates) && pos + |dups| <= at <= count
      requires msgs == [] || reorg || at == count
      requires reorg ==> msgs != [] && at < count
      modifies this`db, this`count
      ensures Valid()
      ensures err ==
              if reorg && at == 0 then Some(CannotReorgInit)
              else if reorg && !execOk then Some(ExecutionFailed)
              else None
      ensures Log() == if err.Some? then old(Log())
                       else if msgs == [] then MergeGas(old(Log()), pos, dups)
                       else MergeGas(old(Log()), pos, dups)[..at] + msgs
    {
      ghost var log := Log();
      if reorg {
        err := Reorg(at, execOk);
        if err.Some? {
          return;
        }
        GasUpdatesTruncated(log, pos, dups, updates, at);
      }
      WriteUpdates(updates, pos, dups);
      assert msgs != [] ==> Log() == MergeGas(log, pos, dups)[..at];
      if |msgs| > 0 {
        WriteMessages(at, msgs);
      }
      return None;
    }

    /** Checks the messages the plan adds, and writes them. */
    method CommitPlan(pos: nat, ghost msgs: seq<MessageWithMeta>, after: nat, plan: Plan,
                      updates: map<nat, MessageWithMeta>, conflict: bool, execOk: bool)
      returns (err: Option<StreamError>)
      requires Valid() && after == pos + |msgs|
      requires plan.known <= |msgs| && plan.start == pos + plan.known && plan.held <= |plan.pending|
      requires plan.start + plan.held <= count
      requires AreGasUpdates(Log(), pos, msgs[..plan.known], updates)
      requires conflict <==> plan.held < |plan.pending| && plan.start + plan.held < count
      requires (conflict ==> plan.isNew) && (plan.isNew ==> plan.held < |plan.pending|)
      modifies this
      ensures Valid()
      ensures (State(), err) == Outcome(old(State()), Commit(old(State()), pos, msgs, plan, execOk))
    {
      hide MergeGas;
      hide AreGasUpdates;
      hide Steps;
      hide QueueAfter;
      ghost var s := State();
      var at, rest := plan.start + plan.held, plan.pending[plan.held..];
      var good := CheckSteps(if at > 0 then db[at - 1].delayedRead else 0, rest);
      if !good {
        assert Commit(s, pos, msgs, plan, execOk) == Err(BadMessage);
        return Some(BadMessage);
      }
      err := WritePlan(pos, msgs[..plan.known], updates, at, rest, conflict, execOk);
      if err.Some? {
        assert Commit(s, pos, msgs, plan, execOk) == Err(err.value);
        return;
      }
      if |rest| > 0 {
        ClearQueue(plan.start, after);
      }
      assert Commit(s, pos, msgs, plan, execOk) == Ok(State());
      hide Commit;
    }

    method AddMessagesImpl(pos: nat, confirmed: bool, msgs: seq<MessageWithMeta>, execOk: bool)
      returns (err: Option<StreamError>)
      requires Valid()
      modifies this
      ensures Valid()
      ensures (State(), err) == Outcome(old(State()), Add(old(State()), pos, confirmed, msgs, execOk))
    {
      hide MergeGas;
      hide AreGasUpdates;
      ghost var s := State();
      var plan, updates, conflict := PlanMessages(pos, confirmed, msgs);
      assert pos <= count ==> plan.start + plan.held <= count;
      assert pos > count ==> plan.start + plan.held == pos;
      hide MakePlan;
      if conflict && !plan.isNew {
        WriteUpdates(updates, pos, msgs[..plan.known]);
        assert Commit(s, pos, msgs, plan, execOk) == Ok(State());
        return None;
      }
      if plan.start + plan.held > 0 && plan.start + plan.held - 1 !in db {
        return Some(MissingPrevious);
      }
      hide Commit;
      err := CommitPlan(pos, msgs, pos + |msgs|, plan, updates, conflict, execOk);
    }

    method CheckSteps(last: u64, msgs: seq<MessageWithMeta>) returns (good: bool)
      ensures good == Steps(last, msgs)
    {
      var prev := last;
      for i := 0 to |msgs|
        invariant Steps(last, msgs) == Steps(prev, msgs[i..])
      {
        assert msgs[i..][0] == msgs[i] && msgs[i..][1..] == msgs[i + 1..];
        if WrapSub(msgs[i].delayedRead, prev) > 1 || msgs[i].message.None? {
          return false;
        }
        prev := msgs[i].delayedRead;
      }
      return true;
    }

    /** Adds messages; confirmed ones that are all known already change nothing. */
    method AddMessages(pos: nat, confirmed: bool, msgs: seq<MessageWithMeta>, execOk: bool)
      returns (err: Option<StreamError>)
      requires Valid()
      modifies this
      ensures Valid()
      ensures var s := old(State());
              (State(), err) == Outcome(s, if confirmed then AddConfirmed(s, pos, msgs, execOk)
                  else Add(s, pos, false, msgs, execOk))
    {
      if confirmed {
        var dups, _, _ := CountDuplicateMessages(pos, msgs);
        if dups == |msgs| {
          return None;
        }
      }
      err := AddMessagesImpl(pos, confirmed, msgs, execOk);
    }

    method CheckFeed(feed: seq<FeedMessage>) returns (msgs: Option<seq<MessageWithMeta>>)
      requires feed != []
      ensures msgs == if GoodFeed(feed) then Some(FeedContents(feed)) else None
    {
      var contents: seq<MessageWithMeta> := [];
      for i := 0 to |feed|
        invariant |contents| == i
        invariant forall j :: 0 <= j < i ==> contents[j] == feed[j].message
        invariant forall j :: 0 <= j < i ==>
            feed[j].sequenceNumber == feed[0].sequenceNumber + j && feed[j].message.message.Some?
      {
        if feed[i].sequenceNumber != feed[0].sequenceNumber + i || feed[i].message.message.None? {
          return None;
        }
        contents := contents + [feed[i].message];
      }
      assert contents == FeedContents(feed);
      return Some(contents);
    }

    method EnqueueMessages(pos: nat, msgs: seq<MessageWithMeta>, reorg: bool) returns (start: nat)
      modifies this`queue, this`queuePos, this`queueReorg
      ensures (Queued(), start) == Enqueue(old(Queued()), pos, msgs, reorg, maxQueue)
    {
      start := pos;
      if |queue| == 0 || (reorg && !queueReorg) {
        queue, queuePos, queueReorg := msgs, pos, reorg;
      } else if queuePos >= pos {
        queue, queuePos, queueReorg := msgs, pos, reorg;
      } else if queuePos + |queue| == pos {
        if maxQueue == 0 || |queue| <= maxQueue {
          queue := queue + msgs;
        }
        start := queuePos;
      } else {
        queue, queuePos, queueReorg := msgs, pos, reorg;
      }
    }

    /** Takes messages from the feed: skips those in the log, queues the rest, and tries to add the
        queue to the log. */
    method AddBroadcastMessages(feed: seq<FeedMessage>, execOk: bool) returns (err: Option<StreamError>)
      requires Valid()
      modifies this
      ensures Valid()
      ensures (State(), err) == AddFeed(old(State()), feed, maxQueue, execOk)
    {
      hide Add;
      hide CountDuplicates;
      hide GoodFeed;
      hide Enqueue;
      if |feed| == 0 {
        return None;
      }
      var contents := CheckFeed(feed);
      if contents.None? {
        return Some(BadFeed);
      }
      var dups, reorg, _ := CountDuplicateMessages(feed[0].sequenceNumber, contents.value);
      var msgs, pos := contents.value[dups..], feed[0].sequenceNumber + dups;
      if |msgs| == 0 {
        return None;
      }
      pos := EnqueueMessages(pos, msgs, reorg);
      if queueReorg || |queue| == 0 {
        return None;
      }
      if pos > 0 && pos - 1 !in db {
        return None;
      }
      err := AddMessagesImpl(pos, false, [], execOk);
    }

    /** The chosen sequencer writes its own next message. */
    method WriteMessageFromSequencer(pos: nat, msg: MessageWithMeta, coordinatorOk: bool)
        returns (err: Option<StreamError>)
      requires Valid()
      modifies this`db, this`count
      ensures Valid()
      ensures err.None? <==> coordinatorOk && old(count) == pos
      ensures Log() == if err.None? then old(Log()) + [msg] else old(Log())
    {
      if count != pos {
        return Some(WrongPosition);
      }
      if !coordinatorOk {
        return Some(NotChosen);
      }
      WriteMessages(pos, [msg]);
      return None;
    }
  }
}

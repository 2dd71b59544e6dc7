/** Runs of everything that changes the log: where each of its messages comes from. */
module StreamerRuns {
  import opened Types
  import opened Streamer
  import opened StreamerProperties

  datatype LogOp =
    | Feed(feed: seq<FeedMessage>, maxQueue: nat, execOk: bool)
    | Confirm(pos: nat, msgs: seq<MessageWithMeta>, execOk: bool)
    | Unconfirmed(pos: nat, msgs: seq<MessageWithMeta>, execOk: bool)
    | Sequence(msg: MessageWithMeta)
    | Cut(count: nat, execOk: bool)

  /** The log and the queue, what the feed has named so far, and what anyone has given a position. */
  datatype Traced = Traced(stream: Stream, feed: Named, all: Named)

  ghost function At(pos: nat, msgs: seq<MessageWithMeta>): Named {
    set i | 0 <= i < |msgs| :: (pos + i, msgs[i])
  }

  ghost function Do(t: Traced, op: LogOp): Traced {
    match op
    case Feed(feed, maxQueue, execOk) =>
      Traced(AddFeed(t.stream, feed, maxQueue, execOk).0, t.feed + Announced(feed), t.all + Announced(feed))
    case Confirm(pos, msgs, execOk) =>
      t.(stream := Outcome(t.stream, AddConfirmed(t.stream, pos, msgs, execOk)).0, all := t.all + At(pos, msgs))
    case Unconfirmed(pos, msgs, execOk) =>
      t.(stream := Outcome(t.stream, Add(t.stream, pos, false, msgs, execOk)).0, all := t.all + At(pos, msgs))
    case Sequence(msg) =>
      t.(stream := t.stream.(log := t.stream.log + [msg]), all := t.all + {(|t.stream.log|, msg)})
    case Cut(count, execOk) => t.(stream := Outcome(t.stream, Truncate(t.stream, count, execOk)).0)
  }

  /** Someone gave a message this position, up to its gas cost. */
  ghost predicate Given(all: Named, j: nat, msg: MessageWithMeta) {
    exists m :: (j, m) in all && SameMessage(msg, m)
  }

  ghost predicate LogGiven(log: seq<MessageWithMeta>, all: Named) {
    forall j :: 0 <= j < |log| ==> Given(all, j, log[j])
  }

  ghost predicate Sourced(t: Traced) {
    QueueNamed(t.stream.queue, t.feed) && t.feed <= t.all && LogGiven(t.stream.log, t.all)
  }

  lemma GivenIn(all: Named, j: nat, msg: MessageWithMeta)
    requires (j, msg) in all
    ensures Given(all, j, msg)
  {
  }

  lemma StillGiven(log: seq<MessageWithMeta>, some: Named, all: Named)
    requires LogGiven(log, some) && some <= all
    ensures LogGiven(log, all)
  {
    forall j | 0 <= j < |log| ensures Given(all, j, log[j]) {
      assert Given(some, j, log[j]);
    }
  }

  lemma ExtendedGiven(log: seq<MessageWithMeta>, longer: seq<MessageWithMeta>, all: Named)
    requires LogGiven(log, all) && log <= longer
    requires forall j :: |log| <= j < |longer| ==> (j, longer[j]) in all
    ensures LogGiven(longer, all)
  {
    forall j | 0 <= j < |longer| ensures Given(all, j, longer[j]) {
      if j < |log| {
        assert Given(all, j, log[j]);
      }
    }
  }

  lemma FeedSourced(t: Traced, feed: seq<FeedMessage>, maxQueue: nat, execOk: bool)
    requires Sourced(t)
    ensures Sourced(Do(t, Feed(feed, maxQueue, execOk)))
  {
    hide AddFeed, LogGiven, QueueNamed, SameMessage;
    var all := t.all + Announced(feed);
    FeedLandsWhereNamed(t.stream, feed, maxQueue, execOk, t.feed);
    FeedOnlyAppends(t.stream, feed, maxQueue, execOk);
    StillGiven(t.stream.log, t.all, all);
    ExtendedGiven(t.stream.log, AddFeed(t.stream, feed, maxQueue, execOk).0.log, all);
  }

  lemma UnconfirmedSourced(t: Traced, pos: nat, msgs: seq<MessageWithMeta>, execOk: bool)
    requires Sourced(t)
    ensures Sourced(Do(t, Unconfirmed(pos, msgs, execOk)))
  {
    hide Add, LogGiven, QueueNamed, SameMessage;
    var all := t.all + At(pos, msgs);
    StillGiven(t.stream.log, t.all, all);
    if Add(t.stream, pos, false, msgs, execOk).Ok? {
      UnconfirmedLandsWhereNamed(t.stream, pos, msgs, execOk, t.feed);
      UnconfirmedOnlyAppends(t.stream, pos, msgs, execOk);
      var log := Add(t.stream, pos, false, msgs, execOk).value.log;
      forall j | |t.stream.log| <= j < |log| ensures (j, log[j]) in all {
        if (j, log[j]) !in t.feed {
          assert (pos + (j - pos), msgs[j - pos]) in At(pos, msgs);
        }
      }
      ExtendedGiven(t.stream.log, log, all);
    }
  }

  lemma ConfirmSourced(t: Traced, pos: nat, msgs: seq<MessageWithMeta>, execOk: bool)
    requires Sourced(t)
    ensures Sourced(Do(t, Confirm(pos, msgs, execOk)))
  {
    hide Add, QueueNamed, SameMessage, CountDuplicates;
    var s, all := t.stream, t.all + At(pos, msgs);
    StillGiven(s.log, t.all, all);
    if CountDuplicates(s.log, pos, msgs) < |msgs| && Add(s, pos, true, msgs, execOk).Ok? {
      ConfirmedSettlesLog(s, pos, msgs, execOk);
      ConfirmedLandsWhereNamed(s, pos, msgs, execOk, t.feed);
      ConfirmedLog(s, pos, msgs, execOk);
      var log := Add(s, pos, true, msgs, execOk).value.log;
      forall j | 0 <= j < |log| ensures Given(all, j, log[j]) {
        if j < pos {
          assert log[..pos][j] == s.log[..pos][j] && Given(all, j, s.log[j]);
        } else if j < pos + |msgs| {
          assert SameMessage(log[pos + (j - pos)], msgs[j - pos]);
          assert (pos + (j - pos), msgs[j - pos]) in At(pos, msgs);
        } else if j < |s.log| && log[j] == s.log[j] {
          assert Given(all, j, s.log[j]);
        } else {
          GivenIn(all, j, log[j]);
        }
      }
    }
  }

  lemma OpSourced(t: Traced, op: LogOp)
    requires Sourced(t)
    ensures Sourced(Do(t, op))
  {
    match op
    case Feed(feed, maxQueue, execOk) => FeedSourced(t, feed, maxQueue, execOk);
    case Confirm(pos, msgs, execOk) => ConfirmSourced(t, pos, msgs, execOk);
    case Unconfirmed(pos, msgs, execOk) => UnconfirmedSourced(t, pos, msgs, execOk);
    case Sequence(msg) =>
      var all := t.all + {(|t.stream.log|, msg)};
      StillGiven(t.stream.log, t.all, all);
      ExtendedGiven(t.stream.log, t.stream.log + [msg], all);
    case Cut(count, execOk) =>
    hide Add, AddFeed, AddConfirmed, SameMessage;
  }

  ghost function DoAll(t: Traced, ops: seq<LogOp>): Traced {
    if ops == [] then t else Do(DoAll(t, ops[..|ops| - 1]), ops[|ops| - 1])
  }

  /**
   * In every run of feed, confirmed, unconfirmed and sequenced messages and of reorganizations, every message of the
   * log stands at a position that the feed named for it or that it was given, up to its gas cost.
   */
  lemma {:induction false} EveryMessageWasNamed(t: Traced, ops: seq<LogOp>)
    requires Sourced(t)
    ensures Sourced(DoAll(t, ops))
  {
    if ops != [] {
      EveryMessageWasNamed(t, ops[..|ops| - 1]);
      OpSourced(DoAll(t, ops[..|ops| - 1]), ops[|ops| - 1]);
    }
    hide Do, Sourced;
  }
}

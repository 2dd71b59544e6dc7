/** Message counts and positions in batches: the searches that turn one into the other, and that they agree. */
module Positions {
  import opened Types
  import opened Validation
  import Tracker
  import TrackerProperties

  /** The message counts after each batch; every batch has a message. */
  predicate Increasing(counts: seq<nat>) {
    && (forall i :: 0 <= i < |counts| ==> counts[i] > 0)
    && forall i, j :: 0 <= i < j < |counts| ==> counts[i] < counts[j]
  }

  function Counts(metas: seq<Tracker.BatchMeta>): seq<nat> {
    seq(|metas|, i requires 0 <= i < |metas| => metas[i].messageCount)
  }

  /** What the inbox tracker keeps in every run is what the searches rely on. */
  lemma TrackedCountsIncrease(n: Tracker.Node)
    requires TrackerProperties.Inv(n)
    ensures Increasing(Counts(n.metas))
  {
  }

  function Before(counts: seq<nat>, b: nat): nat
    requires b <= |counts|
  {
    if b == 0 then 0 else counts[b - 1]
  }

  /** The batch that the message after a count of messages is in, or will be in. */
  predicate IsBatch(counts: seq<nat>, count: nat, b: nat) {
    b <= |counts| && Before(counts, b) <= count && (b < |counts| ==> count < counts[b])
  }

  lemma BatchIsUnique(counts: seq<nat>, count: nat, b: nat, c: nat)
    requires Increasing(counts) && IsBatch(counts, count, b) && IsBatch(counts, count, c)
    ensures b == c
  {
  }

  datatype Search = Found(batch: nat) | NotPosted | Error

  /** The binary search for the batch of a message. */
  method FindInboxBatchContainingMessage(counts: seq<nat>, pos: nat) returns (r: Search)
    requires Increasing(counts)
    ensures r.Error? <==> |counts| == 0
    ensures r.NotPosted? <==> |counts| > 0 && counts[|counts| - 1] <= pos
    ensures r.Found? ==> r.batch < |counts| && IsBatch(counts, pos, r.batch)
  {
    if |counts| == 0 {
      return Error;
    }
    var low, high := 0, |counts| - 1;
    if counts[high] <= pos {
      return NotPosted;
    }
    while true
      invariant 0 <= low <= high < |counts|
      invariant Before(counts, low) <= pos < counts[high]
      decreases high - low
    {
      var mid := (low + high) / 2;
      var count := counts[mid];
      if count < pos {
        low := mid + 1;
      } else if count == pos {
        return Found(mid + 1);
      } else if count == pos + 1 || mid == low {
        assert mid > low ==> counts[mid - 1] < counts[mid];
        return Found(mid);
      } else {
        high := mid;
      }
      if high == low {
        return Found(high);
      }
    }
  }

  /** A count within the batches of a challenge, of which the last need not be there if it is only its start that
      counts. */
  predicate Covers(counts: seq<nat>, start: nat, end: nat, msgCount: nat) {
    && start <= end <= |counts| && Before(counts, start) <= msgCount
    && if end < |counts| then msgCount <= counts[end] else start < end && msgCount <= counts[end - 1]
  }

  /** The binary search of a challenge; a missing batch is an error. */
  method FindBatchAfterMessageCount(counts: seq<nat>, start: nat, end: nat, msgCount: nat) returns (r: Search)
    requires Increasing(counts)
    ensures r.Found? ==> r.batch <= |counts| && msgCount <= Before(counts, |counts|)
    ensures r.Found? ==> (IsBatch(counts, msgCount, r.batch) <==> Before(counts, r.batch) <= msgCount)
    ensures r.Found? && start <= |counts| && Before(counts, start) <= msgCount ==> IsBatch(counts, msgCount, r.batch)
    ensures Covers(counts, start, end, msgCount) ==> r.Found?
  {
    if msgCount == 0 {
      return Found(0);
    }
    var low, high := start, end;
    while true
      invariant start <= low
      invariant 0 <= high <= end && (low <= high + 1 || low == start) && (high < end ==>
          high < |counts| && msgCount < counts[high])
      invariant low > start ==> low <= |counts| && counts[low - 1] < msgCount
      decreases high + 1 - low
    {
      if high < low {
        return Error;
      }
      var mid := (low + high) / 2;
      if mid >= |counts| {
        return Error;
      }
      var batchMsgCount := counts[mid];
      if batchMsgCount < msgCount {
        low := mid + 1;
      } else if batchMsgCount == msgCount {
        return Found(mid + 1);
      } else if mid == low {
        return Found(mid);
      } else {
        high := mid;
      }
    }
  }

  // ----- Global states -----

  /** What the node knows when it is asked: the batches, how much has been executed, and with what results. */
  datatype View = View(counts: seq<nat>, processed: nat, hashes: seq<nat>)

  predicate Readable(view: View) {
    Increasing(view.counts) && view.processed < |view.hashes|
  }

  datatype Located = At(count: nat) | NotYet | NotInChain

  /** The message count of a global state. */
  function ToCount(view: View, gs: GlobalState): Located
    requires Readable(view)
  {
    var required := if gs.pos == 0 then gs.batch else gs.batch + 1;
    if |view.counts| < required then NotYet
    else
      var count := Before(view.counts, gs.batch) + gs.pos;
      if gs.pos > 0 && view.counts[gs.batch] < count then NotInChain
      else if view.processed < count then NotYet
      else if view.hashes[count] != gs.hash then NotInChain
      else At(count)
  }

  /** The global state after a count of messages, in a given batch. */
  function StateIn(view: View, count: nat, batch: nat): GlobalState
    requires count < |view.hashes| && batch <= |view.counts| && Before(view.counts, batch) <= count
  {
    GlobalState(batch, count - Before(view.counts, batch), view.hashes[count])
  }

  method GlobalStateToMsgCount(view: View, gs: GlobalState) returns (r: Located)
    requires Readable(view)
    ensures r == ToCount(view, gs)
  {
    var requiredBatchCount := gs.batch + 1;
    if gs.pos == 0 {
      requiredBatchCount := requiredBatchCount - 1;
    }
    if |view.counts| < requiredBatchCount {
      return NotYet;
    }
    var count := 0;
    if gs.batch > 0 {
      count := view.counts[gs.batch - 1];
    }
    if gs.pos > 0 {
      var curBatchMsgCount := view.counts[gs.batch];
      count := count + gs.pos;
      if curBatchMsgCount < count {
        return NotInChain;
      }
    }
    if view.processed < count {
      return NotYet;
    }
    if view.hashes[count] != gs.hash {
      return NotInChain;
    }
    return At(count);
  }

  /** The global state at a count, for a challenge between two batches. */
  method FindGlobalStateFromMessageCount(view: View, start: nat, end: nat, count: nat) returns (r: Option<GlobalState>)
    requires Readable(view)
    ensures r.Some? ==>
              IsBatch(view.counts, count, r.value.batch) && count < |view.hashes| &&
              r.value == StateIn(view, count, r.value.batch)
    ensures r.Some? && count <= view.processed ==> ToCount(view, r.value) == At(count)
    ensures Covers(view.counts, start, end, count) && count < |view.hashes| ==> r.Some?
  {
    var found := FindBatchAfterMessageCount(view.counts, start, end, count);
    if !found.Found? {
      return None;
    }
    var batch := found.batch;
    var prevBatchMsgCount := 0;
    if batch > 0 {
      prevBatchMsgCount := view.counts[batch - 1];
      if prevBatchMsgCount > count {
        return None;
      }
    }
    if count >= |view.hashes| {
      return None;
    }
    r := Some(GlobalState(batch, count - prevBatchMsgCount, view.hashes[count]));
    if count <= view.processed {
      CountRoundTrip(view, count, batch);
    }
  }

  /** Going from a count to its global state and back gives the count exactly when all the messages are in batches. */
  lemma CountRoundTrip(view: View, count: nat, batch: nat)
    requires Readable(view) && count <= view.processed && IsBatch(view.counts, count, batch)
    ensures ToCount(view, StateIn(view, count, batch)) == At(count) <==> count <= Before(view.counts, |view.counts|)
    ensures count > Before(view.counts, |view.counts|) ==> ToCount(view, StateIn(view, count, batch)) == NotYet
  {
  }

  /** A state that names the end of a batch as a position in it is not what its count gives back. */
  predicate Normal(view: View, gs: GlobalState) {
    gs.pos == 0 || (gs.batch < |view.counts| && Before(view.counts, gs.batch) + gs.pos < view.counts[gs.batch])
  }

  /** Going from a global state to its count and back gives the state exactly when it is in normal form. */
  lemma StateRoundTrip(view: View, gs: GlobalState, batch: nat)
    requires Readable(view) && ToCount(view, gs).At? && IsBatch(view.counts, ToCount(view, gs).count, batch)
    ensures StateIn(view, ToCount(view, gs).count, batch) == gs <==> Normal(view, gs)
  {
    var count := ToCount(view, gs).count;
    if Normal(view, gs) {
      assert IsBatch(view.counts, count, gs.batch);
      BatchIsUnique(view.counts, count, batch, gs.batch);
    }
  }

  /** The end of a batch, named as a position in it, comes back as the start of the next one. */
  lemma EndOfBatchIsRenamed(view: View, batch: nat)
    requires Readable(view) && batch < |view.counts| && view.counts[batch] <= view.processed
    ensures var count := view.counts[batch];
            var gs := GlobalState(batch, count - Before(view.counts, batch), view.hashes[count]);
            && ToCount(view, gs) == At(count)
            && IsBatch(view.counts, count, batch + 1)
            && StateIn(view, count, batch + 1) == GlobalState(batch + 1, 0, view.hashes[count])
            && StateIn(view, count, batch + 1) != gs
  {
    assert batch > 0 ==> view.counts[batch - 1] < view.counts[batch];
  }

  // ----- Positions before and after a message -----

  datatype Position = Position(batch: nat, pos: nat)

  /** The positions before and after the last of a count of messages. */
  method GlobalStatePositionsAtCount(counts: seq<nat>, count: nat) returns (r: Option<(Position, Position)>)
    requires Increasing(counts)
    ensures r.Some? && count > 1 ==>
              && PositionOf(counts, count - 1, r.value.0)
              && PositionOf(counts, count, r.value.1)
              && (r.value.1.pos > 0 ==> r.value.1.batch < |counts|)
    ensures r.Some? && count == 1 ==> r.value == (Position(0, 0), Position(1, 0))
    ensures r.Some? <==> count == 1 || (count > 1 && |counts| > 0 && count <= counts[|counts| - 1])
  {
    if count == 0 {
      return None;
    }
    if count == 1 {
      return Some((Position(0, 0), Position(1, 0)));
    }
    var found := FindInboxBatchContainingMessage(counts, count - 1);
    if !found.Found? {
      return None;
    }
    var batch := found.batch;
    assert batch > 0 ==> counts[batch - 1] < counts[batch];
    var firstInBatch := 0;
    if batch > 0 {
      firstInBatch := counts[batch - 1];
    }
    var posInBatch := count - firstInBatch - 1;
    if counts[batch] == count {
      return Some((Position(batch, posInBatch), Position(batch + 1, 0)));
    }
    return Some((Position(batch, posInBatch), Position(batch, posInBatch + 1)));
  }

  predicate PositionOf(counts: seq<nat>, count: nat, p: Position) {
    IsBatch(counts, count, p.batch) && p.pos == count - Before(counts, p.batch)
  }

  lemma PositionIsUnique(counts: seq<nat>, count: nat, p: Position, q: Position)
    requires Increasing(counts) && PositionOf(counts, count, p) && PositionOf(counts, count, q)
    ensures p == q
  {
    BatchIsUnique(counts, count, p.batch, q.batch);
  }

  /** The fixed answer for one message is its position exactly when the first batch has one message. */
  lemma FirstPosition(counts: seq<nat>)
    requires Increasing(counts)
    ensures PositionOf(counts, 0, Position(0, 0))
    ensures PositionOf(counts, 1, Position(1, 0)) <==> |counts| > 0 && counts[0] == 1
  {
  }

  /** The validator moves from message to message exactly as the searches would. */
  lemma StepAgreesWithSearch(counts: seq<nat>, start: GlobalState, pos: nat, hash: nat)
    requires Increasing(counts) && PositionOf(counts, pos, Position(start.batch, start.pos)) && start.batch < |counts|
    ensures var end := EndState(start, pos, counts[start.batch], hash);
            && end.Some?
            && PositionOf(counts, pos + 1, Position(end.value.batch, end.value.pos))
            && end.value.hash == hash
  {
    if pos + 1 == counts[start.batch] && start.batch + 1 < |counts| {
      assert counts[start.batch] < counts[start.batch + 1];
    }
  }
}

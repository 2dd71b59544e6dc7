/**
 * The validator against the chain it validates: entries are at the positions and with the results that the chain has,
 * as long as reorganizations leave what comes before them, and batches are not replaced under it.
 */
module ValidationPositions {
  import opened Types
  import opened Validation
  import opened ValidationProperties
  import opened Positions

  /** The state of the chain after a count of messages, all of them in batches. */
  predicate Placed(view: View, count: nat, gs: GlobalState) {
    && PositionOf(view.counts, count, Position(gs.batch, gs.pos))
    && (gs.pos > 0 ==> gs.batch < |view.counts|)
    && count < |view.hashes| && gs.hash == view.hashes[count]
  }

  lemma PlacedIsUnique(view: View, count: nat, a: GlobalState, b: GlobalState)
    requires Increasing(view.counts) && Placed(view, count, a) && Placed(view, count, b)
    ensures a == b
  {
    PositionIsUnique(view.counts, count, Position(a.batch, a.pos), Position(b.batch, b.pos));
  }

  /** New batches and results. */
  predicate Grows(view: View, next: View) {
    Increasing(next.counts) && view.counts <= next.counts && view.hashes <= next.hashes
  }

  /** The batches with a message before the count, and the results up to it, are the same. */
  predicate SameUpTo(view: View, next: View, count: nat) {
    && Increasing(next.counts)
    && (forall b :: 0 <= b < |view.counts| && Before(view.counts, b) < count ==>
          b < |next.counts| && next.counts[b] == view.counts[b])
    && forall c :: 0 <= c <= count && c < |view.hashes| ==> c < |next.hashes| && next.hashes[c] == view.hashes[c]
  }

  lemma GrowsPlaced(view: View, next: View, count: nat, gs: GlobalState)
    requires Grows(view, next) && Placed(view, count, gs)
    ensures Placed(next, count, gs)
  {
    assert gs.batch > 0 ==> next.counts[gs.batch - 1] == view.counts[gs.batch - 1];
  }

  lemma SamePlaced(view: View, next: View, count: nat, c: nat, gs: GlobalState)
    requires Increasing(view.counts) && SameUpTo(view, next, count) && c <= count && Placed(view, c, gs)
    ensures Placed(next, c, gs)
  {
    var b := gs.batch;
    if b > 0 {
      assert Before(view.counts, b - 1) < view.counts[b - 1] <= c;
      assert next.counts[b - 1] == view.counts[b - 1];
    }
    if gs.pos > 0 {
      assert Before(view.counts, b) < c;
    } else if b < |next.counts| && b > 0 {
      assert next.counts[b - 1] < next.counts[b];
    }
  }

  /** Every entry and the state creation goes on from are where the chain has them. */
  predicate EntriesPlaced(m: map<nat, Validation>, view: View) {
    forall p :: p in m ==> Placed(view, p, m[p].start) && Placed(view, p + 1, m[p].end)
  }

  predicate AllPlaced(s: State, view: View) {
    && Increasing(view.counts)
    && EntriesPlaced(s.validations, view)
    && Placed(view, s.created, s.nextStart)
    && (s.nextStart.pos > 0 && !s.reread ==> s.batchMsgCount == view.counts[s.nextStart.batch])
  }

  predicate Reorganizes(s: State, step: Step) {
    step.Reorg? && WriteLocked(s) && step.count > 1 && s.created >= step.count
  }

  predicate Replaces(s: State, step: Step) {
    step.ReorgBatches? && WriteLocked(s)
  }

  /** The batches from a number on are replaced, or dropped; the results are the same, and more. */
  predicate Replaced(view: View, next: View, batch: nat) {
    var kept := Min(batch, |view.counts|);
    && Increasing(next.counts) && kept <= |next.counts| && next.counts[..kept] == view.counts[..kept]
    && view.hashes <= next.hashes
  }

  /** In the batches before a number, or at their end. */
  predicate Within(gs: GlobalState, batch: nat) {
    gs.batch < batch || (gs.batch == batch && gs.pos == 0)
  }

  /**
   * What the chain looks like when a step is taken and after it. Entries are created from it, a staked state that is
   * ahead and the state of a reorganization are its states. It changes only in a reorganization, after the count, and
   * when the validator is told that batches are replaced, if it is not ahead of the ones that stay.
   */
  predicate Seen(s: State, view: View, step: Step, next: View) {
    if Reorganizes(s, step) then SameUpTo(view, next, step.count) && Placed(next, step.count, step.state)
    else if Replaces(s, step) then
      Grows(view, next) || (Replaced(view, next, step.count) && Within(s.nextStart, step.count))
    else
      && Grows(view, next)
      && (step.Create? ==>
            && step.chain.batchCounts == next.counts
            && (s.created < step.chain.processed ==>
                  s.created + 1 < |next.hashes| && step.hash == next.hashes[s.created + 1]))
      && (step.Staked? && s.created < step.count ==> Placed(next, step.count, step.state))
  }

  lemma GrowsAllPlaced(s: State, view: View, next: View)
    requires AllPlaced(s, view) && Grows(view, next)
    ensures AllPlaced(s, next)
  {
    forall p | p in s.validations ensures Placed(next, p, s.validations[p].start) &&
        Placed(next, p + 1, s.validations[p].end) {
      GrowsPlaced(view, next, p, s.validations[p].start);
      GrowsPlaced(view, next, p + 1, s.validations[p].end);
    }
    GrowsPlaced(view, next, s.created, s.nextStart);
  }

  lemma EndPlaced(view: View, start: GlobalState, pos: nat, hash: nat)
    requires Increasing(view.counts) && Placed(view, pos, start) && start.batch < |view.counts|
    requires pos + 1 < |view.hashes| && hash == view.hashes[pos + 1]
    ensures var end := EndState(start, pos, view.counts[start.batch], hash);
            end.Some? && Placed(view, pos + 1, end.value) && (end.value.pos > 0 ==> end.value.batch == start.batch)
  {
    StepAgreesWithSearch(view.counts, start, pos, hash);
  }

  lemma PutPlaced(m: map<nat, Validation>, p: nat, v: Validation, view: View)
    requires EntriesPlaced(m, view) && Placed(view, p, v.start) && Placed(view, p + 1, v.end)
    ensures EntriesPlaced(m[p := v], view)
  {
    hide Placed;
  }

  lemma PlacedBatch(view: View, count: nat, gs: GlobalState)
    requires Placed(view, count, gs)
    ensures gs.pos > 0 ==> gs.batch < |view.counts|
  {
  }

  lemma CreatePlaced(config: Config, s: State, chain: Chain, hash: nat, view: View)
    requires AllPlaced(s, view) && chain.batchCounts == view.counts
    requires s.created < chain.processed ==> s.created + 1 < |view.hashes| && hash == view.hashes[s.created + 1]
    ensures AllPlaced(Creates(config, s, chain, hash), view)
  {
    PlacedBatch(view, s.created, s.nextStart);
    hide Placed, EntriesPlaced, Increasing, EndState;
    if s.created < chain.processed && s.nextStart.batch < |view.counts| {
      EndPlaced(view, s.nextStart, s.created, hash);
      var end := EndState(s.nextStart, s.created, view.counts[s.nextStart.batch], hash).value;
      PutPlaced(s.validations, s.created, Validation(s.nextStart, end, Created, []), view);
      PlacedBatch(view, s.created + 1, end);
    }
  }

  /** On the chain the next entry is created exactly if it is not too far ahead, its message has been executed and the
      batch it starts in is there; its end is then where the chain has it. */
  lemma NextIsCreated(config: Config, s: State, chain: Chain, hash: nat, view: View)
    requires AllPlaced(s, view) && chain.batchCounts == view.counts
    requires s.created < chain.processed ==> s.created + 1 < |view.hashes| && hash == view.hashes[s.created + 1]
    ensures var t := Creates(config, s, chain, hash);
            if s.created <= s.validated + config.forwardBlocks && s.created < chain.processed &&
               s.nextStart.batch < |view.counts| then
              && t.created == s.created + 1 && t.nextStart.hash == hash && Placed(view, s.created + 1, t.nextStart)
              && t.validations == s.validations[s.created := Validation(s.nextStart, t.nextStart, Created, [])]
              && t.batchMsgCount == view.counts[s.nextStart.batch] && !t.reread
            else t == s
  {
    PlacedBatch(view, s.created, s.nextStart);
    if s.created < chain.processed && s.nextStart.batch < |view.counts| {
      EndPlaced(view, s.nextStart, s.created, hash);
    }
    hide Placed, EntriesPlaced, Increasing;
  }

  lemma AmongPlaced(t: map<nat, Validation>, s: map<nat, Validation>, view: View)
    requires EntriesPlaced(s, view) && Among(t, s)
    ensures EntriesPlaced(t, view)
  {
    hide Placed;
  }

  lemma StakedPlaced(s: State, count: nat, state: GlobalState, view: View)
    requires Inv(s) && AllPlaced(s, view) && (s.created < count ==> Placed(view, count, state))
    ensures AllPlaced(UpdatesStaked(s, count, state), view)
  {
    WithoutAmong(s.validations, s.validated, Min(count, s.created));
    AmongPlaced(Without(s.validations, s.validated, Min(count, s.created)), s.validations, view);
    hide Placed, EntriesPlaced, Without, Increasing, Inv;
  }

  lemma KeptPlaced(s: State, view: View, count: nat, next: View)
    requires Entries(s) && Increasing(view.counts) && EntriesPlaced(s.validations, view) && SameUpTo(view, next, count)
    ensures EntriesPlaced(Without(s.validations, count, s.created), next)
  {
    hide Placed, SameUpTo, Increasing;
    var kept := Without(s.validations, count, s.created);
    forall p | p in kept ensures Placed(next, p, kept[p].start) && Placed(next, p + 1, kept[p].end) {
      assert p < count;
      SamePlaced(view, next, count, p, s.validations[p].start);
      SamePlaced(view, next, count, p + 1, s.validations[p].end);
    }
  }

  lemma ReorgPlaced(s: State, view: View, count: nat, state: GlobalState, next: View)
    requires Inv(s) && AllPlaced(s, view) && count > 1 && s.created >= count
    requires SameUpTo(view, next, count) && Placed(next, count, state)
    ensures AllPlaced(Reorgs(s, count, state), next)
  {
    hide Placed, EntriesPlaced, Without, Entries, Statuses, Threads, Increasing, Before;
    KeptPlaced(s, view, count, next);
  }

  /** The state of a reorganization is the end of the last entry kept: both are the chain's at the count. */
  lemma ReorgIsFaithful(s: State, view: View, step: Step, next: View)
    requires Inv(s) && AllPlaced(s, view) && Reorganizes(s, step) && Seen(s, view, step, next)
    ensures Faithful(s, step)
  {
    if step.count - 1 in s.validations {
      SamePlaced(view, next, step.count, step.count, s.validations[step.count - 1].end);
      PlacedIsUnique(next, step.count, s.validations[step.count - 1].end, step.state);
    }
    hide Placed, SameUpTo;
  }

  lemma ReplacedPlaces(view: View, next: View, batch: nat, count: nat, gs: GlobalState)
    requires Increasing(view.counts) && Replaced(view, next, batch) && Within(gs, batch) && Placed(view, count, gs)
    ensures Placed(next, count, gs)
    ensures gs.pos > 0 ==> next.counts[gs.batch] == view.counts[gs.batch]
  {
    var kept, b := Min(batch, |view.counts|), gs.batch;
    assert forall i :: 0 <= i < kept ==> next.counts[..kept][i] == view.counts[..kept][i];
    if 0 < b < |next.counts| {
      assert next.counts[b - 1] < next.counts[b];
    }
  }

  /** What comes before a state in those batches is in them, too. */
  lemma EarlierIsWithin(view: View, batch: nat, a: nat, start: GlobalState, b: nat, end: GlobalState)
    requires Increasing(view.counts) && a <= b && Placed(view, a, start) && Placed(view, b, end) && Within(end, batch)
    ensures Within(start, batch)
  {
    assert start.batch <= end.batch;
  }

  lemma EntriesStay(m: map<nat, Validation>, view: View, batch: nat, next: View, created: nat, end: GlobalState)
    requires Increasing(view.counts) && EntriesPlaced(m, view) && (forall p :: p in m ==> p < created)
    requires Placed(view, created, end) && Within(end, batch) && Replaced(view, next, batch)
    ensures EntriesPlaced(m, next)
  {
    hide Placed, Within, Increasing, Replaced;
    forall p | p in m ensures Placed(next, p, m[p].start) && Placed(next, p + 1, m[p].end) {
      EarlierIsWithin(view, batch, p, m[p].start, created, end);
      EarlierIsWithin(view, batch, p + 1, m[p].end, created, end);
      ReplacedPlaces(view, next, batch, p, m[p].start);
      ReplacedPlaces(view, next, batch, p + 1, m[p].end);
    }
  }

  lemma ReplacePlaced(config: Config, s: State, view: View, batch: nat, next: View)
    requires Inv(s) && AllPlaced(s, view) && WriteLocked(s)
    requires Replaced(view, next, batch) && Within(s.nextStart, batch)
    ensures AllPlaced(Apply(config, s, ReorgBatches(batch)), next)
  {
    PlacedBatch(view, s.created, s.nextStart);
    ReplacedPlaces(view, next, batch, s.created, s.nextStart);
    PlacedBatch(next, s.created, s.nextStart);
    EntriesStay(s.validations, view, batch, next, s.created, s.nextStart);
    hide Placed, Within, EntriesPlaced, Statuses, Threads, Before, Entries;
  }

  /** Other batches for the same messages, or more, that move a state which is not in the batches that stay. */
  function Regrouped(view: View, batch: nat, count: nat, gs: GlobalState): View
    requires batch < |view.counts|
  {
    var last := view.counts[|view.counts| - 1];
    view.(counts := view.counts[..batch] + if gs.batch > batch then [last + 1] else [count, last])
  }

  lemma RegroupedMoves(view: View, batch: nat, count: nat, gs: GlobalState)
    requires Increasing(view.counts) && Placed(view, count, gs) && !Within(gs, batch)
    ensures batch < |view.counts|
    ensures var next := Regrouped(view, batch, count, gs);
            Replaced(view, next, batch) && NoShorter(view, next) && !Placed(next, count, gs)
  {
    var next := Regrouped(view, batch, count, gs);
    var last := view.counts[|view.counts| - 1];
    assert Before(view.counts, batch) < view.counts[batch] <= last;
    if gs.batch > batch {
      assert view.counts[batch] <= Before(view.counts, gs.batch);
      assert IsBatch(next.counts, count, batch);
    } else {
      assert count < view.counts[batch];
      assert IsBatch(next.counts, count, batch + 1);
    }
  }

  predicate NoShorter(view: View, next: View) {
    Before(view.counts, |view.counts|) <= Before(next.counts, |next.counts|)
  }

  /**
   * Exactly when no replacement of batches, even by ones with all their messages, takes the entries from where the
   * chain has them: when the next one to be created is in the batches that stay, or at their end.
   */
  lemma ReplaceIsSafe(config: Config, s: State, view: View, batch: nat)
    requires Inv(s) && AllPlaced(s, view) && WriteLocked(s)
    ensures (forall next :: Replaced(view, next, batch) && NoShorter(view, next) ==>
               AllPlaced(Apply(config, s, ReorgBatches(batch)), next))
       <==> Within(s.nextStart, batch)
  {
    if Within(s.nextStart, batch) {
      forall next | Replaced(view, next, batch) && NoShorter(view, next)
        ensures AllPlaced(Apply(config, s, ReorgBatches(batch)), next)
      {
        ReplacePlaced(config, s, view, batch, next);
      }
    } else {
      RegroupedMoves(view, batch, s.created, s.nextStart);
      hide Placed, Replaced;
      assert !AllPlaced(Apply(config, s, ReorgBatches(batch)), Regrouped(view, batch, s.created, s.nextStart));
    }
  }

  /**
   * Batches of messages 1 to 4 and 5 to 7 become batches of 1 to 3 and 4 to 8. No message changes, so the streamer does
   * not reorganize; the validator, told of it, rereads the batch, and goes on from where message 6 no longer is.
   */
  lemma ReplacedBatchIsMissed(config: Config)
    ensures var start := GlobalState(2, 1, 6);
            var view := View([1, 5, 8], 8, [0, 1, 2, 3, 4, 5, 6, 7, 8]);
            var next := view.(counts := [1, 4, 9]);
            var s := Apply(config, Initial(6, start), ReorgBatches(1));
            && AllPlaced(Initial(6, start), view) && Replaced(view, next, 1) && NoShorter(view, next)
            && s.reread && s.nextStart == start
            && Placed(next, 6, GlobalState(2, 2, 6)) && !AllPlaced(s, next)
  {
    var view := View([1, 5, 8], 8, [0, 1, 2, 3, 4, 5, 6, 7, 8]);
    assert view.counts[..1] == [1] == [1, 4, 9][..1];
  }

  lemma StepPlaced(config: Config, s: State, view: View, step: Step, next: View)
    requires Inv(s) && AllPlaced(s, view) && Seen(s, view, step, next)
    ensures AllPlaced(Apply(config, s, step), next)
  {
    if Reorganizes(s, step) {
      ReorgPlaced(s, view, step.count, step.state, next);
    } else if Replaces(s, step) && !Grows(view, next) {
      ReplacePlaced(config, s, view, step.count, next);
    } else {
      GrowsAllPlaced(s, view, next);
      match step
      case Create(chain, hash) => CreatePlaced(config, s, chain, hash, next);
      case Staked(count, state) => StakedPlaced(s, count, state, next);
      case Reorg(count, state) =>
      case _ => OtherPlaced(config, s, step, next);
    }
    hide Creates, UpdatesStaked, Advances, Sends, AllPlaced, Inv, Grows, SameUpTo, Placed;
  }

  lemma OtherPlaced(config: Config, s: State, step: Step, view: View)
    requires AllPlaced(s, view) && !step.Create? && !step.Staked? && !step.Reorg?
    ensures AllPlaced(Apply(config, s, step), view)
  {
    ReadStepAmong(config, s, step);
    AmongPlaced(Apply(config, s, step).validations, s.validations, view);
    ReadStepBatch(config, s, step);
    hide Apply, EntriesPlaced, Placed, Among, Increasing;
  }

  lemma ReadStepBatch(config: Config, s: State, step: Step)
    requires !step.Create? && !step.Staked? && !step.Reorg?
    ensures var t := Apply(config, s, step); t.batchMsgCount == s.batchMsgCount && (s.reread ==> t.reread)
  {
    hide Judge, RecordUntil, CanSend;
  }

  /** A run of the validator, with the chain before each step and after the last. */
  ghost predicate OnChain(config: Config, s: State, steps: seq<Step>, views: seq<View>) {
    && |views| == |steps| + 1
    && AllPlaced(s, views[0])
    && forall i :: 0 <= i < |steps| ==> Seen(Steps(config, s, steps[..i]), views[i], steps[i], views[i + 1])
  }

  /**
   * In every run on a chain that changes in reorganizations only after their count, and whose batches are replaced only
   * ahead of the validator, every entry is where the chain has it, and starts in the state in which the one before it
   * ends.
   */
  lemma {:induction false} EntriesAreOnChain(config: Config, count: nat, state: GlobalState, steps: seq<Step>,
      views: seq<View>)
    requires OnChain(config, Initial(count, state), steps, views)
    ensures AllPlaced(Steps(config, Initial(count, state), steps), views[|steps|])
    ensures Adjacent(Steps(config, Initial(count, state), steps))
  {
    var s := Initial(count, state);
    if steps != [] {
      var before, last := steps[..|steps| - 1], |steps| - 1;
      forall i | 0 <= i < |before|
        ensures Seen(Steps(config, s, before[..i]), views[..|steps|][i], before[i], views[..|steps|][i + 1])
      {
        assert before[..i] == steps[..i];
      }
      EntriesAreOnChain(config, count, state, before, views[..|steps|]);
      RunKeeps(config, count, state, before);
      var t := Steps(config, s, before);
      assert Seen(t, views[last], steps[last], views[last + 1]);
      hide Apply, Inv, AllPlaced, Adjacent, Seen, Faithful;
      StepPlaced(config, t, views[last], steps[last], views[last + 1]);
      StepFollows(config, t, views[last], steps[last], views[last + 1]);
    }
  }

  lemma StepFollows(config: Config, s: State, view: View, step: Step, next: View)
    requires Inv(s) && AllPlaced(s, view) && Adjacent(s) && Seen(s, view, step, next)
    ensures Adjacent(Apply(config, s, step))
  {
    if Reorganizes(s, step) {
      ReorgIsFaithful(s, view, step, next);
      StepAdjacent(config, s, step);
    } else if step.Reorg? {
      assert Apply(config, s, step) == s;
    } else {
      StepAdjacent(config, s, step);
    }
    hide Creates, UpdatesStaked, Advances, Sends, AllPlaced, Inv, Seen, Adjacent;
  }
}

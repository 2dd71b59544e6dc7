/** What every interleaving of the block validator's threads, of staking updates and of reorgs keeps. */
module ValidationProperties {
  import opened Types
  import opened Validation

  // ----- The cursors, the entries and their statuses -----

  ghost predicate Entries(s: State) {
    && s.validated <= s.recordSent <= s.created
    && forall p :: p in s.validations <==> s.validated <= p < s.created
  }

  predicate Statuses(s: State) {
    forall p :: p in s.validations ==> (s.validations[p].status.Created? <==> s.recordSent <= p)
  }

  predicate Threads(s: State) {
    && (s.looping ==> s.validated <= s.loopPos)
    && (s.recorder.Sending? ==> s.recorder.pos <= s.recordSent && s.recorder.until <= s.created)
    && (s.recorder.Preparing? ==> s.recorder.until <= s.recorder.created)
  }

  ghost predicate Inv(s: State) {
    Entries(s) && Statuses(s) && Threads(s)
  }

  lemma CreateKeeps(config: Config, s: State, chain: Chain, hash: nat)
    requires Inv(s)
    ensures Inv(Creates(config, s, chain, hash))
  {
    hide EndState;
  }

  lemma RecordKeeps(config: Config, s: State)
    requires Inv(s)
    ensures Inv(Prepares(config, s)) && Inv(Resumes(s))
  {
    hide Sends;
  }

  lemma SendKeeps(s: State)
    requires Inv(s)
    ensures Inv(Sends(s))
  {
  }

  lemma AdvanceKeeps(s: State, room: bool, roots: nat)
    requires Inv(s)
    ensures Inv(Advances(s, room, roots))
  {
    hide Judge;
  }

  lemma StakedKeeps(s: State, count: nat, state: GlobalState)
    requires Inv(s) && WriteLocked(s)
    ensures Inv(UpdatesStaked(s, count, state))
  {
  }

  lemma ReorgKeeps(s: State, count: nat, state: GlobalState)
    requires Inv(s) && WriteLocked(s)
    ensures Inv(Reorgs(s, count, state))
  {
  }

  lemma StepKeeps(config: Config, s: State, step: Step)
    requires Inv(s)
    ensures Inv(Apply(config, s, step))
  {
    hide Creates, Prepares, Resumes, Sends, Advances, UpdatesStaked, Reorgs;
    match step
    case Create(chain, hash) => CreateKeeps(config, s, chain, hash);
    case Prepare => RecordKeeps(config, s);
    case Resume => RecordKeeps(config, s);
    case SendRecord => SendKeeps(s);
    case StopSending =>
    case Recorded(pos, ok) =>
    case StartLoop =>
    case Advance(room, roots) => AdvanceKeeps(s, room, roots);
    case Launched(pos) =>
    case RunEnds(pos, run, result) =>
    case Staked(count, state) => if WriteLocked(s) { StakedKeeps(s, count, state); }
    case ReorgBatches(count) =>
    case Reorg(count, state) => if WriteLocked(s) { ReorgKeeps(s, count, state); }
  }

  function Steps(config: Config, s: State, steps: seq<Step>): State {
    if steps == [] then s else Apply(config, Steps(config, s, steps[..|steps| - 1]), steps[|steps| - 1])
  }

  /** In every run the entries held are exactly those created and not validated, and unsent exactly from the cursor
      on. */
  lemma {:induction false} RunKeeps(config: Config, count: nat, state: GlobalState, steps: seq<Step>)
    ensures Inv(Steps(config, Initial(count, state), steps))
  {
    if steps != [] {
      var before := steps[..|steps| - 1];
      RunKeeps(config, count, state, before);
      StepKeeps(config, Steps(config, Initial(count, state), before), steps[|steps| - 1]);
    }
    hide Apply, Inv;
  }

  /** The validation loop always finds the entry it looks for. */
  lemma LoopFindsEntry(s: State)
    requires Inv(s) && s.looping && s.loopPos < s.recordSent
    ensures s.loopPos in s.validations && !s.validations[s.loopPos].status.Created?
  {
  }

  /** Records can be sent up to the end of the range unless a staking update has overtaken the start of it. */
  lemma RecordsAreSent(s: State)
    requires Inv(s) && s.recorder.Sending? && s.recorder.pos < s.recorder.until
    ensures CanSend(s) <==> s.recorder.pos == s.recordSent
    ensures CanSend(s) ==> Sends(s).recorder.pos == Sends(s).recordSent
  {
  }

  /** Recording starts exactly while entries are unsent and not too far ahead, with all of those. */
  lemma RecordingStarts(config: Config, s: State)
    requires s.recorder.Idle?
    ensures var (t, ahead) := (Prepares(config, s), s.validated + config.prerecordedBlocks);
            if s.recordSent < s.created && s.recordSent < ahead then
              && t.recorder.Preparing? && t == s.(recorder := t.recorder)
              && t.recorder.pos == s.recordSent && t.recorder.created == s.created
              && t.recorder.until <= s.created && t.recorder.until <= ahead
              && (t.recorder.until == s.created || t.recorder.until == ahead)
            else t == s
  {
  }

  /** After the preparation sending starts, unless the entries to be sent have been reorganized meanwhile. */
  lemma SendingStarts(s: State)
    requires s.recorder.Preparing?
    ensures var p := s.recorder;
            Resumes(s) == s.(recorder := if s.created >= p.created && s.recordSent >= p.pos then Sending(p.pos, p.until)
                                         else Idle)
  {
  }

  /** Nothing is sent past the range. */
  lemma SendingStops(s: State)
    requires s.recorder.Sending? && s.recorder.pos >= s.recorder.until
    ensures Sends(s) == s.(recorder := Idle)
  {
  }

  /** The loop goes over the entries sent, from the first one not validated on, and ends behind the last. */
  lemma LoopGoesRound(config: Config, s: State, room: bool, roots: nat)
    ensures !s.looping ==> Apply(config, s, StartLoop) == s.(looping := true, loopPos := s.validated)
    ensures s.looping && s.loopPos >= s.recordSent ==> Advances(s, room, roots) == s.(looping := false)
  {
  }

  /** A validator that is told of a batch reorganization reads the batch it is in, or ahead in, again. */
  lemma BatchIsReread(config: Config, s: State, count: nat, chain: Chain, hash: nat)
    requires WriteLocked(s)
    ensures var t := Apply(config, s, ReorgBatches(count));
            && t == s.(reread := s.reread || count <= s.nextStart.batch)
            && var u := Creates(config, t, chain, hash);
            (count <= s.nextStart.batch && u.created == s.created + 1 ==>
              && s.nextStart.batch < |chain.batchCounts|
              && u.batchMsgCount == chain.batchCounts[s.nextStart.batch] && !u.reread)
  {
  }

  /** One message, from its creation to its validation, while nothing comes between. */
  function RecordNext(config: Config, s: State): State {
    Apply(config, Sends(Resumes(Prepares(config, s))), StopSending)
  }

  /** The next entry, if it is not too far ahead, is sent and marked. */
  lemma NextIsRecorded(config: Config, s: State)
    requires Inv(s) && s.recorder.Idle? && s.recordSent < s.created
    requires s.recordSent < s.validated + config.prerecordedBlocks
    ensures var (t, p) := (RecordNext(config, s), s.recordSent);
            && p in s.validations
            && t == s.(recordSent := p + 1, validations := s.validations[p := s.validations[p].(status := RecordSent)])
  {
    RecordingStarts(config, s);
    var t := Prepares(config, s);
    hide Prepares;
    SendingStarts(t);
    hide Resumes;
  }

  /** An entry whose record is ready is launched. */
  lemma NextIsLaunched(config: Config, s: State, roots: nat)
    requires Inv(s) && !s.looping && s.validated < s.recordSent
    requires s.validations[s.validated].status.RecordSent?
    ensures var prepared := Apply(config, s, Recorded(s.validated, true));
            var launched := Advances(Apply(config, prepared, StartLoop), true, roots);
            var sent := Apply(config, launched, Launched(s.validated));
            var v := s.validations[s.validated];
            && s.validated in s.validations
            && sent == s.(looping := true, loopPos := s.validated + 1, validations := sent.validations)
            && sent.validations.Keys == s.validations.Keys
            && (forall p :: p in s.validations && p != s.validated ==> sent.validations[p] == s.validations[p])
            && var w := sent.validations[s.validated];
            && w.start == v.start && w.end == v.end && w.status == ValidationSent
            && |w.runs| == roots && forall i :: 0 <= i < roots ==> w.runs[i].Running?
  {
  }

  /** An entry all of whose runs have finished in the right state becomes valid. */
  lemma NextIsValid(config: Config, s: State, room: bool, roots: nat)
    requires Inv(s) && !s.looping && s.validated < s.recordSent
    requires var v := s.validations[s.validated];
             v.status.ValidationSent? && v.start == s.lastValid && Proven(v)
    ensures var t := Advances(Apply(config, s, StartLoop), room, roots);
            && s.validated in s.validations
            && t.validated == s.validated + 1 && t.lastValid == s.validations[s.validated].end
            && t.validations == s.validations - {s.validated} && t.created == s.created && t.recordSent == s.recordSent
  {
    ValidRunsFinish(s.validations[s.validated].runs, s.validations[s.validated].end);
    hide Judge;
  }

  // ----- What has been validated -----

  /** Every run of a validation has finished, in the state it says. */
  predicate Proven(v: Validation) {
    forall i :: 0 <= i < |v.runs| ==> v.runs[i] == Finished(v.end)
  }

  lemma {:induction false} ValidRunsFinish(runs: seq<Run>, end: GlobalState)
    ensures Judge(runs, end).Valid? <==> forall i :: 0 <= i < |runs| ==> runs[i] == Finished(end)
  {
    if runs != [] {
      ValidRunsFinish(runs[1..], end);
      if Judge(runs, end).Valid? {
        forall i | 0 <= i < |runs| ensures runs[i] == Finished(end) {
          assert i > 0 ==> runs[i] == runs[1..][i - 1];
        }
      } else if runs[0] == Finished(end) {
        var i :| 0 <= i < |runs[1..]| && runs[1..][i] != Finished(end);
        assert runs[i + 1] != Finished(end);
      }
    }
  }

  /** A run that failed, or finished in another state, while all the runs before it finished in the right one. */
  predicate FailsAt(runs: seq<Run>, end: GlobalState, i: nat) {
    && i < |runs| && !runs[i].Running? && runs[i] != Finished(end)
    && forall j :: 0 <= j < i ==> runs[j] == Finished(end)
  }

  /** A run that goes on, while all the runs before it finished in the right state. */
  predicate WaitsAt(runs: seq<Run>, end: GlobalState, i: nat) {
    i < |runs| && runs[i].Running? && forall j :: 0 <= j < i ==> runs[j] == Finished(end)
  }

  /** The first run that has not finished in the right state decides. */
  lemma {:induction false} FirstRunDecides(runs: seq<Run>, end: GlobalState)
    ensures Judge(runs, end).Invalid? <==> exists i: nat :: FailsAt(runs, end, i)
    ensures Judge(runs, end).NotReady? <==> exists i: nat :: WaitsAt(runs, end, i)
  {
    if runs != [] {
      var rest := runs[1..];
      FirstRunDecides(rest, end);
      if runs[0] != Finished(end) {
        assert FailsAt(runs, end, 0) || WaitsAt(runs, end, 0);
      } else {
        assert forall i :: 0 < i < |runs| ==> runs[i] == rest[i - 1];
        forall i: nat ensures FailsAt(rest, end, i) == FailsAt(runs, end, i + 1) &&
                              WaitsAt(rest, end, i) == WaitsAt(runs, end, i + 1) {
          LaterRun(runs, end, i);
        }
        assert !FailsAt(runs, end, 0) && !WaitsAt(runs, end, 0);
        assert forall i: nat :: FailsAt(runs, end, i) ==> i > 0 && FailsAt(rest, end, i - 1);
        assert forall i: nat :: WaitsAt(runs, end, i) ==> i > 0 && WaitsAt(rest, end, i - 1);
      }
    }
  }

  lemma LaterRun(runs: seq<Run>, end: GlobalState, i: nat)
    requires runs != [] && runs[0] == Finished(end)
    ensures FailsAt(runs[1..], end, i) == FailsAt(runs, end, i + 1)
    ensures WaitsAt(runs[1..], end, i) == WaitsAt(runs, end, i + 1)
  {
    var rest := runs[1..];
    assert forall j :: 0 <= j < |rest| ==> rest[j] == runs[j + 1];
    assert forall j :: 0 < j < |runs| ==> runs[j] == rest[j - 1];
  }

  /** The entry that the validation loop has reached must be reorganized: its record failed, or its validation is the
      next and starts in another state than the last valid one, or has a run that went wrong before any that goes on. */
  ghost predicate IsBad(s: State) {
    && s.looping && s.loopPos < s.recordSent && s.loopPos in s.validations
    && var v := s.validations[s.loopPos];
      || v.status.RecordFailed?
      || (v.status.ValidationSent? && s.loopPos == s.validated &&
           (v.start != s.lastValid || exists i: nat :: FailsAt(v.runs, v.end, i)))
  }

  /** The entry is the next and all its runs have finished in the right state. */
  ghost predicate IsDone(s: State) {
    && s.looping && s.loopPos < s.recordSent && s.loopPos == s.validated && s.loopPos in s.validations
    && var v := s.validations[s.loopPos];
      v.status.ValidationSent? && v.start == s.lastValid && Proven(v)
  }

  /**
   * What a turn of the validation loop does: exactly the entries that are done become valid, exactly a bad one ends
   * the loop as bad, a prepared one is launched on every root while there is room, and any other is passed by.
   */
  lemma TurnOfLoop(s: State, room: bool, roots: nat)
    requires s.looping && s.loopPos < s.recordSent && s.loopPos in s.validations
    ensures var (t, v) := (Advances(s, room, roots), s.validations[s.loopPos]);
            if IsDone(s) then
              && t == s.(validated := s.loopPos + 1, lastValid := v.end, loopPos := s.loopPos + 1,
                         validations := t.validations)
              && t.validations == map p | p in s.validations && p != s.loopPos :: s.validations[p]
            else if IsBad(s) || (!room && !(v.status.ValidationSent? && s.loopPos == s.validated)) then
              t == s.(looping := false)
            else if v.status.Prepared? then
              && t == s.(loopPos := s.loopPos + 1, validations := t.validations)
              && t.validations.Keys == s.validations.Keys
              && (forall p :: p in s.validations && p != s.loopPos ==> t.validations[p] == s.validations[p])
              && var w := t.validations[s.loopPos];
              && w == v.(status := SendingValidation, runs := w.runs) && |w.runs| == roots
              && forall i :: 0 <= i < roots ==> w.runs[i].Running?
            else t == s.(loopPos := s.loopPos + 1)
  {
    var v := s.validations[s.loopPos];
    FirstRunDecides(v.runs, v.end);
    ValidRunsFinish(v.runs, v.end);
    hide Judge, FailsAt;
  }

  /** Validations that follow one another from one state to another. */
  predicate Links(from: GlobalState, log: seq<Validation>, to: GlobalState) {
    if log == [] then from == to
    else log[|log| - 1].end == to && Proven(log[|log| - 1]) && Links(from, log[..|log| - 1], log[|log| - 1].start)
  }

  /** A run, with what has been validated since the valid state was last set from outside, and where that was. */
  datatype History = History(state: State, base: nat, from: GlobalState, log: seq<Validation>)

  /** The steps that set the valid state from outside. */
  predicate Jumps(s: State, step: Step) {
    && WriteLocked(s)
    && match step
       case Staked(count, _) => count > s.validated
       case Reorg(count, _) => count > 1 && s.created >= count && s.validated > count
       case _ => false
  }

  function Follow(config: Config, h: History, step: Step): History {
    var s := Apply(config, h.state, step);
    if step.Advance? && Accepts(h.state) then h.(state := s, log := h.log + [h.state.validations[h.state.loopPos]])
    else if Jumps(h.state, step) then History(s, s.validated, s.lastValid, [])
    else h.(state := s)
  }

  predicate Sound(h: History) {
    h.base + |h.log| == h.state.validated && Links(h.from, h.log, h.state.lastValid)
  }

  /** Only accepting an entry, and setting the state from outside, changes what is valid. */
  lemma ValidStateChanges(config: Config, s: State, step: Step)
    requires !(step.Advance? && Accepts(s)) && !Jumps(s, step)
    ensures var t := Apply(config, s, step); t.validated == s.validated && t.lastValid == s.lastValid
  {
    hide EndState, Judge, CanSend;
  }

  lemma FollowKeeps(config: Config, h: History, step: Step)
    requires Sound(h)
    ensures Sound(Follow(config, h, step))
  {
    var s := h.state;
    if step.Advance? && Accepts(s) {
      var v := s.validations[s.loopPos];
      ValidRunsFinish(v.runs, v.end);
      assert (h.log + [v])[..|h.log|] == h.log;
    } else if !Jumps(s, step) {
      ValidStateChanges(config, s, step);
    }
    hide Creates, Prepares, Resumes, Sends, UpdatesStaked, Reorgs;
  }

  function FollowAll(config: Config, h: History, steps: seq<Step>): History {
    if steps == [] then h else Follow(config, FollowAll(config, h, steps[..|steps| - 1]), steps[|steps| - 1])
  }

  /**
   * In every run, since the valid state was last set from outside, one validation was accepted for each message,
   * each starts in the state the one before ends in, and all runs of each ended in its end state.
   */
  lemma {:induction false} ValidatedStateIsProven(config: Config, count: nat, state: GlobalState, steps: seq<Step>)
    ensures Sound(FollowAll(config, History(Initial(count, state), count, state, []), steps))
    ensures FollowAll(config, History(Initial(count, state), count, state, []), steps).state ==
            Steps(config, Initial(count, state), steps)
  {
    if steps != [] {
      var before := steps[..|steps| - 1];
      ValidatedStateIsProven(config, count, state, before);
      FollowKeeps(config, FollowAll(config, History(Initial(count, state), count, state, []), before),
          steps[|steps| - 1]);
    }
    hide Apply, Sound, Accepts, Jumps;
  }

  // ----- Accepted validations have been run -----

  /** A validation that has been sent has runs. */
  predicate SentHaveRuns(m: map<nat, Validation>) {
    forall p :: p in m ==> (m[p].status.SendingValidation? || m[p].status.ValidationSent?) ==> m[p].runs != []
  }

  predicate Rooted(step: Step) {
    step.Advance? ==> step.roots > 0
  }

  lemma StepHasRuns(config: Config, s: State, step: Step)
    requires SentHaveRuns(s.validations) && Rooted(step)
    ensures SentHaveRuns(Apply(config, s, step).validations)
  {
    hide Judge, RecordUntil, EndState;
    match step
    case Create(chain, hash) => hide Advances, Sends, UpdatesStaked, Reorgs;
    case Advance(room, roots) => hide Creates, Sends, UpdatesStaked, Reorgs;
    case _ => hide Creates, Advances;
  }

  /**
   * In every run whose validations are sent to at least one module, every validation accepted since the valid state
   * was last set from outside has a run, and all its runs ended in its end state.
   */
  lemma {:induction false} AcceptedWereRun(config: Config, count: nat, state: GlobalState, steps: seq<Step>)
    requires forall i :: 0 <= i < |steps| ==> Rooted(steps[i])
    ensures var h := FollowAll(config, History(Initial(count, state), count, state, []), steps);
            && SentHaveRuns(h.state.validations)
            && forall i :: 0 <= i < |h.log| ==> h.log[i].runs != [] && Proven(h.log[i])
  {
    if steps != [] {
      var before, step := steps[..|steps| - 1], steps[|steps| - 1];
      AcceptedWereRun(config, count, state, before);
      var h := FollowAll(config, History(Initial(count, state), count, state, []), before);
      StepHasRuns(config, h.state, step);
      if step.Advance? && Accepts(h.state) {
        var v := h.state.validations[h.state.loopPos];
        ValidRunsFinish(v.runs, v.end);
      }
    }
    hide Apply;
  }

  // ----- Entries follow one another -----

  predicate Joined(m: map<nat, Validation>, p: nat) {
    p in m && p + 1 in m ==> m[p].end == m[p + 1].start
  }

  predicate Adjacent(s: State) {
    && (forall p {:trigger Joined(s.validations, p)} :: p in s.validations ==> Joined(s.validations, p))
    && (s.created > 0 && s.created - 1 in s.validations ==> s.validations[s.created - 1].end == s.nextStart)
  }

  /** A reorg restarts from the state that the last entry kept ends in: the chain before it has not changed. */
  predicate Faithful(s: State, step: Step) {
    step.Reorg? && step.count > 0 && step.count - 1 in s.validations ==> step.state == s.validations[step.count - 1].end
  }

  lemma CreateAdjacent(config: Config, s: State, chain: Chain, hash: nat)
    requires Inv(s) && Adjacent(s)
    ensures Adjacent(Creates(config, s, chain, hash))
  {
    hide EndState;
    var t := Creates(config, s, chain, hash);
    forall p | p in t.validations ensures Joined(t.validations, p) {
      assert Joined(s.validations, p);
    }
  }

  /** Some of the same entries, with the same states. */
  predicate Among(t: map<nat, Validation>, s: map<nat, Validation>) {
    forall p :: p in t ==> p in s && t[p].start == s[p].start && t[p].end == s[p].end
  }

  lemma AmongAdjacent(s: State, t: State)
    requires Adjacent(s) && Among(t.validations, s.validations)
    requires t.created > 0 && t.created - 1 in t.validations ==> t.validations[t.created - 1].end == t.nextStart
    ensures Adjacent(t)
  {
    forall p | p in t.validations ensures Joined(t.validations, p) {
      assert Joined(s.validations, p);
    }
  }

  lemma ReadStepAmong(config: Config, s: State, step: Step)
    requires !step.Create? && !step.Staked? && !step.Reorg?
    ensures var t := Apply(config, s, step);
            Among(t.validations, s.validations) && t.created == s.created && t.nextStart == s.nextStart
  {
    hide Judge, RecordUntil;
  }

  lemma WithoutAmong(m: map<nat, Validation>, lo: nat, hi: nat)
    ensures Among(Without(m, lo, hi), m)
    ensures forall p :: p in Without(m, lo, hi) ==> !(lo <= p < hi)
  {
  }

  lemma StakedAdjacent(s: State, count: nat, state: GlobalState)
    requires Inv(s) && Adjacent(s)
    ensures Adjacent(UpdatesStaked(s, count, state))
  {
    if count > s.validated {
      var t := UpdatesStaked(s, count, state);
      WithoutAmong(s.validations, s.validated, Min(count, s.created));
      AmongAdjacent(s, t);
    }
  }

  lemma ReorgAdjacent(s: State, count: nat, state: GlobalState)
    requires Inv(s) && Adjacent(s) && Faithful(s, Reorg(count, state))
    ensures Adjacent(Reorgs(s, count, state))
  {
    WithoutAmong(s.validations, count, s.created);
    hide Without, Statuses, Threads;
    if count > 1 && s.created >= count {
      AmongAdjacent(s, Reorgs(s, count, state));
    }
  }

  lemma StepAdjacent(config: Config, s: State, step: Step)
    requires Inv(s) && Adjacent(s) && Faithful(s, step)
    ensures Adjacent(Apply(config, s, step))
  {
    hide Creates, UpdatesStaked, Reorgs, Inv, Adjacent, Faithful, Prepares, Resumes, Sends, Advances, WithStatus, Ends;
    match step
    case Create(chain, hash) => CreateAdjacent(config, s, chain, hash);
    case Staked(count, state) => if WriteLocked(s) { StakedAdjacent(s, count, state); }
    case Reorg(count, state) => if WriteLocked(s) { ReorgAdjacent(s, count, state); }
    case _ => OtherAdjacent(config, s, step);
  }

  lemma OtherAdjacent(config: Config, s: State, step: Step)
    requires !step.Create? && !step.Staked? && !step.Reorg? && Adjacent(s)
    ensures Adjacent(Apply(config, s, step))
  {
    hide Apply;
    ReadStepAmong(config, s, step);
    AmongAdjacent(s, Apply(config, s, step));
  }

  ghost predicate AllFaithful(config: Config, s: State, steps: seq<Step>) {
    forall i :: 0 <= i < |steps| ==> Faithful(Steps(config, s, steps[..i]), steps[i])
  }

  /** In every run whose reorgs are faithful, each entry starts in the state the one before it ends in. */
  lemma {:induction false} EntriesFollow(config: Config, count: nat, state: GlobalState, steps: seq<Step>)
    requires AllFaithful(config, Initial(count, state), steps)
    ensures Adjacent(Steps(config, Initial(count, state), steps))
  {
    if steps != [] {
      var before, s := steps[..|steps| - 1], Initial(count, state);
      forall i | 0 <= i < |before| ensures Faithful(Steps(config, s, before[..i]), before[i]) {
        assert before[..i] == steps[..i];
      }
      EntriesFollow(config, count, state, before);
      RunKeeps(config, count, state, before);
      StepAdjacent(config, Steps(config, s, before), steps[|steps| - 1]);
    }
    hide Apply, Inv, Adjacent, Faithful;
  }
}

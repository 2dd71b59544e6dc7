/** The block validator: each method is what one thread does while it holds the lock. */
module BlockValidator {
  import opened Types
  import opened Validation
  import opened ValidationProperties

  class BlockValidator {
    const config: Config
    var created: nat
    var recordSent: nat
    var validated: nat
    var validations: map<nat, Validation>
    var nextCreateStartGS: GlobalState
    var nextCreateBatchMsgCount: nat
    var nextCreateBatchReread: bool
    var lastValidGS: GlobalState
    var valLoopPos: nat
    var looping: bool
    var recorder: Recorder

    ghost function Current(): State
      reads this
    {
      State(created, recordSent, validated, validations, nextCreateStartGS, nextCreateBatchMsgCount,
            nextCreateBatchReread, lastValidGS, valLoopPos, looping, recorder)
    }

    /** The chain has caught up with a valid state. */
    constructor (config: Config, count: nat, state: GlobalState)
      ensures this.config == config && Current() == Initial(count, state)
    {
      this.config := config;
      created, recordSent, validated := count, count, count;
      validations := map[];
      nextCreateStartGS, nextCreateBatchMsgCount, nextCreateBatchReread := state, 0, true;
      lastValidGS, valLoopPos, looping, recorder := state, 0, false, Idle;
    }

    method CreateNextValidationEntry(chain: Chain, endHash: nat) returns (ok: bool)
      modifies this
      ensures Current() == Creates(config, old(Current()), chain, endHash)
      ensures ok <==> created == old(created) + 1
    {
      var pos := created;
      if pos > validated + config.forwardBlocks {
        return false;
      }
      if pos >= chain.processed {
        return false;
      }
      if nextCreateStartGS.pos == 0 || nextCreateBatchReread {
        if |chain.batchCounts| <= nextCreateStartGS.batch {
          return false;
        }
        nextCreateBatchMsgCount := chain.batchCounts[nextCreateStartGS.batch];
        nextCreateBatchReread := false;
      }
      var endGS;
      if pos + 1 < nextCreateBatchMsgCount {
        endGS := GlobalState(nextCreateStartGS.batch, nextCreateStartGS.pos + 1, endHash);
      } else if pos + 1 == nextCreateBatchMsgCount {
        endGS := GlobalState(nextCreateStartGS.batch + 1, 0, endHash);
      } else {
        return false;
      }
      validations := validations[pos := Validation(nextCreateStartGS, endGS, Created, [])];
      nextCreateStartGS := endGS;
      created := pos + 1;
      return true;
    }

    /** The first locked part of sending records: which to send. */
    method PrepareToRecord()
      requires recorder.Idle?
      modifies this
      ensures Current() == Prepares(config, old(Current()))
    {
      var pos := recordSent;
      var until := validated + config.prerecordedBlocks;
      if until > created {
        until := created;
      }
      if until <= pos {
        return;
      }
      recorder := Preparing(pos, until, created);
    }

    /** The start of the second locked part: a reorg in between means starting again. */
    method ResumeRecording()
      requires recorder.Preparing?
      modifies this
      ensures Current() == Resumes(old(Current()))
    {
      if created < recorder.created || recordSent < recorder.pos {
        recorder := Idle;
        return;
      }
      recorder := Sending(recorder.pos, recorder.until);
    }

    /** One turn of the loop that sends records. */
    method SendOneRecord() returns (ok: bool)
      requires recorder.Sending?
      modifies this
      ensures Current() == Sends(old(Current())) && ok == CanSend(old(Current()))
    {
      var pos := recorder.pos;
      if pos >= recorder.until {
        recorder := Idle;
        return false;
      }
      if pos !in validations {
        recorder := Idle;
        return false;
      }
      if validations[pos].status != Created {
        recorder := Idle;
        return false;
      }
      validations := validations[pos := validations[pos].(status := RecordSent)];
      recordSent := pos + 1;
      recorder := Sending(pos + 1, recorder.until);
      return true;
    }

    /** The verdict on a validation, from its runs in order. */
    method JudgeRuns(v: Validation) returns (verdict: Verdict)
      ensures verdict == Judge(v.runs, v.end)
      ensures verdict.Invalid? <==> exists i: nat :: FailsAt(v.runs, v.end, i)
    {
      FirstRunDecides(v.runs, v.end);
      var i := 0;
      while i < |v.runs|
        invariant 0 <= i <= |v.runs|
        invariant Judge(v.runs, v.end) == Judge(v.runs[i..], v.end)
      {
        if v.runs[i].Running? {
          return NotReady;
        }
        if v.runs[i] != Finished(v.end) {
          return Invalid;
        }
        assert v.runs[i..][1..] == v.runs[i + 1..];
        i := i + 1;
      }
      assert v.runs[i..] == [];
      return Valid;
    }

    /** One turn of the validation loop; the result is the entry to reorganize from, if one is bad. */
    method AdvanceValidations(room: bool, roots: nat) returns (bad: Option<nat>)
      requires looping
      modifies this
      ensures Current() == Advances(old(Current()), room, roots)
      ensures bad.Some? ==> bad.value == old(valLoopPos) && !looping
      ensures bad.Some? <==> IsBad(old(Current()))
    {
      var pos := valLoopPos;
      if pos >= recordSent || pos !in validations {
        looping := false;
        return None;
      }
      var v := validations[pos];
      if v.status == RecordFailed {
        looping := false;
        return Some(pos);
      }
      if v.status == ValidationSent && pos == validated {
        if v.start != lastValidGS {
          looping := false;
          return Some(pos);
        }
        var verdict := JudgeRuns(v);
        if verdict == NotReady {
          valLoopPos := pos + 1;
          return None;
        }
        if verdict == Invalid {
          looping := false;
          return Some(pos);
        }
        lastValidGS := v.end;
        validated := pos + 1;
        validations := validations - {pos};
        valLoopPos := pos + 1;
        return None;
      }
      if !room {
        looping := false;
        return None;
      }
      if v.status == Prepared {
        validations := validations[pos := v.(status := SendingValidation, runs := seq(roots, i => Running))];
      }
      valLoopPos := pos + 1;
      return None;
    }

    /** Drops the entries of a range, one by one. */
    method DropEntries(from: nat, to: nat)
      modifies this`validations
      ensures validations == Without(old(validations), from, to)
    {
      var pos := from;
      while pos < to
        invariant from <= pos
        invariant pos <= to || pos == from
        invariant validations == Without(old(validations), from, pos)
      {
        validations := validations - {pos};
        pos := pos + 1;
      }
    }

    method UpdateLatestStaked(count: nat, state: GlobalState)
      requires WriteLocked(Current())
      modifies this
      ensures Current() == UpdatesStaked(old(Current()), count, state)
    {
      if count <= validated {
        return;
      }
      DropEntries(validated, Min(count, created));
      if created < count {
        nextCreateStartGS := state;
        nextCreateBatchReread := true;
        created := count;
      }
      if recordSent < count {
        recordSent := count;
      }
      validated := count;
      valLoopPos := count;
      lastValidGS := state;
    }

    method ReorgToBatchCount(count: nat)
      requires WriteLocked(Current())
      modifies this
      ensures Current() == Apply(config, old(Current()), ReorgBatches(count))
    {
      if nextCreateStartGS.batch >= count {
        nextCreateBatchReread := true;
      }
    }

    /** The state is the one the chain is in at the count. */
    method ReorgTo(count: nat, state: GlobalState) returns (ok: bool)
      requires WriteLocked(Current())
      modifies this
      ensures Current() == Reorgs(old(Current()), count, state)
      ensures ok <==> count > 1
    {
      if count <= 1 {
        return false;
      }
      if created < count {
        return true;
      }
      DropEntries(count, created);
      nextCreateStartGS := state;
      nextCreateBatchReread := true;
      created := count;
      if recordSent > count {
        recordSent := count;
      }
      if validated > count {
        validated := count;
        lastValidGS := state;
      }
      return true;
    }
  }
}

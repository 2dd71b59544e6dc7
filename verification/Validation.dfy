/**
 * The block validator as a state machine. Entries are created, sent to be recorded, validated and dropped by
 * three threads that share a read lock; staking updates and reorgs hold the write lock.
 */
module Validation {
  import opened Types

  /** A global state: how far into which batch, and the hash of what execution gave. */
  datatype GlobalState = GlobalState(batch: nat, pos: nat, hash: nat)

  datatype Status = Created | RecordSent | RecordFailed | Prepared | SendingValidation | ValidationSent

  datatype Run = Running | Finished(end: GlobalState) | Failed

  datatype Validation = Validation(start: GlobalState, end: GlobalState, status: Status, runs: seq<Run>)

  /** Where the recording thread is: between its two locked parts, or inside the second one. */
  datatype Recorder = Idle | Preparing(pos: nat, until: nat, created: nat) | Sending(pos: nat, until: nat)

  datatype State = State(
    created: nat,
    recordSent: nat,
    validated: nat,
    validations: map<nat, Validation>,
    nextStart: GlobalState,
    batchMsgCount: nat,
    reread: bool,
    lastValid: GlobalState,
    loopPos: nat,
    looping: bool,
    recorder: Recorder)

  /** What the rest of the node says when an entry is created: messages executed, and the message count after each
      batch. */
  datatype Chain = Chain(processed: nat, batchCounts: seq<nat>)

  datatype Config = Config(forwardBlocks: nat, prerecordedBlocks: nat)

  datatype Step =
    | Create(chain: Chain, hash: nat)
    | Prepare
    | Resume
    | SendRecord
    | StopSending
    | Recorded(pos: nat, ok: bool)
    | StartLoop
    | Advance(room: bool, roots: nat)
    | Launched(pos: nat)
    | RunEnds(pos: nat, run: nat, result: Run)
    | Staked(count: nat, state: GlobalState)
    | ReorgBatches(count: nat)
    | Reorg(count: nat, state: GlobalState)

  function Without(m: map<nat, Validation>, lo: nat, hi: nat): map<nat, Validation> {
    map p | p in m && !(lo <= p < hi) :: m[p]
  }

  /** The state a message ends in, at the end of its batch or before it. */
  function EndState(start: GlobalState, pos: nat, batchMsgCount: nat, hash: nat): Option<GlobalState> {
    if pos + 1 < batchMsgCount then Some(GlobalState(start.batch, start.pos + 1, hash))
    else if pos + 1 == batchMsgCount then Some(GlobalState(start.batch + 1, 0, hash))
    else None
  }

  function Creates(config: Config, s: State, chain: Chain, hash: nat): State {
    if s.created > s.validated + config.forwardBlocks || s.created >= chain.processed then s
    else if (s.nextStart.pos == 0 || s.reread) && |chain.batchCounts| <= s.nextStart.batch then s
    else
      var read := if s.nextStart.pos == 0 || s.reread
                  then s.(batchMsgCount := chain.batchCounts[s.nextStart.batch], reread := false) else s;
      match EndState(s.nextStart, s.created, read.batchMsgCount, hash)
      case None => read
      case Some(end) =>
        read.(validations := s.validations[s.created := Validation(s.nextStart, end, Created, [])],
              nextStart := end, created := s.created + 1)
  }

  /** How far to record, not including the end. */
  function RecordUntil(config: Config, s: State): nat {
    Min(s.validated + config.prerecordedBlocks, s.created)
  }

  function Prepares(config: Config, s: State): State {
    if s.recorder.Idle? && s.recordSent < RecordUntil(config, s)
    then s.(recorder := Preparing(s.recordSent, RecordUntil(config, s), s.created))
    else s
  }

  function Resumes(s: State): State {
    if !s.recorder.Preparing? then s
    else if s.created < s.recorder.created || s.recordSent < s.recorder.pos then s.(recorder := Idle)
    else s.(recorder := Sending(s.recorder.pos, s.recorder.until))
  }

  /** Whether the entry to be sent is there and has not been sent. */
  predicate CanSend(s: State) {
    && s.recorder.Sending? && s.recorder.pos < s.recorder.until
    && s.recorder.pos in s.validations && s.validations[s.recorder.pos].status.Created?
  }

  function Sends(s: State): State {
    if !s.recorder.Sending? then s
    else if !CanSend(s) then s.(recorder := Idle)
    else
      var pos := s.recorder.pos;
      s.(validations := s.validations[pos := s.validations[pos].(status := RecordSent)],
         recordSent := pos + 1, recorder := Sending(pos + 1, s.recorder.until))
  }

  function WithStatus(s: State, pos: nat, from: Status, to: Status): State {
    if pos in s.validations && s.validations[pos].status == from
    then s.(validations := s.validations[pos := s.validations[pos].(status := to)])
    else s
  }

  /** What the runs of a validation say, taken in order. */
  datatype Verdict = Valid | NotReady | Invalid

  function Judge(runs: seq<Run>, end: GlobalState): Verdict {
    if runs == [] then Valid
    else if runs[0].Running? then NotReady
    else if runs[0] != Finished(end) then Invalid
    else Judge(runs[1..], end)
  }

  /** The validation loop has reached the first entry not validated, and it is as it should be. */
  predicate Accepts(s: State) {
    && s.looping && s.loopPos < s.recordSent && s.loopPos == s.validated && s.loopPos in s.validations
    && var v := s.validations[s.loopPos];
      && v.status.ValidationSent? && v.start == s.lastValid && Judge(v.runs, v.end).Valid?
  }

  function Launches(s: State, roots: nat): State
    requires s.loopPos in s.validations
  {
    var v := s.validations[s.loopPos];
    s.(validations := s.validations[s.loopPos := v.(status := SendingValidation, runs := seq(roots, i => Running))],
       loopPos := s.loopPos + 1)
  }

  function Accepted(s: State): State
    requires s.loopPos in s.validations
  {
    s.(lastValid := s.validations[s.loopPos].end, validated := s.loopPos + 1,
       validations := s.validations - {s.loopPos}, loopPos := s.loopPos + 1)
  }

  /** One turn of the validation loop. */
  function Advances(s: State, room: bool, roots: nat): State {
    if !s.looping then s
    else if s.recordSent <= s.loopPos || s.loopPos !in s.validations then s.(looping := false)
    else
      var v := s.validations[s.loopPos];
      if v.status.RecordFailed? then s.(looping := false)
      else if v.status.ValidationSent? && s.loopPos == s.validated then
        if v.start != s.lastValid then s.(looping := false)
        else
          match Judge(v.runs, v.end)
          case NotReady => s.(loopPos := s.loopPos + 1)
          case Invalid => s.(looping := false)
          case Valid => Accepted(s)
      else if !room then s.(looping := false)
      else if v.status.Prepared? then Launches(s, roots)
      else s.(loopPos := s.loopPos + 1)
  }

  function Ends(s: State, pos: nat, run: nat, result: Run): State {
    if pos in s.validations && run < |s.validations[pos].runs| && s.validations[pos].runs[run].Running?
    then s.(validations := s.validations[pos := s.validations[pos].(runs := s.validations[pos].runs[run := result])])
    else s
  }

  /** A state staked on chain is taken as valid, and everything before it dropped. */
  function UpdatesStaked(s: State, count: nat, state: GlobalState): State {
    if count <= s.validated then s
    else
      var kept := s.(validations := Without(s.validations, s.validated, Min(count, s.created)));
      var moved := if s.created < count then kept.(nextStart := state, reread := true, created := count) else kept;
      moved.(recordSent := Max(s.recordSent, count), validated := count, loopPos := count, lastValid := state)
  }

  /** Drops the entries from a message on, and restarts from the state before it. */
  function Reorgs(s: State, count: nat, state: GlobalState): State {
    if count <= 1 || s.created < count then s
    else
      s.(validations := Without(s.validations, count, s.created), nextStart := state, reread := true, created := count,
         recordSent := Min(s.recordSent, count), validated := Min(s.validated, count),
         lastValid := if s.validated > count then state else s.lastValid)
  }

  /** The read lock is held between turns only while records are sent. */
  predicate WriteLocked(s: State) {
    !s.recorder.Sending?
  }

  function Apply(config: Config, s: State, step: Step): State {
    match step
    case Create(chain, hash) => Creates(config, s, chain, hash)
    case Prepare => Prepares(config, s)
    case Resume => Resumes(s)
    case SendRecord => Sends(s)
    case StopSending => s.(recorder := Idle)
    case Recorded(pos, ok) => WithStatus(s, pos, RecordSent, if ok then Prepared else RecordFailed)
    case StartLoop => if s.looping then s else s.(looping := true, loopPos := s.validated)
    case Advance(room, roots) => Advances(s, room, roots)
    case Launched(pos) => WithStatus(s, pos, SendingValidation, ValidationSent)
    case RunEnds(pos, run, result) => Ends(s, pos, run, result)
    case Staked(count, state) => if WriteLocked(s) then UpdatesStaked(s, count, state) else s
    case ReorgBatches(count) => if WriteLocked(s) && s.nextStart.batch >= count then s.(reread := true) else s
    case Reorg(count, state) => if WriteLocked(s) then Reorgs(s, count, state) else s
  }

  /** The state when the chain has caught up with the last state known to be valid. */
  function Initial(count: nat, state: GlobalState): State {
    State(count, count, count, map[], state, 0, true, state, 0, false, Idle)
  }
}

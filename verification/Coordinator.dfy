/**
 * Sequencers that share a message count and messages through Redis. A write watches the count and the chosen
 * sequencer, reads both, and takes effect only if neither has been written since; the other steps of all
 * sequencers come in between in any order.
 */
module Coordinator {
  import opened Types

  type Msg = nat

  /** A write of a message expects it to come next; a keepalive has no message. */
  datatype Write = Write(expected: nat, message: Option<Msg>) {
    function Count(): nat {
      if message.Some? then expected + 1 else expected
    }
  }

  /** How often the watched keys had been written. */
  datatype Versions = Versions(chosen: nat, count: nat)

  datatype Acquire =
    | Resting
    | Watching(write: Write, seen: Versions)
    | Checked(write: Write, seen: Versions, wasEmpty: bool)
    | Ready(write: Write, seen: Versions, wasEmpty: bool)
    | Committed(message: Msg)

  datatype Poll = NotPolling | Polling(from: nat, until: nat, got: seq<Msg>)

  datatype Node = Node(log: seq<Msg>, acquire: Acquire, poll: Poll)

  datatype Commit = Commit(index: nat, message: Msg)

  /** The history of committed messages is not part of any real state; it is what the properties are about. */
  datatype State = State(
    count: nat,
    messages: map<nat, Msg>,
    chosen: Option<nat>,
    versions: Versions,
    nodes: seq<Node>,
    commits: seq<Commit>)

  datatype Step =
    | Watch(node: nat, write: Write)
    | ReadChosen(node: nat)
    | ReadCount(node: nat)
    | Exec(node: nat)
    | GiveUp(node: nat)
    | WriteLocally(node: nat)
    | Release(node: nat)
    | ChosenExpires(touched: bool)
    | MessageExpires(index: nat)
    | StartPoll(node: nat, limit: nat)
    | ReadMessage(node: nat)
    | EndPoll(node: nat)
    | Elsewhere(node: nat, log: seq<Msg>)

  predicate Known(s: State, n: nat) {
    n < |s.nodes|
  }

  function WithNode(s: State, n: nat, node: Node): State
    requires Known(s, n)
  {
    s.(nodes := s.nodes[n := node])
  }

  function WithAcquire(s: State, n: nat, acquire: Acquire): State
    requires Known(s, n)
  {
    WithNode(s, n, s.nodes[n].(acquire := acquire))
  }

  /** A sequencer that is writing a message holds the lock on its log. */
  predicate Sequencing(node: Node) {
    match node.acquire
    case Resting => false
    case Watching(w, _) => w.message.Some?
    case Checked(w, _, _) => w.message.Some?
    case Ready(w, _, _) => w.message.Some?
    case Committed(_) => true
  }

  // ----- Acquiring the lockout and writing a message -----

  /** A message comes next in the log; the count of a keepalive may have been read some time before. */
  predicate MayWrite(node: Node, write: Write) {
    write.expected <= |node.log| && (write.message.Some? ==> write.expected == |node.log|)
  }

  function Watches(s: State, n: nat, write: Write): State {
    if Known(s, n) && s.nodes[n].acquire.Resting? && MayWrite(s.nodes[n], write)
    then WithAcquire(s, n, Watching(write, s.versions))
    else s
  }

  /** Only the chosen sequencer, or anyone when none is chosen, goes on. */
  function ReadsChosen(s: State, n: nat): State {
    if !(Known(s, n) && s.nodes[n].acquire.Watching?) then s
    else
      var a := s.nodes[n].acquire;
      if s.chosen.Some? && s.chosen != Some(n) then WithAcquire(s, n, Resting)
      else WithAcquire(s, n, Checked(a.write, a.seen, s.chosen.None?))
  }

  /** Whoever finds more messages than expected does not write. */
  function ReadsCount(s: State, n: nat): State {
    if !(Known(s, n) && s.nodes[n].acquire.Checked?) then s
    else
      var a := s.nodes[n].acquire;
      if s.count > a.write.expected then WithAcquire(s, n, Resting)
      else WithAcquire(s, n, Ready(a.write, a.seen, a.wasEmpty))
  }

  function Executes(s: State, n: nat): State {
    if !(Known(s, n) && s.nodes[n].acquire.Ready?) then s
    else
      var a := s.nodes[n].acquire;
      if s.versions != a.seen then WithAcquire(s, n, Resting)
      else
        var t := s.(count := a.write.Count(),
                    chosen := if a.wasEmpty then Some(n) else s.chosen,
                    versions := Versions(s.versions.chosen + 1, s.versions.count + 1));
        match a.write.message
        case None => WithAcquire(t, n, Resting)
        case Some(m) =>
          WithAcquire(t.(messages := s.messages[a.write.expected := m],
                         commits := s.commits + [Commit(a.write.expected, m)]),
                      n, Committed(m))
  }

  /** An error or a crash, before the write or after it. */
  function GivesUp(s: State, n: nat): State {
    if Known(s, n) then WithAcquire(s, n, Resting) else s
  }

  function WritesLocally(s: State, n: nat): State {
    if Known(s, n) && s.nodes[n].acquire.Committed?
    then WithNode(s, n, s.nodes[n].(log := s.nodes[n].log + [s.nodes[n].acquire.message], acquire := Resting))
    else s
  }

  function Releases(s: State, n: nat): State {
    if s.chosen == Some(n) then s.(chosen := None, versions := s.versions.(chosen := s.versions.chosen + 1)) else s
  }

  // ----- Reading messages -----

  function StartsPoll(s: State, n: nat, limit: nat): State {
    if Known(s, n)
    then WithNode(s, n, s.nodes[n].(poll := Polling(|s.nodes[n].log|, Min(s.count, |s.nodes[n].log| + limit), [])))
    else s
  }

  /** Messages are read one at a time, up to the first that is missing. */
  function ReadsMessage(s: State, n: nat): State {
    if Known(s, n) && s.nodes[n].poll.Polling? then
      var p := s.nodes[n].poll;
      var next := p.from + |p.got|;
      if next < p.until && next in s.messages
      then WithNode(s, n, s.nodes[n].(poll := p.(got := p.got + [s.messages[next]])))
      else s
    else s
  }

  /** What was read is added after the messages already there, unless it differs from them. */
  function Extend(log: seq<Msg>, from: nat, got: seq<Msg>): seq<Msg> {
    if from <= |log| <= from + |got| && log[from..] == got[..|log| - from] then log[..from] + got else log
  }

  function EndsPoll(s: State, n: nat): State {
    if Known(s, n) && s.nodes[n].poll.Polling? && !Sequencing(s.nodes[n]) then
      var p := s.nodes[n].poll;
      WithNode(s, n, s.nodes[n].(log := Extend(s.nodes[n].log, p.from, p.got), poll := NotPolling))
    else s
  }

  /** Messages from the parent chain or the feed. */
  function ChangesElsewhere(s: State, n: nat, log: seq<Msg>): State {
    if Known(s, n) && !Sequencing(s.nodes[n]) then WithNode(s, n, s.nodes[n].(log := log)) else s
  }

  function Apply(s: State, step: Step): State {
    match step
    case Watch(n, write) => Watches(s, n, write)
    case ReadChosen(n) => ReadsChosen(s, n)
    case ReadCount(n) => ReadsCount(s, n)
    case Exec(n) => Executes(s, n)
    case GiveUp(n) => GivesUp(s, n)
    case WriteLocally(n) => WritesLocally(s, n)
    case Release(n) => Releases(s, n)
    case ChosenExpires(touched) =>
      s.(chosen := None, versions := if touched then s.versions.(chosen := s.versions.chosen + 1) else s.versions)
    case MessageExpires(index) => s.(messages := s.messages - {index})
    case StartPoll(n, limit) => StartsPoll(s, n, limit)
    case ReadMessage(n) => ReadsMessage(s, n)
    case EndPoll(n) => EndsPoll(s, n)
    case Elsewhere(n, log) => ChangesElsewhere(s, n, log)
  }

  function Steps(s: State, steps: seq<Step>): State {
    if steps == [] then s else Apply(Steps(s, steps[..|steps| - 1]), steps[|steps| - 1])
  }

  // ----- Every index is committed at most once -----

  /** Commits come in the order of their indices, below the count, and a message that is there was committed. */
  predicate Ordered(commits: seq<Commit>, count: nat) {
    && (forall i, j :: 0 <= i < j < |commits| ==> commits[i].index < commits[j].index)
    && (forall i :: 0 <= i < |commits| ==> commits[i].index < count)
  }

  predicate WasCommitted(commits: seq<Commit>, index: nat, message: Msg) {
    Commit(index, message) in commits
  }

  predicate Backed(s: State) {
    forall i :: i in s.messages ==> WasCommitted(s.commits, i, s.messages[i])
  }

  /** A write that can still take effect expects no fewer messages than there are. */
  predicate Current(count: nat, version: nat, acquire: Acquire) {
    match acquire
    case Watching(_, seen) => seen.count <= version
    case Checked(_, seen, _) => seen.count <= version
    case Ready(w, seen, _) => seen.count <= version && (seen.count == version ==> count <= w.expected)
    case _ => true
  }

  predicate PollsCommitted(commits: seq<Commit>, poll: Poll) {
    poll.Polling? ==> forall i :: 0 <= i < |poll.got| ==> WasCommitted(commits, poll.from + i, poll.got[i])
  }

  predicate NodeInv(s: State, node: Node) {
    Current(s.count, s.versions.count, node.acquire) && PollsCommitted(s.commits, node.poll)
  }

  predicate Inv(s: State) {
    && Ordered(s.commits, s.count)
    && Backed(s)
    && forall n :: 0 <= n < |s.nodes| ==> NodeInv(s, s.nodes[n])
  }
}

/** What holds in every interleaving of the sequencers' steps. */
module CoordinatorProperties {
  import opened Types
  import opened Coordinator

  // ----- Every index is committed at most once, whatever the logs of the sequencers are -----

  /** Redis only moves forward: the count and the history grow, and so do the versions. */
  predicate Forward(s: State, t: State) {
    s.count <= t.count && s.commits <= t.commits && s.versions.count <= t.versions.count && |t.nodes| == |s.nodes|
  }

  lemma NodeStepKeeps(s: State, n: nat, node: Node)
    requires Inv(s) && Known(s, n) && NodeInv(s, node)
    ensures Inv(WithNode(s, n, node)) && Forward(s, WithNode(s, n, node))
  {
    var t := WithNode(s, n, node);
    forall m | 0 <= m < |t.nodes| ensures NodeInv(t, t.nodes[m]) {
      assert m != n ==> NodeInv(s, s.nodes[m]);
    }
    hide Current, PollsCommitted;
  }

  /** The steps of one sequencer, as what becomes of it. */
  function NodeAfter(s: State, step: Step): Option<(nat, Node)> {
    var n :=
      match step
      case Watch(n, _) => n
      case ReadChosen(n) => n
      case ReadCount(n) => n
      case GiveUp(n) => n
      case WriteLocally(n) => n
      case StartPoll(n, _) => n
      case ReadMessage(n) => n
      case EndPoll(n) => n
      case Elsewhere(n, _) => n
      case _ => |s.nodes|;
    if Known(s, n) && Known(Apply(s, step), n) then Some((n, Apply(s, step).nodes[n])) else None
  }

  /** Such a step changes nothing else. */
  lemma OnlyNode(s: State, step: Step)
    requires NodeAfter(s, step).Some?
    ensures var (n, node) := NodeAfter(s, step).value; Known(s, n) && Apply(s, step) == WithNode(s, n, node)
  {
    var (n, node) := NodeAfter(s, step).value;
    assert s.nodes[n := s.nodes[n]] == s.nodes;
    hide Extend;
  }

  lemma NodeStepInv(s: State, step: Step)
    requires Inv(s) && NodeAfter(s, step).Some?
    ensures NodeInv(s, NodeAfter(s, step).value.1)
  {
    var (n, node) := NodeAfter(s, step).value;
    assert NodeInv(s, s.nodes[n]);
    hide Extend, Ordered, WasCommitted;
  }

  lemma ExecKeeps(s: State, n: nat)
    requires Inv(s) && Known(s, n)
    ensures Inv(Executes(s, n)) && Forward(s, Executes(s, n))
  {
    var t, a := Executes(s, n), s.nodes[n].acquire;
    assert NodeInv(s, s.nodes[n]);
    if a.Ready? && s.versions == a.seen {
      forall m | 0 <= m < |t.nodes| ensures NodeInv(t, t.nodes[m]) {
        assert NodeInv(s, s.nodes[m]);
      }
      assert Backed(t);
    } else if a.Ready? {
      NodeStepKeeps(s, n, s.nodes[n].(acquire := Resting));
    }
  }

  lemma StepKeeps(s: State, step: Step)
    requires Inv(s)
    ensures Inv(Apply(s, step)) && Forward(s, Apply(s, step))
  {
    var after := NodeAfter(s, step);
    if after.Some? {
      OnlyNode(s, step);
      NodeStepInv(s, step);
      hide *;
      NodeStepKeeps(s, after.value.0, after.value.1);
    } else {
      OtherStepKeeps(s, step);
    }
  }

  lemma OtherStepKeeps(s: State, step: Step)
    requires Inv(s) && NodeAfter(s, step).None?
    ensures Inv(Apply(s, step)) && Forward(s, Apply(s, step))
  {
    if step.Exec? {
      if Known(s, step.node) {
        ExecKeeps(s, step.node);
      }
    } else {
      var t := Apply(s, step);
      assert t.commits == s.commits && t.count == s.count && t.versions.count == s.versions.count && t.nodes == s.nodes;
      forall m | 0 <= m < |t.nodes| ensures NodeInv(t, t.nodes[m]) {
        assert NodeInv(s, s.nodes[m]);
      }
    }
    hide Executes;
  }

  /** In every run from any good state, the count never falls and commits are only added. */
  lemma {:induction false} RunKeeps(s: State, steps: seq<Step>)
    requires Inv(s)
    ensures Inv(Steps(s, steps)) && Forward(s, Steps(s, steps))
  {
    if steps != [] {
      var before := steps[..|steps| - 1];
      RunKeeps(s, before);
      StepKeeps(Steps(s, before), steps[|steps| - 1]);
    }
    hide Inv, Apply;
  }

  /** No index is ever committed twice, and whoever reads a message gets the one committed at its index. */
  lemma CommittedOnce(s: State, steps: seq<Step>, i: nat, j: nat)
    requires Inv(s)
    requires var t := Steps(s, steps); i < |t.commits| && j < |t.commits| && t.commits[i].index == t.commits[j].index
    ensures i == j
  {
    RunKeeps(s, steps);
  }

  lemma ReadIsCommitted(s: State, steps: seq<Step>, n: nat, k: nat, c: nat)
    requires Inv(s)
    requires var t := Steps(s, steps);
             && Known(t, n) && t.nodes[n].poll.Polling? && k < |t.nodes[n].poll.got|
             && c < |t.commits| && t.commits[c].index == t.nodes[n].poll.from + k
    ensures var t := Steps(s, steps); t.nodes[n].poll.got[k] == t.commits[c].message
  {
    RunKeeps(s, steps);
    var t := Steps(s, steps);
    assert NodeInv(t, t.nodes[n]);
    assert WasCommitted(t.commits, t.nodes[n].poll.from + k, t.nodes[n].poll.got[k]);
  }

  // ----- The logs agree, if they only grow through the coordinator -----

  /** The agreed log: what everyone started from, and the messages committed since. */
  function Agreed(start: seq<Msg>, commits: seq<Commit>): seq<Msg> {
    start + seq(|commits|, i requires 0 <= i < |commits| => commits[i].message)
  }

  predicate Consecutive(start: seq<Msg>, commits: seq<Commit>) {
    forall i :: 0 <= i < |commits| ==> commits[i].index == |start| + i
  }

  /** What a sequencer has, is about to write and has read is part of the agreed log. */
  predicate Agrees(node: Node, agreed: seq<Msg>) {
    && node.log <= agreed
    && (match node.acquire
        case Resting => true
        case Watching(w, _) => w.expected <= |node.log| && (w.message.Some? ==> w.expected == |node.log|)
        case Checked(w, _, _) => w.expected <= |node.log| && (w.message.Some? ==> w.expected == |node.log|)
        case Ready(w, _, _) => w.expected <= |node.log| && (w.message.Some? ==> w.expected == |node.log|)
        case Committed(m) => node.log + [m] <= agreed)
    && (node.poll.Polling? ==>
         && node.poll.from <= |node.log| && node.poll.until <= |agreed| && node.poll.from + |node.poll.got| <= |agreed|
         && agreed[node.poll.from..][..|node.poll.got|] == node.poll.got)
  }

  predicate MessagesAgree(messages: map<nat, Msg>, agreed: seq<Msg>) {
    forall i :: i in messages ==> i < |agreed| && messages[i] == agreed[i]
  }

  predicate Agreement(s: State, start: seq<Msg>) {
    && Consecutive(start, s.commits)
    && s.count == |start| + |s.commits|
    && MessagesAgree(s.messages, Agreed(start, s.commits))
    && forall n :: 0 <= n < |s.nodes| ==> Agrees(s.nodes[n], Agreed(start, s.commits))
  }

  lemma AgreedGrows(start: seq<Msg>, commits: seq<Commit>, c: Commit)
    ensures Agreed(start, commits + [c]) == Agreed(start, commits) + [c.message]
  {
  }

  lemma AgreesWithMore(node: Node, agreed: seq<Msg>, more: seq<Msg>)
    requires Agrees(node, agreed) && agreed <= more
    ensures Agrees(node, more)
  {
    if node.poll.Polling? {
      assert more[node.poll.from..][..|node.poll.got|] == agreed[node.poll.from..][..|node.poll.got|];
    }
  }

  lemma ExtendAgrees(log: seq<Msg>, from: nat, got: seq<Msg>, agreed: seq<Msg>)
    requires log <= agreed && from <= |log| && from + |got| <= |agreed| && agreed[from..][..|got|] == got
    ensures Extend(log, from, got) <= agreed
  {
    if from <= |log| <= from + |got| && log[from..] == got[..|log| - from] {
      assert log[..from] + got == agreed[..from + |got|];
    }
  }

  lemma PollAgrees(node: Node, messages: map<nat, Msg>, agreed: seq<Msg>)
    requires Agrees(node, agreed) && MessagesAgree(messages, agreed) && node.poll.Polling?
    ensures var p := node.poll; var next := p.from + |p.got|;
            next < p.until && next in messages ==> Agrees(node.(poll := p.(got := p.got + [messages[next]])), agreed)
  {
    var p := node.poll;
    var next := p.from + |p.got|;
    if next < p.until && next in messages {
      assert agreed[p.from..][..|p.got| + 1] == agreed[p.from..][..|p.got|] + [agreed[next]];
    }
  }

  lemma NodeAgrees(s: State, start: seq<Msg>, n: nat, node: Node)
    requires Agreement(s, start) && Known(s, n) && Agrees(node, Agreed(start, s.commits))
    ensures Agreement(WithNode(s, n, node), start)
  {
    hide Agrees, Agreed;
  }

  lemma NodeStepAgrees(s: State, start: seq<Msg>, step: Step)
    requires Agreement(s, start) && NodeAfter(s, step).Some? && !step.Elsewhere?
    ensures Agrees(NodeAfter(s, step).value.1, Agreed(start, s.commits))
  {
    var (n, after) := NodeAfter(s, step).value;
    var node, agreed := s.nodes[n], Agreed(start, s.commits);
    assert Agrees(node, agreed);
    assert |agreed| == s.count;
    if node.poll.Polling? {
      PollAgrees(node, s.messages, agreed);
      ExtendAgrees(node.log, node.poll.from, node.poll.got, agreed);
    }
    hide Extend, Agreed, MessagesAgree;
  }

  lemma ExecAgrees(s: State, start: seq<Msg>, n: nat)
    requires Inv(s) && Agreement(s, start) && Known(s, n)
    ensures Agreement(Executes(s, n), start)
  {
    var t, node, agreed := Executes(s, n), s.nodes[n], Agreed(start, s.commits);
    assert NodeInv(s, node) && Agrees(node, agreed);
    if node.acquire.Ready? && s.versions == node.acquire.seen && node.acquire.write.message.Some? {
      var c := Commit(node.acquire.write.expected, node.acquire.write.message.value);
      AgreedGrows(start, s.commits, c);
      assert t.commits == s.commits + [c];
      forall m | 0 <= m < |t.nodes| ensures Agrees(t.nodes[m], agreed + [c.message]) {
        AgreesWithMore(s.nodes[m], agreed, agreed + [c.message]);
      }
    } else if node.acquire.Ready? {
      assert t.count == s.count && t.commits == s.commits && t.messages == s.messages;
      NodeAgrees(s, start, n, node.(acquire := Resting));
    }
  }

  lemma StepAgrees(s: State, start: seq<Msg>, step: Step)
    requires Inv(s) && Agreement(s, start) && !step.Elsewhere?
    ensures Agreement(Apply(s, step), start)
  {
    var after := NodeAfter(s, step);
    if after.Some? {
      OnlyNode(s, step);
      NodeStepAgrees(s, start, step);
      hide *;
      NodeAgrees(s, start, after.value.0, after.value.1);
    } else if step.Exec? {
      if Known(s, step.node) {
        ExecAgrees(s, start, step.node);
      }
    }
    hide Executes, Agrees, Agreed, Inv;
  }

  /** Sequencers that have parts of one log, as long as the count, start in agreement. */
  lemma FreshAgrees(start: seq<Msg>, nodes: seq<Node>)
    requires forall n :: 0 <= n < |nodes| ==>
        nodes[n].log <= start && nodes[n].acquire.Resting? && nodes[n].poll.NotPolling?
    ensures var s := State(|start|, map[], None, Versions(0, 0), nodes, []); Inv(s) && Agreement(s, start)
  {
    assert Agreed(start, []) == start;
  }

  predicate OnlyCoordinator(steps: seq<Step>) {
    forall i :: 0 <= i < |steps| ==> !steps[i].Elsewhere?
  }

  /**
   * In every run of sequencers whose logs grow only through the coordinator, all logs are prefixes of one log,
   * which only grows.
   */
  lemma {:induction false} LogsAgree(s: State, start: seq<Msg>, steps: seq<Step>)
    requires Inv(s) && Agreement(s, start) && OnlyCoordinator(steps)
    ensures Agreement(Steps(s, steps), start) && Inv(Steps(s, steps))
    ensures Agreed(start, s.commits) <= Agreed(start, Steps(s, steps).commits)
  {
    RunKeeps(s, steps);
    if steps != [] {
      var before := steps[..|steps| - 1];
      LogsAgree(s, start, before);
      RunKeeps(s, before);
      StepAgrees(Steps(s, before), start, steps[|steps| - 1]);
    }
    hide Inv, Agreement, Apply;
  }

  /** Two sequencers never have different messages at an index. */
  lemma NoTwoMessages(s: State, start: seq<Msg>, steps: seq<Step>, m: nat, n: nat, i: nat)
    requires Inv(s) && Agreement(s, start) && OnlyCoordinator(steps)
    requires var t := Steps(s, steps); Known(t, m) && Known(t, n) && i < |t.nodes[m].log| && i < |t.nodes[n].log|
    ensures var t := Steps(s, steps); t.nodes[m].log[i] == t.nodes[n].log[i]
  {
    LogsAgree(s, start, steps);
    var t := Steps(s, steps);
    assert Agrees(t.nodes[m], Agreed(start, t.commits)) && Agrees(t.nodes[n], Agreed(start, t.commits));
  }

  // ----- Only the chosen sequencer commits -----

  /** No other sequencer is chosen. */
  predicate MayCommit(chosen: Option<nat>, n: nat) {
    chosen == None || chosen == Some(n)
  }

  /** A sequencer that has found that it may commit still may, unless the key has been written since. */
  predicate Locked(s: State, n: nat)
    requires Known(s, n)
  {
    match s.nodes[n].acquire
    case Watching(_, seen) => seen.chosen <= s.versions.chosen
    case Checked(_, seen, _) =>
      seen.chosen <= s.versions.chosen && (seen.chosen == s.versions.chosen ==> MayCommit(s.chosen, n))
    case Ready(_, seen, _) =>
      seen.chosen <= s.versions.chosen && (seen.chosen == s.versions.chosen ==> MayCommit(s.chosen, n))
    case _ => true
  }

  predicate AllLocked(s: State) {
    forall n :: 0 <= n < |s.nodes| ==> Locked(s, n)
  }

  /** The chosen sequencer changes, other than by running out, only together with the version of the key. */
  lemma LockKept(s: State, step: Step)
    requires AllLocked(s)
    ensures var t := Apply(s, step);
            && s.versions.chosen <= t.versions.chosen && |t.nodes| == |s.nodes|
            && (s.versions.chosen == t.versions.chosen ==> t.chosen == s.chosen || t.chosen == None)
  {
    hide Extend, Locked;
  }

  lemma StepLocked(s: State, step: Step)
    requires AllLocked(s)
    ensures AllLocked(Apply(s, step))
  {
    var t := Apply(s, step);
    LockKept(s, step);
    forall n | 0 <= n < |t.nodes| ensures Locked(t, n) {
      assert Locked(s, n);
      AcquireSteps(s, step, n);
      hide Apply;
    }
  }

  /** What a step can make of a sequencer's write. */
  lemma AcquireSteps(s: State, step: Step, n: nat)
    requires Known(s, n)
    ensures Known(Apply(s, step), n)
    ensures var (a, b) := (s.nodes[n].acquire, Apply(s, step).nodes[n].acquire);
            || b == a
            || b.Resting? || b.Committed?
            || (b.Watching? && b.seen == s.versions)
            || (b.Checked? && a.Watching? && b.seen == a.seen && MayCommit(s.chosen, n) && step == ReadChosen(n))
            || (b.Ready? && a.Checked? && b.seen == a.seen && step == ReadCount(n))
  {
    hide Extend;
  }

  lemma {:induction false} RunLocked(s: State, steps: seq<Step>)
    requires AllLocked(s)
    ensures AllLocked(Steps(s, steps))
  {
    if steps != [] {
      var before := steps[..|steps| - 1];
      RunLocked(s, before);
      StepLocked(Steps(s, before), steps[|steps| - 1]);
    }
    hide AllLocked, Apply;
  }

  /** In every run, a message is committed only by a sequencer while no other one is chosen. */
  lemma OnlyTheChosenCommits(s: State, steps: seq<Step>, step: Step)
    requires AllLocked(s)
    ensures var t := Steps(s, steps);
            Apply(t, step).commits != t.commits ==>
              && step.Exec? && Known(t, step.node) && MayCommit(t.chosen, step.node)
              && t.nodes[step.node].acquire.Ready?
              && var w := t.nodes[step.node].acquire.write;
              && w.message.Some? && Apply(t, step).commits == t.commits + [Commit(w.expected, w.message.value)]
  {
    RunLocked(s, steps);
    var t := Steps(s, steps);
    assert step.Exec? && Known(t, step.node) ==> Locked(t, step.node);
    hide Extend, Steps;
  }

  // ----- Writes and reads go through -----

  /** A sequencer that nothing comes between, with as many messages as there are, commits its next message: it is
      chosen, and has the message in its log. */
  lemma WriteGoesThrough(s: State, n: nat, message: Msg)
    requires Known(s, n) && s.nodes[n].acquire.Resting? && MayCommit(s.chosen, n) && s.count <= |s.nodes[n].log|
    ensures var expected := |s.nodes[n].log|;
            var checked := ReadsCount(ReadsChosen(Watches(s, n, Write(expected, Some(message))), n), n);
            var t := WritesLocally(Executes(checked, n), n);
            && t.count == expected + 1 && t.chosen == Some(n) && t.messages == s.messages[expected := message]
            && t.commits == s.commits + [Commit(expected, message)]
            && t.nodes == s.nodes[n := s.nodes[n].(log := s.nodes[n].log + [message])]
  {
    var write := Write(|s.nodes[n].log|, Some(message));
    var checked := ReadsCount(ReadsChosen(Watches(s, n, write), n), n);
    assert checked == WithAcquire(s, n, Ready(write, s.versions, s.chosen.None?));
    hide Watches, ReadsChosen, ReadsCount;
  }

  /** A sequencer that is not about to write a message of its own. */
  predicate IsFree(acquire: Acquire) {
    acquire.Resting? || (!acquire.Committed? && acquire.write.message == None)
  }

  /** A poll reads no message past the count it found, and no more than its limit. */
  predicate PollsWithin(node: Node) {
    node.poll.Polling? ==> |node.poll.got| == 0 || node.poll.from + |node.poll.got| <= node.poll.until
  }

  lemma PollIsLimited(s: State, step: Step, n: nat)
    requires Known(s, n) && PollsWithin(s.nodes[n])
    ensures Known(Apply(s, step), n) && PollsWithin(Apply(s, step).nodes[n])
    ensures step.StartPoll? && step.node == n ==>
        var poll := Apply(s, step).nodes[n].poll;
        poll.Polling? && poll.from == |s.nodes[n].log| && poll.until <= s.count && poll.until <= poll.from + step.limit
  {
    hide Extend;
  }

  /** A sequencer that polls while it has fewer messages than there are, and finds the next one, adds it to its log. */
  lemma ReadGoesThrough(s: State, n: nat, limit: nat)
    requires Known(s, n) && IsFree(s.nodes[n].acquire) && limit > 0
    requires |s.nodes[n].log| < s.count && |s.nodes[n].log| in s.messages
    ensures var t := EndsPoll(ReadsMessage(StartsPoll(s, n, limit), n), n);
            t.nodes[n].log == s.nodes[n].log + [s.messages[|s.nodes[n].log|]]
  {
    var log := s.nodes[n].log;
    assert log[|log|..] == [] && log[..|log|] == log;
  }
}

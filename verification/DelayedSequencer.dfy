/** The delayed sequencer: forwards finalized delayed messages to the execution engine. The database
    is read message by message and may be reorganized in between, so each message is chained to the
    one before it and the last is compared with the bridge. */
module DelayedSequencer {
  import opened Types
  import opened Tracker
  import opened TrackerProperties

  /** What one database lookup returned: a stored entry and the block that carried it. */
  datatype Lookup = Lookup(entry: Entry, parentBlock: u64)

  datatype SequenceError = LookupFailed | ChainBroken | BridgeUnavailable | BridgeMismatch | ExecutionRejected

  /** The accumulator of a stored entry covers its own message. */
  predicate Covers(e: Entry) {
    e.acc.Acc? && e.acc == AfterAcc(e.acc.before, e.message)
  }

  predicate IsFinal(found: Option<Lookup>, m: L1Message, finalized: u64) {
    found.Some? && found.value.entry.message == m && found.value.parentBlock <= finalized
  }

  /** A lookup that found a finalized entry. */
  predicate FoundFinal(found: Option<Lookup>, e: Entry, finalized: u64) {
    IsFinal(found, e.message, finalized) && found.value.entry == e && Covers(e)
  }

  predicate IsNotFinal(found: Option<Lookup>, finalized: u64) {
    found.Some? && !IsFinal(found, found.value.entry.message, finalized)
  }

  /** Consecutive lookups chain on. */
  ghost predicate ChainedOn(entries: seq<Entry>) {
    forall i :: 0 < i < |entries| ==> entries[i].acc == AfterAcc(entries[i - 1].acc, entries[i].message)
  }

  /** The finalized block: the header's, or a fixed distance behind the latest block. */
  function FinalizedBlock(mergeFinality: Option<u64>, latest: u64, distance: nat): Option<u64> {
    if mergeFinality.Some? then mergeFinality else if latest < distance then None else Some(latest - distance)
  }

  /** A message of a block that the parent chain calls final or, without such a call, is a distance behind the latest
      one. */
  predicate IsSettled(found: Option<Lookup>, m: L1Message, mergeFinality: Option<u64>, latest: u64, distance: nat) {
    && found.Some? && found.value.entry.message == m
    && if mergeFinality.Some? then found.value.parentBlock <= mergeFinality.value
       else found.value.parentBlock + distance <= latest
  }

  lemma FinalIsSettled(found: Option<Lookup>, m: L1Message, mergeFinality: Option<u64>, latest: u64, distance: nat)
    ensures var finalized := FinalizedBlock(mergeFinality, latest, distance);
            IsSettled(found, m, mergeFinality, latest, distance) <==>
            finalized.Some? && IsFinal(found, m, finalized.value)
  {
  }

  class Sequencer {
    const finalizeDistance: nat
    var waitingForFinalizedBlock: nat

    constructor (finalizeDistance: nat)
      ensures waitingForFinalizedBlock == 0
    {
      this.finalizeDistance := finalizeDistance;
      waitingForFinalizedBlock := 0;
    }

    /** Reads finalized messages from a position on, checking that each follows the last. */
    method ReadFinalized(start: nat, count: nat, finalized: u64, lookup: nat -> Option<Lookup>)
      returns (r: Result<seq<Entry>, SequenceError>)
      requires forall i: nat :: lookup(i).Some? ==> Covers(lookup(i).value.entry)
      modifies this`waitingForFinalizedBlock
      ensures r.Ok? ==>
        && ChainedOn(r.value) && |r.value| <= Max(0, count - start)
        && forall i :: 0 <= i < |r.value| ==> FoundFinal(lookup(start + i), r.value[i], finalized)
      ensures r.Ok? && start + |r.value| < count ==>
        && IsNotFinal(lookup(start + |r.value|), finalized)
        && waitingForFinalizedBlock == lookup(start + |r.value|).value.parentBlock
      ensures r.Err? || start + |r.value| >= count ==> waitingForFinalizedBlock == old(waitingForFinalizedBlock)
    {
      var pos, lastAcc, entries: seq<Entry> := start, ZeroAcc, [];
      while pos < count
        invariant pos == start + |entries| && (start <= count ==> pos <= count) && (start > count ==> entries == [])
        invariant lastAcc == if entries == [] then ZeroAcc else entries[|entries| - 1].acc
        invariant ChainedOn(entries)
        invariant forall i :: 0 <= i < |entries| ==> FoundFinal(lookup(start + i), entries[i], finalized)
      {
        var found := lookup(pos);
        if found.None? {
          return Err(LookupFailed);
        }
        var Lookup(entry, parentBlock) := found.value;
        if parentBlock > finalized {
          waitingForFinalizedBlock := parentBlock;
          return Ok(entries);
        }
        if lastAcc != ZeroAcc && AfterAcc(lastAcc, entry.message) != entry.acc {
          return Err(ChainBroken);
        }
        lastAcc, entries, pos := entry.acc, entries + [entry], pos + 1;
      }
      return Ok(entries);
    }

    /** Forwards what is finalized. Whatever is forwarded is the bridge's delayed inbox, consecutively
        from the start position, even if the database changed between lookups. Unless there is an error or a block
        to wait for, it is everything up to the end of the database or the first message that is not final. */
    method SequenceWithoutLockout(latest: u64, mergeFinality: Option<u64>, dbCount: nat, start: nat,
                                  lookup: nat -> Option<Lookup>, bridgeAcc: nat -> Option<Acc>, execOk: nat -> bool,
                                  ghost bridge: seq<Entry>)
      returns (forwarded: seq<L1Message>, err: Option<SequenceError>)
      requires forall i: nat :: lookup(i).Some? ==> Covers(lookup(i).value.entry)
      requires Chained(bridge)
      requires forall i: nat :: bridgeAcc(i).Some? ==> i < |bridge| && bridge[i].acc == bridgeAcc(i).value
      modifies this`waitingForFinalizedBlock
      ensures start + |forwarded| <= |bridge| || forwarded == []
      ensures forall i :: 0 <= i < |forwarded| ==> SameUpToGas(forwarded[i], bridge[start + i].message)
      ensures forall i :: 0 <= i < |forwarded| ==>
        IsSettled(lookup(start + i), forwarded[i], mergeFinality, latest, finalizeDistance)
      ensures var finalized := FinalizedBlock(mergeFinality, latest, finalizeDistance);
              if finalized.None? || old(waitingForFinalizedBlock) > finalized.value then
                forwarded == [] && err.None? && waitingForFinalizedBlock == old(waitingForFinalizedBlock)
              else
                err.None? ==>
                  var next := start + |forwarded|;
                  if next >= dbCount then waitingForFinalizedBlock == latest + 1
                  else
                    && IsNotFinal(lookup(next), finalized.value)
                    && waitingForFinalizedBlock == lookup(next).value.parentBlock
    {
      forwarded, err := [], None;
      var finalized := FinalizedBlock(mergeFinality, latest, finalizeDistance);
      if finalized.None? || waitingForFinalizedBlock > finalized.value {
        return;
      }
      waitingForFinalizedBlock := latest + 1;
      var entries := ReadFinalized(start, dbCount, finalized.value, lookup);
      if entries.Err? {
        err := Some(entries.error);
        return;
      }
      var n := |entries.value|;
      if n == 0 {
        return;
      }
      var acc := bridgeAcc(start + n - 1);
      if acc.None? {
        err := Some(BridgeUnavailable);
        return;
      }
      if acc.value != entries.value[n - 1].acc {
        err := Some(BridgeMismatch);
        return;
      }
      ForwardedIsBridge(entries.value, start, bridge);
      ghost var waiting := waitingForFinalizedBlock;
      for i := 0 to n
        invariant waitingForFinalizedBlock == waiting
        invariant |forwarded| == i && forall j :: 0 <= j < i ==> forwarded[j] == entries.value[j].message
        invariant forall j :: 0 <= j < i ==>
          IsSettled(lookup(start + j), forwarded[j], mergeFinality, latest, finalizeDistance)
      {
        assert FoundFinal(lookup(start + i), entries.value[i], finalized.value);
        FinalIsSettled(lookup(start + i), entries.value[i].message, mergeFinality, latest, finalizeDistance);
        if !execOk(start + i) {
          err := Some(ExecutionRejected);
          return;
        }
        forwarded := forwarded + [entries.value[i].message];
      }
    }
  }

  predicate SameUpToGas(a: L1Message, b: L1Message) {
    a.header == b.header && a.l2msg == b.l2msg
  }

  /** Chained lookups whose last accumulator is the bridge's are the bridge's messages throughout. */
  lemma {:induction false} ForwardedIsBridge(entries: seq<Entry>, start: nat, bridge: seq<Entry>)
    requires Chained(bridge) && ChainedOn(entries) && entries != []
    requires forall i :: 0 <= i < |entries| ==> Covers(entries[i])
    requires start + |entries| <= |bridge|
    requires entries[|entries| - 1].acc == bridge[start + |entries| - 1].acc
    ensures forall i :: 0 <= i < |entries| ==>
      entries[i].acc == bridge[start + i].acc && SameUpToGas(entries[i].message, bridge[start + i].message)
    decreases |entries|
  {
    var last := |entries| - 1;
    assert Linked(bridge, start + last);
    if last > 0 {
      assert entries[last].acc == AfterAcc(entries[last - 1].acc, entries[last].message);
      var init := entries[..last];
      assert PrevAcc(bridge, start + last) == bridge[start + (last - 1)].acc;
      ForwardedIsBridge(init, start, bridge);
      assert forall i :: 0 <= i < last ==> init[i] == entries[i];
    }
  }

  /** What the tracker stores always covers its own message, so the lookups of any reachable database
      state meet what forwarding relies on. */
  lemma StoredEntriesCover(n: Node, i: nat)
    requires Inv(n) && i < |n.delayed|
    ensures Covers(n.delayed[i])
  {
    assert Linked(n.delayed, i);
  }
}

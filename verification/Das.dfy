/**
 * The data availability committee: the aggregator that collects signatures until enough have stored the data,
 * and the verification of what it makes. Signers masks are sets of bit positions.
 */
module Das {
  import opened Types

  type Mask = set<nat>

  // ----- The keyset -----

  ghost function Union(masks: seq<Mask>): Mask {
    if masks == [] then {} else Union(masks[..|masks| - 1]) + masks[|masks| - 1]
  }

  /** Every service has one bit, and no two the same. */
  predicate OwnBits(masks: seq<Mask>) {
    && (forall i :: 0 <= i < |masks| ==> |masks[i]| == 1)
    && forall i, j :: 0 <= i < j < |masks| ==> masks[i] !! masks[j]
  }

  lemma UnionSize(a: Mask, b: Mask)
    ensures |a + b| <= |a| + |b|
    ensures |a + b| == |a| + |b| <==> a !! b
  {
    assert a + b == a + (b - a) && a !! (b - a);
    assert |b - a| + |b * a| == |b| by {
      assert (b - a) + (b * a) == b;
    }
    assert a * b == b * a;
    if a !! b {
      assert b * a == {};
    }
  }

  lemma {:induction false} DisjointFromUnion(masks: seq<Mask>, m: Mask)
    ensures Union(masks) !! m <==> forall i :: 0 <= i < |masks| ==> masks[i] !! m
  {
    if masks != [] {
      var before := masks[..|masks| - 1];
      DisjointFromUnion(before, m);
      if forall i :: 0 <= i < |masks| ==> masks[i] !! m {
        forall i | 0 <= i < |before| ensures before[i] !! m {
          assert before[i] == masks[i];
        }
      } else if masks[|masks| - 1] !! m {
        var i :| 0 <= i < |masks| && !(masks[i] !! m);
        assert before[i] == masks[i];
      }
    }
  }

  lemma {:induction false} UnionCounts(masks: seq<Mask>)
    requires forall i :: 0 <= i < |masks| ==> |masks[i]| == 1
    ensures |Union(masks)| <= |masks|
    ensures |Union(masks)| == |masks| <==> OwnBits(masks)
  {
    if masks != [] {
      var before, last := masks[..|masks| - 1], masks[|masks| - 1];
      UnionCounts(before);
      UnionSize(Union(before), last);
      DisjointFromUnion(before, last);
      if OwnBits(masks) {
        assert OwnBits(before);
        forall i | 0 <= i < |before| ensures before[i] !! last {
          assert before[i] == masks[i];
        }
      } else if OwnBits(before) {
        var i, j :| 0 <= i < j < |masks| && !(masks[i] !! masks[j]);
        assert j == |masks| - 1;
        assert before[i] == masks[i];
      }
    }
  }

  /** Accepts the services' masks exactly when each has a bit of its own. */
  method CheckMasks(masks: seq<Mask>) returns (ok: bool)
    ensures ok <==> OwnBits(masks)
  {
    var all: Mask := {};
    var i := 0;
    while i < |masks|
      invariant 0 <= i <= |masks|
      invariant all == Union(masks[..i])
      invariant forall k :: 0 <= k < i ==> |masks[k]| == 1
    {
      if |masks[i]| != 1 {
        return false;
      }
      assert masks[..i + 1][..i] == masks[..i];
      all := all + masks[i];
      i := i + 1;
    }
    assert masks[..i] == masks;
    UnionCounts(masks);
    return |all| == |masks|;
  }

  // ----- Collecting signatures -----

  /** What the collector sees next: a service has answered, or the request was cancelled. */
  datatype Event = Stored(service: nat) | Failed(service: nat) | Cancelled

  datatype Outcome = Certificate(signers: set<nat>) | StoreFailed | NoAnswer

  function Signers(events: seq<Event>): set<nat> {
    set i | 0 <= i < |events| && events[i].Stored? :: events[i].service
  }

  function Failures(events: seq<Event>): set<nat> {
    set i | 0 <= i < |events| && events[i].Failed? :: events[i].service
  }

  /** As many events as services, and no service answers twice. */
  predicate Answers(events: seq<Event>, services: nat) {
    && |events| == services
    && (forall i :: 0 <= i < |events| && !events[i].Cancelled? ==> events[i].service < services)
    && forall i, j :: 0 <= i < j < |events| && !events[i].Cancelled? && !events[j].Cancelled? ==>
         events[i].service != events[j].service
  }

  /** What the events up to a point decide. */
  function Decision(services: nat, honest: nat, events: seq<Event>): Outcome {
    if |Signers(events)| >= services + 1 - honest then Certificate(Signers(events))
    else if |Failures(events)| > honest - 1 then StoreFailed
    else NoAnswer
  }

  /** The first point that decides counts. */
  function Collect(services: nat, honest: nat, events: seq<Event>): Outcome {
    if events == [] then NoAnswer
    else
      var before := Collect(services, honest, events[..|events| - 1]);
      if before != NoAnswer then before else Decision(services, honest, events)
  }

  method CollectResponses(services: nat, honest: nat, events: seq<Event>) returns (r: Outcome)
    requires Answers(events, services)
    ensures r == Collect(services, honest, events)
  {
    var signers: set<nat> := {};
    var storeFailures, successfullyStored := 0, 0;
    r := NoAnswer;
    var i := 0;
    while i < services
      invariant 0 <= i <= services
      invariant signers == Signers(events[..i]) && successfullyStored == |Signers(events[..i])|
      invariant storeFailures == |Failures(events[..i])|
      invariant r == Collect(services, honest, events[..i])
    {
      NextEvent(events, services, i);
      match events[i] {
        case Cancelled =>
        case Failed(s) => storeFailures := storeFailures + 1;
        case Stored(s) =>
          signers := signers + {s};
          successfullyStored := successfullyStored + 1;
      }
      assert events[..i + 1][..i] == events[..i];
      if r == NoAnswer {
        if successfullyStored >= services + 1 - honest {
          r := Certificate(signers);
        } else if storeFailures > honest - 1 {
          r := StoreFailed;
        }
      }
      i := i + 1;
    }
    assert events[..i] == events;
  }

  lemma NextEvent(events: seq<Event>, services: nat, i: nat)
    requires Answers(events, services) && i < services
    ensures var e := events[i];
            && Signers(events[..i + 1]) == Signers(events[..i]) + (if e.Stored? then {e.service} else {})
            && Failures(events[..i + 1]) == Failures(events[..i]) + (if e.Failed? then {e.service} else {})
            && (!e.Cancelled? ==> e.service !in Signers(events[..i]) && e.service !in Failures(events[..i]))
  {
    var some, more := events[..i], events[..i + 1];
    forall k | 0 <= k < i ensures more[k] == some[k] == events[k] {}
    forall s | s in Signers(some) ensures s in Signers(more) {
      var k :| 0 <= k < |some| && some[k].Stored? && some[k].service == s;
      assert more[k] == some[k];
    }
    forall s | s in Failures(some) ensures s in Failures(more) {
      var k :| 0 <= k < |some| && some[k].Failed? && some[k].service == s;
      assert more[k] == some[k];
    }
    assert more[i] == events[i];
  }

  // ----- When there is an answer -----

  lemma {:induction false} CollectDecides(services: nat, honest: nat, events: seq<Event>, n: nat)
    requires Answers(events, services) && n <= services && services > 0
    ensures n > 0 ==>
      (Collect(services, honest, events[..n]) == NoAnswer <==>
       |Signers(events[..n])| < services + 1 - honest && |Failures(events[..n])| < honest)
    ensures var r := Collect(services, honest, events[..n]);
            && (r.Certificate? ==> r.signers <= Signers(events[..n]) && |r.signers| >= services + 1 - honest)
            && (r.StoreFailed? ==> |Failures(events[..n])| >= honest)
  {
    if n > 0 {
      CollectDecides(services, honest, events, n - 1);
      NextEvent(events, services, n - 1);
      assert events[..n][..n - 1] == events[..n - 1];
      var e := events[n - 1];
      Grows(Signers(events[..n - 1]), if e.Stored? then {e.service} else {});
      Grows(Failures(events[..n - 1]), if e.Failed? then {e.service} else {});
    }
  }

  lemma Grows(a: set<nat>, b: set<nat>)
    ensures |a| <= |a + b|
  {
    assert a + b == a + (b - a);
  }

  /** The caller waits for ever exactly when too few have stored the data and too few have failed to. */
  lemma AnsweredWhenDecided(services: nat, honest: nat, events: seq<Event>)
    requires Answers(events, services) && services > 0
    ensures Collect(services, honest, events) == NoAnswer <==>
            |Signers(events)| < services + 1 - honest && |Failures(events)| < honest
  {
    CollectDecides(services, honest, events, services);
    assert events[..services] == events;
  }

  /** A request that is cancelled before any service answers gets no answer, although each call is to return an
      error. */
  lemma CancelledIsUnanswered(services: nat, honest: nat)
    requires 0 < honest <= services
    ensures var events := seq(services, i => Cancelled);
            Answers(events, services) && Collect(services, honest, events) == NoAnswer
  {
    var events := seq(services, i => Cancelled);
    AnsweredWhenDecided(services, honest, events);
    assert Signers(events) == {} && Failures(events) == {};
  }

  lemma NoEvents(events: seq<Event>)
    ensures Signers(events[..0]) == {} && Failures(events[..0]) == {}
  {
  }

  lemma {:induction false} EveryServiceCounts(services: nat, events: seq<Event>, n: nat)
    requires Answers(events, services) && n <= services
    requires forall i :: 0 <= i < |events| ==> !events[i].Cancelled?
    ensures |Signers(events[..n])| + |Failures(events[..n])| == n
  {
    hide Signers, Failures;
    if n > 0 {
      EveryServiceCounts(services, events, n - 1);
      NextEvent(events, services, n - 1);
    } else {
      NoEvents(events);
    }
  }

  /** If nothing is cancelled there is an answer, and it is a certificate exactly if enough services stored the data. */
  lemma AlwaysAnswered(services: nat, honest: nat, events: seq<Event>)
    requires Answers(events, services) && services > 0
    requires forall i :: 0 <= i < |events| ==> !events[i].Cancelled?
    ensures Collect(services, honest, events) != NoAnswer
    ensures 0 < honest <= services ==>
              (Collect(services, honest, events).Certificate? <==> |Failures(events)| < honest)
  {
    EveryServiceCounts(services, events, services);
    assert events[..services] == events;
    AnsweredWhenDecided(services, honest, events);
    CollectDecides(services, honest, events, services);
    var r := Collect(services, honest, events);
    if r.Certificate? {
      Subset(r.signers, Signers(events));
    }
  }

  lemma Subset(a: set<nat>, b: set<nat>)
    requires a <= b
    ensures |a| <= |b|
  {
    assert b == a + (b - a);
  }

  // ----- What a certificate is worth -----

  function Below(n: nat): (r: set<nat>)
    ensures |r| == n
    ensures forall i :: i in r <==> 0 <= i < n
  {
    if n == 0 then {} else Below(n - 1) + {n - 1}
  }

  /** The certificate of some signers carries their bits. */
  function MaskOf(bits: seq<nat>, signers: set<nat>): Mask
    requires forall s :: s in signers ==> s < |bits|
  {
    set s | s in signers :: bits[s]
  }

  /** The keys that a verifier takes a mask to stand for: bit by bit, in the order of the keyset. */
  function Selected(services: nat, mask: Mask): set<nat> {
    Below(services) * mask
  }

  /** A certificate verifies if few enough keys are missing and it was signed with the keys selected. */
  predicate Verifies(services: nat, honest: nat, mask: Mask, signers: set<nat>) {
    services - |Selected(services, mask)| < honest && Selected(services, mask) == signers
  }

  lemma SelectNone(mask: Mask)
    ensures Selected(0, mask) == {}
  {
  }

  lemma SelectNext(i: nat, mask: Mask)
    ensures Selected(i + 1, mask) == Selected(i, mask) + (if i in mask then {i} else {})
    ensures i !in Selected(i, mask)
  {
  }

  /** The verifier counts the keys missing, bit by bit; the signature is good for the keys that made it. */
  method VerifySignature(services: nat, honest: nat, mask: Mask, signers: set<nat>) returns (ok: bool)
    ensures ok <==> Verifies(services, honest, mask, signers)
  {
    hide Selected;
    var keys: set<nat> := {};
    var numNonSigners := 0;
    SelectNone(mask);
    var i := 0;
    while i < services
      invariant 0 <= i <= services
      invariant keys == Selected(i, mask) && numNonSigners == i - |keys|
    {
      SelectNext(i, mask);
      if i in mask {
        keys := keys + {i};
      } else {
        numNonSigners := numNonSigners + 1;
      }
      i := i + 1;
    }
    if numNonSigners >= honest {
      return false;
    }
    return keys == signers;
  }

  /** Of any set of honest services, as large as assumed, one at least is among those a verified mask selects. */
  lemma OneHonestSigner(services: nat, honest: nat, mask: Mask, signers: set<nat>, good: set<nat>)
    requires Verifies(services, honest, mask, signers)
    requires good <= Below(services) && |good| == honest
    ensures good * signers != {}
  {
    if good * signers == {} {
      assert good !! signers;
      UnionSize(good, signers);
      Subset(good + signers, Below(services));
    }
  }

  lemma CertificateSigners(services: nat, honest: nat, events: seq<Event>)
    requires Answers(events, services) && Collect(services, honest, events).Certificate?
    ensures var s := Collect(services, honest, events).signers; s <= Below(services) && |s| >= services + 1 - honest
  {
    CollectDecides(services, honest, events, services);
    assert events[..services] == events;
    var s := Collect(services, honest, events).signers;
    forall x | x in s ensures x < services {
      assert x in Signers(events);
    }
  }

  /** The masks give each service the bit of its place. */
  predicate InOrder(bits: seq<nat>) {
    forall i :: 0 <= i < |bits| ==> bits[i] == i
  }

  /** With the bits in order, every certificate verifies. */
  lemma InOrderVerifies(bits: seq<nat>, honest: nat, events: seq<Event>)
    requires InOrder(bits) && Answers(events, |bits|) && Collect(|bits|, honest, events).Certificate?
    ensures var s := Collect(|bits|, honest, events).signers;
            s <= Below(|bits|) && Verifies(|bits|, honest, MaskOf(bits, s), s)
  {
    CertificateSigners(|bits|, honest, events);
    var s := Collect(|bits|, honest, events).signers;
    assert MaskOf(bits, s) == s;
    assert Selected(|bits|, s) == s;
  }

  /** All the bits are places of keys. */
  predicate Places(bits: seq<nat>) {
    forall i :: 0 <= i < |bits| ==> bits[i] < |bits|
  }

  predicate Distinct(bits: seq<nat>) {
    forall i, j :: 0 <= i < j < |bits| ==> bits[i] != bits[j]
  }

  /** Every certificate that the aggregator can make verifies. */
  ghost predicate AlwaysVerifies(bits: seq<nat>, honest: nat) {
    forall events :: Answers(events, |bits|) && Collect(|bits|, honest, events).Certificate? ==>
      var s := Collect(|bits|, honest, events).signers;
      s <= Below(|bits|) && Verifies(|bits|, honest, MaskOf(bits, s), s)
  }

  lemma {:induction false} MaskSize(bits: seq<nat>, s: set<nat>)
    requires Distinct(bits) && forall x :: x in s ==> x < |bits|
    ensures |MaskOf(bits, s)| == |s|
  {
    if s != {} {
      var x :| x in s;
      MaskSize(bits, s - {x});
      assert MaskOf(bits, s) == MaskOf(bits, s - {x}) + {bits[x]};
      assert bits[x] !in MaskOf(bits, s - {x});
    }
  }

  lemma SameSize(a: set<nat>, b: set<nat>)
    requires a <= b && |a| == |b|
    ensures a == b
  {
    assert b == a + (b - a);
  }

  lemma PlacesCovered(bits: seq<nat>, s: set<nat>)
    requires Places(bits) && s == Below(|bits|) && |MaskOf(bits, s)| == |s|
    ensures Selected(|bits|, MaskOf(bits, s)) == s
  {
    assert MaskOf(bits, s) <= Below(|bits|);
    SameSize(MaskOf(bits, s), Below(|bits|));
  }

  /** If everyone has to sign, it is enough that the bits are the places in any order. */
  lemma AllSignVerifies(bits: seq<nat>, events: seq<Event>)
    requires Distinct(bits) && Places(bits) && Answers(events, |bits|) && Collect(|bits|, 1, events).Certificate?
    ensures var s := Collect(|bits|, 1, events).signers;
            s <= Below(|bits|) && Verifies(|bits|, 1, MaskOf(bits, s), s)
  {
    CertificateSigners(|bits|, 1, events);
    var s := Collect(|bits|, 1, events).signers;
    hide Collect, Answers, Below;
    Subset(s, Below(|bits|));
    SameSize(s, Below(|bits|));
    MaskSize(bits, s);
    PlacesCovered(bits, s);
  }

  /** The services but two, in order. */
  function Others(n: nat, i: nat, avoid: nat): seq<nat> {
    if n == 0 then [] else Others(n - 1, i, avoid) + if n - 1 == i || n - 1 == avoid then [] else [n - 1]
  }

  lemma {:induction false} OthersAre(n: nat, i: nat, avoid: nat)
    ensures var o := Others(n, i, avoid);
            && |o| == n - (if i < n then 1 else 0) - (if avoid < n && avoid != i then 1 else 0)
            && (forall k :: 0 <= k < |o| ==> o[k] < n && o[k] != i && o[k] != avoid)
            && forall k, l :: 0 <= k < l < |o| ==> o[k] < o[l]
  {
    if n > 0 {
      OthersAre(n - 1, i, avoid);
    }
  }

  /** A run in which some services store the data, and the request is then cancelled. */
  function StoredBy(order: seq<nat>, services: nat): seq<Event>
    requires |order| <= services
  {
    seq(services, k requires 0 <= k < services => if k < |order| then Stored(order[k]) else Cancelled)
  }

  predicate DistinctBelow(order: seq<nat>, services: nat) {
    && |order| <= services
    && (forall k :: 0 <= k < |order| ==> order[k] < services)
    && forall k, l :: 0 <= k < l < |order| ==> order[k] != order[l]
  }

  function Elements(s: seq<nat>): set<nat> {
    set x | x in s
  }

  lemma ElementsNext(s: seq<nat>, n: nat)
    requires n < |s|
    ensures Elements(s[..n + 1]) == Elements(s[..n]) + {s[n]}
  {
    assert s[..n + 1] == s[..n] + [s[n]];
  }

  lemma StoredByAnswers(order: seq<nat>, services: nat)
    requires DistinctBelow(order, services)
    ensures Answers(StoredBy(order, services), services)
  {
  }

  lemma {:induction false} StoredBySigners(order: seq<nat>, services: nat, n: nat)
    requires DistinctBelow(order, services) && n <= services
    ensures var events := StoredBy(order, services);
            && Signers(events[..n]) == Elements(order[..Min(n, |order|)])
            && |Signers(events[..n])| == Min(n, |order|)
            && Failures(events[..n]) == {}
  {
    hide Signers, Failures, Answers;
    StoredByAnswers(order, services);
    var events := StoredBy(order, services);
    if n == 0 {
      NoEvents(events);
    } else {
      StoredBySigners(order, services, n - 1);
      NextEvent(events, services, n - 1);
      if n <= |order| {
        assert events[n - 1] == Stored(order[n - 1]);
        ElementsNext(order, n - 1);
      } else {
        assert events[n - 1] == Cancelled;
      }
      hide StoredBy, DistinctBelow, Elements;
    }
  }

  /** Any services, if they are just enough, make a certificate of theirs. */
  lemma {:induction false} StoredByCollects(order: seq<nat>, services: nat, honest: nat, n: nat)
    requires DistinctBelow(order, services) && 0 < honest <= services && |order| == services + 1 - honest
    requires n <= services
    ensures var events := StoredBy(order, services);
            Collect(services, honest, events[..n]) == if n < |order| then NoAnswer
                else Certificate(Signers(events[..|order|]))
  {
    var events := StoredBy(order, services);
    if n > 0 {
      StoredByCollects(order, services, honest, n - 1);
      StoredBySigners(order, services, n);
      assert events[..n][..n - 1] == events[..n - 1];
      hide Signers, Failures, DistinctBelow, StoredBy;
    }
  }

  /** A set of signers that makes a certificate, with one service in it and another place not. */
  lemma SomeCertificate(services: nat, honest: nat, i: nat, avoid: nat) returns (events: seq<Event>)
    requires i < services && 1 < honest <= services && avoid != i
    ensures Answers(events, services) && Collect(services, honest, events).Certificate?
    ensures var s := Collect(services, honest, events).signers;
            i in s && avoid !in s && s <= Below(services) && |s| == services + 1 - honest
  {
    OthersAre(services, i, avoid);
    var order := [i] + Others(services, i, avoid)[..services - honest];
    events := StoredBy(order, services);
    StoredByAnswers(order, services);
    StoredByCollects(order, services, honest, services);
    StoredBySigners(order, services, |order|);
    assert events[..services] == events && order[..|order|] == order;
    assert order[0] == i;
    hide Signers, StoredBy, Others, Collect;
  }

  /** If some may be missing, every certificate verifies only if the bits are in order. */
  lemma OutOfOrderFails(bits: seq<nat>, honest: nat, i: nat)
    requires Distinct(bits) && 1 < honest <= |bits| && i < |bits| && bits[i] != i
    ensures !AlwaysVerifies(bits, honest)
  {
    var events := SomeCertificate(|bits|, honest, i, bits[i]);
    var s := Collect(|bits|, honest, events).signers;
    assert bits[i] in MaskOf(bits, s);
    MaskSize(bits, s);
    if Selected(|bits|, MaskOf(bits, s)) == s {
      assert s <= MaskOf(bits, s);
      SameSize(s, MaskOf(bits, s));
    }
  }

  lemma EveryoneSigns(services: nat) returns (events: seq<Event>)
    requires services > 0
    ensures Answers(events, services) && Collect(services, 1, events) == Certificate(Below(services))
  {
    OthersAre(services, services, services);
    var order := Others(services, services, services);
    events := StoredBy(order, services);
    StoredByAnswers(order, services);
    StoredByCollects(order, services, 1, services);
    assert events[..services] == events;
    CertificateSigners(services, 1, events);
    var s := Collect(services, 1, events).signers;
    Subset(s, Below(services));
    SameSize(s, Below(services));
  }

  lemma MissingPlaceFails(bits: seq<nat>, i: nat)
    requires Distinct(bits) && i < |bits| && bits[i] >= |bits|
    ensures !AlwaysVerifies(bits, 1)
  {
    var events := EveryoneSigns(|bits|);
    var s := Below(|bits|);
    assert bits[i] in MaskOf(bits, s);
    MaskSize(bits, s);
    if Selected(|bits|, MaskOf(bits, s)) == s {
      assert s <= MaskOf(bits, s);
      SameSize(s, MaskOf(bits, s));
    }
  }

  /**
   * Every certificate verifies exactly when the services' bits are their places in the keyset; if all of them
   * have to sign, when the bits are those places in any order.
   */
  lemma CertificatesVerify(bits: seq<nat>, honest: nat)
    requires Distinct(bits) && 0 < honest <= |bits|
    ensures AlwaysVerifies(bits, honest) <==> if honest == 1 then Places(bits) else InOrder(bits)
  {
    if honest == 1 {
      if Places(bits) {
        forall events | Answers(events, |bits|) && Collect(|bits|, honest, events).Certificate?
          ensures var s := Collect(|bits|, honest, events).signers;
                  s <= Below(|bits|) && Verifies(|bits|, honest, MaskOf(bits, s), s)
        {
          AllSignVerifies(bits, events);
        }
      } else {
        var i :| 0 <= i < |bits| && bits[i] >= |bits|;
        MissingPlaceFails(bits, i);
      }
    } else if InOrder(bits) {
      forall events | Answers(events, |bits|) && Collect(|bits|, honest, events).Certificate?
        ensures var s := Collect(|bits|, honest, events).signers;
                s <= Below(|bits|) && Verifies(|bits|, honest, MaskOf(bits, s), s)
      {
        InOrderVerifies(bits, honest, events);
      }
    } else {
      var i :| 0 <= i < |bits| && bits[i] != i;
      OutOfOrderFails(bits, honest, i);
    }
  }
}

/**
 * Challenges by bisection: both parties compute the same positions, the disputed segment always shrinks, and a
 * party with the right hashes always finds a segment that starts right and ends wrong.
 */
module Bisection {
  import opened Types

  const MAX_BISECTION_DEGREE: nat := 40

  type Hash = nat

  /** A bisection on chain: hashes at some positions of a segment, the first and the last of them at its ends. */
  datatype Challenge = Challenge(start: nat, length: nat, hashes: seq<Hash>)

  /** The length of all segments but the last. */
  function Step(length: nat, degree: nat): nat
    requires degree > 0
  {
    length / degree
  }

  function PositionAt(c: Challenge, i: nat): nat
    requires HasEnds(c) && i < |c.hashes|
  {
    if i == |c.hashes| - 1 then c.start + c.length else c.start + i * Step(c.length, |c.hashes| - 1)
  }

  /** How many segments a segment is bisected into. */
  function Degree(length: nat): nat {
    Min(MAX_BISECTION_DEGREE, length)
  }

  predicate HasEnds(c: Challenge) {
    |c.hashes| >= 2
  }

  /** No more segments than the challenge is long. */
  predicate WellFormed(c: Challenge) {
    HasEnds(c) && |c.hashes| - 1 <= c.length
  }

  lemma {:induction false} Multiples(a: nat, b: nat, step: nat)
    requires a < b && step > 0
    ensures a * step + step <= b * step
    decreases b
  {
    assert b * step == (b - 1) * step + step;
    if a < b - 1 {
      Multiples(a, b - 1, step);
    }
  }

  lemma StepFits(length: nat, degree: nat)
    requires 0 < degree <= length
    ensures Step(length, degree) > 0 && degree * Step(length, degree) <= length
  {
    var q, r := length / degree, length % degree;
    assert length == degree * q + r;
    if q == 0 {
      assert false;
    }
  }

  /** The positions strictly increase from the start to the end. */
  lemma PositionsIncrease(c: Challenge, i: nat, j: nat)
    requires WellFormed(c) && i < j < |c.hashes|
    ensures c.start <= PositionAt(c, i) < PositionAt(c, j) <= c.start + c.length
    ensures PositionAt(c, 0) == c.start && PositionAt(c, |c.hashes| - 1) == c.start + c.length
  {
    var degree := |c.hashes| - 1;
    var step := Step(c.length, degree);
    StepFits(c.length, degree);
    hide Step;
    Multiples(i, j, step);
    if j < degree {
      Multiples(j, degree, step);
    }
  }

  /** With more than one segment, each is shorter than the whole. */
  lemma SegmentsShrink(c: Challenge, i: nat)
    requires WellFormed(c) && |c.hashes| > 2 && i + 1 < |c.hashes|
    ensures 0 < PositionAt(c, i + 1) - PositionAt(c, i) < c.length
  {
    PositionsIncrease(c, i, i + 1);
    if i > 0 {
      PositionsIncrease(c, 0, i);
    } else {
      PositionsIncrease(c, 1, |c.hashes| - 1);
    }
  }

  /** Bisected into as many segments as the contract asks for, each is at most half as long. */
  lemma SegmentsHalve(c: Challenge, i: nat)
    requires c.length >= 2 && |c.hashes| == Degree(c.length) + 1 && i + 1 < |c.hashes|
    ensures PositionAt(c, i + 1) - PositionAt(c, i) <= (c.length + 1) / 2
  {
    var degree := Degree(c.length);
    var step := Step(c.length, degree);
    StepHalves(c.length);
    hide Step;
    assert (i + 1) * step == i * step + step;
  }

  lemma StepHalves(length: nat)
    requires length >= 2
    ensures var step := Step(length, Degree(length));
            step <= (length + 1) / 2 && length - (Degree(length) - 1) * step <= (length + 1) / 2
  {
    if length < MAX_BISECTION_DEGREE {
      assert length / length == 1;
    }
  }

  /** How many binary digits a number has: how often it can be halved. */
  function Bits(n: nat): nat {
    if n == 0 then 0 else 1 + Bits(n / 2)
  }

  lemma {:induction false} MoreBits(a: nat, b: nat)
    requires a <= b
    ensures Bits(a) <= Bits(b)
  {
    if a > 0 {
      MoreBits(a / 2, b / 2);
    }
  }

  lemma HalfHasFewerBits(half: nat, segment: nat, length: nat)
    requires 0 < half <= (segment + 1) / 2 && 2 <= segment <= length
    ensures Bits(half - 1) < Bits(length - 1)
  {
    MoreBits(half - 1, (length - 1) / 2);
  }

  // ----- Reading and making bisections -----

  /** The position of every hash of a bisection, or nothing if one does not fit; none is ever past the end. */
  method ResolvePositions(c: Challenge) returns (r: Option<seq<nat>>)
    requires HasEnds(c)
    ensures r.Some? <==> c.start + c.length <= MAX_U64
    ensures r.Some? ==> |r.value| == |c.hashes| && forall i :: 0 <= i < |c.hashes| ==> r.value[i] == PositionAt(c, i)
  {
    var degree := |c.hashes| - 1;
    var current := c.start;
    var step := Step(c.length, degree);
    hide Step;
    var segments: seq<nat> := [];
    var i := 0;
    while i < |c.hashes|
      invariant 0 <= i <= |c.hashes| && |segments| == i
      invariant i < |c.hashes| ==> current == c.start + i * step
      invariant forall k :: 0 <= k < i ==> segments[k] == PositionAt(c, k)
      invariant i == |c.hashes| ==> c.start + c.length <= MAX_U64
    {
      NextPosition(c, i);
      if i == degree {
        assert current <= c.start + c.length;
        current := c.start + c.length;
      }
      if current > MAX_U64 {
        return None;
      }
      segments := segments + [current];
      assert (i + 1) * step == i * step + step;
      current := current + step;
      i := i + 1;
    }
    return Some(segments);
  }

  lemma NextPosition(c: Challenge, i: nat)
    requires HasEnds(c) && i < |c.hashes|
    ensures PositionAt(c, i) <= c.start + c.length
    ensures c.start + i * Step(c.length, |c.hashes| - 1) <= c.start + c.length
  {
    var degree := |c.hashes| - 1;
    var step := Step(c.length, degree);
    StepBound(c.length, degree);
    hide Step;
    if i < degree && step > 0 {
      Multiples(i, degree, step);
    }
  }

  lemma StepBound(length: nat, degree: nat)
    requires 0 < degree
    ensures degree * Step(length, degree) <= length
  {
    assert length == degree * (length / degree) + length % degree;
  }

  /** A bisection of a segment, with the hashes a party has for the positions. */
  ghost predicate Bisects(c: Challenge, start: nat, length: nat, hash: nat -> Hash) {
    && c.start == start && c.length == length && |c.hashes| == Degree(length) + 1
    && length > 0 && forall i :: 0 <= i < |c.hashes| ==> c.hashes[i] == hash(PositionAt(c, i))
  }

  method Bisect(start: nat, end: nat, hash: nat -> Hash) returns (hashes: seq<Hash>)
    requires start < end
    ensures Bisects(Challenge(start, end - start, hashes), start, end - start, hash)
  {
    var length := end - start;
    var degree := MAX_BISECTION_DEGREE;
    if length < degree {
      degree := length;
    }
    var position := start;
    var step := Step(length, degree);
    StepFits(length, degree);
    hide Step;
    hashes := [];
    var i := 0;
    while i < degree + 1
      invariant 0 <= i <= degree + 1 && |hashes| == i
      invariant i <= degree ==> position == start + i * step
      invariant forall k :: 0 <= k < i ==> hashes[k] == hash(if k == degree then end else start + k * step)
    {
      if i == degree {
        assert position <= end;
        position := end;
      }
      hashes := hashes + [hash(position)];
      assert (i + 1) * step == i * step + step;
      position := position + step;
      i := i + 1;
    }
  }

  // ----- Playing with the right hashes -----

  /** The other party's bisection starts where both agree and ends where they do not. */
  predicate Disputed(c: Challenge, hash: nat -> Hash) {
    && WellFormed(c)
    && c.hashes[0] == hash(c.start)
    && c.hashes[|c.hashes| - 1] != hash(c.start + c.length)
  }

  /** A segment that starts right and ends wrong, with everything before it right. */
  predicate IsWrong(c: Challenge, hash: nat -> Hash, i: nat) {
    && HasEnds(c) && i + 1 < |c.hashes|
    && (forall k :: 0 <= k <= i ==> c.hashes[k] == hash(PositionAt(c, k)))
    && c.hashes[i + 1] != hash(PositionAt(c, i + 1))
  }

  datatype Scan = WrongSegment(segment: nat) | FirstDiffers | AgreesEntirely

  method ScanChallengeState(c: Challenge, hash: nat -> Hash) returns (r: Scan)
    requires HasEnds(c)
    ensures r.FirstDiffers? <==> c.hashes[0] != hash(c.start)
    ensures r.WrongSegment? ==> IsWrong(c, hash, r.segment)
    ensures r.AgreesEntirely? <==> forall k :: 0 <= k < |c.hashes| ==> c.hashes[k] == hash(PositionAt(c, k))
  {
    assert PositionAt(c, 0) == c.start;
    var i := 0;
    while i < |c.hashes|
      invariant 0 <= i <= |c.hashes|
      invariant forall k :: 0 <= k < i ==> c.hashes[k] == hash(PositionAt(c, k))
    {
      if c.hashes[i] != hash(PositionAt(c, i)) {
        if i == 0 {
          return FirstDiffers;
        }
        return WrongSegment(i - 1);
      }
      i := i + 1;
    }
    return AgreesEntirely;
  }

  /** A disputed bisection has exactly one segment for the scan to find. */
  lemma {:induction false} DisputedHasWrongSegment(c: Challenge, hash: nat -> Hash, from: nat) returns (i: nat)
    requires Disputed(c, hash) && from < |c.hashes| - 1
    requires forall k :: 0 <= k <= from ==> c.hashes[k] == hash(PositionAt(c, k))
    ensures IsWrong(c, hash, i)
    ensures forall j :: IsWrong(c, hash, j) ==> j == i
    decreases |c.hashes| - from
  {
    if c.hashes[from + 1] != hash(PositionAt(c, from + 1)) {
      i := from;
    } else {
      PositionsIncrease(c, 0, |c.hashes| - 1);
      i := DisputedHasWrongSegment(c, hash, from + 1);
    }
  }

  /** The contract takes a bisection of a segment that keeps the hash at its start and changes the one at its end. */
  predicate Legal(prev: Challenge, segment: nat, c: Challenge) {
    && WellFormed(prev) && segment + 1 < |prev.hashes|
    && c.start == PositionAt(prev, segment) && c.start + c.length == PositionAt(prev, segment + 1)
    && |c.hashes| == Degree(c.length) + 1
    && |c.hashes| >= 2
    && c.hashes[0] == prev.hashes[segment] && c.hashes[|c.hashes| - 1] != prev.hashes[segment + 1]
  }

  /** Bisecting the segment found with the right hashes is a legal move. */
  lemma HonestMoveIsLegal(c: Challenge, hash: nat -> Hash, i: nat, mine: Challenge)
    requires WellFormed(c) && IsWrong(c, hash, i)
    requires Bisects(mine, PositionAt(c, i), PositionAt(c, i + 1) - PositionAt(c, i), hash)
    ensures Legal(c, i, mine)
  {
    PositionsIncrease(mine, 0, |mine.hashes| - 1);
  }

  /** Whatever the other party answers to right hashes is disputed again, about a shorter segment. */
  lemma AnswerIsDisputed(mine: Challenge, hash: nat -> Hash, start: nat, length: nat, j: nat, answer: Challenge)
    requires Bisects(mine, start, length, hash) && length >= 2
    requires Legal(mine, j, answer)
    ensures Disputed(answer, hash) && 0 < answer.length < length && answer.length <= (length + 1) / 2
    ensures start <= answer.start && answer.start + answer.length <= start + length
  {
    SegmentsShrink(mine, j);
    SegmentsHalve(mine, j);
    PositionsIncrease(mine, j, j + 1);
    hide Step;
  }

  /** One round each: the party with the right hashes bisects the wrong segment, and the other answers. */
  ghost predicate Plays(c: Challenge, hash: nat -> Hash, i: nat, mine: Challenge, j: nat, next: Challenge) {
    && IsWrong(c, hash, i) && PositionAt(c, i + 1) >= PositionAt(c, i) + 2
    && Bisects(mine, PositionAt(c, i), PositionAt(c, i + 1) - PositionAt(c, i), hash)
    && Legal(mine, j, next)
  }

  ghost predicate Round(c: Challenge, hash: nat -> Hash, next: Challenge) {
    exists i: nat, mine: Challenge, j: nat :: Plays(c, hash, i, mine, j, next)
  }

  lemma PlayKeepsDispute(c: Challenge, hash: nat -> Hash, i: nat, mine: Challenge, j: nat, next: Challenge)
    requires Disputed(c, hash) && Plays(c, hash, i, mine, j, next)
    ensures Disputed(next, hash) && c.length > 0 && next.length > 0
    ensures Bits(next.length - 1) < Bits(c.length - 1)
    ensures c.start <= next.start && next.start + next.length <= c.start + c.length
  {
    PositionsIncrease(c, i, i + 1);
    hide PositionAt, Legal, Bisects, Disputed, Bits;
    var segment := PositionAt(c, i + 1) - PositionAt(c, i);
    AnswerIsDisputed(mine, hash, PositionAt(c, i), segment, j, next);
    HalfHasFewerBits(next.length, segment, c.length);
  }

  lemma RoundKeepsDispute(c: Challenge, hash: nat -> Hash, next: Challenge)
    requires Disputed(c, hash) && Round(c, hash, next)
    ensures Disputed(next, hash) && c.length > 0 && next.length > 0
    ensures Bits(next.length - 1) < Bits(c.length - 1)
    ensures c.start <= next.start && next.start + next.length <= c.start + c.length
  {
    hide Plays, Disputed, Bits;
    var i: nat, mine: Challenge, j: nat :| Plays(c, hash, i, mine, j, next);
    PlayKeepsDispute(c, hash, i, mine, j, next);
  }

  /** A whole game of rounds, against any answers. */
  ghost predicate Game(rounds: seq<Challenge>, hash: nat -> Hash) {
    && |rounds| > 0 && Disputed(rounds[0], hash)
    && forall k :: 0 <= k < |rounds| - 1 ==> Round(rounds[k], hash, rounds[k + 1])
  }

  /**
   * In every game the party with the right hashes always finds a segment to move on, for at most as many rounds as the
   * length of the challenge has binary digits; when that segment is a single step, it starts right and ends wrong.
   */
  lemma {:induction false} HonestPartyAlwaysMoves(rounds: seq<Challenge>, hash: nat -> Hash)
    requires Game(rounds, hash)
    ensures var last := rounds[|rounds| - 1];
            && Disputed(last, hash) && (exists i :: IsWrong(last, hash, i))
            && last.length > 0 && |rounds| - 1 + Bits(last.length - 1) <= Bits(rounds[0].length - 1)
  {
    hide IsWrong, Disputed, Round, Bits;
    var last := rounds[|rounds| - 1];
    if |rounds| > 1 {
      var before := rounds[..|rounds| - 1];
      forall k | 0 <= k < |before| - 1 ensures Round(before[k], hash, before[k + 1]) {
        assert Round(rounds[k], hash, rounds[k + 1]);
      }
      HonestPartyAlwaysMoves(before, hash);
      assert Round(rounds[|rounds| - 2], hash, rounds[|rounds| - 2 + 1]);
      RoundKeepsDispute(rounds[|rounds| - 2], hash, last);
    }
    var i := WrongSegmentExists(last, hash);
  }

  lemma WrongSegmentExists(c: Challenge, hash: nat -> Hash) returns (i: nat)
    requires Disputed(c, hash)
    ensures IsWrong(c, hash, i) && c.length > 0
  {
    PositionsIncrease(c, 0, 1);
    i := DisputedHasWrongSegment(c, hash, 0);
  }
}

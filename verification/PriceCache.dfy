/** The cache of what messages not yet posted paid for the parent chain: cumulative sums that wrap around. */
module PriceCache {
  import opened Types

  datatype Price = Price(units: u64, gas: u64)

  /** The messages in the cache: those from one index on, in order. */
  datatype Window = Window(first: nat, prices: seq<Price>)

  const EMPTY := Window(0, [])

  function Last(w: Window): int {
    w.first + |w.prices| - 1
  }

  /** Message zero is never extended; a gap starts again; what is there already is kept. */
  function Add(w: Window, pos: nat, price: Price): Window {
    if w.prices == [] || w.first == 0 || pos > Last(w) + 1 then Window(pos, [price])
    else if pos == Last(w) + 1 then Window(w.first, w.prices + [price])
    else w
  }

  function Trim(w: Window, to: nat): Window {
    if w.prices == [] || to >= Last(w) then EMPTY
    else if to < w.first then w
    else Window(to + 1, w.prices[to + 1 - w.first..])
  }

  function UnitsOf(prices: seq<Price>): nat {
    if prices == [] then 0 else UnitsOf(prices[..|prices| - 1]) + prices[|prices| - 1].units
  }

  function GasOf(prices: seq<Price>): nat {
    if prices == [] then 0 else GasOf(prices[..|prices| - 1]) + prices[|prices| - 1].gas
  }

  // ----- The cumulative sums -----

  datatype Entry = Entry(units: u64, totalUnits: u64, gas: u64, totalGas: u64)

  /** Each total is the one before it plus the entry's own, as far as it fits. */
  predicate Cumulative(entries: seq<Entry>) {
    forall i :: 0 < i < |entries| ==>
      && entries[i].totalUnits == WrapAdd(entries[i - 1].totalUnits, entries[i].units)
      && entries[i].totalGas == WrapAdd(entries[i - 1].totalGas, entries[i].gas)
  }

  function PricesOf(entries: seq<Entry>): seq<Price> {
    seq(|entries|, i requires 0 <= i < |entries| => Price(entries[i].units, entries[i].gas))
  }

  /** The difference of two totals is the sum in between, modulo the word size. */
  lemma {:induction false} TotalsAreSums(entries: seq<Entry>)
    requires |entries| > 0 && Cumulative(entries)
    ensures var last, first := entries[|entries| - 1], entries[0];
            && WrapAdd(WrapSub(last.totalUnits, first.totalUnits), first.units) == UnitsOf(PricesOf(entries)) % TWO64
            && WrapAdd(WrapSub(last.totalGas, first.totalGas), first.gas) == GasOf(PricesOf(entries)) % TWO64
  {
    var prices := PricesOf(entries);
    var before := entries[..|entries| - 1];
    assert PricesOf(before) == prices[..|prices| - 1];
    if |entries| == 1 {
      assert UnitsOf(prices) == entries[0].units && GasOf(prices) == entries[0].gas;
    } else {
      TotalsAreSums(before);
      var last, first := before[|before| - 1], before[0];
      NextSum(last.totalUnits, first.totalUnits, first.units, entries[|entries| - 1].units, UnitsOf(PricesOf(before)));
      NextSum(last.totalGas, first.totalGas, first.gas, entries[|entries| - 1].gas, GasOf(PricesOf(before)));
    }
  }

  lemma NextSum(last: u64, first: u64, own: u64, next: u64, sum: nat)
    requires WrapAdd(WrapSub(last, first), own) == sum % TWO64
    ensures WrapAdd(WrapSub(WrapAdd(last, next), first), own) == (sum + next) % TWO64
  {
  }

  class L1PriceCache {
    var start: nat
    var end: nat
    var data: seq<Entry>

    ghost predicate Valid()
      reads this
    {
      && Cumulative(data)
      && (data == [] ==> start == 0 && end == 0)
      && (data != [] ==> |data| == end - start + 1)
    }

    ghost function Contents(): Window
      reads this
    {
      Window(start, PricesOf(data))
    }

    constructor ()
      ensures Valid() && Contents() == EMPTY
    {
      start, end, data := 0, 0, [];
    }

    method Reset(seqNum: nat, price: Price)
      modifies this
      ensures Valid() && Contents() == Window(seqNum, [price])
    {
      start, end := seqNum, seqNum;
      data := [Entry(price.units, price.units, price.gas, price.gas)];
    }

    method CacheL1PriceDataOfMsg(seqNum: nat, price: Price)
      requires Valid()
      modifies this
      ensures Valid() && Contents() == Add(old(Contents()), seqNum, price)
    {
      var size := |data|;
      if size == 0 || start == 0 || end == 0 || size != end - start + 1 {
        Reset(seqNum, price);
        return;
      }
      if seqNum != end + 1 {
        if seqNum > end + 1 {
          Reset(seqNum, price);
        }
      } else {
        var last := data[size - 1];
        data := data + [Entry(price.units, WrapAdd(last.totalUnits, price.units), price.gas,
            WrapAdd(last.totalGas, price.gas))];
        end := seqNum;
        assert PricesOf(data) == PricesOf(old(data)) + [price];
      }
    }

    method TrimCache(to: nat)
      requires Valid()
      modifies this
      ensures Valid() && Contents() == Trim(old(Contents()), to)
    {
      if to < start {
        return;
      }
      if to >= end {
        start, end, data := 0, 0, [];
        assert PricesOf(data) == [];
      } else {
        var newStart := to - start + 1;
        data := data[newStart..];
        start := to + 1;
        assert PricesOf(data) == PricesOf(old(data))[newStart..];
      }
    }

    method BacklogCallDataUnits() returns (units: u64)
      requires Valid()
      ensures units == UnitsOf(Contents().prices) % TWO64
    {
      var size := |data|;
      if size == 0 {
        return 0;
      }
      TotalsAreSums(data);
      return WrapAdd(WrapSub(data[size - 1].totalUnits, data[0].totalUnits), data[0].units);
    }

    method BacklogL1GasCharged() returns (gas: u64)
      requires Valid()
      ensures gas == GasOf(Contents().prices) % TWO64
    {
      var size := |data|;
      if size == 0 {
        return 0;
      }
      TotalsAreSums(data);
      return WrapAdd(WrapSub(data[size - 1].totalGas, data[0].totalGas), data[0].gas);
    }
  }

  // ----- What the backlog is made of -----

  datatype Indexed = Indexed(index: nat, price: Price)

  /**
   * The calls around the cache. A sequenced message is cached at its index; a delayed message, or one that comes from
   * elsewhere, only takes an index; a confirmed batch covers the messages before its count, and trims with that count;
   * a reorganization of the log leaves the cache alone.
   */
  datatype Op = Sequenced(price: Price) | Uncached | Confirmed(count: nat) | Reorged(count: nat)

  /** The cache, and the index of the next message. */
  function Run(first: nat, ops: seq<Op>): (Window, nat) {
    if ops == [] then (EMPTY, first)
    else
      var (w, next) := Run(first, ops[..|ops| - 1]);
      match ops[|ops| - 1]
      case Sequenced(price) => (Add(w, next, price), next + 1)
      case Uncached => (w, next + 1)
      case Confirmed(count) => (Trim(w, count), Max(next, count))
      case Reorged(count) => (w, Min(next, count))
  }

  function From(msgs: seq<Indexed>, count: nat): seq<Indexed> {
    if msgs == [] then []
    else From(msgs[..|msgs| - 1], count) + if msgs[|msgs| - 1].index >= count then [msgs[|msgs| - 1]] else []
  }

  function Upto(msgs: seq<Indexed>, count: nat): seq<Indexed> {
    if msgs == [] then []
    else Upto(msgs[..|msgs| - 1], count) + if msgs[|msgs| - 1].index < count then [msgs[|msgs| - 1]] else []
  }

  /** The sequenced messages that are in the log and in no confirmed batch, and the index of the next message. */
  function Unposted(first: nat, ops: seq<Op>): (seq<Indexed>, nat) {
    if ops == [] then ([], first)
    else
      var (msgs, next) := Unposted(first, ops[..|ops| - 1]);
      match ops[|ops| - 1]
      case Sequenced(price) => (msgs + [Indexed(next, price)], next + 1)
      case Uncached => (msgs, next + 1)
      case Confirmed(count) => (From(msgs, count), Max(next, count))
      case Reorged(count) => (Upto(msgs, count), Min(next, count))
  }

  /** A window, with the index of each message. */
  function Listed(w: Window): seq<Indexed> {
    seq(|w.prices|, i requires 0 <= i < |w.prices| => Indexed(w.first + i, w.prices[i]))
  }

  predicate Rising(msgs: seq<Indexed>, next: nat) {
    && (forall i, j :: 0 <= i < j < |msgs| ==> msgs[i].index < msgs[j].index)
    && forall i :: 0 <= i < |msgs| ==> msgs[i].index < next
  }

  /** Trimming to a count drops the message at the count too. */
  lemma {:induction false} TrimIsFromNext(w: Window, to: nat)
    ensures From(Listed(w), to + 1) == Listed(Trim(w, to))
    decreases |w.prices|
  {
    if w.prices != [] {
      var n := |w.prices| - 1;
      var before := Window(w.first, w.prices[..n]);
      assert Listed(before) == Listed(w)[..n];
      TrimIsFromNext(before, to);
      TrimmedLast(w, to);
    }
  }

  lemma TrimmedLast(w: Window, to: nat)
    requires w.prices != []
    ensures var n := |w.prices| - 1;
            var before := Window(w.first, w.prices[..n]);
            Listed(Trim(w, to)) ==
            Listed(Trim(before, to)) + if w.first + n > to then [Indexed(w.first + n, w.prices[n])] else []
  {
  }

  lemma {:induction false} FromNothing(msgs: seq<Indexed>, count: nat)
    requires Rising(msgs, count)
    ensures From(msgs, count) == []
  {
    if msgs != [] {
      FromNothing(msgs[..|msgs| - 1], count);
    }
  }

  lemma {:induction false} FromRising(msgs: seq<Indexed>, count: nat, next: nat)
    requires Rising(msgs, next)
    ensures Rising(From(msgs, count), next) && Rising(Upto(msgs, count), Min(next, count))
    ensures |From(msgs, count)| <= |msgs| && |Upto(msgs, count)| <= |msgs|
  {
    if msgs != [] {
      FromRising(msgs[..|msgs| - 1], count, msgs[|msgs| - 1].index);
    }
  }

  // ----- The cache never counts too much -----

  predicate IsEnd(some: seq<Indexed>, all: seq<Indexed>) {
    |some| <= |all| && some == all[|all| - |some|..]
  }

  lemma {:induction false} FromEnd(some: seq<Indexed>, all: seq<Indexed>, count: nat, next: nat)
    requires IsEnd(some, all) && Rising(all, next)
    ensures IsEnd(From(some, count + 1), From(all, count))
  {
    if some != [] {
      var front, e := all[..|all| - 1], all[|all| - 1];
      assert some[..|some| - 1] == front[|front| - (|some| - 1)..];
      FromEnd(some[..|some| - 1], front, count, next);
      if e.index <= count {
        FromNothing(some, count + 1);
      }
    }
  }

  /** In every run without reorganizations the cache is the end of the unposted messages: it misses some, and adds
      none. */
  lemma {:induction false} CacheIsEndOfUnposted(first: nat, ops: seq<Op>)
    requires forall i :: 0 <= i < |ops| ==> !ops[i].Reorged?
    ensures var (w, next) := Run(first, ops);
            && next == Unposted(first, ops).1
            && Rising(Unposted(first, ops).0, next)
            && IsEnd(Listed(w), Unposted(first, ops).0)
  {
    if ops != [] {
      CacheIsEndOfUnposted(first, ops[..|ops| - 1]);
      var (w, next) := Run(first, ops[..|ops| - 1]);
      var msgs := Unposted(first, ops[..|ops| - 1]).0;
      match ops[|ops| - 1]
      case Sequenced(price) => AddEnd(w, msgs, next, price);
      case Uncached =>
      case Confirmed(count) =>
        TrimIsFromNext(w, count);
        FromEnd(Listed(w), msgs, count, next);
        FromRising(msgs, count, next);
      case Reorged(count) =>
    }
  }

  lemma AddEnd(w: Window, msgs: seq<Indexed>, next: nat, price: Price)
    requires IsEnd(Listed(w), msgs) && Rising(msgs, next)
    ensures IsEnd(Listed(Add(w, next, price)), msgs + [Indexed(next, price)])
  {
    if w.prices != [] {
      var n := |w.prices| - 1;
      assert Listed(w)[n] == msgs[|msgs| - 1];
      assert Last(w) < next;
    }
    assert Listed(Window(next, [price])) == [Indexed(next, price)];
    if w.prices != [] && w.first != 0 && next == Last(w) + 1 {
      assert Listed(Add(w, next, price)) == Listed(w) + [Indexed(next, price)];
    }
  }

  // ----- When the cache is exact -----

  /**
   * A message comes right after the last unposted one, or after none, and not after message zero; the message at the
   * count of a confirmed batch is not an unposted one; and no unposted message is reorganized away.
   */
  predicate Harmless(first: nat, before: seq<Op>, op: Op) {
    var (msgs, next) := Unposted(first, before);
    match op
    case Sequenced(_) => msgs == [] || (msgs[0].index > 0 && msgs[|msgs| - 1].index + 1 == next)
    case Uncached => true
    case Confirmed(count) => forall i :: 0 <= i < |msgs| ==> msgs[i].index != count
    case Reorged(count) => forall i :: 0 <= i < |msgs| ==> msgs[i].index < count
  }

  predicate Exact(first: nat, ops: seq<Op>) {
    Listed(Run(first, ops).0) == Unposted(first, ops).0
  }

  lemma {:induction false} NextAndOrder(first: nat, ops: seq<Op>)
    ensures Run(first, ops).1 == Unposted(first, ops).1
    ensures Rising(Unposted(first, ops).0, Unposted(first, ops).1)
  {
    if ops != [] {
      NextAndOrder(first, ops[..|ops| - 1]);
      var (msgs, next) := Unposted(first, ops[..|ops| - 1]);
      match ops[|ops| - 1]
      case Confirmed(count) => FromRising(msgs, count, next);
      case Reorged(count) => FromRising(msgs, count, next);
      case _ =>
    }
  }

  lemma {:induction false} FromSkips(msgs: seq<Indexed>, count: nat, next: nat)
    requires Rising(msgs, next)
    ensures From(msgs, count) == From(msgs, count + 1) <==> forall i :: 0 <= i < |msgs| ==> msgs[i].index != count
    ensures |From(msgs, count + 1)| <= |From(msgs, count)|
  {
    if msgs != [] {
      var front, e := msgs[..|msgs| - 1], msgs[|msgs| - 1];
      FromSkips(front, count, e.index);
      if e.index <= count {
        FromNothing(msgs, count + 1);
        FromNothing(front, count);
      } else if From(front, count) != From(front, count + 1) {
        assert From(msgs, count)[..|From(front, count)|] == From(front, count);
        assert From(msgs, count + 1)[..|From(front, count + 1)|] == From(front, count + 1);
        var i :| 0 <= i < |front| && front[i].index == count;
        assert msgs[i].index == count;
      }
    }
  }

  lemma {:induction false} UptoKeeps(msgs: seq<Indexed>, count: nat, next: nat)
    requires Rising(msgs, next)
    ensures Upto(msgs, count) == msgs <==> forall i :: 0 <= i < |msgs| ==> msgs[i].index < count
  {
    if msgs != [] {
      var front, e := msgs[..|msgs| - 1], msgs[|msgs| - 1];
      UptoKeeps(front, count, e.index);
      FromRising(front, count, e.index);
      if e.index < count {
        assert Upto(msgs, count) == Upto(front, count) + [e];
        assert msgs == front + [e];
        assert forall i :: 0 <= i < |front| ==> front[i] == msgs[i];
      } else {
        assert |Upto(msgs, count)| < |msgs|;
      }
      hide Upto;
    }
  }

  /** One call: an exact cache stays exact exactly if the call is harmless. */
  lemma StaysExact(first: nat, ops: seq<Op>)
    requires ops != [] && Exact(first, ops[..|ops| - 1])
    ensures Exact(first, ops) <==> Harmless(first, ops[..|ops| - 1], ops[|ops| - 1])
  {
    var before := ops[..|ops| - 1];
    NextAndOrder(first, before);
    var (w, next) := Run(first, before);
    var msgs := Unposted(first, before).0;
    match ops[|ops| - 1]
    case Sequenced(price) => AddExact(w, next, price);
    case Uncached =>
    case Confirmed(count) =>
      TrimIsFromNext(w, count);
      FromSkips(msgs, count, next);
    case Reorged(count) => UptoKeeps(msgs, count, next);
  }

  lemma AddExact(w: Window, next: nat, price: Price)
    requires Rising(Listed(w), next)
    ensures var msgs := Listed(w);
            Listed(Add(w, next, price)) == msgs + [Indexed(next, price)] <==>
            msgs == [] || (msgs[0].index > 0 && msgs[|msgs| - 1].index + 1 == next)
  {
    var msgs := Listed(w);
    if msgs != [] {
      assert msgs[|msgs| - 1].index == Last(w);
    }
    if w.prices != [] && w.first != 0 && next == Last(w) + 1 {
      assert Listed(Add(w, next, price)) == msgs + [Indexed(next, price)];
    } else {
      assert |Listed(Add(w, next, price))| == 1;
      assert msgs == [] ==> Listed(Add(w, next, price)) == [Indexed(next, price)];
    }
  }

  /** Whole runs: the cache is the unposted messages all along exactly if every call is harmless. */
  lemma {:induction false} ExactAllAlong(first: nat, ops: seq<Op>)
    ensures (forall n :: 0 <= n <= |ops| ==> Exact(first, ops[..n])) <==>
            (forall n :: 0 <= n < |ops| ==> Harmless(first, ops[..n], ops[n]))
  {
    if ops != [] {
      var before := ops[..|ops| - 1];
      ExactAllAlong(first, before);
      assert forall n :: 0 <= n < |ops| ==> ops[..n] == before[..n];
      assert ops[..|ops|] == ops;
      if Exact(first, before) {
        StaysExact(first, ops);
      }
      ExactBefore(first, ops);
    } else {
      assert ops[..0] == [] && Listed(EMPTY) == [];
    }
  }

  lemma ExactBefore(first: nat, ops: seq<Op>)
    requires ops != []
    ensures var before := ops[..|ops| - 1];
            (forall n :: 0 <= n <= |ops| ==> Exact(first, ops[..n])) <==>
            (forall n :: 0 <= n <= |before| ==> Exact(first, before[..n])) && Exact(first, ops)
    ensures var before := ops[..|ops| - 1];
            (forall n :: 0 <= n < |ops| ==> Harmless(first, ops[..n], ops[n])) <==>
            (forall n :: 0 <= n < |before| ==> Harmless(first, before[..n], before[n])) &&
            Harmless(first, before, ops[|ops| - 1])
    ensures var before := ops[..|ops| - 1];
            (forall n :: 0 <= n <= |before| ==> Exact(first, before[..n])) ==> Exact(first, before)
  {
    var before := ops[..|ops| - 1];
    assert ops[..|ops|] == ops && before[..|before|] == before;
    forall n | 0 <= n <= |before| ensures ops[..n] == before[..n] {}
    hide Exact, Harmless;
  }

  // ----- Runs in which the cache is not exact -----

  lemma RunNext(first: nat, ops: seq<Op>, op: Op)
    ensures var (w, next) := Run(first, ops);
            Run(first, ops + [op]) ==
            match op
            case Sequenced(price) => (Add(w, next, price), next + 1)
            case Uncached => (w, next + 1)
            case Confirmed(count) => (Trim(w, count), Max(next, count))
            case Reorged(count) => (w, Min(next, count))
    ensures var (msgs, next) := Unposted(first, ops);
            Unposted(first, ops + [op]) ==
            match op
            case Sequenced(price) => (msgs + [Indexed(next, price)], next + 1)
            case Uncached => (msgs, next + 1)
            case Confirmed(count) => (From(msgs, count), Max(next, count))
            case Reorged(count) => (Upto(msgs, count), Min(next, count))
  {
    assert (ops + [op])[..|ops|] == ops;
  }

  lemma LastFiltered(msgs: seq<Indexed>, e: Indexed, count: nat)
    ensures From(msgs + [e], count) == From(msgs, count) + if e.index >= count then [e] else []
    ensures Upto(msgs + [e], count) == Upto(msgs, count) + if e.index < count then [e] else []
  {
    assert (msgs + [e])[..|msgs|] == msgs;
  }

  /** Two messages sequenced from an index on. */
  lemma TwoSequenced(first: nat, a: Price, b: Price)
    ensures var ops := [Sequenced(a), Sequenced(b)];
            && Run(first, ops) == (if first == 0 then Window(1, [b]) else Window(first, [a, b]), first + 2)
            && Unposted(first, ops) == ([Indexed(first, a), Indexed(first + 1, b)], first + 2)
  {
    var one: seq<Op> := [Sequenced(a)];
    RunNext(first, [], Sequenced(a));
    assert [] + [Sequenced(a)] == one;
    assert Run(first, one) == (Window(first, [a]), first + 1);
    assert Unposted(first, one).0 == [Indexed(first, a)];
    RunNext(first, one, Sequenced(b));
    assert [a] + [b] == [a, b];
    assert [Indexed(first, a)] + [Indexed(first + 1, b)] == [Indexed(first, a), Indexed(first + 1, b)];
    assert one + [Sequenced(b)] == [Sequenced(a), Sequenced(b)];
  }

  /** A message after message zero drops message zero. */
  lemma ZeroIsDropped(a: Price, b: Price)
    ensures var ops := [Sequenced(a), Sequenced(b)];
            Listed(Run(0, ops).0) == [Indexed(1, b)] && Unposted(0, ops).0 == [Indexed(0, a), Indexed(1, b)]
  {
    TwoSequenced(0, a, b);
    hide Run, Unposted;
  }

  /** A batch of the first message drops the second from the cache, although it is not posted. */
  lemma BoundaryIsDropped(first: nat, a: Price, b: Price, c: Price)
    requires first > 0
    ensures var ops := [Sequenced(a), Sequenced(b), Sequenced(c), Confirmed(first + 1)];
            && Listed(Run(first, ops).0) == [Indexed(first + 2, c)]
            && Unposted(first, ops).0 == [Indexed(first + 1, b), Indexed(first + 2, c)]
  {
    TwoSequenced(first, a, b);
    var two, three := [Sequenced(a), Sequenced(b)], [Sequenced(a), Sequenced(b), Sequenced(c)];
    RunNext(first, two, Sequenced(c));
    RunNext(first, three, Confirmed(first + 1));
    assert two + [Sequenced(c)] == three;
    assert three + [Confirmed(first + 1)] == [Sequenced(a), Sequenced(b), Sequenced(c), Confirmed(first + 1)];
    var x, y, z := Indexed(first, a), Indexed(first + 1, b), Indexed(first + 2, c);
    LastFiltered([], x, first + 1);
    LastFiltered([x], y, first + 1);
    LastFiltered([x, y], z, first + 1);
    assert From([], first + 1) == [] && [] + [x] == [x] && [x] + [y] == [x, y] && [x, y] + [z] == [x, y, z];
    hide Run, Unposted, From;
  }

  /** A delayed message in between makes the next sequenced message drop all before it. */
  lemma GapDropsAll(first: nat, a: Price, b: Price, c: Price)
    requires first > 0
    ensures var ops := [Sequenced(a), Sequenced(b), Uncached, Sequenced(c)];
            && Listed(Run(first, ops).0) == [Indexed(first + 3, c)]
            && Unposted(first, ops).0 == [Indexed(first, a), Indexed(first + 1, b), Indexed(first + 3, c)]
  {
    TwoSequenced(first, a, b);
    var two, three := [Sequenced(a), Sequenced(b)], [Sequenced(a), Sequenced(b), Uncached];
    RunNext(first, two, Uncached);
    RunNext(first, three, Sequenced(c));
    assert two + [Uncached] == three && three + [Sequenced(c)] == [Sequenced(a), Sequenced(b), Uncached, Sequenced(c)];
    hide Run, Unposted;
  }

  /** A message reorganized away stays in the cache. */
  lemma ReorgIsMissed(first: nat, a: Price, b: Price)
    requires first > 0
    ensures var ops := [Sequenced(a), Sequenced(b), Reorged(first + 1)];
            && Listed(Run(first, ops).0) == [Indexed(first, a), Indexed(first + 1, b)]
            && Unposted(first, ops).0 == [Indexed(first, a)]
  {
    TwoSequenced(first, a, b);
    var two := [Sequenced(a), Sequenced(b)];
    RunNext(first, two, Reorged(first + 1));
    assert two + [Reorged(first + 1)] == [Sequenced(a), Sequenced(b), Reorged(first + 1)];
    var x, y := Indexed(first, a), Indexed(first + 1, b);
    LastFiltered([], x, first + 1);
    LastFiltered([x], y, first + 1);
    assert Upto([], first + 1) == [] && [] + [x] == [x] && [x] + [y] == [x, y];
    hide Run, Unposted, Upto;
  }
}

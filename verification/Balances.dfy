/** Account balances and their total, and the big integers that fee accounting passes by reference. */
module Balances {
  import opened Types

  type Address = nat

  type Ledger = map<Address, nat>

  function Get(b: Ledger, a: Address): nat {
    if a in b then b[a] else 0
  }

  function Credit(b: Ledger, a: Address, amount: nat): Ledger {
    b[a := Get(b, a) + amount]
  }

  function Debit(b: Ledger, a: Address, amount: nat): Ledger
    requires amount <= Get(b, a)
  {
    b[a := Get(b, a) - amount]
  }

  /** A transfer the sender can afford; the accounts may coincide. */
  function Move(b: Ledger, from: Address, to: Address, amount: nat): (r: Ledger)
    requires amount <= Get(b, from)
    ensures from == to ==> Get(r, from) == Get(b, from)
    ensures from != to ==> Get(r, from) == Get(b, from) - amount && Get(r, to) == Get(b, to) + amount
    ensures forall a :: a != from && a != to ==> Get(r, a) == Get(b, a)
  {
    Credit(Debit(b, from, amount), to, amount)
  }

  ghost function Total(b: Ledger): nat {
    if b == map[] then 0
    else
      var a :| a in b;
      b[a] + Total(b - {a})
  }

  lemma {:induction false} TotalWithout(b: Ledger, a: Address)
    requires a in b
    ensures Total(b) == b[a] + Total(b - {a})
    decreases |b|
  {
    var c :| c in b && Total(b) == b[c] + Total(b - {c});
    if c != a {
      TotalWithout(b - {c}, a);
      TotalWithout(b - {a}, c);
      assert b - {c} - {a} == b - {a} - {c};
    }
  }

  lemma TotalUpdated(b: Ledger, a: Address, amount: nat)
    ensures Total(b[a := amount]) == Total(b) - Get(b, a) + amount
  {
    TotalWithout(b[a := amount], a);
    if a in b {
      TotalWithout(b, a);
      assert b[a := amount] - {a} == b - {a};
    } else {
      assert b[a := amount] - {a} == b;
    }
  }

  lemma TotalCredited(b: Ledger, a: Address, amount: nat)
    ensures Total(Credit(b, a, amount)) == Total(b) + amount
  {
    TotalUpdated(b, a, Get(b, a) + amount);
  }

  lemma TotalDebited(b: Ledger, a: Address, amount: nat)
    requires amount <= Get(b, a)
    ensures Total(Debit(b, a, amount)) == Total(b) - amount
  {
    TotalUpdated(b, a, Get(b, a) - amount);
  }

  /** Transfers neither make nor lose money. */
  lemma TotalMoved(b: Ledger, from: Address, to: Address, amount: nat)
    requires amount <= Get(b, from)
    ensures Total(Move(b, from, to, amount)) == Total(b)
  {
    TotalDebited(b, from, amount);
    TotalCredited(Debit(b, from, amount), to, amount);
  }

  datatype Payment = Payment(from: Address, to: Address, amount: nat)

  /** A payment the sender cannot afford leaves the balances alone. */
  function Pay(b: Ledger, p: Payment): Ledger {
    if p.amount <= Get(b, p.from) then Move(b, p.from, p.to, p.amount) else b
  }

  /** The balances after some payments, made in order. */
  function Paid(b: Ledger, ps: seq<Payment>): Ledger {
    if ps == [] then b else Pay(Paid(b, ps[..|ps| - 1]), ps[|ps| - 1])
  }

  /** Every payment goes through. */
  predicate Affordable(b: Ledger, ps: seq<Payment>) {
    ps == [] ||
    (Affordable(b, ps[..|ps| - 1]) && ps[|ps| - 1].amount <= Get(Paid(b, ps[..|ps| - 1]), ps[|ps| - 1].from))
  }

  lemma PaidNext(b: Ledger, ps: seq<Payment>, p: Payment)
    ensures Paid(b, ps + [p]) == Pay(Paid(b, ps), p)
    ensures Affordable(b, ps + [p]) == (Affordable(b, ps) && p.amount <= Get(Paid(b, ps), p.from))
  {
    assert (ps + [p])[..|ps|] == ps;
  }

  lemma {:induction false} PaidTogether(b: Ledger, ps: seq<Payment>, qs: seq<Payment>)
    ensures Paid(b, ps + qs) == Paid(Paid(b, ps), qs)
  {
    if qs == [] {
      assert ps + qs == ps;
    } else {
      assert (ps + qs)[..|ps + qs| - 1] == ps + qs[..|qs| - 1];
      PaidTogether(b, ps, qs[..|qs| - 1]);
    }
  }

  /** No sequence of payments makes or loses money. */
  lemma {:induction false} TotalPaid(b: Ledger, ps: seq<Payment>)
    ensures Total(Paid(b, ps)) == Total(b)
  {
    if ps != [] {
      TotalPaid(b, ps[..|ps| - 1]);
      var before, p := Paid(b, ps[..|ps| - 1]), ps[|ps| - 1];
      if p.amount <= Get(before, p.from) {
        TotalMoved(before, p.from, p.to, p.amount);
      }
    }
  }

  class Evm {
    var balances: Ledger

    constructor (balances: Ledger)
      ensures this.balances == balances
    {
      this.balances := balances;
    }

    method Transfer(from: Address, to: Address, amount: nat) returns (ok: bool)
      modifies this
      ensures ok == (amount <= Get(old(balances), from))
      ensures balances == if ok then Move(old(balances), from, to, amount) else old(balances)
      ensures Total(balances) == Total(old(balances))
    {
      if Get(balances, from) < amount {
        return false;
      }
      TotalMoved(balances, from, to, amount);
      balances := Debit(balances, from, amount);
      balances := Credit(balances, to, amount);
      return true;
    }

    method Mint(to: Address, amount: nat)
      modifies this
      ensures balances == Credit(old(balances), to, amount)
      ensures Total(balances) == Total(old(balances)) + amount
    {
      TotalCredited(balances, to, amount);
      balances := Credit(balances, to, amount);
    }

    method Burn(from: Address, amount: nat) returns (ok: bool)
      modifies this
      ensures ok == (amount <= Get(old(balances), from))
      ensures balances == if ok then Debit(old(balances), from, amount) else old(balances)
      ensures Total(balances) == Total(old(balances)) - if ok then amount else 0
    {
      if Get(balances, from) < amount {
        return false;
      }
      TotalDebited(balances, from, amount);
      balances := Debit(balances, from, amount);
      return true;
    }
  }

  /** A mutable big integer; several variables may refer to one. */
  class BigInt {
    var value: nat

    constructor (value: nat)
      ensures this.value == value
    {
      this.value := value;
    }
  }

  /** Takes up to an amount from a pool, and returns what was taken. The amount may be the pool. */
  method TakeFunds(pool: BigInt, take: BigInt) returns (taken: nat)
    modifies pool
    ensures taken == Min(old(pool.value), old(take.value))
    ensures pool.value == old(pool.value) - taken
  {
    if pool.value < take.value {
      taken := pool.value;
      pool.value := 0;
      return;
    }
    taken := take.value;
    pool.value := pool.value - take.value;
  }
}

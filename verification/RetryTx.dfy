/**
 * Redeeming a retryable ticket: the call value leaves escrow, the prepaid gas is minted, and after execution the
 * unused gas and the submission fee are refunded, to the refund address only as far as the deposit goes.
 */
module RetryTx {
  import opened Types
  import opened Balances
  import opened Retryables

  /** The beneficiary is there while the ticket exists. */
  datatype Retry = Retry(
    from: Address,
    refundTo: Address,
    escrow: Address,
    beneficiary: Option<Address>,
    value: nat,
    gas: nat,
    gasFeeCap: nat,
    maxRefund: nat,
    submissionFee: nat,
    commit: bool)

  /** The balances when execution starts, if the escrow holds the call value. */
  function Start(chain: Chain, tx: Retry, b: Ledger): Option<Ledger> {
    if Get(b, tx.escrow) < tx.value then None
    else Some(Credit(Move(b, tx.escrow, tx.from, tx.value), tx.from, chain.baseFee * tx.gas))
  }

  /** In commit mode the price is the base fee, whatever the redeem was made with. */
  function Price(chain: Chain, tx: Retry): nat {
    if tx.commit then chain.baseFee else tx.gasFeeCap
  }

  function GasRefund(chain: Chain, tx: Retry, gasLeft: nat): nat {
    Price(chain, tx) * gasLeft
  }

  function GasUsedCost(chain: Chain, tx: Retry, gasLeft: nat): nat
    requires gasLeft <= tx.gas
  {
    Price(chain, tx) * (tx.gas - gasLeft)
  }

  function InfraPart(chain: Chain, tx: Retry, gasLeft: nat): nat {
    Min(chain.minBaseFee, Price(chain, tx)) * gasLeft
  }

  function InfraRefund(chain: Chain, tx: Retry, gasLeft: nat): (r: nat)
    ensures r <= GasRefund(chain, tx, gasLeft)
  {
    if HasInfra(chain) then Min(GasRefund(chain, tx, gasLeft), InfraPart(chain, tx, gasLeft)) else 0
  }

  function NetworkRefund(chain: Chain, tx: Retry, gasLeft: nat): nat {
    GasRefund(chain, tx, gasLeft) - InfraRefund(chain, tx, gasLeft)
  }

  /** What the deposit still covers once the submission fee and the gas used are set aside. */
  function PoolAfterCharges(chain: Chain, tx: Retry, gasLeft: nat): nat
    requires gasLeft <= tx.gas
  {
    var pool := tx.maxRefund - Min(tx.maxRefund, tx.submissionFee);
    pool - Min(pool, GasUsedCost(chain, tx, gasLeft))
  }

  /** A refund goes to the refund address as far as the pool allows, and the rest of it to the sender. */
  function Refund(tx: Retry, payer: Address, pool: nat, amount: nat): seq<Payment> {
    [Payment(payer, tx.refundTo, Min(pool, amount)), Payment(payer, tx.from, amount - Min(pool, amount))]
  }

  function FeeBack(chain: Chain, tx: Retry, success: bool): seq<Payment> {
    if success then Refund(tx, chain.network, tx.maxRefund, tx.submissionFee) else []
  }

  function InfraBack(chain: Chain, tx: Retry, gasLeft: nat): seq<Payment>
    requires gasLeft <= tx.gas
  {
    if HasInfra(chain)
    then Refund(tx, chain.infra, PoolAfterCharges(chain, tx, gasLeft), InfraRefund(chain, tx, gasLeft))
    else []
  }

  function PoolForNetwork(chain: Chain, tx: Retry, gasLeft: nat): nat
    requires gasLeft <= tx.gas
  {
    var pool := PoolAfterCharges(chain, tx, gasLeft);
    pool - Min(pool, InfraRefund(chain, tx, gasLeft))
  }

  function NetworkBack(chain: Chain, tx: Retry, gasLeft: nat): seq<Payment>
    requires gasLeft <= tx.gas
  {
    Refund(tx, chain.network, PoolForNetwork(chain, tx, gasLeft), NetworkRefund(chain, tx, gasLeft))
  }

  function Refunds(chain: Chain, tx: Retry, gasLeft: nat, success: bool): seq<Payment>
    requires gasLeft <= tx.gas
  {
    FeeBack(chain, tx, success) + InfraBack(chain, tx, gasLeft) +
    NetworkBack(chain, tx, gasLeft)
  }

  function Burn(b: Ledger, a: Address, amount: nat): Ledger {
    if amount <= Get(b, a) then Debit(b, a, amount) else b
  }

  /** What deleting a redeemed ticket does to the balances: what is left in escrow goes to the beneficiary. */
  function Deleted(tx: Retry, b: Ledger): Ledger {
    if tx.beneficiary.Some? then Move(b, tx.escrow, tx.beneficiary.value, Get(b, tx.escrow)) else b
  }

  /** The balances after a redeem, or nothing if the call value cannot go back to escrow, which stops the node. */
  function End(chain: Chain, tx: Retry, b: Ledger, gasLeft: nat, success: bool): Option<Ledger>
    requires gasLeft <= tx.gas
  {
    var refunded := Paid(Burn(b, tx.from, GasRefund(chain, tx, gasLeft)), Refunds(chain, tx, gasLeft, success));
    if success then Some(Deleted(tx, refunded))
    else if Get(refunded, tx.from) < tx.value then None
    else Some(Move(refunded, tx.from, tx.escrow, tx.value))
  }

  // ----- Refunds -----

  lemma ReceivedRefund(tx: Retry, payer: Address, pool: nat, amount: nat, a: Address)
    ensures Received(Refund(tx, payer, pool, amount), a) ==
            At(a, tx.refundTo, Min(pool, amount)) + At(a, tx.from, amount - Min(pool, amount))
  {
    ReceivedTwo(Payment(payer, tx.refundTo, Min(pool, amount)), Payment(payer, tx.from, amount - Min(pool, amount)), a);
  }

  lemma ReceivedRefunds(chain: Chain, tx: Retry, gasLeft: nat, success: bool, a: Address)
    requires gasLeft <= tx.gas
    ensures Received(Refunds(chain, tx, gasLeft, success), a) ==
            Received(FeeBack(chain, tx, success), a) + Received(InfraBack(chain, tx, gasLeft), a) +
            Received(NetworkBack(chain, tx, gasLeft), a)
  {
    ReceivedTogether(FeeBack(chain, tx, success), InfraBack(chain, tx, gasLeft), a);
    ReceivedTogether(FeeBack(chain, tx, success) + InfraBack(chain, tx, gasLeft),
                     NetworkBack(chain, tx, gasLeft), a);
    hide *;
  }

  /** What a redeem pays to the refund address, whoever that is. */
  function Refunded(chain: Chain, tx: Retry, gasLeft: nat, success: bool): nat
    requires gasLeft <= tx.gas
  {
    (if success then Min(tx.maxRefund, tx.submissionFee) else 0) +
    Min(PoolAfterCharges(chain, tx, gasLeft), InfraRefund(chain, tx, gasLeft)) +
    Min(PoolForNetwork(chain, tx, gasLeft), NetworkRefund(chain, tx, gasLeft))
  }

  /**
   * The refund address is given no more than the redeem may refund, and between it and the sender, who may be the same,
   * exactly the unused gas is given back, and after a success the submission fee.
   */
  lemma RefundsWithinDeposit(chain: Chain, tx: Retry, gasLeft: nat, success: bool)
    requires gasLeft <= tx.gas
    ensures Refunded(chain, tx, gasLeft, success) <= tx.maxRefund
    ensures var refunds := Refunds(chain, tx, gasLeft, success);
            var all := GasRefund(chain, tx, gasLeft) + if success then tx.submissionFee else 0;
            if tx.refundTo == tx.from then Received(refunds, tx.from) == all
            else && Received(refunds, tx.refundTo) == Refunded(chain, tx, gasLeft, success)
                 && Received(refunds, tx.refundTo) + Received(refunds, tx.from) == all
  {
    RefundsReceivedBy(chain, tx, gasLeft, success, tx.refundTo);
    RefundsReceivedBy(chain, tx, gasLeft, success, tx.from);
    ChargesAreSetAside(chain, tx, gasLeft);
    hide Received, Refunds, GasRefund, InfraRefund, PoolAfterCharges;
  }

  lemma ChargesAreSetAside(chain: Chain, tx: Retry, gasLeft: nat)
    requires gasLeft <= tx.gas
    ensures PoolAfterCharges(chain, tx, gasLeft) <= tx.maxRefund - Min(tx.maxRefund, tx.submissionFee)
  {
  }

  lemma RefundsReceivedBy(chain: Chain, tx: Retry, gasLeft: nat, success: bool, a: Address)
    requires gasLeft <= tx.gas
    ensures var pool, infra := PoolAfterCharges(chain, tx, gasLeft), InfraRefund(chain, tx, gasLeft);
            var rest, network := PoolForNetwork(chain, tx, gasLeft), NetworkRefund(chain, tx, gasLeft);
            Received(Refunds(chain, tx, gasLeft, success), a) ==
            (if success then At(a, tx.refundTo, Min(tx.maxRefund, tx.submissionFee)) +
                             At(a, tx.from, tx.submissionFee - Min(tx.maxRefund, tx.submissionFee)) else 0) +
            At(a, tx.refundTo, Min(pool, infra)) + At(a, tx.from, infra - Min(pool, infra)) +
            At(a, tx.refundTo, Min(rest, network)) + At(a, tx.from, network - Min(rest, network))
  {
    var pool, infra := PoolAfterCharges(chain, tx, gasLeft), InfraRefund(chain, tx, gasLeft);
    ReceivedRefunds(chain, tx, gasLeft, success, a);
    ReceivedRefund(tx, chain.network, tx.maxRefund, tx.submissionFee, a);
    ReceivedRefund(tx, chain.infra, pool, infra, a);
    ReceivedRefund(tx, chain.network, PoolForNetwork(chain, tx, gasLeft), NetworkRefund(chain, tx, gasLeft), a);
    assert !HasInfra(chain) ==> infra == 0;
    hide Refund, GasRefund, InfraRefund, PoolAfterCharges, PoolForNetwork, NetworkRefund;
  }

  /**
   * From the submission to the end of the first redeem, the payments to the refund address never exceed what is
   * left of the deposit after the call value, on any input and whichever accounts coincide.
   */
  lemma TicketRefundsComeFromDeposit(chain: Chain, tx: Submission, b: Ledger,
                                     later: Chain, retry: Retry, gasLeft: nat, success: bool)
    requires Submit(chain, tx, b).0.Redeem?
    requires retry.maxRefund == Submit(chain, tx, b).0.maxRefund && gasLeft <= retry.gas
    ensures FeeRefund(tx) + PriceRefund(chain, tx) + Refunded(later, retry, gasLeft, success) <= Refundable(tx)
    ensures retry.refundTo != retry.from ==>
              Received(Refunds(later, retry, gasLeft, success), retry.refundTo) ==
                  Refunded(later, retry, gasLeft, success)
  {
    ChargesAreSetAside(later, retry, gasLeft);
    RefundsReceivedBy(later, retry, gasLeft, success, retry.refundTo);
    RefundsAddUp(chain, tx);
    hide Paid, Received, Refunds, PoolAfterCharges, InfraRefund, GasRefund;
    hide SubmissionFee, PriceRefund, FeeRefund, Refundable, TicketRefund, WithheldFee;
  }

  lemma PaidByRefund(tx: Retry, payer: Address, pool: nat, amount: nat, a: Address)
    ensures PaidBy(Refund(tx, payer, pool, amount), a) == At(a, payer, amount)
  {
    var first, second :=
      Payment(payer, tx.refundTo, Min(pool, amount)), Payment(payer, tx.from, amount - Min(pool, amount));
    PaidByTogether([first], [second], a);
    assert [first] + [second] == Refund(tx, payer, pool, amount);
  }

  /** The network account pays back the submission fee and its part of the unused gas, the infrastructure account its
      own. */
  lemma WhoRefunds(chain: Chain, tx: Retry, gasLeft: nat, success: bool, a: Address)
    requires gasLeft <= tx.gas
    ensures PaidBy(Refunds(chain, tx, gasLeft, success), a) ==
            At(a, chain.network, if success then tx.submissionFee else 0) +
            At(a, chain.infra, InfraRefund(chain, tx, gasLeft)) +
                At(a, chain.network, NetworkRefund(chain, tx, gasLeft))
  {
    var fee, infra := FeeBack(chain, tx, success), InfraBack(chain, tx, gasLeft);
    PaidByTogether(fee, infra, a);
    PaidByTogether(fee + infra, NetworkBack(chain, tx, gasLeft), a);
    PaidByRefund(tx, chain.network, tx.maxRefund, tx.submissionFee, a);
    PaidByRefund(tx, chain.infra, PoolAfterCharges(chain, tx, gasLeft), InfraRefund(chain, tx, gasLeft), a);
    PaidByRefund(tx, chain.network, PoolForNetwork(chain, tx, gasLeft), NetworkRefund(chain, tx, gasLeft), a);
    hide Refund, GasRefund, PoolAfterCharges, PoolForNetwork, NetworkRefund;
  }

  /** From submission to redeem each fee account keeps exactly its price for the gas used. */
  lemma FeeAccountsKeepGasUsed(chain: Chain, tx: Submission, retry: Retry, gasLeft: nat)
    requires tx.commit && retry.commit && retry.gas == tx.gas && gasLeft <= tx.gas
    ensures var infraPrice := if HasInfra(chain) then Min(chain.minBaseFee, chain.baseFee) else 0;
            var gasUsed := tx.gas - gasLeft;
            && InfraCost(chain, tx) - InfraRefund(chain, retry, gasLeft) == infraPrice * gasUsed
            && NetworkCost(chain, tx) - NetworkRefund(chain, retry, gasLeft) == (chain.baseFee - infraPrice) * gasUsed
  {
    var infraPrice := if HasInfra(chain) then Min(chain.minBaseFee, chain.baseFee) else 0;
    ShareOfGas(infraPrice, chain.baseFee, tx.gas);
    ShareOfGas(infraPrice, chain.baseFee, gasLeft);
    Split(infraPrice, tx.gas, gasLeft);
    Split(chain.baseFee - infraPrice, tx.gas, gasLeft);
    assert InfraCost(chain, tx) == infraPrice * tx.gas;
    assert InfraRefund(chain, retry, gasLeft) == infraPrice * gasLeft;
    hide InfraCost, InfraRefund;
  }

  lemma ShareOfGas(part: nat, price: nat, gas: nat)
    requires part <= price
    ensures part * gas <= price * gas
    ensures (price - part) * gas == price * gas - part * gas
  {
  }

  lemma Split(price: nat, gas: nat, left: nat)
    requires left <= gas
    ensures price * gas - price * left == price * (gas - left)
  {
  }

  // ----- Whole redeems -----

  /** What the EVM's own accounting leaves between the start and the end of a redeem in commit mode. */
  ghost predicate Executed(chain: Chain, tx: Retry, started: Ledger, executed: Ledger, gasLeft: nat, success: bool) {
    && gasLeft <= tx.gas
    && chain.baseFee * tx.gas <= Get(started, tx.from)
    && var bought := Debit(started, tx.from, chain.baseFee * tx.gas);
      && (success ==> Total(executed) == Total(bought))
      && (!success ==> executed == bought)
  }

  lemma ExecutionConserves(chain: Chain, tx: Retry, b: Ledger, executed: Ledger, gasLeft: nat, success: bool)
    requires Start(chain, tx, b).Some?
    requires Executed(chain, tx, Start(chain, tx, b).value, executed, gasLeft, success)
    ensures Total(executed) == Total(b)
  {
    PrepaidTotal(b, tx.escrow, tx.from, tx.value, chain.baseFee * tx.gas);
    hide Total, Move;
  }

  lemma PrepaidTotal(b: Ledger, escrow: Address, from: Address, value: nat, prepaid: nat)
    requires value <= Get(b, escrow)
    ensures Total(Debit(Credit(Move(b, escrow, from, value), from, prepaid), from, prepaid)) == Total(b)
  {
    var moved := Move(b, escrow, from, value);
    TotalMoved(b, escrow, from, value);
    TotalCredited(moved, from, prepaid);
    TotalDebited(Credit(moved, from, prepaid), from, prepaid);
    hide Total, Move;
  }

  lemma EndBurns(chain: Chain, tx: Retry, b: Ledger, gasLeft: nat, success: bool)
    requires gasLeft <= tx.gas && GasRefund(chain, tx, gasLeft) <= Get(b, tx.from)
    requires End(chain, tx, b, gasLeft, success).Some?
    ensures Total(End(chain, tx, b, gasLeft, success).value) == Total(b) - GasRefund(chain, tx, gasLeft)
  {
    var back := GasRefund(chain, tx, gasLeft);
    var burnt := Burn(b, tx.from, back);
    TotalDebited(b, tx.from, back);
    var refunded := Paid(burnt, Refunds(chain, tx, gasLeft, success));
    TotalPaid(burnt, Refunds(chain, tx, gasLeft, success));
    hide Total, Paid, Refunds, Move, GasRefund, Get;
    if success {
      if tx.beneficiary.Some? {
        TotalMoved(refunded, tx.escrow, tx.beneficiary.value, Get(refunded, tx.escrow));
      }
    } else {
      TotalMoved(refunded, tx.from, tx.escrow, tx.value);
    }
  }

  /** A redeem neither makes nor loses money, whatever it executes. */
  lemma RedeemConserves(chain: Chain, tx: Retry, b: Ledger, executed: Ledger, gasLeft: nat, success: bool)
    requires tx.commit
    requires Start(chain, tx, b).Some?
    requires Executed(chain, tx, Start(chain, tx, b).value, executed, gasLeft, success)
    ensures var credited := Credit(executed, tx.from, chain.baseFee * gasLeft);
            var ended := End(chain, tx, credited, gasLeft, success);
            ended.Some? ==> Total(ended.value) == Total(b)
  {
    ExecutionConserves(chain, tx, b, executed, gasLeft, success);
    var back := chain.baseFee * gasLeft;
    assert GasRefund(chain, tx, gasLeft) == back;
    TotalCredited(executed, tx.from, back);
    var credited := Credit(executed, tx.from, back);
    if End(chain, tx, credited, gasLeft, success).Some? {
      EndBurns(chain, tx, credited, gasLeft, success);
    }
    hide Total, End;
  }

  // ----- What everyone gains -----

  lemma {:induction false} WhoHoldsEnough(b: Ledger, ps: seq<Payment>)
    requires forall a :: PaidBy(ps, a) <= Get(b, a)
    ensures Affordable(b, ps)
  {
    if ps != [] {
      var front, last := ps[..|ps| - 1], ps[|ps| - 1];
      assert forall a :: PaidBy(front, a) <= PaidBy(ps, a);
      WhoHoldsEnough(b, front);
      BooksBalance(b, front, last.from);
      assert PaidBy(ps, last.from) == PaidBy(front, last.from) + last.amount;
    }
  }

  /** Each fee account holds what it is to pay back: the network account the submission fee after a success, and both
      their price for the gas left. */
  predicate CanRefund(chain: Chain, tx: Retry, b: Ledger, gasLeft: nat, success: bool) {
    var infraPrice := InfraPriceOf(chain, tx);
    var network := (if success then tx.submissionFee else 0) + Cost(PriceOf(chain, tx) - infraPrice, gasLeft);
    var infra := Cost(infraPrice, gasLeft);
    if chain.network == chain.infra then network + infra <= Get(b, chain.network)
    else network <= Get(b, chain.network) && infra <= Get(b, chain.infra)
  }

  function PriceOf(chain: Chain, tx: Retry): nat {
    if tx.commit then chain.baseFee else tx.gasFeeCap
  }

  function InfraPriceOf(chain: Chain, tx: Retry): (price: nat)
    ensures price <= PriceOf(chain, tx)
  {
    if chain.version >= 11 && chain.infra != 0 then Min(chain.minBaseFee, PriceOf(chain, tx)) else 0
  }

  lemma RefundShares(chain: Chain, tx: Retry, gasLeft: nat)
    requires gasLeft <= tx.gas
    ensures InfraRefund(chain, tx, gasLeft) == Cost(InfraPriceOf(chain, tx), gasLeft)
    ensures NetworkRefund(chain, tx, gasLeft) == Cost(PriceOf(chain, tx) - InfraPriceOf(chain, tx), gasLeft)
    ensures GasRefund(chain, tx, gasLeft) == Cost(PriceOf(chain, tx), gasLeft)
  {
    ShareOfGas(InfraPriceOf(chain, tx), PriceOf(chain, tx), gasLeft);
  }

  /** How much goes to the refund address: the submission fee after a success, and then the gas left, as far as the
      deposit still covers them after the fee and the gas used. */
  function ToRefundAddress(chain: Chain, tx: Retry, gasLeft: nat, success: bool): nat
    requires gasLeft <= tx.gas
  {
    var price := PriceOf(chain, tx);
    (if success then Min(tx.maxRefund, tx.submissionFee) else 0) +
    Min(Max(tx.maxRefund - tx.submissionFee - Cost(price, tx.gas - gasLeft), 0), Cost(price, gasLeft))
  }

  /** How much is given back in all. */
  function GivenBack(chain: Chain, tx: Retry, gasLeft: nat, success: bool): nat {
    (if success then tx.submissionFee else 0) + Cost(PriceOf(chain, tx), gasLeft)
  }

  lemma RefundedIsAsMeant(chain: Chain, tx: Retry, gasLeft: nat, success: bool, a: Address)
    requires gasLeft <= tx.gas
    ensures var mine := ToRefundAddress(chain, tx, gasLeft, success);
            && mine <= GivenBack(chain, tx, gasLeft, success)
            && Received(Refunds(chain, tx, gasLeft, success), a) ==
               At(a, tx.refundTo, mine) + At(a, tx.from, GivenBack(chain, tx, gasLeft, success) - mine)
  {
    RefundShares(chain, tx, gasLeft);
    RefundsReceivedBy(chain, tx, gasLeft, success, a);
    assert GasUsedCost(chain, tx, gasLeft) == Cost(PriceOf(chain, tx), tx.gas - gasLeft);
    assert GasRefund(chain, tx, gasLeft) == InfraRefund(chain, tx, gasLeft) + NetworkRefund(chain, tx, gasLeft);
    hide Received, Refunds, GasRefund, InfraRefund, NetworkRefund, GasUsedCost, Cost, PriceOf, InfraPriceOf;
  }

  /**
   * What every account has after a redeem whose refunds can be paid: the refund address and the sender share what is
   * given back, the fee accounts have paid it, the sender no longer has the refund it got for the gas left, and no one
   * else is touched.
   */
  lemma RefundBooks(chain: Chain, tx: Retry, b: Ledger, gasLeft: nat, success: bool, a: Address)
    requires gasLeft <= tx.gas && Cost(PriceOf(chain, tx), gasLeft) <= Get(b, tx.from)
    requires CanRefund(chain, tx, Burn(b, tx.from, Cost(PriceOf(chain, tx), gasLeft)), gasLeft, success)
    ensures var refunded := Paid(Burn(b, tx.from, GasRefund(chain, tx, gasLeft)),
                                 Refunds(chain, tx, gasLeft, success));
            var mine, infraPrice := ToRefundAddress(chain, tx, gasLeft, success), InfraPriceOf(chain, tx);
            && mine <= GivenBack(chain, tx, gasLeft, success)
            && Get(refunded, a) + At(a, tx.from, Cost(PriceOf(chain, tx), gasLeft)) +
               At(a, chain.network, if success then tx.submissionFee else 0) +
               At(a, chain.network, Cost(PriceOf(chain, tx) - infraPrice, gasLeft)) +
               At(a, chain.infra, Cost(infraPrice, gasLeft)) ==
               Get(b, a) + At(a, tx.refundTo, mine) + At(a, tx.from, GivenBack(chain, tx, gasLeft, success) - mine)
  {
    RefundShares(chain, tx, gasLeft);
    var burnt := Burn(b, tx.from, GasRefund(chain, tx, gasLeft));
    var refunds := Refunds(chain, tx, gasLeft, success);
    hide Paid, PaidBy, Received, Refunds, GasRefund, InfraRefund, NetworkRefund, Cost, PriceOf, InfraPriceOf;
    hide ToRefundAddress, GivenBack, Affordable;
    forall z ensures PaidBy(refunds, z) <= Get(burnt, z) {
      WhoRefunds(chain, tx, gasLeft, success, z);
    }
    WhoHoldsEnough(burnt, refunds);
    WhoRefunds(chain, tx, gasLeft, success, a);
    BooksBalance(burnt, refunds, a);
    RefundedIsAsMeant(chain, tx, gasLeft, success, a);
    assert Get(burnt, a) + At(a, tx.from, Cost(PriceOf(chain, tx), gasLeft)) == Get(b, a);
  }

  /**
   * A successful redeem moves exactly those refunds and, while the ticket is there, what is left in escrow to its
   * beneficiary.
   */
  lemma SuccessfulRedeem(chain: Chain, tx: Retry, b: Ledger, gasLeft: nat)
    requires gasLeft <= tx.gas
    ensures var refunded := Paid(Burn(b, tx.from, GasRefund(chain, tx, gasLeft)), Refunds(chain, tx, gasLeft, true));
            var ended := End(chain, tx, b, gasLeft, true);
            && ended.Some?
            && forall a :: Get(ended.value, a) ==
                 match tx.beneficiary
                 case None => Get(refunded, a)
                 case Some(to) =>
                   if a == to then Get(refunded, a) + Outlay(tx.escrow, to, Get(refunded, tx.escrow))
                   else if a == tx.escrow then 0
                   else Get(refunded, a)
  {
    hide Paid, Refunds, GasRefund, Burn;
  }

  // ----- Failed redeems -----

  predicate Untouched(ps: seq<Payment>, a: Address) {
    forall i :: 0 <= i < |ps| ==> ps[i].from != a && ps[i].to != a
  }

  lemma {:induction false} UntouchedKeeps(b: Ledger, ps: seq<Payment>, a: Address)
    requires Untouched(ps, a)
    ensures Get(Paid(b, ps), a) == Get(b, a)
  {
    if ps != [] {
      UntouchedKeeps(b, ps[..|ps| - 1], a);
    }
  }

  lemma {:induction false} OutsideOnlyGains(b: Ledger, ps: seq<Payment>, a: Address)
    requires Outside(ps, a)
    ensures Get(b, a) <= Get(Paid(b, ps), a) <= Get(b, a) + Received(ps, a)
  {
    if ps != [] {
      OutsideOnlyGains(b, ps[..|ps| - 1], a);
    }
  }

  predicate PaysFees(chain: Chain, a: Address) {
    a == chain.network || (HasInfra(chain) && a == chain.infra)
  }

  lemma FeeAccountsRefund(chain: Chain, tx: Retry, gasLeft: nat, success: bool, a: Address)
    requires gasLeft <= tx.gas && !PaysFees(chain, a)
    ensures Outside(Refunds(chain, tx, gasLeft, success), a)
    ensures a != tx.refundTo && a != tx.from ==> Untouched(Refunds(chain, tx, gasLeft, success), a)
  {
    hide GasRefund, InfraRefund, PoolAfterCharges, PoolForNetwork, NetworkRefund;
  }

  /** The sender of a failed redeem holds what it held before, and the call value on top. */
  lemma FailedSender(chain: Chain, tx: Retry, b: Ledger, executed: Ledger, gasLeft: nat)
    requires tx.commit
    requires Start(chain, tx, b).Some?
    requires Executed(chain, tx, Start(chain, tx, b).value, executed, gasLeft, false)
    ensures var credited := Credit(executed, tx.from, chain.baseFee * gasLeft);
            var burnt := Burn(credited, tx.from, GasRefund(chain, tx, gasLeft));
            forall a :: Get(burnt, a) == Get(Move(b, tx.escrow, tx.from, tx.value), a)
  {
    hide Move;
  }

  /**
   * A failed redeem by anyone but a fee account always puts the call value back, and then everyone but the
   * sender, the refund address and the fee accounts has what they had before it.
   */
  lemma FailedRedeemIsUndone(chain: Chain, tx: Retry, b: Ledger, executed: Ledger, gasLeft: nat)
    requires tx.commit && !PaysFees(chain, tx.from)
    requires Start(chain, tx, b).Some?
    requires Executed(chain, tx, Start(chain, tx, b).value, executed, gasLeft, false)
    ensures var credited := Credit(executed, tx.from, chain.baseFee * gasLeft);
            var ended := End(chain, tx, credited, gasLeft, false);
            && ended.Some?
            && (tx.from != tx.refundTo ==> Get(b, tx.from) <= Get(ended.value, tx.from))
            && forall a :: a != tx.from && a != tx.refundTo && !PaysFees(chain, a) ==> Get(ended.value, a) == Get(b, a)
  {
    FailedSender(chain, tx, b, executed, gasLeft);
    var credited := Credit(executed, tx.from, chain.baseFee * gasLeft);
    var burnt := Burn(credited, tx.from, GasRefund(chain, tx, gasLeft));
    var refunds := Refunds(chain, tx, gasLeft, false);
    FeeAccountsRefund(chain, tx, gasLeft, false, tx.from);
    OutsideOnlyGains(burnt, refunds, tx.from);
    forall a | a != tx.from && a != tx.refundTo && !PaysFees(chain, a)
      ensures Get(Paid(burnt, refunds), a) == Get(burnt, a)
    {
      FeeAccountsRefund(chain, tx, gasLeft, false, a);
      UntouchedKeeps(burnt, refunds, a);
    }
    hide Paid, Refunds, Credit, Burn, PaysFees;
  }

  // ----- When the call value goes back -----

  function Leaves(held: nat, amount: nat): nat {
    if amount <= held then held - amount else held
  }

  /**
   * What the sender holds after a refund in two payments, the first to the refund address and the second to the sender.
   * A fee account pays what it can; the sender may be that account, and the refund address may be either.
   */
  function HeldAfter(sender: nat, payer: nat, senderPays: bool, toSender: bool, toPayer: bool, x: nat, y: nat): nat {
    if senderPays then
      if toSender then sender else Leaves(sender, x)
    else
      var rest := if toPayer then payer else Leaves(payer, x);
      sender + (if toSender && x <= payer then x else 0) + if y <= rest then y else 0
  }

  lemma PairPaid(b: Ledger, payer: Address, to: Address, sender: Address, x: nat, y: nat)
    ensures var paid := Paid(b, [Payment(payer, to, x), Payment(payer, sender, y)]);
            && Get(paid, sender) ==
               HeldAfter(Get(b, sender), Get(b, payer), payer == sender, to == sender, to == payer, x, y)
            && forall a :: a != sender && a != payer ==>
                 Get(paid, a) == Get(b, a) + if to == a && x <= Get(b, payer) then x else 0
  {
    var first, second := Payment(payer, to, x), Payment(payer, sender, y);
    PaidNext(b, [], first);
    PaidNext(b, [first], second);
    assert [] + [first] == [first] && [first] + [second] == [first, second] && Paid(b, []) == b;
    hide Paid, Move;
  }

  /** What the infrastructure account pays to the refund address, and what the network account does. */
  function InfraOwn(chain: Chain, tx: Retry, gasLeft: nat): nat
    requires gasLeft <= tx.gas
  {
    Min(PoolAfterCharges(chain, tx, gasLeft), InfraRefund(chain, tx, gasLeft))
  }

  function NetworkOwn(chain: Chain, tx: Retry, gasLeft: nat): nat
    requires gasLeft <= tx.gas
  {
    Min(PoolForNetwork(chain, tx, gasLeft), NetworkRefund(chain, tx, gasLeft))
  }

  /** What a fee account that sent a failed redeem holds once the refunds are paid, out of what everyone held before. */
  function Kept(chain: Chain, tx: Retry, b: Ledger, gasLeft: nat): nat
    requires gasLeft <= tx.gas && PaysFees(chain, tx.from)
  {
    var infraOwn, networkOwn := InfraOwn(chain, tx, gasLeft), NetworkOwn(chain, tx, gasLeft);
    var held := Get(b, tx.from);
    var infraPaid := if HasInfra(chain)
                     then HeldAfter(held, Get(b, chain.infra), chain.infra == tx.from, tx.refundTo == tx.from,
                                    tx.refundTo == chain.infra, infraOwn, InfraRefund(chain, tx, gasLeft) - infraOwn)
                     else held;
    var network := Get(b, chain.network) + if HasInfra(chain) && tx.refundTo == chain.network &&
                                              infraOwn <= Get(b, chain.infra) then infraOwn else 0;
    HeldAfter(infraPaid, network, chain.network == tx.from, tx.refundTo == tx.from, tx.refundTo == chain.network,
              networkOwn, NetworkRefund(chain, tx, gasLeft) - networkOwn)
  }

  lemma InfraPaid(chain: Chain, tx: Retry, b: Ledger, gasLeft: nat)
    requires gasLeft <= tx.gas && HasInfra(chain)
    ensures var own := InfraOwn(chain, tx, gasLeft);
            var paid := Paid(b, InfraBack(chain, tx, gasLeft));
            && Get(paid, tx.from) ==
               HeldAfter(Get(b, tx.from), Get(b, chain.infra), chain.infra == tx.from, tx.refundTo == tx.from,
                         tx.refundTo == chain.infra, own, InfraRefund(chain, tx, gasLeft) - own)
            && forall a :: a != tx.from && a != chain.infra ==>
                 Get(paid, a) == Get(b, a) + if tx.refundTo == a && own <= Get(b, chain.infra) then own else 0
  {
    var own := InfraOwn(chain, tx, gasLeft);
    PairPaid(b, chain.infra, tx.refundTo, tx.from, own, InfraRefund(chain, tx, gasLeft) - own);
    hide Paid, Get, HeldAfter, InfraRefund, PoolAfterCharges;
  }

  lemma NetworkPaid(chain: Chain, tx: Retry, b: Ledger, gasLeft: nat)
    requires gasLeft <= tx.gas
    ensures var own := NetworkOwn(chain, tx, gasLeft);
            Get(Paid(b, NetworkBack(chain, tx, gasLeft)), tx.from) ==
            HeldAfter(Get(b, tx.from), Get(b, chain.network), chain.network == tx.from, tx.refundTo == tx.from,
                      tx.refundTo == chain.network, own, NetworkRefund(chain, tx, gasLeft) - own)
  {
    var own := NetworkOwn(chain, tx, gasLeft);
    PairPaid(b, chain.network, tx.refundTo, tx.from, own, NetworkRefund(chain, tx, gasLeft) - own);
    hide Paid, Get, HeldAfter, NetworkRefund, PoolForNetwork;
  }

  lemma FailedRefunds(chain: Chain, tx: Retry, b: Ledger, gasLeft: nat)
    requires gasLeft <= tx.gas
    ensures var infra := if HasInfra(chain) then Paid(b, InfraBack(chain, tx, gasLeft)) else b;
            Paid(b, Refunds(chain, tx, gasLeft, false)) == Paid(infra, NetworkBack(chain, tx, gasLeft))
  {
    var infra, network := InfraBack(chain, tx, gasLeft), NetworkBack(chain, tx, gasLeft);
    PaidTogether(b, infra, network);
    assert [] + infra + network == infra + network && Paid(b, []) == b;
    hide NetworkBack, Refund;
  }

  lemma KeptIsHeld(chain: Chain, tx: Retry, b: Ledger, gasLeft: nat)
    requires gasLeft <= tx.gas && PaysFees(chain, tx.from)
    ensures Get(Paid(b, Refunds(chain, tx, gasLeft, false)), tx.from) == Kept(chain, tx, b, gasLeft)
  {
    hide Paid, Get, InfraRefund, NetworkRefund, InfraOwn, NetworkOwn, Refunds, InfraBack, NetworkBack, Leaves;
    FailedRefunds(chain, tx, b, gasLeft);
    if HasInfra(chain) {
      InfraPaid(chain, tx, b, gasLeft);
      NetworkPaid(chain, tx, Paid(b, InfraBack(chain, tx, gasLeft)), gasLeft);
    } else {
      NetworkPaid(chain, tx, b, gasLeft);
    }
  }

  /** At the end of a failed redeem sent by a fee account, the call value goes back exactly if the account keeps it. */
  lemma FeeAccountReturns(chain: Chain, tx: Retry, b: Ledger, gasLeft: nat)
    requires gasLeft <= tx.gas && PaysFees(chain, tx.from)
    ensures var burnt := Burn(b, tx.from, GasRefund(chain, tx, gasLeft));
            End(chain, tx, b, gasLeft, false).Some? <==> tx.value <= Kept(chain, tx, burnt, gasLeft)
  {
    KeptIsHeld(chain, tx, Burn(b, tx.from, GasRefund(chain, tx, gasLeft)), gasLeft);
    hide Paid, Refunds, Kept, GasRefund, Burn;
  }

  /**
   * Spelled out for the network account as the sender, with an infrastructure account of its own or none: the value
   * goes back exactly if the refund it pays out of what it then holds leaves the value, or cannot be paid.
   */
  lemma NetworkSenderReturns(chain: Chain, tx: Retry, b: Ledger, gasLeft: nat)
    requires gasLeft <= tx.gas && tx.from == chain.network && tx.refundTo != tx.from
    requires HasInfra(chain) ==> chain.infra != tx.from
    ensures var burnt := Burn(b, tx.from, GasRefund(chain, tx, gasLeft));
            var infraOwn, own := InfraOwn(chain, tx, gasLeft), NetworkOwn(chain, tx, gasLeft);
            var infra := Get(burnt, chain.infra);
            var infraLeft := if tx.refundTo == chain.infra then infra else Leaves(infra, infraOwn);
            var more := InfraRefund(chain, tx, gasLeft) - infraOwn;
            var held := Get(burnt, tx.from) + if HasInfra(chain) && more <= infraLeft then more else 0;
            End(chain, tx, b, gasLeft, false).Some? <==>
              tx.value <= held && (tx.value + own <= held || held < own)
  {
    FeeAccountReturns(chain, tx, b, gasLeft);
    hide End, Burn, GasRefund, InfraRefund, NetworkRefund, PoolAfterCharges, PoolForNetwork, Get;
  }

  /** And for the infrastructure account as the sender: what the network account can pay it comes on top. */
  lemma InfraSenderReturns(chain: Chain, tx: Retry, b: Ledger, gasLeft: nat)
    requires gasLeft <= tx.gas && HasInfra(chain) && tx.from == chain.infra && tx.refundTo != tx.from
    ensures var burnt := Burn(b, tx.from, GasRefund(chain, tx, gasLeft));
            var infraOwn, own := InfraOwn(chain, tx, gasLeft), NetworkOwn(chain, tx, gasLeft);
            var left := Leaves(Get(burnt, tx.from), infraOwn);
            var network := Get(burnt, chain.network) +
                           if tx.refundTo == chain.network && infraOwn <= Get(burnt, tx.from) then infraOwn else 0;
            var networkLeft := if tx.refundTo == chain.network then network else Leaves(network, own);
            var more := NetworkRefund(chain, tx, gasLeft) - own;
            End(chain, tx, b, gasLeft, false).Some? <==>
              tx.value <= if chain.network == tx.from then Leaves(left, own)
                          else left + if more <= networkLeft then more else 0
  {
    FeeAccountReturns(chain, tx, b, gasLeft);
    hide End, Burn, GasRefund, InfraRefund, NetworkRefund, PoolAfterCharges, PoolForNetwork, Get;
  }

  lemma {:induction false} LosesAtMost(b: Ledger, ps: seq<Payment>, a: Address)
    ensures Get(Paid(b, ps), a) + PaidBy(ps, a) >= Get(b, a)
  {
    if ps != [] {
      LosesAtMost(b, ps[..|ps| - 1], a);
    }
  }

  /** Whoever holds the call value and the whole gas refund gets the value back into escrow. */
  lemma EnoughToReturn(chain: Chain, tx: Retry, b: Ledger, gasLeft: nat)
    requires gasLeft <= tx.gas
    requires var gasRefund := GasRefund(chain, tx, gasLeft);
             tx.value + gasRefund <= Get(Burn(b, tx.from, gasRefund), tx.from)
    ensures End(chain, tx, b, gasLeft, false).Some?
  {
    var refunds := Refunds(chain, tx, gasLeft, false);
    LosesAtMost(Burn(b, tx.from, GasRefund(chain, tx, gasLeft)), refunds, tx.from);
    WhoRefunds(chain, tx, gasLeft, false, tx.from);
    hide Paid, PaidBy, Refunds, Burn, GasRefund, InfraRefund;
  }

  lemma KeptFromHeld(chain: Chain, tx: Retry, b: Ledger, m: Ledger, gasLeft: nat)
    requires gasLeft <= tx.gas && PaysFees(chain, tx.from)
    requires forall a :: Get(b, a) == Get(m, a)
    ensures Kept(chain, tx, b, gasLeft) == Kept(chain, tx, m, gasLeft)
    ensures tx.refundTo == tx.from ==> Kept(chain, tx, b, gasLeft) >= Get(b, tx.from)
  {
    hide Get, InfraRefund, NetworkRefund, PoolAfterCharges, PoolForNetwork;
  }

  /**
   * A whole failed redeem: the call value goes back to escrow exactly if the sender is no fee account, or is the refund
   * address, or keeps the value after the refunds out of what everyone held when the call value had left escrow.
   */
  lemma FailedRedeemReturns(chain: Chain, tx: Retry, b: Ledger, executed: Ledger, gasLeft: nat)
    requires tx.commit
    requires Start(chain, tx, b).Some?
    requires Executed(chain, tx, Start(chain, tx, b).value, executed, gasLeft, false)
    ensures var credited := Credit(executed, tx.from, chain.baseFee * gasLeft);
            End(chain, tx, credited, gasLeft, false).Some? <==>
              || !PaysFees(chain, tx.from)
              || tx.refundTo == tx.from
              || tx.value <= Kept(chain, tx, Move(b, tx.escrow, tx.from, tx.value), gasLeft)
  {
    if !PaysFees(chain, tx.from) {
      FailedRedeemIsUndone(chain, tx, b, executed, gasLeft);
    } else {
      var m := Move(b, tx.escrow, tx.from, tx.value);
      var credited := Credit(executed, tx.from, chain.baseFee * gasLeft);
      var burnt := Burn(credited, tx.from, GasRefund(chain, tx, gasLeft));
      FailedSender(chain, tx, b, executed, gasLeft);
      assert tx.value <= Get(m, tx.from);
      hide Kept, End, Executed, Move, Burn, Credit, Get;
      FeeAccountReturns(chain, tx, credited, gasLeft);
      KeptFromHeld(chain, tx, burnt, m, gasLeft);
    }
  }

  /**
   * A redeem that ends without a place for the call value: the network account sends it, holds nothing else, and the
   * gas left over is refunded out of the value.
   */
  lemma FeeAccountCannotReturn(refundTo: Address, escrow: Address)
    requires refundTo != 1 && escrow != 1
    ensures var chain := Chain(10, 1, 0, 1, 1);
            var tx := Retry(1, refundTo, escrow, None, 5, 21000, 1, 21000, 0, true);
            var started := Start(chain, tx, map[escrow := 5]);
            && started.Some?
            && var executed := Debit(started.value, 1, 21000);
              && Executed(chain, tx, started.value, executed, 1, false)
              && End(chain, tx, Credit(executed, 1, 1), 1, false) == None
  {
    var chain := Chain(10, 1, 0, 1, 1);
    var tx := Retry(1, refundTo, escrow, None, 5, 21000, 1, 21000, 0, true);
    var started := Start(chain, tx, map[escrow := 5]).value;
    var executed := Debit(started, 1, 21000);
    assert Executed(chain, tx, started, executed, 1, false);
    FailedRedeemReturns(chain, tx, map[escrow := 5], executed, 1);
    assert Get(Move(map[escrow := 5], escrow, 1, 5), 1) == 5;
    assert Kept(chain, tx, Move(map[escrow := 5], escrow, 1, 5), 1) == 4;
    hide End, Kept;
  }
}

/**
 * Submitting a retryable ticket: the deposit is minted, the submission fee collected, the call value put in
 * escrow and the gas of a first redeem paid for, with everything refundable capped by the deposit.
 */
module Retryables {
  import opened Types
  import opened Balances

  const MIN_TX_GAS := 21000

  /** The fee accounts and prices that ArbOS keeps; the zero address means there is no infrastructure account. */
  datatype Chain = Chain(version: nat, network: Address, infra: Address, minBaseFee: nat, baseFee: nat)

  datatype Submission = Submission(
    from: Address,
    refundTo: Address,
    escrow: Address,
    deposit: nat,
    retryValue: nat,
    maxFee: nat,
    l1BaseFee: nat,
    dataLength: nat,
    gasFeeCap: nat,
    gas: nat,
    commit: bool)

  datatype Outcome =
    | CannotCoverMaxFee
    | MaxFeeTooLow
    | CannotCoverCallValue
    | TicketOnly
    | Redeem(maxRefund: nat, submissionFee: nat)

  function SubmissionFee(tx: Submission): nat {
    tx.l1BaseFee * (1400 + 6 * tx.dataLength)
  }

  /** What is left of the deposit after the call value; no refund address gets more than this. */
  function Refundable(tx: Submission): nat {
    if tx.deposit < tx.retryValue then 0 else tx.deposit - tx.retryValue
  }

  function WithheldFee(tx: Submission): nat {
    Min(Refundable(tx), SubmissionFee(tx))
  }

  function FeeRefund(tx: Submission): nat
    requires SubmissionFee(tx) <= tx.maxFee
  {
    Min(Refundable(tx) - WithheldFee(tx), tx.maxFee - SubmissionFee(tx))
  }

  function Remaining(tx: Submission): nat
    requires SubmissionFee(tx) <= tx.maxFee
  {
    Refundable(tx) - WithheldFee(tx) - FeeRefund(tx)
  }

  function EffectiveBaseFee(chain: Chain, tx: Submission): nat {
    if !tx.commit && tx.gasFeeCap == 0 then 0 else chain.baseFee
  }

  function GasCost(chain: Chain, tx: Submission): nat {
    EffectiveBaseFee(chain, tx) * tx.gas
  }

  predicate HasInfra(chain: Chain) {
    chain.version >= 11 && chain.infra != 0
  }

  /** The gas at the infrastructure's part of the price. */
  function InfraPriced(chain: Chain, tx: Submission): nat {
    Min(chain.minBaseFee, EffectiveBaseFee(chain, tx)) * tx.gas
  }

  function InfraCost(chain: Chain, tx: Submission): (cost: nat)
    ensures cost <= GasCost(chain, tx)
  {
    if HasInfra(chain) then Min(GasCost(chain, tx), InfraPriced(chain, tx)) else 0
  }

  function NetworkCost(chain: Chain, tx: Submission): nat {
    GasCost(chain, tx) - InfraCost(chain, tx)
  }

  /** The difference between the price the sender offered and the one paid. */
  function PriceDifference(chain: Chain, tx: Submission): nat {
    if tx.gasFeeCap < EffectiveBaseFee(chain, tx) then 0 else (tx.gasFeeCap - EffectiveBaseFee(chain, tx)) * tx.gas
  }

  function PriceRefund(chain: Chain, tx: Submission): nat
    requires SubmissionFee(tx) <= tx.maxFee
  {
    Min(Remaining(tx) - Min(Remaining(tx), NetworkCost(chain, tx)), PriceDifference(chain, tx))
  }

  function TicketRefund(tx: Submission): nat
    requires SubmissionFee(tx) <= tx.maxFee
  {
    Min(Remaining(tx), tx.gasFeeCap * tx.gas)
  }

  // ----- The whole submission, as the payments it makes -----

  function FeePayments(chain: Chain, tx: Submission): seq<Payment>
    requires SubmissionFee(tx) <= tx.maxFee
  {
    [Payment(tx.from, chain.network, SubmissionFee(tx)), Payment(tx.from, tx.refundTo, FeeRefund(tx))]
  }

  function ReturnedFee(chain: Chain, tx: Submission): seq<Payment> {
    [Payment(chain.network, tx.from, SubmissionFee(tx)), Payment(tx.from, tx.refundTo, WithheldFee(tx))]
  }

  function InfraPayment(chain: Chain, tx: Submission): seq<Payment> {
    if HasInfra(chain) then [Payment(tx.from, chain.infra, InfraCost(chain, tx))] else []
  }

  function NetworkPayment(chain: Chain, tx: Submission): seq<Payment> {
    if NetworkCost(chain, tx) > 0 then [Payment(tx.from, chain.network, NetworkCost(chain, tx))] else []
  }

  function GasPayments(chain: Chain, tx: Submission): seq<Payment>
    requires SubmissionFee(tx) <= tx.maxFee
  {
    InfraPayment(chain, tx) + NetworkPayment(chain, tx) + [Payment(tx.from, tx.refundTo, PriceRefund(chain, tx))]
  }

  function Ticket(chain: Chain, tx: Submission): seq<Payment>
    requires SubmissionFee(tx) <= tx.maxFee
  {
    FeePayments(chain, tx) + [Payment(tx.from, tx.escrow, tx.retryValue)]
  }

  /** What becomes of a submission, and the payments made once the deposit is minted. */
  function Submit(chain: Chain, tx: Submission, b: Ledger): (Outcome, seq<Payment>) {
    if Get(b, tx.from) < tx.maxFee then (CannotCoverMaxFee, [])
    else if tx.maxFee < SubmissionFee(tx) then (MaxFeeTooLow, [])
    else if Get(Paid(b, FeePayments(chain, tx)), tx.from) < tx.retryValue then
      (CannotCoverCallValue, FeePayments(chain, tx) + ReturnedFee(chain, tx))
    else if Get(Paid(b, Ticket(chain, tx)), tx.from) < tx.gasFeeCap * tx.gas || tx.gas < MIN_TX_GAS ||
            tx.gasFeeCap < EffectiveBaseFee(chain, tx) then
      (TicketOnly, Ticket(chain, tx) + [Payment(tx.from, tx.refundTo, TicketRefund(tx))])
    else
      (Redeem(Refundable(tx) - FeeRefund(tx) - PriceRefund(chain, tx), SubmissionFee(tx)),
       Ticket(chain, tx) + GasPayments(chain, tx))
  }

  // ----- Every payment goes through -----

  lemma FeesAffordable(chain: Chain, tx: Submission, b: Ledger)
    requires SubmissionFee(tx) <= tx.maxFee <= Get(b, tx.from)
    ensures Affordable(b, FeePayments(chain, tx))
    ensures Get(Paid(b, FeePayments(chain, tx)), tx.from) >= Get(b, tx.from) - SubmissionFee(tx) - FeeRefund(tx)
    ensures chain.network == tx.from ==>
        Get(Paid(b, FeePayments(chain, tx)), tx.from) >= Get(b, tx.from) - FeeRefund(tx)
    ensures chain.network != tx.from ==> Get(Paid(b, FeePayments(chain, tx)), chain.network) >= SubmissionFee(tx)
  {
    var first, second := Payment(tx.from, chain.network, SubmissionFee(tx)),
        Payment(tx.from, tx.refundTo, FeeRefund(tx));
    PaidNext(b, [], first);
    PaidNext(b, [first], second);
    assert [] + [first] == [first] && [first] + [second] == FeePayments(chain, tx);
    hide SubmissionFee;
  }

  /** When the call value cannot be paid, the fee can be returned and what was withheld of it forwarded. */
  lemma ReturnAffordable(chain: Chain, tx: Submission, b: Ledger)
    requires SubmissionFee(tx) <= tx.maxFee <= Get(b, tx.from)
    ensures Affordable(b, FeePayments(chain, tx) + ReturnedFee(chain, tx))
  {
    var paid, first, second :=
      FeePayments(chain, tx), Payment(chain.network, tx.from, SubmissionFee(tx)),
          Payment(tx.from, tx.refundTo, WithheldFee(tx));
    FeesAffordable(chain, tx, b);
    PaidNext(b, paid, first);
    PaidNext(b, paid + [first], second);
    assert paid + [first] + [second] == paid + ReturnedFee(chain, tx);
    hide FeePayments, SubmissionFee;
  }

  lemma TicketAffordable(chain: Chain, tx: Submission, b: Ledger)
    requires SubmissionFee(tx) <= tx.maxFee <= Get(b, tx.from)
    requires tx.retryValue <= Get(Paid(b, FeePayments(chain, tx)), tx.from)
    ensures Affordable(b, Ticket(chain, tx))
    ensures Get(Paid(b, Ticket(chain, tx)), tx.from) >=
            Get(b, tx.from) - SubmissionFee(tx) - FeeRefund(tx) - tx.retryValue
  {
    FeesAffordable(chain, tx, b);
    PaidNext(b, FeePayments(chain, tx), Payment(tx.from, tx.escrow, tx.retryValue));
    hide FeePayments, SubmissionFee;
  }

  lemma CapCovers(chain: Chain, tx: Submission)
    requires EffectiveBaseFee(chain, tx) <= tx.gasFeeCap
    ensures GasCost(chain, tx) + PriceDifference(chain, tx) == tx.gasFeeCap * tx.gas
  {
  }

  /** What some payments amount to. */
  function Spending(ps: seq<Payment>): nat {
    if ps == [] then 0 else Spending(ps[..|ps| - 1]) + ps[|ps| - 1].amount
  }

  lemma {:induction false} WithinMeans(b: Ledger, ps: seq<Payment>, qs: seq<Payment>, a: Address)
    requires Affordable(b, ps)
    requires forall i :: 0 <= i < |qs| ==> qs[i].from == a
    requires Spending(qs) <= Get(Paid(b, ps), a)
    ensures Affordable(b, ps + qs)
    ensures Get(Paid(b, ps + qs), a) >= Get(Paid(b, ps), a) - Spending(qs)
  {
    if qs == [] {
      assert ps + qs == ps;
    } else {
      var front, last := qs[..|qs| - 1], qs[|qs| - 1];
      assert ps + qs == ps + front + [last];
      WithinMeans(b, ps, front, a);
      PaidNext(b, ps + front, last);
    }
  }

  lemma {:induction false} SpendingTogether(ps: seq<Payment>, qs: seq<Payment>)
    ensures Spending(ps + qs) == Spending(ps) + Spending(qs)
  {
    if qs == [] {
      assert ps + qs == ps;
    } else {
      assert (ps + qs)[..|ps + qs| - 1] == ps + qs[..|qs| - 1];
      SpendingTogether(ps, qs[..|qs| - 1]);
    }
  }

  /** The gas is paid for once, to the infrastructure and network accounts together. */
  lemma GasSpending(chain: Chain, tx: Submission)
    requires SubmissionFee(tx) <= tx.maxFee
    ensures Spending(InfraPayment(chain, tx) + NetworkPayment(chain, tx)) == GasCost(chain, tx)
    ensures Spending(GasPayments(chain, tx)) == GasCost(chain, tx) + PriceRefund(chain, tx)
  {
    SpendingTogether(InfraPayment(chain, tx), NetworkPayment(chain, tx));
    SpendingTogether(InfraPayment(chain, tx) + NetworkPayment(chain, tx),
                     [Payment(tx.from, tx.refundTo, PriceRefund(chain, tx))]);
  }

  /** Whoever can pay the fee cap for all the gas can pay the gas cost and the price refund. */
  lemma GasAffordable(chain: Chain, tx: Submission, b: Ledger, ps: seq<Payment>)
    requires SubmissionFee(tx) <= tx.maxFee
    requires EffectiveBaseFee(chain, tx) <= tx.gasFeeCap
    requires Affordable(b, ps) && tx.gasFeeCap * tx.gas <= Get(Paid(b, ps), tx.from)
    ensures Affordable(b, ps + GasPayments(chain, tx))
  {
    assert Spending(GasPayments(chain, tx)) <= tx.gasFeeCap * tx.gas by {
      CapCovers(chain, tx);
      GasSpending(chain, tx);
      assert PriceRefund(chain, tx) <= PriceDifference(chain, tx);
      hide GasPayments, Spending, SubmissionFee, Remaining, GasCost, PriceDifference, NetworkCost, InfraCost,
          EffectiveBaseFee;
    }
    SenderPaysGas(chain, tx);
    hide *;
    WithinMeans(b, ps, GasPayments(chain, tx), tx.from);
  }

  lemma SenderPaysGas(chain: Chain, tx: Submission)
    requires SubmissionFee(tx) <= tx.maxFee
    ensures forall i :: 0 <= i < |GasPayments(chain, tx)| ==> GasPayments(chain, tx)[i].from == tx.from
  {
    hide SubmissionFee, PriceRefund, NetworkCost, InfraCost;
  }

  /** None of the failures that the handler only logs can happen: every payment of every submission goes through. */
  lemma SubmissionAffordable(chain: Chain, tx: Submission, b: Ledger)
    requires tx.deposit <= Get(b, tx.from)
    ensures Affordable(b, Submit(chain, tx, b).1)
  {
    var (outcome, payments) := Submit(chain, tx, b);
    match outcome
    case CannotCoverMaxFee =>
    case MaxFeeTooLow =>
    case CannotCoverCallValue => ReturnAffordable(chain, tx, b);
    case TicketOnly =>
      TicketAffordable(chain, tx, b);
      PaidNext(b, Ticket(chain, tx), Payment(tx.from, tx.refundTo, TicketRefund(tx)));
    case Redeem(_, _) =>
      TicketAffordable(chain, tx, b);
      GasAffordable(chain, tx, b, Ticket(chain, tx));
  }

  // ----- Which outcome a submission has -----

  /** What a payment takes from an account that pays it: nothing, if it pays itself. */
  function Outlay(from: Address, to: Address, amount: nat): nat {
    if from == to then 0 else amount
  }

  /** What the sender has left of its balance after the submission fee and its refund: as much of the maximal fee as
      the deposit covers beyond the call value and the fee. */
  function AfterFees(chain: Chain, tx: Submission, balance: nat): int {
    var fee := tx.l1BaseFee * (1400 + 6 * tx.dataLength);
    var refund := Max(Min(tx.deposit - tx.retryValue, tx.maxFee) - fee, 0);
    balance - Outlay(tx.from, chain.network, fee) - Outlay(tx.from, tx.refundTo, refund)
  }

  lemma FeesLeave(chain: Chain, tx: Submission, b: Ledger)
    requires SubmissionFee(tx) <= tx.maxFee <= Get(b, tx.from)
    ensures Get(Paid(b, FeePayments(chain, tx)), tx.from) == AfterFees(chain, tx, Get(b, tx.from))
  {
    var first, second := Payment(tx.from, chain.network, SubmissionFee(tx)),
        Payment(tx.from, tx.refundTo, FeeRefund(tx));
    PaidNext(b, [], first);
    PaidNext(b, [first], second);
    assert [] + [first] == [first] && [first] + [second] == FeePayments(chain, tx);
    hide SubmissionFee;
  }

  lemma TicketLeaves(chain: Chain, tx: Submission, b: Ledger)
    requires SubmissionFee(tx) <= tx.maxFee <= Get(b, tx.from)
    requires tx.retryValue <= AfterFees(chain, tx, Get(b, tx.from))
    ensures Get(Paid(b, Ticket(chain, tx)), tx.from) ==
            AfterFees(chain, tx, Get(b, tx.from)) - Outlay(tx.from, tx.escrow, tx.retryValue)
  {
    FeesLeave(chain, tx, b);
    PaidNext(b, FeePayments(chain, tx), Payment(tx.from, tx.escrow, tx.retryValue));
    hide FeePayments, SubmissionFee, AfterFees;
  }

  /**
   * Each outcome, exactly, from the balance that the sender has once the deposit is minted: it must hold the maximal
   * fee, which must cover the fee, then the call value, and for a redeem also the fee cap for all the gas, which must
   * be enough gas at a high enough cap. Accounts may coincide; in estimation and calls a cap of zero will do.
   */
  lemma OutcomeOfSubmission(chain: Chain, tx: Submission, b: Ledger)
    ensures var (outcome, balance) := (Submit(chain, tx, b).0, Get(b, tx.from));
            if balance < tx.maxFee then outcome == CannotCoverMaxFee
            else if tx.maxFee < tx.l1BaseFee * (1400 + 6 * tx.dataLength) then outcome == MaxFeeTooLow
            else
              var left := AfterFees(chain, tx, balance);
              && (outcome.CannotCoverCallValue? <==> left < tx.retryValue)
              && (outcome.Redeem? <==>
                   && tx.retryValue <= left
                   && tx.gasFeeCap * tx.gas + Outlay(tx.from, tx.escrow, tx.retryValue) <= left
                   && 21000 <= tx.gas
                   && (chain.baseFee <= tx.gasFeeCap || (!tx.commit && tx.gasFeeCap == 0)))
              && (outcome.CannotCoverCallValue? || outcome.TicketOnly? || outcome.Redeem?)
  {
    if SubmissionFee(tx) <= tx.maxFee <= Get(b, tx.from) {
      FeesLeave(chain, tx, b);
      if tx.retryValue <= AfterFees(chain, tx, Get(b, tx.from)) {
        TicketLeaves(chain, tx, b);
      }
      hide AfterFees, FeePayments, Ticket, ReturnedFee, GasPayments, FeeRefund, PriceRefund, TicketRefund, Outlay, Paid;
    }
  }

  // ----- What a submission costs and refunds -----

  /** What the payments bring an account. */
  function Received(ps: seq<Payment>, a: Address): nat {
    if ps == [] then 0 else Received(ps[..|ps| - 1], a) + if ps[|ps| - 1].to == a then ps[|ps| - 1].amount else 0
  }

  lemma {:induction false} ReceivedTogether(ps: seq<Payment>, qs: seq<Payment>, a: Address)
    ensures Received(ps + qs, a) == Received(ps, a) + Received(qs, a)
  {
    if qs == [] {
      assert ps + qs == ps;
    } else {
      assert (ps + qs)[..|ps + qs| - 1] == ps + qs[..|qs| - 1];
      ReceivedTogether(ps, qs[..|qs| - 1], a);
    }
  }

  predicate Outside(ps: seq<Payment>, a: Address) {
    forall i :: 0 <= i < |ps| ==> ps[i].from != a
  }

  lemma {:induction false} ReceivedIsGained(b: Ledger, ps: seq<Payment>, a: Address)
    requires Affordable(b, ps) && Outside(ps, a)
    ensures Get(Paid(b, ps), a) == Get(b, a) + Received(ps, a)
  {
    if ps != [] {
      ReceivedIsGained(b, ps[..|ps| - 1], a);
    }
  }

  function At(a: Address, payee: Address, amount: nat): nat {
    if a == payee then amount else 0
  }

  lemma ReceivedTwo(p: Payment, q: Payment, a: Address)
    ensures Received([p, q], a) == At(a, p.to, p.amount) + At(a, q.to, q.amount)
  {
    ReceivedTogether([p], [q], a);
    assert [p] + [q] == [p, q];
  }

  lemma FeesReceived(chain: Chain, tx: Submission, a: Address)
    requires SubmissionFee(tx) <= tx.maxFee
    ensures Received(FeePayments(chain, tx), a) == At(a, chain.network, SubmissionFee(tx)) +
        At(a, tx.refundTo, FeeRefund(tx))
    ensures Received(ReturnedFee(chain, tx), a) == At(a, tx.from, SubmissionFee(tx)) +
        At(a, tx.refundTo, WithheldFee(tx))
    ensures Received(Ticket(chain, tx), a) == Received(FeePayments(chain, tx), a) + At(a, tx.escrow, tx.retryValue)
  {
    ReceivedTwo(Payment(tx.from, chain.network, SubmissionFee(tx)), Payment(tx.from, tx.refundTo, FeeRefund(tx)), a);
    ReceivedTwo(Payment(chain.network, tx.from, SubmissionFee(tx)), Payment(tx.from, tx.refundTo, WithheldFee(tx)), a);
    ReceivedTogether(FeePayments(chain, tx), [Payment(tx.from, tx.escrow, tx.retryValue)], a);
  }

  lemma GasReceived(chain: Chain, tx: Submission, a: Address)
    requires SubmissionFee(tx) <= tx.maxFee
    ensures Received(GasPayments(chain, tx), a) ==
            At(a, chain.infra, InfraCost(chain, tx)) + At(a, chain.network, NetworkCost(chain, tx)) +
            At(a, tx.refundTo, PriceRefund(chain, tx))
  {
    ReceivedTogether(InfraPayment(chain, tx), NetworkPayment(chain, tx), a);
    ReceivedTogether(InfraPayment(chain, tx) + NetworkPayment(chain, tx),
                     [Payment(tx.from, tx.refundTo, PriceRefund(chain, tx))], a);
  }

  /** What each way a submission can end brings an account. */
  lemma AllReceived(chain: Chain, tx: Submission, a: Address)
    requires SubmissionFee(tx) <= tx.maxFee
    ensures Received(FeePayments(chain, tx) + ReturnedFee(chain, tx), a) ==
            At(a, chain.network, SubmissionFee(tx)) + At(a, tx.from, SubmissionFee(tx)) +
            At(a, tx.refundTo, FeeRefund(tx)) + At(a, tx.refundTo, WithheldFee(tx))
    ensures Received(Ticket(chain, tx) + [Payment(tx.from, tx.refundTo, TicketRefund(tx))], a) ==
            At(a, chain.network, SubmissionFee(tx)) + At(a, tx.escrow, tx.retryValue) +
            At(a, tx.refundTo, FeeRefund(tx)) + At(a, tx.refundTo, TicketRefund(tx))
    ensures Received(Ticket(chain, tx) + GasPayments(chain, tx), a) ==
            At(a, chain.network, SubmissionFee(tx)) + At(a, tx.escrow, tx.retryValue) +
            At(a, chain.infra, InfraCost(chain, tx)) + At(a, chain.network, NetworkCost(chain, tx)) +
            At(a, tx.refundTo, FeeRefund(tx)) + At(a, tx.refundTo, PriceRefund(chain, tx))
  {
    FeesReceived(chain, tx, a);
    GasReceived(chain, tx, a);
    ReceivedTogether(FeePayments(chain, tx), ReturnedFee(chain, tx), a);
    var last := [Payment(tx.from, tx.refundTo, TicketRefund(tx))];
    ReceivedTogether(Ticket(chain, tx), last, a);
    ReceivedTogether(Ticket(chain, tx), GasPayments(chain, tx), a);
    assert Received(last, a) == At(a, tx.refundTo, TicketRefund(tx));
    hide *;
  }

  /** The sender pays for everything but the return of the fee, which the network account pays. */
  lemma WhoPays(chain: Chain, tx: Submission, b: Ledger, a: Address)
    requires a != tx.from
    requires a != chain.network || !Submit(chain, tx, b).0.CannotCoverCallValue?
    ensures Outside(Submit(chain, tx, b).1, a)
  {
    if SubmissionFee(tx) <= tx.maxFee {
      SenderPaysGas(chain, tx);
    }
    hide Paid, SubmissionFee, GasPayments;
  }

  /** When a redeem is scheduled, the books of every account but the sender's balance exactly. */
  lemma RedeemBooks(chain: Chain, tx: Submission, b: Ledger, a: Address)
    requires tx.deposit <= Get(b, tx.from) && a != tx.from
    requires Submit(chain, tx, b).0.Redeem?
    ensures Get(Paid(b, Submit(chain, tx, b).1), a) == Get(b, a) +
            At(a, chain.network, SubmissionFee(tx)) + At(a, tx.escrow, tx.retryValue) +
            At(a, chain.infra, InfraCost(chain, tx)) + At(a, chain.network, NetworkCost(chain, tx)) +
            At(a, tx.refundTo, FeeRefund(tx)) + At(a, tx.refundTo, PriceRefund(chain, tx))
    ensures InfraCost(chain, tx) + NetworkCost(chain, tx) == GasCost(chain, tx)
    ensures Submit(chain, tx, b).0.maxRefund + FeeRefund(tx) + PriceRefund(chain, tx) == Refundable(tx)
  {
    SubmissionAffordable(chain, tx, b);
    WhoPays(chain, tx, b, a);
    ReceivedIsGained(b, Submit(chain, tx, b).1, a);
    AllReceived(chain, tx, a);
    hide Paid, Affordable, Received, Outside, FeePayments, ReturnedFee, GasPayments, Ticket, SubmissionFee,
        PriceRefund, FeeRefund;
    hide InfraCost, GasCost, At;
  }

  /** When there is a ticket but no redeem, too. */
  lemma TicketBooks(chain: Chain, tx: Submission, b: Ledger, a: Address)
    requires tx.deposit <= Get(b, tx.from) && a != tx.from
    requires Submit(chain, tx, b).0.TicketOnly?
    ensures Get(Paid(b, Submit(chain, tx, b).1), a) == Get(b, a) +
            At(a, chain.network, SubmissionFee(tx)) + At(a, tx.escrow, tx.retryValue) +
            At(a, tx.refundTo, FeeRefund(tx)) + At(a, tx.refundTo, TicketRefund(tx))
  {
    SubmissionAffordable(chain, tx, b);
    WhoPays(chain, tx, b, a);
    ReceivedIsGained(b, Submit(chain, tx, b).1, a);
    AllReceived(chain, tx, a);
    hide Paid, Affordable, Received, Outside, FeePayments, ReturnedFee, GasPayments, Ticket, SubmissionFee;
    hide TicketRefund, FeeRefund, At;
  }

  predicate OwnRefundAddress(chain: Chain, tx: Submission) {
    tx.refundTo !in {tx.from, tx.escrow, chain.network, chain.infra}
  }

  /** What a submission pays an account as the network, the infrastructure, the escrow or a sender that is repaid. */
  function Dues(chain: Chain, tx: Submission, outcome: Outcome, a: Address): nat {
    match outcome
    case CannotCoverMaxFee => 0
    case MaxFeeTooLow => 0
    case CannotCoverCallValue => At(a, chain.network, SubmissionFee(tx)) + At(a, tx.from, SubmissionFee(tx))
    case TicketOnly => At(a, chain.network, SubmissionFee(tx)) + At(a, tx.escrow, tx.retryValue)
    case Redeem(_, _) =>
      At(a, chain.network, SubmissionFee(tx)) + At(a, tx.escrow, tx.retryValue) +
      At(a, chain.infra, InfraCost(chain, tx)) + At(a, chain.network, NetworkCost(chain, tx))
  }

  /**
   * Beyond what it is due as some other party, the refund address is paid at most what is left of the deposit after the
   * call value; with what the redeem may still refund, exactly that. If it is no other party, that is what it gains.
   */
  lemma RefundsComeFromDeposit(chain: Chain, tx: Submission, b: Ledger)
    requires tx.deposit <= Get(b, tx.from)
    ensures var (outcome, payments) := Submit(chain, tx, b);
            var refunds := Received(payments, tx.refundTo) - Dues(chain, tx, outcome, tx.refundTo);
            && 0 <= refunds <= Refundable(tx)
            && (outcome.Redeem? ==> refunds + outcome.maxRefund == Refundable(tx))
            && (outcome.CannotCoverCallValue? ==> refunds == Min(Refundable(tx), tx.maxFee))
            && (outcome.TicketOnly? ==>
                  refunds == Min(Refundable(tx) - WithheldFee(tx),
                                 tx.maxFee - SubmissionFee(tx) + tx.gasFeeCap * tx.gas))
            && (OwnRefundAddress(chain, tx) ==> Get(Paid(b, payments), tx.refundTo) == Get(b, tx.refundTo) + refunds)
  {
    if OwnRefundAddress(chain, tx) {
      SubmissionAffordable(chain, tx, b);
      WhoPays(chain, tx, b, tx.refundTo);
      ReceivedIsGained(b, Submit(chain, tx, b).1, tx.refundTo);
    }
    if SubmissionFee(tx) <= tx.maxFee {
      AllReceived(chain, tx, tx.refundTo);
      RefundsAddUp(chain, tx);
    }
    hide Paid, Affordable, Received, Outside, FeePayments, ReturnedFee, GasPayments, Ticket, SubmissionFee, PriceRefund;
    hide FeeRefund, WithheldFee, TicketRefund, Refundable, InfraCost, NetworkCost;
  }

  lemma RefundsAddUp(chain: Chain, tx: Submission)
    requires SubmissionFee(tx) <= tx.maxFee
    ensures FeeRefund(tx) + PriceRefund(chain, tx) <= Refundable(tx)
    ensures FeeRefund(tx) + TicketRefund(tx) ==
            Min(Refundable(tx) - WithheldFee(tx), tx.maxFee - SubmissionFee(tx) + tx.gasFeeCap * tx.gas)
    ensures FeeRefund(tx) + WithheldFee(tx) == Min(Refundable(tx), tx.maxFee)
  {
    hide SubmissionFee, NetworkCost, PriceDifference;
  }

  /** Minting the deposit is all a submission adds to the money there is. */
  lemma SubmissionMintsDeposit(chain: Chain, tx: Submission, b: Ledger)
    ensures var minted := Credit(b, tx.from, tx.deposit);
            Total(Paid(minted, Submit(chain, tx, minted).1)) == Total(b) + tx.deposit
  {
    var minted := Credit(b, tx.from, tx.deposit);
    TotalCredited(b, tx.from, tx.deposit);
    TotalPaid(minted, Submit(chain, tx, minted).1);
  }

  /**
   * A submission whose call value cannot be paid leaves every account where it was after the deposit, but for
   * one transfer to the refund address: the sender's maximal fee, as far as the deposit covers it.
   */
  lemma FailedSubmissionIsUndone(chain: Chain, tx: Submission, b: Ledger)
    requires tx.deposit <= Get(b, tx.from)
    requires Submit(chain, tx, b).0.CannotCoverCallValue?
    ensures Min(Refundable(tx), tx.maxFee) <= Get(b, tx.from)
    ensures forall a :: Get(Paid(b, Submit(chain, tx, b).1), a) ==
                        Get(Move(b, tx.from, tx.refundTo, Min(Refundable(tx), tx.maxFee)), a)
  {
    hide Paid, Affordable, SubmissionFee, FeeRefund, WithheldFee, FeesAndBack, FeePayments, ReturnedFee;
    hide Ticket, GasPayments, TicketRefund, PriceRefund, Refundable;
    SubmissionAffordable(chain, tx, b);
    RefundsAddUp(chain, tx);
    FailedPayments(chain, tx);
    UndoneMoves(b, tx.from, chain.network, tx.refundTo, SubmissionFee(tx), FeeRefund(tx), WithheldFee(tx));
  }

  lemma FailedPayments(chain: Chain, tx: Submission)
    requires SubmissionFee(tx) <= tx.maxFee
    ensures FeePayments(chain, tx) + ReturnedFee(chain, tx) ==
            FeesAndBack(tx.from, chain.network, tx.refundTo, SubmissionFee(tx), FeeRefund(tx), WithheldFee(tx))
  {
  }

  function FeesAndBack(from: Address, network: Address, to: Address, fee: nat, x: nat, y: nat): seq<Payment> {
    [Payment(from, network, fee), Payment(from, to, x), Payment(network, from, fee), Payment(from, to, y)]
  }

  lemma UndoneMoves(b: Ledger, from: Address, network: Address, to: Address, fee: nat, x: nat, y: nat)
    requires Affordable(b, FeesAndBack(from, network, to, fee, x, y))
    requires x + y <= Get(b, from)
    ensures forall a :: Get(Paid(b, FeesAndBack(from, network, to, fee, x, y)), a) == Get(Move(b, from, to, x + y), a)
  {
    var one, two, three, four := Payment(from, network, fee), Payment(from, to, x), Payment(network, from, fee),
        Payment(from, to, y);
    PaidNext(b, [], one);
    PaidNext(b, [one], two);
    PaidNext(b, [one, two], three);
    PaidNext(b, [one, two, three], four);
    assert [] + [one] == [one] && [one] + [two] == [one, two] && [one, two] + [three] == [one, two, three];
    assert [one, two, three] + [four] == FeesAndBack(from, network, to, fee, x, y);
    assert Paid(b, []) == b;
    hide Paid, Affordable, FeesAndBack, Move;
    forall a ensures Get(Paid(b, FeesAndBack(from, network, to, fee, x, y)), a) == Get(Move(b, from, to, x + y), a) {
      MovedBalances(b, from, network, to, fee, x, y, a);
    }
  }

  lemma MovedBalances(b: Ledger, from: Address, network: Address, to: Address, fee: nat, x: nat, y: nat, a: Address)
    requires x + y <= Get(b, from) && fee <= Get(b, from)
    requires x <= Get(Move(b, from, network, fee), from)
    requires fee <= Get(Move(Move(b, from, network, fee), from, to, x), network)
    requires y <= Get(Move(Move(Move(b, from, network, fee), from, to, x), network, from, fee), from)
    ensures Get(Move(Move(Move(Move(b, from, network, fee), from, to, x), network, from, fee), from, to, y), a) ==
            Get(Move(b, from, to, x + y), a)
  {
    hide Move, Get;
  }

  // ----- A deposit that covers everything -----

  /** What the payments cost an account, if it can pay them. */
  function PaidBy(ps: seq<Payment>, a: Address): nat {
    if ps == [] then 0 else PaidBy(ps[..|ps| - 1], a) + At(a, ps[|ps| - 1].from, ps[|ps| - 1].amount)
  }

  lemma {:induction false} PaidByTogether(ps: seq<Payment>, qs: seq<Payment>, a: Address)
    ensures PaidBy(ps + qs, a) == PaidBy(ps, a) + PaidBy(qs, a)
  {
    if qs == [] {
      assert ps + qs == ps;
    } else {
      assert (ps + qs)[..|ps + qs| - 1] == ps + qs[..|qs| - 1];
      PaidByTogether(ps, qs[..|qs| - 1], a);
    }
  }

  /** The books of every account balance, whoever pays whom. */
  lemma {:induction false} BooksBalance(b: Ledger, ps: seq<Payment>, a: Address)
    requires Affordable(b, ps)
    ensures Get(Paid(b, ps), a) + PaidBy(ps, a) == Get(b, a) + Received(ps, a)
  {
    if ps != [] {
      BooksBalance(b, ps[..|ps| - 1], a);
    }
  }

  lemma {:induction false} OnePayer(ps: seq<Payment>, payer: Address, a: Address)
    requires forall i :: 0 <= i < |ps| ==> ps[i].from == payer
    ensures PaidBy(ps, a) == At(a, payer, Spending(ps))
  {
    if ps != [] {
      OnePayer(ps[..|ps| - 1], payer, a);
    }
  }

  lemma TicketSpending(chain: Chain, tx: Submission)
    requires SubmissionFee(tx) <= tx.maxFee
    ensures Spending(Ticket(chain, tx)) == SubmissionFee(tx) + FeeRefund(tx) + tx.retryValue
  {
    var first, second, third := Payment(tx.from, chain.network, SubmissionFee(tx)),
        Payment(tx.from, tx.refundTo, FeeRefund(tx)), Payment(tx.from, tx.escrow, tx.retryValue);
    SpendingTogether([first], [second]);
    SpendingTogether(FeePayments(chain, tx), [third]);
    assert [first] + [second] == FeePayments(chain, tx);
    hide SubmissionFee, FeeRefund;
  }

  function Cost(price: nat, gas: nat): nat {
    price * gas
  }

  /** The deposit covers the call value, the maximal fee and the fee cap for all the gas. */
  predicate Funded(tx: Submission) {
    tx.retryValue + tx.maxFee + tx.gasFeeCap * tx.gas <= tx.deposit
  }

  lemma FundedAmounts(chain: Chain, tx: Submission)
    requires SubmissionFee(tx) <= tx.maxFee && Funded(tx) && EffectiveBaseFee(chain, tx) <= tx.gasFeeCap
    ensures FeeRefund(tx) == tx.maxFee - SubmissionFee(tx)
    ensures PriceRefund(chain, tx) == PriceDifference(chain, tx)
    ensures GasCost(chain, tx) + PriceDifference(chain, tx) == tx.gasFeeCap * tx.gas
    ensures Refundable(tx) == tx.deposit - tx.retryValue
  {
    CapCovers(chain, tx);
    hide SubmissionFee, GasCost, PriceDifference, InfraCost;
  }

  lemma FundedRedeems(chain: Chain, tx: Submission, b: Ledger)
    requires SubmissionFee(tx) <= tx.maxFee && Funded(tx) && MIN_TX_GAS <= tx.gas
    requires EffectiveBaseFee(chain, tx) <= tx.gasFeeCap && tx.deposit <= Get(b, tx.from)
    ensures var outcome := Submit(chain, tx, b).0;
            && outcome.Redeem? && outcome.submissionFee == SubmissionFee(tx)
            && outcome.maxRefund + tx.retryValue + (tx.maxFee - SubmissionFee(tx)) + PriceDifference(chain, tx) ==
               tx.deposit
    ensures Submit(chain, tx, b).1 == Ticket(chain, tx) + GasPayments(chain, tx)
  {
    FundedAmounts(chain, tx);
    FeesAffordable(chain, tx, b);
    TicketAffordable(chain, tx, b);
    hide Paid, FeePayments, Ticket, GasPayments, FeeRefund, PriceRefund, Refundable, SubmissionFee, PriceDifference;
    hide EffectiveBaseFee;
  }

  lemma FundedSpending(chain: Chain, tx: Submission, a: Address)
    requires SubmissionFee(tx) <= tx.maxFee && Funded(tx) && EffectiveBaseFee(chain, tx) <= tx.gasFeeCap
    ensures PaidBy(Ticket(chain, tx) + GasPayments(chain, tx), a) ==
            At(a, tx.from, tx.retryValue + tx.maxFee + tx.gasFeeCap * tx.gas)
  {
    FundedAmounts(chain, tx);
    TicketSpending(chain, tx);
    GasSpending(chain, tx);
    SpendingTogether(Ticket(chain, tx), GasPayments(chain, tx));
    SenderPaysGas(chain, tx);
    assert forall i :: 0 <= i < |Ticket(chain, tx)| ==> Ticket(chain, tx)[i].from == tx.from;
    hide Ticket, GasPayments, Spending, FeeRefund, PriceRefund, SubmissionFee, PriceDifference, GasCost;
    OnePayer(Ticket(chain, tx) + GasPayments(chain, tx), tx.from, a);
  }

  /** The infrastructure's part of the base fee. */
  function InfraPricePart(chain: Chain): (price: nat)
    ensures price <= chain.baseFee
  {
    if chain.version >= 11 && chain.infra != 0 then Min(chain.minBaseFee, chain.baseFee) else 0
  }

  lemma GasShares(chain: Chain, tx: Submission)
    requires tx.commit
    ensures InfraCost(chain, tx) == Cost(InfraPricePart(chain), tx.gas)
    ensures NetworkCost(chain, tx) == Cost(chain.baseFee - InfraPricePart(chain), tx.gas)
    ensures chain.baseFee <= tx.gasFeeCap ==>
        PriceDifference(chain, tx) == Cost(tx.gasFeeCap - chain.baseFee, tx.gas)
    ensures Cost(tx.gasFeeCap, tx.gas) == tx.gasFeeCap * tx.gas
  {
    var price := InfraPricePart(chain);
    assert price * tx.gas <= chain.baseFee * tx.gas;
    assert (chain.baseFee - price) * tx.gas == chain.baseFee * tx.gas - price * tx.gas;
  }

  /**
   * A submission whose deposit covers everything gets its redeem, whatever the sender held, and every account, the
   * sender included, gains and loses exactly this: the escrow the value, the network and infrastructure accounts the
   * fee and the gas at the base fee, the refund address the rest of the maximal fee and of the fee cap.
   */
  lemma FundedSubmission(chain: Chain, tx: Submission, b: Ledger, a: Address)
    requires Funded(tx) && SubmissionFee(tx) <= tx.maxFee
    requires tx.commit && 21000 <= tx.gas && chain.baseFee <= tx.gasFeeCap
    ensures var minted := Credit(b, tx.from, tx.deposit);
            var (outcome, payments) := Submit(chain, tx, minted);
            var over := Cost(tx.gasFeeCap - chain.baseFee, tx.gas);
            var infraPrice := InfraPricePart(chain);
            && outcome.Redeem? && outcome.submissionFee == SubmissionFee(tx)
            && outcome.maxRefund + tx.retryValue + (tx.maxFee - SubmissionFee(tx)) + over == tx.deposit
            && Get(Paid(minted, payments), a) +
               At(a, tx.from, tx.retryValue + tx.maxFee + Cost(tx.gasFeeCap, tx.gas)) ==
               Get(b, a) + At(a, tx.from, tx.deposit) +
               At(a, tx.escrow, tx.retryValue) + At(a, tx.refundTo, tx.maxFee - SubmissionFee(tx) + over) +
               At(a, chain.network, SubmissionFee(tx) + Cost(chain.baseFee - infraPrice, tx.gas)) +
               At(a, chain.infra, Cost(infraPrice, tx.gas))
  {
    hide Submit, Paid, PaidBy, Received, Affordable, Ticket, GasPayments, FeePayments, ReturnedFee, SubmissionFee, Cost;
    hide PriceDifference;
    hide FeeRefund, PriceRefund, InfraCost, NetworkCost, WithheldFee, TicketRefund, GasCost, Refundable, InfraPricePart;
    var minted := Credit(b, tx.from, tx.deposit);
    assert Get(minted, a) == Get(b, a) + At(a, tx.from, tx.deposit);
    hide Credit, Get;
    FundedRedeems(chain, tx, minted);
    FundedAmounts(chain, tx);
    FundedSpending(chain, tx, a);
    AllReceived(chain, tx, a);
    SubmissionAffordable(chain, tx, minted);
    BooksBalance(minted, Submit(chain, tx, minted).1, a);
    GasShares(chain, tx);
  }

  /** The price refund if the whole gas cost, and not only the network's share, is set aside first. */
  function FullyChargedRefund(chain: Chain, tx: Submission): nat
    requires SubmissionFee(tx) <= tx.maxFee
  {
    Min(Remaining(tx) - Min(Remaining(tx), GasCost(chain, tx)), PriceDifference(chain, tx))
  }

  /**
   * The gas cost is meant to be set aside before the price refund is worked out, but by then the infrastructure's
   * share has been taken out of it. The refund is what it is meant to be exactly when one of these holds.
   */
  lemma PriceRefundAsMeant(chain: Chain, tx: Submission)
    requires SubmissionFee(tx) <= tx.maxFee
    ensures PriceRefund(chain, tx) == FullyChargedRefund(chain, tx) <==>
            || InfraCost(chain, tx) == 0
            || Remaining(tx) <= NetworkCost(chain, tx)
            || PriceDifference(chain, tx) == 0
            || GasCost(chain, tx) + PriceDifference(chain, tx) <= Remaining(tx)
    ensures PriceRefund(chain, tx) >= FullyChargedRefund(chain, tx)
  {
    hide SubmissionFee, InfraCost, GasCost, PriceDifference, Remaining;
  }

  /** A submission with a deposit of just the gas cost gets its redeem, and is refunded the price difference all the
      same. */
  lemma PriceRefundNotAsMeant(from: Address, escrow: Address, refundTo: Address)
    ensures var chain := Chain(11, 1, 2, 1, 1);
            var tx := Submission(from, refundTo, escrow, 21000, 0, 0, 0, 0, 2, 21000, true);
            && Submit(chain, tx, Credit(map[from := 21000], from, tx.deposit)).0.Redeem?
            && PriceRefund(chain, tx) == 21000 && FullyChargedRefund(chain, tx) == 0
  {
    var chain := Chain(11, 1, 2, 1, 1);
    var tx := Submission(from, refundTo, escrow, 21000, 0, 0, 0, 0, 2, 21000, true);
    var b := Credit(map[from := 21000], from, tx.deposit);
    assert Get(b, from) == 42000 && SubmissionFee(tx) == 0 && FeeRefund(tx) == 0;
    FeesAffordable(chain, tx, b);
    TicketAffordable(chain, tx, b);
    hide Paid, FeePayments, Ticket, GasPayments;
  }
}

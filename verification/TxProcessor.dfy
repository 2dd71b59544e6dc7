/** The transaction hooks that move money, over the balances of the EVM. */
module TxProcessor {
  import opened Types
  import opened Balances
  import opened Retryables
  import opened Fees
  import RetryTx

  class TxProcessor {
    const evm: Evm
    const chain: Chain
    var posterGas: nat
    var posterFee: nat
    var computeHoldGas: nat
    var l1FeesAvailable: nat

    constructor (evm: Evm, chain: Chain, l1FeesAvailable: nat)
      ensures this.evm == evm && this.chain == chain && this.l1FeesAvailable == l1FeesAvailable
      ensures posterGas == 0 && posterFee == 0 && computeHoldGas == 0
    {
      this.evm := evm;
      this.chain := chain;
      this.l1FeesAvailable := l1FeesAvailable;
      posterGas, posterFee, computeHoldGas := 0, 0, 0;
    }

    /** A transfer whose failure the source can only log, because it never fails. */
    method MustTransfer(from: Address, to: Address, amount: nat, ghost b: Ledger, ghost paid: seq<Payment>)
      requires evm.balances == Paid(b, paid)
      requires Affordable(b, paid + [Payment(from, to, amount)])
      modifies evm
      ensures evm.balances == Paid(b, paid + [Payment(from, to, amount)])
    {
      PaidNext(b, paid, Payment(from, to, amount));
      var ok := evm.Transfer(from, to, amount);
      assert ok;
    }

    /** Collects the submission fee, and refunds what the maximal fee exceeds it by. */
    method CollectFee(tx: Submission, available: BigInt) returns (withheld: nat)
      requires SubmissionFee(tx) <= tx.maxFee <= Get(evm.balances, tx.from)
      requires available.value == Refundable(tx)
      modifies evm, available
      ensures evm.balances == Paid(old(evm.balances), FeePayments(chain, tx))
      ensures withheld == WithheldFee(tx) && available.value == Remaining(tx)
    {
      hide Paid, Affordable, SubmissionFee, FeePayments, Refundable, Get;
      ghost var b := evm.balances;
      var fee := SubmissionFee(tx);
      ghost var first := Payment(tx.from, chain.network, fee);
      FeePaymentsInOrder(chain, tx, b);
      MustTransfer(tx.from, chain.network, fee, b, []);
      var take := new BigInt(fee);
      withheld := TakeFunds(available, take);
      take := new BigInt(tx.maxFee - fee);
      var refund := TakeFunds(available, take);
      MustTransfer(tx.from, tx.refundTo, refund, b, [first]);
    }

    /** Gives the submission fee back to the sender, and passes what the deposit covered of it on. */
    method ReturnFee(tx: Submission, withheld: nat, ghost b: Ledger)
      requires SubmissionFee(tx) <= tx.maxFee <= Get(b, tx.from)
      requires evm.balances == Paid(b, FeePayments(chain, tx))
      requires withheld == WithheldFee(tx)
      modifies evm
      ensures evm.balances == Paid(b, FeePayments(chain, tx) + ReturnedFee(chain, tx))
    {
      ghost var paid := FeePayments(chain, tx);
      ghost var first, second := Payment(chain.network, tx.from, SubmissionFee(tx)),
          Payment(tx.from, tx.refundTo, withheld);
      ReturnAffordable(chain, tx, b);
      PaidNext(b, paid + [first], second);
      assert paid + [first] + [second] == paid + ReturnedFee(chain, tx);
      hide Paid, Affordable, FeePayments, ReturnedFee, WithheldFee;
      MustTransfer(chain.network, tx.from, SubmissionFee(tx), b, paid);
      MustTransfer(tx.from, tx.refundTo, withheld, b, paid + [first]);
    }

    /** Pays for the gas out of one amount: the infrastructure's share is taken from it and the rest is the
        network's. */
    method PayGas(tx: Submission, gasCost: BigInt, ghost b: Ledger, ghost paid: seq<Payment>)
      requires SubmissionFee(tx) <= tx.maxFee && gasCost.value == GasCost(chain, tx)
      requires evm.balances == Paid(b, paid) && Affordable(b, paid + GasPayments(chain, tx))
      modifies evm, gasCost
      ensures evm.balances == Paid(b, paid + InfraPayment(chain, tx) + NetworkPayment(chain, tx))
      ensures gasCost.value == NetworkCost(chain, tx)
    {
      hide Paid, Affordable, GasPayments, GasCost, InfraPriced, SubmissionFee;
      ghost var infraPaid := paid + InfraPayment(chain, tx);
      ghost var gasPaid := infraPaid + NetworkPayment(chain, tx);
      GasPaymentsInOrder(chain, tx, b, paid);
      var networkCost := gasCost;
      if chain.version >= 11 {
        if chain.infra != 0 {
          var share := new BigInt(InfraPriced(chain, tx));
          var infraCost := TakeFunds(networkCost, share);
          MustTransfer(tx.from, chain.infra, infraCost, b, paid);
        }
      }
      assert networkCost.value == NetworkCost(chain, tx);
      assert paid + [] == paid && infraPaid + [] == infraPaid;
      assert evm.balances == Paid(b, infraPaid);
      if networkCost.value > 0 {
        MustTransfer(tx.from, chain.network, networkCost.value, b, infraPaid);
      }
    }

    /** Refunds what the first redeem would have cost, when there is none. */
    method SkipRedeem(tx: Submission, available: BigInt, ghost b: Ledger)
      requires SubmissionFee(tx) <= tx.maxFee && available.value == Remaining(tx)
      requires evm.balances == Paid(b, Ticket(chain, tx))
      requires Affordable(b, Ticket(chain, tx) + [Payment(tx.from, tx.refundTo, TicketRefund(tx))])
      modifies evm, available
      ensures evm.balances == Paid(b, Ticket(chain, tx) + [Payment(tx.from, tx.refundTo, TicketRefund(tx))])
    {
      hide Paid, Affordable, Ticket, SubmissionFee, Remaining;
      var take := new BigInt(tx.gasFeeCap * tx.gas);
      var refund := TakeFunds(available, take);
      MustTransfer(tx.from, tx.refundTo, refund, b, Ticket(chain, tx));
    }

    /** Pays for the first redeem and refunds the price difference; the result is what the redeem may refund. */
    method ScheduleRedeem(tx: Submission, available: BigInt, withheld: nat, ghost b: Ledger) returns (maxRefund: nat)
      requires SubmissionFee(tx) <= tx.maxFee && available.value == Remaining(tx) && withheld == WithheldFee(tx)
      requires evm.balances == Paid(b, Ticket(chain, tx))
      requires Affordable(b, Ticket(chain, tx) + GasPayments(chain, tx))
      modifies evm, available
      ensures evm.balances == Paid(b, Ticket(chain, tx) + GasPayments(chain, tx))
      ensures maxRefund == Refundable(tx) - FeeRefund(tx) - PriceRefund(chain, tx)
    {
      hide Paid, Affordable, Ticket, SubmissionFee, GasPayments, InfraPayment, NetworkPayment, NetworkCost, FeeRefund;
      hide WithheldFee, GasCost, PriceDifference, Refundable;
      ghost var paid := Ticket(chain, tx) + InfraPayment(chain, tx) + NetworkPayment(chain, tx);
      LastGasPayment(chain, tx, b, Ticket(chain, tx));
      var gasCost := new BigInt(GasCost(chain, tx));
      PayGas(tx, gasCost, b, Ticket(chain, tx));
      var withheldGas := TakeFunds(available, gasCost);
      var take := new BigInt(PriceDifference(chain, tx));
      var refund := TakeFunds(available, take);
      MustTransfer(tx.from, tx.refundTo, refund, b, paid);
      available.value := available.value + withheldGas;
      available.value := available.value + withheld;
      return available.value;
    }

    /** Everything a submission does once the deposit is minted. */
    method Charge(tx: Submission, available: BigInt) returns (outcome: Outcome)
      requires tx.deposit <= Get(evm.balances, tx.from) && available.value == Refundable(tx)
      modifies evm, available
      ensures outcome == Submit(chain, tx, old(evm.balances)).0
      ensures evm.balances == Paid(old(evm.balances), Submit(chain, tx, old(evm.balances)).1)
    {
      hide Paid, Affordable, FeePayments, Ticket, GasPayments, SubmissionFee, ReturnedFee;
      hide Remaining, Refundable, WithheldFee, FeeRefund, PriceRefund, TicketRefund, Move, Get;
      ghost var b := evm.balances;
      SubmissionAffordable(chain, tx, b);
      PaidTicket(chain, tx, b);

      // check that the sender has enough for the maximal fee
      if Get(evm.balances, tx.from) < tx.maxFee {
        return CannotCoverMaxFee;
      }
      var fee := SubmissionFee(tx);
      if tx.maxFee < fee {
        return MaxFeeTooLow;
      }
      var withheld := CollectFee(tx, available);
      // move the call value into escrow
      var ok := evm.Transfer(tx.from, tx.escrow, tx.retryValue);
      if !ok {
        ReturnFee(tx, withheld, b);
        return CannotCoverCallValue;
      }
      var maxGasCost := tx.gasFeeCap * tx.gas;
      var tooLow := tx.gasFeeCap < EffectiveBaseFee(chain, tx);
      if Get(evm.balances, tx.from) < maxGasCost || tx.gas < MIN_TX_GAS || tooLow {
        SkipRedeem(tx, available, b);
        return TicketOnly;
      }
      var maxRefund := ScheduleRedeem(tx, available, withheld, b);
      return Redeem(maxRefund, fee);
    }

    method SubmitRetryable(tx: Submission) returns (outcome: Outcome)
      modifies evm
      ensures var minted := Credit(old(evm.balances), tx.from, tx.deposit);
              && outcome == Submit(chain, tx, minted).0
              && evm.balances == Paid(minted, Submit(chain, tx, minted).1)
      ensures Total(evm.balances) == Total(old(evm.balances)) + tx.deposit
    {
      SubmissionMintsDeposit(chain, tx, evm.balances);
      hide Submit, Paid, Total;
      var available := new BigInt(tx.deposit);
      var take := new BigInt(tx.retryValue);
      var _ := TakeFunds(available, take);
      evm.Mint(tx.from, tx.deposit);
      outcome := Charge(tx, available);
    }

    // ----- Redeeming a ticket -----

    method StartRetry(tx: RetryTx.Retry) returns (ok: bool)
      modifies evm
      ensures var started := RetryTx.Start(chain, tx, old(evm.balances));
              && ok == started.Some?
              && evm.balances == if ok then started.value else old(evm.balances)
    {
      ok := evm.Transfer(tx.escrow, tx.from, tx.value);
      if ok {
        evm.Mint(tx.from, chain.baseFee * tx.gas);
      }
    }

    /** Refunds an amount; a fee account that cannot pay gives no refund. */
    method Refund(tx: RetryTx.Retry, payer: Address, maxRefund: BigInt, amount: nat)
      modifies evm, maxRefund
      ensures evm.balances == Paid(old(evm.balances), RetryTx.Refund(tx, payer, old(maxRefund.value), amount))
      ensures maxRefund.value == old(maxRefund.value) - Min(old(maxRefund.value), amount)
    {
      ghost var b := evm.balances;
      var take := new BigInt(amount);
      var toRefundTo := TakeFunds(maxRefund, take);
      ghost var first, second := Payment(payer, tx.refundTo, toRefundTo), Payment(payer, tx.from, amount - toRefundTo);
      PaidNext(b, [], first);
      PaidNext(b, [first], second);
      assert [] + [first] == [first] && [first] + [second] == [first, second] && Paid(b, []) == b;
      hide Paid;
      var _ := evm.Transfer(payer, tx.refundTo, toRefundTo);
      var _ := evm.Transfer(payer, tx.from, amount - toRefundTo);
    }

    /** Refunds the unused gas out of one amount: the infrastructure's share is taken from it and the rest is the
        network's. */
    method RefundGas(tx: RetryTx.Retry, gasLeft: nat, gasRefund: BigInt, maxRefund: BigInt)
      requires gasLeft <= tx.gas && gasRefund != maxRefund
      requires gasRefund.value == RetryTx.GasRefund(chain, tx, gasLeft)
      requires maxRefund.value == RetryTx.PoolAfterCharges(chain, tx, gasLeft)
      modifies evm, gasRefund, maxRefund
      ensures evm.balances == Paid(Paid(old(evm.balances), RetryTx.InfraBack(chain, tx, gasLeft)),
                                   RetryTx.NetworkBack(chain, tx, gasLeft))
    {
      hide Paid, RetryTx.Refund, RetryTx.GasRefund, RetryTx.InfraPart, RetryTx.PoolAfterCharges;
      ghost var b := evm.balances;
      PaidNothing(b);
      var networkRefund := gasRefund;
      if chain.version >= 11 {
        if chain.infra != 0 {
          var share := new BigInt(RetryTx.InfraPart(chain, tx, gasLeft));
          var infraRefund := TakeFunds(networkRefund, share);
          Refund(tx, chain.infra, maxRefund, infraRefund);
        }
      }
      Refund(tx, chain.network, maxRefund, networkRefund.value);
    }

    /** Everything refunded after a redeem. */
    method RefundAll(tx: RetryTx.Retry, gasLeft: nat, success: bool, gasRefund: BigInt)
      requires gasLeft <= tx.gas && gasRefund.value == RetryTx.GasRefund(chain, tx, gasLeft)
      modifies evm, gasRefund
      ensures evm.balances == Paid(old(evm.balances), RetryTx.Refunds(chain, tx, gasLeft, success))
    {
      ghost var b := evm.balances;
      RefundsInOrder(chain, tx, b, gasLeft, success);
      hide Paid, RetryTx.Refunds, RetryTx.Refund, RetryTx.GasRefund, RetryTx.GasUsedCost;
      hide RetryTx.InfraBack, RetryTx.NetworkBack;
      var maxRefund := new BigInt(tx.maxRefund);
      if success {
        // refund the submission fee
        Refund(tx, chain.network, maxRefund, tx.submissionFee);
      } else {
        // the fee is still taken from the deposit
        var fee := new BigInt(tx.submissionFee);
        var _ := TakeFunds(maxRefund, fee);
      }
      var used := new BigInt(RetryTx.GasUsedCost(chain, tx, gasLeft));
      var _ := TakeFunds(maxRefund, used);
      RefundGas(tx, gasLeft, gasRefund, maxRefund);
    }

    /** Settles a redeem; the node stops if the call value cannot be returned to escrow. */
    method EndRetry(tx: RetryTx.Retry, gasLeft: nat, success: bool) returns (ok: bool)
      requires gasLeft <= tx.gas
      modifies evm
      ensures var ended := RetryTx.End(chain, tx, old(evm.balances), gasLeft, success);
              && ok == ended.Some?
              && (ok ==> evm.balances == ended.value)
    {
      hide Paid, RetryTx.Refunds, RetryTx.GasRefund;
      // undo the refund of the unused gas to the sender
      var gasRefund := new BigInt(RetryTx.GasRefund(chain, tx, gasLeft));
      var _ := evm.Burn(tx.from, gasRefund.value);
      RefundAll(tx, gasLeft, success, gasRefund);
      if success {
        if tx.beneficiary.Some? {
          var _ := evm.Transfer(tx.escrow, tx.beneficiary.value, Get(evm.balances, tx.escrow));
        }
        return true;
      }
      ok := evm.Transfer(tx.from, tx.escrow, tx.value);
    }

    // ----- Ordinary transactions -----

    /** The gas that pays for the poster's costs; nothing if the price is zero, which stops the node. */
    method GetPosterGas(charge: Charge) returns (gas: Option<nat>)
      ensures gas == if GasPrice(chain, charge.mode) == 0 then None
                     else Some(GasFor(PaddedCost(charge), GasPrice(chain, charge.mode)))
    {
      hide GasFor, Congested, Padded;
      var price, cost := chain.baseFee, charge.posterCost;
      if charge.mode.Estimation? {
        price := Congested(price);
        if price < chain.minBaseFee {
          price := chain.minBaseFee;
        }
        cost := Padded(cost);
      }
      return if price == 0 then None else Some(GasFor(cost, price));
    }

    /** Works out the poster's gas, and how much of the rest may be used. */
    method GasChargingHook(charge: Charge, gasRemaining: nat) returns (charged: Charged)
      requires posterGas == 0 && posterFee == 0 && computeHoldGas == 0
      modifies this
      ensures charged == ChargeGas(chain, charge, gasRemaining)
      ensures !charged.DivisionByZero? ==> posterGas == charged.posterGas && posterFee == chain.baseFee * posterGas
      ensures charged.Started? ==> computeHoldGas == charged.held
      ensures l1FeesAvailable == old(l1FeesAvailable)
    {
      hide GasPrice, PaddedCost, GasFor;
      if chain.baseFee > 0 && (charge.mode.Commit? || !charge.skip) {
        var gas := GetPosterGas(charge);
        if gas.None? {
          return DivisionByZero;
        }
        posterGas := gas.value;
        posterFee := chain.baseFee * posterGas;
      }
      assert posterGas == PosterGas(chain, charge);
      hide PosterGas;
      if gasRemaining < posterGas {
        return IntrinsicGas(posterGas);
      }
      var left := gasRemaining - posterGas;
      if !charge.mode.EthCall? {
        if left > charge.gasLimitPerBlock {
          computeHoldGas := left - charge.gasLimitPerBlock;
          left := charge.gasLimitPerBlock;
        }
      }
      return Started(posterGas, left, computeHoldGas);
    }

    /** Hands out what the sender paid for the gas; the money minted is exactly the base fee of the gas used. */
    method EndTx(gasUsed: nat, coinbase: Address, pool: Address)
      requires posterFee == chain.baseFee * posterGas
      modifies this, evm
      ensures posterFee == PosterShare(chain, gasUsed, old(posterFee)) && posterGas == old(posterGas)
      ensures var b := old(evm.balances);
              var b1 := if chain.version > 4 && chain.infra != 0
                        then Credit(b, chain.infra, InfraShare(chain, gasUsed, posterGas)) else b;
              var network := NetworkShare(chain, gasUsed, posterGas, old(posterFee));
              var b2 := if network > 0 then Credit(b1, chain.network, network) else b1;
              evm.balances == Credit(b2, if chain.version < 2 then coinbase else pool, posterFee)
      ensures Total(evm.balances) == Total(old(evm.balances)) + TotalCost(chain, gasUsed)
      ensures l1FeesAvailable == old(l1FeesAvailable) + if chain.version >= 10 then posterFee else 0
    {
      hide Total, NetworkShare, PosterShare, InfraShare, TotalCost;
      ghost var whole := posterFee;
      FeesAddUp(chain, gasUsed, posterGas);
      SharesAre(chain, gasUsed, posterGas, posterFee);
      var totalCost := TotalCost(chain, gasUsed);
      var computeCost := totalCost - posterFee;
      if computeCost < 0 {
        posterFee := 0;
        computeCost := totalCost;
      }
      if chain.version > 4 {
        if chain.infra != 0 {
          var computeGas := if gasUsed < posterGas then 0 else gasUsed - posterGas;
          var infraCost := Min(chain.minBaseFee, chain.baseFee) * computeGas;
          assert infraCost == InfraShare(chain, gasUsed, posterGas);
          evm.Mint(chain.infra, infraCost);
          computeCost := computeCost - infraCost;
        }
      }
      if computeCost > 0 {
        evm.Mint(chain.network, computeCost);
      }
      evm.Mint(if chain.version < 2 then coinbase else pool, posterFee);
      if chain.version >= 10 {
        l1FeesAvailable := l1FeesAvailable + posterFee;
      }
    }
  }

  lemma SharesAre(chain: Chain, gasUsed: nat, posterGas: nat, posterFee: nat)
    ensures PosterShare(chain, gasUsed, posterFee) == if TotalCost(chain, gasUsed) < posterFee then 0 else posterFee
    ensures InfraShare(chain, gasUsed, posterGas) ==
            if chain.version > 4 && chain.infra != 0
            then Min(chain.minBaseFee, chain.baseFee) * (if gasUsed < posterGas then 0 else gasUsed - posterGas) else 0
    ensures NetworkShare(chain, gasUsed, posterGas, posterFee) ==
            Max(TotalCost(chain, gasUsed) - PosterShare(chain, gasUsed, posterFee) -
                InfraShare(chain, gasUsed, posterGas), 0)
  {
    hide TotalCost;
  }

  lemma LastGasPayment(chain: Chain, tx: Submission, b: Ledger, ps: seq<Payment>)
    requires SubmissionFee(tx) <= tx.maxFee
    ensures ps + GasPayments(chain, tx) ==
            ps + InfraPayment(chain, tx) + NetworkPayment(chain, tx) +
                [Payment(tx.from, tx.refundTo, PriceRefund(chain, tx))]
  {
  }

  lemma PaidNothing(b: Ledger)
    ensures Paid(b, []) == b
  {
  }

  lemma RefundsInOrder(chain: Chain, tx: RetryTx.Retry, b: Ledger, gasLeft: nat, success: bool)
    requires gasLeft <= tx.gas
    ensures var fee, infra := RetryTx.FeeBack(chain, tx, success), RetryTx.InfraBack(chain, tx, gasLeft);
            var network := RetryTx.NetworkBack(chain, tx, gasLeft);
            && Paid(b, []) == b
            && (!HasInfra(chain) ==> Paid(Paid(b, fee), infra) == Paid(b, fee))
            && Paid(b, RetryTx.Refunds(chain, tx, gasLeft, success)) == Paid(Paid(Paid(b, fee), infra), network)
  {
    var fee, infra := RetryTx.FeeBack(chain, tx, success), RetryTx.InfraBack(chain, tx, gasLeft);
    var network := RetryTx.NetworkBack(chain, tx, gasLeft);
    PaidTogether(b, fee + infra, network);
    PaidTogether(b, fee, infra);
  }

  lemma PaidTicket(chain: Chain, tx: Submission, b: Ledger)
    ensures Paid(b, []) == b
    ensures SubmissionFee(tx) <= tx.maxFee ==>
              Paid(b, Ticket(chain, tx)) ==
                  Pay(Paid(b, FeePayments(chain, tx)), Payment(tx.from, tx.escrow, tx.retryValue))
  {
    if SubmissionFee(tx) <= tx.maxFee {
      PaidNext(b, FeePayments(chain, tx), Payment(tx.from, tx.escrow, tx.retryValue));
    }
  }

  lemma FeePaymentsInOrder(chain: Chain, tx: Submission, b: Ledger)
    requires SubmissionFee(tx) <= tx.maxFee <= Get(b, tx.from)
    ensures var first, second := Payment(tx.from, chain.network, SubmissionFee(tx)),
        Payment(tx.from, tx.refundTo, FeeRefund(tx));
            && Paid(b, []) == b
            && Paid(b, [] + [first]) == Paid(b, [first]) && Affordable(b, [] + [first])
            && Paid(b, [first] + [second]) == Paid(b, FeePayments(chain, tx)) && Affordable(b, [first] + [second])
  {
    var first, second := Payment(tx.from, chain.network, SubmissionFee(tx)),
        Payment(tx.from, tx.refundTo, FeeRefund(tx));
    FeesAffordable(chain, tx, b);
    PaidNext(b, [first], second);
    assert [first] + [second] == FeePayments(chain, tx) && [] + [first] == [first];
    hide Paid;
  }

  lemma GasPaymentsInOrder(chain: Chain, tx: Submission, b: Ledger, paid: seq<Payment>)
    requires SubmissionFee(tx) <= tx.maxFee
    requires Affordable(b, paid + GasPayments(chain, tx))
    ensures Affordable(b, paid + InfraPayment(chain, tx))
    ensures Affordable(b, paid + InfraPayment(chain, tx) + NetworkPayment(chain, tx))
  {
    var refund := Payment(tx.from, tx.refundTo, PriceRefund(chain, tx));
    var gasPaid := paid + InfraPayment(chain, tx) + NetworkPayment(chain, tx);
    assert paid + GasPayments(chain, tx) == gasPaid + [refund];
    PaidNext(b, gasPaid, refund);
    hide GasPayments;
    if NetworkPayment(chain, tx) == [] {
      assert gasPaid == paid + InfraPayment(chain, tx);
    } else {
      PaidNext(b, paid + InfraPayment(chain, tx), NetworkPayment(chain, tx)[0]);
    }
  }
}

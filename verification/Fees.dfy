/** Gas charged for the poster's costs on the parent chain, and the fees of an ordinary transaction. */
module Fees {
  import opened Types
  import opened Balances
  import opened Retryables

  datatype Mode = Commit | Estimation | EthCall

  /** What the calldata of a transaction costs its poster, in wei. */
  datatype Charge = Charge(mode: Mode, skip: bool, posterCost: nat, gasLimitPerBlock: nat)

  datatype Charged =
    | DivisionByZero
    | IntrinsicGas(posterGas: nat)
    | Started(posterGas: nat, left: nat, held: nat)

  function Saturated(x: nat): nat {
    Min(x, MAX_U64)
  }

  /** How much gas at a price pays for a cost, rounded down. */
  function GasFor(cost: nat, price: nat): nat
    requires price > 0
  {
    Saturated(cost / price)
  }

  function Congested(fee: nat): nat {
    fee * 7 / 8
  }

  function Padded(cost: nat): nat {
    cost * 11000 / 10000
  }

  /** When estimating, the price is lowered and the cost raised, to leave room for the prices to move. */
  function GasPrice(chain: Chain, mode: Mode): nat {
    if mode.Estimation? then Max(Congested(chain.baseFee), chain.minBaseFee) else chain.baseFee
  }

  function PaddedCost(charge: Charge): nat {
    if charge.mode.Estimation? then Padded(charge.posterCost) else charge.posterCost
  }

  predicate ChargesPoster(chain: Chain, charge: Charge) {
    chain.baseFee > 0 && (charge.mode.Commit? || !charge.skip)
  }

  function PosterGas(chain: Chain, charge: Charge): nat
    requires ChargesPoster(chain, charge) ==> GasPrice(chain, charge.mode) > 0
  {
    if ChargesPoster(chain, charge) then GasFor(PaddedCost(charge), GasPrice(chain, charge.mode)) else 0
  }

  /** Charges the poster's gas, and holds back what exceeds the limit per block. */
  function ChargeGas(chain: Chain, charge: Charge, gas: nat): Charged {
    if ChargesPoster(chain, charge) && GasPrice(chain, charge.mode) == 0 then DivisionByZero
    else
      var posterGas := PosterGas(chain, charge);
      if gas < posterGas then IntrinsicGas(posterGas)
      else
        var rest := gas - posterGas;
        if !charge.mode.EthCall? && rest > charge.gasLimitPerBlock
        then Started(posterGas, charge.gasLimitPerBlock, rest - charge.gasLimitPerBlock)
        else Started(posterGas, rest, 0)
  }

  /** The gas a transaction brings is what it may use, what the poster is owed and what is held, to be given back. */
  lemma GasIsSplit(chain: Chain, charge: Charge, gas: nat)
    ensures var charged := ChargeGas(chain, charge, gas);
            charged.Started? ==>
              && gas == charged.left + charged.posterGas + charged.held
              && (charged.held > 0 ==> charged.left == charge.gasLimitPerBlock)
              && (!charge.mode.EthCall? ==> charged.left <= charge.gasLimitPerBlock)
  {
  }

  /** Rounding down costs the poster less than the price of one gas, unless the gas does not fit. */
  lemma PosterIsCovered(chain: Chain, charge: Charge, gas: nat)
    requires charge.mode.Commit? && chain.baseFee > 0
    ensures var charged := ChargeGas(chain, charge, gas);
            && !charged.DivisionByZero?
            && chain.baseFee * charged.posterGas <= charge.posterCost
            && (charged.posterGas < MAX_U64 ==> charge.posterCost < chain.baseFee * (charged.posterGas + 1))
  {
    var q, r := charge.posterCost / chain.baseFee, charge.posterCost % chain.baseFee;
    assert charge.posterCost == chain.baseFee * q + r;
    if q > MAX_U64 {
      assert chain.baseFee * MAX_U64 <= chain.baseFee * q;
    }
  }

  /**
   * How charging goes, exactly. Nothing is charged at a base fee of zero, or when a call or an estimate skips it; a
   * transaction cannot skip it. Otherwise the poster's gas is the most that the cost pays for at the price, as far as
   * it fits, and the transaction starts exactly if it brings that much.
   */
  lemma OutcomeOfCharge(chain: Chain, charge: Charge, gas: nat)
    ensures var (charged, price) := (ChargeGas(chain, charge, gas), GasPrice(chain, charge.mode));
            if chain.baseFee == 0 || (charge.skip && !charge.mode.Commit?) then
              charged.Started? && charged.posterGas == 0
            else if price == 0 then charged.DivisionByZero?
            else
              && !charged.DivisionByZero?
              && price * charged.posterGas <= PaddedCost(charge)
              && (charged.posterGas < MAX_U64 ==> PaddedCost(charge) < price * (charged.posterGas + 1))
              && charged.posterGas <= MAX_U64
              && (charged.Started? <==> charged.posterGas <= gas)
  {
    var price, cost := GasPrice(chain, charge.mode), PaddedCost(charge);
    if price > 0 {
      var q, r := cost / price, cost % price;
      assert cost == price * q + r;
      Larger(price, Saturated(q), q);
    }
    hide GasPrice, PaddedCost;
  }

  lemma Larger(price: nat, a: nat, b: nat)
    requires a <= b
    ensures price * a <= price * b && a * price <= b * price
  {
  }

  lemma QuotientIsMost(cost: nat, price: nat, q: nat)
    requires price > 0 && price * q <= cost
    ensures q <= cost / price
  {
    var h := cost / price;
    assert cost < price * h + price == price * (h + 1);
    if h + 1 <= q {
      Larger(price, h + 1, q);
      assert false;
    }
  }

  lemma Quotients(cost: nat, price: nat, higherCost: nat, lowerPrice: nat)
    requires cost <= higherCost && 0 < lowerPrice <= price
    ensures cost / price <= higherCost / lowerPrice
  {
    var q, r := cost / price, cost % price;
    assert cost == price * q + r;
    Larger(q, lowerPrice, price);
    assert lowerPrice * q <= higherCost;
    QuotientIsMost(higherCost, lowerPrice, q);
  }

  /**
   * An estimate of the poster's gas holds good later: whatever is then charged, as long as the price has not fallen
   * below seven eighths or, if that is more, the minimum, and the cost has not risen by more than a tenth.
   */
  lemma EstimateCovers(chain: Chain, charge: Charge, later: Chain, cost: nat)
    requires charge.mode.Estimation? && !charge.skip && chain.baseFee > 0
    requires later.baseFee > 0 && chain.minBaseFee <= later.baseFee && chain.baseFee * 7 / 8 <= later.baseFee
    requires cost * 10 <= charge.posterCost * 11
    requires chain.minBaseFee > 0 || chain.baseFee > 1
    ensures PosterGas(later, charge.(mode := Commit, posterCost := cost)) <= PosterGas(chain, charge)
  {
    Quotients(cost, later.baseFee, Padded(charge.posterCost), GasPrice(chain, charge.mode));
  }

  /** In particular nothing more is charged at once, if the price is at or above the minimum. */
  lemma EstimateIsEnough(chain: Chain, charge: Charge)
    requires charge.mode.Estimation? && !charge.skip
    requires 0 < chain.baseFee && chain.minBaseFee <= chain.baseFee && (chain.minBaseFee > 0 || chain.baseFee > 1)
    ensures PosterGas(chain, charge.(mode := Commit)) <= PosterGas(chain, charge)
  {
    EstimateCovers(chain, charge, chain, charge.posterCost);
  }

  // ----- The fees of an ordinary transaction -----

  function TotalCost(chain: Chain, gasUsed: nat): nat {
    chain.baseFee * gasUsed
  }

  /** If the cost does not cover the poster's fee, the poster gets nothing. */
  function PosterShare(chain: Chain, gasUsed: nat, posterFee: nat): nat {
    if TotalCost(chain, gasUsed) < posterFee then 0 else posterFee
  }

  /** The infrastructure's part of the base fee. */
  function InfraPrice(chain: Chain): nat {
    if chain.version > 4 && chain.infra != 0 then Min(chain.minBaseFee, chain.baseFee) else 0
  }

  function InfraShare(chain: Chain, gasUsed: nat, posterGas: nat): nat {
    InfraPrice(chain) * if gasUsed < posterGas then 0 else gasUsed - posterGas
  }

  /** The rest goes to the network, if there is a rest. */
  function NetworkShare(chain: Chain, gasUsed: nat, posterGas: nat, posterFee: nat): nat {
    Max(TotalCost(chain, gasUsed) - PosterShare(chain, gasUsed, posterFee) - InfraShare(chain, gasUsed, posterGas), 0)
  }

  lemma Distributes(price: nat, infraPrice: nat, posterGas: nat, computeGas: nat)
    requires infraPrice <= price
    ensures price * (posterGas + computeGas) == price * posterGas + price * computeGas
    ensures (price - infraPrice) * computeGas == price * computeGas - infraPrice * computeGas >= 0
  {
  }

  /** The sender's base fee for the gas used is exactly what the poster, the infrastructure and the network get. */
  lemma FeesAddUp(chain: Chain, gasUsed: nat, posterGas: nat)
    ensures var posterFee := chain.baseFee * posterGas;
            && PosterShare(chain, gasUsed, posterFee) + InfraShare(chain, gasUsed, posterGas) +
               NetworkShare(chain, gasUsed, posterGas, posterFee) == TotalCost(chain, gasUsed)
            && (posterGas <= gasUsed ==>
                 && PosterShare(chain, gasUsed, posterFee) == posterFee
                 && NetworkShare(chain, gasUsed, posterGas, posterFee) ==
                      (chain.baseFee - InfraPrice(chain)) * (gasUsed - posterGas))
  {
    if posterGas <= gasUsed {
      Distributes(chain.baseFee, InfraPrice(chain), posterGas, gasUsed - posterGas);
    } else {
      Distributes(chain.baseFee, 0, gasUsed, posterGas - gasUsed);
      assert InfraShare(chain, gasUsed, posterGas) == 0;
    }
    hide InfraPrice;
  }

  /** Who gets what of a transaction that used at least the poster's gas: the poster the base fee for its gas, and for
      the rest the infrastructure account, if there is one, the minimum fee, and the network what is above it. */
  lemma WhoIsPaid(chain: Chain, gasUsed: nat, posterGas: nat)
    requires posterGas <= gasUsed
    ensures var (posterFee, computeGas) := (chain.baseFee * posterGas, gasUsed - posterGas);
            var (infra, network) := (InfraShare(chain, gasUsed, posterGas),
                                     NetworkShare(chain, gasUsed, posterGas, posterFee));
            && PosterShare(chain, gasUsed, posterFee) == posterFee
            && if chain.version >= 5 && chain.infra != 0 && chain.minBaseFee < chain.baseFee then
                 infra == chain.minBaseFee * computeGas && network == (chain.baseFee - chain.minBaseFee) * computeGas
               else if chain.version >= 5 && chain.infra != 0 then infra == chain.baseFee * computeGas && network == 0
               else infra == 0 && network == chain.baseFee * computeGas
  {
    FeesAddUp(chain, gasUsed, posterGas);
    hide NetworkShare, PosterShare;
  }

  /** From charging to the end: all that execution can give back leaves the poster's gas used, so the poster is paid. */
  lemma PosterIsPaid(chain: Chain, charge: Charge, gas: nat, gasLeft: nat)
    requires ChargeGas(chain, charge, gas).Started?
    requires var charged := ChargeGas(chain, charge, gas); gasLeft <= charged.left + charged.held
    ensures var posterGas := ChargeGas(chain, charge, gas).posterGas;
            && PosterShare(chain, gas - gasLeft, chain.baseFee * posterGas) == chain.baseFee * posterGas
            && chain.baseFee * posterGas + InfraShare(chain, gas - gasLeft, posterGas) +
               NetworkShare(chain, gas - gasLeft, posterGas, chain.baseFee * posterGas) ==
                   chain.baseFee * (gas - gasLeft)
  {
    GasIsSplit(chain, charge, gas);
    FeesAddUp(chain, gas - gasLeft, ChargeGas(chain, charge, gas).posterGas);
  }
}

/** Fee arithmetic of the sweep script: the fee paid for a gas budget, the
    per-kind fallback gas and the per-kind gas escalation applied after an
    out-of-gas rejection. Python's float products are modelled as exact
    rationals: 0.005 = 1/200, 1.2 = 6/5, 1.1 = 11/10. */
module Fees {

  /** The two transaction kinds the sweep submits. */
  datatype TxKind = Withdraw | Send

  /** GAS_PRICE = 0.005 uatom per gas unit, as the fraction 1/200. */
  const GasPriceNumerator: nat := 1
  const GasPriceDenominator: nat := 200

  /** `calculate_fees`: `int(gas * GAS_PRICE) + 1`. The fee is the least whole
      number of uatom strictly above the exact price of the gas. */
  function Fee(gas: nat): (fee: nat)
    ensures fee >= 1
    ensures (fee - 1) * GasPriceDenominator <= gas * GasPriceNumerator
    ensures gas * GasPriceNumerator < fee * GasPriceDenominator
  {
    gas * GasPriceNumerator / GasPriceDenominator + 1
  }

  /** A larger gas budget never costs a smaller fee. */
  lemma FeeMonotone(a: nat, b: nat)
    requires a <= b
    ensures Fee(a) <= Fee(b)
  {
  }

  /** The gas used when the estimator cannot produce a value. */
  function FallbackGas(kind: TxKind): (gas: nat)
    ensures gas > 0
  {
    match kind
    case Withdraw => 900000
    case Send => 250000
  }

  /** Gas multiplier applied after an out-of-gas rejection, as a fraction
      (numerator, denominator): 1.2 for withdrawals, 1.1 for transfers. */
  function Multiplier(kind: TxKind): (nd: (nat, nat))
    ensures nd.1 > 0 && nd.0 > nd.1
  {
    match kind
    case Withdraw => (6, 5)
    case Send => (11, 10)
  }

  /** `int(gas * 1.2)` / `int(gas * 1.1)`: the gas scaled by the kind's
      multiplier and truncated. It never shrinks, and grows strictly once the
      budget is at least the multiplier's denominator. */
  function ScaleGas(kind: TxKind, gas: nat): (g: nat)
    ensures g >= gas
    ensures gas >= Multiplier(kind).1 ==> g > gas
  {
    match kind
    case Withdraw => gas * 6 / 5
    case Send => gas * 11 / 10
  }

  /** The scaled gas is the exact product with the kind's multiplier,
      truncated: the largest whole number not above it. */
  lemma ScaleGasTruncates(kind: TxKind, gas: nat)
    ensures var g := ScaleGas(kind, gas);
            var (num, den) := Multiplier(kind);
            g * den <= gas * num < (g + 1) * den
  {
  }
}

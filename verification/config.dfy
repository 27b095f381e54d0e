/** The configuration record of `config.py`, its default values, and
    `validate_config`, which lists every violated constraint in a fixed
    order. Environment overrides are not modelled: a configuration is any
    record, and `Defaults` is the one the environment leaves alone. */
module Config {
  import Fees
  import Allocator
  import Confirmation
  import Lifecycle
  import Sweep

  datatype Config = Config(
    gasPrice: real,
    numWallets: int,
    rpcNodes: seq<string>,
    minRewardsToWithdraw: int,
    minSendAmount: int,
    minBalanceRemain: int,
    maxBalanceRemain: int,
    minDelay: int,
    maxDelay: int,
    maxWithdrawAttempts: int,
    maxSendAttempts: int,
    txCheckRetries: int,
    txCheckWait: int,
    fallbackWithdrawGas: int,
    fallbackSendGas: int,
    withdrawGasMultiplier: real,
    sendGasMultiplier: real)

  /** The values `config.py` uses when no environment variable overrides them. */
  function Defaults(): Config {
    Config(
      gasPrice := 0.005,
      numWallets := 119,
      rpcNodes := [
        "https://cosmos-rpc.publicnode.com:443",
        "https://cosmos-rpc.polkachu.com:443",
        "https://cosmoshub-mainnet-rpc.itrocket.net"
      ],
      minRewardsToWithdraw := 700000,
      minSendAmount := 50000,
      minBalanceRemain := 15000,
      maxBalanceRemain := 25000,
      minDelay := 3600,
      maxDelay := 7200,
      maxWithdrawAttempts := 3,
      maxSendAttempts := 3,
      txCheckRetries := 10,
      txCheckWait := 30,
      fallbackWithdrawGas := 900000,
      fallbackSendGas := 250000,
      withdrawGasMultiplier := 1.2,
      sendGasMultiplier := 1.1)
  }

  /** The five complaints `validate_config` can make, carrying the offending
      values its messages quote. */
  datatype ConfigError =
    | WalletCountOutOfRange(numWallets: int)
    | GasPriceOutOfRange(gasPrice: real)
    | ReserveBandInverted(minRemain: int, maxRemain: int)
    | DelayBandInverted(minDelay: int, maxDelay: int)
    | NoRpcNodes

  /** The position of each check in `validate_config`. */
  function Rank(e: ConfigError): nat {
    match e
    case WalletCountOutOfRange(_) => 0
    case GasPriceOutOfRange(_) => 1
    case ReserveBandInverted(_, _) => 2
    case DelayBandInverted(_, _) => 3
    case NoRpcNodes => 4
  }

  /** The constraints, each stated positively. */
  predicate WalletCountOk(c: Config) { 1 <= c.numWallets <= 500 }
  predicate GasPriceOk(c: Config) { 0.0 < c.gasPrice <= 1.0 }
  predicate ReserveBandOk(c: Config) { c.minBalanceRemain < c.maxBalanceRemain }
  predicate DelayBandOk(c: Config) { c.minDelay < c.maxDelay }
  predicate HasRpcNodes(c: Config) { |c.rpcNodes| > 0 }

  predicate WellFormed(c: Config) {
    WalletCountOk(c) && GasPriceOk(c) && ReserveBandOk(c) && DelayBandOk(c) && HasRpcNodes(c)
  }

  /** Check number `k` of `validate_config` fails. */
  predicate CheckFails(c: Config, k: nat) {
    match k
    case 0 => c.numWallets < 1 || c.numWallets > 500
    case 1 => c.gasPrice <= 0.0 || c.gasPrice > 1.0
    case 2 => c.minBalanceRemain >= c.maxBalanceRemain
    case 3 => c.minDelay >= c.maxDelay
    case _ => |c.rpcNodes| == 0
  }

  /** The complaint check number `k` makes. */
  function Complaint(c: Config, k: nat): (e: ConfigError)
    requires k < 5
    ensures Rank(e) == k
  {
    match k
    case 0 => WalletCountOutOfRange(c.numWallets)
    case 1 => GasPriceOutOfRange(c.gasPrice)
    case 2 => ReserveBandInverted(c.minBalanceRemain, c.maxBalanceRemain)
    case 3 => DelayBandInverted(c.minDelay, c.maxDelay)
    case _ => NoRpcNodes
  }

  /** The complaints of checks `k` to 4, in check order: each failing check
      contributes its complaint, and nothing else appears. */
  function ComplaintsFrom(c: Config, k: nat): (errors: seq<ConfigError>)
    requires k <= 5
    ensures forall e :: e in errors ==> k <= Rank(e) < 5 && CheckFails(c, Rank(e)) && e == Complaint(c, Rank(e))
    ensures forall j :: k <= j < 5 && CheckFails(c, j) ==> Complaint(c, j) in errors
    ensures forall i, j :: 0 <= i < j < |errors| ==> Rank(errors[i]) < Rank(errors[j])
    decreases 5 - k
  {
    if k == 5 then []
    else
      var rest := ComplaintsFrom(c, k + 1);
      var errors := if CheckFails(c, k) then [Complaint(c, k)] + rest else rest;
      assert forall i :: 0 <= i < |rest| ==> rest[i] in rest;
      errors
  }

  /** `validate_config`: one complaint for each violated constraint, exactly
      the violated ones, in the order of the checks; no complaint at all
      exactly when the configuration is well formed. */
  function ValidateConfig(c: Config): (errors: seq<ConfigError>)
    ensures WalletCountOutOfRange(c.numWallets) in errors <==> !WalletCountOk(c)
    ensures GasPriceOutOfRange(c.gasPrice) in errors <==> !GasPriceOk(c)
    ensures ReserveBandInverted(c.minBalanceRemain, c.maxBalanceRemain) in errors <==> !ReserveBandOk(c)
    ensures DelayBandInverted(c.minDelay, c.maxDelay) in errors <==> !DelayBandOk(c)
    ensures NoRpcNodes in errors <==> !HasRpcNodes(c)
    ensures errors == [] <==> WellFormed(c)
    ensures forall i, j :: 0 <= i < j < |errors| ==> Rank(errors[i]) < Rank(errors[j])
  {
    var errors := ComplaintsFrom(c, 0);
    assert Complaint(c, 0) == WalletCountOutOfRange(c.numWallets);
    assert Complaint(c, 1) == GasPriceOutOfRange(c.gasPrice);
    assert Complaint(c, 2) == ReserveBandInverted(c.minBalanceRemain, c.maxBalanceRemain);
    assert Complaint(c, 3) == DelayBandInverted(c.minDelay, c.maxDelay);
    assert Complaint(c, 4) == NoRpcNodes;
    errors
  }

  /** Strictly increasing ranks below five allow at most five complaints. */
  lemma {:induction false} RankedListIsShort(errors: seq<ConfigError>)
    requires forall i, j :: 0 <= i < j < |errors| ==> Rank(errors[i]) < Rank(errors[j])
    ensures |errors| <= 5
  {
    if |errors| > 0 {
      RanksBoundPosition(errors, |errors| - 1);
    }
  }

  lemma {:induction false} RanksBoundPosition(errors: seq<ConfigError>, k: nat)
    requires k < |errors|
    requires forall i, j :: 0 <= i < j < |errors| ==> Rank(errors[i]) < Rank(errors[j])
    ensures Rank(errors[k]) >= k
  {
    if k > 0 {
      RanksBoundPosition(errors, k - 1);
    }
  }

  /** `validate_config` never reports more than five problems. */
  lemma AtMostFiveErrors(c: Config)
    ensures |ValidateConfig(c)| <= 5
  {
    RankedListIsShort(ValidateConfig(c));
  }

  /** The default configuration passes validation. */
  lemma DefaultsValidate()
    ensures ValidateConfig(Defaults()) == []
  {
    assert WellFormed(Defaults());
  }

  /** The sweep script hard-codes the defaults instead of reading the
      configuration: its gas price, wallet count, nodes, thresholds, reserve
      and delay bands, attempt limits, polling rounds, fallback gas and gas
      multipliers are the default values. */
  lemma ScriptUsesDefaults()
    ensures Defaults().gasPrice == Fees.GasPriceNumerator as real / Fees.GasPriceDenominator as real
    ensures Defaults().numWallets == Sweep.NumWallets
    ensures Defaults().rpcNodes == Sweep.RpcNodes
    ensures Defaults().minRewardsToWithdraw == Sweep.MinRewardsToWithdraw
    ensures Defaults().minSendAmount == Allocator.TransferFloor
    ensures Defaults().minBalanceRemain == Allocator.MinReserve
    ensures Defaults().maxBalanceRemain == Allocator.MaxReserve
    ensures Defaults().minDelay == Sweep.DelayMin && Defaults().maxDelay == Sweep.DelayMax
    ensures Defaults().maxWithdrawAttempts == Lifecycle.MaxAttempts == Defaults().maxSendAttempts
    ensures Defaults().txCheckRetries == Confirmation.DefaultRounds
    ensures Defaults().fallbackWithdrawGas == Fees.FallbackGas(Fees.Withdraw)
    ensures Defaults().fallbackSendGas == Fees.FallbackGas(Fees.Send)
    ensures Defaults().withdrawGasMultiplier == Fees.Multiplier(Fees.Withdraw).0 as real / Fees.Multiplier(Fees.Withdraw).1 as real
    ensures Defaults().sendGasMultiplier == Fees.Multiplier(Fees.Send).0 as real / Fees.Multiplier(Fees.Send).1 as real
  {
  }
}

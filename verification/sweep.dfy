/** `main` of the sweep script: choose each wallet's destination address,
    visit the wallets in shuffled order, and for each one decide whether to
    skip it, withdraw its rewards, transfer its surplus, and pause afterwards.
    Chain reads, probe runs and random draws are inputs: one `WalletScript`
    per wallet holds everything the chain and the random generator say while
    that wallet is processed. */
module Sweep {
  import opened Base
  import opened Fees
  import opened GasEstimate
  import opened Allocator
  import opened Confirmation
  import opened Lifecycle

  /** NUM_WALLETS of the script. */
  const NumWallets: nat := 119

  /** The script's three RPC nodes; polling queries each once per round. */
  const RpcNodes: seq<string> := [
    "https://cosmos-rpc.publicnode.com:443",
    "https://cosmos-rpc.polkachu.com:443",
    "https://cosmoshub-mainnet-rpc.itrocket.net"
  ]

  /** The gas probes are run with their default of five retries. */
  const EstimateRetries: int := 5

  /** Rewards below this many uatom are left unclaimed. */
  const MinRewardsToWithdraw: int := 700000

  /** The pause after a wallet where something happened, in seconds. */
  const DelayMin: int := 3600
  const DelayMax: int := 7200

  /** Polling one submission against the script's nodes asks at most thirty
      times: ten rounds of three nodes. */
  lemma PollingIsBounded(txHash: string, replies: seq<TxReply>)
    ensures CheckTransactionSpec(txHash, |RpcNodes|, DefaultRounds, replies).queries <= 30
  {
  }

  // ---------------------------------------------------------------------
  // Destination planning
  // ---------------------------------------------------------------------

  datatype Exchange = Okx | Bitget

  /** Where a wallet's surplus goes. */
  datatype Target = Target(exchange: Exchange, address: string)

  /** The three refusals before any wallet is touched. */
  datatype SetupError = NoWalletFiles | TooFewAddresses | NoUsableFile

  datatype Plan = Planned(targets: seq<Target>) | Refused(error: SetupError)

  function AddressList(e: Exchange, okx: seq<string>, bitget: seq<string>): seq<string> {
    match e
    case Okx => okx
    case Bitget => bitget
  }

  /** An address file is usable when it is non-empty and has an address for
      every wallet. */
  predicate Usable(list: seq<string>, n: nat) {
    |list| > 0 && |list| >= n
  }

  /** `random.choice` between the two usable files for wallet `i`; draws past
      the end of the oracle pick OKX. */
  function PickAt(picks: seq<Exchange>, i: nat): Exchange {
    if i < |picks| then picks[i] else Okx
  }

  /** The exchange wallet `i` sends to: drawn when both files are usable,
      otherwise the single usable one (OKX is listed first). */
  function ExchangeFor(okx: seq<string>, bitget: seq<string>, n: nat, picks: seq<Exchange>, i: nat): Exchange {
    if Usable(okx, n) && Usable(bitget, n) then PickAt(picks, i)
    else if Usable(okx, n) then Okx
    else Bitget
  }

  /** `wallet_targets`: wallet `i` sends to the `i`-th address of its
      exchange's file. The script refuses to start when both files are empty,
      when neither has an address per wallet, or when no file is usable. A
      plan gives every wallet a target taken from a file with an address per
      wallet, at the wallet's own position. */
  function PlanTargets(okx: seq<string>, bitget: seq<string>, n: nat, picks: seq<Exchange>): (p: Plan)
    ensures p.Refused? <==> (|okx| == 0 && |bitget| == 0) || (|okx| < n && |bitget| < n)
    ensures p.Refused? && |okx| == 0 && |bitget| == 0 ==> p.error == NoWalletFiles
    ensures p.Planned? ==> |p.targets| == n
    ensures p.Planned? ==> forall i :: 0 <= i < n ==>
              && Usable(AddressList(p.targets[i].exchange, okx, bitget), n)
              && p.targets[i].address == AddressList(p.targets[i].exchange, okx, bitget)[i]
  {
    if |okx| == 0 && |bitget| == 0 then Refused(NoWalletFiles)
    else if |okx| < n && |bitget| < n then Refused(TooFewAddresses)
    else if !Usable(okx, n) && !Usable(bitget, n) then Refused(NoUsableFile)
    else
      Planned(seq(n, i requires 0 <= i < n =>
        var e := ExchangeFor(okx, bitget, n, picks, i);
        Target(e, AddressList(e, okx, bitget)[i])))
  }

  /** The third refusal can never be reached: once the first two checks pass,
      some file is usable. */
  lemma NoUsableFileIsUnreachable(okx: seq<string>, bitget: seq<string>, n: nat, picks: seq<Exchange>)
    ensures PlanTargets(okx, bitget, n, picks) != Refused(NoUsableFile)
  {
    if !((|okx| == 0 && |bitget| == 0) || (|okx| < n && |bitget| < n)) {
      assert Usable(okx, n) || Usable(bitget, n);
    }
  }

  /** With only one usable file every wallet sends to that exchange. */
  lemma SingleFileTakesAll(okx: seq<string>, bitget: seq<string>, n: nat, picks: seq<Exchange>)
    requires Usable(okx, n) && !Usable(bitget, n)
    ensures PlanTargets(okx, bitget, n, picks).Planned?
    ensures forall i :: 0 <= i < n ==> PlanTargets(okx, bitget, n, picks).targets[i] == Target(Okx, okx[i])
  {
  }

  // ---------------------------------------------------------------------
  // One wallet
  // ---------------------------------------------------------------------

  /** What `float(rewards) if rewards else 0.0` makes of the rewards query's
      output: nothing printed, a number, or a text `float` rejects with a
      `ValueError` that nothing catches. */
  datatype RewardsRead = NoRewards | RewardsAmount(amount: real) | RewardsUnreadable

  /** Everything the outside world says while one wallet is processed: the
      balance read first, the withdrawal gas probe runs, the rewards query,
      the withdrawal submissions as polling resolves them (`ResolveAll`), the
      balance read after the withdrawal step, the reserve draw, the transfer
      gas probe runs, the transfer submissions and the delay draw. */
  datatype WalletScript = WalletScript(
    initialBalance: int,
    withdrawRuns: seq<ProbeRun>,
    rewards: RewardsRead,
    withdrawSubs: seq<Submission>,
    balanceAfterWithdraw: int,
    reserveDraw: int,
    sendRuns: seq<ProbeRun>,
    sendSubs: seq<Submission>,
    delayDraw: int)

  /** The script's own draws lie in their ranges. */
  predicate DrawsInRange(w: WalletScript) {
    && DrawFits(w.balanceAfterWithdraw, MinReserve, MaxReserve, w.reserveDraw)
    && DelayMin <= w.delayDraw <= DelayMax
  }

  /** The rewards as a number, for an output `float` accepts. */
  function RewardsValue(rewards: RewardsRead): real
    requires !rewards.RewardsUnreadable?
  {
    if rewards.RewardsAmount? then rewards.amount else 0.0
  }

  /** Where an uncaught `ValueError` ends the whole run: in the withdrawal
      gas probe, in reading the rewards, or in the transfer gas probe. */
  datatype Stage = AtWithdrawEstimate | AtRewards | AtSendEstimate

  /** What happened to one wallet: skipped before any transaction because the
      balance does not cover the withdrawal fee; processed, with the
      withdrawal loop (when the rewards reached the threshold), the
      allocation, the transfer loop (when attempted), whether any
      transaction was confirmed, and the pause taken; or halted, ending the
      run, with whatever withdrawal had already been made. */
  datatype WalletReport =
    | Skipped(withdrawGas: nat, withdrawFee: nat)
    | Processed(withdrawal: Option<LoopResult>, allocation: Allocation, sendFee: nat,
                transfer: Option<LoopResult>, actionPerformed: bool, delay: Option<int>)
    | Halted(stage: Stage, withdrawal: Option<LoopResult>)

  predicate Confirms(loop: Option<LoopResult>) {
    loop.Some? && loop.value.ending == TxConfirmed
  }

  /** The withdrawal step: the retry loop runs exactly when the rewards
      reach 700000. */
  function Withdrawal(w: WalletScript, withdrawGas: nat): (loop: Option<LoopResult>)
    requires !w.rewards.RewardsUnreadable?
    ensures loop.Some? <==> RewardsValue(w.rewards) >= MinRewardsToWithdraw as real
  {
    if RewardsValue(w.rewards) >= MinRewardsToWithdraw as real
    then Some(RunFrom(Withdraw, 0, withdrawGas, w.initialBalance, w.withdrawSubs))
    else None
  }

  /** The body of the wallet loop once the withdrawal gas is known, given
      what the transfer gas probe does: skip the wallet when its balance
      does not cover the withdrawal fee; halt on unreadable rewards; withdraw
      exactly when the rewards reach 700000; halt when the transfer probe
      crashes; otherwise split the balance read afterwards into reserve and
      transfer, attempt the transfer exactly when it clears the threshold
      and the fee, and pause (for the drawn time) exactly when some
      transaction was confirmed. */
  function Process(w: WalletScript, withdrawGas: nat, send: EstimateOutcome): (r: WalletReport)
    requires DrawsInRange(w)
    ensures r.Skipped? <==> w.initialBalance < Fee(withdrawGas)
    ensures r.Halted? <==> w.initialBalance >= Fee(withdrawGas) && (w.rewards.RewardsUnreadable? || send.Aborted?)
    ensures r.Halted? ==> r.stage != AtWithdrawEstimate && (r.stage == AtRewards <==> w.rewards.RewardsUnreadable?)
    ensures r.Halted? && r.stage == AtRewards ==> r.withdrawal.None?
    ensures r.Processed? || (r.Halted? && r.stage == AtSendEstimate) ==>
              !w.rewards.RewardsUnreadable? && r.withdrawal == Withdrawal(w, withdrawGas)
    ensures r.Processed? ==> send.Estimated? && r.sendFee == Fee(send.gas)
    ensures r.Processed? ==> r.allocation.reserve + r.allocation.send == w.balanceAfterWithdraw && r.allocation.send >= 0
    ensures r.Processed? ==> Min(MinReserve, w.balanceAfterWithdraw) <= r.allocation.reserve <= Min(MaxReserve, w.balanceAfterWithdraw)
    ensures r.Processed? ==> (r.transfer.Some? <==> AttemptsTransfer(r.allocation.send, r.sendFee, w.balanceAfterWithdraw))
    ensures r.Processed? && r.transfer.Some? ==> r.transfer.value == RunFrom(Send, 0, send.gas, w.balanceAfterWithdraw, w.sendSubs)
    ensures r.Processed? ==> (r.actionPerformed <==> Confirms(r.withdrawal) || Confirms(r.transfer))
    ensures r.Processed? ==> (r.delay.Some? <==> r.actionPerformed)
    ensures r.Processed? && r.delay.Some? ==> DelayMin <= r.delay.value <= DelayMax
  {
    var withdrawFee := Fee(withdrawGas);
    if w.initialBalance < withdrawFee then Skipped(withdrawGas, withdrawFee)
    else if w.rewards.RewardsUnreadable? then Halted(AtRewards, None)
    else
      var withdrawal := Withdrawal(w, withdrawGas);
      match send
      case Aborted => Halted(AtSendEstimate, withdrawal)
      case Estimated(sendGas) =>
        var balance := w.balanceAfterWithdraw;
        var allocation := SweepAllocation(balance, w.reserveDraw);
        SweepAllocationBounds(balance, w.reserveDraw);
        var sendFee := Fee(sendGas);
        var transfer :=
          if AttemptsTransfer(allocation.send, sendFee, balance)
          then Some(RunFrom(Send, 0, sendGas, balance, w.sendSubs))
          else None;
        var action := Confirms(withdrawal) || Confirms(transfer);
        Processed(withdrawal, allocation, sendFee, transfer, action, if action then Some(w.delayDraw) else None)
  }

  /** The wallet loop's body as written, gas probes included: the run halts
      right away exactly when the withdrawal probe's outputs crash the parse
      first, and halts at the transfer probe only when its outputs do. */
  function ProcessWallet(w: WalletScript): (r: WalletReport)
    requires DrawsInRange(w)
    ensures r == Halted(AtWithdrawEstimate, None) <==> CrashesFirst(w.withdrawRuns, EstimateRetries, 0)
    ensures r.Halted? && r.stage == AtSendEstimate ==> CrashesFirst(w.sendRuns, EstimateRetries, 0)
  {
    match EstimateAsWrittenFrom(Withdraw, w.withdrawRuns, EstimateRetries, 0)
    case Aborted => Halted(AtWithdrawEstimate, None)
    case Estimated(withdrawGas) => Process(w, withdrawGas, EstimateAsWrittenFrom(Send, w.sendRuns, EstimateRetries, 0))
  }

  /** Where the withdrawal probe does not crash the run, the wallet goes as
      `Process` says with the corrected withdrawal estimate, and with the
      corrected transfer estimate unless that probe crashes the run. */
  lemma ProcessWalletAsCorrected(w: WalletScript)
    requires DrawsInRange(w) && !CrashesFirst(w.withdrawRuns, EstimateRetries, 0)
    ensures var withdrawGas := Estimate(Withdraw, w.withdrawRuns, EstimateRetries);
            && (CrashesFirst(w.sendRuns, EstimateRetries, 0) ==> ProcessWallet(w) == Process(w, withdrawGas, Aborted))
            && (!CrashesFirst(w.sendRuns, EstimateRetries, 0) ==>
                  ProcessWallet(w) == Process(w, withdrawGas, Estimated(Estimate(Send, w.sendRuns, EstimateRetries))))
  {
    AsWrittenEstimate(Withdraw, w.withdrawRuns, EstimateRetries);
    AsWrittenEstimate(Send, w.sendRuns, EstimateRetries);
  }

  /** A first withdrawal probe run whose output crashes the parse halts the
      whole run at that wallet, before any transaction. */
  lemma CrashingFirstProbeHalts(w: WalletScript)
    requires DrawsInRange(w) && Crashes(RunAt(w.withdrawRuns, 0))
    ensures ProcessWallet(w) == Halted(AtWithdrawEstimate, None)
  {
    assert CrashesFirst(w.withdrawRuns, EstimateRetries, 0);
  }

  /** A first withdrawal probe run that prints "1.2.3" halts the whole run
      at that wallet. */
  lemma MultiDotProbeHaltsWallet(w: WalletScript)
    requires DrawsInRange(w) && RunAt(w.withdrawRuns, 0) == ProbeOutput("1.2.3")
    ensures ProcessWallet(w) == Halted(AtWithdrawEstimate, None)
  {
    MultiDotTextCrashes();
    CrashingFirstProbeHalts(w);
  }

  /** The withdrawal loop's first balance check never refuses: a wallet
      gets that far only because its balance covers the fee, so at least one
      withdrawal is submitted, carrying the estimated gas, and a withdrawal
      refused for lack of funds has seen an out-of-gas rejection first. */
  lemma FirstWithdrawalIsSubmitted(w: WalletScript, withdrawGas: nat)
    requires !w.rewards.RewardsUnreadable? && w.initialBalance >= Fee(withdrawGas)
    requires Withdrawal(w, withdrawGas).Some?
    ensures var loop := Withdrawal(w, withdrawGas).value;
            && loop.attempts != [] && loop.attempts[0].gas == withdrawGas
            && (loop.ending == FeeUnaffordable ==> IsOutOfGas(loop.attempts[0]))
  {
    var loop := RunFrom(Withdraw, 0, withdrawGas, w.initialBalance, w.withdrawSubs);
    assert Withdrawal(w, withdrawGas).value == loop;
    OutOfGasStopsOnlyAtLimits(Withdraw, 0, withdrawGas, w.initialBalance, w.withdrawSubs);
    OnlyOutOfGasIsRetried(Withdraw, 0, withdrawGas, w.initialBalance, w.withdrawSubs);
    EndingMatchesLastAttempt(Withdraw, 0, withdrawGas, w.initialBalance, w.withdrawSubs);
    if loop.ending == FeeUnaffordable && |loop.attempts| == 1 {
      assert LastPolledAs(loop.attempts, OutOfGas);
    }
  }

  /** A pause is taken only after some withdrawal or transfer whose last
      submission the chain confirmed. */
  lemma DelayOnlyAfterConfirmation(w: WalletScript, withdrawGas: nat, sendGas: nat)
    requires DrawsInRange(w)
    requires Process(w, withdrawGas, Estimated(sendGas)).Processed? && Process(w, withdrawGas, Estimated(sendGas)).delay.Some?
    ensures var r := Process(w, withdrawGas, Estimated(sendGas));
            || (r.withdrawal.Some? && LastPolledAs(r.withdrawal.value.attempts, Confirmed))
            || (r.transfer.Some? && LastPolledAs(r.transfer.value.attempts, Confirmed))
  {
    var r := Process(w, withdrawGas, Estimated(sendGas));
    if r.withdrawal.Some? {
      assert r.withdrawal.value == Withdrawal(w, withdrawGas).value;
      EndingMatchesLastAttempt(Withdraw, 0, withdrawGas, w.initialBalance, w.withdrawSubs);
    }
    if r.transfer.Some? {
      assert r.transfer.value == RunFrom(Send, 0, sendGas, w.balanceAfterWithdraw, w.sendSubs);
      EndingMatchesLastAttempt(Send, 0, sendGas, w.balanceAfterWithdraw, w.sendSubs);
    }
  }

  /** A transfer, when attempted, moves at least 50000 uatom, clears its fee
      by 3000, and leaves the drawn reserve behind. */
  lemma TransferClearsThreshold(w: WalletScript, withdrawGas: nat, sendGas: nat)
    requires DrawsInRange(w)
    requires Process(w, withdrawGas, Estimated(sendGas)).Processed? && Process(w, withdrawGas, Estimated(sendGas)).transfer.Some?
    ensures var r := Process(w, withdrawGas, Estimated(sendGas));
            && r.allocation.send >= TransferFloor
            && r.allocation.send >= Fee(sendGas) + TransferMargin
            && Min(MinReserve, w.balanceAfterWithdraw) <= r.allocation.reserve <= Min(MaxReserve, w.balanceAfterWithdraw)
  {
    SweepAllocationBounds(w.balanceAfterWithdraw, w.reserveDraw);
  }

  // ---------------------------------------------------------------------
  // The wallet loop
  // ---------------------------------------------------------------------

  /** `list(range(n))`. */
  function Range(n: nat): (r: seq<nat>)
    ensures |r| == n
    ensures forall k :: 0 <= k < n ==> r[k] == k
  {
    if n == 0 then [] else Range(n - 1) + [n - 1]
  }

  /** Every index below `n` occurs exactly once in `range(n)`, and no other. */
  lemma {:induction false} RangeCountsOnce(n: nat, w: nat)
    ensures multiset(Range(n))[w] == if w < n then 1 else 0
  {
    if n > 0 {
      var m: nat := n - 1;
      RangeCountsOnce(m, w);
      assert Range(n) == Range(m) + [m];
      CountAppend(Range(m), m, w);
    }
  }

  /** Appending `x` adds one occurrence of `x` and none of anything else. */
  lemma CountAppend(a: seq<nat>, x: nat, w: nat)
    ensures multiset(a + [x])[w] == multiset(a)[w] + (if w == x then 1 else 0)
  {
    assert multiset(a + [x]) == multiset(a) + multiset{x};
  }

  /** `random.shuffle(wallet_indices)` returns a permutation of `range(n)`:
      `n` entries, each wallet index exactly once and nothing else. */
  predicate IsShuffle(order: seq<nat>, n: nat) {
    && |order| == n
    && (forall k :: 0 <= k < |order| ==> order[k] < n)
    && (forall w :: 0 <= w < n ==> multiset(order)[w] == 1)
  }

  /** The unshuffled `range(n)` is such an order, and two orders with the
      same entries are shuffles together. */
  lemma RangeIsShuffle(n: nat)
    ensures IsShuffle(Range(n), n)
  {
    forall w | 0 <= w < n
      ensures multiset(Range(n))[w] == 1
    {
      RangeCountsOnce(n, w);
    }
  }

  /** A shuffle is exactly a reordering of `range(n)`. */
  lemma ShuffleIsPermutationOfRange(order: seq<nat>, n: nat)
    requires IsShuffle(order, n)
    ensures multiset(order) == multiset(Range(n))
  {
    forall w: nat
      ensures multiset(order)[w] == multiset(Range(n))[w]
    {
      RangeCountsOnce(n, w);
    }
  }

  /** The wallet indices in visiting order. */
  function Indices(visits: seq<Visit>): (r: seq<nat>)
    ensures |r| == |visits|
    ensures forall k :: 0 <= k < |visits| ==> r[k] == visits[k].index
  {
    seq(|visits|, k requires 0 <= k < |visits| => visits[k].index)
  }

  /** One visited wallet: its index, its destination and what happened. */
  datatype Visit = Visit(index: nat, target: Target, report: WalletReport)

  /** The pause taken after one visit, in seconds, and whether there was one. */
  function PauseLength(v: Visit): int {
    if v.report.Processed? && v.report.delay.Some? then v.report.delay.value else 0
  }

  function PauseCount(v: Visit): nat {
    if v.report.Processed? && v.report.delay.Some? then 1 else 0
  }

  /** Total pause taken over the visits. */
  function TotalDelay(visits: seq<Visit>): int {
    if visits == [] then 0
    else TotalDelay(visits[..|visits| - 1]) + PauseLength(visits[|visits| - 1])
  }

  /** The number of visits after which the script paused. */
  function Pauses(visits: seq<Visit>): nat {
    if visits == [] then 0
    else Pauses(visits[..|visits| - 1]) + PauseCount(visits[|visits| - 1])
  }

  /** `v` is the visit of wallet `i`: its planned target and what
      processing its own script gives. */
  predicate VisitOf(v: Visit, i: nat, targets: seq<Target>, wallets: seq<WalletScript>)
    requires |targets| == |wallets|
    requires forall j :: 0 <= j < |wallets| ==> DrawsInRange(wallets[j])
  {
    && v.index == i < |wallets|
    && v.target == targets[i]
    && v.report == ProcessWallet(wallets[i])
  }

  /** A visit's own pause lies in the delay range. */
  lemma VisitPauseInRange(v: Visit, w: WalletScript)
    requires DrawsInRange(w) && v.report == ProcessWallet(w)
    ensures DelayMin * PauseCount(v) <= PauseLength(v) <= DelayMax * PauseCount(v)
  {
  }

  /** The pause bounds survive one more visit whose own pause is in range. */
  lemma PausesStep(visits: seq<Visit>, v: Visit)
    requires DelayMin * Pauses(visits) <= TotalDelay(visits) <= DelayMax * Pauses(visits)
    requires DelayMin * PauseCount(v) <= PauseLength(v) <= DelayMax * PauseCount(v)
    ensures DelayMin * Pauses(visits + [v]) <= TotalDelay(visits + [v]) <= DelayMax * Pauses(visits + [v])
  {
    var w := visits + [v];
    assert w[..|w| - 1] == visits;
    assert Pauses(w) == Pauses(visits) + PauseCount(v);
    assert TotalDelay(w) == TotalDelay(visits) + PauseLength(v);
    assert DelayMin * Pauses(w) == DelayMin * Pauses(visits) + DelayMin * PauseCount(v);
    assert DelayMax * Pauses(w) == DelayMax * Pauses(visits) + DelayMax * PauseCount(v);
  }

  /** The wallet loop of `main`: visit the wallets in the shuffled order,
      each with its planned target and its own script, until a wallet halts
      the run. Visit `k` is wallet `order[k]`, so no wallet is visited twice;
      only the last visit can halt, and the loop ends early only on a halt,
      after which the wallets still to come are never touched; a run without
      a halt visits every wallet exactly once. The pauses total between one
      and two hours per wallet where something happened. */
  method SweepWallets(targets: seq<Target>, order: seq<nat>, wallets: seq<WalletScript>)
    returns (visits: seq<Visit>)
    requires |targets| == |wallets|
    requires IsShuffle(order, |wallets|)
    requires forall i :: 0 <= i < |wallets| ==> DrawsInRange(wallets[i])
    ensures |visits| <= |wallets|
    ensures Indices(visits) == order[..|visits|]
    ensures forall k :: 0 <= k < |visits| ==> VisitOf(visits[k], order[k], targets, wallets)
    ensures forall k :: 0 <= k < |visits| - 1 ==> !visits[k].report.Halted?
    ensures |visits| < |wallets| ==> visits != [] && visits[|visits| - 1].report.Halted?
    ensures (forall k :: 0 <= k < |visits| ==> !visits[k].report.Halted?) ==> IsShuffle(Indices(visits), |wallets|)
    ensures DelayMin * Pauses(visits) <= TotalDelay(visits) <= DelayMax * Pauses(visits)
  {
    visits := [];
    var k := 0;
    while k < |order|
      invariant k <= |order|
      invariant |visits| == k
      invariant Indices(visits) == order[..k]
      invariant forall j :: 0 <= j < k ==> VisitOf(visits[j], order[j], targets, wallets)
      invariant forall j :: 0 <= j < k ==> !visits[j].report.Halted?
      invariant DelayMin * Pauses(visits) <= TotalDelay(visits) <= DelayMax * Pauses(visits)
    {
      var i := order[k];
      var v := Visit(i, targets[i], ProcessWallet(wallets[i]));
      VisitPauseInRange(v, wallets[i]);
      PausesStep(visits, v);
      IndicesStep(visits, v, order, k);
      visits := visits + [v];
      k := k + 1;
      if v.report.Halted? {
        return;
      }
    }
    assert order[..k] == order;
  }

  lemma IndicesStep(visits: seq<Visit>, v: Visit, order: seq<nat>, k: nat)
    requires k < |order| && Indices(visits) == order[..k] && v.index == order[k]
    ensures Indices(visits + [v]) == order[..k + 1]
  {
    assert order[..k + 1] == order[..k] + [order[k]];
  }
}

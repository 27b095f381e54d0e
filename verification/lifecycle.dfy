/** The sweep script's submit-and-confirm loops for reward withdrawal
    (script.py lines 171-210) and transfer (lines 243-282): submit with the
    current gas and fee, poll for confirmation, and only on an out-of-gas
    rejection scale the gas, recompute the fee, refresh the balance and try
    again, at most three submissions in all. The withdrawal loop refuses to
    submit when the balance no longer covers the fee; the transfer loop reads
    the refreshed balance but never tests it. Chain replies are scripted per
    submission. */
module Lifecycle {
  import opened Base
  import opened Fees
  import opened Confirmation
  import opened Text

  /** `max_attempts` / `max_send_attempts`. */
  const MaxAttempts: nat := 3

  /** What a submission printed: text that is not JSON, or a JSON object whose
      `txhash` is "" when absent. */
  datatype SubmitReply = SubmitNotJson | SubmitJson(txHash: string)

  /** The scripted chain for one submission: the submit reply, the replies to
      its confirmation queries, and the balance read after an out-of-gas
      rejection. */
  datatype AttemptScript = AttemptScript(submit: SubmitReply, replies: seq<TxReply>, balanceAfter: int)

  /** A script that has run out behaves like a submission printing garbage. */
  function ScriptAt(scripts: seq<AttemptScript>, k: nat): AttemptScript {
    if k < |scripts| then scripts[k] else AttemptScript(SubmitNotJson, [], 0)
  }

  /** What became of one submission: its output could not be read, or it was
      polled to a status. */
  datatype AttemptOutcome = Unreadable | Polled(txHash: string, status: TxStatus)

  /** One submission with the gas and fee it carried. */
  datatype Attempt = Attempt(gas: nat, fee: nat, outcome: AttemptOutcome)

  /** Why the loop stopped. */
  datatype Ending = TxConfirmed | TxFailed | SubmitUnreadable | FeeUnaffordable | AttemptsExhausted

  /** The submissions made, why the loop stopped, and the gas it ended with. */
  datatype LoopResult = LoopResult(attempts: seq<Attempt>, ending: Ending, gas: nat)

  predicate IsOutOfGas(a: Attempt) {
    a.outcome.Polled? && a.outcome.status == OutOfGas
  }

  function Last<T>(s: seq<T>): T
    requires |s| > 0
  {
    s[|s| - 1]
  }

  /** The status the confirmation poll reports for a submitted hash, over
      the default ten rounds. */
  function PollStatus(txHash: string, nodeCount: nat, replies: seq<TxReply>): TxStatus {
    CheckTransactionSpec(txHash, nodeCount, DefaultRounds, replies).status
  }

  /** A submission as the loop sees it once polling is over: unreadable, or
      reported with its hash, its polled status and the balance read after
      it. */
  datatype Submission = Garbled | Reported(txHash: string, status: TxStatus, balanceAfter: int)

  function Resolve(nodeCount: nat, s: AttemptScript): Submission {
    match s.submit
    case SubmitNotJson => Garbled
    case SubmitJson(h) => Reported(h, PollStatus(h, nodeCount, s.replies), s.balanceAfter)
  }

  function ResolveAll(nodeCount: nat, scripts: seq<AttemptScript>): (subs: seq<Submission>)
    ensures |subs| == |scripts|
    ensures forall k :: 0 <= k < |scripts| ==> subs[k] == Resolve(nodeCount, scripts[k])
  {
    if scripts == [] then [] else [Resolve(nodeCount, scripts[0])] + ResolveAll(nodeCount, scripts[1..])
  }

  /** Past the end of the script every submission prints garbage. */
  function SubmissionAt(subs: seq<Submission>, k: nat): Submission {
    if k < |subs| then subs[k] else Garbled
  }

  /** The withdrawal loop tests the balance before each submission; the
      transfer loop does not. */
  predicate ChecksBalance(kind: TxKind) {
    kind == Withdraw
  }

  /** The loop from submission number `attempt` on, with the current gas and
      balance, over the resolved submissions: at most the remaining number of
      submissions, the first with the current gas. The lemmas below state
      what the submissions look like. */
  function RunFrom(kind: TxKind, attempt: nat, gas: nat, balance: int, subs: seq<Submission>): (r: LoopResult)
    requires attempt <= MaxAttempts
    ensures |r.attempts| <= MaxAttempts - attempt
    ensures r.attempts != [] ==> r.attempts[0].gas == gas
    decreases MaxAttempts - attempt
  {
    if attempt >= MaxAttempts then LoopResult([], AttemptsExhausted, gas)
    else if ChecksBalance(kind) && balance < Fee(gas) then LoopResult([], FeeUnaffordable, gas)
    else
      match SubmissionAt(subs, attempt)
      case Garbled => LoopResult([Attempt(gas, Fee(gas), Unreadable)], SubmitUnreadable, gas)
      case Reported(h, status, after) =>
        var a := Attempt(gas, Fee(gas), Polled(h, status));
        if status == OutOfGas then
          var rest := RunFrom(kind, attempt + 1, ScaleGas(kind, gas), after, subs);
          LoopResult([a] + rest.attempts, rest.ending, rest.gas)
        else if status == Confirmed then LoopResult([a], TxConfirmed, gas)
        else LoopResult([a], TxFailed, gas)
  }

  /** The submission at `attempt` is made and rejected for gas. */
  predicate RetriedAt(kind: TxKind, attempt: nat, gas: nat, balance: int, subs: seq<Submission>) {
    && attempt < MaxAttempts
    && !(ChecksBalance(kind) && balance < Fee(gas))
    && SubmissionAt(subs, attempt).Reported?
    && SubmissionAt(subs, attempt).status == OutOfGas
  }

  /** Unfolding one out-of-gas step: the loop is this submission followed by
      the loop from the next attempt with the scaled gas and refreshed
      balance. */
  lemma OutOfGasStep(kind: TxKind, attempt: nat, gas: nat, balance: int, subs: seq<Submission>)
    requires RetriedAt(kind, attempt, gas, balance, subs)
    ensures var s := SubmissionAt(subs, attempt);
            var r := RunFrom(kind, attempt, gas, balance, subs);
            var rest := RunFrom(kind, attempt + 1, ScaleGas(kind, gas), s.balanceAfter, subs);
            r == LoopResult([Attempt(gas, Fee(gas), Polled(s.txHash, OutOfGas))] + rest.attempts, rest.ending, rest.gas)
  {
  }

  /** Every submission carries the fee of its own gas. */
  lemma {:induction false} FeesFollowGas(kind: TxKind, attempt: nat, gas: nat, balance: int, subs: seq<Submission>)
    requires attempt <= MaxAttempts
    ensures var a := RunFrom(kind, attempt, gas, balance, subs).attempts;
            forall i :: 0 <= i < |a| ==> a[i].fee == Fee(a[i].gas)
    decreases MaxAttempts - attempt
  {
    if RetriedAt(kind, attempt, gas, balance, subs) {
      FeesFollowGas(kind, attempt + 1, ScaleGas(kind, gas), SubmissionAt(subs, attempt).balanceAfter, subs);
    }
  }

  /** Only an out-of-gas rejection is followed by another submission, and
      that submission carries the previous gas scaled by the kind's
      multiplier. */
  lemma {:induction false} OnlyOutOfGasIsRetried(kind: TxKind, attempt: nat, gas: nat, balance: int, subs: seq<Submission>)
    requires attempt <= MaxAttempts
    ensures var a := RunFrom(kind, attempt, gas, balance, subs).attempts;
            forall i :: 0 <= i < |a| - 1 ==> IsOutOfGas(a[i]) && a[i + 1].gas == ScaleGas(kind, a[i].gas)
    decreases MaxAttempts - attempt
  {
    if RetriedAt(kind, attempt, gas, balance, subs) {
      OnlyOutOfGasIsRetried(kind, attempt + 1, ScaleGas(kind, gas), SubmissionAt(subs, attempt).balanceAfter, subs);
    }
  }

  /** The last submission was polled to `status`. */
  predicate LastPolledAs(a: seq<Attempt>, status: TxStatus) {
    a != [] && Last(a).outcome.Polled? && Last(a).outcome.status == status
  }

  /** The loop ends confirmed, failed or unreadable exactly when its last
      submission was. */
  lemma {:induction false} EndingMatchesLastAttempt(kind: TxKind, attempt: nat, gas: nat, balance: int, subs: seq<Submission>)
    requires attempt <= MaxAttempts
    ensures var r := RunFrom(kind, attempt, gas, balance, subs);
            && (r.ending == TxConfirmed <==> LastPolledAs(r.attempts, Confirmed))
            && (r.ending == TxFailed <==> LastPolledAs(r.attempts, NotConfirmed))
            && (r.ending == SubmitUnreadable <==> r.attempts != [] && Last(r.attempts).outcome.Unreadable?)
    decreases MaxAttempts - attempt
  {
    if RetriedAt(kind, attempt, gas, balance, subs) {
      var after := SubmissionAt(subs, attempt).balanceAfter;
      OutOfGasStep(kind, attempt, gas, balance, subs);
      EndingMatchesLastAttempt(kind, attempt + 1, ScaleGas(kind, gas), after, subs);
      var rest := RunFrom(kind, attempt + 1, ScaleGas(kind, gas), after, subs);
      var r := RunFrom(kind, attempt, gas, balance, subs);
      if rest.attempts != [] {
        assert Last(r.attempts) == Last(rest.attempts);
      }
    }
  }

  /** After an out-of-gas rejection the loop stops only for lack of attempts
      or, when withdrawing, of funds; running out of attempts means every
      remaining attempt was used; a loop with no submission at all stopped on
      the balance check. */
  lemma {:induction false} OutOfGasStopsOnlyAtLimits(kind: TxKind, attempt: nat, gas: nat, balance: int, subs: seq<Submission>)
    requires attempt <= MaxAttempts
    ensures var r := RunFrom(kind, attempt, gas, balance, subs);
            && (r.ending == FeeUnaffordable ==> ChecksBalance(kind))
            && (r.ending == AttemptsExhausted ==> |r.attempts| == MaxAttempts - attempt)
            && (LastPolledAs(r.attempts, OutOfGas) ==> r.ending == AttemptsExhausted || r.ending == FeeUnaffordable)
            && (r.attempts == [] ==> r.ending == FeeUnaffordable || (attempt == MaxAttempts && r.ending == AttemptsExhausted))
    decreases MaxAttempts - attempt
  {
    if RetriedAt(kind, attempt, gas, balance, subs) {
      var after := SubmissionAt(subs, attempt).balanceAfter;
      OutOfGasStep(kind, attempt, gas, balance, subs);
      OutOfGasStopsOnlyAtLimits(kind, attempt + 1, ScaleGas(kind, gas), after, subs);
      var rest := RunFrom(kind, attempt + 1, ScaleGas(kind, gas), after, subs);
      var r := RunFrom(kind, attempt, gas, balance, subs);
      if rest.attempts != [] {
        assert Last(r.attempts) == Last(rest.attempts);
      }
    }
  }

  /** The whole loop for one transaction, starting from the estimated gas and
      the balance read before it. */
  function Run(kind: TxKind, nodeCount: nat, gas: nat, balance: int, scripts: seq<AttemptScript>): LoopResult {
    RunFrom(kind, 0, gas, balance, ResolveAll(nodeCount, scripts))
  }

  function Prepend(trace: seq<Attempt>, r: LoopResult): LoopResult {
    LoopResult(trace + r.attempts, r.ending, r.gas)
  }

  /** An out-of-gas submission moves from the remaining run to the trace. */
  lemma PrependShifts(trace: seq<Attempt>, a: Attempt, rest: LoopResult)
    ensures Prepend(trace, LoopResult([a] + rest.attempts, rest.ending, rest.gas)) == Prepend(trace + [a], rest)
  {
    assert trace + ([a] + rest.attempts) == (trace + [a]) + rest.attempts;
  }

  /** The submission at `attempt` ends the loop: the fee is unaffordable, the
      answer unreadable, or the transaction settled other than out of gas. */
  lemma FinalStep(kind: TxKind, attempt: nat, gas: nat, balance: int, subs: seq<Submission>)
    requires attempt < MaxAttempts
    ensures var r := RunFrom(kind, attempt, gas, balance, subs);
            var s := SubmissionAt(subs, attempt);
            && (ChecksBalance(kind) && balance < Fee(gas) ==> r == LoopResult([], FeeUnaffordable, gas))
            && (!(ChecksBalance(kind) && balance < Fee(gas)) && s.Garbled? ==>
                  r == LoopResult([Attempt(gas, Fee(gas), Unreadable)], SubmitUnreadable, gas))
            && (!(ChecksBalance(kind) && balance < Fee(gas)) && s.Reported? && s.status == Confirmed ==>
                  r == LoopResult([Attempt(gas, Fee(gas), Polled(s.txHash, s.status))], TxConfirmed, gas))
            && (!(ChecksBalance(kind) && balance < Fee(gas)) && s.Reported? && s.status != Confirmed
                && s.status != OutOfGas ==>
                  r == LoopResult([Attempt(gas, Fee(gas), Polled(s.txHash, s.status))], TxFailed, gas))
  {
  }

  /** Past the last attempt the run makes no submission and ends exhausted. */
  lemma ExhaustedRun(kind: TxKind, attempt: nat, gas: nat, balance: int, subs: seq<Submission>)
    requires attempt == MaxAttempts
    ensures RunFrom(kind, attempt, gas, balance, subs) == LoopResult([], AttemptsExhausted, gas)
  {
  }

  /** One pass of the retry loop: check the balance, submit, and either
      stop with the loop's result or carry on with the scaled gas and the
      refreshed balance. Either way the whole run is unchanged. */
  method SubmitOnce(kind: TxKind, attempt: nat, gas: nat, balance: int, subs: seq<Submission>, trace: seq<Attempt>)
    returns (done: bool, r: LoopResult, nextGas: nat, nextBalance: int, nextTrace: seq<Attempt>)
    requires attempt < MaxAttempts
    ensures done ==> r == Prepend(trace, RunFrom(kind, attempt, gas, balance, subs))
    ensures !done ==> Prepend(trace, RunFrom(kind, attempt, gas, balance, subs))
                      == Prepend(nextTrace, RunFrom(kind, attempt + 1, nextGas, nextBalance, subs))
  {
    FinalStep(kind, attempt, gas, balance, subs);
    nextGas, nextBalance, nextTrace := gas, balance, trace;
    var fee := Fee(gas);
    if ChecksBalance(kind) && balance < fee {
      return true, LoopResult(trace, FeeUnaffordable, gas), nextGas, nextBalance, nextTrace;
    }
    var sub := SubmissionAt(subs, attempt);
    if sub.Garbled? {
      return true, LoopResult(trace + [Attempt(gas, fee, Unreadable)], SubmitUnreadable, gas), nextGas, nextBalance, nextTrace;
    }
    var a := Attempt(gas, fee, Polled(sub.txHash, sub.status));
    if sub.status == OutOfGas {
      OutOfGasStep(kind, attempt, gas, balance, subs);
      PrependShifts(trace, a, RunFrom(kind, attempt + 1, ScaleGas(kind, gas), sub.balanceAfter, subs));
      return false, LoopResult([], AttemptsExhausted, gas), ScaleGas(kind, gas), sub.balanceAfter, trace + [a];
    } else if sub.status == Confirmed {
      return true, LoopResult(trace + [a], TxConfirmed, gas), nextGas, nextBalance, nextTrace;
    } else {
      return true, LoopResult(trace + [a], TxFailed, gas), nextGas, nextBalance, nextTrace;
    }
  }

  /** The retry loop as the script runs it, over the submissions as they
      resolve once polled; it makes exactly the submissions `RunFrom`
      describes. */
  method SubmitWithRetries(kind: TxKind, gas0: nat, balance0: int, subs: seq<Submission>)
    returns (r: LoopResult)
    ensures r == RunFrom(kind, 0, gas0, balance0, subs)
  {
    var attempt: nat := 0;
    var gas := gas0;
    var balance := balance0;
    var trace: seq<Attempt> := [];
    while attempt < MaxAttempts
      invariant attempt <= MaxAttempts
      invariant RunFrom(kind, 0, gas0, balance0, subs) == Prepend(trace, RunFrom(kind, attempt, gas, balance, subs))
      decreases MaxAttempts - attempt
    {
      var done;
      done, r, gas, balance, trace := SubmitOnce(kind, attempt, gas, balance, subs, trace);
      if done {
        return;
      }
      attempt := attempt + 1;
    }
    ExhaustedRun(kind, attempt, gas, balance, subs);
    r := LoopResult(trace, AttemptsExhausted, gas);
  }

  /** Every submission's gas is at least the starting gas. */
  lemma {:induction false} GasNeverShrinks(kind: TxKind, attempt: nat, gas: nat, balance: int, subs: seq<Submission>)
    requires attempt <= MaxAttempts
    ensures var a := RunFrom(kind, attempt, gas, balance, subs).attempts;
            forall i :: 0 <= i < |a| ==> a[i].gas >= gas
    decreases MaxAttempts - attempt
  {
    if RetriedAt(kind, attempt, gas, balance, subs) {
      GasNeverShrinks(kind, attempt + 1, ScaleGas(kind, gas), SubmissionAt(subs, attempt).balanceAfter, subs);
    }
  }

  /** Once the gas is at least the multiplier's denominator (5 for
      withdrawals, 10 for transfers), successive submissions carry strictly
      increasing gas. */
  lemma GasStrictlyIncreases(kind: TxKind, gas: nat, balance: int, subs: seq<Submission>)
    requires gas >= Multiplier(kind).1
    ensures var a := RunFrom(kind, 0, gas, balance, subs).attempts;
            forall i, j :: 0 <= i < j < |a| ==> a[i].gas < a[j].gas
  {
    var a := RunFrom(kind, 0, gas, balance, subs).attempts;
    GasNeverShrinks(kind, 0, gas, balance, subs);
    OnlyOutOfGasIsRetried(kind, 0, gas, balance, subs);
    forall i | 0 <= i < |a| - 1
      ensures a[i].gas < a[i + 1].gas
    {
      assert a[i + 1].gas == ScaleGas(kind, a[i].gas);
    }
    assert |a| <= 3;
  }

  /** After an out-of-gas verdict on the first submission, a second
      submission follows exactly when the loop's balance test lets it: for
      a withdrawal, when the balance read after the rejection covers the fee
      of the scaled gas; for a transfer, always. It carries the scaled gas
      and its recomputed fee. Otherwise the withdrawal loop stops with the
      one rejected submission, refusing the fee. */
  lemma OutOfGasLeadsToResubmission(kind: TxKind, nodeCount: nat, gas: nat, balance: int, scripts: seq<AttemptScript>)
    requires |scripts| >= 1 && scripts[0].submit.SubmitJson?
    requires PollStatus(scripts[0].submit.txHash, nodeCount, scripts[0].replies) == OutOfGas
    requires ChecksBalance(kind) ==> balance >= Fee(gas)
    ensures var r := Run(kind, nodeCount, gas, balance, scripts);
            var next := ScaleGas(kind, gas);
            && (|r.attempts| >= 2 <==> kind == Send || scripts[0].balanceAfter >= Fee(next))
            && (|r.attempts| >= 2 ==> r.attempts[1].gas == next && r.attempts[1].fee == Fee(next))
            && (|r.attempts| < 2 ==> |r.attempts| == 1 && IsOutOfGas(r.attempts[0]) && r.ending == FeeUnaffordable)
  {
    var subs := ResolveAll(nodeCount, scripts);
    var next := ScaleGas(kind, gas);
    assert SubmissionAt(subs, 0) == Resolve(nodeCount, scripts[0]);
    OutOfGasStep(kind, 0, gas, balance, subs);
    var rest := RunFrom(kind, 1, next, scripts[0].balanceAfter, subs);
    assert rest.attempts != [] <==> kind == Send || scripts[0].balanceAfter >= Fee(next) by {
      if kind == Withdraw && scripts[0].balanceAfter < Fee(next) {
        FinalStep(kind, 1, next, scripts[0].balanceAfter, subs);
      }
    }
    FeesFollowGas(kind, 1, next, scripts[0].balanceAfter, subs);
  }

  /** The chain's out-of-gas reply is recognised wherever the text stands in
      the log and whatever its letter case: code 11 with a log holding, at
      some offset, text that lower-cases to "out of gas" ("Out Of Gas",
      "OUT OF GAS", ...) is retried. */
  lemma OutOfGasReplyIsRetryable(rawLog: string, at: nat)
    requires at + |OutOfGasText| <= |rawLog|
    requires forall k :: 0 <= k < |OutOfGasText| ==> LowerChar(rawLog[at + k]) == OutOfGasText[k]
    ensures Classify(Some(11), rawLog) == OutOfGas
  {
    var low := Lower(rawLog);
    assert low[at..at + |OutOfGasText|] == OutOfGasText;
    assert OccursAt(low, OutOfGasText, at);
  }

  /** Code 11 without the diagnostic text is an ordinary failure, never retried. */
  lemma BareCodeElevenIsNotRetried(rawLog: string)
    requires !MentionsOutOfGas(rawLog)
    ensures Classify(Some(11), rawLog) == NotConfirmed
  {
  }
}

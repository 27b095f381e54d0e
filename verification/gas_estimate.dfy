/** The sweep script's gas estimators (`get_withdraw_gas_estimate`,
    `get_send_gas_estimate`): run an external probe up to `retries` times and
    take the first output that reads as a non-negative decimal, rounded to an
    integer; otherwise fall back to the kind's constant. The probe itself is
    I/O, so each run's outcome is a scripted input. */
module GasEstimate {
  import opened Base
  import opened Text
  import opened Fees

  /** One probe run: the subprocess failed (non-zero exit, raised and caught),
      or it printed `stdout`. */
  datatype ProbeRun = ProbeFailed | ProbeOutput(stdout: string)

  /** The k-th scripted run; a script that has run out behaves like a failing probe. */
  function RunAt(runs: seq<ProbeRun>, k: nat): ProbeRun {
    if k < |runs| then runs[k] else ProbeFailed
  }

  /** `s.replace('.', '')`. */
  function RemoveDots(s: string): (r: string)
    ensures |r| <= |s|
    ensures forall i :: 0 <= i < |r| ==> r[i] != '.'
    ensures forall i :: 0 <= i < |s| && s[i] != '.' ==> s[i] in r
    ensures forall c :: c in r ==> c in s
  {
    if s == [] then []
    else if s[0] == '.' then RemoveDots(s[1..])
    else [s[0]] + RemoveDots(s[1..])
  }

  /** The guard `gas_used and gas_used.replace('.', '').isdigit()`. */
  predicate PassesGuard(text: string) {
    |text| > 0 && |RemoveDots(text)| > 0 && AllDigits(RemoveDots(text))
  }

  predicate DigitsAndDots(s: string) {
    forall i :: 0 <= i < |s| ==> IsDigit(s[i]) || s[i] == '.'
  }

  /** Python's `float()` accepts a string of digits and dots exactly when it has
      at most one dot (and at least one digit, which the guard ensures). */
  predicate AtMostOneDot(s: string) {
    forall i, j :: 0 <= i < j < |s| && s[i] == '.' ==> s[j] != '.'
  }

  lemma GuardedTextIsDigitsAndDots(text: string)
    requires PassesGuard(text)
    ensures DigitsAndDots(text)
  {
    forall i | 0 <= i < |text| && text[i] != '.'
      ensures IsDigit(text[i])
    {
      assert text[i] in RemoveDots(text);
    }
  }

  /** Conversely, digits and dots with at least one digit pass the guard,
      however many dots there are. */
  lemma DigitsAndDotsPassGuard(text: string, k: nat)
    requires DigitsAndDots(text) && k < |text| && IsDigit(text[k])
    ensures PassesGuard(text)
  {
    var r := RemoveDots(text);
    assert text[k] in r;
    forall i | 0 <= i < |r|
      ensures IsDigit(r[i])
    {
      assert r[i] in text;
    }
  }

  /** Position of the first '.', or `|s|` when there is none. */
  function FirstDot(s: string): (k: nat)
    ensures k <= |s|
    ensures forall i :: 0 <= i < k ==> s[i] != '.'
    ensures k < |s| ==> s[k] == '.'
  {
    if s == [] || s[0] == '.' then 0 else 1 + FirstDot(s[1..])
  }

  /** A k-digit string denotes less than 10^k. */
  lemma {:induction false} DigitsValueBound(s: string)
    requires AllDigits(s)
    ensures DigitsValue(s) < Pow10(|s|)
    decreases |s|
  {
    if s != [] {
      DigitsValueBound(s[..|s| - 1]);
    }
  }

  /** Python's `round` on an exact decimal `whole + frac/scale`: the nearest
      integer, ties going to the even neighbour. */
  function RoundHalfEven(whole: nat, frac: nat, scale: nat): (r: nat)
    requires frac < scale
    ensures whole <= r <= whole + 1
    ensures -(scale as int) <= 2 * ((r - whole) * scale - frac) <= scale
    ensures 2 * frac == scale ==> r % 2 == 0
  {
    if 2 * frac < scale then whole
    else if 2 * frac > scale then whole + 1
    else if whole % 2 == 0 then whole
    else whole + 1
  }

  /** `int(round(float(text)))` for a text of digits with at most one dot. */
  function DecimalToGas(text: string): (gas: nat)
    requires DigitsAndDots(text) && AtMostOneDot(text)
  {
    var k := FirstDot(text);
    var whole := text[..k];
    var frac := if k < |text| then text[k + 1..] else [];
    assert AllDigits(whole);
    assert AllDigits(frac) by {
      forall i | 0 <= i < |frac|
        ensures IsDigit(frac[i])
      {
        assert frac[i] == text[k + 1 + i];
      }
    }
    DigitsValueBound(frac);
    RoundHalfEven(DigitsValue(whole), DigitsValue(frac), Pow10(|frac|))
  }

  /** What one probe output does in the code as written: a usable gas value,
      an output the guard rejects (the loop moves on), or an uncaught
      `ValueError` that ends the whole run. */
  datatype ParseOutcome = Gas(units: nat) | Unusable | Crash

  /** Parsing of one output as written: the guard only removes dots before
      `isdigit()`, so a text such as "1.2.3" passes it, and `float()` then
      raises `ValueError`, which the surrounding `except CalledProcessError`
      does not catch. */
  function ParseAsWritten(stdout: string): ParseOutcome {
    var text := Strip(stdout);
    if !PassesGuard(text) then Unusable
    else if !AtMostOneDot(text) then Crash
    else
      GuardedTextIsDigitsAndDots(text);
      Gas(DecimalToGas(text))
  }

  /** The as-written parser crashes exactly on guard-passing texts with more
      than one dot, and rejects exactly the texts the guard rejects. */
  lemma ParseAsWrittenCases(stdout: string)
    ensures ParseAsWritten(stdout).Crash? <==> PassesGuard(Strip(stdout)) && !AtMostOneDot(Strip(stdout))
    ensures ParseAsWritten(stdout).Unusable? <==> !PassesGuard(Strip(stdout))
  {
  }

  /** Parsing of one output with the evident intent: every output that is not
      a decimal number is skipped, so parsing never ends the run. */
  function ParseGas(stdout: string): Option<nat> {
    var text := Strip(stdout);
    if PassesGuard(text) && AtMostOneDot(text) then
      GuardedTextIsDigitsAndDots(text);
      Some(DecimalToGas(text))
    else None
  }

  /** The corrected parser accepts exactly the decimal texts, agrees with the
      as-written parser wherever that one yields a value, and turns its crash
      into a skipped output. */
  lemma ParseGasCorrectsCrash(stdout: string)
    ensures ParseGas(stdout).Some? <==> PassesGuard(Strip(stdout)) && AtMostOneDot(Strip(stdout))
    ensures ParseGas(stdout).Some? ==> ParseAsWritten(stdout) == Gas(ParseGas(stdout).value)
    ensures ParseGas(stdout).None? <==> !ParseAsWritten(stdout).Gas?
  {
  }

  /** The gas a probe run yields, if any. */
  function ProbeGas(run: ProbeRun): Option<nat> {
    match run
    case ProbeFailed => None
    case ProbeOutput(out) => ParseGas(out)
  }

  /** The gas each scripted run yields. */
  function Yields(runs: seq<ProbeRun>): (ys: seq<Option<nat>>)
    ensures |ys| == |runs|
  {
    if runs == [] then [] else [ProbeGas(runs[0])] + Yields(runs[1..])
  }

  /** What the k-th attempt yields; attempts past the script yield nothing. */
  function YieldAt(ys: seq<Option<nat>>, k: nat): Option<nat> {
    if k < |ys| then ys[k] else None
  }

  lemma {:induction false} YieldAtRun(runs: seq<ProbeRun>, k: nat)
    ensures YieldAt(Yields(runs), k) == ProbeGas(RunAt(runs, k))
    decreases k
  {
    if k < |runs| && k > 0 {
      YieldAtRun(runs[1..], k - 1);
    }
  }

  /** Attempt `k` is the first of the first `retries` attempts that yields a gas value. */
  predicate DecidesAt(ys: seq<Option<nat>>, k: int, retries: int) {
    0 <= k < retries && YieldAt(ys, k).Some?
    && forall j :: 0 <= j < k ==> YieldAt(ys, j).None?
  }

  /** The estimate, from attempt `k` on, given that attempts before `k` yielded nothing. */
  function EstimateFrom(kind: TxKind, ys: seq<Option<nat>>, retries: int, k: nat): (gas: nat)
    requires forall j :: 0 <= j < k ==> YieldAt(ys, j).None?
    ensures (exists d :: DecidesAt(ys, d, retries)) ==>
              exists d :: DecidesAt(ys, d, retries) && gas == YieldAt(ys, d).value
    ensures (forall j :: 0 <= j < retries ==> YieldAt(ys, j).None?) ==> gas == FallbackGas(kind)
    decreases retries - k
  {
    if k >= retries then FallbackGas(kind)
    else
      match YieldAt(ys, k)
      case Some(g) =>
        assert DecidesAt(ys, k, retries);
        g
      case None => EstimateFrom(kind, ys, retries, k + 1)
  }

  /** `get_withdraw_gas_estimate(retries)` / `get_send_gas_estimate(retries)`:
      the value of the first usable probe run among the first `retries`, else
      the kind's fallback. */
  function Estimate(kind: TxKind, runs: seq<ProbeRun>, retries: int): (gas: nat)
    ensures (exists d :: DecidesAt(Yields(runs), d, retries)) ==>
              exists d :: DecidesAt(Yields(runs), d, retries) && gas == YieldAt(Yields(runs), d).value
    ensures (forall j :: 0 <= j < retries ==> YieldAt(Yields(runs), j).None?) ==> gas == FallbackGas(kind)
  {
    EstimateFrom(kind, Yields(runs), retries, 0)
  }

  /** What the estimator does as written: a value, the fallback, or an
      aborted run. */
  datatype EstimateOutcome = Estimated(gas: nat) | Aborted

  /** The run's output crashes the parse as written. */
  predicate Crashes(run: ProbeRun) {
    run.ProbeOutput? && ParseAsWritten(run.stdout).Crash?
  }

  /** Among attempts `k` to `retries - 1`, a crashing output comes before
      any output that yields a value. */
  predicate CrashesFirst(runs: seq<ProbeRun>, retries: int, k: nat) {
    exists j :: k <= j < retries && Crashes(RunAt(runs, j))
                && forall i :: k <= i < j ==> ProbeGas(RunAt(runs, i)).None?
  }

  /** An attempt that neither yields nor crashes passes the question on to
      the next one. */
  lemma CrashesFirstSkips(runs: seq<ProbeRun>, retries: int, k: nat)
    requires k < retries && ProbeGas(RunAt(runs, k)).None? && !Crashes(RunAt(runs, k))
    ensures CrashesFirst(runs, retries, k) <==> CrashesFirst(runs, retries, k + 1)
  {
    if CrashesFirst(runs, retries, k) {
      var j :| k <= j < retries && Crashes(RunAt(runs, j))
               && forall i :: k <= i < j ==> ProbeGas(RunAt(runs, i)).None?;
      assert j != k;
    }
    if CrashesFirst(runs, retries, k + 1) {
      var j :| k + 1 <= j < retries && Crashes(RunAt(runs, j))
               && forall i :: k + 1 <= i < j ==> ProbeGas(RunAt(runs, i)).None?;
      assert forall i :: k <= i < j ==> ProbeGas(RunAt(runs, i)).None?;
    }
  }

  /** `get_withdraw_gas_estimate` / `get_send_gas_estimate` as written, from
      attempt `k` on: the run aborts exactly when a crashing output comes
      before any usable one. */
  function EstimateAsWrittenFrom(kind: TxKind, runs: seq<ProbeRun>, retries: int, k: nat): (r: EstimateOutcome)
    ensures r.Aborted? <==> CrashesFirst(runs, retries, k)
    decreases retries - k
  {
    if k >= retries then Estimated(FallbackGas(kind))
    else
      match RunAt(runs, k)
      case ProbeFailed =>
        CrashesFirstSkips(runs, retries, k);
        EstimateAsWrittenFrom(kind, runs, retries, k + 1)
      case ProbeOutput(out) =>
        ParseGasCorrectsCrash(out);
        match ParseAsWritten(out)
        case Gas(g) =>
          Estimated(g)
        case Crash =>
          assert Crashes(RunAt(runs, k));
          Aborted
        case Unusable =>
          CrashesFirstSkips(runs, retries, k);
          EstimateAsWrittenFrom(kind, runs, retries, k + 1)
  }

  /** Where no output crashes it first, the estimator as written gives the
      corrected estimate. */
  lemma {:induction false} AsWrittenAgreesFrom(kind: TxKind, runs: seq<ProbeRun>, retries: int, k: nat)
    requires forall j :: 0 <= j < k ==> YieldAt(Yields(runs), j).None?
    requires !CrashesFirst(runs, retries, k)
    ensures EstimateAsWrittenFrom(kind, runs, retries, k) == Estimated(EstimateFrom(kind, Yields(runs), retries, k))
    decreases retries - k
  {
    if k < retries {
      YieldAtRun(runs, k);
      var run := RunAt(runs, k);
      if run.ProbeOutput? {
        ParseGasCorrectsCrash(run.stdout);
      }
      if ProbeGas(run).None? {
        CrashesFirstSkips(runs, retries, k);
        AsWrittenSkips(kind, runs, retries, k);
        EstimateFromSkips(kind, Yields(runs), retries, k);
        AsWrittenAgreesFrom(kind, runs, retries, k + 1);
      }
    }
  }

  lemma AsWrittenSkips(kind: TxKind, runs: seq<ProbeRun>, retries: int, k: nat)
    requires k < retries && ProbeGas(RunAt(runs, k)).None? && !Crashes(RunAt(runs, k))
    ensures EstimateAsWrittenFrom(kind, runs, retries, k) == EstimateAsWrittenFrom(kind, runs, retries, k + 1)
  {
    if RunAt(runs, k).ProbeOutput? {
      ParseGasCorrectsCrash(RunAt(runs, k).stdout);
    }
  }

  lemma EstimateFromSkips(kind: TxKind, ys: seq<Option<nat>>, retries: int, k: nat)
    requires k < retries && forall j :: 0 <= j <= k ==> YieldAt(ys, j).None?
    ensures EstimateFrom(kind, ys, retries, k) == EstimateFrom(kind, ys, retries, k + 1)
  {
  }

  /** The estimator as written either aborts the run, exactly when a
      crashing output comes first, or gives the corrected estimate. */
  lemma AsWrittenEstimate(kind: TxKind, runs: seq<ProbeRun>, retries: int)
    ensures EstimateAsWrittenFrom(kind, runs, retries, 0).Aborted? <==> CrashesFirst(runs, retries, 0)
    ensures !CrashesFirst(runs, retries, 0) ==>
              EstimateAsWrittenFrom(kind, runs, retries, 0) == Estimated(Estimate(kind, runs, retries))
  {
    if !CrashesFirst(runs, retries, 0) {
      AsWrittenAgreesFrom(kind, runs, retries, 0);
    }
  }

  /** The estimator loop as written: it returns the first usable output's
      value, the fallback when none of the `retries` runs gives one, or
      aborts on a crashing output; where it does not abort its value is the
      corrected estimate. */
  method EstimateGas(kind: TxKind, runs: seq<ProbeRun>, retries: int) returns (outcome: EstimateOutcome)
    ensures outcome.Aborted? <==> CrashesFirst(runs, retries, 0)
    ensures outcome.Estimated? ==> outcome.gas == Estimate(kind, runs, retries)
  {
    AsWrittenEstimate(kind, runs, retries);
    var attempt: nat := 0;
    while attempt < retries
      invariant EstimateAsWrittenFrom(kind, runs, retries, attempt) == EstimateAsWrittenFrom(kind, runs, retries, 0)
      decreases retries - attempt
    {
      var run := RunAt(runs, attempt);
      if run.ProbeOutput? {
        match ParseAsWritten(run.stdout) {
          case Gas(g) => return Estimated(g);
          case Crash => return Aborted;
          case Unusable =>
        }
      }
      attempt := attempt + 1;
    }
    outcome := Estimated(FallbackGas(kind));
  }

  lemma MultiDotTextIsStripped()
    ensures Strip("1.2.3") == "1.2.3"
  {
    assert !IsSpace('1') && !IsSpace('3');
  }

  lemma MultiDotTextPassesGuard()
    ensures PassesGuard("1.2.3")
  {
    var t := "1.2.3";
    assert DigitsAndDots(t) by {
      assert t[0] == '1' && t[1] == '.' && t[2] == '2' && t[3] == '.' && t[4] == '3';
    }
    DigitsAndDotsPassGuard(t, 0);
  }

  lemma MultiDotTextHasTwoDots()
    ensures !AtMostOneDot("1.2.3")
  {
    var t := "1.2.3";
    assert t[1] == '.' && t[3] == '.';
  }

  /** "1.2.3" passes the guard, crashes the as-written parser and is skipped
      by the corrected one. */
  lemma MultiDotTextCrashes()
    ensures ParseAsWritten("1.2.3") == Crash
    ensures ParseGas("1.2.3") == None
  {
    MultiDotTextIsStripped();
    MultiDotTextPassesGuard();
    MultiDotTextHasTwoDots();
  }

  /** A script whose only run yields nothing leaves every attempt without a value. */
  lemma SingleSilentRunYieldsNothing(run: ProbeRun)
    requires ProbeGas(run).None?
    ensures forall j :: 0 <= j < 5 ==> YieldAt(Yields([run]), j).None?
  {
    assert Yields([run]) == [ProbeGas(run)];
  }

  /** The estimator as written aborts on a probe that prints "1.2.3", although
      the guard accepted that output; the corrected estimator falls back. */
  lemma MultiDotOutputAbortsRun()
    ensures EstimateAsWrittenFrom(Withdraw, [ProbeOutput("1.2.3")], 5, 0) == Aborted
    ensures Estimate(Withdraw, [ProbeOutput("1.2.3")], 5) == 900000
  {
    MultiDotTextCrashes();
    var runs := [ProbeOutput("1.2.3")];
    assert RunAt(runs, 0) == ProbeOutput("1.2.3");
    SingleSilentRunYieldsNothing(ProbeOutput("1.2.3"));
  }
}

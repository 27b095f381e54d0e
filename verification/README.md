# A Dafny model of the Cosmos reward sweep

This project models the decision logic of a small Cosmos Hub automation: a
Python script that visits 119 wallets in random order. For each wallet it:

- withdraws staking rewards once they reach 700000 uatom;
- keeps a random reserve of 15000 to 25000 uatom;
- sends the rest to an exchange address.

Gas comes from an estimator. Each transaction is submitted with a fee of
`int(gas * 0.005) + 1`, polled until it is confirmed, and resubmitted with
more gas after an out-of-gas rejection. An uncaught `ValueError`, from a gas
probe output or from the rewards query, ends the whole run; the model
records such a wallet as halted and stops the wallet loop there. Around the script sit four helpers,
which the model also covers:

- a JavaScript gas calculator that averages the gas of recent transactions with an interquartile outlier filter;
- a JavaScript RPC client that keeps endpoint health records and retries requests;
- a stand-alone health checker that probes endpoints and summarises them;
- the Python configuration with its validator.

Everything the programs ask the outside world becomes an input:

- command output, chain replies, HTTP replies and the clock;
- the values `random`, `Math.random` and `random.shuffle` produce.

A scripted sequence is read by index, with a neutral default past its end.
Random draws carry a precondition that keeps them in the range the library
guarantees. Floating-point quantities are exact rationals:

- the gas price is 1/200;
- the gas multipliers 1.2 and 1.1 are 6/5 and 11/10;
- the 1.5·IQR fences are compared on doubled integers;
- `Math.round(x)` is `floor(x + 1/2)`.

| module | file | models |
|---|---|---|
| `Base` | base.dfy | option type, min/max, JavaScript rounding |
| `Text` | text.dfy | Python `strip`, lower-casing, substring search, decimal rendering |
| `Fees` | fees.dfy | `calculate_fees`, fallback gas, gas multipliers |
| `GasEstimate` | gas_estimate.dfy | `get_withdraw_gas_estimate` / `get_send_gas_estimate` |
| `Confirmation` | confirmation.dfy | `check_transaction` |
| `Allocator` | allocator.dfy | reserve band, transfer amount, minimum transfer |
| `Lifecycle` | lifecycle.dfy | the withdraw and send retry loops |
| `Sweep` | sweep.dfy | `main`: target planning, per-wallet processing, shuffled wallet loop |
| `Config` | config.dfy | `validate_config` and the default configuration |
| `GasSamples` | gas_samples.dfy | event matching, transaction filter, `calculateAverageGas` |
| `GasCalculator` | gas_calculator.dfy | `withRetry`, the cache, the block scan, `analyzeBlocks` |
| `RpcClient` | rpc_client.dfy | `RPCClient` endpoint bookkeeping, `makeRequest`, health update, `getTransaction` |
| `HealthCheck` | health_check.dfy | `checkSingleEndpoint`, `checkAllEndpoints`, `printResults` |

## Model

| member | source | states |
|---|---|---|
| Base.JsRound | js/gas-calculator.js:227 | `Math.round` gives an integer within one half of its argument |
| Text.Strip | script.py:33 | the stripped text stands in the input with only whitespace before and after it, and has no whitespace at either end; all-space text strips to empty; text without edge spaces is unchanged |
| Text.Lower | script.py:72 | lowering keeps the length and maps every character through ASCII lower-casing |
| Text.ContainsAtOffset | script.py:72 | substring search succeeds exactly when the pattern occurs at some offset |
| Text.NatToString | js/gas-calculator.js:40 | the decimal rendering is a non-empty digit string denoting the number, with no leading zero |
| Text.NatToStringInjective | js/gas-calculator.js:39-41 | distinct numbers render as distinct strings |
| Fees.Fee | script.py:57-58 | the fee is at least 1 and is the least whole amount strictly above gas/200 |
| Fees.FeeMonotone | script.py:57-58 | more gas never costs a smaller fee |
| Fees.FallbackGas | script.py:41 | the fallback gas is positive (900000 withdraw, 250000 send) |
| Fees.Multiplier | script.py:197 | the retry multiplier is a fraction above one |
| Fees.ScaleGas | script.py:197 | the escalated gas is never below the gas, and above it once gas reaches the multiplier's denominator |
| Fees.ScaleGasTruncates | script.py:197 | `int(gas * m)` is the floor of gas times the kind's multiplier (1.2 or 1.1) |
| GasEstimate.RemoveDots | script.py:34 | removing dots keeps every other character and introduces none |
| GasEstimate.GuardedTextIsDigitsAndDots | script.py:34 | text passing the guard consists of digits and dots only |
| GasEstimate.DigitsAndDotsPassGuard | script.py:34 | conversely, any text of digits and dots with at least one digit passes the guard, whatever the number of dots |
| GasEstimate.RoundHalfEven | script.py:35 | Python `round` gives the nearest integer, ties to even |
| GasEstimate.ParseAsWrittenCases | script.py:33-35 | as written, an output crashes the parse exactly when it passes the guard with two or more dots, and is skipped exactly when it fails the guard |
| GasEstimate.ParseGasCorrectsCrash | script.py:33-38 | the corrected parse accepts exactly guarded one-dot texts and agrees with the as-written value on them |
| GasEstimate.EstimateFrom | script.py:29-41 | the first attempt that yields a value decides the estimate; if none of the retries does, the fallback is used |
| GasEstimate.Estimate | script.py:29-41 | the corrected estimator of the finding at script.py:34-35: the first value among the retries, an output that does not parse being skipped, else the fallback |
| GasEstimate.EstimateAsWrittenFrom | script.py:29-41 | as written, the estimator aborts the run exactly when an output that crashes the parse comes before any usable one |
| GasEstimate.AsWrittenAgreesFrom | script.py:29-41 | where no crashing output comes first, the as-written estimator gives the corrected estimate |
| GasEstimate.AsWrittenEstimate | script.py:29-41 | the as-written estimator aborts exactly when a crashing output comes first, and otherwise gives the corrected estimate |
| GasEstimate.EstimateGas | script.py:29-41 | the estimator loop as written aborts exactly when a crashing output comes first; otherwise its value is the corrected estimate |
| GasEstimate.MultiDotOutputAbortsRun | script.py:34-38 | a probe printing "1.2.3" aborts the as-written run, while the corrected estimate falls back to 900000 |
| Confirmation.Classify | script.py:69-77 | confirmed exactly for code 0; out of gas exactly for code 11 with "out of gas" in the log in any case |
| Confirmation.FirstParsedFrom | script.py:63-80 | finds the first query whose reply parses, and none is skipped |
| Confirmation.Rounds | script.py:63-64 | every round queries every node once, in list order |
| Confirmation.CheckTransactionSpec | script.py:60-83 | an empty hash is never confirmed; at most rounds×nodes queries; the first parseable reply decides; with none, not confirmed |
| Confirmation.DecidedAt | script.py:63-77 | polling is decided by the first parseable reply, after exactly that many queries |
| Confirmation.PollRound | script.py:64-80 | one round stops at the first parseable reply and otherwise asks every node |
| Confirmation.CheckTransaction | script.py:60-83 | the polling loop agrees with the specification and queries nodes in round order |
| Allocator.ReserveBand | script.py:219-222 | the band's ends are the two clamped bounds, ordered, and at most the balance |
| Allocator.NoSwapWhenOrdered | script.py:219-222 | with ordered bounds the swap never happens |
| Allocator.Allocate | script.py:219-227 | the reserve lies in the band and equals the draw when the band is wide; reserve plus transfer is the balance; transfer non-negative |
| Allocator.SweepAllocationBounds | script.py:219-227 | the sweep keeps between min(15000, b) and min(25000, b) and sends nothing from a balance of 15000 or less |
| Allocator.HundredThousandScenario | script.py:219-227 | a balance of 100000 sends between 75000 and 85000 |
| Allocator.MinSendAmount | script.py:236 | the minimum transfer is the larger of 50000 and fee + 3000 |
| Allocator.FeeCheckAfterThresholdIsRedundant | script.py:236-241 | once the transfer clears the minimum, the balance always covers the fee, so the later refusal never fires |
| Lifecycle.RunFrom | script.py:171-210 | at most three submissions, the first with the current gas |
| Lifecycle.FeesFollowGas | script.py:197-198 | every submission carries the fee of its own gas |
| Lifecycle.OnlyOutOfGasIsRetried | script.py:195-210 | only out-of-gas submissions are followed by another, whose gas is the scaled previous gas |
| Lifecycle.EndingMatchesLastAttempt | script.py:203-210 | the loop ends confirmed, failed or unreadable exactly when its last submission did |
| Lifecycle.OutOfGasStopsOnlyAtLimits | script.py:174-202 | after out of gas the loop stops only for lack of attempts or, when withdrawing, of funds; exhaustion used every attempt |
| Lifecycle.SubmitOnce | script.py:171-210 | one pass of the loop either ends with the run's result or hands the rest of the run to the next attempt, with the scaled gas and refreshed balance |
| Lifecycle.SubmitWithRetries | script.py:171-210 | the imperative loop makes exactly the submissions of the recursive definition |
| Lifecycle.GasNeverShrinks | script.py:197 | every submission's gas is at least the starting gas |
| Lifecycle.GasStrictlyIncreases | script.py:197 | from a gas of at least the multiplier's denominator, each retry carries strictly more gas |
| Lifecycle.OutOfGasLeadsToResubmission | script.py:174-202 | after an out-of-gas first submission, a second one follows exactly when the withdrawal balance read afterwards covers the scaled fee, and always for a transfer (whose loop at lines 247-266 has no balance test); it carries the scaled gas and its fee; otherwise the withdrawal stops on the unaffordable fee after the one rejected submission |
| Lifecycle.OutOfGasReplyIsRetryable | script.py:72 | code 11 with a log holding, at any offset, any letter-case variant of "out of gas" (such as "Out Of Gas") is recognised as out of gas |
| Lifecycle.BareCodeElevenIsNotRetried | script.py:72-77 | code 11 without the diagnostic text is an ordinary failure |
| Sweep.PollingIsBounded | script.py:60-83 | one confirmation poll against the three nodes asks at most 30 queries |
| Sweep.PlanTargets | script.py:107-132 | refused exactly when both files are empty or both are too short; otherwise wallet i goes to address i of a usable file |
| Sweep.NoUsableFileIsUnreachable | script.py:107-123 | the third refusal can never happen |
| Sweep.SingleFileTakesAll | script.py:115-132 | with one usable file every wallet sends to that exchange |
| Sweep.Process | script.py:147-304 | skipped exactly when the balance is below the withdraw fee; halted exactly on unreadable rewards or a crashing transfer probe, and on rewards before any withdrawal; withdraw exactly above the reward threshold; the reserve lies in [min(15000, balance), min(25000, balance)] and the rest is sent; transfer exactly when it clears the minimum, by the transfer loop from the balance read after the withdrawal; pause exactly after a confirmed action, within one to two hours |
| Sweep.ProcessWallet | script.py:147-304 | the wallet body with its gas probes as written halts the run at once exactly when the withdrawal probe's outputs crash the parse first; it halts at the transfer probe only when that probe's outputs do |
| Sweep.ProcessWalletAsCorrected | script.py:147-304 | without a crash in the withdrawal probe, the wallet goes as `Process` with the corrected withdrawal estimate, and with the corrected transfer estimate unless that probe crashes |
| Sweep.CrashingFirstProbeHalts | script.py:148-151 | a first withdrawal probe output that crashes the parse halts the run at that wallet, before any transaction |
| Sweep.MultiDotProbeHaltsWallet | script.py:34-35 | a first withdrawal probe output "1.2.3" halts the run at that wallet |
| Sweep.FirstWithdrawalIsSubmitted | script.py:154-177 | once the balance covers the fee, the first withdrawal is always submitted with the estimated gas |
| Sweep.DelayOnlyAfterConfirmation | script.py:296-301 | a pause follows only a confirmed withdrawal or transfer |
| Sweep.TransferClearsThreshold | script.py:234-242 | a transfer moves at least 50000, clears its fee by 3000 and leaves the drawn reserve |
| Sweep.Range | script.py:134 | `range(n)` lists 0..n-1 in order |
| Sweep.RangeIsShuffle | script.py:134-135 | the unshuffled order is a valid visiting order |
| Sweep.ShuffleIsPermutationOfRange | script.py:134-135 | a visiting order is a permutation of `range(n)` |
| Sweep.SweepWallets | script.py:134-304 | wallets are visited in the shuffled order, none twice, each with its own target; the loop ends early exactly after a halting wallet, which is the last visit; without a halt every wallet is visited exactly once; total pause between 3600 and 7200 s per acting wallet |
| Config.ComplaintsFrom | config.py:160-179 | the complaints are exactly those of the failing checks, in check order |
| Config.ValidateConfig | config.py:160-179 | each complaint appears exactly when its constraint is violated; no complaint exactly when well formed |
| Config.AtMostFiveErrors | config.py:160-179 | never more than five complaints |
| Config.DefaultsValidate | config.py:13-57 | the default configuration validates |
| Config.ScriptUsesDefaults | config.py:13-91 | the sweep's hard-coded constants equal the configuration's defaults |
| GasSamples.KindOf | js/gas-calculator.js:128 | the fallback kind is withdraw exactly for "withdraw" |
| GasSamples.FallbackFor | js/gas-calculator.js:11-14 | 900000 for "withdraw", 250000 for any other type |
| GasSamples.SomeAttribute | js/gas-calculator.js:189-194 | true exactly when some attribute is an `action` containing the type's word |
| GasSamples.EventMatchesDecided | js/gas-calculator.js:186-195 | the executable test agrees with the event predicate |
| GasSamples.SomeEvent | js/gas-calculator.js:186-195 | true exactly when some event matches |
| GasSamples.CheckTransactionEvents | js/gas-calculator.js:179-196 | false for missing events; otherwise true exactly when some event matches |
| GasSamples.RelevantSamples | js/gas-calculator.js:145-170 | every sample is plausible and carries the block height |
| GasSamples.RelevantSamplesExact | js/gas-calculator.js:145-165 | a sample is produced exactly for a successful, matching, plausible transaction |
| GasSamples.RelevantSampleCount | js/gas-calculator.js:145-170 | each sample occurs in the block's samples once per transaction that produces it |
| GasSamples.SortAscending | js/gas-calculator.js:204 | the numeric sort is sorted and a permutation of its input |
| GasSamples.SortedArrangementUnique | js/gas-calculator.js:204 | any two sorted permutations of the same values are equal, so the quartiles do not depend on the sort |
| GasSamples.GasUsedOf | js/gas-calculator.js:204 | the gas values are taken in sample order |
| GasSamples.WithinFences | js/gas-calculator.js:209-215 | a sample within the fences is kept as often as it occurs, one outside them not at all |
| GasSamples.QuartilesOf | js/gas-calculator.js:204-208 | q1 and q3 are sample values, q1 ≤ q3, and they are the ⌊n/4⌋-th and ⌊3n/4⌋-th smallest gas values: at most that many values lie below each, more lie at or below it |
| GasSamples.OrderStatisticUnique | js/gas-calculator.js:204-208 | only one value has a given rank, so that rank condition fixes each quartile |
| GasSamples.Margin | js/gas-calculator.js:226 | the margin is above one |
| GasSamples.CalculateAverageGas | js/gas-calculator.js:198-238 | no samples gives the fallback |
| GasSamples.QuartileSamplesAreKept | js/gas-calculator.js:205-215 | the quartile values survive the filter, so it never empties a non-empty list |
| GasSamples.MeanBetween | js/gas-calculator.js:222-223 | a mean of values in [lo, hi] lies in [lo, hi] |
| GasSamples.MeanWithinSamples | js/gas-calculator.js:213-223 | the mean lies between the smallest and the largest kept gas |
| GasSamples.AdjustedGasCoversMean | js/gas-calculator.js:222-227 | the result is within one half of mean × margin, and at least the mean when the margin adds half a unit |
| GasSamples.TinySamplesCanLoseTheMargin | js/gas-calculator.js:222-227 | samples 1, 1, 2 give 1 although their mean is 4/3 |
| GasCalculator.RetryFromSpec | js/gas-calculator.js:23-33 | retrying from an attempt returns the first success or rethrows the last failure, within the budget |
| GasCalculator.WithRetryContract | js/gas-calculator.js:23-33 | at most `maxRetries` calls; the first success is returned; after `maxRetries` failures the last error is rethrown; no attempts means undefined |
| GasCalculator.RunWithRetry | js/gas-calculator.js:23-33 | the loop agrees with the recursive definition |
| GasCalculator.CacheKeyInjective | js/gas-calculator.js:39-41 | distinct (type, count) pairs never share a key, even when types contain underscores or digits |
| GasCalculator.ScanFrom | js/gas-calculator.js:69-107 | the scan stays within the block and check limits and gathers only plausible samples |
| GasCalculator.Attempts | js/gas-calculator.js:60-122 | each retried call scans the connection it is given |
| GasCalculator.AnalyzeBlocks | js/gas-calculator.js:47-130 | a valid cache entry is returned untouched; only the key's entry can change, and then to the returned gas |
| GasCalculator.AnalyzeBlocksFresh | js/gas-calculator.js:47-130 | without a valid entry the first successful attempt's gas is returned and cached; if all three fail, the fallback is returned uncached |
| GasCalculator.CachedResultIsReused | js/gas-calculator.js:43-54 | a freshly cached figure is served by any call within five minutes |
| GasCalculator.ScanFeedsPlausibleSamples | js/gas-calculator.js:69-111 | a scan finding any block yields a non-empty list of plausible samples |
| GasCalculator.PlausibleSamplesGivePositiveGas | js/gas-calculator.js:198-238 | plausible samples give a gas of at least 1 |
| GasCalculator.AnalyzedGasIsPositive | js/gas-calculator.js:47-130 | with positive cached figures the result, and every cached figure, stays at least 1 |
| GasCalculator.GetGas | js/gas-calculator.js:241-267 | the wrappers return positive gas and touch only the five-block cache entry |
| RpcClient.MakeOptions | js/rpc-client.js:17-23 | missing options get defaults 30000/3/300000/3, and given ones are kept |
| RpcClient.NewClient | js/rpc-client.js:8-35 | every endpoint starts healthy, unchecked, at 0 ms with no failures; counters are zero |
| RpcClient.UsableFrom | js/rpc-client.js:77-82 | the filter keeps exactly the usable endpoints, in order |
| RpcClient.HealthyIndices | js/rpc-client.js:77-82 | an index is healthy exactly when marked healthy and below the failure limit; order is kept |
| RpcClient.HealthyEndpoints | js/rpc-client.js:77-82 | the healthy endpoints are the endpoints at the healthy positions, in list order |
| RpcClient.FreshEndpointsAreHealthy | js/rpc-client.js:9-15 | with a positive failure limit, a new client's healthy set is every endpoint |
| RpcClient.FirstFastest | js/rpc-client.js:93-95 | the choice is a healthy endpoint of least response time, earliest among ties |
| RpcClient.BestEndpoint | js/rpc-client.js:84-96 | the first endpoint when none is healthy; otherwise a fastest healthy one |
| RpcClient.BestIsEarliestAmongFastest | js/rpc-client.js:93-95 | no earlier healthy endpoint is equally fast, as with a stable sort |
| RpcClient.ScaledDraw | js/rpc-client.js:102 | `floor(u * n)` is a valid index |
| RpcClient.RandomEndpoint | js/rpc-client.js:98-106 | a member of the healthy set when it is non-empty, else any endpoint |
| RpcClient.EveryHealthyEndpointCanBeDrawn | js/rpc-client.js:98-106 | every healthy endpoint is chosen by some draw |
| RpcClient.Choose | js/rpc-client.js:116 | an endpoint exists exactly when the list is non-empty |
| RpcClient.PickerFor | js/rpc-client.js:116 | each attempt's choice is the fast or the random choice with that attempt's draw |
| RpcClient.RecordFailure | js/rpc-client.js:146-153 | the failing endpoint gains one failure and is marked unhealthy at the limit; nothing else changes |
| RpcClient.RecordSuccess | js/rpc-client.js:138-139 | the serving endpoint's response time becomes the mean of old and new; nothing else changes |
| RpcClient.TryFrom | js/rpc-client.js:115-161 | the attempts never add or remove endpoints |
| RpcClient.RecordServed | js/rpc-client.js:171-175 | the corrected update of the finding at js/rpc-client.js:171-175 keeps average × served equal to the old total plus the new time |
| RpcClient.Settle | js/rpc-client.js:141-175 | one request is counted; a success or an exhaustion adds one to its counter; the counters move as one more served or failed request of the history, with the average updated as written; the thrown error never carries a response |
| RpcClient.MakeRequest | js/rpc-client.js:108-165 | total requests rise by one; successes or failed requests rise by one as the outcome says; errors carry no response |
| RpcClient.TryFromEnds | js/rpc-client.js:115-161 | at most `maxRetries` attempts; a served request was served by its last attempt; exhaustion used every attempt |
| RpcClient.TryFromFailuresFirst | js/rpc-client.js:115-161 | every attempt before the serving or last one failed |
| RpcClient.TryFromLastError | js/rpc-client.js:146-164 | the error reported after exhaustion is the last attempt's |
| RpcClient.TryFromCountsFailures | js/rpc-client.js:139-153 | each failed attempt adds exactly one failure in total, and the serving one none |
| RpcClient.MakeRequestContract | js/rpc-client.js:108-165 | the data returned is the serving attempt's; exhaustion used `maxRetries` failed attempts and reports the last error; failures grow by the failed attempts |
| RpcClient.RunAttempts | js/rpc-client.js:115-161 | the attempt loop agrees with the recursive definition |
| RpcClient.RunRequest | js/rpc-client.js:108-165 | the method agrees with the functional request |
| RpcClient.MakeRequestExtendsHistory | js/rpc-client.js:113-175 | the counters after `makeRequest` extend the request history by the serving attempt's time or by a failure, with the average kept as written |
| RpcClient.MakeRequestDilutesAverage | js/rpc-client.js:171-175 | through `makeRequest`, after 100 ms and a failure, an answer in 400 ms leaves the average at 200 ms |
| RpcClient.RepeatedFailuresRetireEndpoint | js/rpc-client.js:146-153 | n failed attempts in a row add n failures; the endpoint stays healthy exactly when it was and the count stays below the limit, so reaching the limit drops it from the healthy set |
| RpcClient.StatsAfter | js/rpc-client.js:113-175 | after a run of requests, total = served + failed = number of requests |
| RpcClient.RecordServedAsWritten | js/rpc-client.js:171-175 | as written, the new average times the request count (failures included) is the old average times the earlier count plus the new time; the counts other than the served one are unchanged |
| RpcClient.NoFailuresNoDilution | js/rpc-client.js:171-175 | over a history with no failed request the as-written average equals the corrected one, so failures are the only source of the dilution |
| RpcClient.AverageIsMeanOfServed | js/rpc-client.js:171-175 | with the corrected update the average is the mean of the served times |
| RpcClient.FailedRequestDilutesAverage | js/rpc-client.js:171-175 | as written, 100 ms, a failure, then 400 ms average to 200 ms instead of 250 ms |
| RpcClient.ApplyProbe | js/rpc-client.js:46-67 | healthy exactly when the probe answered 200; an answered probe resets failures and records the time; a failed one adds a failure; both stamp the check time |
| RpcClient.ProbeDecidesHealth | js/rpc-client.js:53-62 | after a probe an endpoint is usable exactly when it answered 200 |
| RpcClient.CheckAllEndpointsHealth | js/rpc-client.js:43-75 | every endpoint is probed and updated in place; options and counters are unchanged |
| RpcClient.HealthCheckSetsHealthySet | js/rpc-client.js:43-82 | after a health check the healthy set is exactly the endpoints that answered 200 |
| RpcClient.MissingTransactionNeverReported | js/rpc-client.js:200-210 | as written, the lookup never returns "not found" |
| RpcClient.NotFoundTransactionRaises | js/rpc-client.js:200-210 | three 404 answers make the as-written lookup raise |
| RpcClient.GetTransaction | js/rpc-client.js:200-210 | corrected: "not found" exactly when the request failed on a 404; data exactly when served |
| RpcClient.MissingTransactionReported | js/rpc-client.js:200-210 | corrected: 404 answers on every attempt give "not found" |
| HealthCheck.ErrorText | js/health-check.js:55-57 | ENOTFOUND, ECONNREFUSED and ETIMEDOUT get fixed wording; other codes keep the message |
| HealthCheck.KnownCodesKeepDistinctTexts | js/health-check.js:55-57 | the three fixed wordings are distinct |
| HealthCheck.CheckSingleEndpoint | js/health-check.js:12-61 | healthy exactly for HTTP 200 and error exactly for a thrown probe; an error text exactly when not healthy; block height from the sync info, else 0 |
| HealthCheck.UnhealthyErrorNamesStatus | js/health-check.js:45-48 | two unhealthy results have the same error text exactly when their statuses agree |
| HealthCheck.CheckAllEndpoints | js/health-check.js:63-70 | one result per endpoint, in the endpoints' order |
| HealthCheck.JsMax | js/health-check.js:94 | `Math.max` is NaN when either side is, and otherwise the larger |
| HealthCheck.TallyOf | js/health-check.js:76-104 | healthy ≤ total, zero exactly when none is healthy; the maximum height is NaN exactly when a healthy height is, otherwise 0 or the largest healthy height |
| HealthCheck.Percentage | js/health-check.js:106 | NaN exactly for no results; 0 to 100; 100 when all are healthy; at least 50 when half are |
| HealthCheck.ColourOf | js/health-check.js:116-118 | green from 80%, red below 50% or for NaN |
| HealthCheck.VerdictOf | js/health-check.js:120-126 | critical exactly when none is healthy; warning exactly when fewer than half are; stable otherwise |
| HealthCheck.Summarize | js/health-check.js:72-135 | total is the number of results and healthy the number of healthy ones; the average is the rounded sum of healthy times over that count, 0 when none; critical exactly when none is healthy, warning exactly when fewer than half are, stable otherwise; NaN percentage exactly for no results |
| HealthCheck.VerdictAgreesWithColour | js/health-check.js:106-126 | a stable verdict is never red; a critical one is red at 0% |
| HealthCheck.AverageWithinHealthyTimes | js/health-check.js:110-111 | the average response time lies between the fastest and slowest healthy times |
| HealthCheck.TallyCountsHealthy | js/health-check.js:76-92 | the loop's count is the number of healthy results |
| HealthCheck.TallyAddsHealthyTimes | js/health-check.js:76-93 | the total time is the sum of the healthy results' times |
| HealthCheck.AllAnsweringIsStable | js/health-check.js:12-135 | all endpoints answering 200 give a stable, green, 100% summary |
| HealthCheck.NoneAnsweringIsCritical | js/health-check.js:12-135 | no endpoint answering 200 gives a critical summary with average 0 and height 0 |

## Left out

- Process execution, files, HTTP, RPC clients and JSON decoding are left out. Their results are inputs: scripted outputs, replies and balances.
- `get_current_balance`'s JSON plumbing is not modelled; balances are inputs.
- Sleeps, `setInterval` in `startHealthChecks`, and the `Promise.all` concurrency of the health checks are timing and concurrency.
- Logging and coloured console output are left out.
- `get_config_summary` is left out because it is formatting.
- Configuration is left out where it depends on the environment: overrides, `CUSTOM_RPC_*` nodes and the Binance file check. A configuration is any record.
- IEEE floating point is replaced by exact rationals. For example, `Math.round(h / t * 100)` can differ from the exact value at a rounding tie.
- `parseInt` prefix parsing is an input: the parsed gas, height or NaN is given.
- Python `str.lower` and `isdigit` are modelled on ASCII only.
- `getRandomRPC` is an input, because it only chooses which URL the scripted connection belongs to.
- The remaining client methods are not modelled: `getBalance`, `getRewards`, `getBlock`, `getLatestBlock`, `getStats`, `printStats` and `testAllEndpoints`. They only wrap `makeRequest` or print.
- The HTTP method, path, body and timeout of `makeRequest` are not modelled; the outcome of each attempt is scripted.
- The health checker's `details` record is not modelled, because it is only printed.
- The axios rule that turns non-2xx statuses into thrown errors is not modelled. Which kind of reply arrives is an input.
- GasSamples.AdjustedGasCoversMean: the margin is only guaranteed to show in the result when mean × (margin − 1) is at least one half. For tiny gas values the rounding can cancel it, as TinySamplesCanLoseTheMargin shows.
- GasEstimate.Estimate: this is the corrected estimator, which skips an output `float` rejects. The estimator as written is EstimateAsWrittenFrom and EstimateGas, which abort the run; AsWrittenEstimate relates the two.
- Which rewards outputs Python's `float` accepts is an input: a number, nothing, or an unreadable text. The float grammar itself is not modelled.
- Lifecycle.RunFrom: each submission is resolved before the loop runs: its submit reply is paired with the confirmation poll's verdict and the balance read afterwards. The loop then runs over these resolved submissions.

## Findings

| source | as written | input that shows it | evidently intended | confidence | as-written member | corrected member |
|---|---|---|---|---|---|---|
| script.py:34-35 | the guard removes every dot before `isdigit`, so "1.2.3" passes, and `float` then raises `ValueError`; only `CalledProcessError` is caught, so the whole run aborts | probe output "1.2.3" | an output that is not a number is treated like any other unusable output, and the next retry or the fallback is used | high, not executed | GasEstimate.MultiDotOutputAbortsRun | GasEstimate.ParseGasCorrectsCrash |
| js/rpc-client.js:200-210 | `getTransaction` tests `error.response?.status === 404`, but the error comes from `makeRequest` (line 164), a fresh `Error` with no response, so `null` is never returned | every attempt answered 404 | a transaction whose last attempt was answered 404 is reported missing (`null`) | high, not executed | RpcClient.MissingTransactionNeverReported | RpcClient.MissingTransactionReported |
| js/rpc-client.js:171-175 | the average response time divides by `totalRequests`, which also counts failed requests, so failures dilute the mean | served in 100 ms, failed, served in 400 ms: average 200 ms | the mean over served requests, 250 ms | medium, not executed | RpcClient.MakeRequestDilutesAverage | RpcClient.AverageIsMeanOfServed |

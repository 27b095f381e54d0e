/** The `GasCalculator` of `gas-calculator.js` around the statistics:
    `withRetry`, the five-minute result cache keyed by message type and block
    count, the downward block scan and `analyzeBlocks`, which falls back to
    the fixed figures when every attempt fails. Network replies are scripted:
    the k-th attempt of the scan gets the k-th scripted connection, and the
    k-th block fetched gets the k-th scripted block. Clock readings are
    parameters. */
module GasCalculator {
  import opened Base
  import opened Text
  import opened GasSamples

  // ---------------------------------------------------------------------
  // withRetry
  // ---------------------------------------------------------------------

  /** What one call of the retried operation did. */
  datatype Try<T> = Succeeded(value: T) | Threw(error: string)

  /** What `withRetry` did: returned the first success, rethrew the last
      error, or — when `maxRetries <= 0` — ran no attempt and resolved to
      `undefined`. `calls` counts the operation's calls. */
  datatype Retried<T> = Returned(value: T, calls: nat) | Rethrown(error: string, calls: nat) | FellThrough

  /** The outcome of the k-th call; past the script's end the operation throws. */
  function TryAt<T>(tries: seq<Try<T>>, k: nat): Try<T> {
    if k < |tries| then tries[k] else Threw("no reply")
  }

  /** The calls from number `attempt` on. */
  function RetryFrom<T>(tries: seq<Try<T>>, maxRetries: int, attempt: nat): (r: Retried<T>)
    requires attempt < maxRetries
    decreases maxRetries - attempt
  {
    match TryAt(tries, attempt)
    case Succeeded(v) => Returned(v, attempt + 1)
    case Threw(e) =>
      if attempt == maxRetries - 1 then Rethrown(e, attempt + 1)
      else RetryFrom(tries, maxRetries, attempt + 1)
  }

  function WithRetry<T>(tries: seq<Try<T>>, maxRetries: int): Retried<T> {
    if maxRetries <= 0 then FellThrough else RetryFrom(tries, maxRetries, 0)
  }

  /** The calls before number `k` all threw. */
  predicate AllThrewBefore<T>(tries: seq<Try<T>>, k: nat) {
    forall j :: 0 <= j < k ==> TryAt(tries, j).Threw?
  }

  lemma {:induction false} RetryFromSpec<T>(tries: seq<Try<T>>, maxRetries: int, attempt: nat)
    requires attempt < maxRetries
    requires AllThrewBefore(tries, attempt)
    ensures var r := RetryFrom(tries, maxRetries, attempt);
            && !r.FellThrough?
            && (r.Returned? ==> 0 < r.calls <= maxRetries && TryAt(tries, r.calls - 1) == Succeeded(r.value)
                                && AllThrewBefore(tries, r.calls - 1))
            && (r.Rethrown? ==> r.calls == maxRetries && AllThrewBefore(tries, maxRetries)
                                && TryAt(tries, maxRetries - 1) == Threw(r.error))
    decreases maxRetries - attempt
  {
    if TryAt(tries, attempt).Threw? && attempt < maxRetries - 1 {
      RetryFromSpec(tries, maxRetries, attempt + 1);
    }
  }

  /** `withRetry` calls the operation at most `maxRetries` times; it returns
      the first success, with every earlier call having thrown, or rethrows
      the last error after exactly `maxRetries` failed calls; it resolves to
      nothing exactly when `maxRetries <= 0`. */
  lemma WithRetryContract<T>(tries: seq<Try<T>>, maxRetries: int)
    ensures var r := WithRetry(tries, maxRetries);
            && (r.FellThrough? <==> maxRetries <= 0)
            && (r.Returned? ==> 0 < r.calls <= maxRetries && TryAt(tries, r.calls - 1) == Succeeded(r.value)
                                && AllThrewBefore(tries, r.calls - 1))
            && (r.Rethrown? ==> r.calls == maxRetries && AllThrewBefore(tries, maxRetries)
                                && TryAt(tries, maxRetries - 1) == Threw(r.error))
  {
    if maxRetries > 0 {
      RetryFromSpec(tries, maxRetries, 0);
    }
  }

  /** `withRetry` as the loop it is. */
  method RunWithRetry<T>(tries: seq<Try<T>>, maxRetries: int) returns (r: Retried<T>)
    ensures r == WithRetry(tries, maxRetries)
    ensures r.Returned? || r.Rethrown? ==> r.calls <= maxRetries
  {
    var attempt: nat := 0;
    while attempt < maxRetries
      invariant maxRetries > 0 ==> attempt < maxRetries
      invariant maxRetries > 0 ==> WithRetry(tries, maxRetries) == RetryFrom(tries, maxRetries, attempt)
      decreases maxRetries - attempt
    {
      match TryAt(tries, attempt)
      case Succeeded(v) =>
        return Returned(v, attempt + 1);
      case Threw(e) =>
        if attempt == maxRetries - 1 {
          return Rethrown(e, attempt + 1);
        }
      attempt := attempt + 1;
    }
    return FellThrough;
  }

  // ---------------------------------------------------------------------
  // Cache
  // ---------------------------------------------------------------------

  /** Cache entries live for five minutes. */
  const CacheTimeout: int := 300000

  datatype CacheEntry = CacheEntry(value: int, timestamp: int)

  type Cache = map<string, CacheEntry>

  /** `getCacheKey`: the message type, an underscore and the block count. */
  function CacheKey(messageType: string, blocksCount: nat): string {
    messageType + "_" + NatToString(blocksCount)
  }

  /** The string with its trailing decimal digits removed. */
  function DropTrailingDigits(s: string): string {
    if s != [] && IsDigit(s[|s| - 1]) then DropTrailingDigits(s[..|s| - 1]) else s
  }

  lemma {:induction false} DropDigitSuffix(p: string, k: string)
    requires AllDigits(k)
    requires p == [] || !IsDigit(p[|p| - 1])
    ensures DropTrailingDigits(p + k) == p
  {
    if k == [] {
      assert p + k == p;
    } else {
      var init := k[..|k| - 1];
      assert (p + k)[..|p + k| - 1] == p + init;
      assert IsDigit(k[|k| - 1]);
      DropDigitSuffix(p, init);
    }
  }

  /** Dropping the trailing digits of a key leaves the type and the
      underscore: different (type, count) pairs never share an entry, even
      when the type itself contains underscores or digits. */
  lemma CacheKeyInjective(t1: string, n1: nat, t2: string, n2: nat)
    requires CacheKey(t1, n1) == CacheKey(t2, n2)
    ensures t1 == t2 && n1 == n2
  {
    DropDigitSuffix(t1 + "_", NatToString(n1));
    DropDigitSuffix(t2 + "_", NatToString(n2));
    assert t1 + "_" == t2 + "_";
    assert t1 == (t1 + "_")[..|t1|];
    assert t2 == (t2 + "_")[..|t2|];
    assert NatToString(n1) == CacheKey(t1, n1)[|t1| + 1..];
    assert NatToString(n2) == CacheKey(t2, n2)[|t2| + 1..];
    NatToStringInjective(n1, n2);
  }

  /** `isValidCache`: there is an entry and it is younger than the timeout. */
  predicate IsValidCache(entry: Option<CacheEntry>, now: int) {
    entry.Some? && now - entry.value.timestamp < CacheTimeout
  }

  function Lookup(cache: Cache, key: string): Option<CacheEntry> {
    if key in cache then Some(cache[key]) else None
  }

  // ---------------------------------------------------------------------
  // Block scan
  // ---------------------------------------------------------------------

  /** What fetching one block gave: the fetch threw, the reply was not OK,
      the block has no transactions, or it has some and the transaction
      search gave this list (`None` when the search failed). */
  datatype BlockFetch = FetchThrew | NotOk | NoTxs | WithTxs(txs: Option<seq<Option<TxResult>>>)

  function BlockAt(blocks: seq<BlockFetch>, k: nat): BlockFetch {
    if k < |blocks| then blocks[k] else NotOk
  }

  /** `analyzeBlockTransactionsREST`: no samples when the search failed. */
  function BlockSamples(txs: Option<seq<Option<TxResult>>>, messageType: string, height: int): seq<Sample> {
    match txs
    case None => []
    case Some(list) => RelevantSamples(list, messageType, height)
  }

  /** The state of the scan: the samples gathered, the blocks that gave
      samples and the blocks whose body was read. */
  datatype Scan = Scan(samples: seq<Sample>, found: nat, checked: nat)

  predicate AllPlausible(samples: seq<Sample>) {
    forall s :: s in samples ==> PlausibleGas(s.gasUsed, s.gasWanted)
  }

  /** The scan loop from `height` downwards, `k` blocks fetched so far. It
      stops once `blocksCount` blocks gave samples, `20 · blocksCount` block
      bodies were read, or height 0 is reached. Failed and non-OK fetches
      count toward neither limit. */
  function ScanFrom(messageType: string, blocksCount: nat, blocks: seq<BlockFetch>,
                    height: int, k: nat, acc: Scan): (r: Scan)
    requires acc.found <= blocksCount && acc.checked <= 20 * blocksCount
    requires AllPlausible(acc.samples) && acc.found <= |acc.samples|
    ensures r.found <= blocksCount && r.checked <= 20 * blocksCount
    ensures AllPlausible(r.samples) && r.found <= |r.samples|
    ensures acc.samples <= r.samples
    decreases if height > 0 then height else 0
  {
    if !(acc.found < blocksCount && acc.checked < 20 * blocksCount && height > 0) then acc
    else match BlockAt(blocks, k)
      case FetchThrew => ScanFrom(messageType, blocksCount, blocks, height - 1, k + 1, acc)
      case NotOk => ScanFrom(messageType, blocksCount, blocks, height - 1, k + 1, acc)
      case NoTxs => ScanFrom(messageType, blocksCount, blocks, height - 1, k + 1, acc.(checked := acc.checked + 1))
      case WithTxs(txs) =>
        var got := BlockSamples(txs, messageType, height);
        if got != [] then
          ScanFrom(messageType, blocksCount, blocks, height - 1, k + 1,
                   Scan(acc.samples + got, acc.found + 1, acc.checked + 1))
        else ScanFrom(messageType, blocksCount, blocks, height - 1, k + 1, acc.(checked := acc.checked + 1))
  }

  function ScanBlocks(messageType: string, blocksCount: nat, latestHeight: int, blocks: seq<BlockFetch>): Scan {
    ScanFrom(messageType, blocksCount, blocks, latestHeight, 0, Scan([], 0, 0))
  }

  /** One attempt of the retried operation: the connection (with the status
      query) failed, or it gave the latest height and the blocks below it. */
  datatype Connection = ConnectFailed(message: string) | Connected(latestHeight: int, blocks: seq<BlockFetch>)

  function ConnectionAt(connections: seq<Connection>, k: nat): Connection {
    if k < |connections| then connections[k] else ConnectFailed("no reply")
  }

  /** The retried operation: scan, throw when no sample was found, otherwise
      the average gas of the samples. */
  function AnalyzeOnce(messageType: string, blocksCount: nat, c: Connection): Try<int> {
    match c
    case ConnectFailed(m) => Threw(m)
    case Connected(latest, blocks) =>
      var scan := ScanBlocks(messageType, blocksCount, latest, blocks);
      if scan.samples == [] then Threw("no transactions found")
      else Succeeded(CalculateAverageGas(scan.samples, messageType))
  }

  function Attempts(messageType: string, blocksCount: nat, connections: seq<Connection>): (tries: seq<Try<int>>)
    ensures |tries| == |connections|
    ensures forall k :: 0 <= k < |connections| ==> tries[k] == AnalyzeOnce(messageType, blocksCount, connections[k])
  {
    seq(|connections|, k requires 0 <= k < |connections| => AnalyzeOnce(messageType, blocksCount, connections[k]))
  }

  /** What `analyzeBlocks` returns and the cache afterwards. */
  datatype Analysis = Analysis(gas: int, cache: Cache)

  /** `analyzeBlocks(messageType, blocksCount)` at time `now`, the result
      being stored at time `storedAt`: a valid cache entry is returned as it
      is; otherwise the scan is retried up to three times, a success is
      cached, and when every attempt fails the fallback is returned and the
      cache is left alone. */
  function AnalyzeBlocks(cache: Cache, messageType: string, blocksCount: nat, now: int,
                         connections: seq<Connection>, storedAt: int): (r: Analysis)
    ensures IsValidCache(Lookup(cache, CacheKey(messageType, blocksCount)), now) ==>
              r == Analysis(cache[CacheKey(messageType, blocksCount)].value, cache)
    ensures forall key :: key != CacheKey(messageType, blocksCount) ==>
              (key in r.cache <==> key in cache) && (key in cache ==> r.cache[key] == cache[key])
    ensures r.cache != cache ==> CacheKey(messageType, blocksCount) in r.cache
                                 && r.cache[CacheKey(messageType, blocksCount)] == CacheEntry(r.gas, storedAt)
  {
    var key := CacheKey(messageType, blocksCount);
    var cached := Lookup(cache, key);
    if IsValidCache(cached, now) then Analysis(cached.value.value, cache)
    else
      match WithRetry(Attempts(messageType, blocksCount, connections), 3)
      case Returned(gas, _) => Analysis(gas, cache[key := CacheEntry(gas, storedAt)])
      case _ => Analysis(FallbackFor(messageType), cache)
  }

  /** Without a valid cache entry: when some attempt among the first three
      finds samples, the gas is the average of the first such attempt's
      samples and is cached under the key; otherwise the fallback is
      returned and the cache is unchanged. */
  lemma AnalyzeBlocksFresh(cache: Cache, messageType: string, blocksCount: nat, now: int,
                           connections: seq<Connection>, storedAt: int)
    requires !IsValidCache(Lookup(cache, CacheKey(messageType, blocksCount)), now)
    ensures var r := AnalyzeBlocks(cache, messageType, blocksCount, now, connections, storedAt);
            var tries := Attempts(messageType, blocksCount, connections);
            && (forall k :: 0 <= k < 3 && AllThrewBefore(tries, k) && TryAt(tries, k).Succeeded? ==>
                  r == Analysis(TryAt(tries, k).value, cache[CacheKey(messageType, blocksCount) := CacheEntry(r.gas, storedAt)]))
            && (AllThrewBefore(tries, 3) ==> r == Analysis(FallbackFor(messageType), cache))
  {
    var tries := Attempts(messageType, blocksCount, connections);
    WithRetryContract(tries, 3);
  }

  /** A result computed at `storedAt` is served from the cache, whatever the
      network would say, by any call made less than five minutes later. */
  lemma CachedResultIsReused(cache: Cache, messageType: string, blocksCount: nat, now: int,
                             connections: seq<Connection>, storedAt: int,
                             later: int, connections2: seq<Connection>, storedAt2: int)
    requires later - storedAt < CacheTimeout
    ensures var first := AnalyzeBlocks(cache, messageType, blocksCount, now, connections, storedAt);
            first.cache != cache ==>
              AnalyzeBlocks(first.cache, messageType, blocksCount, later, connections2, storedAt2) == first
  {
  }

  /** A scan that found any block with samples hands the statistics a
      non-empty list of plausible samples. */
  lemma ScanFeedsPlausibleSamples(messageType: string, blocksCount: nat, latestHeight: int, blocks: seq<BlockFetch>)
    ensures var scan := ScanBlocks(messageType, blocksCount, latestHeight, blocks);
            && AllPlausible(scan.samples)
            && scan.found <= blocksCount && scan.checked <= 20 * blocksCount
            && (scan.found > 0 ==> scan.samples != [])
  {
  }

  /** The gas figure computed from plausible samples is at least 1. */
  lemma PlausibleSamplesGivePositiveGas(samples: seq<Sample>, messageType: string)
    requires samples != [] && AllPlausible(samples)
    ensures CalculateAverageGas(samples, messageType) >= 1
  {
    var q := QuartilesOf(samples);
    var kept := WithinFences(samples, q.q1, q.q3);
    QuartileSamplesAreKept(samples);
    MeanBetween(kept, 1, MaxGas(kept));
    AdjustedGasCoversMean(samples, messageType);
  }

  /** `analyzeBlocks` never returns less than 1 when the cache holds only
      positive figures: a fresh figure comes from plausible samples. */
  lemma AnalyzedGasIsPositive(cache: Cache, messageType: string, blocksCount: nat, now: int,
                              connections: seq<Connection>, storedAt: int)
    requires forall key :: key in cache ==> cache[key].value >= 1
    ensures var r := AnalyzeBlocks(cache, messageType, blocksCount, now, connections, storedAt);
            r.gas >= 1 && forall key :: key in r.cache ==> r.cache[key].value >= 1
  {
    var tries := Attempts(messageType, blocksCount, connections);
    WithRetryContract(tries, 3);
    var r := WithRetry(tries, 3);
    if r.Returned? {
      var c := ConnectionAt(connections, r.calls - 1);
      assert TryAt(tries, r.calls - 1) == AnalyzeOnce(messageType, blocksCount, c);
      var scan := ScanBlocks(messageType, blocksCount, c.latestHeight, c.blocks);
      ScanFeedsPlausibleSamples(messageType, blocksCount, c.latestHeight, c.blocks);
      PlausibleSamplesGivePositiveGas(scan.samples, messageType);
    }
  }

  /** `getWithdrawGas` / `getSendGas`: `analyzeBlocks` over five blocks. It
      catches its own failures, so the wrappers' fallback is never used:
      the figure is positive whenever the cache holds positive figures, and
      only the five-block entry of the cache can change. */
  function GetGas(cache: Cache, messageType: string, now: int, connections: seq<Connection>, storedAt: int): (r: Analysis)
    ensures (forall key :: key in cache ==> cache[key].value >= 1) ==> r.gas >= 1
    ensures forall key :: key != CacheKey(messageType, 5) ==>
              (key in r.cache <==> key in cache) && (key in cache ==> r.cache[key] == cache[key])
  {
    var r := AnalyzeBlocks(cache, messageType, 5, now, connections, storedAt);
    if forall key :: key in cache ==> cache[key].value >= 1 then
      AnalyzedGasIsPositive(cache, messageType, 5, now, connections, storedAt);
      r
    else r
  }
}

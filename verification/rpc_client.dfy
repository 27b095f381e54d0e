/** The endpoint bookkeeping of `RPCClient` (`rpc-client.js`): the endpoint
    records and options set up by the constructor, the healthy subset, the
    fastest and the random choice, the per-attempt failure counting and
    health marking of `makeRequest`, the periodic health probe's update, and
    `getTransaction`'s handling of a missing transaction. Replies are
    scripted (the k-th attempt of a request gets the k-th scripted outcome)
    and `Math.random()` draws are oracle values in [0, 1). */
module RpcClient {
  import opened Base

  /** One endpoint record. The response time is a rational because the
      moving average halves it. */
  datatype Endpoint = Endpoint(url: string, healthy: bool, lastCheck: int, responseTime: real, failures: nat)

  /** The options a caller passes; an absent key is `None`. */
  datatype GivenOptions = GivenOptions(timeout: Option<int>, maxRetries: Option<int>,
                                       healthCheckInterval: Option<int>, maxFailures: Option<int>)

  datatype Options = Options(timeout: int, maxRetries: int, healthCheckInterval: int, maxFailures: int)

  datatype Stats = Stats(totalRequests: nat, successfulRequests: nat, failedRequests: nat, averageResponseTime: real)

  datatype Client = Client(endpoints: seq<Endpoint>, options: Options, stats: Stats)

  /** The options object: each key falls back to its default when falsy,
      but the caller's object is spread over the result afterwards, so a
      key the caller gave keeps the caller's value whatever it is. */
  function MakeOptions(given: GivenOptions): (o: Options)
    ensures given.maxRetries.None? ==> o.maxRetries == 3
    ensures given.maxFailures.None? ==> o.maxFailures == 3
    ensures given.timeout.None? ==> o.timeout == 30000
    ensures given.healthCheckInterval.None? ==> o.healthCheckInterval == 300000
    ensures given.maxRetries.Some? ==> o.maxRetries == given.maxRetries.value
    ensures given.maxFailures.Some? ==> o.maxFailures == given.maxFailures.value
    ensures given.timeout.Some? ==> o.timeout == given.timeout.value
    ensures given.healthCheckInterval.Some? ==> o.healthCheckInterval == given.healthCheckInterval.value
  {
    Options(given.timeout.GetOr(30000), given.maxRetries.GetOr(3),
            given.healthCheckInterval.GetOr(300000), given.maxFailures.GetOr(3))
  }

  /** The constructor: every endpoint starts healthy, never checked, with
      response time 0 and no failures, and the counters start at zero. */
  function NewClient(urls: seq<string>, given: GivenOptions): (c: Client)
    ensures |c.endpoints| == |urls|
    ensures forall i :: 0 <= i < |urls| ==>
              c.endpoints[i].url == urls[i] && c.endpoints[i].healthy && c.endpoints[i].lastCheck == 0
              && c.endpoints[i].responseTime == 0.0 && c.endpoints[i].failures == 0
    ensures c.stats == Stats(0, 0, 0, 0.0)
    ensures c.options == MakeOptions(given)
  {
    Client(seq(|urls|, i requires 0 <= i < |urls| => Endpoint(urls[i], true, 0, 0.0, 0)),
           MakeOptions(given), Stats(0, 0, 0, 0.0))
  }

  // ---------------------------------------------------------------------
  // Selection
  // ---------------------------------------------------------------------

  /** `getHealthyEndpoints`' test: marked healthy and below the failure limit. */
  predicate Usable(e: Endpoint, maxFailures: int) {
    e.healthy && e.failures < maxFailures
  }

  predicate Increasing(idx: seq<nat>) {
    forall i, j :: 0 <= i < j < |idx| ==> idx[i] < idx[j]
  }

  /** The positions, from `k` on, of the usable endpoints, in list order. */
  function UsableFrom(eps: seq<Endpoint>, maxFailures: int, k: nat): (idx: seq<nat>)
    requires k <= |eps|
    ensures Increasing(idx)
    ensures forall p :: 0 <= p < |idx| ==> k <= idx[p] < |eps| && Usable(eps[idx[p]], maxFailures)
    ensures forall j :: k <= j < |eps| && Usable(eps[j], maxFailures) ==> j in idx
    decreases |eps| - k
  {
    if k == |eps| then []
    else
      var rest := UsableFrom(eps, maxFailures, k + 1);
      if Usable(eps[k], maxFailures) then [k] + rest else rest
  }

  /** The positions of `getHealthyEndpoints()`: exactly the usable
      endpoints, in their original order. */
  function HealthyIndices(c: Client): (idx: seq<nat>)
    ensures Increasing(idx)
    ensures forall p :: 0 <= p < |idx| ==> idx[p] < |c.endpoints| && Usable(c.endpoints[idx[p]], c.options.maxFailures)
    ensures forall i :: i in idx <==> 0 <= i < |c.endpoints| && Usable(c.endpoints[i], c.options.maxFailures)
  {
    UsableFrom(c.endpoints, c.options.maxFailures, 0)
  }

  /** `getHealthyEndpoints()` itself. */
  function HealthyEndpoints(c: Client): (healthy: seq<Endpoint>)
    ensures |healthy| == |HealthyIndices(c)|
    ensures forall i :: 0 <= i < |healthy| ==> healthy[i] == c.endpoints[HealthyIndices(c)[i]]
    ensures forall e :: e in healthy ==> e in c.endpoints && Usable(e, c.options.maxFailures)
  {
    var idx := HealthyIndices(c);
    seq(|idx|, i requires 0 <= i < |idx| => c.endpoints[idx[i]])
  }

  /** The positions `k, k+1, …, n-1`. */
  function Span(k: nat, n: nat): (r: seq<nat>)
    ensures |r| == if k <= n then n - k else 0
    ensures forall p :: 0 <= p < |r| ==> r[p] == k + p
    decreases n - k
  {
    if k >= n then [] else [k] + Span(k + 1, n)
  }

  lemma {:induction false} AllUsableFrom(eps: seq<Endpoint>, maxFailures: int, k: nat)
    requires k <= |eps|
    requires forall j :: k <= j < |eps| ==> Usable(eps[j], maxFailures)
    ensures UsableFrom(eps, maxFailures, k) == Span(k, |eps|)
    decreases |eps| - k
  {
    if k < |eps| {
      AllUsableFrom(eps, maxFailures, k + 1);
    }
  }

  /** A fresh client with a positive failure limit considers every endpoint
      healthy. */
  lemma FreshEndpointsAreHealthy(urls: seq<string>, given: GivenOptions)
    requires MakeOptions(given).maxFailures > 0
    ensures HealthyIndices(NewClient(urls, given)) == Span(0, |urls|)
  {
    var c := NewClient(urls, given);
    AllUsableFrom(c.endpoints, c.options.maxFailures, 0);
  }

  /** The first position, in `idx` order, with the least response time: the
      head of the healthy list after the stable sort by response time. */
  function FirstFastest(eps: seq<Endpoint>, idx: seq<nat>): (best: nat)
    requires idx != [] && forall p :: 0 <= p < |idx| ==> idx[p] < |eps|
    ensures best in idx && best < |eps|
    ensures forall i :: i in idx ==> eps[best].responseTime <= eps[i].responseTime
    ensures forall p :: 0 <= p < |idx| && idx[p] != best && eps[idx[p]].responseTime == eps[best].responseTime ==>
              exists q :: 0 <= q < p && idx[q] == best
  {
    if |idx| == 1 then idx[0]
    else
      var m := FirstFastest(eps, idx[1..]);
      assert forall i :: i in idx ==> i == idx[0] || i in idx[1..];
      if eps[idx[0]].responseTime <= eps[m].responseTime then idx[0]
      else
        assert forall p :: 1 <= p < |idx| ==> idx[p] == idx[1..][p - 1];
        m
  }

  /** `getBestEndpoint`: the fastest healthy endpoint, the earliest in list
      order among equally fast ones; the first endpoint when none is
      healthy; nothing at all (`undefined`) when the list is empty. The
      sort works on a copy, so the client itself is not reordered. */
  function BestEndpoint(c: Client): (r: Option<nat>)
    ensures r.None? <==> c.endpoints == []
    ensures r.Some? ==> r.value < |c.endpoints|
    ensures HealthyIndices(c) == [] && c.endpoints != [] ==> r == Some(0)
    ensures HealthyIndices(c) != [] ==>
              r.Some? && r.value in HealthyIndices(c)
              && forall i :: i in HealthyIndices(c) ==> c.endpoints[r.value].responseTime <= c.endpoints[i].responseTime
  {
    var idx := HealthyIndices(c);
    if idx == [] then (if c.endpoints == [] then None else Some(0))
    else Some(FirstFastest(c.endpoints, idx))
  }

  /** Among equally fast healthy endpoints the best one comes first in the
      list. */
  lemma BestIsEarliestAmongFastest(c: Client, j: nat)
    requires HealthyIndices(c) != [] && j in HealthyIndices(c)
    requires c.endpoints[j].responseTime == c.endpoints[BestEndpoint(c).value].responseTime
    ensures BestEndpoint(c).value <= j
  {
    var idx := HealthyIndices(c);
    var best := BestEndpoint(c).value;
    var p :| 0 <= p < |idx| && idx[p] == j;
    if j != best {
      var q :| 0 <= q < p && idx[q] == best;
    }
  }

  /** `Math.floor(u * n)` for a draw `u` in [0, 1). */
  function ScaledDraw(u: real, n: nat): (k: nat)
    requires 0.0 <= u < 1.0 && n > 0
    ensures k < n
  {
    assert 0.0 <= u * n as real < n as real;
    (u * n as real).Floor
  }

  predicate IsDraw(u: real) {
    0.0 <= u < 1.0
  }

  /** `getRandomHealthyEndpoint`: a healthy endpoint chosen by the draw;
      any endpoint when none is healthy; nothing when the list is empty. */
  function RandomEndpoint(c: Client, u: real): (r: Option<nat>)
    requires IsDraw(u)
    ensures r.None? <==> c.endpoints == []
    ensures r.Some? ==> r.value < |c.endpoints|
    ensures HealthyIndices(c) != [] ==> r.Some? && r.value in HealthyIndices(c)
  {
    var idx := HealthyIndices(c);
    if idx == [] then (if c.endpoints == [] then None else Some(ScaledDraw(u, |c.endpoints|)))
    else Some(idx[ScaledDraw(u, |idx|)])
  }

  lemma ScaledDrawHits(p: nat, n: nat)
    requires p < n
    ensures IsDraw(p as real / n as real) && ScaledDraw(p as real / n as real, n) == p
  {
    var u := p as real / n as real;
    assert u * n as real == p as real;
  }

  /** Every healthy endpoint is chosen by some draw. */
  lemma EveryHealthyEndpointCanBeDrawn(c: Client, p: nat)
    requires p < |HealthyIndices(c)|
    ensures var u := p as real / |HealthyIndices(c)| as real;
            IsDraw(u) && RandomEndpoint(c, u) == Some(HealthyIndices(c)[p])
  {
    ScaledDrawHits(p, |HealthyIndices(c)|);
  }

  // ---------------------------------------------------------------------
  // makeRequest
  // ---------------------------------------------------------------------

  /** An axios error: its message and `error.response?.status`. */
  datatype HttpError = HttpError(message: string, status: Option<int>)

  /** What one HTTP attempt gave: a response after `elapsed` milliseconds,
      or an error. */
  datatype Outcome = Answered(elapsed: real, data: string) | Failed(error: HttpError)

  function OutcomeAt(outcomes: seq<Outcome>, k: nat): Outcome {
    if k < |outcomes| then outcomes[k] else Failed(HttpError("timeout", None))
  }

  predicate AllDraws(draws: seq<real>) {
    forall k :: 0 <= k < |draws| ==> IsDraw(draws[k])
  }

  /** The draw of the k-th attempt; past the script's end the draw is 0. */
  function DrawAt(draws: seq<real>, k: nat): (u: real)
    requires AllDraws(draws)
    ensures IsDraw(u)
  {
    if k < |draws| then draws[k] else 0.0
  }

  /** The endpoint an attempt uses. */
  function Choose(c: Client, preferFast: bool, u: real): (r: Option<nat>)
    requires IsDraw(u)
    ensures r.None? <==> c.endpoints == []
    ensures r.Some? ==> r.value < |c.endpoints|
  {
    if preferFast then BestEndpoint(c) else RandomEndpoint(c, u)
  }

  /** The choice each attempt makes, given the client's state and the
      attempt's number. */
  type Picker = (Client, nat) -> Option<nat>

  /** A choice yields an endpoint of the list, and yields one whenever the
      list is not empty. */
  ghost predicate ValidPicker(pick: Picker) {
    forall c: Client, k: nat ::
      && (pick(c, k).None? <==> c.endpoints == [])
      && (pick(c, k).Some? ==> pick(c, k).value < |c.endpoints|)
  }

  /** `preferFast ? getBestEndpoint() : getRandomHealthyEndpoint()`, with
      the scripted draws. */
  function PickerFor(preferFast: bool, draws: seq<real>): (pick: Picker)
    requires AllDraws(draws)
    ensures ValidPicker(pick)
    ensures forall c: Client, k: nat :: pick(c, k) == Choose(c, preferFast, DrawAt(draws, k))
  {
    (c: Client, k: nat) => Choose(c, preferFast, DrawAt(draws, k))
  }

  /** A failed attempt: one more failure for the endpoint used, which is
      marked unhealthy once it reaches the limit; nothing else changes. */
  function RecordFailure(eps: seq<Endpoint>, i: nat, maxFailures: int): (r: seq<Endpoint>)
    requires i < |eps|
    ensures |r| == |eps|
    ensures r[i].failures == eps[i].failures + 1
    ensures r[i].failures >= maxFailures ==> !r[i].healthy
    ensures r[i].failures < maxFailures ==> r[i].healthy == eps[i].healthy
    ensures r[i].url == eps[i].url && r[i].responseTime == eps[i].responseTime && r[i].lastCheck == eps[i].lastCheck
    ensures forall j :: 0 <= j < |eps| && j != i ==> r[j] == eps[j]
  {
    var e := eps[i];
    var failures := e.failures + 1;
    eps[i := e.(failures := failures, healthy := if failures >= maxFailures then false else e.healthy)]
  }

  /** A successful attempt: the endpoint's response time becomes the mean of
      the old value and this one; its failures stay as they were. */
  function RecordSuccess(eps: seq<Endpoint>, i: nat, elapsed: real): (r: seq<Endpoint>)
    requires i < |eps|
    ensures |r| == |eps|
    ensures r[i].responseTime == (eps[i].responseTime + elapsed) / 2.0
    ensures r[i].failures == eps[i].failures && r[i].healthy == eps[i].healthy
    ensures r[i].url == eps[i].url && r[i].lastCheck == eps[i].lastCheck
    ensures forall j :: 0 <= j < |eps| && j != i ==> r[j] == eps[j]
  {
    eps[i := eps[i].(responseTime := (eps[i].responseTime + elapsed) / 2.0)]
  }

  /** How the attempts of one request ended. */
  datatype Ending = Served(data: string, elapsed: real) | Exhausted(lastError: Option<HttpError>) | NoEndpoint

  datatype Tried = Tried(endpoints: seq<Endpoint>, ending: Ending, attempts: nat)

  /** The attempts from number `attempt` on, `lastError` the error of the
      previous one. */
  function TryFrom(c: Client, pick: Picker, outcomes: seq<Outcome>,
                   attempt: nat, lastError: Option<HttpError>): (t: Tried)
    requires ValidPicker(pick)
    ensures |t.endpoints| == |c.endpoints|
    decreases c.options.maxRetries - attempt
  {
    if attempt >= c.options.maxRetries then Tried(c.endpoints, Exhausted(lastError), attempt)
    else
      match pick(c, attempt)
      case None => Tried(c.endpoints, NoEndpoint, attempt)
      case Some(i) =>
        match OutcomeAt(outcomes, attempt)
        case Answered(elapsed, data) => Tried(RecordSuccess(c.endpoints, i, elapsed), Served(data, elapsed), attempt + 1)
        case Failed(err) =>
          TryFrom(c.(endpoints := RecordFailure(c.endpoints, i, c.options.maxFailures)),
                  pick, outcomes, attempt + 1, Some(err))
  }

  /** The error `makeRequest` throws: a new `Error` (or, with no endpoint
      at all, the `TypeError` of reading `undefined.url`). Neither carries an
      HTTP response. */
  datatype Reason = AttemptsFailed(maxRetries: int, lastError: Option<HttpError>) | NoEndpointToUse
  datatype Thrown = Thrown(reason: Reason, responseStatus: Option<int>)

  datatype RequestResult = Data(data: string) | Rejected(error: Thrown)

  datatype Request = Request(client: Client, result: RequestResult, attempts: nat)

  /** The average response time after one more served request: the mean
      over all served requests so far. */
  function RecordServed(s: Stats, elapsed: real): (r: Stats)
    ensures r.successfulRequests == s.successfulRequests + 1
    ensures r.totalRequests == s.totalRequests && r.failedRequests == s.failedRequests
    ensures r.averageResponseTime * r.successfulRequests as real
            == s.averageResponseTime * s.successfulRequests as real + elapsed
  {
    var n := s.successfulRequests + 1;
    var avg := (s.averageResponseTime * (n - 1) as real + elapsed) / n as real;
    Stats(s.totalRequests, n, s.failedRequests, avg)
  }

  /** How `makeRequest` settles the counters and its answer once the
      attempts are over. The counters move as one more finished request of
      the statistics' history (`Step`, with the average updated as
      written); a request that found no endpoint at all is counted but
      neither served nor failed. */
  function Settle(c: Client, t: Tried): (r: Request)
    requires |t.endpoints| == |c.endpoints|
    ensures r.client.options == c.options
    ensures r.client.endpoints == t.endpoints && r.attempts == t.attempts
    ensures r.client.stats.totalRequests == c.stats.totalRequests + 1
    ensures r.result.Data? <==> t.ending.Served?
    ensures r.client.stats.successfulRequests == c.stats.successfulRequests + (if r.result.Data? then 1 else 0)
    ensures r.client.stats.failedRequests ==
              c.stats.failedRequests + (if r.result.Rejected? && r.result.error.reason.AttemptsFailed? then 1 else 0)
    ensures r.result.Rejected? && r.result.error.reason.AttemptsFailed? <==> t.ending.Exhausted?
    ensures r.result.Rejected? ==> r.result.error.responseStatus.None?
    ensures t.ending.Served? ==> r.client.stats == Step(c.stats, WasServed(t.ending.elapsed), true)
    ensures t.ending.Exhausted? ==> r.client.stats == Step(c.stats, WasFailed, true)
    ensures t.ending.NoEndpoint? ==>
              r.client.stats.averageResponseTime == c.stats.averageResponseTime
  {
    var counted := c.stats.(totalRequests := c.stats.totalRequests + 1);
    var after := c.(endpoints := t.endpoints);
    match t.ending
    case Served(data, elapsed) => Request(after.(stats := RecordServedAsWritten(counted, elapsed)), Data(data), t.attempts)
    case Exhausted(last) =>
      Request(after.(stats := counted.(failedRequests := counted.failedRequests + 1)),
              Rejected(Thrown(AttemptsFailed(c.options.maxRetries, last), None)), t.attempts)
    case NoEndpoint => Request(after.(stats := counted), Rejected(Thrown(NoEndpointToUse, None)), t.attempts)
  }

  /** `makeRequest(path, { preferFast })`: count the request, then try up
      to `maxRetries` endpoints; the first answer is returned, and when
      every attempt failed the failure is counted and an error thrown. */
  function MakeRequest(c: Client, preferFast: bool, draws: seq<real>, outcomes: seq<Outcome>): (r: Request)
    requires AllDraws(draws)
    ensures r.client.options == c.options
    ensures |r.client.endpoints| == |c.endpoints|
    ensures r.client.stats.totalRequests == c.stats.totalRequests + 1
    ensures r.client.stats.successfulRequests == c.stats.successfulRequests + (if r.result.Data? then 1 else 0)
    ensures r.client.stats.failedRequests ==
              c.stats.failedRequests + (if r.result.Rejected? && r.result.error.reason.AttemptsFailed? then 1 else 0)
    ensures r.result.Rejected? ==> r.result.error.responseStatus.None?
  {
    Settle(c, TryFrom(c, PickerFor(preferFast, draws), outcomes, 0, None))
  }

  /** The attempts before number `k` all failed. */
  predicate FailedBefore(outcomes: seq<Outcome>, k: nat) {
    forall j :: 0 <= j < k ==> OutcomeAt(outcomes, j).Failed?
  }

  function TotalFailures(eps: seq<Endpoint>): nat {
    if eps == [] then 0 else TotalFailures(eps[..|eps| - 1]) + eps[|eps| - 1].failures
  }

  /** Raising one entry's count by one raises the total by one. */
  lemma {:induction false} TotalFailuresStep(eps: seq<Endpoint>, r: seq<Endpoint>, i: nat)
    requires |r| == |eps| && i < |eps|
    requires r[i].failures == eps[i].failures + 1
    requires forall j :: 0 <= j < |eps| && j != i ==> r[j].failures == eps[j].failures
    ensures TotalFailures(r) == TotalFailures(eps) + 1
  {
    var n := |eps| - 1;
    if i == n {
      TotalFailuresSame(eps[..n], r[..n]);
    } else {
      TotalFailuresStep(eps[..n], r[..n], i);
    }
  }

  lemma {:induction false} TotalFailuresSame(eps: seq<Endpoint>, r: seq<Endpoint>)
    requires |r| == |eps|
    requires forall j :: 0 <= j < |eps| ==> r[j].failures == eps[j].failures
    ensures TotalFailures(r) == TotalFailures(eps)
  {
    if eps != [] {
      TotalFailuresSame(eps[..|eps| - 1], r[..|r| - 1]);
    }
  }

  /** The attempts of a request, from attempt `attempt` on, never go
      beyond `maxRetries`; a served request was served by its last attempt,
      an exhausted one used every attempt, and with no endpoint the first
      attempt could not even start. */
  lemma {:induction false} TryFromEnds(c: Client, pick: Picker, outcomes: seq<Outcome>,
                                           attempt: nat, lastError: Option<HttpError>)
    requires ValidPicker(pick)
    requires FailedBefore(outcomes, attempt)
    requires attempt > 0 ==> lastError == Some(OutcomeAt(outcomes, attempt - 1).error)
    requires attempt == 0 ==> lastError.None?
    ensures var t := TryFrom(c, pick, outcomes, attempt, lastError);
            && attempt <= t.attempts <= Max(attempt, c.options.maxRetries)
            && (t.ending.Served? ==> t.attempts >= 1 && OutcomeAt(outcomes, t.attempts - 1)
                                        == Answered(t.ending.elapsed, t.ending.data))
            && (t.ending.Exhausted? ==> t.attempts == Max(attempt, c.options.maxRetries))
            && (t.ending.NoEndpoint? ==> c.endpoints == [] && t.attempts == attempt)
    decreases c.options.maxRetries - attempt
  {
    if attempt < c.options.maxRetries {
      var chosen := pick(c, attempt);
      if chosen.Some? {
        var i := chosen.value;
        match OutcomeAt(outcomes, attempt)
        case Answered(elapsed, data) =>
          assert TryFrom(c, pick, outcomes, attempt, lastError)
                 == Tried(RecordSuccess(c.endpoints, i, elapsed), Served(data, elapsed), attempt + 1);
        case Failed(err) =>
          var next := c.(endpoints := RecordFailure(c.endpoints, i, c.options.maxFailures));
          assert FailedBefore(outcomes, attempt + 1);
          TryFromEnds(next, pick, outcomes, attempt + 1, Some(err));
      }
    }
  }

  /** Every attempt before the last one made failed; when the attempts ran
      out, all of them did. */
  lemma {:induction false} TryFromFailuresFirst(c: Client, pick: Picker, outcomes: seq<Outcome>,
                                           attempt: nat, lastError: Option<HttpError>)
    requires ValidPicker(pick)
    requires FailedBefore(outcomes, attempt)
    requires attempt > 0 ==> lastError == Some(OutcomeAt(outcomes, attempt - 1).error)
    requires attempt == 0 ==> lastError.None?
    ensures var t := TryFrom(c, pick, outcomes, attempt, lastError);
            && (t.ending.Served? ==> t.attempts >= 1 && FailedBefore(outcomes, t.attempts - 1))
            && (t.ending.Exhausted? ==> FailedBefore(outcomes, t.attempts))
    decreases c.options.maxRetries - attempt
  {
    if attempt < c.options.maxRetries {
      var chosen := pick(c, attempt);
      if chosen.Some? {
        var i := chosen.value;
        match OutcomeAt(outcomes, attempt)
        case Answered(elapsed, data) =>
          assert TryFrom(c, pick, outcomes, attempt, lastError)
                 == Tried(RecordSuccess(c.endpoints, i, elapsed), Served(data, elapsed), attempt + 1);
        case Failed(err) =>
          var next := c.(endpoints := RecordFailure(c.endpoints, i, c.options.maxFailures));
          assert FailedBefore(outcomes, attempt + 1);
          TryFromFailuresFirst(next, pick, outcomes, attempt + 1, Some(err));
      }
    }
  }

  /** When the attempts ran out, the error reported is the last attempt's. */
  lemma {:induction false} TryFromLastError(c: Client, pick: Picker, outcomes: seq<Outcome>,
                                           attempt: nat, lastError: Option<HttpError>)
    requires ValidPicker(pick)
    requires FailedBefore(outcomes, attempt)
    requires attempt > 0 ==> lastError == Some(OutcomeAt(outcomes, attempt - 1).error)
    requires attempt == 0 ==> lastError.None?
    ensures var t := TryFrom(c, pick, outcomes, attempt, lastError);
            && (t.ending.Exhausted? && t.attempts > 0 ==>
                  OutcomeAt(outcomes, t.attempts - 1).Failed?
                  && t.ending.lastError == Some(OutcomeAt(outcomes, t.attempts - 1).error))
            && (t.ending.Exhausted? && t.attempts == 0 ==> t.ending.lastError.None?)
    decreases c.options.maxRetries - attempt
  {
    if attempt < c.options.maxRetries {
      var chosen := pick(c, attempt);
      if chosen.Some? {
        var i := chosen.value;
        match OutcomeAt(outcomes, attempt)
        case Answered(elapsed, data) =>
          assert TryFrom(c, pick, outcomes, attempt, lastError)
                 == Tried(RecordSuccess(c.endpoints, i, elapsed), Served(data, elapsed), attempt + 1);
        case Failed(err) =>
          var next := c.(endpoints := RecordFailure(c.endpoints, i, c.options.maxFailures));
          assert FailedBefore(outcomes, attempt + 1);
          TryFromLastError(next, pick, outcomes, attempt + 1, Some(err));
      }
    }
  }

  /** Each failed attempt adds exactly one failure to one endpoint, and the
      served attempt none. */
  lemma {:induction false} TryFromCountsFailures(c: Client, pick: Picker, outcomes: seq<Outcome>,
                                                 attempt: nat, lastError: Option<HttpError>)
    requires ValidPicker(pick)
    ensures var t := TryFrom(c, pick, outcomes, attempt, lastError);
            && attempt <= t.attempts
            && (t.ending.Served? ==> t.attempts > attempt)
            && TotalFailures(t.endpoints) == TotalFailures(c.endpoints) + (t.attempts - attempt)
                                              - (if t.ending.Served? then 1 else 0)
    decreases c.options.maxRetries - attempt
  {
    if attempt < c.options.maxRetries {
      var chosen := pick(c, attempt);
      if chosen.Some? {
        var i := chosen.value;
        match OutcomeAt(outcomes, attempt)
        case Answered(elapsed, data) =>
          TotalFailuresSame(c.endpoints, RecordSuccess(c.endpoints, i, elapsed));
        case Failed(err) =>
          var next := c.(endpoints := RecordFailure(c.endpoints, i, c.options.maxFailures));
          TotalFailuresStep(c.endpoints, next.endpoints, i);
          TryFromCountsFailures(next, pick, outcomes, attempt + 1, Some(err));
      }
    }
  }

  /** `makeRequest` makes at most `maxRetries` attempts (none when that is
      not positive); an answer comes from the last attempt made, all earlier
      ones having failed; a thrown failure follows exactly `maxRetries`
      failed attempts and reports the last attempt's error; and the
      endpoints' failure counts grow by exactly the number of failed
      attempts. */
  lemma MakeRequestContract(c: Client, preferFast: bool, draws: seq<real>, outcomes: seq<Outcome>)
    requires AllDraws(draws)
    ensures var r := MakeRequest(c, preferFast, draws, outcomes);
            && r.attempts <= Max(0, c.options.maxRetries)
            && (r.result.Data? ==> r.attempts >= 1 && FailedBefore(outcomes, r.attempts - 1)
                                   && OutcomeAt(outcomes, r.attempts - 1).Answered?
                                   && r.result.data == OutcomeAt(outcomes, r.attempts - 1).data)
            && (r.result.Rejected? && r.result.error.reason.AttemptsFailed? ==>
                  && r.attempts == Max(0, c.options.maxRetries) && FailedBefore(outcomes, r.attempts)
                  && r.result.error.reason.lastError ==
                       (if r.attempts > 0 then Some(OutcomeAt(outcomes, r.attempts - 1).error) else None))
            && (r.result.Rejected? && r.result.error.reason.NoEndpointToUse? ==> c.endpoints == [] && r.attempts == 0)
            && TotalFailures(r.client.endpoints) == TotalFailures(c.endpoints) + r.attempts
                                                    - (if r.result.Data? then 1 else 0)
  {
    var pick := PickerFor(preferFast, draws);
    var t := TryFrom(c, pick, outcomes, 0, None);
    TryFromEndsAsLoopDoes(c, pick, outcomes);
    SettleReports(c, t, outcomes);
    assert MakeRequest(c, preferFast, draws, outcomes) == Settle(c, t);
  }

  /** The counters after `makeRequest` continue the history of finished
      requests they summarise: returned data adds the serving attempt's
      time, a thrown exhaustion adds a failure, and the average moves as
      `updateAverageResponseTime` moves it. */
  lemma MakeRequestExtendsHistory(c: Client, preferFast: bool, draws: seq<real>, outcomes: seq<Outcome>,
                                  history: seq<Finished>)
    requires AllDraws(draws)
    requires c.stats == StatsAfter(history, true)
    ensures var r := MakeRequest(c, preferFast, draws, outcomes);
            && (r.result.Data? ==>
                  && r.attempts >= 1 && OutcomeAt(outcomes, r.attempts - 1).Answered?
                  && r.client.stats == StatsAfter(history + [WasServed(OutcomeAt(outcomes, r.attempts - 1).elapsed)], true))
            && (r.result.Rejected? && r.result.error.reason.AttemptsFailed? ==>
                  r.client.stats == StatsAfter(history + [WasFailed], true))
  {
    var pick := PickerFor(preferFast, draws);
    var t := TryFrom(c, pick, outcomes, 0, None);
    TryFromEnds(c, pick, outcomes, 0, None);
    assert MakeRequest(c, preferFast, draws, outcomes) == Settle(c, t);
    SettleExtendsHistory(c, t, outcomes, history);
  }

  lemma SettleExtendsHistory(c: Client, t: Tried, outcomes: seq<Outcome>, history: seq<Finished>)
    requires |t.endpoints| == |c.endpoints|
    requires c.stats == StatsAfter(history, true)
    requires t.ending.Served? ==> t.attempts >= 1 && OutcomeAt(outcomes, t.attempts - 1)
                                                     == Answered(t.ending.elapsed, t.ending.data)
    ensures var r := Settle(c, t);
            && (r.result.Data? ==>
                  && r.attempts >= 1 && OutcomeAt(outcomes, r.attempts - 1).Answered?
                  && r.client.stats == StatsAfter(history + [WasServed(OutcomeAt(outcomes, r.attempts - 1).elapsed)], true))
            && (r.result.Rejected? && r.result.error.reason.AttemptsFailed? ==>
                  r.client.stats == StatsAfter(history + [WasFailed], true))
  {
    if t.ending.Served? {
      StatsAfterAppend(history, WasServed(t.ending.elapsed), true);
    } else if t.ending.Exhausted? {
      StatsAfterAppend(history, WasFailed, true);
    }
  }

  /** The request of the average-time finding, made through `makeRequest`:
      after a request served in 100 ms and a failed one, an answer in 400 ms
      leaves the average at 200 ms, not at the 250 ms mean of the served
      times. */
  lemma MakeRequestDilutesAverage(c: Client, preferFast: bool, draws: seq<real>, data: string)
    requires AllDraws(draws) && c.endpoints != [] && c.options.maxRetries >= 1
    requires c.stats == Stats(2, 1, 1, 100.0)
    ensures var r := MakeRequest(c, preferFast, draws, [Answered(400.0, data)]);
            r.result == Data(data) && r.client.stats.averageResponseTime == 200.0
  {
    var outcomes := [Answered(400.0, data)];
    var pick := PickerFor(preferFast, draws);
    var i := pick(c, 0);
    assert i.Some?;
    var t := TryFrom(c, pick, outcomes, 0, None);
    assert t.ending == Served(data, 400.0);
  }

  /** How the attempts from a fresh start can end: within `maxRetries`
      attempts, an answer only from the last attempt after failures, an
      exhaustion only after `maxRetries` failures and carrying the last
      error, no endpoint only with none configured, and one failure
      recorded per failed attempt. */
  predicate EndedAsLoopDoes(c: Client, outcomes: seq<Outcome>, t: Tried) {
    && |t.endpoints| == |c.endpoints|
    && t.attempts <= Max(0, c.options.maxRetries)
    && (t.ending.Served? ==> t.attempts >= 1 && FailedBefore(outcomes, t.attempts - 1)
                             && OutcomeAt(outcomes, t.attempts - 1) == Answered(t.ending.elapsed, t.ending.data))
    && (t.ending.Exhausted? ==> t.attempts == Max(0, c.options.maxRetries) && FailedBefore(outcomes, t.attempts))
    && (t.ending.Exhausted? && t.attempts > 0 ==>
          t.ending.lastError == Some(OutcomeAt(outcomes, t.attempts - 1).error))
    && (t.ending.Exhausted? && t.attempts == 0 ==> t.ending.lastError.None?)
    && (t.ending.NoEndpoint? ==> c.endpoints == [] && t.attempts == 0)
    && TotalFailures(t.endpoints) == TotalFailures(c.endpoints) + t.attempts - (if t.ending.Served? then 1 else 0)
  }

  lemma TryFromEndsAsLoopDoes(c: Client, pick: Picker, outcomes: seq<Outcome>)
    requires ValidPicker(pick)
    ensures EndedAsLoopDoes(c, outcomes, TryFrom(c, pick, outcomes, 0, None))
  {
    TryFromEnds(c, pick, outcomes, 0, None);
    TryFromFailuresFirst(c, pick, outcomes, 0, None);
    TryFromLastError(c, pick, outcomes, 0, None);
    TryFromCountsFailures(c, pick, outcomes, 0, None);
  }

  /** Settling attempts that ended as the attempt loop can end them. */
  lemma SettleReports(c: Client, t: Tried, outcomes: seq<Outcome>)
    requires EndedAsLoopDoes(c, outcomes, t)
    ensures var r := Settle(c, t);
            && r.attempts <= Max(0, c.options.maxRetries)
            && (r.result.Data? ==> r.attempts >= 1 && FailedBefore(outcomes, r.attempts - 1)
                                   && OutcomeAt(outcomes, r.attempts - 1).Answered?
                                   && r.result.data == OutcomeAt(outcomes, r.attempts - 1).data)
            && (r.result.Rejected? && r.result.error.reason.AttemptsFailed? ==>
                  && r.attempts == Max(0, c.options.maxRetries) && FailedBefore(outcomes, r.attempts)
                  && r.result.error.reason.lastError ==
                       (if r.attempts > 0 then Some(OutcomeAt(outcomes, r.attempts - 1).error) else None))
            && (r.result.Rejected? && r.result.error.reason.NoEndpointToUse? ==> c.endpoints == [] && r.attempts == 0)
            && TotalFailures(r.client.endpoints) == TotalFailures(c.endpoints) + r.attempts
                                                    - (if r.result.Data? then 1 else 0)
  {
  }

  /** The attempt loop of `makeRequest`. */
  method RunAttempts(c: Client, pick: Picker, outcomes: seq<Outcome>) returns (t: Tried)
    requires ValidPicker(pick)
    ensures t == TryFrom(c, pick, outcomes, 0, None)
  {
    var current := c;
    var lastError: Option<HttpError> := None;
    var attempt: nat := 0;
    while attempt < c.options.maxRetries
      invariant current.options == c.options
      invariant TryFrom(c, pick, outcomes, 0, None) == TryFrom(current, pick, outcomes, attempt, lastError)
      decreases c.options.maxRetries - attempt
    {
      var chosen := pick(current, attempt);
      if chosen.None? {
        return Tried(current.endpoints, NoEndpoint, attempt);
      }
      var i := chosen.value;
      match OutcomeAt(outcomes, attempt)
      case Answered(elapsed, data) =>
        return Tried(RecordSuccess(current.endpoints, i, elapsed), Served(data, elapsed), attempt + 1);
      case Failed(err) =>
        current := current.(endpoints := RecordFailure(current.endpoints, i, c.options.maxFailures));
        lastError := Some(err);
      attempt := attempt + 1;
    }
    t := Tried(current.endpoints, Exhausted(lastError), attempt);
  }

  /** `makeRequest` as the method it is: count, run the attempts, settle
      the counters. */
  method RunRequest(c: Client, preferFast: bool, draws: seq<real>, outcomes: seq<Outcome>) returns (r: Request)
    requires AllDraws(draws)
    ensures r == MakeRequest(c, preferFast, draws, outcomes)
  {
    var t := RunAttempts(c, PickerFor(preferFast, draws), outcomes);
    r := Settle(c, t);
  }

  /** The endpoint list after `n` failed attempts in a row on endpoint `i`. */
  function FailRepeatedly(eps: seq<Endpoint>, i: nat, maxFailures: int, n: nat): (r: seq<Endpoint>)
    requires i < |eps|
    ensures |r| == |eps|
    decreases n
  {
    if n == 0 then eps else RecordFailure(FailRepeatedly(eps, i, maxFailures, n - 1), i, maxFailures)
  }

  /** `n` failed attempts in a row add `n` to the endpoint's failure count
      and leave it healthy only when it was healthy before and the count
      stays below the limit; so an endpoint failing `maxFailures` attempts
      in a row from a fresh state is marked unhealthy and leaves the healthy
      set. */
  lemma {:induction false} RepeatedFailuresRetireEndpoint(eps: seq<Endpoint>, i: nat, maxFailures: int, n: nat)
    requires i < |eps|
    ensures var r := FailRepeatedly(eps, i, maxFailures, n);
            && r[i].failures == eps[i].failures + n
            && (r[i].healthy <==> eps[i].healthy && (n == 0 || eps[i].failures + n < maxFailures))
            && (n >= 1 && eps[i].failures + n >= maxFailures ==> !Usable(r[i], maxFailures))
    decreases n
  {
    if n > 0 {
      RepeatedFailuresRetireEndpoint(eps, i, maxFailures, n - 1);
    }
  }

  // ---------------------------------------------------------------------
  // Average response time
  // ---------------------------------------------------------------------

  /** A finished request as far as the statistics care: served after some
      time, or failed. */
  datatype Finished = WasServed(elapsed: real) | WasFailed

  /** `updateAverageResponseTime` as written: the running mean weights the
      old average by the number of requests (failed ones included) before
      this one. */
  function RecordServedAsWritten(s: Stats, elapsed: real): (r: Stats)
    requires s.totalRequests >= 1
    ensures r.successfulRequests == s.successfulRequests + 1
    ensures r.totalRequests == s.totalRequests && r.failedRequests == s.failedRequests
    ensures r.averageResponseTime * s.totalRequests as real
            == s.averageResponseTime * (s.totalRequests - 1) as real + elapsed
  {
    var total := s.totalRequests;
    Stats(total, s.successfulRequests + 1, s.failedRequests,
          (s.averageResponseTime * (total - 1) as real + elapsed) / total as real)
  }

  /** The counters after one more finished request, with the average kept
      as written or as corrected. */
  function Step(before: Stats, f: Finished, asWritten: bool): (s: Stats)
    ensures s.totalRequests == before.totalRequests + 1
    ensures s.successfulRequests + s.failedRequests == before.successfulRequests + before.failedRequests + 1
  {
    var counted := before.(totalRequests := before.totalRequests + 1);
    match f
    case WasServed(t) => if asWritten then RecordServedAsWritten(counted, t) else RecordServed(counted, t)
    case WasFailed => counted.(failedRequests := counted.failedRequests + 1)
  }

  /** The counters after a run of requests. */
  function StatsAfter(history: seq<Finished>, asWritten: bool): (s: Stats)
    ensures s.totalRequests == |history|
    ensures s.successfulRequests + s.failedRequests == |history|
  {
    if history == [] then Stats(0, 0, 0, 0.0)
    else Step(StatsAfter(history[..|history| - 1], asWritten), history[|history| - 1], asWritten)
  }

  lemma StatsAfterAppend(history: seq<Finished>, f: Finished, asWritten: bool)
    ensures StatsAfter(history + [f], asWritten) == Step(StatsAfter(history, asWritten), f, asWritten)
  {
    var h := history + [f];
    assert h[..|h| - 1] == history;
  }

  /** While every earlier request was served, the two updates agree: the
      request count and the served count coincide. */
  lemma ServedStepAgrees(s: Stats, elapsed: real)
    requires s.successfulRequests == s.totalRequests
    ensures Step(s, WasServed(elapsed), true) == Step(s, WasServed(elapsed), false)
  {
  }

  /** Failures are the only source of the dilution: over a history of
      served requests only, the average as written is the corrected one. */
  lemma {:induction false} NoFailuresNoDilution(history: seq<Finished>)
    requires forall i :: 0 <= i < |history| ==> history[i].WasServed?
    ensures StatsAfter(history, true) == StatsAfter(history, false)
    ensures StatsAfter(history, true).failedRequests == 0
  {
    if history != [] {
      var init := history[..|history| - 1];
      assert forall i :: 0 <= i < |init| ==> init[i] == history[i];
      NoFailuresNoDilution(init);
      ServedStepAgrees(StatsAfter(init, true), history[|history| - 1].elapsed);
    }
  }

  /** The time a finished request adds to the served total. */
  function ServedTime(f: Finished): real {
    match f
    case WasServed(t) => t
    case WasFailed => 0.0
  }

  function ServedTimes(history: seq<Finished>): real {
    if history == [] then 0.0
    else ServedTimes(history[..|history| - 1]) + ServedTime(history[|history| - 1])
  }

  /** Average response time times served count: the served time it accounts for. */
  function Accounted(s: Stats): real {
    s.averageResponseTime * s.successfulRequests as real
  }

  /** One more finished request adds its served time to what the corrected
      average accounts for. */
  lemma StepAccounts(before: Stats, f: Finished)
    ensures Accounted(Step(before, f, false)) == Accounted(before) + ServedTime(f)
  {
    var counted := before.(totalRequests := before.totalRequests + 1);
    assert Accounted(counted) == Accounted(before);
  }

  /** With the corrected update the average response time is the mean over
      the served requests: average · served = the sum of their times. */
  lemma {:induction false} AverageIsMeanOfServed(history: seq<Finished>)
    ensures Accounted(StatsAfter(history, false)) == ServedTimes(history)
  {
    if history != [] {
      AverageIsMeanOfServed(history[..|history| - 1]);
      StepAccounts(StatsAfter(history[..|history| - 1], false), history[|history| - 1]);
    }
  }

  /** As written, a failed request dilutes the average: served in 100 ms,
      failed, served in 400 ms gives 200 ms where the mean is 250 ms. */
  lemma FailedRequestDilutesAverage()
    ensures StatsAfter([WasServed(100.0), WasFailed, WasServed(400.0)], true).averageResponseTime == 200.0
    ensures StatsAfter([WasServed(100.0), WasFailed, WasServed(400.0)], false).averageResponseTime == 250.0
  {
    var h := [WasServed(100.0), WasFailed, WasServed(400.0)];
    assert h[..2][..1] == [WasServed(100.0)];
    assert h[..2][..1][..0] == [];
    assert StatsAfter(h[..2][..1], true) == Stats(1, 1, 0, 100.0);
    assert StatsAfter(h[..2][..1], false) == Stats(1, 1, 0, 100.0);
    assert StatsAfter(h[..2], true) == Stats(2, 1, 1, 100.0);
    assert StatsAfter(h[..2], false) == Stats(2, 1, 1, 100.0);
  }

  // ---------------------------------------------------------------------
  // Health probe
  // ---------------------------------------------------------------------

  /** What the periodic `/status` probe of one endpoint gave. */
  datatype Probe = ProbeAnswered(status: int, elapsed: int) | ProbeFailed(message: string)

  /** The update `checkAllEndpointsHealth` applies to one endpoint at time
      `now`: a response resets the failures and sets health to "status is
      200"; an error marks the endpoint unhealthy and counts a failure. */
  function ApplyProbe(e: Endpoint, p: Probe, now: int): (r: Endpoint)
    ensures r.url == e.url && r.lastCheck == now
    ensures r.healthy <==> p.ProbeAnswered? && p.status == 200
    ensures p.ProbeAnswered? ==> r.failures == 0 && r.responseTime == p.elapsed as real
    ensures p.ProbeFailed? ==> r.failures == e.failures + 1 && r.responseTime == e.responseTime
  {
    match p
    case ProbeAnswered(status, elapsed) =>
      e.(healthy := status == 200, responseTime := elapsed as real, lastCheck := now, failures := 0)
    case ProbeFailed(_) =>
      e.(healthy := false, failures := e.failures + 1, lastCheck := now)
  }

  /** With a positive failure limit, an endpoint is usable right after a
      probe exactly when the probe answered with status 200. */
  lemma ProbeDecidesHealth(e: Endpoint, p: Probe, now: int, maxFailures: int)
    requires maxFailures > 0
    ensures Usable(ApplyProbe(e, p, now), maxFailures) <==> p.ProbeAnswered? && p.status == 200
  {
  }

  function ProbeAt(probes: seq<Probe>, k: nat): Probe {
    if k < |probes| then probes[k] else ProbeFailed("timeout")
  }

  /** `checkAllEndpointsHealth`: every endpoint probed and updated. */
  function CheckAllEndpointsHealth(c: Client, probes: seq<Probe>, now: int): (r: Client)
    ensures r.options == c.options && r.stats == c.stats
    ensures |r.endpoints| == |c.endpoints|
    ensures forall i :: 0 <= i < |c.endpoints| ==> r.endpoints[i] == ApplyProbe(c.endpoints[i], ProbeAt(probes, i), now)
  {
    c.(endpoints := seq(|c.endpoints|, i requires 0 <= i < |c.endpoints| => ApplyProbe(c.endpoints[i], ProbeAt(probes, i), now)))
  }

  /** After a health check (failure limit positive) the healthy set is
      exactly the endpoints whose probe answered 200. */
  lemma HealthCheckSetsHealthySet(c: Client, probes: seq<Probe>, now: int)
    requires c.options.maxFailures > 0
    ensures var r := CheckAllEndpointsHealth(c, probes, now);
            forall i :: i in HealthyIndices(r) <==>
              0 <= i < |c.endpoints| && ProbeAt(probes, i).ProbeAnswered? && ProbeAt(probes, i).status == 200
  {
    var r := CheckAllEndpointsHealth(c, probes, now);
    forall i | 0 <= i < |c.endpoints|
      ensures Usable(r.endpoints[i], c.options.maxFailures) <==> ProbeAt(probes, i).ProbeAnswered? && ProbeAt(probes, i).status == 200
    {
      ProbeDecidesHealth(c.endpoints[i], ProbeAt(probes, i), now, c.options.maxFailures);
    }
  }

  // ---------------------------------------------------------------------
  // getTransaction
  // ---------------------------------------------------------------------

  datatype TxLookup = Found(data: string) | NotFound | Raised(error: Thrown)

  /** `getTransaction` as written: null when the caught error's response
      status is 404, otherwise rethrow. */
  function GetTransactionAsWritten(r: RequestResult): TxLookup {
    match r
    case Data(d) => Found(d)
    case Rejected(e) => if e.responseStatus == Some(404) then NotFound else Raised(e)
  }

  /** The error it catches comes from `makeRequest`, which never carries a
      response, so a missing transaction is never reported as such. */
  lemma MissingTransactionNeverReported(c: Client, draws: seq<real>, outcomes: seq<Outcome>)
    requires AllDraws(draws)
    ensures GetTransactionAsWritten(MakeRequest(c, false, draws, outcomes).result) != NotFound
  {
  }

  /** A concrete case: one endpoint, every attempt answered 404, and the
      lookup raises instead of returning null. */
  lemma NotFoundTransactionRaises()
    ensures var c := NewClient(["https://node"], GivenOptions(None, None, None, None));
            var all404 := [Failed(HttpError("404", Some(404))), Failed(HttpError("404", Some(404))),
                           Failed(HttpError("404", Some(404)))];
            GetTransactionAsWritten(MakeRequest(c, false, [0.0, 0.0, 0.0], all404).result).Raised?
  {
    var c := NewClient(["https://node"], GivenOptions(None, None, None, None));
    var all404 := [Failed(HttpError("404", Some(404))), Failed(HttpError("404", Some(404))),
                   Failed(HttpError("404", Some(404)))];
    assert forall k: nat :: OutcomeAt(all404, k).Failed?;
    MakeRequestContract(c, false, [0.0, 0.0, 0.0], all404);
  }

  /** `getTransaction` as evidently intended: null when the request failed
      and its last attempt was answered 404. */
  function GetTransaction(r: RequestResult): (t: TxLookup)
    ensures t.NotFound? <==>
              r.Rejected? && r.error.reason.AttemptsFailed?
              && r.error.reason.lastError.Some? && r.error.reason.lastError.value.status == Some(404)
    ensures t.Found? <==> r.Data?
  {
    match r
    case Data(d) => Found(d)
    case Rejected(e) =>
      if e.reason.AttemptsFailed? && e.reason.lastError.Some? && e.reason.lastError.value.status == Some(404)
      then NotFound
      else Raised(e)
  }

  /** With the correction, a transaction the node does not know is reported
      missing exactly when every attempt failed and the last one with 404. */
  lemma MissingTransactionReported(c: Client, draws: seq<real>, outcomes: seq<Outcome>)
    requires AllDraws(draws)
    requires c.endpoints != [] && c.options.maxRetries > 0
    ensures var r := MakeRequest(c, false, draws, outcomes);
            GetTransaction(r.result).NotFound? <==>
              FailedBefore(outcomes, c.options.maxRetries)
              && OutcomeAt(outcomes, c.options.maxRetries - 1).error.status == Some(404)
  {
    MakeRequestContract(c, false, draws, outcomes);
  }
}

/** The stand-alone health checker of `js/health-check.js`: one probe of
    `${url}/status` per endpoint, turned into a result record, and the
    summary `printResults` computes over the results. The HTTP replies are
    inputs; a thrown error carries its message and its `code`. */
module HealthCheck {
  import opened Base
  import opened Text

  // ---------------------------------------------------------------------
  // checkSingleEndpoint
  // ---------------------------------------------------------------------

  /** What the probe of one endpoint gave: a response with its HTTP status
      and, when the body holds `result.sync_info`, the value `parseInt`
      made of `latest_block_height` (`None` standing for `NaN`); or a
      thrown error. `elapsed` is `Date.now() - startTime` in both cases. */
  datatype Reply =
    | Responded(httpStatus: nat, elapsed: int, syncHeight: Option<Option<int>>)
    | Threw(message: string, code: Option<string>, elapsed: int)

  datatype Status = Healthy | Unhealthy | Error

  /** The result record; `blockHeight` is `None` when it is `NaN`. */
  datatype Result = Result(url: string, status: Status, responseTime: int,
                           blockHeight: Option<int>, error: Option<string>)

  const DnsMessage := "DNS resolution failed"
  const RefusedMessage := "Connection refused"
  const TimeoutMessage := "Connection timeout"

  /** The error text of a thrown probe: the three network codes get fixed
      wording, anything else keeps the error's own message. */
  function ErrorText(message: string, code: Option<string>): (text: string)
    ensures code == Some("ENOTFOUND") ==> text == DnsMessage
    ensures code == Some("ECONNREFUSED") ==> text == RefusedMessage
    ensures code == Some("ETIMEDOUT") ==> text == TimeoutMessage
    ensures code !in {Some("ENOTFOUND"), Some("ECONNREFUSED"), Some("ETIMEDOUT")} ==> text == message
  {
    if code == Some("ENOTFOUND") then DnsMessage
    else if code == Some("ECONNREFUSED") then RefusedMessage
    else if code == Some("ETIMEDOUT") then TimeoutMessage
    else message
  }

  /** The three network codes are told apart by their wording. */
  lemma KnownCodesKeepDistinctTexts(m1: string, m2: string, c1: string, c2: string)
    requires c1 in {"ENOTFOUND", "ECONNREFUSED", "ETIMEDOUT"}
    requires c2 in {"ENOTFOUND", "ECONNREFUSED", "ETIMEDOUT"}
    ensures ErrorText(m1, Some(c1)) == ErrorText(m2, Some(c2)) <==> c1 == c2
  {
    assert DnsMessage[0] != RefusedMessage[0] && DnsMessage[0] != TimeoutMessage[0];
    assert RefusedMessage[11] != TimeoutMessage[11];
  }

  /** `checkSingleEndpoint(url)` once the probe has come back. */
  function CheckSingleEndpoint(url: string, reply: Reply): (r: Result)
    ensures r.url == url && r.responseTime == reply.elapsed
    ensures r.status == Healthy <==> reply.Responded? && reply.httpStatus == 200
    ensures r.status == Error <==> reply.Threw?
    ensures r.error.None? <==> r.status == Healthy
    ensures r.status == Unhealthy ==> r.error == Some("HTTP " + NatToString(reply.httpStatus))
    ensures r.status == Error ==> r.error == Some(ErrorText(reply.message, reply.code))
    ensures r.status == Healthy && reply.syncHeight.Some? ==> r.blockHeight == reply.syncHeight.value
    ensures !(r.status == Healthy && reply.syncHeight.Some?) ==> r.blockHeight == Some(0)
  {
    match reply
    case Responded(httpStatus, elapsed, syncHeight) =>
      if httpStatus == 200 then
        Result(url, Healthy, elapsed, if syncHeight.Some? then syncHeight.value else Some(0), None)
      else
        Result(url, Unhealthy, elapsed, Some(0), Some("HTTP " + NatToString(httpStatus)))
    case Threw(message, code, elapsed) =>
      Result(url, Error, elapsed, Some(0), Some(ErrorText(message, code)))
  }

  /** An unhealthy result's error names the status it got: two different
      statuses never give the same text. */
  lemma UnhealthyErrorNamesStatus(url: string, a: Reply, b: Reply)
    requires CheckSingleEndpoint(url, a).status == Unhealthy
    requires CheckSingleEndpoint(url, b).status == Unhealthy
    ensures CheckSingleEndpoint(url, a).error == CheckSingleEndpoint(url, b).error <==> a.httpStatus == b.httpStatus
  {
    var pa := "HTTP " + NatToString(a.httpStatus);
    var pb := "HTTP " + NatToString(b.httpStatus);
    if pa == pb {
      assert NatToString(a.httpStatus) == pa[5..] == pb[5..] == NatToString(b.httpStatus);
      NatToStringInjective(a.httpStatus, b.httpStatus);
    }
  }

  /** The reply of the k-th endpoint; past the script's end, a timeout. */
  function ReplyAt(replies: seq<Reply>, k: nat): Reply {
    if k < |replies| then replies[k] else Threw("timeout", Some("ETIMEDOUT"), 10000)
  }

  /** `checkAllEndpoints`: one result per endpoint, in the endpoints' order. */
  function CheckAllEndpoints(urls: seq<string>, replies: seq<Reply>): (results: seq<Result>)
    ensures |results| == |urls|
    ensures forall i :: 0 <= i < |urls| ==> results[i].url == urls[i]
    ensures forall i :: 0 <= i < |urls| ==> results[i] == CheckSingleEndpoint(urls[i], ReplyAt(replies, i))
  {
    seq(|urls|, i requires 0 <= i < |urls| => CheckSingleEndpoint(urls[i], ReplyAt(replies, i)))
  }

  // ---------------------------------------------------------------------
  // printResults
  // ---------------------------------------------------------------------

  /** `Math.max` on numbers that may be `NaN` (`None`): `NaN` wins. */
  function JsMax(a: Option<int>, b: Option<int>): (m: Option<int>)
    ensures m.Some? <==> a.Some? && b.Some?
    ensures m.Some? ==> m.value >= a.value && m.value >= b.value && (m.value == a.value || m.value == b.value)
  {
    if a.Some? && b.Some? then Some(Max(a.value, b.value)) else None
  }

  /** The three running totals of the `forEach` loop. */
  datatype Tally = Tally(healthy: nat, totalResponseTime: int, maxBlockHeight: Option<int>)

  predicate IsHealthy(r: Result) { r.status == Healthy }

  /** The positions of the healthy results. */
  function HealthySet(results: seq<Result>): set<nat> {
    set i: nat | i < |results| && IsHealthy(results[i])
  }

  /** The healthy positions of a list are those of its first part plus,
      when healthy, the last one. */
  lemma HealthySetStep(results: seq<Result>)
    requires results != []
    ensures var init := results[..|results| - 1];
            var n := |results| - 1;
            HealthySet(results) == HealthySet(init) + (if IsHealthy(results[n]) then {n} else {})
            && n !in HealthySet(init)
  {
    var init := results[..|results| - 1];
    assert forall i :: 0 <= i < |init| ==> results[i] == init[i];
  }

  /** The loop after the given results: healthy results counted, their
      response times added, their block heights folded with `Math.max`
      from 0. */
  function TallyOf(results: seq<Result>): (t: Tally)
    ensures t.healthy <= |results|
    ensures t.healthy == 0 <==> forall i :: 0 <= i < |results| ==> !IsHealthy(results[i])
    ensures t.healthy == |results| <==> forall i :: 0 <= i < |results| ==> IsHealthy(results[i])
    ensures t.maxBlockHeight.None? <==>
              exists i :: 0 <= i < |results| && IsHealthy(results[i]) && results[i].blockHeight.None?
    ensures t.maxBlockHeight.Some? ==>
              && t.maxBlockHeight.value >= 0
              && (forall i :: 0 <= i < |results| && IsHealthy(results[i]) ==>
                    results[i].blockHeight.value <= t.maxBlockHeight.value)
              && (t.maxBlockHeight.value == 0 ||
                  exists i :: 0 <= i < |results| && IsHealthy(results[i]) && results[i].blockHeight == t.maxBlockHeight)
    decreases |results|
  {
    if results == [] then Tally(0, 0, Some(0))
    else
      var init := results[..|results| - 1];
      var last := results[|results| - 1];
      var t := TallyOf(init);
      assert forall i :: 0 <= i < |init| ==> results[i] == init[i];
      if IsHealthy(last) then
        Tally(t.healthy + 1, t.totalResponseTime + last.responseTime, JsMax(t.maxBlockHeight, last.blockHeight))
      else t
  }

  /** The verdict printed at the end. */
  datatype Verdict = Critical | Warning | Stable

  /** The colour the availability percentage is printed in. */
  datatype Colour = Green | Yellow | Red

  /** What `printResults` returns, with the verdict and colour it prints;
      `percentage` is `None` when it is `NaN` (no results at all). */
  datatype Summary = Summary(healthy: nat, total: nat, percentage: Option<int>, avgResponseTime: int,
                             maxBlockHeight: Option<int>, verdict: Verdict, colour: Colour)

  /** `Math.round((healthy / total) * 100)`, `NaN` for no results. */
  function Percentage(healthy: nat, total: nat): (p: Option<int>)
    ensures p.None? <==> total == 0
    ensures p.Some? && healthy <= total ==> 0 <= p.value <= 100
    ensures p.Some? && healthy == total ==> p.value == 100
    ensures p.Some? && healthy == 0 ==> p.value == 0
    ensures p.Some? && 2 * healthy >= total ==> p.value >= 50
  {
    if total == 0 then None
    else
      var x := (healthy as real / total as real) * 100.0;
      QuotientBounds(healthy, total);
      Some(JsRound(x))
  }

  lemma QuotientBounds(h: nat, t: nat)
    requires 0 < t
    ensures h <= t ==> h as real / t as real <= 1.0
    ensures 2 * h >= t ==> h as real / t as real >= 0.5
    ensures h == t ==> h as real / t as real == 1.0
  {
    var q := h as real / t as real;
    assert q * t as real == h as real;
    if h <= t {
      QuotientAtMostOne(q, h as real, t as real);
    }
    if 2 * h >= t {
      QuotientAtLeastHalf(q, h as real, t as real);
    }
    if h == t {
      QuotientOfEqual(q, t as real);
    }
  }

  lemma QuotientOfEqual(q: real, t: real)
    requires 0.0 < t && q * t == t
    ensures q == 1.0
  {
    assert (q - 1.0) * t == 0.0;
  }

  lemma QuotientAtMostOne(q: real, h: real, t: real)
    requires 0.0 < t && h <= t && q * t == h
    ensures q <= 1.0
  {
    assert (q - 1.0) * t == h - t;
  }

  lemma QuotientAtLeastHalf(q: real, h: real, t: real)
    requires 0.0 < t && 2.0 * h >= t && q * t == h
    ensures q >= 0.5
  {
    assert (2.0 * q - 1.0) * t == 2.0 * h - t;
  }

  function ColourOf(p: Option<int>): (c: Colour)
    ensures c == Green <==> p.Some? && p.value >= 80
    ensures c == Red <==> p.None? || p.value < 50
  {
    if p.Some? && p.value >= 80 then Green
    else if p.Some? && p.value >= 50 then Yellow
    else Red
  }

  /** Critical when nothing is healthy, a warning when fewer than half
      are, stable otherwise. */
  function VerdictOf(healthy: nat, total: nat): (v: Verdict)
    ensures v == Critical <==> healthy == 0
    ensures v == Warning <==> 0 < healthy && 2 * healthy < total
    ensures v == Stable <==> 0 < healthy && 2 * healthy >= total
  {
    if healthy == 0 then Critical
    else if (healthy as real) < total as real / 2.0 then Warning
    else Stable
  }

  /** `printResults`' return value and verdict: the healthy count, the
      rounded mean of their response times, and the verdict by the share of
      healthy results. */
  function Summarize(results: seq<Result>): (s: Summary)
    ensures s.total == |results| && s.healthy == |HealthySet(results)| <= s.total
    ensures s.healthy > 0 ==> s.avgResponseTime == JsRound(HealthyTimes(results) as real / s.healthy as real)
    ensures s.healthy == 0 ==> s.avgResponseTime == 0
    ensures s.verdict == Critical <==> forall i :: 0 <= i < |results| ==> !IsHealthy(results[i])
    ensures s.verdict == Warning <==> 0 < s.healthy && 2 * s.healthy < |results|
    ensures s.verdict == Stable <==> 0 < s.healthy && 2 * s.healthy >= |results|
    ensures s.percentage.None? <==> results == []
  {
    var t := TallyOf(results);
    TallyCountsHealthy(results);
    TallyAddsHealthyTimes(results);
    var p := Percentage(t.healthy, |results|);
    Summary(t.healthy, |results|, p,
            if t.healthy > 0 then JsRound(t.totalResponseTime as real / t.healthy as real) else 0,
            t.maxBlockHeight, VerdictOf(t.healthy, |results|), ColourOf(p))
  }

  /** The summary's parts agree: a stable verdict is printed in green or
      yellow, and a critical one in red with 0% (or `NaN` for no results). */
  lemma VerdictAgreesWithColour(results: seq<Result>)
    ensures var s := Summarize(results);
            && (s.verdict == Stable ==> s.colour != Red)
            && (s.verdict == Critical ==> s.colour == Red && (s.total > 0 ==> s.percentage == Some(0)))
  {
  }

  /** The healthy results' response times, summed in the loop's order. */
  function HealthyTimes(results: seq<Result>): (r: int)
    decreases |results|
  {
    if results == [] then 0
    else
      var last := results[|results| - 1];
      HealthyTimes(results[..|results| - 1]) + (if IsHealthy(last) then last.responseTime else 0)
  }

  /** When every healthy response time lies in [lo, hi], so does their sum
      spread over the healthy count. */
  lemma {:induction false} TallyTimesBetween(results: seq<Result>, lo: int, hi: int)
    requires forall i :: 0 <= i < |results| && IsHealthy(results[i]) ==> lo <= results[i].responseTime <= hi
    ensures var t := TallyOf(results);
            t.healthy * lo <= t.totalResponseTime <= t.healthy * hi
    decreases |results|
  {
    if results != [] {
      var init := results[..|results| - 1];
      var last := results[|results| - 1];
      assert forall i :: 0 <= i < |init| ==> results[i] == init[i];
      TallyTimesBetween(init, lo, hi);
      var t := TallyOf(init);
      if IsHealthy(last) {
        assert TallyOf(results).healthy == t.healthy + 1;
        assert TallyOf(results).totalResponseTime == t.totalResponseTime + last.responseTime;
        BoundsGrowByOne(t.healthy, t.totalResponseTime, last.responseTime, lo, hi);
      } else {
        assert TallyOf(results) == t;
      }
    }
  }

  lemma RatioBetween(sum: int, n: nat, lo: int, hi: int)
    requires n > 0 && n * lo <= sum <= n * hi
    ensures lo as real <= sum as real / n as real <= hi as real
  {
    assert (n * lo) as real == n as real * lo as real;
    assert (n * hi) as real == n as real * hi as real;
  }

  /** The average response time reported lies between the fastest and the
      slowest healthy endpoint: it is the rounded mean of their times. */
  lemma AverageWithinHealthyTimes(results: seq<Result>, lo: int, hi: int)
    requires forall i :: 0 <= i < |results| && IsHealthy(results[i]) ==> lo <= results[i].responseTime <= hi
    ensures var s := Summarize(results);
            s.healthy > 0 ==> lo <= s.avgResponseTime <= hi
  {
    var t := TallyOf(results);
    TallyTimesBetween(results, lo, hi);
    if t.healthy > 0 {
      RatioBetween(t.totalResponseTime, t.healthy, lo, hi);
    }
  }

  /** The tally's count is the number of healthy results. */
  lemma {:induction false} TallyCountsHealthy(results: seq<Result>)
    ensures TallyOf(results).healthy == |HealthySet(results)|
    decreases |results|
  {
    if results != [] {
      TallyCountsHealthy(results[..|results| - 1]);
      HealthySetStep(results);
    }
  }

  /** The tally's total is the sum of the healthy results' response times. */
  lemma {:induction false} TallyAddsHealthyTimes(results: seq<Result>)
    ensures TallyOf(results).totalResponseTime == HealthyTimes(results)
    decreases |results|
  {
    if results != [] {
      TallyAddsHealthyTimes(results[..|results| - 1]);
    }
  }

  /** Every endpoint answering 200 gives a stable, green, 100% summary;
      none answering 200 gives a critical one. */
  lemma AllAnsweringIsStable(urls: seq<string>, replies: seq<Reply>)
    requires |urls| > 0
    requires forall i :: 0 <= i < |urls| ==> ReplyAt(replies, i).Responded? && ReplyAt(replies, i).httpStatus == 200
    ensures var s := Summarize(CheckAllEndpoints(urls, replies));
            s.healthy == s.total && s.verdict == Stable && s.percentage == Some(100) && s.colour == Green
  {
    var results := CheckAllEndpoints(urls, replies);
    assert forall i :: 0 <= i < |results| ==> IsHealthy(results[i]);
  }

  lemma NoneAnsweringIsCritical(urls: seq<string>, replies: seq<Reply>)
    requires forall i :: 0 <= i < |urls| ==> !(ReplyAt(replies, i).Responded? && ReplyAt(replies, i).httpStatus == 200)
    ensures var s := Summarize(CheckAllEndpoints(urls, replies));
            s.healthy == 0 && s.verdict == Critical && s.avgResponseTime == 0 && s.maxBlockHeight == Some(0)
  {
    var results := CheckAllEndpoints(urls, replies);
    assert forall i :: 0 <= i < |results| ==> !IsHealthy(results[i]);
  }
}

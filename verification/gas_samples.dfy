/** The statistics of the block-scanning gas estimator (`gas-calculator.js`):
    which transactions count as samples of a message type, and how the
    samples become a gas figure — sort, drop the outliers outside the
    1.5·IQR fences, average, and add a margin. JavaScript numbers are
    modelled as exact integers and rationals; a gas field that does not parse
    (`parseInt` giving NaN) is `None`, and every comparison with it fails as
    it does in JavaScript. */
module GasSamples {
  import opened Base
  import opened Text
  import opened Fees

  predicate IsWithdraw(messageType: string) {
    messageType == "withdraw"
  }

  /** The message types are free strings: anything but "withdraw" is
      treated as a transfer. */
  function KindOf(messageType: string): (kind: TxKind)
    ensures kind == Withdraw <==> IsWithdraw(messageType)
  {
    if IsWithdraw(messageType) then Withdraw else Send
  }

  /** `fallbackGas[messageType === 'withdraw' ? 'withdraw' : 'send']`: the
      same fallback figures the sweep script uses, 900000 for withdrawals and
      250000 for anything else. */
  function FallbackFor(messageType: string): (gas: int)
    ensures IsWithdraw(messageType) ==> gas == 900000
    ensures !IsWithdraw(messageType) ==> gas == 250000
  {
    FallbackGas(KindOf(messageType))
  }

  // ---------------------------------------------------------------------
  // Events
  // ---------------------------------------------------------------------

  /** An event attribute; a missing value is `None`. */
  datatype Attribute = Attribute(key: string, value: Option<string>)

  /** A transaction event; missing attributes are `None`. */
  datatype Event = Event(eventType: string, attributes: Option<seq<Attribute>>)

  /** The event type that marks a message of the given type by itself. */
  function TargetEventType(messageType: string): string {
    if IsWithdraw(messageType) then "withdraw_rewards" else "transfer"
  }

  /** The word an `action` attribute must contain. */
  function ActionWord(messageType: string): string {
    if IsWithdraw(messageType) then "withdraw" else "send"
  }

  predicate AttributeMatches(a: Attribute, messageType: string) {
    a.key == "action" && a.value.Some? && Contains(a.value.value, ActionWord(messageType))
  }

  /** The event is the target type, or a `message` event with a matching
      `action` attribute. */
  ghost predicate EventMatches(e: Event, messageType: string) {
    || e.eventType == TargetEventType(messageType)
    || (e.eventType == "message" && e.attributes.Some?
        && exists i :: 0 <= i < |e.attributes.value| && AttributeMatches(e.attributes.value[i], messageType))
  }

  /** `attributes.some(...)`, scanning left to right. */
  function SomeAttribute(attrs: seq<Attribute>, messageType: string): (b: bool)
    ensures b <==> exists i :: 0 <= i < |attrs| && AttributeMatches(attrs[i], messageType)
  {
    if attrs == [] then false
    else AttributeMatches(attrs[0], messageType) || SomeAttribute(attrs[1..], messageType)
  }

  function EventMatchesDecided(e: Event, messageType: string): (b: bool)
    ensures b <==> EventMatches(e, messageType)
  {
    || e.eventType == TargetEventType(messageType)
    || (e.eventType == "message" && e.attributes.Some? && SomeAttribute(e.attributes.value, messageType))
  }

  /** `events.some(...)`, scanning left to right. */
  function SomeEvent(events: seq<Event>, messageType: string): (b: bool)
    ensures b <==> exists i :: 0 <= i < |events| && EventMatches(events[i], messageType)
  {
    if events == [] then false
    else EventMatchesDecided(events[0], messageType) || SomeEvent(events[1..], messageType)
  }

  /** `checkTransactionEvents`: false for a missing or non-array event list,
      otherwise true exactly when some event matches. */
  function CheckTransactionEvents(events: Option<seq<Event>>, messageType: string): (b: bool)
    ensures b <==> events.Some? && exists i :: 0 <= i < |events.value| && EventMatches(events.value[i], messageType)
  {
    events.Some? && SomeEvent(events.value, messageType)
  }

  // ---------------------------------------------------------------------
  // Samples
  // ---------------------------------------------------------------------

  /** A transaction's `tx_result`: the result code, the events, and the gas
      fields after `parseInt` (`None` for NaN). */
  datatype TxResult = TxResult(code: Option<int>, events: Option<seq<Event>>, gasUsed: Option<int>, gasWanted: Option<int>)

  /** One gas sample. */
  datatype Sample = Sample(gasUsed: int, gasWanted: int, height: int)

  /** The gas used is positive and below one and a half times the gas wanted. */
  predicate PlausibleGas(gasUsed: int, gasWanted: int) {
    0 < gasUsed && 2 * gasUsed < 3 * gasWanted
  }

  /** A transaction counts when it succeeded (code exactly 0), carries a
      matching event, and its gas fields parse and are plausible. A
      transaction without `tx_result` throws and is skipped. */
  predicate IsRelevant(tx: Option<TxResult>, messageType: string) {
    && tx.Some?
    && tx.value.code == Some(0)
    && CheckTransactionEvents(tx.value.events, messageType)
    && tx.value.gasUsed.Some? && tx.value.gasWanted.Some?
    && PlausibleGas(tx.value.gasUsed.value, tx.value.gasWanted.value)
  }

  function SampleOf(tx: Option<TxResult>, height: int): Sample
    requires tx.Some? && tx.value.gasUsed.Some? && tx.value.gasWanted.Some?
  {
    Sample(tx.value.gasUsed.value, tx.value.gasWanted.value, height)
  }

  /** The loop of `analyzeBlockTransactionsREST` over one block's
      transactions: the samples of the relevant ones, in block order. */
  function RelevantSamples(txs: seq<Option<TxResult>>, messageType: string, height: int): (samples: seq<Sample>)
    ensures |samples| <= |txs|
    ensures forall s :: s in samples ==> PlausibleGas(s.gasUsed, s.gasWanted) && s.height == height
  {
    if txs == [] then []
    else
      var rest := RelevantSamples(txs[1..], messageType, height);
      if IsRelevant(txs[0], messageType) then [SampleOf(txs[0], height)] + rest else rest
  }

  /** The transaction counts and its sample at this height is `s`. */
  predicate Produces(tx: Option<TxResult>, messageType: string, height: int, s: Sample) {
    IsRelevant(tx, messageType) && s == SampleOf(tx, height)
  }

  /** A sample is produced exactly for a relevant transaction of the block. */
  lemma {:induction false} RelevantSamplesExact(txs: seq<Option<TxResult>>, messageType: string, height: int, s: Sample)
    ensures s in RelevantSamples(txs, messageType, height) <==>
              exists i :: 0 <= i < |txs| && Produces(txs[i], messageType, height, s)
  {
    if txs != [] {
      RelevantSamplesExact(txs[1..], messageType, height, s);
      ProducedByHeadOrTail(txs, messageType, height, s);
    }
  }

  /** The transactions of the block, from position `k` on, that produce `s`. */
  function ProducersFrom(txs: seq<Option<TxResult>>, messageType: string, height: int, s: Sample, k: nat): set<nat> {
    set i: nat | k <= i < |txs| && Produces(txs[i], messageType, height, s)
  }

  /** Each sample appears in the block's samples once per transaction that
      produces it. */
  lemma RelevantSampleCount(txs: seq<Option<TxResult>>, messageType: string, height: int, s: Sample)
    ensures multiset(RelevantSamples(txs, messageType, height))[s] == |ProducersFrom(txs, messageType, height, s, 0)|
  {
    RelevantSampleCountFrom(txs, messageType, height, s, 0);
    assert txs[0..] == txs;
  }

  lemma {:induction false} RelevantSampleCountFrom(txs: seq<Option<TxResult>>, messageType: string, height: int, s: Sample, k: nat)
    requires k <= |txs|
    ensures multiset(RelevantSamples(txs[k..], messageType, height))[s] == |ProducersFrom(txs, messageType, height, s, k)|
    decreases |txs| - k
  {
    if k == |txs| {
      assert ProducersFrom(txs, messageType, height, s, k) == {};
    } else {
      RelevantSampleCountFrom(txs, messageType, height, s, k + 1);
      ProducersStep(txs, messageType, height, s, k);
      SamplesStep(txs[k..], messageType, height, s);
      assert txs[k..][1..] == txs[k + 1..];
    }
  }

  /** Position `k` joins the producers from `k + 1` on exactly when its
      transaction produces `s`. */
  lemma ProducersStep(txs: seq<Option<TxResult>>, messageType: string, height: int, s: Sample, k: nat)
    requires k < |txs|
    ensures var later := ProducersFrom(txs, messageType, height, s, k + 1);
            && k !in later
            && ProducersFrom(txs, messageType, height, s, k)
                 == if Produces(txs[k], messageType, height, s) then {k} + later else later
  {
  }

  /** The first transaction adds one occurrence of `s` exactly when it
      produces it. */
  lemma SamplesStep(txs: seq<Option<TxResult>>, messageType: string, height: int, s: Sample)
    requires txs != []
    ensures multiset(RelevantSamples(txs, messageType, height))[s]
              == multiset(RelevantSamples(txs[1..], messageType, height))[s]
                 + (if Produces(txs[0], messageType, height, s) then 1 else 0)
  {
  }

  /** A transaction of the block producing `s` is the first one or one of
      the rest. */
  lemma ProducedByHeadOrTail(txs: seq<Option<TxResult>>, messageType: string, height: int, s: Sample)
    requires txs != []
    ensures (exists i :: 0 <= i < |txs| && Produces(txs[i], messageType, height, s))
            <==> Produces(txs[0], messageType, height, s)
                 || (exists i :: 0 <= i < |txs[1..]| && Produces(txs[1..][i], messageType, height, s))
  {
    var tail := txs[1..];
    if exists i :: 0 <= i < |txs| && Produces(txs[i], messageType, height, s) {
      var i :| 0 <= i < |txs| && Produces(txs[i], messageType, height, s);
      if i > 0 {
        assert tail[i - 1] == txs[i];
      }
    }
    if exists i :: 0 <= i < |tail| && Produces(tail[i], messageType, height, s) {
      var i :| 0 <= i < |tail| && Produces(tail[i], messageType, height, s);
      assert txs[i + 1] == tail[i];
    }
  }

  // ---------------------------------------------------------------------
  // Sorting
  // ---------------------------------------------------------------------

  predicate Sorted(s: seq<int>) {
    forall i, j :: 0 <= i < j < |s| ==> s[i] <= s[j]
  }

  /** A value at most every element of a sorted sequence may go in front. */
  lemma SortedCons(y: int, t: seq<int>)
    requires Sorted(t) && forall k :: 0 <= k < |t| ==> y <= t[k]
    ensures Sorted([y] + t)
  {
    var u := [y] + t;
    forall i, j | 0 <= i < j < |u|
      ensures u[i] <= u[j]
    {
      assert u[j] == t[j - 1];
      if i > 0 {
        assert u[i] == t[i - 1];
      }
    }
  }

  /** A lower bound of `t` and of `x` bounds every element of a sequence
      holding `t`'s elements and `x`. */
  lemma LowerBoundKept(y: int, x: int, t: seq<int>, rest: seq<int>)
    requires y <= x && forall k :: 0 <= k < |t| ==> y <= t[k]
    requires multiset(rest) == multiset(t) + multiset{x}
    ensures forall k :: 0 <= k < |rest| ==> y <= rest[k]
  {
    forall k | 0 <= k < |rest|
      ensures y <= rest[k]
    {
      assert rest[k] in multiset(rest);
      if rest[k] != x {
        assert rest[k] in multiset(t);
        var j :| 0 <= j < |t| && t[j] == rest[k];
      }
    }
  }

  function Insert(x: int, s: seq<int>): (r: seq<int>)
    requires Sorted(s)
    ensures Sorted(r)
    ensures multiset(r) == multiset(s) + multiset{x}
    ensures |r| == |s| + 1
  {
    if s == [] then [x]
    else if x <= s[0] then
      SortedCons(x, s);
      [x] + s
    else
      var t := s[1..];
      assert forall k :: 0 <= k < |t| ==> s[0] <= t[k] by {
        forall k | 0 <= k < |t|
          ensures s[0] <= t[k]
        {
          assert t[k] == s[k + 1];
        }
      }
      var rest := Insert(x, t);
      LowerBoundKept(s[0], x, t, rest);
      SortedCons(s[0], rest);
      assert s == [s[0]] + t;
      [s[0]] + rest
  }

  /** `.sort((a, b) => a - b)`: ascending numeric order, same elements. */
  function SortAscending(s: seq<int>): (r: seq<int>)
    ensures Sorted(r)
    ensures multiset(r) == multiset(s)
    ensures |r| == |s|
  {
    if s == [] then []
    else
      assert s == [s[0]] + s[1..];
      Insert(s[0], SortAscending(s[1..]))
  }

  /** The head of a sorted sequence is at most any of its elements. */
  lemma HeadIsLeast(a: seq<int>, x: int)
    requires Sorted(a) && x in multiset(a)
    ensures a[0] <= x
  {
    var i :| 0 <= i < |a| && a[i] == x;
  }

  /** A sorted arrangement of a multiset is unique, so any correct sort gives
      the same quartiles as `SortAscending`. */
  lemma {:induction false} SortedArrangementUnique(a: seq<int>, b: seq<int>)
    requires Sorted(a) && Sorted(b) && multiset(a) == multiset(b)
    ensures a == b
  {
    if a != [] {
      assert |a| == |b| by {
        assert |multiset(a)| == |multiset(b)|;
      }
      assert a[0] in multiset(a);
      assert b[0] in multiset(b);
      HeadIsLeast(a, b[0]);
      HeadIsLeast(b, a[0]);
      assert a[0] == b[0];
      assert a == [a[0]] + a[1..];
      assert b == [b[0]] + b[1..];
      assert multiset(a[1..]) == multiset(b[1..]) by {
        assert multiset(a) == multiset{a[0]} + multiset(a[1..]);
        assert multiset(b) == multiset{b[0]} + multiset(b[1..]);
        assert multiset(a[1..]) == multiset(a) - multiset{a[0]};
        assert multiset(b[1..]) == multiset(b) - multiset{b[0]};
      }
      assert Sorted(a[1..]) && Sorted(b[1..]);
      SortedArrangementUnique(a[1..], b[1..]);
    }
  }

  // ---------------------------------------------------------------------
  // Order statistics
  // ---------------------------------------------------------------------

  /** How many elements of `s` are below `v`; `CountBelow(s, v + 1)` counts
      those at most `v`. */
  function CountBelow(s: seq<int>, v: int): (c: nat)
    ensures c <= |s|
  {
    if s == [] then 0 else (if s[0] < v then 1 else 0) + CountBelow(s[1..], v)
  }

  /** When every element is below `v` all are counted; when none is, none. */
  lemma {:induction false} CountBelowExtremes(s: seq<int>, v: int)
    ensures (forall i :: 0 <= i < |s| ==> s[i] < v) ==> CountBelow(s, v) == |s|
    ensures (forall i :: 0 <= i < |s| ==> v <= s[i]) ==> CountBelow(s, v) == 0
  {
    if s != [] {
      assert forall i :: 1 <= i < |s| ==> s[1..][i - 1] == s[i];
      CountBelowExtremes(s[1..], v);
    }
  }

  lemma {:induction false} CountBelowAppend(a: seq<int>, b: seq<int>, v: int)
    ensures CountBelow(a + b, v) == CountBelow(a, v) + CountBelow(b, v)
  {
    if a == [] {
      assert a + b == b;
    } else {
      assert (a + b)[0] == a[0];
      assert (a + b)[1..] == a[1..] + b;
      CountBelowAppend(a[1..], b, v);
    }
  }

  /** The count depends only on the elements, not on their order. */
  lemma {:induction false} CountBelowPermutation(a: seq<int>, b: seq<int>, v: int)
    requires multiset(a) == multiset(b)
    ensures CountBelow(a, v) == CountBelow(b, v)
    decreases |a|
  {
    if a == [] {
      assert |b| == |multiset(b)| == 0;
    } else {
      var x := a[0];
      assert x in multiset(b);
      var j :| 0 <= j < |b| && b[j] == x;
      var rest := b[..j] + b[j + 1..];
      assert b == b[..j] + ([x] + b[j + 1..]);
      assert a == [x] + a[1..];
      assert multiset(a[1..]) == multiset(rest) by {
        assert multiset(a) == multiset{x} + multiset(a[1..]);
        assert multiset(b) == multiset(b[..j]) + (multiset{x} + multiset(b[j + 1..]));
        assert multiset(rest) == multiset(b[..j]) + multiset(b[j + 1..]);
        assert multiset(a[1..]) == multiset(a) - multiset{x};
        assert multiset(rest) == multiset(b) - multiset{x};
      }
      CountBelowPermutation(a[1..], rest, v);
      CountBelowAppend(b[..j], [x] + b[j + 1..], v);
      CountBelowAppend(b[..j], b[j + 1..], v);
    }
  }

  /** `v` is the `k`-th smallest element of `s` (counting from 0): at most
      `k` elements lie below it and more than `k` are at most `v`. */
  predicate IsOrderStatistic(s: seq<int>, k: nat, v: int) {
    CountBelow(s, v) <= k < CountBelow(s, v + 1)
  }

  /** A larger bound counts at least as many elements. */
  lemma {:induction false} CountBelowMonotone(s: seq<int>, v: int, w: int)
    requires v <= w
    ensures CountBelow(s, v) <= CountBelow(s, w)
  {
    if s != [] {
      CountBelowMonotone(s[1..], v, w);
    }
  }

  /** In a sorted sequence the element at position `k` has at most `k`
      elements below it and more than `k` at most equal to it. */
  lemma SortedPositionCounts(s: seq<int>, k: nat)
    requires Sorted(s) && k < |s|
    ensures IsOrderStatistic(s, k, s[k])
  {
    var from := s[k..];
    assert s == s[..k] + from;
    CountBelowAppend(s[..k], from, s[k]);
    forall i | 0 <= i < |from|
      ensures s[k] <= from[i]
    {
      assert from[i] == s[k + i];
    }
    CountBelowExtremes(from, s[k]);
    var upTo := s[..k + 1];
    assert s == upTo + s[k + 1..];
    CountBelowAppend(upTo, s[k + 1..], s[k] + 1);
    forall i | 0 <= i < |upTo|
      ensures upTo[i] < s[k] + 1
    {
      assert upTo[i] == s[i];
    }
    CountBelowExtremes(upTo, s[k] + 1);
  }

  /** The `k`-th element of the sorted arrangement is the `k`-th smallest
      of the original sequence. */
  lemma SortedElementCounts(g: seq<int>, sorted: seq<int>, k: nat)
    requires Sorted(sorted) && multiset(sorted) == multiset(g) && k < |sorted|
    ensures IsOrderStatistic(g, k, sorted[k])
  {
    SortedPositionCounts(sorted, k);
    CountBelowPermutation(sorted, g, sorted[k]);
    CountBelowPermutation(sorted, g, sorted[k] + 1);
  }

  /** A sequence has only one `k`-th smallest element. */
  lemma OrderStatisticUnique(s: seq<int>, k: nat, v: int, w: int)
    requires IsOrderStatistic(s, k, v) && IsOrderStatistic(s, k, w)
    ensures v == w
  {
    if v < w {
      CountBelowMonotone(s, v + 1, w);
    } else if w < v {
      CountBelowMonotone(s, w + 1, v);
    }
  }

  // ---------------------------------------------------------------------
  // Outlier filter and average
  // ---------------------------------------------------------------------

  function GasUsedOf(samples: seq<Sample>): (g: seq<int>)
    ensures |g| == |samples|
    ensures forall i :: 0 <= i < |samples| ==> g[i] == samples[i].gasUsed
  {
    if samples == [] then [] else [samples[0].gasUsed] + GasUsedOf(samples[1..])
  }

  /** `Math.floor(n * 0.25)` and `Math.floor(n * 0.75)`. */
  function Q1Index(n: nat): nat { n / 4 }
  function Q3Index(n: nat): nat { (3 * n) / 4 }

  /** The value lies within the fences `q1 - 1.5·iqr` and `q3 + 1.5·iqr`,
      compared exactly (both sides doubled). */
  predicate InFences(g: int, q1: int, q3: int) {
    2 * q1 - 3 * (q3 - q1) <= 2 * g <= 2 * q3 + 3 * (q3 - q1)
  }

  /** `gasData.filter(...)`: the samples within the fences, in their
      original order. */
  function WithinFences(samples: seq<Sample>, q1: int, q3: int): (kept: seq<Sample>)
    ensures |kept| <= |samples|
    ensures forall s :: s in kept ==> s in samples && InFences(s.gasUsed, q1, q3)
    ensures forall s :: s in samples && InFences(s.gasUsed, q1, q3) ==> s in kept
    ensures forall s :: multiset(kept)[s] == if InFences(s.gasUsed, q1, q3) then multiset(samples)[s] else 0
  {
    if samples == [] then []
    else
      var rest := WithinFences(samples[1..], q1, q3);
      assert samples == [samples[0]] + samples[1..];
      assert forall s :: s in samples[1..] ==> s in samples;
      assert forall s :: s in samples ==> s == samples[0] || s in samples[1..];
      if InFences(samples[0].gasUsed, q1, q3) then [samples[0]] + rest else rest
  }

  function SumGas(samples: seq<Sample>): int {
    if samples == [] then 0 else SumGas(samples[..|samples| - 1]) + samples[|samples| - 1].gasUsed
  }

  /** The quartiles of the sorted gas values: the elements at positions
      `floor(n/4)` and `floor(3n/4)`, that is, the order statistics of
      those ranks. */
  datatype Quartiles = Quartiles(q1: int, q3: int)

  function QuartilesOf(samples: seq<Sample>): (q: Quartiles)
    requires samples != []
    ensures q.q1 <= q.q3
    ensures q.q1 in multiset(GasUsedOf(samples)) && q.q3 in multiset(GasUsedOf(samples))
    ensures IsOrderStatistic(GasUsedOf(samples), Q1Index(|samples|), q.q1)
    ensures IsOrderStatistic(GasUsedOf(samples), Q3Index(|samples|), q.q3)
  {
    var g := GasUsedOf(samples);
    var sorted := SortAscending(g);
    var n := |samples|;
    var lower, upper := Q1Index(n), Q3Index(n);
    assert lower <= upper < n == |sorted|;
    assert sorted[lower] in multiset(sorted);
    assert sorted[upper] in multiset(sorted);
    SortedElementCounts(g, sorted, lower);
    SortedElementCounts(g, sorted, upper);
    Quartiles(sorted[lower], sorted[upper])
  }

  /** The safety margin: 5% for withdrawals, 10% otherwise. */
  function Margin(messageType: string): (m: real)
    ensures m > 1.0
  {
    if IsWithdraw(messageType) then 1.05 else 1.1
  }

  function Mean(samples: seq<Sample>): real
    requires samples != []
  {
    SumGas(samples) as real / |samples| as real
  }

  /** `calculateAverageGas`: the fallback for no samples; otherwise the
      rounded, margined mean of the samples inside the IQR fences (or the
      fallback should none be inside, which cannot happen). */
  function CalculateAverageGas(samples: seq<Sample>, messageType: string): (gas: int)
    ensures samples == [] ==> gas == FallbackFor(messageType)
  {
    if samples == [] then FallbackFor(messageType)
    else
      var q := QuartilesOf(samples);
      var kept := WithinFences(samples, q.q1, q.q3);
      if kept == [] then FallbackFor(messageType)
      else JsRound(Mean(kept) * Margin(messageType))
  }

  /** The quartile samples themselves are never outliers, so the filter
      keeps at least one sample and the second fallback is unreachable. */
  lemma QuartileSamplesAreKept(samples: seq<Sample>)
    requires samples != []
    ensures var q := QuartilesOf(samples);
            && (exists s :: s in WithinFences(samples, q.q1, q.q3) && s.gasUsed == q.q1)
            && (exists s :: s in WithinFences(samples, q.q1, q.q3) && s.gasUsed == q.q3)
            && WithinFences(samples, q.q1, q.q3) != []
  {
    var q := QuartilesOf(samples);
    var g := GasUsedOf(samples);
    var i :| 0 <= i < |g| && g[i] == q.q1;
    var j :| 0 <= j < |g| && g[j] == q.q3;
    assert samples[i] in samples && InFences(samples[i].gasUsed, q.q1, q.q3);
    assert samples[j] in samples && InFences(samples[j].gasUsed, q.q1, q.q3);
  }

  /** The sum of values that all lie in `[lo, hi]` lies in `[lo·n, hi·n]`. */
  lemma {:induction false} SumBetween(samples: seq<Sample>, lo: int, hi: int)
    requires forall s :: s in samples ==> lo <= s.gasUsed <= hi
    ensures |samples| * lo <= SumGas(samples) <= |samples| * hi
  {
    if samples != [] {
      var init := samples[..|samples| - 1];
      assert forall s :: s in init ==> s in samples;
      SumBetween(init, lo, hi);
      assert samples[|samples| - 1] in samples;
      BoundsGrowByOne(|init|, SumGas(init), samples[|samples| - 1].gasUsed, lo, hi);
    }
  }

  lemma QuotientBetween(lo: real, hi: real, sum: real, n: real)
    requires n > 0.0 && lo * n <= sum <= hi * n
    ensures lo <= sum / n <= hi
  {
    assert sum / n - lo == (sum - lo * n) / n;
    assert hi - sum / n == (hi * n - sum) / n;
  }

  lemma ProductAsReal(a: int, n: nat)
    ensures (n * a) as real == a as real * n as real
  {
  }

  /** The mean of values that all lie in `[lo, hi]` lies in `[lo, hi]`. */
  lemma MeanBetween(samples: seq<Sample>, lo: int, hi: int)
    requires samples != []
    requires forall s :: s in samples ==> lo <= s.gasUsed <= hi
    ensures lo as real <= Mean(samples) <= hi as real
  {
    var n := |samples|;
    var sum := SumGas(samples);
    SumBetween(samples, lo, hi);
    ProductAsReal(lo, n);
    ProductAsReal(hi, n);
    assert lo as real * n as real <= sum as real <= hi as real * n as real;
    QuotientBetween(lo as real, hi as real, sum as real, n as real);
  }

  /** The smallest and largest gas used among the samples. */
  function MinGas(samples: seq<Sample>): (m: int)
    requires samples != []
    ensures exists s :: s in samples && s.gasUsed == m
    ensures forall s :: s in samples ==> m <= s.gasUsed
  {
    if |samples| == 1 then samples[0].gasUsed
    else
      assert forall s :: s in samples ==> s == samples[0] || s in samples[1..];
      Min(samples[0].gasUsed, MinGas(samples[1..]))
  }

  function MaxGas(samples: seq<Sample>): (m: int)
    requires samples != []
    ensures exists s :: s in samples && s.gasUsed == m
    ensures forall s :: s in samples ==> s.gasUsed <= m
  {
    if |samples| == 1 then samples[0].gasUsed
    else
      assert forall s :: s in samples ==> s == samples[0] || s in samples[1..];
      Max(samples[0].gasUsed, MaxGas(samples[1..]))
  }

  /** The average of the kept samples lies between their smallest and
      largest value. */
  lemma MeanWithinSamples(samples: seq<Sample>)
    requires samples != []
    ensures MinGas(samples) as real <= Mean(samples) <= MaxGas(samples) as real
  {
    MeanBetween(samples, MinGas(samples), MaxGas(samples));
  }

  /** The result is the margined mean of the kept samples, rounded: within
      one half of it, and so at least the mean itself once the margin adds a
      half unit or more (a mean of at least 10 for withdrawals, 5 for
      transfers). */
  lemma AdjustedGasCoversMean(samples: seq<Sample>, messageType: string)
    requires samples != []
    ensures var q := QuartilesOf(samples);
            var kept := WithinFences(samples, q.q1, q.q3);
            && kept != []
            && var gas := CalculateAverageGas(samples, messageType) as real;
            && Mean(kept) * Margin(messageType) - 0.5 < gas <= Mean(kept) * Margin(messageType) + 0.5
            && (Mean(kept) * (Margin(messageType) - 1.0) >= 0.5 ==> gas >= Mean(kept))
  {
    QuartileSamplesAreKept(samples);
  }

  /** For tiny gas values the rounding can eat the margin: samples of 1, 1
      and 2 average 4/3, and 4/3 · 1.05 = 1.4 rounds to 1. */
  lemma TinySamplesCanLoseTheMargin()
    ensures CalculateAverageGas(TinySamples(), "withdraw") == 1
    ensures Mean(TinySamples()) > 1.0
  {
    var samples := TinySamples();
    TinyQuartiles();
    TinyMean();
    TinyKeptAll();
    assert Mean(samples) * Margin("withdraw") == 1.4;
    assert JsRound(1.4) == 1;
    assert QuartilesOf(samples) == Quartiles(1, 2);
    assert CalculateAverageGas(samples, "withdraw") == JsRound(Mean(samples) * Margin("withdraw"));
  }

  function TinySamples(): seq<Sample> {
    [Sample(1, 1, 0), Sample(1, 1, 0), Sample(2, 2, 0)]
  }

  lemma TinyKeptAll()
    ensures WithinFences(TinySamples(), 1, 2) == TinySamples()
  {
    var samples := TinySamples();
    assert WithinFences(samples[2..], 1, 2) == samples[2..];
    assert WithinFences(samples[1..], 1, 2) == samples[1..];
  }

  lemma TinyGasUsed()
    ensures GasUsedOf(TinySamples()) == [1, 1, 2]
  {
    var g := GasUsedOf(TinySamples());
    assert |g| == 3 && g[0] == 1 && g[1] == 1 && g[2] == 2;
  }

  lemma TinySorted()
    ensures SortAscending([1, 1, 2]) == [1, 1, 2]
  {
    var t := [1, 1, 2];
    assert Sorted(t);
    SortedArrangementUnique(SortAscending(t), t);
  }

  lemma TinyQuartiles()
    ensures QuartilesOf(TinySamples()) == Quartiles(1, 2)
  {
    TinyGasUsed();
    TinySorted();
  }

  lemma TinyMean()
    ensures Mean(TinySamples()) == 4.0 / 3.0
  {
    var samples := TinySamples();
    assert samples[..2][..1] == [Sample(1, 1, 0)];
    assert samples[..2][..1][..0] == [];
    assert SumGas(samples[..2][..1]) == 1;
    assert SumGas(samples[..2]) == 2;
    assert SumGas(samples) == 4;
  }
}

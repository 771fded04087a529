/**
 * The tracer's latency metrics: a series of durations per `METHOD:PATH` key,
 * capped at the latest 100 samples (push, then drop the oldest), and the
 * periodic summary of each series (count, average, minimum, maximum and the
 * nearest-rank 95th percentile). Durations are naturals in hundredths of a
 * millisecond, the resolution the reports print.
 */
module Metrics {
  import opened Wrappers

  /** Samples kept per key. */
  const Capacity: nat := 100

  /** `${method}:${path}`. */
  function MetricKey(httpMethod: string, path: string): (key: string)
    ensures |key| == |httpMethod| + 1 + |path|
    ensures key[|httpMethod|] == ':'
  {
    httpMethod + ":" + path
  }

  /** HTTP method names hold no colon, so a key names one method and one path. */
  lemma MetricKeyInjective(m1: string, p1: string, m2: string, p2: string)
    requires ':' !in m1 && ':' !in m2
    requires MetricKey(m1, p1) == MetricKey(m2, p2)
    ensures m1 == m2 && p1 == p2
  {
    var k := MetricKey(m1, p1);
    assert m1 == k[..|m1|] == m2;
    assert p1 == k[|m1| + 1..] == p2;
  }

  /** The latest `n` elements of `s`, in arrival order. */
  function LastN(s: seq<nat>, n: nat): (r: seq<nat>)
    ensures |r| == if |s| <= n then |s| else n
    ensures r == s[|s| - |r|..]
  {
    if |s| <= n then s else s[|s| - n..]
  }

  /** `metrics.push(d); if (metrics.length > 100) metrics.shift();` on a value. */
  function Pushed(series: seq<nat>, d: nat): seq<nat> {
    var grown := series + [d];
    if |grown| > Capacity then grown[1..] else grown
  }

  /** Pushing onto the latest 100 samples gives the latest 100 samples of the longer history. */
  lemma PushedIsLastN(history: seq<nat>, d: nat)
    ensures Pushed(LastN(history, Capacity), d) == LastN(history + [d], Capacity)
  {
    var h := history + [d];
    if |history| >= Capacity {
      assert LastN(history, Capacity) + [d] == history[|history| - Capacity..] + [d];
      assert (history[|history| - Capacity..] + [d])[1..] == h[|h| - Capacity..];
    }
  }

  /** The series map after one sample `d` under `key`. */
  function Recorded(series: map<string, seq<nat>>, key: string, d: nat): map<string, seq<nat>> {
    series[key := Pushed(if key in series then series[key] else [], d)]
  }

  /** Every sample ever seen under `key`, after one more. */
  function Appended(history: map<string, seq<nat>>, key: string, d: nat): map<string, seq<nat>> {
    history[key := (if key in history then history[key] else []) + [d]]
  }

  /**
   * Recording adds the key if new, leaves every other key's series as it
   * was, and leaves a non-empty series of at most 100 samples whose newest
   * is `d`; a series that was full loses exactly its oldest sample.
   */
  lemma RecordedShape(series: map<string, seq<nat>>, key: string, d: nat)
    requires forall k :: k in series ==> |series[k]| <= Capacity
    ensures var r := Recorded(series, key, d);
      && r.Keys == series.Keys + {key}
      && (forall k :: k in series && k != key ==> r[k] == series[k])
      && 1 <= |r[key]| <= Capacity
      && r[key][|r[key]| - 1] == d
      && (key in series && |series[key]| == Capacity ==> r[key] == series[key][1..] + [d])
      && (key !in series || |series[key]| < Capacity ==> r[key] == (if key in series then series[key] else []) + [d])
  {
  }

  lemma UpdateTwice<V>(m: map<string, V>, key: string, a: V, b: V)
    ensures m[key := a][key := b] == m[key := b]
  {
  }

  /** Each kept series is the last 100 samples of that key's full, non-empty history. */
  ghost predicate Windows(series: map<string, seq<nat>>, history: map<string, seq<nat>>) {
    && series.Keys == history.Keys
    && forall k :: k in series ==> series[k] == LastN(history[k], Capacity) && |history[k]| >= 1
  }

  /** Recording a sample keeps every series the window of its history. */
  lemma RecordedWindows(series: map<string, seq<nat>>, history: map<string, seq<nat>>, key: string, d: nat)
    requires Windows(series, history)
    ensures Windows(Recorded(series, key, d), Appended(history, key, d))
  {
    var before := if key in history then history[key] else [];
    assert (if key in series then series[key] else []) == LastN(before, Capacity);
    PushedIsLastN(before, d);
  }

  /** The latency series of one tracer instance. */
  class LatencyMetrics {
    var metricsMap: map<string, seq<nat>>
    /** Every sample ever recorded per key, which the series are windows of. */
    ghost var history: map<string, seq<nat>>

    ghost predicate Valid()
      reads this
    {
      Windows(metricsMap, history)
    }

    constructor()
      ensures Valid() && metricsMap == map[] && history == map[]
    {
      metricsMap := map[];
      history := map[];
    }

    /**
     * `trackRequestMetrics`: appends a sample to its key's series and evicts
     * the oldest beyond 100. Every other key is untouched.
     */
    method Track(httpMethod: string, path: string, durationMs: nat)
      requires Valid()
      modifies this
      ensures Valid()
      ensures metricsMap == Recorded(old(metricsMap), MetricKey(httpMethod, path), durationMs)
      ensures history == Appended(old(history), MetricKey(httpMethod, path), durationMs)
    {
      var key := MetricKey(httpMethod, path);
      ghost var oldMap := metricsMap;
      if key !in metricsMap {
        metricsMap := metricsMap[key := []];
      }
      var metrics := metricsMap[key];
      assert metrics == if key in oldMap then oldMap[key] else [];
      metrics := metrics + [durationMs];
      if |metrics| > Capacity {
        metrics := metrics[1..];
      }
      UpdateTwice(oldMap, key, [], metrics);
      metricsMap := metricsMap[key := metrics];
      RecordedWindows(oldMap, history, key, durationMs);
      history := Appended(history, key, durationMs);
    }
  }

  // ---------------------------------------------------------------------------
  // Summaries

  /** One key's report; `avg` is exact, the other figures are samples. */
  datatype Summary = Summary(count: nat, avg: real, min: nat, max: nat, p95: nat)

  function Sum(s: seq<nat>): nat {
    if |s| == 0 then 0 else s[0] + Sum(s[1..])
  }

  function Min(s: seq<nat>): (m: nat)
    requires |s| >= 1
    ensures m in s && forall i :: 0 <= i < |s| ==> m <= s[i]
  {
    if |s| == 1 then s[0]
    else
      var rest := Min(s[1..]);
      assert forall i :: 1 <= i < |s| ==> s[i] == s[1..][i - 1];
      if s[0] <= rest then s[0] else rest
  }

  function Max(s: seq<nat>): (m: nat)
    requires |s| >= 1
    ensures m in s && forall i :: 0 <= i < |s| ==> s[i] <= m
  {
    if |s| == 1 then s[0]
    else
      var rest := Max(s[1..]);
      assert forall i :: 1 <= i < |s| ==> s[i] == s[1..][i - 1];
      if s[0] >= rest then s[0] else rest
  }

  lemma {:induction false} SumBounds(s: seq<nat>, lo: nat, hi: nat)
    requires forall i :: 0 <= i < |s| ==> lo <= s[i] <= hi
    ensures |s| * lo <= Sum(s) <= |s| * hi
  {
    if |s| > 0 {
      var n := |s| - 1;
      assert forall i :: 0 <= i < |s[1..]| ==> s[1..][i] == s[i + 1];
      SumBounds(s[1..], lo, hi);
      MulSucc(n, lo);
      MulSucc(n, hi);
    }
  }

  lemma MulSucc(n: nat, x: nat)
    ensures (n + 1) * x == n * x + x
  {
  }

  predicate Sorted(s: seq<nat>) {
    forall i, j :: 0 <= i < j < |s| ==> s[i] <= s[j]
  }

  /** `x` placed into the sorted `s` before the first larger element. */
  function Insert(x: nat, s: seq<nat>): (r: seq<nat>)
    requires Sorted(s)
    ensures Sorted(r) && multiset(r) == multiset(s) + multiset{x}
    ensures |r| == |s| + 1
    ensures r[0] == x || (|s| > 0 && r[0] == s[0])
  {
    if |s| == 0 then [x]
    else if x <= s[0] then [x] + s
    else
      var t := s[1..];
      var rest := Insert(x, t);
      assert s[0] <= rest[0];
      assert s == [s[0]] + t;
      [s[0]] + rest
  }

  /** `[...durations].sort((a, b) => a - b)`: the same samples in ascending order. */
  function Sort(s: seq<nat>): (r: seq<nat>)
    ensures Sorted(r) && multiset(r) == multiset(s)
  {
    if |s| == 0 then []
    else
      assert s == [s[0]] + s[1..];
      Insert(s[0], Sort(s[1..]))
  }

  /** `Math.floor(n * 0.95)`, on exact reals. */
  function P95Index(n: nat): int {
    (n as real * 0.95).Floor
  }

  /** The nearest-rank index is `(95 n) div 100`, so it lies in `[0, n - 1]` for every `n >= 1`. */
  lemma P95IndexBounds(n: nat)
    ensures P95Index(n) == (95 * n) / 100
    ensures n >= 1 ==> 0 <= P95Index(n) < n
  {
    var q, r := (95 * n) / 100, (95 * n) % 100;
    assert 95 * n == 100 * q + r;
    assert n as real * 0.95 == q as real + r as real / 100.0;
    assert q as real <= n as real * 0.95 < q as real + 1.0;
  }

  /** One series' report; the source skips empty series before getting here. */
  function Summarize(s: seq<nat>): (m: Summary)
    requires |s| >= 1
    ensures m.count == |s|
    ensures m.min in s && m.max in s && m.p95 in s
    ensures m.min <= m.p95 <= m.max
    ensures m.min as real <= m.avg <= m.max as real
  {
    PercentileSample(s);
    var lo, hi, total := Min(s), Max(s), Sum(s);
    SumBounds(s, lo, hi);
    AverageBetween(total, |s|, lo, hi);
    Summary(|s|, Mean(s), lo, hi, Sort(s)[P95Index(|s|)])
  }

  /** The percentile is one of the samples, hence between the minimum and the maximum. */
  lemma PercentileSample(s: seq<nat>)
    requires |s| >= 1
    ensures 0 <= P95Index(|s|) < |Sort(s)|
    ensures Sort(s)[P95Index(|s|)] in s
  {
    var sorted := Sort(s);
    P95IndexBounds(|s|);
    assert |sorted| == |multiset(sorted)| == |s|;
    assert sorted[P95Index(|s|)] in multiset(s);
  }

  /** `sum / durations.length` on exact reals: the number that, times the count, is the sum. */
  function Mean(s: seq<nat>): (avg: real)
    requires |s| >= 1
    ensures avg * |s| as real == Sum(s) as real
  {
    Sum(s) as real / |s| as real
  }

  lemma AverageBetween(sum: nat, n: nat, lo: nat, hi: nat)
    requires n >= 1 && n * lo <= sum <= n * hi
    ensures lo as real <= sum as real / n as real <= hi as real
    ensures (sum as real / n as real) * n as real == sum as real
  {
    var avg := sum as real / n as real;
    assert avg * n as real == sum as real;
    assert (n * lo) as real == n as real * lo as real;
    assert (n * hi) as real == n as real * hi as real;
  }

  /**
   * `reportMetrics`: nothing at all while no key has been recorded;
   * otherwise one summary per key with a non-empty series.
   */
  function Report(metricsMap: map<string, seq<nat>>): (r: Option<map<string, Summary>>)
    ensures r.None? <==> |metricsMap| == 0
    ensures r.Some? ==> r.value.Keys == set k | k in metricsMap && |metricsMap[k]| >= 1
    ensures r.Some? ==> forall k :: k in r.value ==> r.value[k].count == |metricsMap[k]|
    ensures r.Some? ==> forall k :: k in r.value ==> r.value[k] == Summarize(metricsMap[k])
    ensures r.Some? ==> forall k :: k in r.value ==>
      && r.value[k].min <= r.value[k].p95 <= r.value[k].max
      && r.value[k].min as real <= r.value[k].avg <= r.value[k].max as real
  {
    if |metricsMap| == 0 then None
    else Some(map k | k in metricsMap && |metricsMap[k]| >= 1 :: Summarize(metricsMap[k]))
  }

  /** The sort leaves an already ascending series as it is. */
  lemma {:induction false} SortSorted(s: seq<nat>)
    requires Sorted(s)
    ensures Sort(s) == s
  {
    if |s| > 0 {
      SortSorted(s[1..]);
      assert Sort(s) == Insert(s[0], s[1..]);
    }
  }

  /** The percentile of the series 1..100 is its 96th sample, 96. */
  lemma P95Example()
    ensures Summarize(seq(100, i => i + 1)).p95 == 96
  {
    var s: seq<nat> := seq(100, i => i + 1);
    assert Sorted(s);
    SortSorted(s);
    P95IndexBounds(100);
  }
}

/** The health verdict drawn from the cadence tracker. */
module Healthz {
  import opened Units
  import opened Sorting
  import opened CadenceTracker

  const SLOW_US := 25_000

  /** `/healthz` answers 200: the 99th percentile is below 25 ms. */
  predicate Healthy(history: seq<int>) {
    Percentile(history, 99, 100) < 25.0
  }

  /** 200 exactly when no sample is in the window, or the samples of 25 ms and more are at most those
      above the index read. */
  method HandleHealthz(cadence: CadenceTracker) returns (httpStatus: int)
    requires cadence.Valid()
    modifies cadence`cachedEpoch, cadence.sortedCache
    ensures cadence.Valid() && httpStatus == if Healthy(cadence.history) then 200 else 503
    ensures var w := Window(cadence.history);
      httpStatus == if w == [] || SlowCount(w) <= |w| - 1 - 99 * |w| / 100 then 200 else 503
  {
    HealthyIffFewSlow(cadence.history);
    var p99 := cadence.PercentileMs(99, 100);
    httpStatus := if p99 < 25.0 then 200 else 503;
  }

  /** How many samples are 25 ms or more. */
  function SlowCount(s: seq<int>): (n: nat)
    ensures n <= |s|
  {
    if s == [] then 0 else (if s[0] >= 25_000 then 1 else 0) + SlowCount(s[1..])
  }

  lemma {:induction false} SlowIsNotBelow(s: seq<int>)
    ensures SlowCount(s) == |s| - CountBelow(s, 25_000)
  {
    if s != [] {
      SlowIsNotBelow(s[1..]);
    }
  }

  /** The verdict is a count: 200 exactly when no sample is in the window, or the slow samples are
      few enough to lie above the index read for p99. */
  lemma HealthyIffFewSlow(history: seq<int>)
    ensures var w := Window(history);
      Healthy(history) <==> w == [] || SlowCount(w) <= |w| - 1 - 99 * |w| / 100
  {
    var w := Window(history);
    if w != [] {
      var i := PercentileIndex(|w|, 99, 100);
      IndexIsFloor(|w|, 99, 100);
      SlowIsNotBelow(w);
      RankBelow(w, i, 25_000);
      assert Healthy(history) <==> Sort(w)[i] as real / 1000.0 < 25.0;
    }
  }

  /** A full window tolerates ten slow intervals and not eleven. */
  lemma FullWindowTolerance(history: seq<int>)
    requires |history| >= 1024
    ensures Healthy(history) <==> SlowCount(Window(history)) <= 10
  {
    HealthyIffFewSlow(history);
  }

  lemma PercentilesOrdered(history: seq<int>)
    ensures Percentile(history, 50, 100) <= Percentile(history, 99, 100)
         <= Percentile(history, 999, 1000) <= Maximum(history)
  {
    var w := Window(history);
    if w != [] {
      SortSorts(w);
      var s, n := Sort(w), |w|;
      var i, j, k := PercentileIndex(n, 50, 100), PercentileIndex(n, 99, 100), PercentileIndex(n, 999, 1000);
      assert i <= j <= k <= n - 1;
      assert s[i] <= s[j] && s[j] <= s[k] && s[k] <= s[n - 1];
    }
  }

  /** After 1024 further records nothing earlier matters, to the verdict or to any percentile. */
  lemma HistoryForgotten(h1: seq<int>, h2: seq<int>, recent: seq<int>, num: nat, den: nat)
    requires |recent| >= CAPACITY && den > 0
    ensures Percentile(h1 + recent, num, den) == Percentile(h2 + recent, num, den)
    ensures Maximum(h1 + recent) == Maximum(h2 + recent)
    ensures Healthy(h1 + recent) == Healthy(h2 + recent)
  {
    assert Window(h1 + recent) == recent[|recent| - CAPACITY..] == Window(h2 + recent);
  }

  /** A window without slow samples is healthy throughout. */
  lemma FastWindowHealthy(history: seq<int>)
    requires forall x <- Window(history) :: x < SLOW_US
    ensures Healthy(history) && Maximum(history) < 25.0
  {
    var w := Window(history);
    if w != [] {
      var s := Sort(w);
      SortSorts(w);
      assert s[|w| - 1] in multiset(s);
      assert s[|w| - 1] in w;
      PercentilesOrdered(history);
    }
  }
}

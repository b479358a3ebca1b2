/** The anomaly detector (`analyze_metrics`) and the root-cause classifier
    (`root_cause_reasoning`): pure functions of a window snapshot. */
module Detector {
  import opened Common
  import opened Events

  const LatencyKey := "latency_ms"
  /** Added to the standard deviation so that a constant series does not
      divide by zero. */
  const Eps: real := 0.000001
  const ZLimit: real := 2.0
  const ErrorRateLimit: real := 0.15

  const CrashLabel := "service_crash_or_high_error_rate"
  const SpikeLabel := "latency_spike"
  const UnknownLabel := "unknown"

  /** `metric.get("latency_ms", 0)`. */
  function LatencyOf(m: map<string, real>): (l: real)
    ensures LatencyKey in m ==> l == m[LatencyKey]
    ensures LatencyKey !in m ==> l == 0.0
  {
    if LatencyKey in m then m[LatencyKey] else 0.0
  }

  /** The latency series: one value per entry that has a "metric" key (0 when
      that mapping lacks "latency_ms"), in window order. */
  function Latencies(w: seq<Entry>): (ls: seq<real>)
    ensures |ls| <= |w|
    ensures ls == [] <==> forall i :: 0 <= i < |w| ==> w[i].metric.None?
    ensures w != [] && w[|w| - 1].metric.Some? ==>
              ls != [] && ls[|ls| - 1] == LatencyOf(w[|w| - 1].metric.value)
  {
    if w == [] then []
    else
      var rest := Latencies(w[..|w| - 1]);
      var last := w[|w| - 1];
      if last.metric.Some? then rest + [LatencyOf(last.metric.value)] else rest
  }

  /** The detector's error flag: exact, case-sensitive level comparison. */
  predicate Flagged(x: Entry)
    ensures Flagged(x) ==> x.state == "crashed" || Lower(x.level) == "error"
  {
    assert Lower("error") == "error";
    x.state == "crashed" || x.level == "error"
  }

  /** `sum(error_flags)`: the number of flagged entries. */
  function FlaggedCount(w: seq<Entry>): (n: nat)
    ensures n <= |w|
    ensures n == 0 <==> forall i :: 0 <= i < |w| ==> !Flagged(w[i])
    ensures n == |w| <==> forall i :: 0 <= i < |w| ==> Flagged(w[i])
  {
    if w == [] then 0
    else FlaggedCount(w[..|w| - 1]) + (if Flagged(w[|w| - 1]) then 1 else 0)
  }

  function Sum(xs: seq<real>): (s: real)
    ensures (forall i :: 0 <= i < |xs| ==> xs[i] >= 0.0) ==> s >= 0.0
    ensures |xs| == 1 ==> s == xs[0]
  {
    if xs == [] then 0.0 else Sum(xs[..|xs| - 1]) + xs[|xs| - 1]
  }

  /** `sum(latencies) / len(latencies)`. */
  function Mean(xs: seq<real>): (m: real)
    requires xs != []
    ensures m * |xs| as real == Sum(xs)
  {
    Sum(xs) / |xs| as real
  }

  /** Sum of squared deviations from `m`. */
  function SquaredDeviation(xs: seq<real>, m: real): (d: real)
    ensures d >= 0.0
  {
    if xs == [] then 0.0
    else
      var dev := xs[|xs| - 1] - m;
      SquaredDeviation(xs[..|xs| - 1], m) + dev * dev
  }

  /** Population variance. */
  function Variance(xs: seq<real>): (v: real)
    requires xs != []
    ensures v >= 0.0
  {
    SquaredDeviation(xs, Mean(xs)) / |xs| as real
  }

  /** `z > 2.0` with z = (latest - mean) / (sqrt(variance) + Eps), stated
      without the square root (see SpikeTestIsZScore). */
  predicate SpikeTest(latest: real, mean: real, variance: real)
    ensures SpikeTest(latest, mean, variance) ==> latest - mean > ZLimit * Eps
  {
    var margin := (latest - mean) / ZLimit - Eps;
    margin > 0.0 && variance < margin * margin
  }

  lemma DivAbove(d: real, s: real, c: real)
    requires s > 0.0
    ensures d / s > c <==> d > c * s
  {
  }

  lemma PositiveProduct(x: real, y: real)
    requires x > 0.0 && y > 0.0
    ensures x * y > 0.0
  {
  }

  lemma SquareBelow(a: real, b: real)
    requires 0.0 <= b < a
    ensures b * b < a * a
  {
    PositiveProduct(a - b, a + b);
    assert a * a - b * b == (a - b) * (a + b);
  }

  /** The square-root-free test agrees with the z-score comparison for the
      (non-negative) standard deviation of the variance. */
  lemma SpikeTestIsZScore(latest: real, mean: real, variance: real, std: real)
    requires std >= 0.0 && std * std == variance
    ensures SpikeTest(latest, mean, variance) <==> (latest - mean) / (std + Eps) > ZLimit
  {
    var d := latest - mean;
    var margin := d / ZLimit - Eps;
    DivAbove(d, std + Eps, ZLimit);
    assert d > ZLimit * (std + Eps) <==> margin > std;
    if margin > std {
      SquareBelow(margin, std);
    } else if 0.0 <= margin < std {
      SquareBelow(std, margin);
    }
  }

  /** The detector's verdict. `NoLatency` is the bare `{"anomaly": False}`. */
  datatype Analysis =
    | NoLatency
    | Stats(anomaly: bool, zHigh: bool, errorRate: real, latest: real, mean: real, variance: real)
  {
    predicate IsAnomaly()
    {
      Stats? && anomaly
    }
  }

  lemma RateBounds(n: nat, m: nat)
    requires 0 < m && n <= m
    ensures 0.0 <= n as real / m as real <= 1.0
    ensures n as real / m as real > ErrorRateLimit <==> 100 * n > 15 * m
  {
    DivAbove(n as real, m as real, ErrorRateLimit);
    DivAbove(n as real, m as real, 1.0);
    assert (100 * n) as real == 100.0 * n as real;
    assert (15 * m) as real == 15.0 * m as real;
  }

  function Analyze(w: seq<Entry>): (a: Analysis)
    ensures a.NoLatency? <==> forall i :: 0 <= i < |w| ==> w[i].metric.None?
    ensures a.Stats? ==> w != [] && 0.0 <= a.errorRate <= 1.0
    ensures a.Stats? ==> (a.errorRate > ErrorRateLimit <==> 100 * FlaggedCount(w) > 15 * |w|)
    ensures a.Stats? ==> (a.anomaly <==> a.zHigh || a.errorRate > ErrorRateLimit)
    ensures a.Stats? ==> a.variance >= 0.0
    ensures a.Stats? && a.zHigh ==> a.latest > a.mean
    ensures a.Stats? && w[|w| - 1].metric.Some? ==> a.latest == LatencyOf(w[|w| - 1].metric.value)
    ensures a.Stats? ==>
              var ls := Latencies(w);
              && a.latest == ls[|ls| - 1] && a.mean == Mean(ls) && a.variance == Variance(ls)
              && a.zHigh == SpikeTest(a.latest, a.mean, a.variance)
              && a.errorRate == FlaggedCount(w) as real / |w| as real
  {
    var ls := Latencies(w);
    if ls == [] then NoLatency
    else
      var mean := Mean(ls);
      var variance := Variance(ls);
      var latest := ls[|ls| - 1];
      var zHigh := SpikeTest(latest, mean, variance);
      RateBounds(FlaggedCount(w), |w|);
      var rate := FlaggedCount(w) as real / |w| as real;
      Stats(zHigh || rate > ErrorRateLimit, zHigh, rate, latest, mean, variance)
  }

  /** For every window, the verdict's anomaly flag is the source's test
      `z > 2.0 or error_rate > 0.15` with z computed from the standard
      deviation of the window's own latency series. */
  lemma AnalyzeIsZScore(w: seq<Entry>, std: real)
    requires Analyze(w).Stats?
    requires std >= 0.0 && std * std == Analyze(w).variance
    ensures var a := Analyze(w);
            a.anomaly <==> (a.latest - a.mean) / (std + Eps) > ZLimit || a.errorRate > ErrorRateLimit
  {
    var a := Analyze(w);
    SpikeTestIsZScore(a.latest, a.mean, a.variance, std);
  }

  /** Priority order: a high error rate wins over a latency spike. */
  function RootCause(a: Analysis): (cause: string)
    requires a.Stats?
    ensures cause == CrashLabel <==> a.errorRate > ErrorRateLimit
    ensures cause == SpikeLabel <==> a.errorRate <= ErrorRateLimit && a.zHigh
    ensures cause == UnknownLabel <==> a.errorRate <= ErrorRateLimit && !a.zHigh
  {
    if a.errorRate > ErrorRateLimit then CrashLabel
    else if a.zHigh then SpikeLabel
    else UnknownLabel
  }

  /** Every anomalous verdict gets a definite cause, never "unknown". */
  lemma AnomalyHasCause(w: seq<Entry>)
    requires Analyze(w).IsAnomaly()
    ensures RootCause(Analyze(w)) in {CrashLabel, SpikeLabel}
  {
  }

  /** `latencies[-1]` is the latency of the newest entry that has a
      "metric" key. */
  lemma {:induction false} LatestIsNewestMeasured(w: seq<Entry>)
    requires Latencies(w) != []
    ensures exists i :: 0 <= i < |w| && w[i].metric.Some?
              && (forall j :: i < j < |w| ==> w[j].metric.None?)
              && Latencies(w)[|Latencies(w)| - 1] == LatencyOf(w[i].metric.value)
  {
    var n := |w|;
    if w[n - 1].metric.None? {
      var p := w[..n - 1];
      assert Latencies(w) == Latencies(p);
      LatestIsNewestMeasured(p);
      var i :| 0 <= i < |p| && p[i].metric.Some?
                && (forall j :: i < j < |p| ==> p[j].metric.None?)
                && Latencies(p)[|Latencies(p)| - 1] == LatencyOf(p[i].metric.value);
      assert w[i] == p[i];
      forall j | i < j < n
        ensures w[j].metric.None?
      {
        if j < n - 1 {
          assert w[j] == p[j];
        }
      }
    } else {
      assert Latencies(w)[|Latencies(w)| - 1] == LatencyOf(w[n - 1].metric.value);
    }
  }

  lemma {:induction false} SumOfConstant(xs: seq<real>, c: real)
    requires forall i :: 0 <= i < |xs| ==> xs[i] == c
    ensures Sum(xs) == |xs| as real * c
  {
    if xs != [] {
      SumOfConstant(xs[..|xs| - 1], c);
    }
  }

  lemma {:induction false} NoDeviationFromConstant(xs: seq<real>, c: real)
    requires forall i :: 0 <= i < |xs| ==> xs[i] == c
    ensures SquaredDeviation(xs, c) == 0.0
  {
    if xs != [] {
      NoDeviationFromConstant(xs[..|xs| - 1], c);
    }
  }

  /** A constant latency series has zero variance and, thanks to Eps, a
      z-score of 0: it is never a spike. */
  lemma ConstantLatenciesAreQuiet(xs: seq<real>, c: real)
    requires xs != [] && forall i :: 0 <= i < |xs| ==> xs[i] == c
    ensures Mean(xs) == c && Variance(xs) == 0.0
    ensures !SpikeTest(xs[|xs| - 1], Mean(xs), Variance(xs))
  {
    SumOfConstant(xs, c);
    assert Mean(xs) == c;
    NoDeviationFromConstant(xs, c);
  }

  /** A high error rate decides the cause whatever the latencies are. */
  lemma ErrorRateOutranksSpike(w: seq<Entry>)
    requires Latencies(w) != []
    requires 100 * FlaggedCount(w) > 15 * |w|
    ensures Analyze(w).IsAnomaly() && RootCause(Analyze(w)) == CrashLabel
  {
  }

  /** When every entry has a "metric" key (always so for ingested events),
      every entry contributes exactly one latency, in window order. */
  lemma {:induction false} LatenciesOfMeasuredWindow(w: seq<Entry>)
    requires forall i :: 0 <= i < |w| ==> w[i].metric.Some?
    ensures |Latencies(w)| == |w|
    ensures forall i :: 0 <= i < |w| ==> Latencies(w)[i] == LatencyOf(w[i].metric.value)
  {
    if w != [] {
      var p := w[..|w| - 1];
      LatenciesOfMeasuredWindow(p);
      forall i | 0 <= i < |w| - 1
        ensures Latencies(w)[i] == LatencyOf(w[i].metric.value)
      {
        assert w[i] == p[i];
      }
    }
  }

  lemma {:induction false} DeviationOfConstant(xs: seq<real>, c: real, m: real)
    requires forall i :: 0 <= i < |xs| ==> xs[i] == c
    ensures SquaredDeviation(xs, m) == |xs| as real * ((c - m) * (c - m))
  {
    if xs != [] {
      DeviationOfConstant(xs[..|xs| - 1], c, m);
    }
  }

  /** A window entry carrying only a latency reading. */
  function Reading(latency: real): Entry
  {
    Entry("service-a", 0.0, Some(map[LatencyKey := latency]), "ok", "info", "ok")
  }

  /** Nine readings of 100 ms followed by one of 1200 ms. */
  const SpikeWindow := [Reading(100.0), Reading(100.0), Reading(100.0), Reading(100.0), Reading(100.0),
                        Reading(100.0), Reading(100.0), Reading(100.0), Reading(100.0), Reading(1200.0)]

  lemma SpikeWindowSeries()
    ensures Latencies(SpikeWindow) == [100.0, 100.0, 100.0, 100.0, 100.0, 100.0, 100.0, 100.0, 100.0, 1200.0]
    ensures FlaggedCount(SpikeWindow) == 0
  {
    LatenciesOfMeasuredWindow(SpikeWindow);
    assert forall i :: 0 <= i < |SpikeWindow| ==> !Flagged(SpikeWindow[i]);
  }

  lemma SpikeWindowMoments(xs: seq<real>)
    requires xs == [100.0, 100.0, 100.0, 100.0, 100.0, 100.0, 100.0, 100.0, 100.0, 1200.0]
    ensures Mean(xs) == 210.0 && Variance(xs) == 108900.0
  {
    var base := xs[..9];
    assert forall i :: 0 <= i < |base| ==> base[i] == 100.0;
    SumOfConstant(base, 100.0);
    assert Sum(xs) == Sum(base) + 1200.0;
    DeviationOfConstant(base, 100.0, 210.0);
    assert SquaredDeviation(xs, 210.0) == SquaredDeviation(base, 210.0) + 990.0 * 990.0;
  }

  /** The window above: mean 210, variance 108900 (standard deviation 330),
      z = 3 and no errors, so an anomaly caused by a latency spike. */
  lemma SpikeExample()
    ensures Analyze(SpikeWindow).IsAnomaly()
    ensures Analyze(SpikeWindow).mean == 210.0 && Analyze(SpikeWindow).variance == 108900.0
    ensures RootCause(Analyze(SpikeWindow)) == SpikeLabel
  {
    SpikeWindowSeries();
    SpikeWindowMoments(Latencies(SpikeWindow));
    assert SpikeTest(1200.0, 210.0, 108900.0);
  }

  /** An ingested event at exact level "error", or in state "crashed", is
      flagged by the detector and counted by the window counter. */
  lemma ErrorOrCrashIsFlagged(e: LogEvent)
    requires e.level == "error" || e.state == "crashed"
    ensures Flagged(AsEntry(e)) && CountsAsError(e)
  {
    assert Lower("error") == "error";
  }

  /** A healthy 100 ms reading as ingested. */
  const Healthy := LogEvent("service-a", 0.0, map[LatencyKey := 100.0], "ok", "info", "ok")

  /** Five ingested events, one of them an error or a crash, whatever its
      latency: the error rate is 20%, above the 15% limit, so the window is
      anomalous and labelled as a crash. */
  lemma OneBadEventInFive(bad: LogEvent)
    requires bad.level == "error" || bad.state == "crashed"
    ensures var w := [AsEntry(Healthy), AsEntry(Healthy), AsEntry(Healthy), AsEntry(Healthy), AsEntry(bad)];
            && FlaggedCount(w) == 1
            && Analyze(w).Stats? && Analyze(w).errorRate == 0.2
            && Analyze(w).IsAnomaly() && RootCause(Analyze(w)) == CrashLabel
  {
    var w := [AsEntry(Healthy), AsEntry(Healthy), AsEntry(Healthy), AsEntry(Healthy), AsEntry(bad)];
    ErrorOrCrashIsFlagged(bad);
    assert !Flagged(AsEntry(Healthy));
    assert w[..4][..3] == w[..3];
    assert FlaggedCount(w[..4]) == 0;
    assert FlaggedCount(w) == 1;
    assert w[4].metric.Some?;
  }

  /** The window counter lower-cases the level, the detector does not: an
      "ERROR" event is counted as an error but not flagged. */
  lemma UpperCaseErrorCountedNotFlagged()
    ensures var e := LogEvent("service-a", 0.0, map[], "boom", "ERROR", "ok");
            CountsAsError(e) && !Flagged(AsEntry(e))
  {
    assert Lower("ERROR") == "error";
  }
}

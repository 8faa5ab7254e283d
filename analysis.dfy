/**
 * `analyze_single_result`: the SUCCESS filter over a parsed dataset, the
 * run counts and success rate, the elapsed-time summary over the successful
 * runs that have a time, and the throughput.
 *
 * Arithmetic is on exact reals. A division by zero, which numpy turns into
 * an infinity or NaN rather than an exception, is the `NonFinite` quotient.
 */
module Analysis {
  import opened Wrappers
  import opened LogParser

  /** The status of a successful run, compared verbatim. */
  const Success: string := "SUCCESS"
  /** The fallback for a missing system-information key. */
  const Unknown: string := "Unknown"

  /** The outcome of a floating-point division: a number, or an infinity/NaN. */
  datatype Quotient = Finite(value: real) | NonFinite

  /**
   * `n / d` as numpy evaluates it, on exact reals: no `ZeroDivisionError`,
   * and a zero divisor gives an infinity or NaN.
   */
  function Divide(n: real, d: real): (q: Quotient)
    ensures q.Finite? <==> d != 0.0
    ensures q.Finite? ==> q.value * d == n
  {
    if d == 0.0 then NonFinite else Finite(n / d)
  }

  /** The entries of the statistics dictionary that the model keeps. */
  datatype Stats = Stats(dataLabel: string, architecture: string, cpu: string,
                         totalRuns: nat, successfulRuns: nat, successRate: real,
                         meanTime: real, minTime: real, maxTime: real, throughput: Quotient)

  /**
   * What `analyze_single_result` does: returns `None` because there is no
   * table, raises `KeyError` because the table has no `status` column (it
   * was built from an empty list), returns `None` because no successful run
   * has a time, or returns the statistics and the time series.
   */
  datatype Outcome =
    | NoDataFound
    | StatusColumnMissing
    | NoSuccessfulRuns
    | Analyzed(stats: Stats, times: seq<real>)

  /** `dict.get(key, 'Unknown')`: the stored value, or the fallback for a missing key. */
  function Lookup(m: map<string, string>, key: string): (v: string)
    ensures key in m ==> v == m[key]
    ensures key !in m ==> v == Unknown
  {
    if key in m then m[key] else Unknown
  }

  /** `data[data['status'] == 'SUCCESS']`: the successful runs, in order. */
  function Successful(runs: seq<RunRecord>): (r: seq<RunRecord>)
    ensures |r| <= |runs|
    decreases |runs|
  {
    if runs == [] then []
    else (if runs[0].status == Success then [runs[0]] else []) + Successful(runs[1..])
  }

  /** `successful['time'].dropna()`: the times that are present, in order. */
  function Times(runs: seq<RunRecord>): (ts: seq<real>)
    ensures |ts| <= |runs|
    decreases |runs|
  {
    if runs == [] then []
    else (if runs[0].time.Some? then [runs[0].time.value] else []) + Times(runs[1..])
  }

  /**
   * Exactly the runs whose status is `SUCCESS` are kept, each as often as
   * it occurs in the table.
   */
  lemma {:induction false} SuccessfulMembers(runs: seq<RunRecord>)
    ensures forall x :: multiset(Successful(runs))[x] == if x.status == Success then multiset(runs)[x] else 0
    ensures forall x :: x in Successful(runs) <==> x in runs && x.status == Success
    decreases |runs|
  {
    if runs != [] {
      SuccessfulMembers(runs[1..]);
      assert runs == [runs[0]] + runs[1..];
      assert multiset(runs) == multiset([runs[0]]) + multiset(runs[1..]);
    }
  }

  /**
   * Exactly the present times are kept, each as often as it occurs in the
   * `time` column.
   */
  lemma {:induction false} TimesMembers(runs: seq<RunRecord>)
    ensures forall t :: multiset(Times(runs))[t] == multiset(TimeColumn(runs))[Some(t)]
    ensures forall t :: t in Times(runs) <==> Some(t) in TimeColumn(runs)
    decreases |runs|
  {
    if runs != [] {
      TimesMembers(runs[1..]);
      assert TimeColumn(runs) == [runs[0].time] + TimeColumn(runs[1..]);
      assert multiset(TimeColumn(runs)) == multiset([runs[0].time]) + multiset(TimeColumn(runs[1..]));
    }
  }

  /** The `time` column of the table. */
  function TimeColumn(runs: seq<RunRecord>): (col: seq<Option<real>>)
    ensures |col| == |runs| && forall k :: 0 <= k < |runs| ==> col[k] == runs[k].time
  {
    seq(|runs|, k requires 0 <= k < |runs| => runs[k].time)
  }

  function Sum(ts: seq<real>): real
    decreases |ts|
  {
    if ts == [] then 0.0 else ts[0] + Sum(ts[1..])
  }

  function Min(ts: seq<real>): real
    requires ts != []
    decreases |ts|
  {
    if |ts| == 1 then ts[0]
    else
      var rest := Min(ts[1..]);
      if ts[0] <= rest then ts[0] else rest
  }

  function Max(ts: seq<real>): real
    requires ts != []
    decreases |ts|
  {
    if |ts| == 1 then ts[0]
    else
      var rest := Max(ts[1..]);
      if ts[0] >= rest then ts[0] else rest
  }

  /** `min()` returns an element no larger than any other. */
  lemma {:induction false} MinIsLeast(ts: seq<real>)
    requires ts != []
    ensures Min(ts) in ts && forall k :: 0 <= k < |ts| ==> Min(ts) <= ts[k]
    decreases |ts|
  {
    if |ts| > 1 {
      MinIsLeast(ts[1..]);
      assert forall k :: 1 <= k < |ts| ==> ts[k] == ts[1..][k - 1];
    }
  }

  /** `max()` returns an element no smaller than any other. */
  lemma {:induction false} MaxIsGreatest(ts: seq<real>)
    requires ts != []
    ensures Max(ts) in ts && forall k :: 0 <= k < |ts| ==> ts[k] <= Max(ts)
    decreases |ts|
  {
    if |ts| > 1 {
      MaxIsGreatest(ts[1..]);
      assert forall k :: 1 <= k < |ts| ==> ts[k] == ts[1..][k - 1];
    }
  }

  function Mean(ts: seq<real>): real
    requires ts != []
  {
    Sum(ts) / |ts| as real
  }

  /** `n` copies of `x` added up. */
  function Scale(n: nat, x: real): real {
    if n == 0 then 0.0 else x + Scale(n - 1, x)
  }

  /** Adding up `n` copies of `x` is multiplying `x` by `n`. */
  lemma {:induction false} ScaleIsProduct(n: nat, x: real)
    ensures Scale(n, x) == n as real * x
  {
    if n > 0 {
      ScaleIsProduct(n - 1, x);
    }
  }

  /** A sum of values that are all at least `lo` (at most `hi`) is at least `|ts|` copies of `lo` (at most `|ts|` copies of `hi`). */
  lemma {:induction false} SumBounds(ts: seq<real>, lo: real, hi: real)
    requires forall k :: 0 <= k < |ts| ==> lo <= ts[k] <= hi
    ensures Scale(|ts|, lo) <= Sum(ts) <= Scale(|ts|, hi)
    decreases |ts|
  {
    if ts != [] {
      SumBounds(ts[1..], lo, hi);
    }
  }

  /** Dividing by a positive count keeps a value between the bounds it was scaled from. */
  lemma QuotientBetween(a: real, n: nat, lo: real, hi: real)
    requires n > 0 && Scale(n, lo) <= a <= Scale(n, hi)
    ensures lo <= a / n as real <= hi
  {
    ScaleIsProduct(n, lo);
    ScaleIsProduct(n, hi);
    var m := n as real;
    var q := a / m;
    assert q * m == a;
    assert (q - lo) * m >= 0.0;
    assert (hi - q) * m >= 0.0;
  }

  /** The mean elapsed time lies between the minimum and the maximum. */
  lemma MeanBetweenMinAndMax(ts: seq<real>)
    requires ts != []
    ensures Min(ts) <= Mean(ts) <= Max(ts)
  {
    MinIsLeast(ts);
    MaxIsGreatest(ts);
    SumBounds(ts, Min(ts), Max(ts));
    QuotientBetween(Sum(ts), |ts|, Min(ts), Max(ts));
  }

  /** A ratio of counts `s / n * 100` with `0 < s <= n` is a percentage, 100 exactly when `s == n`. */
  lemma PercentageBounds(s: real, n: real)
    requires 0.0 < s <= n
    ensures 0.0 < s / n * 100.0 <= 100.0
    ensures s / n * 100.0 == 100.0 <==> s == n
  {
    var q := s / n;
    assert q * n == s;
  }

  /** A sum of positive values is positive. */
  lemma {:induction false} SumPositive(ts: seq<real>)
    requires ts != [] && forall k :: 0 <= k < |ts| ==> ts[k] > 0.0
    ensures Sum(ts) > 0.0
    decreases |ts|
  {
    if |ts| > 1 {
      SumPositive(ts[1..]);
    }
  }

  /** Every run is kept by the SUCCESS filter exactly when every status is SUCCESS. */
  lemma {:induction false} AllSuccessful(runs: seq<RunRecord>)
    ensures |Successful(runs)| == |runs| <==> forall k :: 0 <= k < |runs| ==> runs[k].status == Success
    decreases |runs|
  {
    if runs != [] {
      AllSuccessful(runs[1..]);
      assert forall k :: 1 <= k < |runs| ==> runs[1..][k - 1] == runs[k];
    }
  }

  /** `dropna` shortens the series by at least one when some time is absent. */
  lemma {:induction false} AbsentTimeDropped(runs: seq<RunRecord>)
    requires exists k :: 0 <= k < |runs| && runs[k].time.None?
    ensures |Times(runs)| < |runs|
    decreases |runs|
  {
    if runs[0].time.Some? {
      var k :| 0 <= k < |runs| && runs[k].time.None?;
      assert runs[1..][k - 1] == runs[k];
      AbsentTimeDropped(runs[1..]);
    }
  }

  /** Some time survives exactly when some successful run has a time. */
  lemma {:induction false} TimedSuccess(runs: seq<RunRecord>)
    ensures Times(Successful(runs)) != [] <==> exists x :: x in runs && x.status == Success && x.time.Some?
    decreases |runs|
  {
    if runs != [] {
      var rest := runs[1..];
      TimedSuccess(rest);
      assert runs == [runs[0]] + rest;
      assert forall x :: x in runs <==> x == runs[0] || x in rest;
      if runs[0].status == Success {
        var s := [runs[0]] + Successful(rest);
        assert s[1..] == Successful(rest);
        assert Times(s) == (if runs[0].time.Some? then [runs[0].time.value] else []) + Times(Successful(rest));
      } else {
        assert Successful(runs) == Successful(rest);
      }
    }
  }

  /** `analyze_single_result(results, label)`. */
  function AnalyzeSingleResult(ds: Dataset, dataLabel: string): (r: Outcome)
    ensures r == NoDataFound <==> ds.data.None?
    ensures r == StatusColumnMissing <==> ds.data == Some([])
    ensures r.Analyzed? <==> ds.data.Some? && exists x :: x in ds.data.value && x.status == Success && x.time.Some?
    ensures r.Analyzed? ==> r.stats.dataLabel == dataLabel && r.times != []
    ensures r.Analyzed? ==> r.times == Times(Successful(ds.data.value))
                            && r.stats.successfulRuns == |Successful(ds.data.value)|
    ensures r.Analyzed? ==> r.stats.throughput == Divide(r.stats.successfulRuns as real, Sum(r.times))
    ensures r.Analyzed? ==> r.stats.architecture == Lookup(ds.systemInfo, "Architecture")
                            && r.stats.cpu == Lookup(ds.systemInfo, "CPU Info")
    ensures r.Analyzed? ==> r.stats.totalRuns == |ds.data.value|
                            && r.stats.successRate == r.stats.successfulRuns as real / r.stats.totalRuns as real * 100.0
    ensures r.Analyzed? ==> r.stats.meanTime == Sum(r.times) / |r.times| as real
                            && r.stats.minTime == Min(r.times) && r.stats.maxTime == Max(r.times)
  {
    match ds.data
    case None => NoDataFound
    case Some(runs) =>
      if runs == [] then StatusColumnMissing
      else
        var successful := Successful(runs);
        var times := Times(successful);
        TimedSuccess(runs);
        if times == [] then NoSuccessfulRuns
        else
          var stats := Stats(dataLabel, Lookup(ds.systemInfo, "Architecture"), Lookup(ds.systemInfo, "CPU Info"),
                             |runs|, |successful|, |successful| as real / |runs| as real * 100.0,
                             Mean(times), Min(times), Max(times),
                             Divide(|successful| as real, Sum(times)));
          Analyzed(stats, times)
  }

  /**
   * The counts are ordered: times <= successful runs <= total runs, and the
   * success rate is a percentage that is 100 exactly when every run succeeded.
   */
  lemma CountsBounded(ds: Dataset, dataLabel: string)
    requires AnalyzeSingleResult(ds, dataLabel).Analyzed?
    ensures var a := AnalyzeSingleResult(ds, dataLabel);
            1 <= |a.times| <= a.stats.successfulRuns <= a.stats.totalRuns == |ds.data.value|
            && 0.0 < a.stats.successRate <= 100.0
            && (a.stats.successRate == 100.0 <==> forall k :: 0 <= k < |ds.data.value| ==> ds.data.value[k].status == Success)
  {
    var runs := ds.data.value;
    var successful := Successful(runs);
    var a := AnalyzeSingleResult(ds, dataLabel);
    assert a.stats.successfulRuns == |successful| && a.stats.totalRuns == |runs|;
    assert a.times == Times(successful);
    assert a.stats.successRate == |successful| as real / |runs| as real * 100.0;
    AllSuccessful(runs);
    PercentageBounds(|successful| as real, |runs| as real);
  }

  /**
   * The time summary: the mean lies between the minimum and the maximum,
   * which are times of successful runs.
   */
  lemma TimeSummary(ds: Dataset, dataLabel: string)
    requires AnalyzeSingleResult(ds, dataLabel).Analyzed?
    ensures var a := AnalyzeSingleResult(ds, dataLabel);
            a.stats.minTime <= a.stats.meanTime <= a.stats.maxTime
            && a.stats.minTime in a.times && a.stats.maxTime in a.times
            && forall k :: 0 <= k < |a.times| ==> a.stats.minTime <= a.times[k] <= a.stats.maxTime
  {
    var times := AnalyzeSingleResult(ds, dataLabel).times;
    MinIsLeast(times);
    MaxIsGreatest(times);
    MeanBetweenMinAndMax(times);
  }

  /**
   * Throughput is a number of runs per unit of total time: multiplied by the
   * total time it gives back the count, and it is finite whenever every
   * time is positive.
   */
  lemma ThroughputIsRate(count: nat, times: seq<real>)
    ensures var q := Divide(count as real, Sum(times));
            (q.Finite? ==> q.value * Sum(times) == count as real)
            && (times != [] && (forall k :: 0 <= k < |times| ==> times[k] > 0.0) ==> q.Finite?)
  {
    if times != [] && forall k :: 0 <= k < |times| ==> times[k] > 0.0 {
      SumPositive(times);
    }
  }

  /**
   * The throughput numerator counts successful runs whose time is `N/A`,
   * while the time series leaves them out: as soon as there is one, there
   * are more successful runs than times.
   */
  lemma UntimedRunsCounted(runs: seq<RunRecord>)
    requires exists x :: x in runs && x.status == Success && x.time.None?
    ensures |Times(Successful(runs))| < |Successful(runs)|
  {
    var successful := Successful(runs);
    var x :| x in runs && x.status == Success && x.time.None?;
    SuccessfulMembers(runs);
    assert x in successful;
    var k :| 0 <= k < |successful| && successful[k] == x;
    AbsentTimeDropped(successful);
  }
}

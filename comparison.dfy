/**
 * `compare_results`: the loop that analyses every dataset, and the
 * head-to-head comparison of the first two (speedup direction, throughput
 * ratio, sample-size rule, significance classification of a p-value).
 *
 * The t-test itself and the random draw of the sample are outside the
 * model: the p-value is an input, and sampling is modelled by the number
 * of values that are kept.
 */
module Comparison {
  import opened Wrappers
  import opened LogParser
  import opened Analysis

  /** The largest sample handed to the significance test. */
  const MaxSample: nat := 10000

  /** Which side the report calls faster, and by what factor. */
  datatype Speedup = FirstFaster(factor: real) | SecondFaster(factor: real) | NoFiniteRatio

  /** The three verdicts printed for a p-value. */
  datatype Significance = HighlySignificant | Significant | NotSignificant

  /** Everything printed in the head-to-head section. */
  datatype HeadToHead = HeadToHead(first: string, second: string, speedup: Speedup,
                                   throughputRatio: Quotient, sampleSize: nat,
                                   sampled1: nat, sampled2: nat, significance: Significance)

  /** What `compare_results` returns: the statistics, the time series by label, and the comparison. */
  datatype Report = Report(allStats: seq<Stats>, allTimes: map<string, seq<real>>,
                           headToHead: Option<HeadToHead>)

  /**
   * How `compare_results` fails on the dataset at `index`: unpacking the
   * `None` that `analyze_single_result` returned raises `TypeError`, and an
   * empty table raises `KeyError` inside it.
   */
  datatype CompareError = UnpackedNone(index: nat) | MissingStatusColumn(index: nat)

  /**
   * `speedup = mean2 / mean1`; above 1 the first is reported faster by
   * `speedup`, otherwise the second by `1 / speedup`. A zero divisor
   * (an infinite or NaN factor in the source) is `NoFiniteRatio`.
   */
  function SpeedupOf(mean1: real, mean2: real): (v: Speedup)
    ensures mean1 > 0.0 && mean2 > 0.0 ==> !v.NoFiniteRatio?
    ensures mean1 > 0.0 && mean2 > 0.0 ==> (v.FirstFaster? <==> mean1 < mean2)
    ensures mean1 > 0.0 && mean2 > 0.0 ==> v.factor >= 1.0
    ensures v.FirstFaster? ==> v.factor * mean1 == mean2
    ensures v.SecondFaster? ==> v.factor * mean2 == mean1
  {
    if mean1 == 0.0 then NoFiniteRatio
    else
      var speedup := mean2 / mean1;
      RatioFacts(mean1, mean2);
      if speedup > 1.0 then FirstFaster(speedup)
      else if speedup == 0.0 then NoFiniteRatio
      else
        InverseFacts(speedup, mean1, mean2);
        SecondFaster(1.0 / speedup)
  }

  lemma RatioFacts(d: real, n: real)
    requires d != 0.0
    ensures (n / d) * d == n
    ensures d > 0.0 ==> (n / d > 1.0 <==> n > d)
    ensures d > 0.0 && n > 0.0 ==> n / d > 0.0
  {
    if d > 0.0 {
      PositiveRatioFacts(d, n);
    }
  }

  lemma PositiveRatioFacts(d: real, n: real)
    requires d > 0.0
    ensures n / d > 1.0 <==> n > d
    ensures n > 0.0 ==> n / d > 0.0
  {
    var q := n / d;
    assert q * d == n;
    if q > 1.0 {
      ProductSign(q - 1.0, d);
    } else {
      ProductSign(1.0 - q, d);
    }
    if n > 0.0 && q <= 0.0 {
      ProductSign(-q, d);
    }
  }

  lemma ProductSign(a: real, b: real)
    requires a >= 0.0 && b > 0.0
    ensures a * b >= 0.0
    ensures a > 0.0 ==> a * b > 0.0
  {
  }

  lemma InverseFacts(s: real, m1: real, m2: real)
    requires s != 0.0 && s * m1 == m2
    ensures (1.0 / s) * m2 == m1
    ensures 0.0 < s <= 1.0 ==> 1.0 / s >= 1.0
  {
  }

  /**
   * Swapping the two datasets keeps the factor and flips the side, except
   * that equal means name the second side both ways.
   */
  lemma SpeedupSymmetric(mean1: real, mean2: real)
    requires mean1 > 0.0 && mean2 > 0.0
    ensures mean1 != mean2 ==> SpeedupOf(mean1, mean2).factor == SpeedupOf(mean2, mean1).factor
                               && SpeedupOf(mean1, mean2).FirstFaster? == SpeedupOf(mean2, mean1).SecondFaster?
    ensures mean1 == mean2 ==> SpeedupOf(mean1, mean2) == SecondFaster(1.0)
  {
    var v, w := SpeedupOf(mean1, mean2), SpeedupOf(mean2, mean1);
    if mean1 < mean2 {
      assert v.factor * mean1 == mean2 && w.factor * mean1 == mean2;
      FactorUnique(v.factor, w.factor, mean1, mean2);
    } else if mean2 < mean1 {
      assert v.factor * mean2 == mean1 && w.factor * mean2 == mean1;
      FactorUnique(v.factor, w.factor, mean2, mean1);
    }
  }

  /** Two factors that scale the same positive value to the same result are equal. */
  lemma FactorUnique(f: real, g: real, x: real, y: real)
    requires x > 0.0 && f * x == y && g * x == y
    ensures f == g
  {
    assert (f - g) * x == 0.0;
  }

  /**
   * `throughput1 / throughput2` as numpy evaluates it, on exact reals: a finite ratio when both
   * are finite and the divisor is not zero, zero for a finite value over an
   * infinite one, and infinite or NaN otherwise.
   */
  function ThroughputRatio(t1: Quotient, t2: Quotient): (q: Quotient)
    ensures t1.Finite? && t2.Finite? && t2.value != 0.0 ==> q.Finite? && q.value * t2.value == t1.value
    ensures t1.Finite? && t2.Finite? && t2.value == 0.0 ==> q.NonFinite?
    ensures t1.Finite? && t2.NonFinite? ==> q == Finite(0.0)
    ensures t1.NonFinite? ==> q.NonFinite?
  {
    match (t1, t2)
    case (Finite(a), Finite(b)) => Divide(a, b)
    case (Finite(_), NonFinite) => Finite(0.0)
    case (NonFinite, _) => NonFinite
  }

  /** `min(10000, len(times1), len(times2))`. */
  function SampleSize(n1: nat, n2: nat): (k: nat)
    ensures k <= MaxSample && k <= n1 && k <= n2
    ensures k == MaxSample || k == n1 || k == n2
  {
    if n1 <= n2 && n1 <= MaxSample then n1
    else if n2 <= MaxSample then n2
    else MaxSample
  }

  /** The length of a series after `if len(times) > k: times = times.sample(k)`. */
  function SampledLength(n: nat, k: nat): nat {
    if n > k then k else n
  }

  /**
   * After sampling, both series have the common length
   * `min(10000, len1, len2)`: never more than 10000, never longer than either.
   */
  lemma SamplingEqualizes(n1: nat, n2: nat)
    ensures var k := SampleSize(n1, n2);
            SampledLength(n1, k) == k && SampledLength(n2, k) == k
            && (n1 >= MaxSample && n2 >= MaxSample ==> k == MaxSample)
  {
  }

  /**
   * The printed verdict for a p-value: below 0.001, below 0.05, or neither.
   * `None` is the NaN that the t-test returns for series it cannot compare
   * (a single sample, or two identical constant series); every comparison with NaN is
   * false, so it falls through to "not significant".
   */
  function Classify(p: Option<real>): (s: Significance)
    ensures s.HighlySignificant? <==> p.Some? && p.value < 0.001
    ensures s.Significant? <==> p.Some? && 0.001 <= p.value < 0.05
    ensures s.NotSignificant? <==> p.None? || p.value >= 0.05
  {
    match p
    case None => NotSignificant
    case Some(v) =>
      if v < 0.001 then HighlySignificant
      else if v < 0.05 then Significant
      else NotSignificant
  }

  function Strength(s: Significance): nat {
    match s
    case HighlySignificant => 2
    case Significant => 1
    case NotSignificant => 0
  }

  /** A smaller p-value never gets a weaker verdict. */
  lemma ClassifyMonotone(p: real, q: real)
    requires p <= q
    ensures Strength(Classify(Some(q))) <= Strength(Classify(Some(p)))
  {
  }

  /** How many (dataset, label) pairs `zip` forms. */
  function Pairs(results: seq<Dataset>, labels: seq<string>): (n: nat)
    ensures n <= |results| && n <= |labels|
    ensures n == |results| || n == |labels|
  {
    if |results| < |labels| then |results| else |labels|
  }

  /** What `analyze_single_result` gives for each zipped pair, in order. */
  function Outcomes(results: seq<Dataset>, labels: seq<string>): (os: seq<Outcome>)
    ensures |os| == Pairs(results, labels)
    ensures forall k :: 0 <= k < |os| ==> os[k] == AnalyzeSingleResult(results[k], labels[k])
  {
    seq(Pairs(results, labels), k requires 0 <= k < Pairs(results, labels) =>
          AnalyzeSingleResult(results[k], labels[k]))
  }

  /** The first `i` outcomes are all analyses. */
  predicate AllAnalyzed(outcomes: seq<Outcome>, i: nat)
    requires i <= |outcomes|
  {
    forall k :: 0 <= k < i ==> outcomes[k].Analyzed?
  }

  /** No pair after `k` (and before `n`) carries the label of pair `k`. */
  predicate LastWithLabel(labels: seq<string>, k: nat, n: nat)
    requires k < n <= |labels|
  {
    forall j :: k < j < n ==> labels[j] != labels[k]
  }

  /**
   * `allStats` and `allTimes` are what the loop collects from the first `n`
   * outcomes: every statistics record in order, every label a key, no other
   * key, and under each label the series of the last pair carrying it.
   */
  predicate Collected(outcomes: seq<Outcome>, labels: seq<string>, n: nat,
                      allStats: seq<Stats>, allTimes: map<string, seq<real>>)
    requires n <= |outcomes| && n <= |labels|
  {
    AllAnalyzed(outcomes, n)
    && |allStats| == n
    && (forall k :: 0 <= k < n ==> allStats[k] == outcomes[k].stats)
    && (forall k :: 0 <= k < n ==> labels[k] in allTimes)
    && (forall lbl :: lbl in allTimes ==> exists k :: 0 <= k < n && labels[k] == lbl)
    && (forall k :: 0 <= k < n && LastWithLabel(labels, k, n) ==> allTimes[labels[k]] == outcomes[k].times)
  }

  /** One more analysed pair extends what is collected. */
  lemma CollectedStep(outcomes: seq<Outcome>, labels: seq<string>, i: nat,
                      allStats: seq<Stats>, allTimes: map<string, seq<real>>)
    requires i < |outcomes| && i < |labels|
    requires Collected(outcomes, labels, i, allStats, allTimes)
    requires outcomes[i].Analyzed?
    ensures Collected(outcomes, labels, i + 1, allStats + [outcomes[i].stats],
                      allTimes[labels[i] := outcomes[i].times])
  {
    var allStats' := allStats + [outcomes[i].stats];
    var allTimes' := allTimes[labels[i] := outcomes[i].times];
    assert AllAnalyzed(outcomes, i + 1);
    assert forall k :: 0 <= k < i + 1 ==> allStats'[k] == outcomes[k].stats;
    assert forall k :: 0 <= k < i + 1 ==> labels[k] in allTimes';
    KeysStep(labels, i, allTimes, allTimes', outcomes[i].times);
    LatestStep(outcomes, labels, i, allTimes);
  }

  /** Storing under label `i` keeps every key a label of the first `i + 1` pairs. */
  lemma KeysStep(labels: seq<string>, i: nat, allTimes: map<string, seq<real>>,
                 allTimes': map<string, seq<real>>, times: seq<real>)
    requires i < |labels| && allTimes' == allTimes[labels[i] := times]
    requires forall lbl :: lbl in allTimes ==> exists k :: 0 <= k < i && labels[k] == lbl
    ensures forall lbl :: lbl in allTimes' ==> exists k :: 0 <= k < i + 1 && labels[k] == lbl
  {
    forall lbl | lbl in allTimes'
      ensures exists k :: 0 <= k < i + 1 && labels[k] == lbl
    {
      if lbl != labels[i] {
        var k :| 0 <= k < i && labels[k] == lbl;
        assert 0 <= k < i + 1 && labels[k] == lbl;
      } else {
        assert 0 <= i < i + 1 && labels[i] == lbl;
      }
    }
  }

  /** Storing under label `i` keeps, for every label, the series of its last pair. */
  lemma LatestStep(outcomes: seq<Outcome>, labels: seq<string>, i: nat, allTimes: map<string, seq<real>>)
    requires i < |outcomes| && i < |labels| && outcomes[i].Analyzed?
    requires AllAnalyzed(outcomes, i)
    requires forall k :: 0 <= k < i ==> labels[k] in allTimes
    requires forall k :: 0 <= k < i && LastWithLabel(labels, k, i) ==> allTimes[labels[k]] == outcomes[k].times
    ensures var allTimes' := allTimes[labels[i] := outcomes[i].times];
            forall k :: 0 <= k < i + 1 && LastWithLabel(labels, k, i + 1) ==> allTimes'[labels[k]] == outcomes[k].times
  {
    var allTimes' := allTimes[labels[i] := outcomes[i].times];
    forall k | 0 <= k < i + 1 && LastWithLabel(labels, k, i + 1)
      ensures allTimes'[labels[k]] == outcomes[k].times
    {
      if k < i {
        assert labels[i] != labels[k];
        assert LastWithLabel(labels, k, i);
      }
    }
  }

  /**
   * `e` is how the loop fails: at the first outcome that is not an
   * analysis, with `KeyError` exactly when the table was empty.
   */
  predicate FailedAt(outcomes: seq<Outcome>, e: CompareError) {
    e.index < |outcomes|
    && AllAnalyzed(outcomes, e.index)
    && !outcomes[e.index].Analyzed?
    && (e.MissingStatusColumn? <==> outcomes[e.index].StatusColumnMissing?)
  }

  /**
   * The loop of `compare_results`: analyse each zipped pair in order, stop
   * at the first one that fails, keep every statistics record and store each
   * time series under its label, so that a later dataset with the same label
   * overwrites an earlier one.
   */
  method AnalyzeEach(results: seq<Dataset>, labels: seq<string>)
    returns (r: Result<(seq<Stats>, map<string, seq<real>>), CompareError>)
    ensures var os := Outcomes(results, labels);
            r.Ok? <==> AllAnalyzed(os, |os|)
    ensures r.Err? ==> FailedAt(Outcomes(results, labels), r.error)
    ensures r.Ok? ==> Collected(Outcomes(results, labels), labels, Pairs(results, labels), r.value.0, r.value.1)
  {
    ghost var outcomes := Outcomes(results, labels);
    var n := Pairs(results, labels);
    var allStats: seq<Stats> := [];
    var allTimes: map<string, seq<real>> := map[];
    for i := 0 to n
      invariant Collected(outcomes, labels, i, allStats, allTimes)
    {
      var outcome := AnalyzeSingleResult(results[i], labels[i]);
      assert outcome == outcomes[i];
      match outcome
      case NoDataFound =>
        return Err(UnpackedNone(i));
      case NoSuccessfulRuns =>
        return Err(UnpackedNone(i));
      case StatusColumnMissing =>
        return Err(MissingStatusColumn(i));
      case Analyzed(stats, times) =>
        CollectedStep(outcomes, labels, i, allStats, allTimes);
        allStats := allStats + [stats];
        allTimes := allTimes[labels[i] := times];
    }
    r := Ok((allStats, allTimes));
  }

  /**
   * The head-to-head section for the first two statistics records and the
   * series stored under their labels: speedup of the means, ratio of the
   * throughputs, the common sample size of both series and the verdict on
   * the p-value.
   */
  function HeadToHeadOf(s1: Stats, s2: Stats, times1: seq<real>, times2: seq<real>, pValue: Option<real>)
    : (h: HeadToHead)
    ensures h.first == s1.dataLabel && h.second == s2.dataLabel
    ensures h.sampled1 == h.sampled2 == h.sampleSize <= MaxSample
    ensures h.sampleSize <= |times1| && h.sampleSize <= |times2|
    ensures times1 != [] && times2 != [] ==> h.sampleSize >= 1
    ensures h.sampleSize == MaxSample || h.sampleSize == |times1| || h.sampleSize == |times2|
    ensures h.speedup == SpeedupOf(s1.meanTime, s2.meanTime)
    ensures h.throughputRatio == ThroughputRatio(s1.throughput, s2.throughput)
    ensures h.significance == Classify(pValue)
  {
    var k := SampleSize(|times1|, |times2|);
    SamplingEqualizes(|times1|, |times2|);
    HeadToHead(s1.dataLabel, s2.dataLabel, SpeedupOf(s1.meanTime, s2.meanTime),
               ThroughputRatio(s1.throughput, s2.throughput),
               k, SampledLength(|times1|, k), SampledLength(|times2|, k), Classify(pValue))
  }

  /**
   * `compare_results(results_list, labels)`, with the p-value that the
   * external t-test returns on the sampled series as an input (`None` for
   * its NaN). The first two
   * datasets are compared when there are at least two; the series are looked
   * up by the labels stored in their statistics.
   */
  method CompareResults(results: seq<Dataset>, labels: seq<string>, pValue: Option<real>)
    returns (r: Result<Report, CompareError>)
    ensures var os := Outcomes(results, labels);
            r.Ok? <==> AllAnalyzed(os, |os|)
    ensures r.Err? ==> FailedAt(Outcomes(results, labels), r.error)
    ensures r.Ok? ==> Collected(Outcomes(results, labels), labels, Pairs(results, labels),
                                r.value.allStats, r.value.allTimes)
    ensures r.Ok? ==> (r.value.headToHead.Some? <==> Pairs(results, labels) >= 2)
    ensures r.Ok? && r.value.headToHead.Some? ==>
            var rep := r.value;
            labels[0] in rep.allTimes && labels[1] in rep.allTimes
            && rep.headToHead.value.first == labels[0] && rep.headToHead.value.second == labels[1]
            && rep.headToHead.value == HeadToHeadOf(rep.allStats[0], rep.allStats[1],
                                                    rep.allTimes[labels[0]], rep.allTimes[labels[1]], pValue)
  {
    var analyzed := AnalyzeEach(results, labels);
    if analyzed.Err? {
      return Err(analyzed.error);
    }
    var (allStats, allTimes) := analyzed.value;
    var headToHead: Option<HeadToHead> := None;
    if |allStats| >= 2 {
      var stats1, stats2 := allStats[0], allStats[1];
      headToHead := Some(HeadToHeadOf(stats1, stats2, allTimes[stats1.dataLabel], allTimes[stats2.dataLabel], pValue));
    }
    r := Ok(Report(allStats, allTimes, headToHead));
  }

  /**
   * `compare_results` gets through its loop exactly when every zipped
   * dataset has a table and, in it, a successful run with a time.
   */
  lemma ComparableExactly(results: seq<Dataset>, labels: seq<string>)
    ensures var os := Outcomes(results, labels);
            AllAnalyzed(os, |os|) <==>
            forall k :: 0 <= k < Pairs(results, labels) ==>
              results[k].data.Some? && exists x :: x in results[k].data.value && x.status == Success && x.time.Some?
  {
    var os := Outcomes(results, labels);
    forall k | 0 <= k < |os|
      ensures os[k].Analyzed? <==>
              results[k].data.Some? && exists x :: x in results[k].data.value && x.status == Success && x.time.Some?
    {
      assert os[k] == AnalyzeSingleResult(results[k], labels[k]);
    }
  }

  /**
   * When the first two labels are the same (and no later pair repeats it),
   * both series of the head-to-head are the second dataset's: the first
   * dataset's series was overwritten in `all_times`.
   */
  lemma SharedLabelSharesSeries(outcomes: seq<Outcome>, labels: seq<string>, n: nat,
                                allStats: seq<Stats>, allTimes: map<string, seq<real>>)
    requires 2 <= n <= |outcomes| && n <= |labels|
    requires Collected(outcomes, labels, n, allStats, allTimes)
    requires labels[0] == labels[1] && LastWithLabel(labels, 1, n)
    ensures allTimes[labels[0]] == allTimes[labels[1]] == outcomes[1].times
  {
    assert labels[1] in allTimes;
  }
}

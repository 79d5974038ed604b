/**
 * The figures `printResults` derives from the finished store
 * (src/LoadTestClient.java, lines 144-188), kept in nanoseconds: the
 * conversion to milliseconds and the text formatting are not modelled.
 */
module Report {
  import opened Wrappers
  import opened Metrics

  // ---------------------------------------------------------------------------
  // Sorting the samples (the `sorted()` stream stage)

  ghost predicate Sorted(s: seq<nat>)
  {
    forall i, j :: 0 <= i < j < |s| ==> s[i] <= s[j]
  }

  lemma SortedCons(h: nat, t: seq<nat>)
    requires Sorted(t) && (t == [] || h <= t[0])
    ensures Sorted([h] + t)
  {
    var s := [h] + t;
    forall i, j | 0 <= i < j < |s| ensures s[i] <= s[j] {
      if i == 0 {
        assert s[j] == t[j - 1] && t[0] <= t[j - 1];
      } else {
        assert s[i] == t[i - 1] && s[j] == t[j - 1];
      }
    }
  }

  lemma SortedTail(r: seq<nat>)
    requires Sorted(r) && r != []
    ensures Sorted(r[1..])
  {
    forall i, j | 0 <= i < j < |r| - 1 ensures r[1..][i] <= r[1..][j] {
      assert r[1..][i] == r[i + 1] && r[1..][j] == r[j + 1];
    }
  }

  function Insert(x: nat, r: seq<nat>): (t: seq<nat>)
    requires Sorted(r)
    ensures Sorted(t)
    ensures multiset(t) == multiset(r) + multiset{x}
    ensures |t| > 0 && (t[0] == x || (r != [] && t[0] == r[0]))
  {
    if r == [] then [x]
    else if x <= r[0] then
      SortedCons(x, r);
      [x] + r
    else
      assert r == [r[0]] + r[1..];
      SortedTail(r);
      assert r[1..] != [] ==> r[0] <= r[1..][0];
      var tail := Insert(x, r[1..]);
      SortedCons(r[0], tail);
      [r[0]] + tail
  }

  /** The samples in ascending order. */
  function SortAscending(s: seq<nat>): (r: seq<nat>)
    ensures Sorted(r)
    ensures multiset(r) == multiset(s)
  {
    if s == [] then []
    else
      assert s == [s[0]] + s[1..];
      Insert(s[0], SortAscending(s[1..]))
  }

  /** The head of a sorted list is at most any of its values. */
  lemma SortedFirstIsLeast(s: seq<nat>, x: nat)
    requires Sorted(s) && x in multiset(s)
    ensures s[0] <= x
  {
    var j :| 0 <= j < |s| && s[j] == x;
  }

  /** Dropping the head removes one occurrence of it from the multiset. */
  lemma MultisetTail(s: seq<nat>)
    requires s != []
    ensures multiset(s[1..]) == multiset(s) - multiset{s[0]}
  {
    assert s == [s[0]] + s[1..];
  }

  /** Two sorted lists with the same values start with the same value. */
  lemma SortedSameHead(a: seq<nat>, b: seq<nat>)
    requires Sorted(a) && Sorted(b) && a != []
    requires multiset(a) == multiset(b)
    ensures b != [] && a[0] == b[0]
  {
    assert a[0] in multiset(b);
    assert b[0] in multiset(a);
    SortedFirstIsLeast(a, b[0]);
    SortedFirstIsLeast(b, a[0]);
  }

  /** A sorted arrangement of given values is unique. */
  lemma {:induction false} SortedUnique(a: seq<nat>, b: seq<nat>)
    requires Sorted(a) && Sorted(b)
    requires multiset(a) == multiset(b)
    ensures a == b
    decreases |a|
  {
    if a == [] {
      assert |b| == |multiset(b)| == 0;
    } else {
      SortedSameHead(a, b);
      MultisetTail(a);
      MultisetTail(b);
      SortedTail(a);
      SortedTail(b);
      SortedUnique(a[1..], b[1..]);
      assert a == [a[0]] + a[1..];
      assert b == [b[0]] + b[1..];
    }
  }

  // ---------------------------------------------------------------------------
  // Median (lines 149-159)

  /** The middle element of a sorted list, or the mean of the two middle ones. */
  function MiddleOf(sorted: seq<nat>): (r: real)
    requires |sorted| > 0
    ensures Sorted(sorted) ==> sorted[0] as real <= r <= sorted[|sorted| - 1] as real
  {
    var mid := |sorted| / 2;
    if |sorted| % 2 == 0 then (sorted[mid - 1] + sorted[mid]) as real / 2.0
    else sorted[mid] as real
  }

  /** The first element of a sorted permutation is the minimum and its last
      element the maximum. */
  lemma SortedEnds(s: seq<nat>, r: seq<nat>)
    requires s != [] && Sorted(r) && multiset(r) == multiset(s)
    ensures |r| == |s|
    ensures r[0] == MinOf(s).value
    ensures r[|r| - 1] == MaxOf(s)
  {
    assert |r| == |multiset(r)| == |s|;
    assert r[0] in multiset(s);
    assert r[|r| - 1] in multiset(s);
    var m, M := MinOf(s).value, MaxOf(s);
    assert m in multiset(r);
    assert M in multiset(r);
  }

  function Median(samples: seq<nat>): (r: real)
    ensures samples == [] ==> r == 0.0
    ensures samples != [] ==> MinOf(samples).value as real <= r <= MaxOf(samples) as real
  {
    if samples == [] then 0.0
    else
      var sorted := SortAscending(samples);
      SortedEnds(samples, sorted);
      MiddleOf(sorted)
  }

  /** The median depends only on which samples were taken, not on the order in
      which the workers recorded them. */
  lemma MedianOrderIndependent(a: seq<nat>, b: seq<nat>)
    requires multiset(a) == multiset(b)
    ensures Median(a) == Median(b)
  {
    SortedUnique(SortAscending(a), SortAscending(b));
    assert a == [] <==> b == [] by {
      assert |a| == |multiset(a)| && |b| == |multiset(b)|;
    }
  }

  /** The median is the middle of any ascending arrangement of the samples:
      the middle element for an odd count, the mean of the two middle ones
      for an even count. */
  lemma MedianOfSortedArrangement(s: seq<nat>, t: seq<nat>)
    requires s != [] && Sorted(t) && multiset(t) == multiset(s)
    ensures |t| == |s| && Median(s) == MiddleOf(t)
  {
    assert |t| == |multiset(t)| == |s|;
    SortedUnique(SortAscending(s), t);
  }

  /** Four ascending samples: the mean of the two middle ones. */
  lemma MedianOfFour(s: seq<nat>)
    requires |s| == 4 && Sorted(s)
    ensures Median(s) == (s[1] + s[2]) as real / 2.0
  {
    MedianOfSortedArrangement(s, s);
    assert |s| / 2 == 2 && |s| % 2 == 0;
  }

  /** Three ascending samples: the middle one. */
  lemma MedianOfThree(s: seq<nat>)
    requires |s| == 3 && Sorted(s)
    ensures Median(s) == s[1] as real
  {
    MedianOfSortedArrangement(s, s);
    assert |s| / 2 == 1 && |s| % 2 == 1;
  }

  lemma MedianExampleEven()
    ensures Median([10, 20, 30, 40]) == 25.0
  {
    var s := [10, 20, 30, 40];
    assert Sorted(s);
    MedianOfFour(s);
  }

  lemma MedianExampleOdd()
    ensures Median([10, 20, 30]) == 20.0
  {
    var s := [10, 20, 30];
    assert Sorted(s);
    MedianOfThree(s);
  }

  lemma MedianExampleUnsorted()
    ensures Median([40, 10, 30, 20]) == 25.0
  {
    var shuffled, sorted := [40, 10, 30, 20], [10, 20, 30, 40];
    assert multiset(shuffled) == multiset(sorted) by {
      assert shuffled == [40] + [10] + [30] + [20];
      assert sorted == [10] + [20] + [30] + [40];
    }
    MedianExampleEven();
    MedianOrderIndependent(shuffled, sorted);
  }

  // ---------------------------------------------------------------------------
  // Success rate (line 170) and average (lines 172-173)

  function SuccessRate(successCount: nat, totalReqs: nat): (r: real)
    ensures totalReqs == 0 ==> r == 0.0
    ensures totalReqs > 0 ==> r * totalReqs as real == successCount as real * 100.0
    ensures successCount <= totalReqs ==> 0.0 <= r <= 100.0
  {
    if totalReqs > 0 then successCount as real * 100.0 / totalReqs as real else 0.0
  }

  /** Divided by the number of requests, failed ones included, and only when
      there was at least one request. */
  function AverageResponseTime(totalResponseTime: nat, totalReqs: nat): (r: Option<real>)
    ensures r.None? <==> totalReqs == 0
    ensures r.Some? ==> r.value * totalReqs as real == totalResponseTime as real
  {
    if totalReqs > 0 then Some(totalResponseTime as real / totalReqs as real) else None
  }

  lemma {:induction false} SumBounded(s: seq<nat>, bound: nat)
    requires forall i :: 0 <= i < |s| ==> s[i] <= bound
    ensures Sum(s) <= |s| * bound
  {
    if s != [] {
      SumBounded(s[..|s| - 1], bound);
    }
  }

  /** The average never exceeds the largest sample. */
  lemma AverageAtMostMax(s: Stats)
    requires Consistent(s) && s.totalRequests > 0
    ensures 0.0 <= AverageResponseTime(s.totalResponseTime, s.totalRequests).value <= s.maxResponseTime as real
  {
    var rt, m := s.responseTimes, s.maxResponseTime;
    assert forall i :: 0 <= i < |rt| ==> rt[i] <= m;
    SumBounded(rt, m);
    AverageBelow(s.totalResponseTime, |rt|, s.totalRequests, m);
  }

  /** A total of at most `n` values each at most `m`, spread over `reqs >= n`
      requests, averages at most `m`. */
  lemma AverageBelow(total: nat, n: nat, reqs: nat, m: nat)
    requires total <= n * m && n <= reqs && reqs > 0
    ensures 0.0 <= AverageResponseTime(total, reqs).value <= m as real
  {
    MulMonotone(n, reqs, m);
    DivideBelow(total as real, reqs as real, m as real);
  }

  lemma DivideBelow(x: real, t: real, m: real)
    requires 0.0 <= x && 0.0 < t && x <= t * m
    ensures 0.0 <= x / t <= m
  {
  }

  lemma MulMonotone(a: nat, b: nat, c: nat)
    requires a <= b
    ensures a * c <= b * c
  {
  }

  // ---------------------------------------------------------------------------
  // Minimum as reported (line 174)

  /** The value `(double) Long.MAX_VALUE` the minimum field starts from (line 24):
      2^63 - 1 rounds to 2^63. */
  const LongMaxAsDouble: nat := 9223372036854775808

  /** `Double.MAX_VALUE`, which line 174 compares the minimum field against. */
  const DoubleMaxValue: nat := 179769313486231570814527423731704356798070567525844996598917476803157260780028538760589558632766878171540458953514382464234321326889464182768467546703537516986049910576551282076245490090389328944075868508455133942304583236903222948165808559332123348274797826204144723168738177180919299881250404026184124858368

  /** The minimum field as the source keeps it: starting from the sentinel and
      lowered by every sample below it (lines 24, 85). */
  function SentinelMin(samples: seq<nat>): (r: nat)
    ensures r <= LongMaxAsDouble
    ensures samples == [] ==> r == LongMaxAsDouble
    ensures samples != [] ==>
              r == if MinOf(samples).value <= LongMaxAsDouble then MinOf(samples).value else LongMaxAsDouble
  {
    if samples == [] then LongMaxAsDouble
    else
      var m := SentinelMin(samples[..|samples| - 1]);
      if samples[|samples| - 1] < m then samples[|samples| - 1] else m
  }

  /** Line 174's test on the minimum field: `Double.MAX_VALUE` stands for "no
      sample". */
  function MinLineAsWritten(minField: nat): nat
  {
    if minField == DoubleMaxValue then 0 else minField
  }

  /** Line 174 as written, on the field the samples leave behind: the "no
      minimum" test looks for the wrong sentinel, so without samples the
      sentinel itself is reported. */
  function ReportedMinAsWritten(samples: seq<nat>): (r: nat)
    ensures samples == [] ==> r == LongMaxAsDouble
    ensures samples != [] && MinOf(samples).value <= LongMaxAsDouble ==> r == MinOf(samples).value
  {
    MinLineAsWritten(SentinelMin(samples))
  }

  /** The minimum line 174 evidently means to print: 0 when no sample exists. */
  function ReportedMin(s: Stats): (r: nat)
    ensures Consistent(s) && s.responseTimes == [] ==> r == 0
    ensures Consistent(s) && s.responseTimes != [] ==>
              r in s.responseTimes && forall i :: 0 <= i < |s.responseTimes| ==> r <= s.responseTimes[i]
  {
    match s.minResponseTime
    case None => 0
    case Some(v) => v
  }

  /** A run in which every request failed has requests, so the latency lines
      are printed, but no sample: the source then prints the sentinel as the
      minimum, where 0 is meant. */
  lemma ReportedMinAsWrittenLeaksSentinel()
    ensures Fold([Failed]).totalRequests == 1
    ensures ReportedMinAsWritten(Fold([Failed]).responseTimes) == LongMaxAsDouble
    ensures ReportedMin(Fold([Failed])) == 0
  {
    assert [Failed][..0] == [];
  }

  /** After any run, the corrected minimum is 0 without samples and otherwise
      the smallest sample; it agrees with the source's whenever a sample below
      the sentinel exists. */
  lemma ReportedMinIsSampleMinimum(os: seq<Outcome>)
    ensures var s := Fold(os);
      && (s.responseTimes == [] ==> ReportedMin(s) == 0)
      && (s.responseTimes != [] ==>
            && ReportedMin(s) in s.responseTimes
            && (forall i :: 0 <= i < |s.responseTimes| ==> ReportedMin(s) <= s.responseTimes[i])
            && (ReportedMin(s) <= LongMaxAsDouble ==> ReportedMinAsWritten(s.responseTimes) == ReportedMin(s)))
  {
    FoldInvariants(os);
    FoldCharacterization(os);
    var s := Fold(os);
    if s.responseTimes != [] {
      assert ReportedMin(s) == MinOf(s.responseTimes).value;
      assert LongMaxAsDouble < DoubleMaxValue;
    }
  }

  // ---------------------------------------------------------------------------
  // Throughput (line 181)

  /** Requests per second; None where the source divides by a zero duration and
      gets a non-finite double. */
  function Throughput(totalReqs: nat, durationMillis: nat): (r: Option<real>)
    ensures r.None? <==> durationMillis == 0
    ensures r.Some? ==> r.value * (durationMillis as real / 1000.0) == totalReqs as real
  {
    if durationMillis > 0 then Some(totalReqs as real / (durationMillis as real / 1000.0)) else None
  }

  // ---------------------------------------------------------------------------
  // The report as a value

  datatype Latency = Latency(average: real, min: nat, max: nat, median: real)

  datatype Summary = Summary(
    durationMillis: nat,
    totalRequests: nat,
    successCount: nat,
    errorCount: nat,
    successRate: real,
    latency: Option<Latency>,      // None: "N/A (no requests completed)"
    throughput: Option<real>)

  function MakeReport(s: Stats, durationMillis: nat): (r: Summary)
    ensures r.totalRequests == s.totalRequests
    ensures r.successCount == s.successCount && r.errorCount == s.errorCount
    ensures r.latency.Some? <==> s.totalRequests > 0
    ensures r.successRate == SuccessRate(s.successCount, s.totalRequests)
    ensures r.durationMillis == durationMillis
    ensures r.throughput == Throughput(s.totalRequests, durationMillis)
    ensures r.latency.Some? ==>
              r.latency.value == Latency(AverageResponseTime(s.totalResponseTime, s.totalRequests).value,
                                         ReportedMin(s), s.maxResponseTime, Median(s.responseTimes))
  {
    Summary(durationMillis, s.totalRequests, s.successCount, s.errorCount,
            SuccessRate(s.successCount, s.totalRequests),
            if s.totalRequests > 0 then
              Some(Latency(AverageResponseTime(s.totalResponseTime, s.totalRequests).value,
                           ReportedMin(s), s.maxResponseTime, Median(s.responseTimes)))
            else None,
            Throughput(s.totalRequests, durationMillis))
  }

  /** What the report of any run says: the counts add up, the rate is a
      percentage, the average lies between 0 and the maximum, and the median
      between the minimum and the maximum. */
  lemma ReportOfRun(os: seq<Outcome>, durationMillis: nat)
    ensures var r := MakeReport(Fold(os), durationMillis);
      && r.totalRequests == |os|
      && r.successCount + r.errorCount == |os|
      && 0.0 <= r.successRate <= 100.0
      && (r.latency.Some? <==> os != [])
      && (r.latency.Some? ==>
            var l := r.latency.value;
            && 0.0 <= l.average <= l.max as real
            && l.min as real <= l.median <= l.max as real)
  {
    FoldInvariants(os);
    FoldCharacterization(os);
    var s := Fold(os);
    if s.totalRequests > 0 {
      AverageAtMostMax(s);
    }
  }

  /** The average divides by every request, failed ones included, while only
      responses add latency: one response of 100 ns and one failure average
      50 ns, below the reported minimum of 100 ns. */
  lemma AverageBelowMinimumExample()
    ensures var r := MakeReport(Fold([Responded(100, 200), Failed]), 1000);
      && r.latency.Some?
      && r.latency.value.average == 50.0
      && r.latency.value.min == 100
      && r.latency.value.average < r.latency.value.min as real
  {
    var first: seq<Outcome> := [Responded(100, 200)];
    FoldSnoc([], Responded(100, 200));
    assert [] + first == first;
    FoldSnoc(first, Failed);
    assert first + [Failed] == [Responded(100, 200), Failed];
    var s := Stats(1, 1, 2, 100, Some(100), 100, [100]);
    assert Fold([Responded(100, 200), Failed]) == s;
    assert ReportedMin(s) == 100;
    assert AverageResponseTime(100, 2) == Some(50.0);
  }
}

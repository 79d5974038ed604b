/**
 * The load client's metrics store (src/LoadTestClient.java, lines 20-27 and
 * 66-104): the counters, the latency sum, minimum and maximum, and the list of
 * latency samples that every worker iteration folds one outcome into.
 *
 * The source guards the sum/min/max/sample update with a `synchronized` block
 * and the three counters with atomics; here every recording is one atomic step.
 * Several workers running at once then amount to one worker recording the
 * merged sequence of their outcomes, in some order; `FoldOrderIndependent`
 * shows that the order does not matter to the aggregates.
 */
module Metrics {
  import opened Wrappers

  /** What one worker iteration observed. */
  datatype Outcome =
    | Responded(latencyNanos: nat, status: int)  // `client.send` returned a response
    | Failed                                      // `client.send` threw

  /** The store's state, field by field as in the source. */
  datatype Stats = Stats(
    successCount: nat,
    errorCount: nat,
    totalRequests: nat,
    totalResponseTime: nat,
    minResponseTime: Option<nat>,   // None: no sample recorded yet
    maxResponseTime: nat,
    responseTimes: seq<nat>)

  const Initial := Stats(0, 0, 0, 0, None, 0, [])

  /** The effect of one worker iteration on the store. */
  function Step(s: Stats, o: Outcome): Stats
  {
    match o
    case Responded(latency, status) =>
      Stats(if status == 200 then s.successCount + 1 else s.successCount,
            if status == 200 then s.errorCount else s.errorCount + 1,
            s.totalRequests + 1,
            s.totalResponseTime + latency,
            if s.minResponseTime.None? || latency < s.minResponseTime.value
            then Some(latency) else s.minResponseTime,
            if latency > s.maxResponseTime then latency else s.maxResponseTime,
            s.responseTimes + [latency])
    case Failed =>
      s.(errorCount := s.errorCount + 1, totalRequests := s.totalRequests + 1)
  }

  /** The store after recording `os` in order, starting from the empty store. */
  function Fold(os: seq<Outcome>): Stats
  {
    if os == [] then Initial else Step(Fold(os[..|os| - 1]), os[|os| - 1])
  }

  // ---------------------------------------------------------------------------
  // Reference definitions: what the aggregates should be, stated on the whole
  // outcome sequence rather than step by step.

  function Sum(s: seq<nat>): nat
  {
    if s == [] then 0 else Sum(s[..|s| - 1]) + s[|s| - 1]
  }

  /** The smallest sample, if there is one. */
  function MinOf(s: seq<nat>): (r: Option<nat>)
    ensures r.None? <==> s == []
    ensures r.Some? ==> r.value in s && forall i :: 0 <= i < |s| ==> r.value <= s[i]
  {
    if s == [] then None
    else
      var m := MinOf(s[..|s| - 1]);
      if m.None? || s[|s| - 1] < m.value then Some(s[|s| - 1]) else m
  }

  /** The largest sample, or 0 when there is none. */
  function MaxOf(s: seq<nat>): (r: nat)
    ensures s == [] ==> r == 0
    ensures s != [] ==> r in s && forall i :: 0 <= i < |s| ==> s[i] <= r
  {
    if s == [] then 0
    else
      var m := MaxOf(s[..|s| - 1]);
      if s[|s| - 1] > m then s[|s| - 1] else m
  }

  /** The latencies of the outcomes that received a response, in order. */
  function Samples(os: seq<Outcome>): seq<nat>
  {
    if os == [] then []
    else
      var last := os[|os| - 1];
      Samples(os[..|os| - 1]) + if last.Responded? then [last.latencyNanos] else []
  }

  /** `f` summed over the outcomes. */
  function Total(os: seq<Outcome>, f: Outcome -> nat): nat
  {
    if os == [] then 0 else Total(os[..|os| - 1], f) + f(os[|os| - 1])
  }

  function IsSuccess(o: Outcome): nat { if o.Responded? && o.status == 200 then 1 else 0 }
  function IsError(o: Outcome): nat { if o.Responded? && o.status == 200 then 0 else 1 }
  function IsFailure(o: Outcome): nat { if o.Failed? then 1 else 0 }
  function LatencyOf(o: Outcome): nat { if o.Responded? then o.latencyNanos else 0 }

  /** The store's invariant: what holds after every completed recording. */
  ghost predicate Consistent(s: Stats)
  {
    && s.totalRequests == s.successCount + s.errorCount
    && s.totalResponseTime == Sum(s.responseTimes)
    && |s.responseTimes| <= s.totalRequests
    && (s.minResponseTime.None? <==> s.responseTimes == [])
    && (s.responseTimes == [] ==> s.maxResponseTime == 0)
    && (s.minResponseTime.Some? ==>
          && s.minResponseTime.value in s.responseTimes
          && s.maxResponseTime in s.responseTimes
          && forall i :: 0 <= i < |s.responseTimes| ==>
               s.minResponseTime.value <= s.responseTimes[i] <= s.maxResponseTime)
  }

  // ---------------------------------------------------------------------------
  // Lemmas

  lemma {:induction false} SumAppend(s: seq<nat>, t: seq<nat>)
    ensures Sum(s + t) == Sum(s) + Sum(t)
    decreases |t|
  {
    if t == [] {
      assert s + t == s;
    } else {
      assert (s + t)[..|s + t| - 1] == s + t[..|t| - 1];
      SumAppend(s, t[..|t| - 1]);
    }
  }

  /** One iteration is one more request, counted either as a success (a 200
      response) or as an error; a response also leaves its latency as a sample
      within the new minimum and maximum, while a failure touches no latency
      figure. */
  lemma StepEffect(s: Stats, o: Outcome)
    ensures var r := Step(s, o);
      && r.totalRequests == s.totalRequests + 1
      && r.successCount == s.successCount + IsSuccess(o)
      && r.errorCount == s.errorCount + IsError(o)
      && (r.successCount == s.successCount + 1 <==> o.Responded? && o.status == 200)
      && (o.Responded? ==>
            && r.responseTimes == s.responseTimes + [o.latencyNanos]
            && r.totalResponseTime == s.totalResponseTime + o.latencyNanos
            && r.minResponseTime.Some?
            && r.minResponseTime.value <= o.latencyNanos <= r.maxResponseTime)
      && (o.Failed? ==>
            && r.responseTimes == s.responseTimes
            && r.totalResponseTime == s.totalResponseTime
            && r.minResponseTime == s.minResponseTime
            && r.maxResponseTime == s.maxResponseTime)
  {
  }

  /** Recording one outcome keeps the invariant. */
  lemma StepPreservesConsistent(s: Stats, o: Outcome)
    requires Consistent(s)
    ensures Consistent(Step(s, o))
  {
    if o.Responded? {
      SumAppend(s.responseTimes, [o.latencyNanos]);
      assert Sum([o.latencyNanos]) == o.latencyNanos by {
        assert [o.latencyNanos][..0] == [];
      }
    }
  }

  /** After any sequence of recordings the invariant holds, and exactly the
      failed requests lack a sample. */
  lemma {:induction false} FoldInvariants(os: seq<Outcome>)
    ensures Consistent(Fold(os))
    ensures Fold(os).totalRequests == |os|
    ensures |Fold(os).responseTimes| + Total(os, IsFailure) == |os|
  {
    if os != [] {
      FoldInvariants(os[..|os| - 1]);
      StepPreservesConsistent(Fold(os[..|os| - 1]), os[|os| - 1]);
    }
  }

  /** Recording one more outcome is one more step. */
  lemma FoldSnoc(h: seq<Outcome>, o: Outcome)
    ensures Fold(h + [o]) == Step(Fold(h), o)
  {
    assert (h + [o])[..|h|] == h;
  }

  /** The step-by-step fold computes the reference aggregates. */
  lemma FoldCharacterization(os: seq<Outcome>)
    ensures Fold(os) == Stats(Total(os, IsSuccess), Total(os, IsError), |os|,
                              Total(os, LatencyOf), MinOf(Samples(os)),
                              MaxOf(Samples(os)), Samples(os))
  {
    FoldCounters(os);
    FoldSamples(os);
  }

  lemma {:induction false} FoldCounters(os: seq<Outcome>)
    ensures Fold(os).successCount == Total(os, IsSuccess)
    ensures Fold(os).errorCount == Total(os, IsError)
    ensures Fold(os).totalRequests == |os|
    ensures Fold(os).totalResponseTime == Total(os, LatencyOf)
  {
    if os != [] {
      FoldCounters(os[..|os| - 1]);
    }
  }

  lemma {:induction false} FoldSamples(os: seq<Outcome>)
    ensures Fold(os).responseTimes == Samples(os)
    ensures Fold(os).minResponseTime == MinOf(Samples(os))
    ensures Fold(os).maxResponseTime == MaxOf(Samples(os))
  {
    if os != [] {
      var init, last := os[..|os| - 1], os[|os| - 1];
      FoldSamples(init);
      if last.Responded? {
        MinMaxSnoc(Samples(init), last.latencyNanos);
      }
    }
  }

  /** One more sample updates the minimum and maximum as the store does. */
  lemma MinMaxSnoc(s: seq<nat>, x: nat)
    ensures MinOf(s + [x]) ==
      if MinOf(s).None? || x < MinOf(s).value then Some(x) else MinOf(s)
    ensures MaxOf(s + [x]) == if x > MaxOf(s) then x else MaxOf(s)
  {
    assert (s + [x])[..|s|] == s;
  }

  lemma {:induction false} TotalAppend(a: seq<Outcome>, b: seq<Outcome>, f: Outcome -> nat)
    ensures Total(a + b, f) == Total(a, f) + Total(b, f)
    decreases |b|
  {
    if b == [] {
      assert a + b == a;
    } else {
      assert (a + b)[..|a + b| - 1] == a + b[..|b| - 1];
      TotalAppend(a, b[..|b| - 1], f);
    }
  }

  lemma {:induction false} SamplesAppend(a: seq<Outcome>, b: seq<Outcome>)
    ensures Samples(a + b) == Samples(a) + Samples(b)
    decreases |b|
  {
    if b == [] {
      assert a + b == a;
    } else {
      assert (a + b)[..|a + b| - 1] == a + b[..|b| - 1];
      SamplesAppend(a, b[..|b| - 1]);
    }
  }

  /** Picks the position in `b` of the last element of `a`, when the two are
      permutations of each other, and what remains on both sides. */
  lemma SplitLast<T>(a: seq<T>, b: seq<T>) returns (i: nat)
    requires multiset(a) == multiset(b) && a != []
    ensures i < |b| && b[i] == a[|a| - 1]
    ensures b == b[..i] + [b[i]] + b[i + 1..]
    ensures multiset(a[..|a| - 1]) == multiset(b[..i] + b[i + 1..])
  {
    var x := a[|a| - 1];
    assert x in multiset(b);
    i :| 0 <= i < |b| && b[i] == x;
    MultisetRemoveAt(b, i);
    MultisetDropLast(a);
  }

  lemma MultisetDropLast<T>(s: seq<T>)
    requires s != []
    ensures multiset(s[..|s| - 1]) == multiset(s) - multiset{s[|s| - 1]}
  {
    assert s == s[..|s| - 1] + [s[|s| - 1]];
  }

  /** Taking out the element at `i` takes one occurrence of it out of the
      multiset. */
  lemma MultisetRemoveAt<T>(s: seq<T>, i: nat)
    requires i < |s|
    ensures s == s[..i] + [s[i]] + s[i + 1..]
    ensures multiset(s[..i] + s[i + 1..]) == multiset(s) - multiset{s[i]}
  {
    assert s == s[..i] + [s[i]] + s[i + 1..];
  }

  /** Reordering the outcomes changes no additive tally. */
  lemma {:induction false} TotalPermutation(a: seq<Outcome>, b: seq<Outcome>, f: Outcome -> nat)
    requires multiset(a) == multiset(b)
    ensures Total(a, f) == Total(b, f)
    decreases |a|
  {
    if a == [] {
      assert |b| == |multiset(b)| == 0;
    } else {
      var i := SplitLast(a, b);
      var left, x, right := b[..i], b[i], b[i + 1..];
      TotalPermutation(a[..|a| - 1], left + right, f);
      TotalAppend(left, right, f);
      TotalAppend(left + [x], right, f);
      TotalAppend(left, [x], f);
      assert Total([x], f) == f(x) by { assert [x][..0] == []; }
    }
  }

  /** Reordering the outcomes reorders the samples. */
  lemma {:induction false} SamplesPermutation(a: seq<Outcome>, b: seq<Outcome>)
    requires multiset(a) == multiset(b)
    ensures multiset(Samples(a)) == multiset(Samples(b))
    decreases |a|
  {
    if a == [] {
      assert |b| == |multiset(b)| == 0;
    } else {
      var i := SplitLast(a, b);
      var left, x, right := b[..i], b[i], b[i + 1..];
      SamplesPermutation(a[..|a| - 1], left + right);
      SamplesAppend(left, right);
      SamplesAppend(left + [x], right);
      SamplesAppend(left, [x]);
      assert Samples([x]) == Samples([]) + (if x.Responded? then [x.latencyNanos] else []) by {
        assert [x][..0] == [];
      }
    }
  }

  /** Every value of `s` also occurring in `t` bounds `t`'s minimum and
      maximum by `s`'s. */
  lemma MinMaxOfSubset(s: seq<nat>, t: seq<nat>)
    requires s != [] && forall v :: v in s ==> v in t
    ensures t != [] && MinOf(t).value <= MinOf(s).value && MaxOf(s) <= MaxOf(t)
  {
    var m, M := MinOf(s).value, MaxOf(s);
    assert m in t;
    var i :| 0 <= i < |t| && t[i] == m;
    var k :| 0 <= k < |t| && t[k] == M;
  }

  /** The minimum and maximum depend only on which values were sampled. */
  lemma MinMaxByElements(s: seq<nat>, t: seq<nat>)
    requires forall v :: v in s <==> v in t
    ensures MinOf(s) == MinOf(t)
    ensures MaxOf(s) == MaxOf(t)
  {
    if s != [] {
      MinMaxOfSubset(s, t);
      MinMaxOfSubset(t, s);
    }
  }

  /** Whatever order the workers' recordings interleave in, the counters, the
      sum, the minimum, the maximum and the multiset of samples come out the
      same. */
  lemma FoldOrderIndependent(a: seq<Outcome>, b: seq<Outcome>)
    requires multiset(a) == multiset(b)
    ensures Fold(a).successCount == Fold(b).successCount
    ensures Fold(a).errorCount == Fold(b).errorCount
    ensures Fold(a).totalRequests == Fold(b).totalRequests
    ensures Fold(a).totalResponseTime == Fold(b).totalResponseTime
    ensures Fold(a).minResponseTime == Fold(b).minResponseTime
    ensures Fold(a).maxResponseTime == Fold(b).maxResponseTime
    ensures multiset(Fold(a).responseTimes) == multiset(Fold(b).responseTimes)
  {
    FoldCharacterization(a);
    FoldCharacterization(b);
    TotalPermutation(a, b, IsSuccess);
    TotalPermutation(a, b, IsError);
    TotalPermutation(a, b, LatencyOf);
    SamplesPermutation(a, b);
    assert |a| == |multiset(a)| == |multiset(b)| == |b|;
    var sa, sb := Samples(a), Samples(b);
    forall v ensures v in sa <==> v in sb {
      assert v in sa <==> v in multiset(sa);
      assert v in sb <==> v in multiset(sb);
    }
    MinMaxByElements(sa, sb);
  }

  /** Against a target that never answers, nothing succeeds and no sample is
      taken. */
  lemma {:induction false} AllFailuresRun(os: seq<Outcome>)
    requires forall i :: 0 <= i < |os| ==> os[i] == Failed
    ensures Fold(os).successCount == 0
    ensures Fold(os).errorCount == Fold(os).totalRequests == |os|
    ensures Fold(os).responseTimes == []
    ensures Fold(os).minResponseTime == None
  {
    if os != [] {
      AllFailuresRun(os[..|os| - 1]);
    }
  }

  // ---------------------------------------------------------------------------
  // The shared store, updated in place by the workers.

  class MetricsStore {
    var successCount: nat
    var errorCount: nat
    var totalRequests: nat
    var totalResponseTime: nat
    var minResponseTime: Option<nat>
    var maxResponseTime: nat
    var responseTimes: seq<nat>

    /** The outcomes recorded so far, oldest first. */
    ghost var history: seq<Outcome>

    function Snapshot(): Stats
      reads this
    {
      Stats(successCount, errorCount, totalRequests, totalResponseTime,
            minResponseTime, maxResponseTime, responseTimes)
    }

    ghost predicate Valid()
      reads this
    {
      Snapshot() == Fold(history)
    }

    /** Every reachable state of the store satisfies the invariant. */
    lemma ValidIsConsistent()
      requires Valid()
      ensures Consistent(Snapshot())
      ensures totalRequests == |history|
      ensures |responseTimes| + Total(history, IsFailure) == totalRequests
    {
      FoldInvariants(history);
    }

    constructor ()
      ensures Valid() && history == []
      ensures Snapshot() == Initial
    {
      successCount, errorCount, totalRequests := 0, 0, 0;
      totalResponseTime, minResponseTime, maxResponseTime := 0, None, 0;
      responseTimes := [];
      history := [];
    }

    /** Lines 83-88, the `synchronized` block: the sample joins the sum, the
        minimum, the maximum and the list; the counters are left alone. */
    method RecordSample(latencyNanos: nat)
      modifies this
      ensures totalResponseTime == old(totalResponseTime) + latencyNanos
      ensures minResponseTime ==
        if old(minResponseTime).None? || latencyNanos < old(minResponseTime).value
        then Some(latencyNanos) else old(minResponseTime)
      ensures maxResponseTime == if latencyNanos > old(maxResponseTime) then latencyNanos else old(maxResponseTime)
      ensures responseTimes == old(responseTimes) + [latencyNanos]
      ensures successCount == old(successCount) && errorCount == old(errorCount)
      ensures totalRequests == old(totalRequests) && history == old(history)
    {
      totalResponseTime := totalResponseTime + latencyNanos;
      if minResponseTime.None? || latencyNanos < minResponseTime.value {
        minResponseTime := Some(latencyNanos);
      }
      if latencyNanos > maxResponseTime {
        maxResponseTime := latencyNanos;
      }
      responseTimes := responseTimes + [latencyNanos];
    }

    /** Lines 80-98: a response arrived after `latencyNanos`; its sample is
        added, then status 200 counts as a success and any other as an error. */
    method RecordResponse(latencyNanos: nat, status: int)
      requires Valid()
      modifies this
      ensures Valid() && history == old(history) + [Responded(latencyNanos, status)]
      ensures Snapshot() == Step(old(Snapshot()), Responded(latencyNanos, status))
      ensures status == 200 ==> successCount == old(successCount) + 1 && errorCount == old(errorCount)
      ensures status != 200 ==> errorCount == old(errorCount) + 1 && successCount == old(successCount)
      ensures responseTimes == old(responseTimes) + [latencyNanos]
    {
      ghost var after := Step(Snapshot(), Responded(latencyNanos, status));
      FoldSnoc(history, Responded(latencyNanos, status));
      RecordSample(latencyNanos);
      totalRequests := totalRequests + 1;
      if status == 200 {
        successCount := successCount + 1;
      } else {
        errorCount := errorCount + 1;
      }
      history := history + [Responded(latencyNanos, status)];
      assert Snapshot() == after;
    }

    /** Lines 99-103: the request threw; only the error and total counters move. */
    method RecordFailure()
      requires Valid()
      modifies this
      ensures Valid() && history == old(history) + [Failed]
      ensures totalRequests == old(totalRequests) + 1
      ensures errorCount == old(errorCount) + 1
      ensures successCount == old(successCount)
      ensures responseTimes == old(responseTimes)
      ensures totalResponseTime == old(totalResponseTime)
      ensures minResponseTime == old(minResponseTime)
      ensures maxResponseTime == old(maxResponseTime)
    {
      ghost var before := Snapshot();
      errorCount := errorCount + 1;
      totalRequests := totalRequests + 1;
      FoldSnoc(history, Failed);
      history := history + [Failed];
      assert Snapshot() == Step(before, Failed);
    }
  }

  /** One worker's loop (lines 66-104): each iteration's outcome, which comes
      from the network, is given in `observed`; the loop ends when they run out,
      standing in for the stop flag. */
  method RunWorker(store: MetricsStore, observed: seq<Outcome>)
    requires store.Valid()
    modifies store
    ensures store.Valid()
    ensures store.history == old(store.history) + observed
    ensures store.Snapshot() == Fold(old(store.history) + observed)
  {
    var i := 0;
    while i < |observed|
      invariant 0 <= i <= |observed|
      invariant store.Valid()
      invariant store.history == old(store.history) + observed[..i]
      decreases |observed| - i
    {
      match observed[i] {
        case Responded(latency, status) => store.RecordResponse(latency, status);
        case Failed => store.RecordFailure();
      }
      assert observed[..i + 1] == observed[..i] + [observed[i]];
      i := i + 1;
    }
    assert observed[..i] == observed;
  }
}

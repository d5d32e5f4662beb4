/** Nearest-rank percentiles and the acceptance gates built on their medians, over reals. */
module Percentile {

  datatype Result<T> = Success(value: T) | Failure(message: string)

  /** Numeric sort: `[...values].sort((left, right) => left - right)`. */
  function Sort(s: seq<real>): (r: seq<real>)
    ensures |r| == |s|
  {
    if s == [] then [] else Insert(s[0], Sort(s[1..]))
  }

  function Insert(x: real, s: seq<real>): (r: seq<real>)
    ensures |r| == |s| + 1
  {
    if s == [] || x <= s[0] then [x] + s else [s[0]] + Insert(x, s[1..])
  }

  function Ceil(x: real): int {
    -((-x).Floor)
  }

  /** 0-based index of the nearest rank. */
  function Rank(quantile: real, n: nat): (k: int)
    requires n > 0 && 0.0 <= quantile <= 1.0
    ensures 0 <= k < n
  {
    RankInRange(quantile, n);
    var c := Ceil(quantile * (n as real)) - 1;
    if c < 0 then 0 else c
  }

  lemma RankInRange(quantile: real, n: nat)
    requires n > 0 && 0.0 <= quantile <= 1.0
    ensures 0 <= Ceil(quantile * (n as real)) <= n
  {
    var x := quantile * (n as real);
    assert 0.0 <= x <= n as real;
  }

  /** `percentile`, with its two errors. */
  function Of(values: seq<real>, quantile: real): Result<real> {
    if |values| == 0 then Failure("Cannot calculate a percentile without samples")
    else if quantile < 0.0 || quantile > 1.0 then Failure("quantile must be between 0 and 1")
    else Success(Sort(values)[Rank(quantile, |values|)])
  }

  // ----- what the result means, without sorting -----

  function CountAtMost(s: seq<real>, x: real): (n: nat)
    ensures n <= |s|
  {
    if s == [] then 0 else (if s[0] <= x then 1 else 0) + CountAtMost(s[1..], x)
  }

  function CountBelow(s: seq<real>, x: real): (n: nat)
    ensures n <= |s|
  {
    if s == [] then 0 else (if s[0] < x then 1 else 0) + CountBelow(s[1..], x)
  }

  /** `v` is the element of rank `k`: at most `k` samples are smaller, more than `k` are not larger. */
  predicate HasRank(s: seq<real>, k: int, v: real) {
    v in s && CountBelow(s, v) <= k < CountAtMost(s, v)
  }

  predicate Sorted(s: seq<real>) {
    forall i, j :: 0 <= i < j < |s| ==> s[i] <= s[j]
  }

  lemma {:induction false} InsertMembers(x: real, s: seq<real>)
    ensures forall y :: y in Insert(x, s) <==> y == x || y in s
  {
    if s != [] && x > s[0] {
      InsertMembers(x, s[1..]);
      assert s == [s[0]] + s[1..];
    }
  }

  lemma {:induction false} InsertSorts(x: real, s: seq<real>)
    requires Sorted(s)
    ensures Sorted(Insert(x, s))
  {
    if s != [] && x > s[0] {
      InsertSorts(x, s[1..]);
      var r := Insert(x, s[1..]);
      InsertMembers(x, s[1..]);
      assert forall i :: 0 <= i < |r| ==> r[i] in r;
    }
  }

  lemma {:induction false} SortSorts(s: seq<real>)
    ensures Sorted(Sort(s))
    ensures forall y :: y in Sort(s) <==> y in s
  {
    if s != [] {
      SortSorts(s[1..]);
      InsertSorts(s[0], Sort(s[1..]));
      InsertMembers(s[0], Sort(s[1..]));
      assert s == [s[0]] + s[1..];
    }
  }

  lemma {:induction false} InsertCounts(x: real, s: seq<real>, v: real)
    ensures CountAtMost(Insert(x, s), v) == CountAtMost(s, v) + (if x <= v then 1 else 0)
    ensures CountBelow(Insert(x, s), v) == CountBelow(s, v) + (if x < v then 1 else 0)
  {
    if s == [] || x <= s[0] {
      assert ([x] + s)[1..] == s;
    } else {
      InsertCounts(x, s[1..], v);
      assert Insert(x, s)[1..] == Insert(x, s[1..]);
    }
  }

  lemma {:induction false} SortCounts(s: seq<real>, v: real)
    ensures CountAtMost(Sort(s), v) == CountAtMost(s, v)
    ensures CountBelow(Sort(s), v) == CountBelow(s, v)
  {
    if s != [] {
      SortCounts(s[1..], v);
      InsertCounts(s[0], Sort(s[1..]), v);
    }
  }

  lemma WithoutElement(t: seq<real>, i: nat)
    requires i < |t|
    ensures multiset(t[..i] + t[i + 1..]) == multiset(t) - multiset{t[i]}
  {
    assert t == t[..i] + ([t[i]] + t[i + 1..]);
  }

  lemma CountWithout(t: seq<real>, i: nat, x: real)
    requires i < |t|
    ensures CountAtMost(t, x) == CountAtMost(t[..i] + t[i + 1..], x) + (if t[i] <= x then 1 else 0)
    ensures CountBelow(t, x) == CountBelow(t[..i] + t[i + 1..], x) + (if t[i] < x then 1 else 0)
  {
    CountAppend(t[..i], t[i + 1..], x);
    CountAppend(t[..i], [t[i]] + t[i + 1..], x);
    assert t == t[..i] + ([t[i]] + t[i + 1..]);
    assert ([t[i]] + t[i + 1..])[1..] == t[i + 1..];
  }

  lemma FindElement(s: seq<real>, t: seq<real>) returns (i: nat)
    requires s != [] && multiset(s) == multiset(t)
    ensures i < |t| && t[i] == s[0]
    ensures multiset(s[1..]) == multiset(t[..i] + t[i + 1..])
  {
    assert s[0] in multiset(t);
    i :| 0 <= i < |t| && t[i] == s[0];
    WithoutElement(t, i);
    assert multiset(s[1..]) == multiset(s) - multiset{s[0]} by {
      WithoutElement(s, 0);
      assert s[..0] + s[1..] == s[1..];
    }
  }

  /** Counts only depend on which samples there are, not on their order. */
  lemma {:induction false} CountsFollowMultiset(s: seq<real>, t: seq<real>, x: real)
    requires multiset(s) == multiset(t)
    ensures CountAtMost(s, x) == CountAtMost(t, x) && CountBelow(s, x) == CountBelow(t, x)
    decreases |s|
  {
    if s == [] {
      assert |t| == |multiset(t)| == 0;
    } else {
      var i := FindElement(s, t);
      CountsFollowMultiset(s[1..], t[..i] + t[i + 1..], x);
      CountWithout(t, i, x);
    }
  }

  lemma {:induction false} CountAppend(a: seq<real>, b: seq<real>, x: real)
    ensures CountAtMost(a + b, x) == CountAtMost(a, x) + CountAtMost(b, x)
    ensures CountBelow(a + b, x) == CountBelow(a, x) + CountBelow(b, x)
  {
    if a == [] {
      assert a + b == b;
    } else {
      CountAppend(a[1..], b, x);
      assert (a + b)[1..] == a[1..] + b;
    }
  }

  lemma {:induction false} CountAll(s: seq<real>, x: real)
    ensures (forall i :: 0 <= i < |s| ==> s[i] <= x) ==> CountAtMost(s, x) == |s|
    ensures (forall i :: 0 <= i < |s| ==> s[i] >= x) ==> CountBelow(s, x) == 0
  {
    if s != [] {
      CountAll(s[1..], x);
    }
  }

  lemma SortedBelow(s: seq<real>, k: int)
    requires Sorted(s) && 0 <= k < |s|
    ensures CountBelow(s, s[k]) <= k
  {
    assert s == s[..k] + s[k..];
    CountAppend(s[..k], s[k..], s[k]);
    CountAll(s[k..], s[k]);
  }

  lemma SortedAtMost(s: seq<real>, k: int)
    requires Sorted(s) && 0 <= k < |s|
    ensures CountAtMost(s, s[k]) > k
  {
    assert s == s[..k + 1] + s[k + 1..];
    CountAppend(s[..k + 1], s[k + 1..], s[k]);
    CountAll(s[..k + 1], s[k]);
  }

  lemma SortedHasRank(s: seq<real>, k: int)
    requires Sorted(s) && 0 <= k < |s|
    ensures HasRank(s, k, s[k])
  {
    SortedBelow(s, k);
    SortedAtMost(s, k);
    assert s[k] in s;
  }

  lemma {:induction false} CountsAreMonotone(s: seq<real>, x: real, y: real)
    requires x < y
    ensures CountAtMost(s, x) <= CountBelow(s, y)
  {
    if s != [] {
      CountsAreMonotone(s[1..], x, y);
    }
  }

  lemma RankIsUnique(s: seq<real>, k: int, v: real, w: real)
    requires HasRank(s, k, v) && HasRank(s, k, w)
    ensures v == w
  {
    if v < w {
      CountsAreMonotone(s, v, w);
    } else if w < v {
      CountsAreMonotone(s, w, v);
    }
  }

  /** Main characterisation: the percentile is the one sample with the nearest rank. */
  lemma PercentileIsNearestRank(values: seq<real>, quantile: real, v: real)
    requires |values| > 0 && 0.0 <= quantile <= 1.0
    ensures Of(values, quantile) == Success(v) <==> HasRank(values, Rank(quantile, |values|), v)
  {
    var k, sorted := Rank(quantile, |values|), Sort(values);
    SortSorts(values);
    SortedHasRank(sorted, k);
    SortCounts(values, sorted[k]);
    assert sorted[k] in values;
    if HasRank(values, k, v) {
      RankIsUnique(values, k, v, sorted[k]);
    }
  }

  /** Rounding up. */
  lemma CeilMeaning(x: real, c: int)
    ensures c == Ceil(x) <==> c as real - 1.0 < x <= c as real
  {
  }

  lemma CeilBounds(x: real, below: int, atMost: int)
    ensures below <= Ceil(x) - 1 <==> below as real < x
    ensures Ceil(x) - 1 < atMost <==> x <= atMost as real
  {
    CeilMeaning(x, Ceil(x));
  }

  lemma RankMeaning(quantile: real, n: nat, x: real, below: nat, atMost: nat)
    requires n > 0 && 0.0 < quantile <= 1.0 && x == quantile * (n as real)
    ensures below <= Rank(quantile, n) <==> below as real < x
    ensures Rank(quantile, n) < atMost <==> x <= atMost as real
  {
    assert x > 0.0;
    CeilBounds(x, below, atMost);
    CeilBounds(x, 0, 0);
  }

  /** Main characterisation in samples alone: the result is the one sample with fewer than
      `quantile` of all samples below it, and at least as many not above it. */
  lemma PercentileMeaning(values: seq<real>, quantile: real, v: real)
    requires |values| > 0 && 0.0 < quantile <= 1.0
    ensures
      var x := quantile * (|values| as real);
      Of(values, quantile) == Success(v)
      <==> v in values && CountBelow(values, v) as real < x <= CountAtMost(values, v) as real
  {
    PercentileIsNearestRank(values, quantile, v);
    RanksBetween(values, quantile, v, quantile * (|values| as real));
  }

  lemma RanksBetween(values: seq<real>, quantile: real, v: real, x: real)
    requires |values| > 0 && 0.0 < quantile <= 1.0 && x == quantile * (|values| as real)
    ensures HasRank(values, Rank(quantile, |values|), v)
            <==> v in values && CountBelow(values, v) as real < x <= CountAtMost(values, v) as real
  {
    RankMeaning(quantile, |values|, x, CountBelow(values, v), CountAtMost(values, v));
  }

  /** The percentile of quantile zero is the least sample. */
  lemma ZeroQuantileIsLeast(values: seq<real>, v: real)
    requires |values| > 0
    ensures Of(values, 0.0) == Success(v) <==> v in values && forall i :: 0 <= i < |values| ==> v <= values[i]
  {
    PercentileIsNearestRank(values, 0.0, v);
    assert 0.0 * |values| as real == 0.0;
    CeilMeaning(0.0, 0);
    NoneBelow(values, v);
    if v in values {
      SomeAtMost(values, v);
    }
  }

  lemma {:induction false} NoneBelow(s: seq<real>, x: real)
    ensures CountBelow(s, x) == 0 <==> forall i :: 0 <= i < |s| ==> x <= s[i]
  {
    if s != [] {
      NoneBelow(s[1..], x);
      assert forall i :: 0 < i < |s| ==> s[i] == s[1..][i - 1];
    }
  }

  lemma {:induction false} SomeAtMost(s: seq<real>, x: real)
    requires x in s
    ensures CountAtMost(s, x) > 0
  {
    if s[0] != x {
      SomeAtMost(s[1..], x);
    }
  }

  /** There is a result exactly for some samples and a quantile between 0 and 1. */
  lemma FailsExactly(values: seq<real>, quantile: real)
    ensures Of(values, quantile).Success? <==> values != [] && 0.0 <= quantile <= 1.0
    ensures Of(values, quantile) == Failure("Cannot calculate a percentile without samples") <==> values == []
    ensures Of(values, quantile) == Failure("quantile must be between 0 and 1")
            <==> values != [] && !(0.0 <= quantile <= 1.0)
  {
    if values != [] && 0.0 <= quantile <= 1.0 {
      assert Of(values, quantile) == Success(Sort(values)[Rank(quantile, |values|)]);
    }
  }

  /** The counts are those of the places in the list. */
  lemma {:induction false} CountsAreCounts(s: seq<real>, x: real)
    ensures CountAtMost(s, x) == |set i | 0 <= i < |s| && s[i] <= x|
    ensures CountBelow(s, x) == |set i | 0 <= i < |s| && s[i] < x|
  {
    if s != [] {
      var m := |s| - 1;
      CountsAreCounts(s[..m], x);
      LastCounts(s, x);
      OneMorePlace((set i | 0 <= i < m && s[..m][i] <= x), (set i | 0 <= i < |s| && s[i] <= x), m, s[m] <= x);
      OneMorePlace((set i | 0 <= i < m && s[..m][i] < x), (set i | 0 <= i < |s| && s[i] < x), m, s[m] < x);
    }
  }

  lemma LastCounts(s: seq<real>, x: real)
    requires s != []
    ensures var m := |s| - 1;
      && CountAtMost(s, x) == CountAtMost(s[..m], x) + (if s[m] <= x then 1 else 0)
      && CountBelow(s, x) == CountBelow(s[..m], x) + (if s[m] < x then 1 else 0)
  {
    var m := |s| - 1;
    assert s == s[..m] + [s[m]] && [s[m]][1..] == [];
    CountAppend(s[..m], [s[m]], x);
  }

  lemma OneMorePlace(before: set<int>, after: set<int>, m: int, more: bool)
    requires m !in before && more == (m in after)
    requires forall i :: i != m ==> (i in after <==> i in before)
    ensures |after| == |before| + (if more then 1 else 0)
  {
    forall i
      ensures i in after - {m} <==> i in before
    {
    }
    assert after - {m} == before;
  }

  lemma PermutationInvariant(values: seq<real>, others: seq<real>, quantile: real)
    requires multiset(values) == multiset(others)
    ensures Of(values, quantile) == Of(others, quantile)
  {
    assert |values| == |multiset(values)| == |multiset(others)| == |others|;
    if |values| > 0 && 0.0 <= quantile <= 1.0 {
      var v := Of(values, quantile).value;
      PercentileIsNearestRank(values, quantile, v);
      CountsFollowMultiset(values, others, v);
      assert v in multiset(values);
      PercentileIsNearestRank(others, quantile, v);
    }
  }

  lemma ScaledIsMonotone(p: real, q: real, c: real)
    requires p <= q && c >= 0.0
    ensures p * c <= q * c
  {
    assert (q - p) * c >= 0.0;
  }

  lemma CeilIsMonotone(x: real, y: real)
    requires x <= y
    ensures Ceil(x) <= Ceil(y)
  {
    assert (-y).Floor <= (-x).Floor;
  }

  lemma RankIsMonotone(p: real, q: real, n: nat)
    requires n > 0 && 0.0 <= p <= q <= 1.0
    ensures Rank(p, n) <= Rank(q, n)
  {
    ScaledIsMonotone(p, q, n as real);
    CeilIsMonotone(p * (n as real), q * (n as real));
  }

  lemma MonotoneInQuantile(values: seq<real>, p: real, q: real)
    requires |values| > 0 && 0.0 <= p <= q <= 1.0
    ensures Of(values, p).value <= Of(values, q).value
  {
    RankIsMonotone(p, q, |values|);
    SortSorts(values);
  }

  lemma {:induction false} DominatedCounts(a: seq<real>, b: seq<real>, x: real)
    requires |a| == |b| && forall i :: 0 <= i < |a| ==> a[i] <= b[i]
    ensures CountAtMost(b, x) <= CountAtMost(a, x)
  {
    if a != [] {
      DominatedCounts(a[1..], b[1..], x);
    }
  }

  /** If each sample of `a` is at most the paired sample of `b`, so is the percentile. */
  lemma MonotoneUnderDominance(a: seq<real>, b: seq<real>, quantile: real)
    requires |a| == |b| > 0 && 0.0 <= quantile <= 1.0
    requires forall i :: 0 <= i < |a| ==> a[i] <= b[i]
    ensures Of(a, quantile).value <= Of(b, quantile).value
  {
    var va, vb := Of(a, quantile).value, Of(b, quantile).value;
    PercentileIsNearestRank(a, quantile, va);
    PercentileIsNearestRank(b, quantile, vb);
    if vb < va {
      CountsAreMonotone(a, vb, va);
      DominatedCounts(a, b, vb);
    }
  }

  function Map(s: seq<real>, f: real -> real): (r: seq<real>)
    ensures |r| == |s|
    ensures forall i :: 0 <= i < |s| ==> r[i] == f(s[i])
  {
    if s == [] then [] else [f(s[0])] + Map(s[1..], f)
  }

  ghost predicate Increasing(f: real -> real) {
    forall x, y :: x < y ==> f(x) < f(y)
  }

  lemma {:induction false} MappedCounts(s: seq<real>, f: real -> real, x: real)
    requires Increasing(f)
    ensures CountAtMost(Map(s, f), f(x)) == CountAtMost(s, x)
    ensures CountBelow(Map(s, f), f(x)) == CountBelow(s, x)
  {
    if s != [] {
      MappedCounts(s[1..], f, x);
      assert Map(s, f)[1..] == Map(s[1..], f);
      assert s[0] < x || s[0] == x || x < s[0];
    }
  }

  /** Percentiles commute with every strictly increasing change of unit. */
  lemma CommutesWithIncreasing(values: seq<real>, f: real -> real, quantile: real)
    requires |values| > 0 && 0.0 <= quantile <= 1.0 && Increasing(f)
    ensures Of(Map(values, f), quantile) == Success(f(Of(values, quantile).value))
  {
    var v, k := Of(values, quantile).value, Rank(quantile, |values|);
    PercentileIsNearestRank(values, quantile, v);
    MappedCounts(values, f, v);
    var i :| 0 <= i < |values| && values[i] == v;
    assert Map(values, f)[i] in Map(values, f);
    PercentileIsNearestRank(Map(values, f), quantile, f(v));
  }

  function Times(c: real): real -> real {
    x => c * x
  }

  lemma TimesIncreasing(c: real)
    requires c > 0.0
    ensures Increasing(Times(c))
  {
    forall x: real, y: real | x < y
      ensures Times(c)(x) < Times(c)(y)
    {
      assert c * (y - x) > 0.0;
    }
  }

  // ----- the acceptance gates -----

  datatype LatencyComparison = LatencyComparison(
    nodeMedianP95Ms: real,
    agentMedianP95Ms: real,
    regressionRatio: real,
    maximumRegressionRatio: real,
    meetsLatencyGate: bool)

  function CompareLatencies(node: seq<real>, agent: seq<real>, maximumRegressionRatio: real): Result<LatencyComparison> {
    if |node| == 0 || |agent| == 0 then Failure("Runtime latency comparison requires at least one run per variant")
    else if |node| != |agent| then Failure("Node and Agent latency run counts differ")
    else if maximumRegressionRatio < 0.0 then Failure("maximumRegressionRatio must be a non-negative number")
    else
      var nodeMedian, agentMedian := Of(node, 0.5).value, Of(agent, 0.5).value;
      if nodeMedian <= 0.0 then Failure("Node latency baseline must be greater than zero")
      else
        var ratio := (agentMedian - nodeMedian) / nodeMedian;
        Success(LatencyComparison(nodeMedian, agentMedian, ratio, maximumRegressionRatio, ratio <= maximumRegressionRatio))
  }

  /** A percentile is positive exactly when no more samples than its rank are not. */
  lemma PositiveExactly(values: seq<real>, quantile: real)
    requires |values| > 0 && 0.0 <= quantile <= 1.0
    ensures Of(values, quantile).value > 0.0 <==> CountAtMost(values, 0.0) <= Rank(quantile, |values|)
  {
    var v := Of(values, quantile).value;
    PercentileIsNearestRank(values, quantile, v);
    if v > 0.0 {
      CountsAreMonotone(values, 0.0, v);
    } else if v < 0.0 {
      CountsAreMonotone(values, v, 0.0);
      BelowIsAtMost(values, 0.0);
    }
  }

  /** A median is positive exactly when fewer than half of the samples are not. */
  lemma MedianPositiveExactly(values: seq<real>)
    requires |values| > 0
    ensures Of(values, 0.5).value > 0.0 <==> 2 * CountAtMost(values, 0.0) < |values|
  {
    PositiveExactly(values, 0.5);
    HalfRank(|values|, CountAtMost(values, 0.0));
  }

  lemma HalfRank(n: nat, below: nat)
    requires n > 0
    ensures below <= Rank(0.5, n) <==> 2 * below < n
  {
    var x := 0.5 * (n as real);
    RankMeaning(0.5, n, x, below, 0);
    assert 2.0 * x == n as real;
  }

  lemma {:induction false} BelowIsAtMost(s: seq<real>, x: real)
    ensures CountBelow(s, x) <= CountAtMost(s, x)
  {
    if s != [] {
      BelowIsAtMost(s[1..], x);
    }
  }

  /** Latencies can be compared exactly when every node run has an agent run beside it, there are
      any, the limit is not negative, and fewer than half of the node latencies are not positive. */
  lemma LatenciesComparableExactly(node: seq<real>, agent: seq<real>, limit: real)
    ensures CompareLatencies(node, agent, limit).Success?
            <==> |node| == |agent| > 0 && limit >= 0.0 && 2 * CountAtMost(node, 0.0) < |node|
    ensures CompareLatencies(node, agent, limit)
            == Failure("Runtime latency comparison requires at least one run per variant")
            <==> node == [] || agent == []
  {
    if |node| > 0 {
      MedianPositiveExactly(node);
    }
  }

  lemma ScaledComparison(x: real, y: real, n: real)
    requires n > 0.0
    ensures x <= y <==> x * n <= y * n
  {
    if x <= y {
      assert (y - x) * n >= 0.0;
    } else {
      assert (x - y) * n > 0.0;
    }
  }

  /** The gate is a bound on the agent median, without division. */
  lemma LatencyGateMeaning(node: seq<real>, agent: seq<real>, limit: real)
    requires CompareLatencies(node, agent, limit).Success?
    ensures
      CompareLatencies(node, agent, limit).value.meetsLatencyGate
      <==> Of(agent, 0.5).value <= (1.0 + limit) * Of(node, 0.5).value
  {
    var n, a := Of(node, 0.5).value, Of(agent, 0.5).value;
    var ratio := (a - n) / n;
    assert ratio * n == a - n;
    ScaledComparison(ratio, limit, n);
  }

  /** What a comparison reports: either median, their relative distance, and the limit. */
  lemma LatencyReport(node: seq<real>, agent: seq<real>, limit: real)
    requires CompareLatencies(node, agent, limit).Success?
    ensures
      var report := CompareLatencies(node, agent, limit).value;
      && Of(node, 0.5) == Success(report.nodeMedianP95Ms) && Of(agent, 0.5) == Success(report.agentMedianP95Ms)
      && report.regressionRatio * report.nodeMedianP95Ms == report.agentMedianP95Ms - report.nodeMedianP95Ms
      && report.maximumRegressionRatio == limit
      && (report.meetsLatencyGate <==> report.regressionRatio <= limit)
  {
    var n, a := Of(node, 0.5).value, Of(agent, 0.5).value;
    assert (a - n) / n * n == a - n;
  }

  lemma DominatedByScaled(agent: seq<real>, node: seq<real>, c: real)
    requires |agent| == |node| > 0 && c > 0.0
    requires forall i :: 0 <= i < |node| ==> agent[i] <= c * node[i]
    ensures Of(agent, 0.5).value <= c * Of(node, 0.5).value
  {
    TimesIncreasing(c);
    MonotoneUnderDominance(agent, Map(node, Times(c)), 0.5);
    CommutesWithIncreasing(node, Times(c), 0.5);
  }

  /** If every agent run is within the limit of its paired node run, the gate passes. */
  lemma PairedRunsMeetLatencyGate(node: seq<real>, agent: seq<real>, limit: real)
    requires |node| == |agent| > 0 && limit >= 0.0
    requires Of(node, 0.5).value > 0.0
    requires forall i :: 0 <= i < |node| ==> agent[i] <= (1.0 + limit) * node[i]
    ensures CompareLatencies(node, agent, limit).Success?
    ensures CompareLatencies(node, agent, limit).value.meetsLatencyGate
  {
    DominatedByScaled(agent, node, 1.0 + limit);
    LatencyGateMeaning(node, agent, limit);
  }

  /** The two memory figures of a run that the gate looks at. */
  datatype Run = Run(p95TreeRssBytes: real, peakTreeRssBytes: real)

  datatype ProfileComparison = ProfileComparison(
    p95ReductionRatio: real,
    peakReductionRatio: real,
    meetsTwentyFivePercentMemoryGate: bool)

  function P95s(runs: seq<Run>): (r: seq<real>)
    ensures |r| == |runs|
  {
    seq(|runs|, i requires 0 <= i < |runs| => runs[i].p95TreeRssBytes)
  }

  function Peaks(runs: seq<Run>): (r: seq<real>)
    ensures |r| == |runs|
  {
    seq(|runs|, i requires 0 <= i < |runs| => runs[i].peakTreeRssBytes)
  }

  function CompareProfiles(node: seq<Run>, agent: seq<Run>): Result<ProfileComparison> {
    if |node| != |agent| then Failure("Node and Agent run counts differ")
    else if |node| == 0 then Failure("Runtime profile comparison side contains no runs")
    else
      var p95, peak := Of(P95s(node), 0.5).value, Of(Peaks(node), 0.5).value;
      if p95 <= 0.0 || peak <= 0.0 then Failure("Node baseline must be greater than zero")
      else
        var byP95 := (p95 - Of(P95s(agent), 0.5).value) / p95;
        var byPeak := (peak - Of(Peaks(agent), 0.5).value) / peak;
        Success(ProfileComparison(byP95, byPeak, byP95 >= 0.25 || byPeak >= 0.25))
  }

  /** Profiles can be compared exactly when every node run has an agent run beside it, there are
      any, and for either figure fewer than half of the node runs lack a positive one. */
  lemma ProfilesComparableExactly(node: seq<Run>, agent: seq<Run>)
    ensures CompareProfiles(node, agent).Success?
            <==> |node| == |agent| > 0
                 && 2 * CountAtMost(P95s(node), 0.0) < |node| && 2 * CountAtMost(Peaks(node), 0.0) < |node|
    ensures CompareProfiles(node, agent) == Failure("Runtime profile comparison side contains no runs")
            <==> node == [] && agent == []
  {
    if |node| > 0 {
      MedianPositiveExactly(P95s(node));
      MedianPositiveExactly(Peaks(node));
    }
  }

  lemma ReductionMeaning(baseline: real, candidate: real)
    requires baseline > 0.0
    ensures (baseline - candidate) / baseline >= 0.25 <==> candidate <= 0.75 * baseline
  {
    var ratio := (baseline - candidate) / baseline;
    assert ratio * baseline == baseline - candidate;
    if ratio >= 0.25 {
      assert (ratio - 0.25) * baseline >= 0.0;
    } else {
      assert (0.25 - ratio) * baseline > 0.0;
    }
  }

  /** The memory gate, without division: either median dropped to three quarters. */
  lemma MemoryGateMeaning(node: seq<Run>, agent: seq<Run>)
    requires CompareProfiles(node, agent).Success?
    ensures
      CompareProfiles(node, agent).value.meetsTwentyFivePercentMemoryGate
      <==> Of(P95s(agent), 0.5).value <= 0.75 * Of(P95s(node), 0.5).value
           || Of(Peaks(agent), 0.5).value <= 0.75 * Of(Peaks(node), 0.5).value
  {
    ReductionMeaning(Of(P95s(node), 0.5).value, Of(P95s(agent), 0.5).value);
    ReductionMeaning(Of(Peaks(node), 0.5).value, Of(Peaks(agent), 0.5).value);
  }

  /** What the comparison reports: by how much of the node median either agent median is lower. */
  lemma ProfileReport(node: seq<Run>, agent: seq<Run>)
    requires CompareProfiles(node, agent).Success?
    ensures
      var report := CompareProfiles(node, agent).value;
      var p95, peak := Of(P95s(node), 0.5).value, Of(Peaks(node), 0.5).value;
      && report.p95ReductionRatio * p95 == p95 - Of(P95s(agent), 0.5).value
      && report.peakReductionRatio * peak == peak - Of(Peaks(agent), 0.5).value
      && (report.meetsTwentyFivePercentMemoryGate <==> report.p95ReductionRatio >= 0.25 || report.peakReductionRatio >= 0.25)
    ensures forall i :: 0 <= i < |node| ==>
      P95s(node)[i] == node[i].p95TreeRssBytes && Peaks(node)[i] == node[i].peakTreeRssBytes
  {
    var p95, peak := Of(P95s(node), 0.5).value, Of(Peaks(node), 0.5).value;
    var p95', peak' := Of(P95s(agent), 0.5).value, Of(Peaks(agent), 0.5).value;
    assert (p95 - p95') / p95 * p95 == p95 - p95';
    assert (peak - peak') / peak * peak == peak - peak';
  }

  /** If every agent run uses at most three quarters of the p95 memory of its paired node run,
      the gate passes, whatever the peaks are. */
  lemma PairedRunsMeetMemoryGate(node: seq<Run>, agent: seq<Run>)
    requires CompareProfiles(node, agent).Success?
    requires forall i :: 0 <= i < |node| ==> agent[i].p95TreeRssBytes <= 0.75 * node[i].p95TreeRssBytes
    ensures CompareProfiles(node, agent).value.meetsTwentyFivePercentMemoryGate
  {
    DominatedByScaled(P95s(agent), P95s(node), 0.75);
    MemoryGateMeaning(node, agent);
  }
}

/**
 `inferSampleRate`: the sampling rate read off the median interval, and the quartile spread
 that says how regular it was. Instants are integer milliseconds; ratios are real numbers.
 */
module SampleRate {
  import opened Wrappers

  // ─── Counting, the order-free view of a list ───────────────────────────────────────

  function CountAtMost(xs: seq<int>, x: int): nat {
    if xs == [] then 0 else (if xs[0] <= x then 1 else 0) + CountAtMost(xs[1..], x)
  }

  function CountIn(xs: seq<int>, lo: int, hi: int): nat {
    if xs == [] then 0 else (if lo <= xs[0] <= hi then 1 else 0) + CountIn(xs[1..], lo, hi)
  }

  predicate Sorted(xs: seq<int>) {
    forall i, j :: 0 <= i < j < |xs| ==> xs[i] <= xs[j]
  }

  lemma {:induction false} CountConcat(a: seq<int>, b: seq<int>, x: int)
    ensures CountAtMost(a + b, x) == CountAtMost(a, x) + CountAtMost(b, x)
  {
    if a == [] {
      assert a + b == b;
    } else {
      assert (a + b)[1..] == a[1..] + b;
      CountConcat(a[1..], b, x);
    }
  }

  lemma {:induction false} CountBound(xs: seq<int>, x: int)
    ensures CountAtMost(xs, x) <= |xs|
  {
    if xs != [] {
      CountBound(xs[1..], x);
    }
  }

  lemma {:induction false} CountAll(xs: seq<int>, x: int)
    requires forall i :: 0 <= i < |xs| ==> xs[i] <= x
    ensures CountAtMost(xs, x) == |xs|
  {
    if xs != [] {
      CountAll(xs[1..], x);
    }
  }

  lemma {:induction false} CountNone(xs: seq<int>, x: int)
    requires forall i :: 0 <= i < |xs| ==> xs[i] > x
    ensures CountAtMost(xs, x) == 0
  {
    if xs != [] {
      CountNone(xs[1..], x);
    }
  }

  lemma MultisetRest(a: seq<int>)
    requires a != []
    ensures multiset(a) == multiset{a[0]} + multiset(a[1..])
  {
    assert a == [a[0]] + a[1..];
  }

  lemma {:induction false} CountPermuted(a: seq<int>, b: seq<int>, x: int)
    requires multiset(a) == multiset(b)
    ensures CountAtMost(a, x) == CountAtMost(b, x)
  {
    if a == [] {
      assert b == [] by { assert |multiset(b)| == |b|; }
    } else {
      assert a[0] in multiset(b);
      var k :| 0 <= k < |b| && b[k] == a[0];
      var front, back := b[..k], b[k..];
      assert b == front + back;
      assert multiset(b) == multiset(front) + multiset(back);
      MultisetRest(a);
      MultisetRest(back);
      assert multiset(front + back[1..]) == multiset(front) + multiset(back[1..]);
      assert multiset(a[1..]) == multiset(a) - multiset{a[0]};
      assert multiset(front + back[1..]) == multiset(b) - multiset{back[0]};
      CountPermuted(a[1..], front + back[1..], x);
      CountConcat(front, back[1..], x);
      CountConcat(front, back, x);
    }
  }

  lemma {:induction false} CountSplit(xs: seq<int>, lo: int, hi: int)
    requires lo <= hi
    ensures CountIn(xs, lo, hi) == CountAtMost(xs, hi) - CountAtMost(xs, lo - 1)
  {
    if xs != [] {
      CountSplit(xs[1..], lo, hi);
    }
  }

  /** In a sorted list, position `k` holds at most `x` exactly when more than `k` elements do. */
  lemma Rank(xs: seq<int>, k: nat, x: int)
    requires Sorted(xs) && k < |xs|
    ensures xs[k] <= x <==> CountAtMost(xs, x) > k
  {
    var front, back := xs[..k], xs[k..];
    assert xs == front + back;
    CountConcat(front, back, x);
    CountBound(front, x);
    if xs[k] <= x {
      CountAll(front, x);
      assert CountAtMost(back, x) == 1 + CountAtMost(back[1..], x);
    } else {
      CountNone(back, x);
    }
  }

  // ─── Sorting ───────────────────────────────────────────────────────────────────────

  function Insert(x: int, xs: seq<int>): seq<int> {
    if xs == [] || x <= xs[0] then [x] + xs else [xs[0]] + Insert(x, xs[1..])
  }

  /** The language's own ascending sort: any sorted permutation will do, since there is only one. */
  function Ascending(xs: seq<int>): seq<int> {
    if xs == [] then [] else Insert(xs[0], Ascending(xs[1..]))
  }

  lemma {:induction false} InsertMultiset(x: int, xs: seq<int>)
    ensures multiset(Insert(x, xs)) == multiset{x} + multiset(xs)
  {
    if !(xs == [] || x <= xs[0]) {
      InsertMultiset(x, xs[1..]);
      MultisetRest(xs);
    }
  }

  lemma {:induction false} InsertSorted(x: int, xs: seq<int>)
    requires Sorted(xs)
    ensures Sorted(Insert(x, xs))
    ensures Insert(x, xs) != []
    ensures Insert(x, xs)[0] == if xs == [] || x <= xs[0] then x else xs[0]
  {
    if !(xs == [] || x <= xs[0]) {
      var rest := Insert(x, xs[1..]);
      InsertSorted(x, xs[1..]);
      assert xs[0] <= rest[0];
    }
  }

  lemma {:induction false} AscendingSorts(xs: seq<int>)
    ensures Sorted(Ascending(xs)) && multiset(Ascending(xs)) == multiset(xs) && |Ascending(xs)| == |xs|
  {
    if xs != [] {
      AscendingSorts(xs[1..]);
      InsertSorted(xs[0], Ascending(xs[1..]));
      InsertMultiset(xs[0], Ascending(xs[1..]));
      MultisetRest(xs);
    }
    assert |multiset(Ascending(xs))| == |Ascending(xs)| && |multiset(xs)| == |xs|;
  }

  /** Any two sorted arrangements of the same values are the same list. */
  lemma SortedUnique(a: seq<int>, b: seq<int>)
    requires Sorted(a) && Sorted(b) && multiset(a) == multiset(b)
    ensures a == b
  {
    assert |multiset(a)| == |a| && |multiset(b)| == |b|;
    forall k | 0 <= k < |a| ensures a[k] == b[k] {
      CountPermuted(a, b, a[k]);
      CountPermuted(a, b, b[k]);
      Rank(a, k, a[k]);
      Rank(b, k, a[k]);
      Rank(a, k, b[k]);
      Rank(b, k, b[k]);
    }
  }

  // ─── The estimator ─────────────────────────────────────────────────────────────────

  function PositiveGaps(timestamps: seq<int>): seq<int> {
    if |timestamps| < 2 then []
    else
      var i := |timestamps| - 1;
      var gap := timestamps[i] - timestamps[i - 1];
      PositiveGaps(timestamps[..i]) + if gap > 0 then [gap] else []
  }

  predicate AllPositive(xs: seq<int>) {
    forall i :: 0 <= i < |xs| ==> xs[i] > 0
  }

  lemma PositiveSnoc(xs: seq<int>, x: int)
    requires AllPositive(xs) && x > 0
    ensures AllPositive(xs + [x])
  {}

  lemma {:induction false} GapsPositive(timestamps: seq<int>)
    ensures AllPositive(PositiveGaps(timestamps))
  {
    if |timestamps| >= 2 {
      var i := |timestamps| - 1;
      var before := PositiveGaps(timestamps[..i]);
      var gap := timestamps[i] - timestamps[i - 1];
      GapsPositive(timestamps[..i]);
      if gap > 0 {
        PositiveSnoc(before, gap);
        assert PositiveGaps(timestamps) == before + [gap];
      } else {
        assert PositiveGaps(timestamps) == before + [];
        assert before + [] == before;
      }
    }
  }

  /** The value with exactly `k` others before it, however the list is arranged. */
  ghost predicate OrderStatistic(xs: seq<int>, k: nat, v: int) {
    CountAtMost(xs, v - 1) <= k < CountAtMost(xs, v)
  }

  ghost predicate Quartiles(gaps: seq<int>, q1: int, median: int, q3: int) {
    && OrderStatistic(gaps, |gaps| / 4, q1)
    && OrderStatistic(gaps, |gaps| / 2, median)
    && OrderStatistic(gaps, 3 * |gaps| / 4, q3)
    && 0 < q1 <= median <= q3
  }

  ghost predicate RatesOf(q1: int, median: int, q3: int, sampleRateHz: Option<real>, jitterRatio: Option<real>)
    requires median != 0
  {
    && sampleRateHz == Some(1000.0 / median as real)
    && jitterRatio == Some((q3 - q1) as real / median as real) && jitterRatio.value >= 0.0
  }

  /**
   There is an estimate exactly when there are three instants and a positive gap, and it is read off
   the quartiles.
   */
  ghost predicate Estimated(timestamps: seq<int>, sampleRateHz: Option<real>, jitterRatio: Option<real>) {
    && (sampleRateHz.Some? <==> |timestamps| >= 3 && PositiveGaps(timestamps) != [])
    && (sampleRateHz.None? <==> jitterRatio.None?)
    && (sampleRateHz.Some? ==>
          exists median, q1, q3 ::
            Quartiles(PositiveGaps(timestamps), q1, median, q3) && RatesOf(q1, median, q3, sampleRateHz, jitterRatio))
  }

  lemma JitterNotNegative(q1: int, median: int, q3: int)
    requires 0 < median && q1 <= q3
    ensures (q3 - q1) as real / median as real >= 0.0
  {}

  method InferSampleRate(timestamps: seq<int>) returns (sampleRateHz: Option<real>, jitterRatio: Option<real>)
    ensures Estimated(timestamps, sampleRateHz, jitterRatio)
  {
    if |timestamps| < 3 {
      return None, None;
    }
    var deltas: seq<int> := [];
    var i := 1;
    while i < |timestamps|
      invariant 1 <= i <= |timestamps|
      invariant deltas == PositiveGaps(timestamps[..i])
    {
      assert timestamps[..i + 1][..i] == timestamps[..i];
      var delta := timestamps[i] - timestamps[i - 1];
      if delta > 0 {
        deltas := deltas + [delta];
      }
      i := i + 1;
    }
    assert timestamps[..|timestamps|] == timestamps;
    if |deltas| == 0 {
      return None, None;
    }
    var sorted := Ascending(deltas);
    GapsPositive(timestamps);
    SortedQuartiles(deltas);
    var n := |sorted|;
    var median := sorted[n / 2];
    if median <= 0 {
      assert false;
    }
    var q1 := sorted[n / 4];
    var q3 := sorted[3 * n / 4];
    jitterRatio := Some((q3 - q1) as real / median as real);
    sampleRateHz := Some(1000.0 / median as real);
    JitterNotNegative(q1, median, q3);
    assert Quartiles(PositiveGaps(timestamps), q1, median, q3) && RatesOf(q1, median, q3, sampleRateHz, jitterRatio);
  }

  lemma SortedQuartiles(gaps: seq<int>)
    requires gaps != [] && AllPositive(gaps)
    ensures var sorted := Ascending(gaps);
            |sorted| == |gaps| && Quartiles(gaps, sorted[|gaps| / 4], sorted[|gaps| / 2], sorted[3 * |gaps| / 4])
  {
    QuarterPlaces(|gaps|);
    Position(gaps, |gaps| / 4);
    Position(gaps, |gaps| / 2);
    Position(gaps, 3 * |gaps| / 4);
    AscendingSorts(gaps);
    StatisticPositive(gaps, |gaps| / 4, Ascending(gaps)[|gaps| / 4]);
  }

  lemma QuarterPlaces(n: nat)
    requires n > 0
    ensures n / 4 <= n / 2 <= 3 * n / 4 < n
  {}

  lemma StatisticPositive(xs: seq<int>, k: nat, v: int)
    requires OrderStatistic(xs, k, v) && AllPositive(xs)
    ensures v > 0
  {
    CountNone(xs, 0);
    if v <= 0 {
      CountMonotone(xs, v, 0);
    }
  }

  /** What stands at position `k` of the sorted list, said without the sorted list. */
  lemma Position(xs: seq<int>, k: nat)
    requires k < |xs|
    ensures |Ascending(xs)| == |xs| && OrderStatistic(xs, k, Ascending(xs)[k])
  {
    var sorted := Ascending(xs);
    AscendingSorts(xs);
    var v := sorted[k];
    Rank(sorted, k, v);
    Rank(sorted, k, v - 1);
    CountPermuted(sorted, xs, v);
    CountPermuted(sorted, xs, v - 1);
  }

  // ─── Robustness ────────────────────────────────────────────────────────────────────

  lemma {:induction false} CountMonotone(xs: seq<int>, x: int, y: int)
    requires x <= y
    ensures CountAtMost(xs, x) <= CountAtMost(xs, y)
  {
    if xs != [] {
      CountMonotone(xs[1..], x, y);
    }
  }

  /** Only one value can be the `k`-th. */
  lemma OrderStatisticUnique(xs: seq<int>, k: nat, v: int, w: int)
    requires OrderStatistic(xs, k, v) && OrderStatistic(xs, k, w)
    ensures v == w
  {
    if v < w {
      CountMonotone(xs, v, w - 1);
    } else if w < v {
      CountMonotone(xs, w, v - 1);
    }
  }

  /** The exact breakdown point of the median: one bound at a time, both directions. */
  lemma MedianBounds(gaps: seq<int>, median: int, x: int)
    requires OrderStatistic(gaps, |gaps| / 2, median)
    ensures median <= x <==> CountAtMost(gaps, x) > |gaps| / 2
  {
    if median <= x {
      CountMonotone(gaps, median, x);
    } else {
      CountMonotone(gaps, x, median - 1);
    }
  }

  /**
   If more than half of the intervals lie in [lo, hi] then so does the median, however extreme
   the rest: the rate lies in [1000/hi, 1000/lo].
   */
  lemma RateRobust(gaps: seq<int>, median: int, lo: int, hi: int)
    requires OrderStatistic(gaps, |gaps| / 2, median)
    requires 0 < lo <= hi && 2 * CountIn(gaps, lo, hi) > |gaps|
    ensures lo <= median <= hi
    ensures 1000.0 / hi as real <= 1000.0 / median as real <= 1000.0 / lo as real
  {
    CountSplit(gaps, lo, hi);
    CountBound(gaps, hi);
    MedianBounds(gaps, median, hi);
    MedianBounds(gaps, median, lo - 1);
    Reciprocal(lo, median);
    Reciprocal(median, hi);
  }

  lemma Quotient(c: real, x: real)
    requires x > 0.0 && c > 0.0
    ensures c / x > 0.0 && (c / x) * x == c
  {}

  lemma Products(p: real, x: real, q: real, y: real)
    requires p > 0.0 && 0.0 < x <= y && p * x == q * y
    ensures q <= p
  {
    assert p * y == p * x + p * (y - x);
    assert p * (y - x) >= 0.0;
    assert (q - p) * y <= 0.0;
  }

  lemma Reciprocal(a: int, b: int)
    requires 0 < a <= b
    ensures 1000.0 / b as real <= 1000.0 / a as real
  {
    var x, y := a as real, b as real;
    Quotient(1000.0, x);
    Quotient(1000.0, y);
    Products(1000.0 / x, x, 1000.0 / y, y);
  }

  /**
   The estimate depends only on which intervals occurred and how often, not on their order: no other
   value will do.
   */
  lemma OrderFree(a: seq<int>, b: seq<int>, k: nat, v: int, w: int)
    requires multiset(a) == multiset(b) && OrderStatistic(a, k, v)
    ensures OrderStatistic(b, k, w) <==> w == v
  {
    if OrderStatistic(b, k, w) && OrderStatistic(b, k, v) {
      OrderStatisticUnique(b, k, v, w);
    }
    CountPermuted(a, b, v);
    CountPermuted(a, b, v - 1);
  }

  // ─── What the estimate is of ───────────────────────────────────────────────────────

  predicate StepIs(timestamps: seq<int>, i: nat, g: int) {
    i + 1 < |timestamps| && timestamps[i + 1] - timestamps[i] == g
  }

  /** The places where the clock advanced by exactly `g`. */
  function Steps(timestamps: seq<int>, g: int): set<nat> {
    set i: nat | i < |timestamps| && StepIs(timestamps, i, g)
  }

  lemma StepsMore(timestamps: seq<int>, n: nat, g: int)
    requires |timestamps| == n + 1 && n > 0
    ensures Steps(timestamps, g) == Steps(timestamps[..n], g) + if timestamps[n] - timestamps[n - 1] == g then {n - 1}
            else {}
    ensures n - 1 !in Steps(timestamps[..n], g)
  {}

  /** The gaps are the differences of neighbouring instants, those that are positive, each as often as it occurs. */
  lemma {:induction false} GapsAre(timestamps: seq<int>, g: int)
    ensures multiset(PositiveGaps(timestamps))[g] == if g > 0 then |Steps(timestamps, g)| else 0
  {
    if |timestamps| < 2 {
      assert Steps(timestamps, g) == {};
    } else {
      var n := |timestamps| - 1;
      GapsAre(timestamps[..n], g);
      StepsMore(timestamps, n, g);
    }
  }

  lemma OneEstimate(timestamps: seq<int>, sampleRateHz: Option<real>, jitterRatio: Option<real>)
    returns (q1: int, median: int, q3: int)
    requires Estimated(timestamps, sampleRateHz, jitterRatio) && sampleRateHz.Some?
    ensures Quartiles(PositiveGaps(timestamps), q1, median, q3) && RatesOf(q1, median, q3, sampleRateHz, jitterRatio)
  {
    median, q1, q3 :| Quartiles(PositiveGaps(timestamps), q1, median, q3)
                      && RatesOf(q1, median, q3, sampleRateHz, jitterRatio);
  }

  /** The estimated rate, whenever more than half of the positive gaps lie in [lo, hi]. */
  lemma EstimateRobust(timestamps: seq<int>, sampleRateHz: Option<real>, jitterRatio: Option<real>, lo: int, hi: int)
    requires Estimated(timestamps, sampleRateHz, jitterRatio) && sampleRateHz.Some?
    requires 0 < lo <= hi && 2 * CountIn(PositiveGaps(timestamps), lo, hi) > |PositiveGaps(timestamps)|
    ensures 1000.0 / hi as real <= sampleRateHz.value <= 1000.0 / lo as real
  {
    var q1, median, q3 := OneEstimate(timestamps, sampleRateHz, jitterRatio);
    RateRobust(PositiveGaps(timestamps), median, lo, hi);
  }

  predicate Even(timestamps: seq<int>, d: int) {
    forall i: nat :: i + 1 < |timestamps| ==> StepIs(timestamps, i, d)
  }

  lemma {:induction false} EvenGaps(timestamps: seq<int>, d: int)
    requires Even(timestamps, d) && d > 0 && timestamps != []
    ensures |PositiveGaps(timestamps)| == |timestamps| - 1
    ensures forall i :: 0 <= i < |PositiveGaps(timestamps)| ==> PositiveGaps(timestamps)[i] == d
  {
    if |timestamps| >= 2 {
      var n := |timestamps| - 1;
      forall i: nat | i + 1 < n ensures StepIs(timestamps[..n], i, d) {
        assert StepIs(timestamps, i, d);
      }
      EvenGaps(timestamps[..n], d);
      assert StepIs(timestamps, n - 1, d);
    }
  }

  lemma SameEverywhere(gaps: seq<int>, k: nat, d: int, v: int)
    requires (forall i :: 0 <= i < |gaps| ==> gaps[i] == d) && OrderStatistic(gaps, k, v)
    ensures v == d
  {
    if v < d {
      CountNone(gaps, v);
    } else if v > d {
      CountAll(gaps, v - 1);
      CountBound(gaps, v);
    }
  }

  /**
   Even sampling is recognised for what it is: one instant every `d` milliseconds is 1000 / d per
   second, without jitter.
   */
  lemma EvenSampling(timestamps: seq<int>, d: int, sampleRateHz: Option<real>, jitterRatio: Option<real>)
    requires Even(timestamps, d) && d > 0 && |timestamps| >= 3
    requires Estimated(timestamps, sampleRateHz, jitterRatio)
    ensures sampleRateHz == Some(1000.0 / d as real) && jitterRatio == Some(0.0)
  {
    EvenGaps(timestamps, d);
    var q1, median, q3 := OneEstimate(timestamps, sampleRateHz, jitterRatio);
    var gaps := PositiveGaps(timestamps);
    SameEverywhere(gaps, |gaps| / 4, d, q1);
    SameEverywhere(gaps, |gaps| / 2, d, median);
    SameEverywhere(gaps, 3 * |gaps| / 4, d, q3);
  }

  lemma QuartilesAre(gaps: seq<int>, q1: int, median: int, q3: int)
    requires Quartiles(gaps, q1, median, q3)
    ensures CountAtMost(gaps, q1 - 1) <= |gaps| / 4 < CountAtMost(gaps, q1)
    ensures CountAtMost(gaps, median - 1) <= |gaps| / 2 < CountAtMost(gaps, median)
    ensures CountAtMost(gaps, q3 - 1) <= 3 * |gaps| / 4 < CountAtMost(gaps, q3)
    ensures 0 < q1 <= median <= q3
  {}

  lemma RatesBack(q1: int, median: int, q3: int, sampleRateHz: Option<real>, jitterRatio: Option<real>)
    requires median != 0 && RatesOf(q1, median, q3, sampleRateHz, jitterRatio)
    ensures jitterRatio.value * median as real == (q3 - q1) as real && jitterRatio.value >= 0.0
    ensures sampleRateHz.value * median as real == 1000.0
  {
    TimesBack(1000.0, median as real);
    TimesBack((q3 - q1) as real, median as real);
  }

  lemma TimesBack(a: real, b: real)
    requires b != 0.0
    ensures (a / b) * b == a
  {}

  /** The jitter is the spread of the middle half of the gaps, in medians. */
  lemma JitterIsSpread(timestamps: seq<int>, sampleRateHz: Option<real>, jitterRatio: Option<real>)
    returns (q1: int, median: int, q3: int)
    requires Estimated(timestamps, sampleRateHz, jitterRatio) && sampleRateHz.Some?
    ensures var gaps := PositiveGaps(timestamps);
            && CountAtMost(gaps, q1 - 1) <= |gaps| / 4 < CountAtMost(gaps, q1)
            && CountAtMost(gaps, median - 1) <= |gaps| / 2 < CountAtMost(gaps, median)
            && CountAtMost(gaps, q3 - 1) <= 3 * |gaps| / 4 < CountAtMost(gaps, q3)
    ensures jitterRatio.Some? && jitterRatio.value * median as real == (q3 - q1) as real && jitterRatio.value >= 0.0
    ensures sampleRateHz.value * median as real == 1000.0
  {
    q1, median, q3 := OneEstimate(timestamps, sampleRateHz, jitterRatio);
    QuartilesAre(PositiveGaps(timestamps), q1, median, q3);
    RatesBack(q1, median, q3, sampleRateHz, jitterRatio);
  }
}

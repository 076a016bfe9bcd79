/**
 * The online statistics of the write test (database.c), over real numbers:
 * one pass by Welford's method against the two-pass definitions.
 */
module Statistics {
  import opened Options

  /** variance is the square of the standard deviation; there is none (0 / 0) for a single sample. */
  datatype DbPerf = DbPerf(n: int, min: real, mean: real, max: real, variance: Option<real>)

  // ---------- Two-pass definitions ----------

  function Sum(s: seq<real>): real {
    if s == [] then 0.0 else Sum(s[..|s| - 1]) + s[|s| - 1]
  }

  function Mean(s: seq<real>): real
    requires s != []
  {
    Sum(s) / (|s| as real)
  }

  function Squared(x: real): real {
    x * x
  }

  /** The squared deviations from m, added up. */
  function Deviations(s: seq<real>, m: real): real {
    if s == [] then 0.0 else Deviations(s[..|s| - 1], m) + Squared(s[|s| - 1] - m)
  }

  function SampleVariance(s: seq<real>): real
    requires |s| >= 2
  {
    Deviations(s, Mean(s)) / ((|s| - 1) as real)
  }

  /** How moving the reference point from m to k changes the deviations of n numbers with this sum. */
  function Shift(n: real, sum: real, m: real, k: real): real {
    (m - k) * (2.0 * sum - n * (m + k))
  }

  lemma Distribute(a: real, b: real, c: real)
    ensures a * b + a * c == a * (b + c)
  {
  }

  lemma ShiftStep(n: real, sum: real, x: real, m: real, k: real)
    ensures Shift(n, sum, m, k) + Squared(x - k) == Squared(x - m) + Shift(n + 1.0, sum + x, m, k)
  {
    assert Squared(x - k) == Squared(x - m) + (m - k) * (2.0 * x - (m + k));
    Distribute(m - k, 2.0 * sum - n * (m + k), 2.0 * x - (m + k));
    assert n * (m + k) + (m + k) == (n + 1.0) * (m + k);
  }

  lemma {:induction false} DeviationsMove(s: seq<real>, m: real, k: real)
    ensures Deviations(s, k) == Deviations(s, m) + Shift(|s| as real, Sum(s), m, k)
    decreases |s|
  {
    if s == [] {
      assert Shift(0.0, 0.0, m, k) == 0.0;
    } else {
      hide Squared, Shift;
      var init, x := s[..|s| - 1], s[|s| - 1];
      DeviationsMove(init, m, k);
      ShiftStep((|s| - 1) as real, Sum(init), x, m, k);
    }
  }

  /** The squared differences between any two of the samples, added up. */
  function PairDifferences(s: seq<real>): real {
    if s == [] then 0.0 else PairDifferences(s[..|s| - 1]) + Deviations(s[..|s| - 1], s[|s| - 1])
  }

  /** The running mean and the running deviations of the loop. */
  function NextMean(n: real, mean: real, x: real): real
    requires n > 0.0
  {
    mean + (x - mean) / n
  }

  function NextM2(m2: real, mean: real, next: real, x: real): real {
    m2 + (x - mean) * (x - next)
  }

  /** mean is the mean of s, which for no samples is 0 as in the loop. */
  predicate IsMean(s: seq<real>, mean: real) {
    mean == if s == [] then 0.0 else Mean(s)
  }

  lemma Quotient(a: real, n: real)
    requires n > 0.0
    ensures n * (a / n) == a
  {
  }

  lemma MeanTimesCount(s: seq<real>, mean: real)
    requires IsMean(s, mean)
    ensures (|s| as real) * mean == Sum(s)
  {
    if s != [] {
      Quotient(Sum(s), |s| as real);
    }
  }

  lemma ScaledMean(n: real, mean: real, x: real, sum: real)
    requires n >= 0.0 && n * mean == sum
    ensures (n + 1.0) * NextMean(n + 1.0, mean, x) == sum + x
  {
    Quotient(x - mean, n + 1.0);
    Distribute(n + 1.0, mean, (x - mean) / (n + 1.0));
    assert (n + 1.0) * mean == sum + mean;
  }

  lemma Cancel(n: real, a: real, b: real)
    requires n > 0.0 && n * a == n * b
    ensures a == b
  {
  }

  /** Welford's update of the mean gives the mean of the longer sequence. */
  lemma NextMeanIsMean(s: seq<real>, x: real, mean: real)
    requires IsMean(s, mean)
    ensures IsMean(s + [x], NextMean((|s| + 1) as real, mean, x))
  {
    var t, n := s + [x], (|s| + 1) as real;
    assert t[..|t| - 1] == s;
    MeanTimesCount(s, mean);
    ScaledMean(|s| as real, mean, x, Sum(s));
    MeanTimesCount(t, Mean(t));
    Cancel(n, NextMean(n, mean, x), Mean(t));
  }

  lemma Negate(a: real, b: real)
    ensures a * (-b) == b * (-a)
  {
  }

  /** The algebra behind the step. */
  lemma MeanShift(n: real, mean: real, next: real, x: real, sum: real, m2: real)
    requires n * mean == sum && (n + 1.0) * next == sum + x
    ensures m2 + Shift(n, sum, mean, next) + Squared(x - next) == NextM2(m2, mean, next, x)
  {
    var d := mean - next;
    Distribute(n, mean, next);
    assert n * next == sum + x - next;
    assert 2.0 * sum - n * (mean + next) == next - x;
    Negate(d, x - next);
    Distribute(x - next, x - next, -d);
  }

  /** Welford's update of the squared deviations gives those of the longer sequence from its mean. */
  lemma NextDeviations(s: seq<real>, x: real, mean: real, next: real)
    requires IsMean(s, mean) && next == NextMean((|s| + 1) as real, mean, x)
    ensures NextM2(Deviations(s, mean), mean, next, x) == Deviations(s + [x], next)
  {
    hide Squared, Shift, NextMean, NextM2, Mean, IsMean;
    var n, sum, m2 := |s| as real, Sum(s), Deviations(s, mean);
    assert (s + [x])[..|s + [x]| - 1] == s;
    MeanTimesCount(s, mean);
    ScaledMean(n, mean, x, sum);
    DeviationsMove(s, mean, next);
    MeanShift(n, mean, next, x, sum, m2);
  }

  /** What the squared differences of all pairs come to, by the number of samples, their squares and their sum. */
  function Paired(n: real, squares: real, sum: real): real {
    n * squares - sum * sum
  }

  lemma PairedStep(n: real, sum: real, squares: real, x: real)
    ensures Paired(n + 1.0, squares + Squared(x - 0.0), sum + x)
         == Paired(n, squares, sum) + (squares + Shift(n, sum, 0.0, x))
  {
    assert Shift(n, sum, 0.0, x) == -x * (2.0 * sum - n * x);
    assert x * (2.0 * sum - n * x) == 2.0 * (sum * x) - n * (x * x) by {
      Distribute(x, 2.0 * sum, -(n * x));
    }
    assert (sum + x) * (sum + x) == sum * sum + 2.0 * (sum * x) + x * x;
    assert (n + 1.0) * (squares + x * x) == n * squares + n * (x * x) + squares + x * x by {
      Distribute(n, squares, x * x);
    }
  }

  lemma PairedMoves(n: real, sum: real, squares: real, m: real)
    requires n * m == sum
    ensures n * (squares + Shift(n, sum, 0.0, m)) == Paired(n, squares, sum)
  {
    assert Shift(n, sum, 0.0, m) == -m * sum;
    assert n * (-m * sum) == -(n * m) * sum;
    Distribute(n, squares, -m * sum);
  }

  lemma {:induction false} PairsArePaired(s: seq<real>)
    ensures PairDifferences(s) == Paired(|s| as real, Deviations(s, 0.0), Sum(s))
    decreases |s|
  {
    if s != [] {
      hide Shift, Paired, Squared;
      var init, x := s[..|s| - 1], s[|s| - 1];
      var n := |init| as real;
      PairsArePaired(init);
      DeviationsMove(init, 0.0, x);
      PairedStep(n, Sum(init), Deviations(init, 0.0), x);
      assert (|s| as real) == n + 1.0;
    }
  }

  lemma VarianceTimes(s: seq<real>)
    requires |s| >= 2
    ensures ((|s| - 1) as real) * SampleVariance(s) == Deviations(s, Mean(s))
  {
    hide Deviations, Mean;
    Quotient(Deviations(s, Mean(s)), (|s| - 1) as real);
  }

  /** The sample variance without a mean: the squared differences of all pairs, over n (n - 1). */
  lemma VarianceOfPairs(s: seq<real>)
    requires |s| >= 2
    ensures (|s| as real) * (((|s| - 1) as real) * SampleVariance(s)) == PairDifferences(s)
  {
    hide Shift, Mean, SampleVariance, Deviations, PairDifferences, Sum, Paired;
    VarianceTimes(s);
    MeanTimesCount(s, Mean(s));
    DeviationsMove(s, 0.0, Mean(s));
    PairsArePaired(s);
    PairedMoves(|s| as real, Sum(s), Deviations(s, 0.0), Mean(s));
  }

  /** For two samples that is half the square of their difference. */
  lemma VarianceOfTwo(a: real, b: real)
    ensures SampleVariance([a, b]) == (a - b) * (a - b) / 2.0
  {
    assert [a, b][..1] == [a] && [a][..0] == [];
    assert Deviations([a], b) == Squared(a - b);
    assert PairDifferences([a]) == 0.0;
    assert PairDifferences([a, b]) == Squared(a - b);
    VarianceOfPairs([a, b]);
  }

  // ---------- Bounds ----------

  function Least(s: seq<real>, start: real): real {
    if s == [] then start
    else
      var least := Least(s[..|s| - 1], start);
      if s[|s| - 1] < least then s[|s| - 1] else least
  }

  function Greatest(s: seq<real>, start: real): real {
    if s == [] then start
    else
      var greatest := Greatest(s[..|s| - 1], start);
      if s[|s| - 1] > greatest then s[|s| - 1] else greatest
  }

  lemma {:induction false} LeastAndGreatest(s: seq<real>, low: real, high: real)
    ensures forall i :: 0 <= i < |s| ==> Least(s, low) <= s[i] <= Greatest(s, high)
    ensures Least(s, low) <= low && (Least(s, low) == low || Least(s, low) in s)
    ensures high <= Greatest(s, high) && (Greatest(s, high) == high || Greatest(s, high) in s)
    decreases |s|
  {
    if s != [] {
      LeastAndGreatest(s[..|s| - 1], low, high);
    }
  }

  lemma {:induction false} SumBetween(s: seq<real>, low: real, high: real)
    requires forall i :: 0 <= i < |s| ==> low <= s[i] <= high
    ensures (|s| as real) * low <= Sum(s) <= (|s| as real) * high
    decreases |s|
  {
    if s != [] {
      SumBetween(s[..|s| - 1], low, high);
      var n := (|s| - 1) as real;
      assert (|s| as real) * low == n * low + low && (|s| as real) * high == n * high + high;
    }
  }

  lemma Positive(a: real, b: real)
    requires a > 0.0 && b > 0.0
    ensures a * b > 0.0
  {
  }

  lemma CancelOrder(n: real, a: real, b: real)
    requires n > 0.0 && n * a <= n * b
    ensures a <= b
  {
    if b < a {
      Positive(n, a - b);
      Distribute(n, a - b, b);
    }
  }

  lemma MeanBetween(s: seq<real>, low: real, high: real)
    requires s != [] && forall i :: 0 <= i < |s| ==> low <= s[i] <= high
    ensures low <= Mean(s) <= high
  {
    hide Mean;
    SumBetween(s, low, high);
    MeanTimesCount(s, Mean(s));
    CancelOrder(|s| as real, low, Mean(s));
    CancelOrder(|s| as real, Mean(s), high);
  }

  /** The statistics the loop carries from one sample to the next. */
  datatype Running = Running(count: nat, min: real, mean: real, max: real, m2: real, variance: Option<real>)

  function Step(r: Running, x: real): Running {
    var count := r.count + 1;
    var mean := NextMean(count as real, r.mean, x);
    var m2 := NextM2(r.m2, r.mean, mean, x);
    Running(count, if x < r.min then x else r.min, mean, if x > r.max then x else r.max, m2,
            if count == 1 then None else Some(m2 / ((count - 1) as real)))
  }

  /** r agrees with the two-pass definitions on the samples s. */
  predicate Describes(r: Running, s: seq<real>, dblMax: real) {
    && r.count == |s|
    && IsMean(s, r.mean)
    && r.m2 == Deviations(s, r.mean)
    && r.min == Least(s, dblMax) && r.max == Greatest(s, 0.0)
    && r.variance == (if |s| <= 1 then None else Some(SampleVariance(s)))
  }

  lemma WelfordStep(r: Running, s: seq<real>, x: real, dblMax: real)
    requires Describes(r, s, dblMax)
    ensures Describes(Step(r, x), s + [x], dblMax)
  {
    hide NextMean, NextM2, Mean, Deviations;
    assert (s + [x])[..|s + [x]| - 1] == s;
    NextMeanIsMean(s, x, r.mean);
    NextDeviations(s, x, r.mean, NextMean((|s| + 1) as real, r.mean, x));
  }

  lemma NothingYet(dblMax: real)
    ensures Describes(Running(0, dblMax, 0.0, 0.0, 0.0, None), [], dblMax)
  {
  }

  lemma StepCounts(r: Running, x: real)
    ensures Step(r, x).count == r.count + 1
  {
  }

  /** What the loop has computed, for at least one sample. */
  lemma Results(r: Running, s: seq<real>, dblMax: real)
    requires Describes(r, s, dblMax) && s != []
    ensures r.count == |s| && r.mean == Mean(s) && r.min == Least(s, dblMax) && r.max == Greatest(s, 0.0)
    ensures r.variance == if |s| == 1 then None else Some(SampleVariance(s))
    ensures r.min <= r.mean <= r.max
  {
    hide Mean, SampleVariance, Deviations, Least, Greatest;
    LeastAndGreatest(s, dblMax, 0.0);
    MeanBetween(s, r.min, r.max);
  }

  // ---------- The loop ----------

  const INT_MIN := -0x8000_0000
  const INT_MAX := 0x7FFF_FFFF

  /** How often a loop that ends when --n is zero runs, for a 32-bit n that wraps around. */
  function Rounds(n: int): int {
    if n >= 1 then n else n + 0x1_0000_0000
  }

  /** As often as asked for, if that is at least once. */
  lemma RoundsAsAsked(n: int)
    requires INT_MIN <= n <= INT_MAX
    ensures Rounds(n) == if n >= 1 then n else n + 4294967296
  {
  }

  /** The first n samples, if none of the insertions failed. */
  ghost predicate Taken(samples: nat -> Option<real>, n: int, s: seq<real>) {
    |s| == n && forall i :: 0 <= i < n ==> samples(i) == Some(s[i])
  }

  /**
   * Takes samples until the count runs out; a failed insertion (None) gives up.
   * dblMax is the largest double, from which the minimum starts.
   */
  method TestWritePerf(nsamples: int, samples: nat -> Option<real>, dblMax: real)
    returns (perf: Option<DbPerf>, ghost s: seq<real>)
    requires INT_MIN <= nsamples <= INT_MAX
    ensures nsamples >= 1 ==>
      && (perf.None? <==> exists i: nat :: i < nsamples && samples(i).None?)
      && (perf.Some? ==> perf.value.n == nsamples && Taken(samples, nsamples, s))
    ensures perf.None? <==> exists i: nat :: i < Rounds(nsamples) && samples(i).None?
    ensures perf.Some? ==>
      && Taken(samples, Rounds(nsamples), s) && perf.value.n == |s| > 0
      && perf.value.mean == Mean(s)
      && perf.value.variance == (if |s| == 1 then None else Some(SampleVariance(s)))
      && perf.value.min == Least(s, dblMax) && perf.value.max == Greatest(s, 0.0)
      && perf.value.min <= perf.value.mean <= perf.value.max
  {
    hide Mean, SampleVariance, Deviations, Least, Greatest, NextMean, NextM2, Step, Describes;
    var r := Running(0, dblMax, 0.0, 0.0, 0.0, None);
    var left := nsamples;
    s := [];
    NothingYet(dblMax);
    while true
      invariant INT_MIN <= left <= INT_MAX && r.count + Rounds(left) == Rounds(nsamples)
      invariant Taken(samples, r.count, s) && Describes(r, s, dblMax)
      decreases Rounds(left)
    {
      if samples(r.count).None? {
        return None, s;
      }
      var now := samples(r.count).value;
      WelfordStep(r, s, now, dblMax);
      StepCounts(r, now);
      r, s := Step(r, now), s + [now];
      left := if left == INT_MIN then INT_MAX else left - 1;
      if left == 0 {
        break;
      }
    }
    Results(r, s, dblMax);
    perf := Some(DbPerf(r.count, r.min, r.mean, r.max, r.variance));
  }
}

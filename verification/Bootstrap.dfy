/** The seeded bootstrap interval for a mean, with interpolated percentiles. */
module Bootstrap {
  import opened Ordering
  import opened Reals
  import opened Wrappers

  datatype CI = CI(estimate: real, low: real, high: real, level: real)

  predicate RealLe(x: real, y: real) {
    x <= y
  }

  // ---------------------------------------------------------------- percentiles

  /** The place of quantile q in a list whose last place is `end`. */
  function Position(end: real, q: real): real {
    q * end
  }

  lemma PositionBounds(end: real, q: real, r: real)
    requires end >= 0.0 && 0.0 <= q <= r <= 1.0
    ensures 0.0 <= Position(end, q) <= Position(end, r) <= end
  {
    ProductNonNegative(q, end);
    ProductGrows(q, r, end);
    ProductGrows(r, 1.0, end);
  }

  function Mix(a: real, b: real, f: real): real {
    a * (1.0 - f) + b * f
  }

  /** Linear interpolation between the two values around a place. */
  function At(s: seq<real>, pos: real): real
    requires |s| >= 1 && 0.0 <= pos <= |s| as real - 1.0
  {
    var lo := pos.Floor;
    var frac := pos - lo as real;
    if lo + 1 >= |s| then s[|s| - 1] else Mix(s[lo], s[lo + 1], frac)
  }

  /** The percentile at a quantile that lies within the list. */
  function Quantile(s: seq<real>, q: real): real
    requires 0.0 <= q <= 1.0
  {
    if s == [] then 0.0
    else if |s| == 1 then s[0]
    else
      PositionBounds(|s| as real - 1.0, q, q);
      At(s, Position(|s| as real - 1.0, q))
  }

  /** Conversion to an integer cuts toward zero. */
  function Truncate(x: real): int {
    if x >= 0.0 then x.Floor else -((-x).Floor)
  }

  /** Indexing: a negative index counts from the end, and None is the IndexError of one too far. */
  function Item(s: seq<real>, i: int): Option<real> {
    if 0 <= i < |s| then Some(s[i]) else if -|s| <= i < 0 then Some(s[|s| + i]) else None
  }

  /** The percentile at any quantile whatever. */
  function Percentile(s: seq<real>, q: real): Option<real> {
    if s == [] then Some(0.0)
    else if |s| == 1 then Some(s[0])
    else
      var pos := Position(|s| as real - 1.0, q);
      var lo := Truncate(pos);
      var frac := pos - lo as real;
      if lo + 1 >= |s| then Some(s[|s| - 1])
      else if Item(s, lo).None? || Item(s, lo + 1).None? then None
      else Some(Mix(Item(s, lo).value, Item(s, lo + 1).value, frac))
  }

  lemma ItemsAtPlace(s: seq<real>, pos: real)
    requires |s| >= 1 && 0.0 <= pos <= |s| as real - 1.0
    ensures Truncate(pos) == pos.Floor < |s|
    ensures Item(s, pos.Floor) == Some(s[pos.Floor])
    ensures pos.Floor + 1 < |s| ==> Item(s, pos.Floor + 1) == Some(s[pos.Floor + 1])
  {
  }

  lemma PercentileIsQuantile(s: seq<real>, q: real)
    requires 0.0 <= q <= 1.0
    ensures Percentile(s, q) == Some(Quantile(s, q))
  {
    hide Mix;
    if |s| > 1 {
      PositionBounds(|s| as real - 1.0, q, q);
      var pos := Position(|s| as real - 1.0, q);
      ItemsAtPlace(s, pos);
    }
  }

  /** Only a place so far below the list that counting from its end does not reach it fails. */
  lemma PercentileRaisesIff(s: seq<real>, q: real)
    ensures Percentile(s, q).None? <==> |s| > 1 && Position(|s| as real - 1.0, q) <= -(|s| as real) - 1.0
  {
    hide Position;
  }

  lemma Blend(a: real, b: real, f: real, g: real)
    requires a <= b && 0.0 <= f <= g <= 1.0
    ensures a <= a * (1.0 - f) + b * f <= a * (1.0 - g) + b * g <= b
  {
    var d := b - a;
    assert a * (1.0 - f) + b * f == a + f * d;
    assert a * (1.0 - g) + b * g == a + g * d;
    ProductNonNegative(f, d);
    ProductGrows(f, g, d);
    ProductGrows(g, 1.0, d);
  }

  /** The interpolated value lies between its two neighbours. */
  lemma AtNeighbours(s: seq<real>, pos: real)
    requires Sorted(s, RealLe) && |s| >= 1 && 0.0 <= pos <= |s| as real - 1.0
    ensures pos.Floor < |s| && s[pos.Floor] <= At(s, pos)
    ensures if pos.Floor + 1 < |s| then At(s, pos) <= s[pos.Floor + 1] else At(s, pos) == s[|s| - 1]
  {
    var lo := pos.Floor;
    var frac := pos - lo as real;
    if lo + 1 < |s| {
      assert RealLe(s[lo], s[lo + 1]);
      Blend(s[lo], s[lo + 1], frac, frac);
    }
  }

  lemma AtBetween(s: seq<real>, pos: real)
    requires Sorted(s, RealLe) && |s| >= 1 && 0.0 <= pos <= |s| as real - 1.0
    ensures s[0] <= At(s, pos) <= s[|s| - 1]
  {
    hide At;
    AtNeighbours(s, pos);
    SortedEnds(s, pos.Floor);
    if pos.Floor + 1 < |s| {
      SortedEnds(s, pos.Floor + 1);
    }
  }

  lemma SortedEnds(s: seq<real>, i: nat)
    requires Sorted(s, RealLe) && i < |s|
    ensures s[0] <= s[i] <= s[|s| - 1]
  {
    assert i == 0 || RealLe(s[0], s[i]);
    assert i == |s| - 1 || RealLe(s[i], s[|s| - 1]);
  }

  lemma AtIsMonotone(s: seq<real>, p: real, r: real)
    requires Sorted(s, RealLe) && |s| >= 1 && 0.0 <= p <= r <= |s| as real - 1.0
    ensures At(s, p) <= At(s, r)
  {
    AtNeighbours(s, p);
    AtNeighbours(s, r);
    if p.Floor < r.Floor {
      assert p.Floor + 1 == r.Floor || RealLe(s[p.Floor + 1], s[r.Floor]);
    } else if p.Floor + 1 < |s| {
      assert RealLe(s[p.Floor], s[p.Floor + 1]);
      Blend(s[p.Floor], s[p.Floor + 1], p - p.Floor as real, r - r.Floor as real);
    }
  }

  /** Percentiles of a sorted list grow with the quantile. */
  lemma QuantileIsMonotone(s: seq<real>, q: real, r: real)
    requires Sorted(s, RealLe) && 0.0 <= q <= r <= 1.0
    ensures Quantile(s, q) <= Quantile(s, r)
  {
    hide At, Position;
    if |s| > 1 {
      PositionBounds(|s| as real - 1.0, q, r);
      AtIsMonotone(s, Position(|s| as real - 1.0, q), Position(|s| as real - 1.0, r));
    }
  }

  ghost predicate Within(s: seq<real>, lo: real, hi: real) {
    forall x :: x in s ==> lo <= x <= hi
  }

  lemma QuantileInRange(s: seq<real>, q: real, lo: real, hi: real)
    requires Sorted(s, RealLe) && s != [] && Within(s, lo, hi) && 0.0 <= q <= 1.0
    ensures lo <= Quantile(s, q) <= hi
  {
    hide At, Position;
    assert s[0] in s && s[|s| - 1] in s;
    if |s| > 1 {
      PositionBounds(|s| as real - 1.0, q, q);
      AtBetween(s, Position(|s| as real - 1.0, q));
    }
  }

  // ---------------------------------------------------------------- resampling

  function Step(state: nat): nat {
    (1103515245 * state + 12345) % 0x8000_0000
  }

  /** The total of k draws with replacement, and the generator state after them. */
  ghost function Draws(values: seq<real>, k: nat, state: nat): (real, nat)
    requires values != []
  {
    if k == 0 then (0.0, state) else
      var r := Draws(values, k - 1, state);
      var next := Step(r.1);
      (r.0 + values[next % |values|], next)
  }

  /** The means of the first k resamples. */
  ghost function Means(values: seq<real>, k: nat, state: nat): (seq<real>, nat)
    requires values != []
  {
    if k == 0 then ([], state) else
      var r := Means(values, k - 1, state);
      var d := Draws(values, |values|, r.1);
      (r.0 + [d.0 / (|values| as real)], d.1)
  }

  function Total(values: seq<real>): real {
    if values == [] then 0.0 else Total(values[..|values| - 1]) + values[|values| - 1]
  }

  function Tail(level: real): real {
    (1.0 - level) / 2.0
  }

  /** How often a loop over a range goes round. */
  function Rounds(iterations: int): nat {
    if iterations > 0 then iterations else 0
  }

  /** The sorted means of the resamples. */
  ghost function SortedMeans(values: seq<real>, iterations: int, seed: int): seq<real>
    requires values != []
  {
    Sort(Means(values, Rounds(iterations), seed % 0x1_0000_0000).0, RealLe)
  }

  /** The interval, as a function of its arguments: the same seed gives the same interval. None is
      the IndexError of a level far outside 0 to 1. */
  ghost function Interval(values: seq<real>, level: real, iterations: int, seed: int): Option<CI> {
    if values == [] then Some(CI(0.0, 0.0, 0.0, level))
    else
      var mean := Total(values) / (|values| as real);
      if |values| == 1 then Some(CI(mean, mean, mean, level))
      else
        var means := SortedMeans(values, iterations, seed);
        var low, high := Percentile(means, Tail(level)), Percentile(means, 1.0 - Tail(level));
        if low.None? || high.None? then None else Some(CI(mean, low.value, high.value, level))
  }

  lemma {:induction false} DrawsInRange(values: seq<real>, k: nat, state: nat, lo: real, hi: real)
    requires values != [] && Within(values, lo, hi)
    ensures lo * (k as real) <= Draws(values, k, state).0 <= hi * (k as real)
  {
    hide Step;
    if k > 0 {
      DrawsInRange(values, k - 1, state, lo, hi);
      var i := Step(Draws(values, k - 1, state).1) % |values|;
      assert values[i] in values;
      assert lo * (k as real) == lo * ((k - 1) as real) + lo;
      assert hi * (k as real) == hi * ((k - 1) as real) + hi;
    }
  }

  lemma {:induction false} TotalInRange(values: seq<real>, lo: real, hi: real)
    requires Within(values, lo, hi)
    ensures lo * (|values| as real) <= Total(values) <= hi * (|values| as real)
  {
    if values != [] {
      var n := |values| - 1;
      assert values[n] in values && forall x :: x in values[..n] ==> x in values;
      TotalInRange(values[..n], lo, hi);
      assert lo * (|values| as real) == lo * (n as real) + lo;
      assert hi * (|values| as real) == hi * (n as real) + hi;
    }
  }

  lemma MeanInRange(total: real, n: nat, lo: real, hi: real)
    requires n >= 1 && lo * (n as real) <= total <= hi * (n as real)
    ensures lo <= total / (n as real) <= hi
  {
    var m := n as real;
    QuotientTimes(total, m);
    CancelFactor(lo, total / m, m);
    CancelFactor(total / m, hi, m);
  }

  lemma {:induction false} MeansInRange(values: seq<real>, k: nat, state: nat, lo: real, hi: real)
    requires values != [] && Within(values, lo, hi)
    ensures |Means(values, k, state).0| == k && Within(Means(values, k, state).0, lo, hi)
  {
    hide Draws;
    if k > 0 {
      MeansInRange(values, k - 1, state, lo, hi);
      var s := Means(values, k - 1, state).1;
      DrawsInRange(values, |values|, s, lo, hi);
      MeanInRange(Draws(values, |values|, s).0, |values|, lo, hi);
    }
  }

  lemma SortedMeansFacts(values: seq<real>, iterations: int, seed: int, lo: real, hi: real)
    requires values != [] && Within(values, lo, hi)
    ensures var s := SortedMeans(values, iterations, seed);
            Sorted(s, RealLe) && |s| == Rounds(iterations) && Within(s, lo, hi)
  {
    hide Means;
    MeansInRange(values, Rounds(iterations), seed % 0x1_0000_0000, lo, hi);
    SortFacts(Means(values, Rounds(iterations), seed % 0x1_0000_0000).0, RealLe);
  }

  /** Whatever the seed, the interval exists, is ordered and lies within the range of the values. */
  lemma IntervalIsOrdered(values: seq<real>, level: real, iterations: int, seed: int, lo: real, hi: real)
    requires values != [] && Within(values, lo, hi) && 0.0 <= level <= 1.0 && iterations >= 1
    ensures var ci := Interval(values, level, iterations, seed);
            ci.Some? && lo <= ci.value.low <= ci.value.high <= hi && lo <= ci.value.estimate <= hi
  {
    hide SortedMeans, Percentile, Quantile, Total;
    TotalInRange(values, lo, hi);
    MeanInRange(Total(values), |values|, lo, hi);
    SortedMeansFacts(values, iterations, seed, lo, hi);
    var s := SortedMeans(values, iterations, seed);
    PercentileIsQuantile(s, Tail(level));
    PercentileIsQuantile(s, 1.0 - Tail(level));
    QuantileIsMonotone(s, Tail(level), 1.0 - Tail(level));
    QuantileInRange(s, Tail(level), lo, hi);
    QuantileInRange(s, 1.0 - Tail(level), lo, hi);
  }

  /** A higher level never gives a narrower interval. */
  lemma IntervalsNest(values: seq<real>, level: real, wider: real, iterations: int, seed: int)
    requires 0.0 <= level <= wider <= 1.0
    ensures var ci, out := Interval(values, level, iterations, seed), Interval(values, wider, iterations, seed);
            ci.Some? && out.Some? && out.value.low <= ci.value.low && ci.value.high <= out.value.high
  {
    hide SortedMeans, Percentile, Quantile, Total;
    if |values| > 1 {
      var s := SortedMeans(values, iterations, seed);
      MeansAreSorted(values, iterations, seed);
      PercentileIsQuantile(s, Tail(level));
      PercentileIsQuantile(s, 1.0 - Tail(level));
      PercentileIsQuantile(s, Tail(wider));
      PercentileIsQuantile(s, 1.0 - Tail(wider));
      QuantileIsMonotone(s, Tail(wider), Tail(level));
      QuantileIsMonotone(s, 1.0 - Tail(level), 1.0 - Tail(wider));
    }
  }

  lemma MeansAreSorted(values: seq<real>, iterations: int, seed: int)
    requires values != []
    ensures Sorted(SortedMeans(values, iterations, seed), RealLe)
  {
    hide Means;
    SortFacts(Means(values, Rounds(iterations), seed % 0x1_0000_0000).0, RealLe);
  }

  /** A negative level turns the interval of its positive one round. */
  lemma NegativeLevelSwaps(values: seq<real>, level: real, iterations: int, seed: int)
    requires |values| > 1
    ensures var ci, turned := Interval(values, level, iterations, seed), Interval(values, -level, iterations, seed);
            && (ci.None? <==> turned.None?)
            && (ci.Some? ==> turned == Some(CI(ci.value.estimate, ci.value.high, ci.value.low, -level)))
  {
    hide SortedMeans, Percentile, Total;
    assert Tail(-level) == 1.0 - Tail(level);
  }

  /** Exactly when the interval does not exist: there is something to interpolate, and the level is
      so far outside that a percentile falls below the list. */
  lemma IntervalRaisesIff(values: seq<real>, level: real, iterations: int, seed: int)
    ensures Interval(values, level, iterations, seed).None? <==>
      |values| > 1 && iterations > 1 &&
      var end := iterations as real - 1.0;
      Position(end, Tail(level)) <= -(iterations as real) - 1.0
        || Position(end, 1.0 - Tail(level)) <= -(iterations as real) - 1.0
  {
    hide SortedMeans, Percentile, Total, Position;
    if |values| > 1 {
      var s := SortedMeans(values, iterations, seed);
      MeansCount(values, iterations, seed);
      PercentileRaisesIff(s, Tail(level));
      PercentileRaisesIff(s, 1.0 - Tail(level));
    }
  }

  lemma {:induction false} MeansCounted(values: seq<real>, k: nat, state: nat)
    requires values != []
    ensures |Means(values, k, state).0| == k
  {
    hide Draws;
    if k > 0 {
      MeansCounted(values, k - 1, state);
    }
  }

  lemma MeansCount(values: seq<real>, iterations: int, seed: int)
    requires values != []
    ensures |SortedMeans(values, iterations, seed)| == Rounds(iterations)
  {
    hide Means;
    MeansCounted(values, Rounds(iterations), seed % 0x1_0000_0000);
  }

  // ---------------------------------------------------------------- the program

  /** The deterministic generator; the masks are remainders by powers of two. */
  class LCG {
    var state: nat

    constructor (seed: int)
      ensures state == seed % 0x1_0000_0000
    {
      state := seed % 0x1_0000_0000;
    }

    method RandInt(n: nat) returns (r: nat)
      requires n >= 1
      modifies this
      ensures state == Step(old(state)) && r == state % n && r < n
    {
      state := (1103515245 * state + 12345) % 0x8000_0000;
      r := state % n;
    }
  }

  method Resample(values: seq<real>, rng: LCG) returns (total: real)
    requires values != []
    modifies rng
    ensures (total, rng.state) == Draws(values, |values|, old(rng.state))
  {
    hide Step;
    ghost var start := rng.state;
    total := 0.0;
    for k := 0 to |values|
      invariant (total, rng.state) == Draws(values, k, start)
    {
      var i := rng.RandInt(|values|);
      total := total + values[i];
    }
  }

  method BootstrapMeanCI(values: seq<real>, level: real, iterations: int, seed: int) returns (ci: Option<CI>)
    ensures ci == Interval(values, level, iterations, seed)
  {
    hide Draws, Percentile, Step;
    if values == [] {
      return Some(CI(0.0, 0.0, 0.0, level));
    }
    var n := |values|;
    var sum := 0.0;
    for i := 0 to n
      invariant sum == Total(values[..i])
    {
      assert values[..i + 1][..i] == values[..i];
      sum := sum + values[i];
    }
    assert values[..n] == values;
    var mean := sum / (n as real);
    if n == 1 {
      return Some(CI(mean, mean, mean, level));
    }
    var rng := new LCG(seed);
    var means: seq<real> := [];
    for k := 0 to Rounds(iterations)
      invariant (means, rng.state) == Means(values, k, seed % 0x1_0000_0000)
    {
      var total := Resample(values, rng);
      means := means + [total / (n as real)];
    }
    means := Sort(means, RealLe);
    var alpha := (1.0 - level) / 2.0;
    var low, high := Percentile(means, alpha), Percentile(means, 1.0 - alpha);
    ci := if low.None? || high.None? then None else Some(CI(mean, low.value, high.value, level));
  }
}

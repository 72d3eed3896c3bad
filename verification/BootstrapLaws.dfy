/** What the generator and the percentiles mean, and what that does to small samples. */
module BootstrapLaws {
  import opened Ordering
  import opened Wrappers
  import opened Reals
  import opened Bootstrap

  // ---------------------------------------------------------------- the generator

  /** The state before this one: 1857678181 is the inverse of the multiplier modulo 2^31. */
  function StepBack(state: nat): nat {
    (1857678181 * (state + 0x8000_0000 - 12345)) % 0x8000_0000
  }

  /** A step takes away a multiple of 2^31. */
  lemma StepIsRest(state: nat) returns (k: int)
    ensures 0 <= Step(state) < 0x8000_0000
    ensures Step(state) == 1103515245 * state + 12345 - k * 0x8000_0000
  {
    k := (1103515245 * state + 12345) / 0x8000_0000;
  }

  lemma RestOfMultiple(a: nat, q: int, y: int)
    requires a < 0x8000_0000 && y == a + q * 0x8000_0000
    ensures y % 0x8000_0000 == a
  {
  }

  lemma StepBackIsRest(s: nat, a: nat, q: int)
    requires a < 0x8000_0000 && 1857678181 * (s + 0x8000_0000 - 12345) == a + q * 0x8000_0000
    ensures StepBack(s) == a
  {
    RestOfMultiple(a, q, 1857678181 * (s + 0x8000_0000 - 12345));
  }

  /** No state is reached from two: the generator loses nothing it was seeded with, up to 31 bits. */
  lemma StepIsInvertible(state: nat)
    requires state < 0x8000_0000
    ensures Step(state) < 0x8000_0000 && StepBack(Step(state)) == state
  {
    hide Step, StepBack;
    var k := StepIsRest(state);
    StepBackIsRest(Step(state), state, 954594553 * state + 1857678181 * (1 - k));
  }

  /** The lowest bit alternates. */
  lemma ParityAlternates(state: nat)
    ensures Step(state) % 2 == 1 - state % 2
  {
    hide Step;
    var k := StepIsRest(state);
    EvenPart(551757622 * state + 6172 - k * 0x4000_0000, state, Step(state));
  }

  lemma EvenPart(a: int, b: nat, y: nat)
    requires y == 2 * a + b + 1
    ensures y % 2 == 1 - b % 2
  {
  }

  lemma IndexParity(state: nat, n: nat)
    requires n > 0 && n % 2 == 0
    ensures (state % n) % 2 == state % 2
  {
    var half := n / 2;
    assert state == (state / n) * n + state % n;
    assert (state / n) * n == 2 * ((state / n) * half);
  }

  /** How many of the first k draws take an even place. */
  ghost function EvenDraws(values: seq<real>, k: nat, state: nat): nat
    requires values != []
  {
    if k == 0 then 0 else
      var next := Step(Draws(values, k - 1, state).1);
      EvenDraws(values, k - 1, state) + (if next % |values| % 2 == 0 then 1 else 0)
  }

  /** Of an even number of values every two draws take one even and one odd place. */
  lemma {:induction false} HalfTheDrawsAreEven(values: seq<real>, k: nat, state: nat)
    requires values != [] && |values| % 2 == 0
    ensures EvenDraws(values, 2 * k, state) == k
  {
    hide Step;
    if k > 0 {
      HalfTheDrawsAreEven(values, k - 1, state);
      var s := Draws(values, 2 * k - 2, state).1;
      ParityAlternates(s);
      ParityAlternates(Step(s));
      IndexParity(Step(s), |values|);
      IndexParity(Step(Step(s)), |values|);
      assert Draws(values, 2 * k - 1, state).1 == Step(s);
      assert EvenDraws(values, 2 * k - 1, state)
        == k - 1 + (if Step(s) % |values| % 2 == 0 then 1 else 0);
    }
  }

  // ---------------------------------------------------------------- two values

  lemma DrawsOfTwo(values: seq<real>, state: nat)
    requires |values| == 2
    ensures Draws(values, 2, state).0 == values[0] + values[1]
  {
    hide Step;
    var s := Step(state);
    ParityAlternates(s);
    assert Draws(values, 0, state) == (0.0, state);
    assert Draws(values, 1, state) == (values[s % 2], s);
    assert Draws(values, 2, state).0 == values[s % 2] + values[Step(s) % 2];
  }

  lemma {:induction false} MeansOfTwo(values: seq<real>, k: nat, state: nat)
    requires |values| == 2
    ensures forall x :: x in Means(values, k, state).0 ==> x == (values[0] + values[1]) / 2.0
  {
    hide Draws;
    if k > 0 {
      MeansOfTwo(values, k - 1, state);
      DrawsOfTwo(values, Means(values, k - 1, state).1);
    }
  }

  /** The interval of two values has no width: as the lowest bit alternates, every resample holds each
      of them once. */
  lemma TwoValuesCollapse(values: seq<real>, level: real, iterations: int, seed: int)
    requires |values| == 2 && 0.0 <= level <= 1.0 && iterations >= 1
    ensures var mean := (values[0] + values[1]) / 2.0;
            Interval(values, level, iterations, seed) == Some(CI(mean, mean, mean, level))
  {
    hide Means, Percentile, Quantile;
    var mean := (values[0] + values[1]) / 2.0;
    var s := SortedMeans(values, iterations, seed);
    MeansOfTwo(values, Rounds(iterations), seed % 0x1_0000_0000);
    MeansCount(values, iterations, seed);
    SortFacts(Means(values, Rounds(iterations), seed % 0x1_0000_0000).0, RealLe);
    TotalOfTwo(values);
    PercentileIsQuantile(s, Tail(level));
    PercentileIsQuantile(s, 1.0 - Tail(level));
    QuantileInRange(s, Tail(level), mean, mean);
    QuantileInRange(s, 1.0 - Tail(level), mean, mean);
  }

  lemma TotalOfTwo(values: seq<real>)
    requires |values| == 2
    ensures Total(values) == values[0] + values[1]
  {
    assert values[..1][..0] == [];
    assert Total(values[..1]) == 0.0 + values[0];
  }

  // ---------------------------------------------------------------- percentiles

  /** At the place of a value the percentile is that value, and between two places it goes from one to
      the other in proportion. */
  lemma QuantileAtPlace(s: seq<real>, k: nat, part: real, q: real)
    requires k + 1 < |s| && 0.0 <= part < 1.0 && 0.0 <= q <= 1.0 && q * (|s| as real - 1.0) == k as real + part
    ensures Quantile(s, q) == s[k] + part * (s[k + 1] - s[k])
  {
    PositionBounds(|s| as real - 1.0, q, q);
    var pos := Position(|s| as real - 1.0, q);
    assert pos == k as real + part;
    assert pos.Floor == k;
    MixIsAffine(s[k], s[k + 1], part);
  }

  lemma MixIsAffine(a: real, b: real, f: real)
    ensures Mix(a, b, f) == a + f * (b - a)
  {
  }

  /** The percentiles at 0 and at 1 are the ends of the list. */
  lemma QuantileEnds(s: seq<real>)
    requires s != []
    ensures Quantile(s, 0.0) == s[0] && Quantile(s, 1.0) == s[|s| - 1]
  {
    if |s| > 1 {
      QuantileAtPlace(s, 0, 0.0, 0.0);
    }
  }

  /** At level 1 the interval is the whole range of the resampled means, and at level 0 it is one point,
      their middle. */
  lemma ExtremeLevels(values: seq<real>, iterations: int, seed: int)
    requires |values| > 1 && iterations >= 1
    ensures var s := SortedMeans(values, iterations, seed);
            var full, none := Interval(values, 1.0, iterations, seed), Interval(values, 0.0, iterations, seed);
            && |s| == Rounds(iterations) && full.Some? && full.value.low == s[0] && full.value.high == s[|s| - 1]
            && none.Some? && none.value.low == none.value.high == Quantile(s, 0.5)
  {
    hide SortedMeans, Percentile, Quantile, Total;
    var s := SortedMeans(values, iterations, seed);
    MeansCount(values, iterations, seed);
    QuantileEnds(s);
    PercentileIsQuantile(s, 0.0);
    PercentileIsQuantile(s, 1.0);
    PercentileIsQuantile(s, 0.5);
    assert Tail(1.0) == 0.0 && Tail(0.0) == 0.5;
  }

  // ---------------------------------------------------------------- seeds

  lemma StepIgnoresHighBits(s: nat, t: nat)
    requires s % 0x8000_0000 == t % 0x8000_0000
    ensures Step(s) == Step(t)
  {
    var a, b := s / 0x8000_0000, t / 0x8000_0000;
    assert s - t == (a - b) * 0x8000_0000;
    hide Step;
    var k := StepIsRest(s);
    var l := StepIsRest(t);
    assert Step(s) - Step(t) == (1103515245 * (a - b) - k + l) * 0x8000_0000;
  }

  lemma {:induction false} DrawsIgnoreHighBits(values: seq<real>, k: nat, s: nat, t: nat)
    requires values != [] && s % 0x8000_0000 == t % 0x8000_0000
    ensures Draws(values, k, s).0 == Draws(values, k, t).0
    ensures k > 0 ==> Draws(values, k, s).1 == Draws(values, k, t).1
  {
    hide Step;
    if k > 0 {
      DrawsIgnoreHighBits(values, k - 1, s, t);
      StepIgnoresHighBits(s, t);
    }
  }

  lemma {:induction false} MeansIgnoreHighBits(values: seq<real>, k: nat, s: nat, t: nat)
    requires values != [] && s % 0x8000_0000 == t % 0x8000_0000
    ensures Means(values, k, s).0 == Means(values, k, t).0
    ensures k > 0 ==> Means(values, k, s).1 == Means(values, k, t).1
  {
    hide Draws;
    if k > 0 {
      MeansIgnoreHighBits(values, k - 1, s, t);
      DrawsIgnoreHighBits(values, |values|, s, t);
    }
  }

  /** Only the lowest 31 bits of a seed matter, although 32 are kept. */
  lemma SeedsRepeat(values: seq<real>, level: real, iterations: int, seed: int, other: int)
    requires seed % 0x8000_0000 == other % 0x8000_0000
    ensures Interval(values, level, iterations, seed) == Interval(values, level, iterations, other)
  {
    hide Means, Percentile, Total;
    HighBitOnly(seed);
    HighBitOnly(other);
    if values != [] {
      MeansIgnoreHighBits(values, Rounds(iterations), seed % 0x1_0000_0000, other % 0x1_0000_0000);
    }
  }

  lemma HighBitOnly(seed: int)
    ensures seed % 0x1_0000_0000 % 0x8000_0000 == seed % 0x8000_0000
  {
  }
}

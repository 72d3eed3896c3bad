/** Rank statistics: midranks for the Wilcoxon signed-rank test, and the seeded bootstrap. */
module Stats {
  import opened Ordering
  import opened Wrappers

  // ---------------------------------------------------------------- sums over lists

  function Sum(s: seq<real>, f: real -> real): real {
    if s == [] then 0.0 else Sum(s[..|s| - 1], f) + f(s[|s| - 1])
  }

  lemma {:induction false} SumCongruence(s: seq<real>, f: real -> real, g: real -> real)
    requires forall x :: x in s ==> f(x) == g(x)
    ensures Sum(s, f) == Sum(s, g)
  {
    if s != [] {
      var x := s[|s| - 1];
      assert x in s && f(x) == g(x);
      SumCongruence(s[..|s| - 1], f, g);
    }
  }

  lemma SumAppend(s: seq<real>, x: real, f: real -> real)
    ensures Sum(s + [x], f) == Sum(s, f) + f(x)
  {
    assert (s + [x])[..|s|] == s;
  }

  lemma {:induction false} SumConcat(a: seq<real>, b: seq<real>, f: real -> real)
    ensures Sum(a + b, f) == Sum(a, f) + Sum(b, f)
  {
    if b == [] {
      assert a + b == a;
    } else {
      var n := |b| - 1;
      SumConcat(a, b[..n], f);
      assert a + b == (a + b[..n]) + [b[n]];
      SumAppend(a + b[..n], b[n], f);
    }
  }

  lemma {:induction false} SumSplit(s: seq<real>, f: real -> real, g: real -> real, h: real -> real)
    requires forall x :: x in s ==> f(x) + g(x) == h(x)
    ensures Sum(s, f) + Sum(s, g) == Sum(s, h)
  {
    if s != [] {
      var x := s[|s| - 1];
      assert x in s && f(x) + g(x) == h(x);
      SumSplit(s[..|s| - 1], f, g, h);
    }
  }

  lemma {:induction false} SumConstant(s: seq<real>, f: real -> real, c: real)
    requires forall x :: x in s ==> f(x) == c
    ensures Sum(s, f) == c * (|s| as real)
  {
    if s != [] {
      var x := s[|s| - 1];
      assert x in s && f(x) == c;
      SumConstant(s[..|s| - 1], f, c);
    }
  }

  lemma RemoveFromSum(s: seq<real>, k: nat, f: real -> real)
    requires k < |s|
    ensures Sum(s, f) == Sum(s[..k] + s[k + 1..], f) + f(s[k])
  {
    hide Sum;
    assert s == (s[..k] + [s[k]]) + s[k + 1..];
    SumConcat(s[..k] + [s[k]], s[k + 1..], f);
    SumAppend(s[..k], s[k], f);
    SumConcat(s[..k], s[k + 1..], f);
  }

  /** A sum does not depend on the order of its list. */
  lemma {:induction false} SumOfPermutation(a: seq<real>, b: seq<real>, f: real -> real)
    requires multiset(a) == multiset(b)
    ensures Sum(a, f) == Sum(b, f)
    decreases |a|
  {
    if a == [] {
      MultisetSize(a, b);
    } else {
      var n := |a| - 1;
      var k := PlaceOfLast(a, b);
      SumOfPermutation(a[..n], b[..k] + b[k + 1..], f);
      RemoveFromSum(b, k, f);
    }
  }

  /** Where the last entry is in the other list, and that the rest are the same. */
  lemma PlaceOfLast(a: seq<real>, b: seq<real>) returns (k: nat)
    requires a != [] && multiset(a) == multiset(b)
    ensures k < |b| && b[k] == a[|a| - 1]
    ensures multiset(a[..|a| - 1]) == multiset(b[..k] + b[k + 1..])
  {
    var n := |a| - 1;
    assert a[n] in multiset(b);
    k :| 0 <= k < |b| && b[k] == a[n];
    RemoveMembers(b, k);
    RemoveMembers(a, n);
    assert a[..n] + a[n + 1..] == a[..n];
  }

  // ---------------------------------------------------------------- what a midrank is

  function Abs(x: real): real {
    if x < 0.0 then -x else x
  }

  predicate AbsLe(x: real, y: real) {
    Abs(x) <= Abs(y)
  }

  ghost function Less(v: real): real -> real {
    (x: real) => if Abs(x) < v then 1.0 else 0.0
  }

  ghost function Same(v: real): real -> real {
    (x: real) => if Abs(x) == v then 1.0 else 0.0
  }

  /** The number of smaller absolute values, plus the mean of 1 to the number of equal ones. */
  ghost function MidRank(all: seq<real>, v: real): real {
    Sum(all, Less(v)) + (Sum(all, Same(v)) + 1.0) / 2.0
  }

  lemma MidRankOfPermutation(a: seq<real>, b: seq<real>, v: real)
    requires multiset(a) == multiset(b)
    ensures MidRank(a, v) == MidRank(b, v)
  {
    SumOfPermutation(a, b, Less(v));
    SumOfPermutation(a, b, Same(v));
  }

  ghost function PositiveRank(all: seq<real>): real -> real {
    (x: real) => if x > 0.0 then MidRank(all, Abs(x)) else 0.0
  }

  ghost function NegativeRank(all: seq<real>): real -> real {
    (x: real) => if x < 0.0 then MidRank(all, Abs(x)) else 0.0
  }

  ghost function AnyRank(all: seq<real>): real -> real {
    (x: real) => MidRank(all, Abs(x))
  }

  /** The rank sums of the positive and of the negative entries. */
  ghost function WPlus(deltas: seq<real>): real {
    Sum(deltas, PositiveRank(deltas))
  }

  ghost function WMinus(deltas: seq<real>): real {
    Sum(deltas, NegativeRank(deltas))
  }

  function Min(x: real, y: real): real {
    if y < x then y else x
  }

  ghost function Statistic(deltas: seq<real>): real {
    Min(WPlus(deltas), WMinus(deltas))
  }

  // ---------------------------------------------------------------- laws of the statistic

  /** One entry's share of another's midrank: 1 if smaller, one half if equal. */
  ghost function Share(v: real): real -> real {
    (x: real) => if Abs(x) < v then 1.0 else if Abs(x) == v then 0.5 else 0.0
  }

  lemma MidRankIsShares(all: seq<real>, v: real)
    ensures MidRank(all, v) == Sum(all, Share(v)) + 0.5
  {
    var half := (x: real) => if Abs(x) == v then 0.5 else 0.0;
    SumSplit(all, half, half, Same(v));
    SumSplit(all, Less(v), half, Share(v));
  }

  /** What a new entry v adds to the midrank of x, and x to that of v, is always 1 together. */
  ghost function ShareIn(v: real): real -> real {
    (x: real) => if v < Abs(x) then 1.0 else if v == Abs(x) then 0.5 else 0.0
  }

  lemma MidRankWithOneMore(all: seq<real>, y: real, v: real)
    ensures MidRank(all + [y], v) == MidRank(all, v) + Share(v)(y)
  {
    MidRankIsShares(all, v);
    MidRankIsShares(all + [y], v);
    SumAppend(all, y, Share(v));
  }

  /** One more entry adds n shares to the n midranks there were, and brings its own. */
  lemma RanksWithOneMore(front: seq<real>, y: real)
    ensures var all := front + [y];
            Sum(all, AnyRank(all)) == Sum(front, AnyRank(front)) + (|front| as real) + 1.0
  {
    hide Sum, MidRank;
    var all, v, one := front + [y], Abs(y), (x: real) => 1.0;
    forall x | x in front ensures AnyRank(front)(x) + ShareIn(v)(x) == AnyRank(all)(x) {
      MidRankWithOneMore(front, y, Abs(x));
    }
    SumSplit(front, AnyRank(front), ShareIn(v), AnyRank(all));
    SumSplit(front, ShareIn(v), Share(v), one);
    SumConstant(front, one, 1.0);
    MidRankIsShares(all, v);
    SumAppend(front, y, Share(v));
    SumAppend(front, y, AnyRank(all));
  }

  /** All midranks of n entries add up to n(n+1)/2, ties or not. */
  lemma {:induction false} RanksAddUp(all: seq<real>)
    ensures Sum(all, AnyRank(all)) == (|all| as real) * (|all| as real + 1.0) / 2.0
  {
    hide AnyRank;
    if all != [] {
      var n := |all| - 1;
      assert all == all[..n] + [all[n]];
      RanksAddUp(all[..n]);
      RanksWithOneMore(all[..n], all[n]);
      Triangle(n as real);
    }
  }

  lemma Triangle(m: real)
    ensures m * (m + 1.0) / 2.0 + m + 1.0 == (m + 1.0) * (m + 1.0 + 1.0) / 2.0
  {
  }

  ghost predicate NoZeros(deltas: seq<real>) {
    forall x :: x in deltas ==> x != 0.0
  }

  ghost function ZeroRank(all: seq<real>): real -> real {
    (x: real) => if x == 0.0 then MidRank(all, Abs(x)) else 0.0
  }

  lemma {:induction false} SumAtLeast(s: seq<real>, f: real -> real, y: real)
    requires forall x :: x in s ==> f(x) >= 0.0
    ensures Sum(s, f) >= 0.0
    ensures y in s ==> Sum(s, f) >= f(y)
  {
    if s != [] {
      var front, last := s[..|s| - 1], s[|s| - 1];
      assert s == front + [last];
      assert last in s && f(last) >= 0.0;
      SumAtLeast(front, f, y);
    }
  }

  lemma MidRankIsPositive(all: seq<real>, v: real)
    ensures MidRank(all, v) >= 0.5
  {
    SumAtLeast(all, Less(v), 0.0);
    SumAtLeast(all, Same(v), 0.0);
  }

  /** What the two rank sums leave out is the ranks of the zero entries. */
  lemma RankSumsAndZeros(deltas: seq<real>)
    ensures WPlus(deltas) + WMinus(deltas) + Sum(deltas, ZeroRank(deltas))
      == (|deltas| as real) * (|deltas| as real + 1.0) / 2.0
  {
    hide MidRank, Sum;
    var signed := (x: real) => if x == 0.0 then 0.0 else MidRank(deltas, Abs(x));
    SumSplit(deltas, PositiveRank(deltas), NegativeRank(deltas), signed);
    SumSplit(deltas, signed, ZeroRank(deltas), AnyRank(deltas));
    RanksAddUp(deltas);
  }

  /** The two rank sums share out all the ranks exactly when there is no zero entry; they never
      exceed them, so the statistic is at most half. */
  lemma RankSumsAddUp(deltas: seq<real>)
    ensures WPlus(deltas) + WMinus(deltas) == (|deltas| as real) * (|deltas| as real + 1.0) / 2.0 <==> NoZeros(deltas)
    ensures Statistic(deltas) <= (|deltas| as real) * (|deltas| as real + 1.0) / 4.0
  {
    hide MidRank, Sum, WPlus, WMinus;
    RankSumsAndZeros(deltas);
    forall x ensures ZeroRank(deltas)(x) >= 0.0 && (x == 0.0 ==> ZeroRank(deltas)(x) >= 0.5) {
      MidRankIsPositive(deltas, Abs(x));
    }
    SumAtLeast(deltas, ZeroRank(deltas), 0.0);
    if NoZeros(deltas) {
      SumConstant(deltas, ZeroRank(deltas), 0.0);
    }
  }

  lemma {:induction false} SumGrows(s: seq<real>, f: real -> real, g: real -> real, y: real)
    requires forall x :: f(x) <= g(x)
    ensures Sum(s, f) <= Sum(s, g)
    ensures y in s && f(y) < g(y) ==> Sum(s, f) < Sum(s, g)
  {
    if s != [] {
      var front, last := s[..|s| - 1], s[|s| - 1];
      assert s == front + [last];
      SumGrows(front, f, g, y);
    }
  }

  /** Larger absolute values have larger ranks. */
  lemma RanksFollowSize(all: seq<real>, x: real, v: real)
    requires x in all && Abs(x) < v
    ensures MidRank(all, Abs(x)) < MidRank(all, v)
  {
    hide MidRank, Sum;
    MidRankIsShares(all, Abs(x));
    MidRankIsShares(all, v);
    SumGrows(all, Share(Abs(x)), Share(v), x);
  }

  /** The statistic is the smaller of the two rank sums, neither of which is negative. */
  lemma StatisticIsSmaller(deltas: seq<real>)
    ensures 0.0 <= Statistic(deltas) <= WPlus(deltas) && Statistic(deltas) <= WMinus(deltas)
    ensures Statistic(deltas) == WPlus(deltas) || Statistic(deltas) == WMinus(deltas)
  {
    hide MidRank, Sum;
    SideIsZeroIff(deltas, PositiveRank(deltas), (x: real) => x > 0.0);
    SideIsZeroIff(deltas, NegativeRank(deltas), (x: real) => x < 0.0);
  }

  /** A rank sum is zero exactly when no entry has its sign. */
  lemma SideIsZeroIff(deltas: seq<real>, f: real -> real, side: real -> bool)
    requires forall x :: f(x) == if side(x) then MidRank(deltas, Abs(x)) else 0.0
    ensures Sum(deltas, f) >= 0.0
    ensures Sum(deltas, f) == 0.0 <==> forall x :: x in deltas ==> !side(x)
  {
    hide MidRank, Sum;
    forall x ensures f(x) >= 0.0 && (side(x) ==> f(x) >= 0.5) {
      MidRankIsPositive(deltas, Abs(x));
    }
    SumAtLeast(deltas, f, 0.0);
    if x :| x in deltas && side(x) {
      SumAtLeast(deltas, f, x);
    } else {
      SumConstant(deltas, f, 0.0);
    }
  }

  /** Without zeros the statistic is zero exactly when all deltas have one sign. */
  lemma StatisticIsZeroIff(deltas: seq<real>)
    requires NoZeros(deltas)
    ensures Statistic(deltas) == 0.0
      <==> (forall x :: x in deltas ==> x > 0.0) || (forall x :: x in deltas ==> x < 0.0)
  {
    hide MidRank, Sum;
    SideIsZeroIff(deltas, PositiveRank(deltas), (x: real) => x > 0.0);
    SideIsZeroIff(deltas, NegativeRank(deltas), (x: real) => x < 0.0);
  }

  /** The statistic does not depend on the order of the deltas. */
  lemma StatisticOfPermutation(a: seq<real>, b: seq<real>)
    requires multiset(a) == multiset(b)
    ensures WPlus(a) == WPlus(b) && WMinus(a) == WMinus(b) && Statistic(a) == Statistic(b)
  {
    forall v ensures MidRank(a, v) == MidRank(b, v) {
      MidRankOfPermutation(a, b, v);
    }
    SumCongruence(a, PositiveRank(a), PositiveRank(b));
    SumCongruence(a, NegativeRank(a), NegativeRank(b));
    SumOfPermutation(a, b, PositiveRank(b));
    SumOfPermutation(a, b, NegativeRank(b));
  }

  function Negate(s: seq<real>): seq<real> {
    if s == [] then [] else Negate(s[..|s| - 1]) + [-s[|s| - 1]]
  }

  lemma {:induction false} SumOfNegated(s: seq<real>, f: real -> real, g: real -> real)
    requires forall x :: f(-x) == g(x)
    ensures Sum(Negate(s), f) == Sum(s, g)
  {
    if s != [] {
      SumOfNegated(s[..|s| - 1], f, g);
      SumAppend(Negate(s[..|s| - 1]), -s[|s| - 1], f);
    }
  }

  lemma MidRankOfNegated(s: seq<real>, v: real)
    ensures MidRank(Negate(s), v) == MidRank(s, v)
  {
    hide Sum;
    SumOfNegated(s, Less(v), Less(v));
    SumOfNegated(s, Same(v), Same(v));
  }

  /** Negating every delta swaps the two rank sums, and leaves the statistic alone. */
  lemma NegationSwaps(deltas: seq<real>)
    ensures WPlus(Negate(deltas)) == WMinus(deltas) && WMinus(Negate(deltas)) == WPlus(deltas)
    ensures Statistic(Negate(deltas)) == Statistic(deltas)
  {
    hide Sum, MidRank;
    forall v ensures MidRank(Negate(deltas), v) == MidRank(deltas, v) {
      MidRankOfNegated(deltas, v);
    }
    SumOfNegated(deltas, PositiveRank(Negate(deltas)), NegativeRank(deltas));
    SumOfNegated(deltas, NegativeRank(Negate(deltas)), PositiveRank(deltas));
  }

  // ---------------------------------------------------------------- the nested tie loop

  /** In a list sorted by absolute value, a block of ties has as many smaller entries as there
      are before it. */
  lemma BlockCounts(s: seq<real>, i: nat, j: nat)
    requires Sorted(s, AbsLe) && i <= j < |s|
    requires i > 0 ==> Abs(s[i - 1]) < Abs(s[i])
    requires forall k :: i <= k <= j ==> Abs(s[k]) == Abs(s[i])
    requires j + 1 < |s| ==> Abs(s[j + 1]) != Abs(s[i])
    ensures MidRank(s, Abs(s[i])) == ((i + 1 + j + 1) as real) / 2.0
  {
    hide MidRank, AbsLe;
    var v := Abs(s[i]);
    var low, mid, high := s[..i], s[i..j + 1], s[j + 1..];
    assert s == low + mid + high;
    SmallerBefore(s, i);
    if j + 1 < |s| { LargerAfter(s, i, j + 1); }
    CountsOfParts(low, mid, high, v);
  }

  lemma CountsOfParts(low: seq<real>, mid: seq<real>, high: seq<real>, v: real)
    requires forall x :: x in low ==> Abs(x) < v
    requires forall x :: x in mid ==> Abs(x) == v
    requires forall x :: x in high ==> Abs(x) > v
    ensures MidRank(low + mid + high, v) == (|low| as real) + ((|mid| as real) + 1.0) / 2.0
  {
    hide Sum;
    ThreeParts(low, mid, high, Less(v), 1.0, 0.0, 0.0);
    ThreeParts(low, mid, high, Same(v), 0.0, 1.0, 0.0);
  }

  lemma SmallerBefore(s: seq<real>, i: nat)
    requires Sorted(s, AbsLe) && i < |s| && (i > 0 ==> Abs(s[i - 1]) < Abs(s[i]))
    ensures forall x :: x in s[..i] ==> Abs(x) < Abs(s[i])
  {
    forall k | 0 <= k < i ensures Abs(s[k]) < Abs(s[i]) {
      assert k == i - 1 || AbsLe(s[k], s[i - 1]);
    }
  }

  lemma LargerAfter(s: seq<real>, i: nat, j: nat)
    requires Sorted(s, AbsLe) && i < j < |s| && Abs(s[j]) != Abs(s[i])
    ensures forall x :: x in s[j..] ==> Abs(x) > Abs(s[i])
  {
    assert AbsLe(s[i], s[j]);
    forall k | j <= k < |s| ensures Abs(s[k]) > Abs(s[i]) {
      assert k == j || AbsLe(s[j], s[k]);
    }
  }

  lemma ThreeParts(a: seq<real>, b: seq<real>, c: seq<real>, f: real -> real, x: real, y: real, z: real)
    requires forall e :: e in a ==> f(e) == x
    requires forall e :: e in b ==> f(e) == y
    requires forall e :: e in c ==> f(e) == z
    ensures Sum(a + b + c, f) == x * (|a| as real) + y * (|b| as real) + z * (|c| as real)
  {
    SumConcat(a + b, c, f);
    SumConcat(a, b, f);
    SumConstant(a, f, x);
    SumConstant(b, f, y);
    SumConstant(c, f, z);
  }

  /** Ranks of a list sorted by absolute value, filled in block by block of ties. */
  method MidRanks(s: seq<real>) returns (ranks: array<real>)
    requires Sorted(s, AbsLe)
    ensures ranks.Length == |s| && forall k :: 0 <= k < |s| ==> ranks[k] == MidRank(s, Abs(s[k]))
  {
    hide MidRank;
    ranks := new real[|s|](_ => 0.0);
    var i := 0;
    while i < |s|
      invariant 0 <= i <= |s|
      invariant 0 < i < |s| ==> Abs(s[i - 1]) < Abs(s[i])
      invariant forall k :: 0 <= k < i ==> ranks[k] == MidRank(s, Abs(s[k]))
    {
      var j := i;
      while j + 1 < |s| && Abs(s[j + 1]) == Abs(s[i])
        invariant i <= j < |s|
        invariant forall k :: i <= k <= j ==> Abs(s[k]) == Abs(s[i])
        decreases |s| - j
      {
        j := j + 1;
      }
      BlockCounts(s, i, j);
      var avgRank := ((i + 1 + j + 1) as real) / 2.0;
      for k := i to j + 1
        invariant forall l :: 0 <= l < k ==> ranks[l] == MidRank(s, Abs(s[l]))
      {
        ranks[k] := avgRank;
      }
      assert j + 1 < |s| ==> AbsLe(s[j], s[j + 1]);
      i := j + 1;
    }
  }

  lemma RankSumStep(s: seq<real>, k: nat)
    requires k < |s|
    ensures Sum(s[..k + 1], PositiveRank(s))
      == Sum(s[..k], PositiveRank(s)) + (if s[k] > 0.0 then MidRank(s, Abs(s[k])) else 0.0)
    ensures Sum(s[..k + 1], NegativeRank(s))
      == Sum(s[..k], NegativeRank(s)) + (if s[k] < 0.0 then MidRank(s, Abs(s[k])) else 0.0)
  {
    hide MidRank, Sum;
    assert s[..k + 1] == s[..k] + [s[k]];
    SumAppend(s[..k], s[k], PositiveRank(s));
    SumAppend(s[..k], s[k], NegativeRank(s));
  }

  /** The rank sums of a list already sorted by absolute value. */
  method RankSums(s: seq<real>) returns (wPlus: real, wMinus: real)
    requires Sorted(s, AbsLe)
    ensures wPlus == WPlus(s) && wMinus == WMinus(s)
  {
    hide MidRank, Sum, PositiveRank, NegativeRank, Abs, AbsLe;
    var ranks := MidRanks(s);
    wPlus, wMinus := 0.0, 0.0;
    NothingSummed(PositiveRank(s));
    NothingSummed(NegativeRank(s));
    for k := 0 to |s|
      invariant wPlus == Sum(s[..k], PositiveRank(s)) && wMinus == Sum(s[..k], NegativeRank(s))
      invariant forall l :: 0 <= l < |s| ==> ranks[l] == MidRank(s, Abs(s[l]))
    {
      RankSumStep(s, k);
      if s[k] > 0.0 {
        wPlus := wPlus + ranks[k];
      }
      if s[k] < 0.0 {
        wMinus := wMinus + ranks[k];
      }
    }
    assert s[..|s|] == s;
  }

  /** The statistic of the rank test. */
  method WilcoxonStatistic(deltas: seq<real>) returns (statistic: real)
    ensures statistic == Statistic(deltas)
  {
    hide WPlus, WMinus;
    var s := Sort(deltas, AbsLe);
    SortFacts(deltas, AbsLe);
    var wPlus, wMinus := RankSums(s);
    StatisticOfPermutation(deltas, s);
    statistic := Min(wPlus, wMinus);
  }

  lemma NothingSummed(f: real -> real)
    ensures Sum([], f) == 0.0
  {
  }

  datatype Source = Degenerate | SciPy | NormalApprox

  datatype WilcoxonResult = WilcoxonResult(statistic: real, pvalue: real, n: nat, source: Source)

  ghost function NonZero(deltas: seq<real>): seq<real> {
    Filter(deltas, (d: real) => d != 0.0)
  }

  /** Exactly the zeros are dropped. */
  lemma {:induction false} OnlyZerosDropped(deltas: seq<real>, x: real)
    ensures multiset(NonZero(deltas))[x] == if x == 0.0 then 0 else multiset(deltas)[x]
  {
    if deltas != [] {
      OnlyZerosDropped(deltas[1..], x);
      assert deltas == [deltas[0]] + deltas[1..];
    }
  }

  /** Zero differences are dropped first; without any other there is nothing to rank. `scipy` is what
      the library answers, None if it is absent or fails, and `normal` the p-value of a statistic. */
  method WilcoxonSignedRank(deltas: seq<real>, scipy: seq<real> -> Option<(real, real)>, normal: (real, nat) -> real)
    returns (result: WilcoxonResult)
    ensures var nonzero := NonZero(deltas);
            result == if nonzero == [] then WilcoxonResult(0.0, 1.0, 0, Degenerate)
                      else if scipy(nonzero).Some?
                      then WilcoxonResult(scipy(nonzero).value.0, scipy(nonzero).value.1, |nonzero|, SciPy)
                      else WilcoxonResult(Statistic(nonzero), normal(Statistic(nonzero), |nonzero|), |nonzero|,
                                          NormalApprox)
    ensures result.source != SciPy ==> result.statistic <= (result.n as real) * (result.n as real + 1.0) / 4.0
  {
    hide Statistic;
    var nonzero := Filter(deltas, (d: real) => d != 0.0);
    if nonzero == [] {
      return WilcoxonResult(0.0, 1.0, 0, Degenerate);
    }
    var answer := scipy(nonzero);
    if answer.Some? {
      return WilcoxonResult(answer.value.0, answer.value.1, |nonzero|, SciPy);
    }
    RankSumsAddUp(nonzero);
    var statistic := WilcoxonStatistic(nonzero);
    result := WilcoxonResult(statistic, normal(statistic, |nonzero|), |nonzero|, NormalApprox);
  }
}

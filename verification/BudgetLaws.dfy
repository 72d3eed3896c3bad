/** What a plan means in the caller's terms: tokens, values and ids, not costs. */
module BudgetLaws {
  import opened Ordering
  import opened Reals
  import opened Budget

  function Tokens(pack: seq<BudgetItem>): int {
    if pack == [] then 0 else Tokens(pack[..|pack| - 1]) + pack[|pack| - 1].tokens
  }

  ghost function Free(pack: seq<BudgetItem>): nat {
    if pack == [] then 0 else Free(pack[..|pack| - 1]) + (if pack[|pack| - 1].tokens == 0 then 1 else 0)
  }

  ghost predicate NoneNegative(pack: seq<BudgetItem>) {
    forall x :: x in pack ==> x.tokens >= 0
  }

  /** A pack weighs its tokens, and one for every item that has none. */
  lemma {:induction false} WeightIsTokens(pack: seq<BudgetItem>)
    requires NoneNegative(pack)
    ensures Weight(pack) == Tokens(pack) + Free(pack)
  {
    if pack != [] {
      var n := |pack| - 1;
      assert pack[n] in pack;
      WeightIsTokens(pack[..n]);
    }
  }

  lemma {:induction false} NothingFree(pack: seq<BudgetItem>)
    ensures (forall x :: x in pack ==> x.tokens != 0) ==> Free(pack) == 0
    ensures (forall x :: x in pack ==> x.tokens == 0) ==> Free(pack) == |pack| && Tokens(pack) == 0
  {
    if pack != [] {
      var n := |pack| - 1;
      assert pack[n] in pack;
      NothingFree(pack[..n]);
    }
  }

  lemma PackOfEligible(pack: seq<BudgetItem>, items: seq<BudgetItem>)
    requires PackOf(pack, Eligible(items))
    ensures NoneNegative(pack)
  {
    MembersOfPack(pack, Eligible(items));
  }

  /** A choice among the items, each used once, of which none has negative tokens. */
  ghost predicate ChosenFrom(pack: seq<BudgetItem>, items: seq<BudgetItem>) {
    NoneNegative(pack) && multiset(pack) <= multiset(items)
  }

  lemma {:induction false} EligibleCounts(items: seq<BudgetItem>, x: BudgetItem)
    ensures multiset(Eligible(items))[x] == if x.tokens >= 0 then multiset(items)[x] else 0
  {
    if items != [] {
      EligibleCounts(items[1..], x);
      assert items == [items[0]] + items[1..];
    }
  }

  lemma ChosenIsPack(pack: seq<BudgetItem>, items: seq<BudgetItem>)
    requires ChosenFrom(pack, items)
    ensures PackOf(pack, Eligible(items))
  {
    forall x ensures multiset(pack)[x] <= multiset(Eligible(items))[x] {
      EligibleCounts(items, x);
      if multiset(pack)[x] > 0 { assert x in pack; }
    }
  }

  /** On a moderate instance no choice of items whose tokens, with one for each that has none, sum to at
      most the budget is worth more than the plan. */
  lemma PlanBeatsTokens(items: seq<BudgetItem>, budget: nat, plan: BudgetPlan, other: seq<BudgetItem>)
    requires OptimalPlan(Eligible(items), budget, plan)
    requires ChosenFrom(other, items) && Tokens(other) + Free(other) <= budget
    ensures Value(other) <= plan.totalValue
  {
    hide Eligible, Value, Weight;
    ChosenIsPack(other, items);
    WeightIsTokens(other);
  }

  ghost predicate ReportedBy(plan: BudgetPlan, pack: seq<BudgetItem>) {
    plan.chosen == Ids(pack) && plan.totalTokens == Tokens(pack) + Free(pack) && plan.totalValue == Value(pack)
  }

  /** With distinct ids the plan names items it may choose, reports what they are worth and the tokens
      they have, one for each that has none, and stays within the budget. */
  lemma PlanReportsTokens(items: seq<BudgetItem>, budget: nat, plan: BudgetPlan)
    requires OptimalPlan(Eligible(items), budget, plan) || GreedyPlan(Eligible(items), budget, plan)
    requires forall i, j :: 0 <= i < j < |items| ==> items[i].id != items[j].id
    ensures exists pack :: ReportedBy(plan, pack) && ChosenFrom(pack, items) && plan.totalTokens <= budget
  {
    hide Value, Weight, Ids, GreedyPack, Beats;
    EligibleNamesCosts(items);
    var pack: seq<BudgetItem>;
    if OptimalPlan(Eligible(items), budget, plan) {
      pack :| Names(Eligible(items), budget, plan, pack) && plan.totalTokens == Weight(pack);
    } else {
      pack := GreedyPack(Sort(Eligible(items), DensityLe), budget);
    }
    PackOfEligible(pack, items);
    WeightIsTokens(pack);
    EligibleIsPart(items, pack);
    assert ReportedBy(plan, pack);
  }

  lemma EligibleNamesCosts(items: seq<BudgetItem>)
    requires forall i, j :: 0 <= i < j < |items| ==> items[i].id != items[j].id
    ensures IdsNameCosts(Eligible(items))
  {
    forall x, y | x in Eligible(items) && y in Eligible(items) && x.id == y.id ensures x == y {
      assert x in items && y in items;
    }
  }

  lemma EligibleIsPart(items: seq<BudgetItem>, pack: seq<BudgetItem>)
    requires PackOf(pack, Eligible(items))
    ensures multiset(pack) <= multiset(items)
  {
    forall x ensures multiset(pack)[x] <= multiset(items)[x] {
      EligibleCounts(items, x);
      assert multiset(pack)[x] <= multiset(Eligible(items))[x];
    }
  }

  /** What an item is charged in tokens. */
  ghost function Charge(x: BudgetItem): real {
    if x.tokens > 0 then x.tokens as real else 1.0
  }

  /** Worth more per token, compared crosswise, or as much and of a smaller id. */
  ghost predicate ComesFirst(x: BudgetItem, y: BudgetItem) {
    || x.value * Charge(y) > y.value * Charge(x)
    || (x.value * Charge(y) == y.value * Charge(x) && TextLe(x.id, y.id))
  }

  /** The greedy looks at items by what each token is worth, then by id. */
  lemma GreedyOrder(items: seq<BudgetItem>, i: nat, j: nat)
    requires i < j < |items|
    ensures ComesFirst(Sort(items, DensityLe)[i], Sort(items, DensityLe)[j])
  {
    hide DensityLe, ComesFirst;
    DensityLeIsPreorder();
    SortFacts(items, DensityLe);
    DensityCrosswise(Sort(items, DensityLe)[i], Sort(items, DensityLe)[j]);
  }

  lemma DensityCrosswise(x: BudgetItem, y: BudgetItem)
    requires DensityLe(x, y)
    ensures ComesFirst(x, y)
  {
    var a, b := Charge(x), Charge(y);
    var p, q := Density(x), Density(y);
    assert p == x.value / a && q == y.value / b;
    Quotient(p, x.value, a);
    Quotient(q, y.value, b);
    hide Density, TextLe, Charge;
    Crosswise(p, q, a, b, x.value, y.value);
  }

  lemma Quotient(p: real, u: real, a: real)
    requires a > 0.0 && p == u / a
    ensures p * a == u
  {
    QuotientTimes(u, a);
  }

  lemma Crosswise(p: real, q: real, a: real, b: real, u: real, v: real)
    requires a > 0.0 && b > 0.0 && u == p * a && v == q * b
    ensures p > q ==> u * b > v * a
    ensures p == q ==> u * b == v * a
  {
    var ub, va := u * b, v * a;
    assert ub == (p * a) * b && va == (q * b) * a;
    PositiveProduct(a, b);
    if p > q {
      var d := p - q;
      PositiveProduct(d, a * b);
      assert (p * a) * b == (q * b) * a + d * (a * b);
    }
  }
}

/** The prompt budget optimizer: an exact 0/1 knapsack computed in place, and the
    value-density greedy used when the instance is too large for it. */
module Budget {
  import opened Ordering
  import opened Reals

  datatype BudgetItem = BudgetItem(id: string, value: real, tokens: int)
  datatype BudgetPlan = BudgetPlan(chosen: seq<string>, totalValue: real, totalTokens: int)

  /** Every item is charged at least one token. */
  function Cost(item: BudgetItem): (c: nat)
    ensures c >= 1 && c >= item.tokens
  {
    if item.tokens > 1 then item.tokens else 1
  }

  function Ids(pack: seq<BudgetItem>): seq<string> {
    if pack == [] then [] else Ids(pack[..|pack| - 1]) + [pack[|pack| - 1].id]
  }

  function Value(pack: seq<BudgetItem>): real {
    if pack == [] then 0.0 else Value(pack[..|pack| - 1]) + pack[|pack| - 1].value
  }

  function Weight(pack: seq<BudgetItem>): nat {
    if pack == [] then 0 else Weight(pack[..|pack| - 1]) + Cost(pack[|pack| - 1])
  }

  /** A pack uses each listed item at most as often as it is offered. */
  ghost predicate PackOf(pack: seq<BudgetItem>, items: seq<BudgetItem>) {
    multiset(pack) <= multiset(items)
  }

  /** Items that share an id cost the same; distinct ids are the usual case. */
  ghost predicate IdsNameCosts(items: seq<BudgetItem>) {
    forall x, y :: x in items && y in items && x.id == y.id ==> Cost(x) == Cost(y)
  }

  ghost predicate NonNegative(items: seq<BudgetItem>) {
    forall x :: x in items ==> x.value >= 0.0
  }

  /** The plan is a pack within budget that no other pack within budget beats; its tokens are
      what it uses if ids name costs. */
  ghost predicate OptimalPlan(items: seq<BudgetItem>, budget: int, plan: BudgetPlan) {
    exists pack :: Names(items, budget, plan, pack) && Beats(items, budget, pack)
      && (IdsNameCosts(items) ==> plan.totalTokens == Weight(pack))
  }

  ghost predicate Beats(items: seq<BudgetItem>, budget: int, pack: seq<BudgetItem>) {
    forall other :: PackOf(other, items) && Weight(other) <= budget ==> Value(other) <= Value(pack)
  }

  /** The plan names this pack, which fits, and its value. */
  ghost predicate Names(items: seq<BudgetItem>, budget: int, plan: BudgetPlan, pack: seq<BudgetItem>) {
    && PackOf(pack, items) && Weight(pack) <= budget
    && plan.chosen == Ids(pack) && plan.totalValue == Value(pack)
  }

  /** It reports the tokens used too. */
  ghost predicate Packs(items: seq<BudgetItem>, budget: int, plan: BudgetPlan, pack: seq<BudgetItem>) {
    Names(items, budget, plan, pack) && plan.totalTokens == Weight(pack)
  }

  // ---------------------------------------------------------------- packs

  lemma Extend(pack: seq<BudgetItem>, x: BudgetItem)
    ensures Value(pack + [x]) == Value(pack) + x.value
    ensures Weight(pack + [x]) == Weight(pack) + Cost(x)
    ensures Ids(pack + [x]) == Ids(pack) + [x.id]
  {
    assert (pack + [x])[..|pack|] == pack;
  }

  lemma {:induction false} RemoveTotals(pack: seq<BudgetItem>, k: nat)
    requires k < |pack|
    ensures Value(pack[..k] + pack[k + 1..]) == Value(pack) - pack[k].value
    ensures Weight(pack[..k] + pack[k + 1..]) == Weight(pack) - Cost(pack[k])
  {
    var n := |pack| - 1;
    if k == n {
      assert pack[..k] + pack[k + 1..] == pack[..n];
    } else {
      RemoveTotals(pack[..n], k);
      var front := pack[..n][..k] + pack[..n][k + 1..];
      assert pack[..k] + pack[k + 1..] == front + [pack[n]];
      Extend(front, pack[n]);
    }
  }

  /** Dropping one copy of the last offered item leaves a pack of the others. */
  lemma DropLast(pack: seq<BudgetItem>, items: seq<BudgetItem>, k: nat)
    requires items != [] && PackOf(pack, items) && k < |pack| && pack[k] == items[|items| - 1]
    ensures PackOf(pack[..k] + pack[k + 1..], items[..|items| - 1])
  {
    RemoveMembers(pack, k);
    assert items == items[..|items| - 1] + [pack[k]];
  }

  lemma SkipLast(pack: seq<BudgetItem>, items: seq<BudgetItem>)
    requires items != [] && PackOf(pack, items) && items[|items| - 1] !in pack
    ensures PackOf(pack, items[..|items| - 1])
  {
    assert items == items[..|items| - 1] + [items[|items| - 1]];
    assert items[|items| - 1] !in multiset(pack);
  }

  lemma PackOfNothing(pack: seq<BudgetItem>)
    requires PackOf(pack, [])
    ensures pack == []
  {
    assert |multiset(pack)| == 0;
  }

  // ---------------------------------------------------------------- exact knapsack

  /** The two-dimensional recurrence: the best value from these items with capacity w. */
  ghost function Best(items: seq<BudgetItem>, w: nat): real {
    if items == [] then 0.0 else
      var x, rest := items[|items| - 1], items[..|items| - 1];
      if Cost(x) > w then Best(rest, w) else
        var take := Best(rest, w - Cost(x)) + x.value;
        if take > Best(rest, w) then take else Best(rest, w)
  }

  /** The items behind Best: the last item is taken only if it strictly improves. */
  ghost function Pick(items: seq<BudgetItem>, w: nat): seq<BudgetItem> {
    if items == [] then [] else
      var x, rest := items[|items| - 1], items[..|items| - 1];
      if Cost(x) <= w && Best(rest, w - Cost(x)) + x.value > Best(rest, w)
      then Pick(rest, w - Cost(x)) + [x]
      else Pick(rest, w)
  }

  /** The last item is either left out or added to a pack of the others. */
  lemma PickCases(items: seq<BudgetItem>, w: nat)
    requires items != []
    ensures var x, rest := items[|items| - 1], items[..|items| - 1];
            || (Pick(items, w) == Pick(rest, w) && Best(items, w) == Best(rest, w))
            || (Cost(x) <= w && Pick(items, w) == Pick(rest, w - Cost(x)) + [x]
                && Best(items, w) == Best(rest, w - Cost(x)) + x.value)
  {
    hide Cost;
  }

  /** The recorded pack achieves the recorded value, and fits. */
  lemma {:induction false} PickAchievesBest(items: seq<BudgetItem>, w: nat)
    ensures Value(Pick(items, w)) == Best(items, w)
    ensures Weight(Pick(items, w)) <= w
    decreases |items|
  {
    hide Cost;
    if items != [] {
      PickCases(items, w);
      hide Pick, Best;
      var x, rest := items[|items| - 1], items[..|items| - 1];
      PickAchievesBest(rest, w);
      if Cost(x) <= w {
        PickAchievesBest(rest, w - Cost(x));
        Extend(Pick(rest, w - Cost(x)), x);
      }
    }
  }

  lemma PackWithOneMore(pack: seq<BudgetItem>, rest: seq<BudgetItem>, x: BudgetItem)
    requires PackOf(pack, rest)
    ensures PackOf(pack, rest + [x]) && PackOf(pack + [x], rest + [x])
  {
  }

  /** The recorded pack uses no item twice. */
  lemma {:induction false} PickIsPack(items: seq<BudgetItem>, w: nat)
    ensures PackOf(Pick(items, w), items)
    decreases |items|
  {
    hide PackOf, Cost;
    if items == [] {
      EmptyIsPack();
    } else {
      PickCases(items, w);
      hide Pick;
      var x, rest := items[|items| - 1], items[..|items| - 1];
      assert items == rest + [x];
      PickIsPack(rest, w);
      PackWithOneMore(Pick(rest, w), rest, x);
      if Cost(x) <= w {
        PickIsPack(rest, w - Cost(x));
        PackWithOneMore(Pick(rest, w - Cost(x)), rest, x);
      }
    }
  }

  lemma EmptyIsPack()
    ensures PackOf([], [])
  {
  }

  /** No pack of the items that fits w is worth more than Best. */
  lemma {:induction false} BestIsUpperBound(items: seq<BudgetItem>, w: nat, other: seq<BudgetItem>)
    requires PackOf(other, items) && Weight(other) <= w
    ensures Value(other) <= Best(items, w)
  {
    if items == [] {
      PackOfNothing(other);
    } else {
      var x, rest := items[|items| - 1], items[..|items| - 1];
      if x in other {
        var k :| 0 <= k < |other| && other[k] == x;
        DropLast(other, items, k);
        RemoveTotals(other, k);
        BestIsUpperBound(rest, w - Cost(x), other[..k] + other[k + 1..]);
      } else {
        SkipLast(other, items);
        BestIsUpperBound(rest, w, other);
      }
    }
  }

  /** Ids looked up in the by-id dictionary give back the picked items' costs. */
  function ById(items: seq<BudgetItem>): (m: map<string, BudgetItem>)
    ensures m.Keys == set x | x in items :: x.id
    ensures forall id :: id in m ==> m[id] in items && m[id].id == id
  {
    if items == [] then map[]
    else
      var last := items[|items| - 1];
      assert items == items[..|items| - 1] + [last];
      ById(items[..|items| - 1])[last.id := last]
  }

  function TokensOf(ids: seq<string>, byId: map<string, BudgetItem>): int
    requires forall id :: id in ids ==> id in byId
  {
    if ids == [] then 0
    else TokensOf(ids[..|ids| - 1], byId) + Cost(byId[ids[|ids| - 1]])
  }

  lemma {:induction false} TokensAreWeight(pack: seq<BudgetItem>, items: seq<BudgetItem>)
    requires forall x :: x in pack ==> x in items
    ensures forall id :: id in Ids(pack) ==> id in ById(items)
    ensures IdsNameCosts(items) ==> TokensOf(Ids(pack), ById(items)) == Weight(pack)
  {
    if pack != [] {
      var n := |pack| - 1;
      TokensAreWeight(pack[..n], items);
      assert Ids(pack)[..|Ids(pack)| - 1] == Ids(pack[..n]);
      assert pack[n] in items;
    }
  }

  lemma MembersOfPack(pack: seq<BudgetItem>, items: seq<BudgetItem>)
    requires PackOf(pack, items)
    ensures forall x :: x in pack ==> x in items
  {
    forall x | x in pack ensures x in items { assert x in multiset(pack); }
  }

  /** What the table must hold at capacity v once these items have been considered. */
  ghost predicate Cell(items: seq<BudgetItem>, v: nat, value: real, ids: seq<string>) {
    value == Best(items, v) && ids == Ids(Pick(items, v))
  }

  lemma CellSkips(items: seq<BudgetItem>, n: nat, v: nat, value: real, ids: seq<string>)
    requires n < |items| && Cell(items[..n], v, value, ids)
    requires Cost(items[n]) <= v ==> Best(items[..n], v - Cost(items[n])) + items[n].value <= value
    ensures Cell(items[..n + 1], v, value, ids)
  {
    assert items[..n + 1][..n] == items[..n];
  }

  lemma CellTakes(items: seq<BudgetItem>, n: nat, v: nat, value: real, below: real, belowIds: seq<string>)
    requires n < |items| && Cost(items[n]) <= v
    requires Best(items[..n], v) == value < below + items[n].value
    requires Cell(items[..n], v - Cost(items[n]), below, belowIds)
    ensures Cell(items[..n + 1], v, below + items[n].value, belowIds + [items[n].id])
  {
    assert items[..n + 1][..n] == items[..n];
    Extend(Pick(items[..n], v - Cost(items[n])), items[n]);
  }

  /** One item: both rows are overwritten from high capacity to low, so that the cell a
      candidate is read from does not have the item in it yet. */
  method Consider(items: seq<BudgetItem>, n: nat, best: array<real>, pick: array<seq<string>>)
    requires n < |items| && best.Length == pick.Length >= 1
    requires forall v :: 0 <= v < best.Length ==> Cell(items[..n], v, best[v], pick[v])
    modifies best, pick
    ensures forall v :: 0 <= v < best.Length ==> Cell(items[..n + 1], v, best[v], pick[v])
  {
    hide Cell;
    var item, cost, budget := items[n], Cost(items[n]), best.Length - 1;
    var w := budget;
    while w >= cost
      invariant cost - 1 <= w <= budget || w == budget
      invariant forall v :: w < v <= budget ==> Cell(items[..n + 1], v, best[v], pick[v])
      invariant forall v :: 0 <= v <= w ==> Cell(items[..n], v, best[v], pick[v])
    {
      CellValue(items[..n], w, best[w], pick[w]);
      CellValue(items[..n], w - cost, best[w - cost], pick[w - cost]);
      var cand := best[w - cost] + item.value;
      if cand > best[w] {
        CellTakes(items, n, w, best[w], best[w - cost], pick[w - cost]);
        best[w] := cand;
        pick[w] := pick[w - cost] + [item.id];
      } else {
        CellSkips(items, n, w, best[w], pick[w]);
      }
      w := w - 1;
    }
    forall v | 0 <= v <= w { CellSkips(items, n, v, best[v], pick[v]); }
  }

  lemma CellValue(items: seq<BudgetItem>, v: nat, value: real, ids: seq<string>)
    requires Cell(items, v, value, ids)
    ensures value == Best(items, v) && ids == Ids(Pick(items, v))
  {
  }

  /** The plan the recurrence gives, its tokens read back through the ids. */
  ghost predicate KnapsackPlan(items: seq<BudgetItem>, budget: nat, plan: BudgetPlan) {
    PickedIdsAreKnown(items, budget);
    var ids := Ids(Pick(items, budget));
    plan == BudgetPlan(ids, Best(items, budget), TokensOf(ids, ById(items)))
  }

  /** The in-place dynamic program: one row of values and one row of picks. */
  method Knapsack(items: seq<BudgetItem>, budget: nat) returns (plan: BudgetPlan)
    ensures KnapsackPlan(items, budget, plan) && OptimalPlan(items, budget, plan)
  {
    hide OptimalPlan;
    var best := new real[budget + 1](_ => 0.0);
    var pick := new seq<string>[budget + 1](_ => []);
    for n := 0 to |items|
      invariant forall v :: 0 <= v <= budget ==> Cell(items[..n], v, best[v], pick[v])
    {
      Consider(items, n, best, pick);
    }
    assert items[..|items|] == items;
    CellValue(items, budget, best[budget], pick[budget]);
    var chosen := pick[budget];
    PickedIdsAreKnown(items, budget);
    plan := BudgetPlan(chosen, best[budget], TokensOf(chosen, ById(items)));
    PickIsOptimal(items, budget, plan);
  }

  lemma PickedIdsAreKnown(items: seq<BudgetItem>, w: nat)
    ensures forall id :: id in Ids(Pick(items, w)) ==> id in ById(items)
    ensures IdsNameCosts(items) ==> TokensOf(Ids(Pick(items, w)), ById(items)) == Weight(Pick(items, w))
  {
    PickIsPack(items, w);
    MembersOfPack(Pick(items, w), items);
    TokensAreWeight(Pick(items, w), items);
  }

  lemma PickIsOptimal(items: seq<BudgetItem>, budget: nat, plan: BudgetPlan)
    requires KnapsackPlan(items, budget, plan)
    ensures OptimalPlan(items, budget, plan)
    ensures Names(items, budget, plan, Pick(items, budget))
  {
    hide Pick, Best, TokensOf;
    var pack := Pick(items, budget);
    PickedIdsAreKnown(items, budget);
    PickAchievesBest(items, budget);
    PickIsPack(items, budget);
    forall other | PackOf(other, items) && Weight(other) <= budget ensures Value(other) <= Value(pack) {
      BestIsUpperBound(items, budget, other);
    }
    assert Names(items, budget, plan, pack) && Beats(items, budget, pack);
  }

  /** With distinct ids the plan is a best pack, and reports its tokens exactly. */
  lemma DistinctIdsAreExact(items: seq<BudgetItem>, budget: nat, plan: BudgetPlan)
    requires KnapsackPlan(items, budget, plan)
    requires forall i, j :: 0 <= i < j < |items| ==> items[i].id != items[j].id
    ensures exists pack :: Packs(items, budget, plan, pack) && Beats(items, budget, pack)
  {
    hide Names, Beats;
    PickIsOptimal(items, budget, plan);
    assert IdsNameCosts(items);
  }

  /** The plan for these items reports what the picked items cost. */
  ghost predicate TokensAreRight(items: seq<BudgetItem>, w: nat) {
    PickedIdsAreKnown(items, w);
    TokensOf(Ids(Pick(items, w)), ById(items)) == Weight(Pick(items, w))
  }

  /** The same ids and costs at other values. */
  ghost predicate Revalued(items: seq<BudgetItem>, other: seq<BudgetItem>) {
    && |other| == |items|
    && forall i :: 0 <= i < |items| ==> other[i].id == items[i].id && other[i].tokens == items[i].tokens
  }

  /** Only item i is worth anything. */
  ghost predicate OnlyWorth(items: seq<BudgetItem>, i: nat) {
    forall k :: 0 <= k < |items| ==> items[k].value == if k == i then 1.0 else 0.0
  }

  ghost function WithWorth(items: seq<BudgetItem>, i: nat): (r: seq<BudgetItem>)
    ensures Revalued(items, r) && OnlyWorth(r, i)
  {
    seq(|items|, k requires 0 <= k < |items| => items[k].(value := if k == i then 1.0 else 0.0))
  }

  /** The one item of any worth is picked as soon as it is offered and fits. */
  lemma {:induction false} OnlyWorthIsPicked(items: seq<BudgetItem>, i: nat, n: nat, w: nat)
    requires i < |items| && n <= |items| && OnlyWorth(items, i)
    ensures var taken := i < n && Cost(items[i]) <= w;
            && Best(items[..n], w) == (if taken then 1.0 else 0.0)
            && Pick(items[..n], w) == if taken then [items[i]] else []
    decreases n
  {
    hide Cost, Best, Pick;
    if n == 0 {
      NothingPicked(w);
    } else {
      PickNext(items, n - 1, w);
      OnlyWorthIsPicked(items, i, n - 1, w);
      if Cost(items[n - 1]) <= w { OnlyWorthIsPicked(items, i, n - 1, w - Cost(items[n - 1])); }
    }
  }

  lemma NothingPicked(w: nat)
    ensures Best([], w) == 0.0 && Pick([], w) == []
  {
  }

  /** The recurrence with one more item. */
  lemma PickNext(items: seq<BudgetItem>, n: nat, w: nat)
    requires n < |items|
    ensures var x, rest := items[n], items[..n];
            if Cost(x) <= w && Best(rest, w - Cost(x)) + x.value > Best(rest, w)
            then Best(items[..n + 1], w) == Best(rest, w - Cost(x)) + x.value
              && Pick(items[..n + 1], w) == Pick(rest, w - Cost(x)) + [x]
            else Best(items[..n + 1], w) == Best(rest, w) && Pick(items[..n + 1], w) == Pick(rest, w)
  {
    hide Cost;
    assert items[..n + 1][..n] == items[..n];
  }

  lemma OneItemTokens(x: BudgetItem, byId: map<string, BudgetItem>)
    requires x.id in byId
    ensures Ids([x]) == [x.id] && Weight([x]) == Cost(x) && TokensOf([x.id], byId) == Cost(byId[x.id])
  {
    assert [x][..0] == [] && [x.id][..0] == [];
  }

  lemma {:induction false} ByIdOfRevalued(items: seq<BudgetItem>, other: seq<BudgetItem>, id: string)
    requires Revalued(items, other) && id in ById(items)
    ensures id in ById(other) && Cost(ById(other)[id]) == Cost(ById(items)[id])
  {
    var n := |items| - 1;
    if items[n].id != id {
      ByIdOfRevalued(items[..n], other[..n], id);
    }
  }

  /** The exact condition: at every value and budget the plan reports the tokens it uses, if and
      only if items that share an id cost the same. */
  lemma TokensAreRightIff(items: seq<BudgetItem>)
    ensures (forall other, w :: Revalued(items, other) ==> TokensAreRight(other, w)) <==> IdsNameCosts(items)
  {
    hide Cost, Pick, Best, TokensOf, ById;
    if IdsNameCosts(items) {
      forall other, w | Revalued(items, other) ensures TokensAreRight(other, w) {
        RevaluedNameCosts(items, other);
        PickedIdsAreKnown(other, w);
      }
    } else {
      var i := WrongCost(items);
      var other, w := WithWorth(items, i), Cost(items[i]);
      SameCost(items[i], other[i]);
      OnlyWorthIsPicked(other, i, |other|, w);
      assert other[..|other|] == other;
      PickedIdsAreKnown(other, w);
      ByIdOfRevalued(items, other, items[i].id);
      OneItemTokens(other[i], ById(other));
      assert !TokensAreRight(other, w);
    }
  }

  lemma SameCost(x: BudgetItem, y: BudgetItem)
    requires x.tokens == y.tokens
    ensures Cost(x) == Cost(y)
  {
  }

  lemma RevaluedNameCosts(items: seq<BudgetItem>, other: seq<BudgetItem>)
    requires Revalued(items, other) && IdsNameCosts(items)
    ensures IdsNameCosts(other)
  {
    forall x, y | x in other && y in other && x.id == y.id ensures Cost(x) == Cost(y) {
      var i :| 0 <= i < |other| && other[i] == x;
      var j :| 0 <= j < |other| && other[j] == y;
      assert items[i] in items && items[j] in items;
    }
  }

  /** If a shared id has two costs, some item's cost is not the one its id stands for. */
  lemma WrongCost(items: seq<BudgetItem>) returns (i: nat)
    requires !IdsNameCosts(items)
    ensures i < |items| && items[i].id in ById(items) && Cost(ById(items)[items[i].id]) != Cost(items[i])
  {
    hide ById, Cost;
    var x, y :| x in items && y in items && x.id == y.id && Cost(x) != Cost(y);
    var z := if Cost(ById(items)[x.id]) != Cost(x) then x else y;
    i :| 0 <= i < |items| && items[i] == z;
  }

  // ---------------------------------------------------------------- greedy by density

  function Density(item: BudgetItem): real {
    item.value / (Cost(item) as real)
  }

  predicate DensityLe(a: BudgetItem, b: BudgetItem) {
    Density(a) > Density(b) || (Density(a) == Density(b) && TextLe(a.id, b.id))
  }

  lemma DensityLeIsPreorder()
    ensures TotalPreorder(DensityLe)
  {
    TextLeIsTotalOrder();
  }

  /** Walk the ranked items, keeping each one that still fits. */
  function GreedyPack(ranked: seq<BudgetItem>, room: int): seq<BudgetItem> {
    if ranked == [] then []
    else if Cost(ranked[0]) <= room then [ranked[0]] + GreedyPack(ranked[1..], room - Cost(ranked[0]))
    else GreedyPack(ranked[1..], room)
  }

  /** The items passed over, in the order they were passed over. */
  function GreedyRejects(ranked: seq<BudgetItem>, room: int): seq<BudgetItem> {
    if ranked == [] then []
    else if Cost(ranked[0]) <= room then GreedyRejects(ranked[1..], room - Cost(ranked[0]))
    else [ranked[0]] + GreedyRejects(ranked[1..], room)
  }

  lemma {:induction false} Prepend(x: BudgetItem, pack: seq<BudgetItem>)
    ensures Value([x] + pack) == x.value + Value(pack)
    ensures Weight([x] + pack) == Cost(x) + Weight(pack)
    ensures Ids([x] + pack) == [x.id] + Ids(pack)
  {
    if pack == [] {
      assert [x] + pack == [] + [x];
      Extend([], x);
    } else {
      var n := |pack| - 1;
      assert [x] + pack == ([x] + pack[..n]) + [pack[n]];
      Prepend(x, pack[..n]);
      Extend([x] + pack[..n], pack[n]);
    }
  }

  /** Every item is kept or rejected, exactly once. */
  lemma {:induction false} GreedySplits(ranked: seq<BudgetItem>, room: int)
    ensures multiset(GreedyPack(ranked, room)) + multiset(GreedyRejects(ranked, room)) == multiset(ranked)
  {
    if ranked != [] {
      assert ranked == [ranked[0]] + ranked[1..];
      GreedySplits(ranked[1..], if Cost(ranked[0]) <= room then room - Cost(ranked[0]) else room);
    }
  }

  /** The kept items fit, and no rejected one fits in what they leave over. */
  lemma {:induction false} GreedyFits(ranked: seq<BudgetItem>, room: int)
    requires room >= 0
    ensures Weight(GreedyPack(ranked, room)) <= room
    ensures forall x :: x in GreedyRejects(ranked, room) ==> Weight(GreedyPack(ranked, room)) + Cost(x) > room
  {
    if ranked != [] {
      var x, rest := ranked[0], ranked[1..];
      if Cost(x) <= room {
        GreedyFits(rest, room - Cost(x));
        Prepend(x, GreedyPack(rest, room - Cost(x)));
      } else {
        GreedyFits(rest, room);
      }
    }
  }

  /** The price of n tokens at rate d. */
  ghost function Rent(d: real, n: nat): real {
    if n == 0 then 0.0 else Rent(d, n - 1) + d
  }

  lemma {:induction false} RentIsProduct(d: real, n: nat)
    ensures Rent(d, n) == d * (n as real)
  {
    if n > 0 {
      RentIsProduct(d, n - 1);
    }
  }

  lemma {:induction false} RentAdds(d: real, a: nat, b: nat)
    ensures Rent(d, a + b) == Rent(d, a) + Rent(d, b)
  {
    if b > 0 {
      RentAdds(d, a, b - 1);
    }
  }

  lemma {:induction false} RentGrows(d: real, a: nat, b: nat)
    requires d >= 0.0 && a <= b
    ensures Rent(d, a) <= Rent(d, b)
    decreases b
  {
    if a < b {
      RentGrows(d, a, b - 1);
    }
  }

  /** What an item is worth above the going rate d per token. */
  ghost function Gain(x: BudgetItem, d: real): real {
    x.value - Rent(d, Cost(x))
  }

  ghost function Surplus(pack: seq<BudgetItem>, d: real): real {
    if pack == [] then 0.0
    else Surplus(pack[..|pack| - 1], d) + Gain(pack[|pack| - 1], d)
  }

  /** The surplus of the items that beat the rate. */
  ghost function PositiveSurplus(items: seq<BudgetItem>, d: real): real {
    if items == [] then 0.0
    else
      var g := Gain(items[|items| - 1], d);
      PositiveSurplus(items[..|items| - 1], d) + (if g > 0.0 then g else 0.0)
  }

  lemma {:induction false} SurplusIsValueMinusRent(pack: seq<BudgetItem>, d: real)
    ensures Surplus(pack, d) == Value(pack) - Rent(d, Weight(pack))
  {
    if pack != [] {
      var n := |pack| - 1;
      SurplusIsValueMinusRent(pack[..n], d);
      RentAdds(d, Weight(pack[..n]), Cost(pack[n]));
    }
  }

  lemma SurplusExtend(pack: seq<BudgetItem>, x: BudgetItem, d: real)
    ensures Surplus(pack + [x], d) == Surplus(pack, d) + Gain(x, d)
  {
    assert (pack + [x])[..|pack|] == pack;
  }

  lemma {:induction false} SurplusRemove(pack: seq<BudgetItem>, k: nat, d: real)
    requires k < |pack|
    ensures Surplus(pack[..k] + pack[k + 1..], d) == Surplus(pack, d) - Gain(pack[k], d)
  {
    hide Gain;
    var n := |pack| - 1;
    if k == n {
      assert pack[..k] + pack[k + 1..] == pack[..n];
    } else {
      SurplusRemove(pack[..n], k, d);
      var front := pack[..n][..k] + pack[..n][k + 1..];
      assert pack[..k] + pack[k + 1..] == front + [pack[n]];
      SurplusExtend(front, pack[n], d);
    }
  }

  /** No pack has more surplus than all the items that beat the rate together. */
  lemma {:induction false} SurplusBound(items: seq<BudgetItem>, pack: seq<BudgetItem>, d: real)
    requires PackOf(pack, items)
    ensures Surplus(pack, d) <= PositiveSurplus(items, d)
  {
    if items == [] {
      PackOfNothing(pack);
    } else {
      var n := |items| - 1;
      var x := items[n];
      if x in pack {
        var k :| 0 <= k < |pack| && pack[k] == x;
        DropLast(pack, items, k);
        SurplusRemove(pack, k, d);
        SurplusBound(items[..n], pack[..k] + pack[k + 1..], d);
      } else {
        SkipLast(pack, items);
        SurplusBound(items[..n], pack, d);
      }
    }
  }

  /** The density of an item is the rate at which it is worth its price. */
  lemma DensityIsRate(x: BudgetItem, d: real)
    ensures Density(x) >= d ==> Gain(x, d) >= 0.0
    ensures Density(x) <= d ==> Gain(x, d) <= 0.0
    ensures Gain(x, Density(x)) == 0.0
    ensures x.value >= 0.0 ==> Density(x) >= 0.0
  {
    var c, q := Cost(x) as real, Density(x);
    RentIsProduct(d, Cost(x));
    RentIsProduct(q, Cost(x));
    QuotientTimes(x.value, c);
    if q >= d { ProductGrows(d, q, c); }
    if q <= d { ProductGrows(q, d, c); }
    if x.value >= 0.0 { CancelFactor(0.0, q, c); }
  }

  /** All items before position k are worth the rate d, and none from k on is worth more. */
  ghost predicate RateSplits(ranked: seq<BudgetItem>, k: nat, d: real)
    requires k <= |ranked|
  {
    && (forall i :: 0 <= i < k ==> Gain(ranked[i], d) >= 0.0)
    && (forall i :: k <= i < |ranked| ==> Gain(ranked[i], d) <= 0.0)
  }

  lemma {:induction false} PrefixHoldsTheSurplus(ranked: seq<BudgetItem>, k: nat, d: real)
    requires k <= |ranked| && RateSplits(ranked, k, d)
    ensures PositiveSurplus(ranked, d) == Surplus(ranked[..k], d)
    decreases |ranked|
  {
    if ranked != [] {
      var n := |ranked| - 1;
      if k == |ranked| {
        PrefixHoldsTheSurplus(ranked[..n], n, d);
        assert ranked[..n][..n] == ranked[..k][..n];
      } else {
        PrefixHoldsTheSurplus(ranked[..n], k, d);
        assert ranked[..n][..k] == ranked[..k];
      }
    }
  }

  /** Position of the first item that does not fit, or the length of the list. */
  ghost function FirstReject(ranked: seq<BudgetItem>, room: int): (k: nat)
    ensures k <= |ranked|
  {
    if ranked == [] || Cost(ranked[0]) > room then 0
    else 1 + FirstReject(ranked[1..], room - Cost(ranked[0]))
  }

  /** Up to its first rejection the greedy keeps everything, and that much fits. */
  lemma {:induction false} GreedyStopsAt(ranked: seq<BudgetItem>, room: int)
    requires room >= 0
    ensures var k := FirstReject(ranked, room);
            && Weight(ranked[..k]) <= room
            && (k == |ranked| ==> GreedyRejects(ranked, room) == [])
            && (k < |ranked| ==>
                  && GreedyRejects(ranked, room) != [] && GreedyRejects(ranked, room)[0] == ranked[k]
                  && Weight(ranked[..k]) + Cost(ranked[k]) > room)
  {
    hide Cost;
    if ranked != [] && Cost(ranked[0]) <= room {
      var k := FirstReject(ranked, room);
      GreedyStopsAt(ranked[1..], room - Cost(ranked[0]));
      assert ranked[..k] == [ranked[0]] + ranked[1..][..k - 1];
      Prepend(ranked[0], ranked[1..][..k - 1]);
    } else {
      assert ranked[..0] == [];
    }
  }

  /** What it keeps before its first rejection is part of what it keeps. */
  lemma {:induction false} GreedyKeepsPrefix(ranked: seq<BudgetItem>, room: int)
    requires NonNegative(ranked)
    ensures Value(ranked[..FirstReject(ranked, room)]) <= Value(GreedyPack(ranked, room))
  {
    hide Cost, FirstReject, GreedyPack;
    GreedyUnfolds(ranked, room);
    if ranked != [] && Cost(ranked[0]) <= room {
      var x, rest := ranked[0], ranked[1..];
      var k, kept := FirstReject(rest, room - Cost(x)), GreedyPack(rest, room - Cost(x));
      GreedyKeepsPrefix(rest, room - Cost(x));
      assert ranked[..k + 1] == [x] + rest[..k];
      Prepend(x, rest[..k]);
      Prepend(x, kept);
    } else {
      assert ranked[..0] == [];
      GreedyIsNonNegative(ranked, room);
    }
  }

  lemma GreedyUnfolds(ranked: seq<BudgetItem>, room: int)
    ensures if ranked != [] && Cost(ranked[0]) <= room then
              && FirstReject(ranked, room) == 1 + FirstReject(ranked[1..], room - Cost(ranked[0]))
              && GreedyPack(ranked, room) == [ranked[0]] + GreedyPack(ranked[1..], room - Cost(ranked[0]))
            else FirstReject(ranked, room) == 0
  {
  }

  lemma GreedyIsNonNegative(ranked: seq<BudgetItem>, room: int)
    requires NonNegative(ranked)
    ensures Value(GreedyPack(ranked, room)) >= 0.0
  {
    hide GreedyPack, GreedyRejects;
    GreedySplits(ranked, room);
    MembersOfPack(GreedyPack(ranked, room), ranked);
    ValueNonNegative(GreedyPack(ranked, room));
  }

  lemma {:induction false} ValueNonNegative(pack: seq<BudgetItem>)
    requires NonNegative(pack)
    ensures Value(pack) >= 0.0
  {
    if pack != [] {
      ValueNonNegative(pack[..|pack| - 1]);
    }
  }

  lemma PrefixBeatsPack(ranked: seq<BudgetItem>, k: nat, d: real, other: seq<BudgetItem>)
    requires k <= |ranked| && PackOf(other, ranked) && RateSplits(ranked, k, d)
    ensures Value(other) - Rent(d, Weight(other)) <= Value(ranked[..k]) - Rent(d, Weight(ranked[..k]))
  {
    PrefixHoldsTheSurplus(ranked, k, d);
    SurplusBound(ranked, other, d);
    SurplusIsValueMinusRent(other, d);
    SurplusIsValueMinusRent(ranked[..k], d);
  }

  /** At its own density, the first rejected item pays for all the room the prefix left. */
  lemma RentOfBudget(d: real, prefix: nat, weight: nat, budget: nat, cost: nat)
    requires weight <= budget < prefix + cost && d >= 0.0
    ensures Rent(d, weight) <= Rent(d, prefix) + Rent(d, cost)
  {
    hide Rent;
    RentGrows(d, weight, prefix + cost);
    RentAdds(d, prefix, cost);
  }

  /** The density at the first rejection, or zero if nothing is rejected, splits the list. */
  lemma RankingSplits(ranked: seq<BudgetItem>, k: nat) returns (d: real)
    requires k <= |ranked| && NonNegative(ranked)
    requires Sorted(ranked, DensityLe)
    ensures RateSplits(ranked, k, d) && d >= 0.0
    ensures if k < |ranked| then Rent(d, Cost(ranked[k])) == ranked[k].value else d == 0.0
  {
    d := 0.0;
    if k < |ranked| {
      d := Density(ranked[k]);
      DensityIsRate(ranked[k], d);
    }
    forall i | 0 <= i < |ranked|
      ensures i < k ==> Gain(ranked[i], d) >= 0.0
      ensures k <= i ==> Gain(ranked[i], d) <= 0.0
    {
      if i < k && k < |ranked| { assert DensityLe(ranked[i], ranked[k]); }
      if k < i { assert DensityLe(ranked[k], ranked[i]); }
      DensityIsRate(ranked[i], d);
    }
  }

  /** No pack within budget is worth more than the prefix and the item that overflows it. */
  lemma PrefixBound(ranked: seq<BudgetItem>, k: nat, d: real, budget: nat, other: seq<BudgetItem>)
    requires k <= |ranked| && RateSplits(ranked, k, d) && d >= 0.0
    requires PackOf(other, ranked) && Weight(other) <= budget
    requires if k < |ranked| then Weight(ranked[..k]) + Cost(ranked[k]) > budget else d == 0.0
    requires k < |ranked| ==> Rent(d, Cost(ranked[k])) == ranked[k].value
    ensures Value(other) <= Value(ranked[..k]) + (if k < |ranked| then ranked[k].value else 0.0)
  {
    PrefixBeatsPack(ranked, k, d, other);
    if k < |ranked| {
      RentOfBudget(d, Weight(ranked[..k]), Weight(other), budget, Cost(ranked[k]));
    } else {
      RentIsProduct(d, Weight(other));
      RentIsProduct(d, Weight(ranked[..k]));
    }
  }

  /** The gap for a list already ranked by density. */
  lemma RankedGap(ranked: seq<BudgetItem>, budget: nat, other: seq<BudgetItem>)
    requires NonNegative(ranked)
    requires Sorted(ranked, DensityLe)
    requires PackOf(other, ranked) && Weight(other) <= budget
    ensures var rejects := GreedyRejects(ranked, budget);
            Value(other) <= Value(GreedyPack(ranked, budget)) + (if rejects == [] then 0.0 else rejects[0].value)
  {
    GreedyStopsAt(ranked, budget);
    GreedyKeepsPrefix(ranked, budget);
    var k := FirstReject(ranked, budget);
    var d := RankingSplits(ranked, k);
    PrefixBound(ranked, k, d, budget, other);
  }

  /** The greedy falls short of any pack within budget by at most the value of the first
      item it rejected, and by nothing if it rejected none. */
  lemma GreedyGap(items: seq<BudgetItem>, budget: int, other: seq<BudgetItem>)
    requires budget >= 0 && NonNegative(items)
    requires PackOf(other, items) && Weight(other) <= budget
    ensures var ranked := Sort(items, DensityLe);
            var rejects := GreedyRejects(ranked, budget);
            Value(other) <= Value(GreedyPack(ranked, budget)) + (if rejects == [] then 0.0 else rejects[0].value)
  {
    DensityLeIsPreorder();
    SortFacts(items, DensityLe);
    RankedGap(Sort(items, DensityLe), budget, other);
  }

  lemma GreedyPackOfItems(items: seq<BudgetItem>, budget: int)
    requires budget >= 0
    ensures PackOf(GreedyPack(Sort(items, DensityLe), budget), items)
    ensures Weight(GreedyPack(Sort(items, DensityLe), budget)) <= budget
  {
    GreedySplits(Sort(items, DensityLe), budget);
    GreedyFits(Sort(items, DensityLe), budget);
  }

  method Greedy(items: seq<BudgetItem>, budget: int) returns (plan: BudgetPlan)
    requires budget >= 0
    ensures GreedyPlan(items, budget, plan)
  {
    var ranked := Sort(items, DensityLe);
    var chosen: seq<string>, value, used := [], 0.0, 0;
    ghost var kept: seq<BudgetItem> := [];
    for i := 0 to |ranked|
      invariant chosen == Ids(kept) && value == Value(kept)
      invariant used == Weight(kept) <= budget
      invariant kept + GreedyPack(ranked[i..], budget - used) == GreedyPack(ranked, budget)
    {
      var item, cost := ranked[i], Cost(ranked[i]);
      assert ranked[i..][1..] == ranked[i + 1..];
      if used + cost <= budget {
        Extend(kept, item);
        kept := kept + [item];
        chosen, value, used := chosen + [item.id], value + item.value, used + cost;
      }
    }
    assert ranked[|ranked|..] == [];
    assert kept == GreedyPack(ranked, budget);
    GreedyPackOfItems(items, budget);
    plan := BudgetPlan(chosen, value, used);
  }

  // ---------------------------------------------------------------- optimize

  ghost function Eligible(items: seq<BudgetItem>): seq<BudgetItem> {
    Filter(items, (x: BudgetItem) => x.tokens >= 0)
  }

  /** No pack within budget is worth more than the plan and the first item the greedy rejects. */
  ghost predicate WithinOneItem(items: seq<BudgetItem>, budget: int, plan: BudgetPlan) {
    var rejects := GreedyRejects(Sort(items, DensityLe), budget);
    forall other :: PackOf(other, items) && Weight(other) <= budget ==>
      Value(other) <= plan.totalValue + (if rejects == [] then 0.0 else rejects[0].value)
  }

  /** The greedy's plan for these items. */
  ghost predicate GreedyPlan(items: seq<BudgetItem>, budget: int, plan: BudgetPlan) {
    Packs(items, budget, plan, GreedyPack(Sort(items, DensityLe), budget))
  }

  /** The plan names some pack of these items that fits. */
  ghost predicate WithinBudget(items: seq<BudgetItem>, budget: int, plan: BudgetPlan) {
    exists pack :: Names(items, budget, plan, pack)
  }

  /** Never over budget, and nothing at all when there is no budget or no eligible item; exact
      on moderate instances; greedy, and within one item of optimal, on large ones. */
  method Optimize(items: seq<BudgetItem>, budget: int) returns (plan: BudgetPlan)
    ensures budget <= 0 || Eligible(items) == [] ==> plan == BudgetPlan([], 0.0, 0)
    ensures budget > 0 ==> WithinBudget(Eligible(items), budget, plan)
    ensures 0 < budget <= 5000 && |Eligible(items)| <= 200 ==> OptimalPlan(Eligible(items), budget, plan)
    ensures budget > 5000 || (budget > 0 && |Eligible(items)| > 200) ==>
              && GreedyPlan(Eligible(items), budget, plan)
              && (NonNegative(Eligible(items)) ==> WithinOneItem(Eligible(items), budget, plan))
  {
    hide WithinBudget, OptimalPlan, WithinOneItem, KnapsackPlan, NonNegative, Names, GreedyPlan;
    var eligible := Filter(items, (x: BudgetItem) => x.tokens >= 0);
    if budget <= 0 || eligible == [] {
      plan := BudgetPlan([], 0.0, 0);
      if budget > 0 {
        EmptyPlan(budget);
      }
    } else if budget <= 5000 && |eligible| <= 200 {
      plan := Knapsack(eligible, budget);
      PickIsOptimal(eligible, budget, plan);
      FitsBecause(eligible, budget, plan, Pick(eligible, budget));
    } else {
      plan := Greedy(eligible, budget);
      GreedyIsWithinOneItem(eligible, budget, plan);
    }
  }

  lemma FitsBecause(items: seq<BudgetItem>, budget: nat, plan: BudgetPlan, pack: seq<BudgetItem>)
    requires Names(items, budget, plan, pack)
    ensures WithinBudget(items, budget, plan)
  {
  }

  lemma GreedyIsWithinOneItem(items: seq<BudgetItem>, budget: nat, plan: BudgetPlan)
    requires GreedyPlan(items, budget, plan)
    ensures WithinBudget(items, budget, plan)
    ensures NonNegative(items) ==> WithinOneItem(items, budget, plan)
  {
    hide GreedyPack, GreedyRejects, Value, Weight, PackOf;
    FitsBecause(items, budget, plan, GreedyPack(Sort(items, DensityLe), budget));
    if NonNegative(items) {
      forall other | PackOf(other, items) && Weight(other) <= budget
        ensures var rejects := GreedyRejects(Sort(items, DensityLe), budget);
                Value(other) <= plan.totalValue + (if rejects == [] then 0.0 else rejects[0].value)
      {
        GreedyGap(items, budget, other);
      }
    }
  }

  /** With room for everything the greedy keeps everything. */
  lemma {:induction false} GreedyKeepsAll(ranked: seq<BudgetItem>, room: int)
    requires Weight(ranked) <= room
    ensures GreedyPack(ranked, room) == ranked && GreedyRejects(ranked, room) == []
  {
    hide Cost;
    if ranked != [] {
      var x, rest := ranked[0], ranked[1..];
      assert ranked == [x] + rest;
      Prepend(x, rest);
      GreedyKeepsAll(rest, room - Cost(x));
    }
  }

  /** Where everything fits, leaving a negative item out is better than what the greedy does. */
  lemma NegativeIsKept(items: seq<BudgetItem>, budget: nat, plan: BudgetPlan)
    requires !NonNegative(items) && Weight(Sort(items, DensityLe)) <= budget
    requires GreedyPlan(items, budget, plan)
    ensures !WithinOneItem(items, budget, plan)
  {
    hide Value, Weight, GreedyPack, GreedyRejects, PackOf, Names, Sort;
    var ranked := Sort(items, DensityLe);
    GreedyKeepsAll(ranked, budget);
    var other := WithoutNegative(items, ranked);
    GreedyPlanValue(items, budget, plan);
    assert PackOf(other, items) && Weight(other) <= budget && Value(other) > plan.totalValue;
  }

  lemma GreedyPlanValue(items: seq<BudgetItem>, budget: nat, plan: BudgetPlan)
    requires GreedyPlan(items, budget, plan)
    ensures plan.totalValue == Value(GreedyPack(Sort(items, DensityLe), budget))
  {
  }

  /** The same items, in another order, without one of negative value. */
  lemma WithoutNegative(items: seq<BudgetItem>, ranked: seq<BudgetItem>) returns (other: seq<BudgetItem>)
    requires !NonNegative(items) && multiset(ranked) == multiset(items)
    ensures PackOf(other, items) && Weight(other) <= Weight(ranked) && Value(other) > Value(ranked)
  {
    hide Value, Weight;
    var x :| x in items && x.value < 0.0;
    assert x in multiset(ranked);
    var k :| 0 <= k < |ranked| && ranked[k] == x;
    other := ranked[..k] + ranked[k + 1..];
    RemoveMembers(ranked, k);
    RemoveTotals(ranked, k);
  }

  /** The greedy is within one item of optimal at every budget from some size on. */
  ghost predicate AlwaysWithinOneItem(items: seq<BudgetItem>, atLeast: nat) {
    forall budget: nat, plan :: budget >= atLeast && GreedyPlan(items, budget, plan) ==>
      WithinOneItem(items, budget, plan)
  }

  /** The exact condition: the greedy stays within one item of optimal if and only if no value is
      negative, whether all budgets are asked or only the large ones it is used for. */
  lemma GreedyGapIff(items: seq<BudgetItem>, atLeast: nat)
    ensures AlwaysWithinOneItem(items, atLeast) <==> NonNegative(items)
  {
    hide GreedyPlan, WithinOneItem, NonNegative;
    if NonNegative(items) {
      forall budget: nat, plan | budget >= atLeast && GreedyPlan(items, budget, plan)
        ensures WithinOneItem(items, budget, plan)
      {
        GreedyIsWithinOneItem(items, budget, plan);
      }
    } else {
      var weight := Weight(Sort(items, DensityLe));
      var budget := if weight > atLeast then weight else atLeast;
      var plan := GreedyPlanExists(items, budget);
      NegativeIsKept(items, budget, plan);
    }
  }

  lemma GreedyPlanExists(items: seq<BudgetItem>, budget: nat) returns (plan: BudgetPlan)
    ensures GreedyPlan(items, budget, plan)
  {
    GreedyPackOfItems(items, budget);
    var pack := GreedyPack(Sort(items, DensityLe), budget);
    plan := BudgetPlan(Ids(pack), Value(pack), Weight(pack));
  }

  /** With nothing on offer the empty plan is the best there is. */
  lemma EmptyPlan(budget: nat)
    ensures var plan := BudgetPlan([], 0.0, 0);
            && WithinBudget([], budget, plan) && OptimalPlan([], budget, plan)
            && GreedyPlan([], budget, plan) && WithinOneItem([], budget, plan)
  {
    var plan := BudgetPlan([], 0.0, 0);
    PickIsOptimal([], budget, plan);
    FitsBecause([], budget, plan, []);
    forall other | PackOf(other, []) ensures Value(other) == 0.0 {
      PackOfNothing(other);
    }
  }
}

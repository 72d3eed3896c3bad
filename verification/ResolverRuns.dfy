/** What holds after one sweep from any flags, and over every run of adds and sweeps. */
module ResolverRuns {
  import opened Memory
  import opened Resolver

  // ---------------------------------------------------------------- one sweep

  /** Every pair a sweep resolves is between items of the table, and goes strictly down. */
  lemma SweepPairsAreSound(items: map<string, MemoryItem>, p: Resolution)
    requires WellKeyed(items) && p in SweepPairs(items)
    ensures p.winner.memoryId in items && items[p.winner.memoryId] == p.winner
    ensures p.loser.memoryId in items && items[p.loser.memoryId] == p.loser
    ensures ItemsContradict(p.winner, p.loser) && Above(p.winner, p.loser)
  {
    var g :| g in Groups(items) && p in GroupPairs(items, g);
    GroupPairsAreSound(items, g);
  }

  /** Of two contradicting items a sweep always supersedes at least one. */
  lemma SweepCovers(items: map<string, MemoryItem>, x: MemoryItem, y: MemoryItem)
    requires WellKeyed(items) && x in items.Values && y in items.Values && ItemsContradict(x, y)
    ensures x.memoryId in Losers(SweepPairs(items)) || y.memoryId in Losers(SweepPairs(items))
  {
    hide ItemsContradict, Scan, Ranking, Visits, Losers, SweepPairs, GroupPairs;
    var g := Group(x);
    var r := Ranking(items, g);
    RankingRanks(items, g);
    ContradictionIsInGroup(x, y);
    assert x in Members(items, g) && y in Members(items, g);
    var a :| 0 <= a < |r| && r[a] == x;
    var b :| 0 <= b < |r| && r[b] == y;
    ContradictionIsSymmetric(x, y);
    if a < b { ScanCovers(r, 0, 1, {}, a, b); } else { ScanCovers(r, 0, 1, {}, b, a); }
    LostInGroup(items, g);
    LostInOwnGroup(items, x);
    LostInOwnGroup(items, y);
  }

  lemma LostInGroup(items: map<string, MemoryItem>, g: GroupKey)
    ensures LostAfter(Ranking(items, g), 0, 1, {}) == Losers(GroupPairs(items, g))
  {
  }

  ghost predicate IsActive(t: Tables, id: string) {
    id in t.active && t.active[id]
  }

  /** No two active items contradict. */
  ghost predicate Settled(t: Tables) {
    forall x, y :: x in t.items.Values && y in t.items.Values && IsActive(t, x.memoryId) && IsActive(t, y.memoryId) ==>
      !ItemsContradict(x, y)
  }

  /** After one sweep, from any flags whatever, no two active items contradict. */
  lemma NoActiveContradiction(t: Tables)
    requires Consistent(t)
    ensures Settled(Sweep(t))
  {
    hide ItemsContradict, SweepPairs, Losers;
    var t' := Sweep(t);
    forall x, y | x in t.items.Values && y in t.items.Values && IsActive(t', x.memoryId) && IsActive(t', y.memoryId)
      ensures !ItemsContradict(x, y)
    {
      if ItemsContradict(x, y) {
        SweepCovers(t.items, x, y);
      }
    }
  }

  /** A second sweep changes no flag and adds no edge. */
  lemma SweepIsIdempotent(t: Tables)
    ensures Sweep(Sweep(t)) == Sweep(t)
  {
    var pairs := SweepPairs(t.items);
    assert Flags(Flags(t.active, pairs), pairs) == Flags(t.active, pairs);
    assert t.edges + EdgesOf(pairs) + EdgesOf(pairs) == t.edges + EdgesOf(pairs);
  }

  // ---------------------------------------------------------------- groups

  lemma ContradictionIsInGroup(x: MemoryItem, y: MemoryItem)
    requires ItemsContradict(x, y)
    ensures Group(x) == Group(y) && x != y
  {
  }

  /** An item is superseded by the sweep exactly when its own group's scan supersedes it. */
  lemma LostInOwnGroup(items: map<string, MemoryItem>, y: MemoryItem)
    requires WellKeyed(items) && y in items.Values
    ensures y.memoryId in Losers(SweepPairs(items)) <==> y.memoryId in Losers(GroupPairs(items, Group(y)))
  {
    assert GroupPairs(items, Group(y)) <= SweepPairs(items);
    if p :| p in SweepPairs(items) && p.loser.memoryId == y.memoryId {
      var h :| h in Groups(items) && p in GroupPairs(items, h);
      GroupPairsAreSound(items, h);
    }
  }

  // ---------------------------------------------------------------- runs

  datatype Action = AddActive(item: MemoryItem) | SweepAll

  ghost function Act(t: Tables, action: Action): Tables {
    match action
    case AddActive(item) => AddItem(t, item, true)
    case SweepAll => Sweep(t)
  }

  const EMPTY_TABLES: Tables := Tables(map[], map[], {})

  /** The tables after a run that starts from these tables. */
  ghost function RunFrom(t: Tables, actions: seq<Action>): Tables {
    if actions == [] then t else Act(RunFrom(t, actions[..|actions| - 1]), actions[|actions| - 1])
  }

  /** The tables after a run that starts from the empty store. */
  ghost function Run(actions: seq<Action>): Tables {
    RunFrom(EMPTY_TABLES, actions)
  }

  lemma NoActions(t: Tables)
    ensures RunFrom(t, []) == t
  {
  }

  lemma RunFromOneMore(t: Tables, actions: seq<Action>, action: Action)
    ensures RunFrom(t, actions + [action]) == Act(RunFrom(t, actions), action)
  {
    assert (actions + [action])[..|actions|] == actions;
  }

  lemma {:induction false} RunFromCompose(t: Tables, a: seq<Action>, b: seq<Action>)
    ensures RunFrom(t, a + b) == RunFrom(RunFrom(t, a), b)
  {
    hide Act;
    if b == [] {
      assert a + b == a;
    } else {
      assert (a + b)[..|a + b| - 1] == a + b[..|b| - 1];
      RunFromCompose(t, a, b[..|b| - 1]);
    }
  }

  ghost predicate Supersedes(t: Tables, x: string, y: string) {
    Edge(x, y, Relation.Supersedes) in t.edges
  }

  /** SUPERSEDES edges join items of the table and go strictly down the order. */
  ghost predicate EdgesGoDown(t: Tables) {
    forall x, y :: Supersedes(t, x, y) ==> x in t.items && y in t.items && Above(t.items[x], t.items[y])
  }

  /** Whatever is inactive has a SUPERSEDES edge into it. */
  ghost predicate InactiveHasEdge(t: Tables) {
    forall y :: y in t.items && !IsActive(t, y) ==> exists x :: Supersedes(t, x, y)
  }

  ghost predicate RunInvariant(t: Tables) {
    Consistent(t) && EdgesGoDown(t) && InactiveHasEdge(t)
  }

  lemma SweepEdgesGoDown(t: Tables)
    requires Consistent(t) && EdgesGoDown(t)
    ensures EdgesGoDown(Sweep(t))
  {
    hide ItemsContradict, Above, SweepPairs;
    var t', pairs := Sweep(t), SweepPairs(t.items);
    forall x, y | Supersedes(t', x, y) && !Supersedes(t, x, y)
      ensures x in t.items && y in t.items && Above(t.items[x], t.items[y])
    {
      var p :| p in pairs && p.winner.memoryId == x && p.loser.memoryId == y;
      SweepPairsAreSound(t.items, p);
    }
  }

  lemma SweepInactiveHasEdge(t: Tables)
    requires Consistent(t) && InactiveHasEdge(t)
    ensures InactiveHasEdge(Sweep(t))
  {
    hide ItemsContradict, SweepPairs;
    var t', pairs := Sweep(t), SweepPairs(t.items);
    forall y | y in t.items && !IsActive(t', y) ensures exists x :: Supersedes(t', x, y) {
      if y in Losers(pairs) {
        var p :| p in pairs && p.loser.memoryId == y;
        assert Supersedes(t', p.winner.memoryId, y);
      } else {
        assert !IsActive(t, y);
        var x :| Supersedes(t, x, y);
        assert Supersedes(t', x, y);
      }
    }
  }

  lemma EmptyKeepsInvariant()
    ensures RunInvariant(EMPTY_TABLES)
  {
  }

  lemma {:induction false} RunFromKeepsInvariant(t: Tables, actions: seq<Action>)
    requires RunInvariant(t)
    ensures RunInvariant(RunFrom(t, actions))
  {
    hide ItemsContradict, Above, Sweep, EdgesGoDown, InactiveHasEdge;
    if actions != [] {
      RunFromKeepsInvariant(t, actions[..|actions| - 1]);
      var u := RunFrom(t, actions[..|actions| - 1]);
      match actions[|actions| - 1]
      case AddActive(item) => AddKeepsInvariant(u, item);
      case SweepAll => SweepEdgesGoDown(u); SweepInactiveHasEdge(u); SweepKeepsTables(u);
    }
  }

  lemma RunsKeepInvariant(actions: seq<Action>)
    ensures RunInvariant(Run(actions))
  {
    EmptyKeepsInvariant();
    RunFromKeepsInvariant(EMPTY_TABLES, actions);
  }

  lemma SweepKeepsTables(t: Tables)
    requires Consistent(t)
    ensures Sweep(t).items == t.items && Consistent(Sweep(t))
  {
    hide SweepPairs;
  }

  lemma AddKeepsInvariant(t: Tables, item: MemoryItem)
    requires RunInvariant(t)
    ensures RunInvariant(AddItem(t, item, true))
  {
    hide Above;
    var t' := AddItem(t, item, true);
    forall x, y | Supersedes(t', x, y) ensures x in t'.items && y in t'.items && Above(t'.items[x], t'.items[y]) {
      assert Supersedes(t, x, y);
    }
    forall y | y in t'.items && !IsActive(t', y) ensures exists x :: Supersedes(t', x, y) {
      assert y in t.items && !IsActive(t, y);
      var x :| Supersedes(t, x, y);
      assert Supersedes(t', x, y);
    }
  }

  /** A walk along SUPERSEDES edges. */
  ghost predicate Chain(t: Tables, path: seq<string>) {
    |path| >= 1 && forall i :: 0 <= i < |path| - 1 ==> Supersedes(t, path[i], path[i + 1])
  }

  lemma {:induction false} ChainGoesDown(t: Tables, path: seq<string>)
    requires RunInvariant(t) && Chain(t, path) && |path| >= 2
    ensures path[0] in t.items && path[|path| - 1] in t.items
    ensures Above(t.items[path[0]], t.items[path[|path| - 1]])
  {
    hide Above;
    var n := |path| - 1;
    assert Supersedes(t, path[n - 1], path[n]);
    if n >= 2 {
      forall i | 0 <= i < n - 1 ensures Supersedes(t, path[..n][i], path[..n][i + 1]) {
        assert Supersedes(t, path[i], path[i + 1]);
      }
      ChainGoesDown(t, path[..n]);
      AboveIsStrictTotalOrder(t.items[path[0]], t.items[path[n - 1]], t.items[path[n]]);
    }
  }

  /** Over every run, the supersedes graph has no cycle. */
  lemma SupersedesIsAcyclic(actions: seq<Action>, path: seq<string>)
    requires Chain(Run(actions), path) && |path| >= 2
    ensures path[0] != path[|path| - 1]
  {
    hide Above;
    var t := Run(actions);
    RunsKeepInvariant(actions);
    ChainGoesDown(t, path);
    AboveIsStrictTotalOrder(t.items[path[0]], t.items[path[0]], t.items[path[0]]);
  }

  ghost function AllAbove(t: Tables, y: string): set<MemoryItem>
    requires y in t.items
  {
    set x | x in t.items.Values && Above(x, t.items[y])
  }

  lemma HigherHasFewerAbove(t: Tables, x: string, y: string)
    requires Consistent(t) && x in t.items && y in t.items && Above(t.items[x], t.items[y])
    ensures AllAbove(t, x) < AllAbove(t, y)
  {
    hide Above;
    var a, b := t.items[x], t.items[y];
    AboveIsStrictTotalOrder(a, b, b);
    forall z | z in AllAbove(t, x) ensures z in AllAbove(t, y) {
      AboveIsStrictTotalOrder(z, a, b);
    }
    assert a in AllAbove(t, y) && a !in AllAbove(t, x);
  }

  lemma {:induction false} ClimbToActive(t: Tables, y: string) returns (path: seq<string>)
    requires RunInvariant(t) && y in t.items
    ensures Chain(t, path) && path[|path| - 1] == y
    ensures IsActive(t, path[0])
    decreases AllAbove(t, y)
  {
    hide Above;
    if IsActive(t, y) {
      path := [y];
    } else {
      var x :| Supersedes(t, x, y);
      HigherHasFewerAbove(t, x, y);
      path := ClimbToActive(t, x);
      path := path + [y];
    }
  }

  /** Over every run, whatever is inactive is superseded, through some chain, by something active. */
  lemma InactiveIsSupersededByActive(actions: seq<Action>, y: string)
    requires y in Run(actions).items && !IsActive(Run(actions), y)
    ensures exists path :: Chain(Run(actions), path) && path[|path| - 1] == y && IsActive(Run(actions), path[0])
  {
    RunsKeepInvariant(actions);
    var path := ClimbToActive(Run(actions), y);
    assert Chain(Run(actions), path);
  }
}

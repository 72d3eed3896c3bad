/** Which items are active after a sweep, against the documented priority, and how that depends on
    what happened before. */
module ActiveView {
  import opened Wrappers
  import opened Memory
  import opened Resolver
  import opened ResolverRuns
  import opened SweepKernel
  import opened SweepPriority

  // ---------------------------------------------------------------- the active view

  /** After a sweep, what is active is what the priority does not outrank. */
  ghost predicate ViewIsPriority(t: Tables) {
    forall x :: x in t.items.Values ==> (IsActive(Sweep(t), x.memoryId) <==> !Outranked(t.items, x))
  }

  ghost predicate AllActive(t: Tables) {
    forall id :: id in t.items ==> IsActive(t, id)
  }

  /** A sweep leaves an item active if it supersedes it nowhere, and it was active before or won. */
  lemma ActiveAfterSweep(t: Tables, id: string)
    requires Consistent(t) && id in t.items
    ensures IsActive(Sweep(t), id) <==>
      id !in Losers(SweepPairs(t.items)) && (id in Winners(SweepPairs(t.items)) || IsActive(t, id))
  {
    hide SweepPairs, Losers, Winners;
  }

  /** For the items of one table: where the sweep follows the priority, so does the active view, if
      and only if everything that is not outranked was active before or wins a pair. */
  lemma ViewIsPriorityHereIff(t: Tables)
    requires Consistent(t) && FollowsPriority(t.items)
    ensures ViewIsPriority(t) <==> forall x :: x in t.items.Values && !Outranked(t.items, x) ==>
      x.memoryId in Winners(SweepPairs(t.items)) || IsActive(t, x.memoryId)
  {
    hide SweepPairs, Losers, Winners, Sweep, Outranked, IsActive;
    forall x | x in t.items.Values ensures IsActive(Sweep(t), x.memoryId) <==>
      !Outranked(t.items, x) && (x.memoryId in Winners(SweepPairs(t.items)) || IsActive(t, x.memoryId))
    {
      KeyOfItem(t.items, x);
      ActiveAfterSweep(t, x.memoryId);
    }
  }

  lemma KeyOfItem(items: map<string, MemoryItem>, x: MemoryItem)
    requires WellKeyed(items) && x in items.Values
    ensures x.memoryId in items && items[x.memoryId] == x
  {
  }

  lemma ActiveViewFollows(t: Tables)
    requires Consistent(t) && AllActive(t)
    ensures ViewIsPriority(t) <==> FollowsPriority(t.items)
  {
    hide SweepPairs, Losers, Winners, Sweep, Outranked, IsActive;
    forall x | x in t.items.Values
      ensures IsActive(Sweep(t), x.memoryId) <==> x.memoryId !in Losers(SweepPairs(t.items))
    {
      KeyOfItem(t.items, x);
      ActiveAfterSweep(t, x.memoryId);
    }
  }

  /** The same flags over items that make other claims. */
  ghost function WithItems(t: Tables, other: map<string, MemoryItem>): Tables {
    t.(items := other)
  }

  /** Where no item says anything, a sweep changes no flag and nothing is outranked. */
  lemma SilenceKeepsFlags(t: Tables, id: string)
    requires Consistent(t) && id in t.items
    ensures var silent := Star(t.items, "", {});
            && Reclaimed(t.items, silent) && !Outranked(silent, silent[id])
            && (IsActive(Sweep(WithItems(t, silent)), id) <==> IsActive(t, id))
  {
    hide ItemsContradict, Above, Outranked, Sweep, Star, Losers, Winners, SweepPairs;
    var silent := Star(t.items, "", {});
    ReclaimedKeepsOrders(t.items, silent);
    forall x, y | x in silent.Values && y in silent.Values ensures !ItemsContradict(x, y) {
      StarContradicts(t.items, "", {}, x, y);
    }
    assert silent[id] in silent.Values;
    OutrankedIsRefuted(silent, silent[id]);
    assert SweepPairs(silent) == {} by { NoContradictionsNoPairs(silent); }
    ActiveAfterSweep(WithItems(t, silent), id);
    NobodyWinsNothing();
  }

  lemma NobodyWinsNothing()
    ensures Losers({}) == {} && Winners({}) == {}
  {
  }

  lemma PairsContradict(items: map<string, MemoryItem>, p: Resolution)
    requires WellKeyed(items) && p in SweepPairs(items)
    ensures p.winner in items.Values && p.loser in items.Values && ItemsContradict(p.winner, p.loser)
  {
    hide ItemsContradict, Above, SweepPairs;
    SweepPairsAreSound(items, p);
  }

  lemma NoContradictionsNoPairs(items: map<string, MemoryItem>)
    requires WellKeyed(items)
    requires forall x, y :: x in items.Values && y in items.Values ==> !ItemsContradict(x, y)
    ensures SweepPairs(items) == {}
  {
    hide ItemsContradict, Above, SweepPairs;
    if p :| p in SweepPairs(items) {
      PairsContradict(items, p);
    }
  }

  /** The active view is what the priority asks for, whatever the items claim. */
  ghost predicate ViewAlwaysPriority(t: Tables) {
    forall other :: Reclaimed(t.items, other) ==> ViewIsPriority(WithItems(t, other))
  }

  /** The exact condition on tables: after a sweep the active view is the documented one, for every
      pattern of claims, if and only if no group visits an item before one that ranks two or more
      places above it, and every item was active before the sweep. */
  lemma ViewIsPriorityIff(t: Tables)
    requires Consistent(t)
    ensures ViewAlwaysPriority(t) <==> NoneOvertaken(t.items) && AllActive(t)
  {
    hide ItemsContradict, Outranked, Sweep, NoneOvertaken, FollowsPriority, IsActive, Star;
    FollowsPriorityIff(t.items);
    if AllActive(t) {
      forall other | Reclaimed(t.items, other)
        ensures ViewIsPriority(WithItems(t, other)) <==> FollowsPriority(other)
      {
        ReclaimedKeepsOrders(t.items, other);
        FlagsAreKept(t, other);
        ActiveViewFollows(WithItems(t, other));
      }
    } else {
      var id :| id in t.items && !IsActive(t, id);
      SilenceKeepsFlags(t, id);
      var silent := Star(t.items, "", {});
      assert silent[id] in silent.Values;
      assert silent[id].memoryId == id;
      assert !ViewIsPriority(WithItems(t, silent));
    }
  }

  lemma FlagsAreKept(t: Tables, other: map<string, MemoryItem>)
    requires Consistent(t) && Reclaimed(t.items, other)
    ensures Consistent(WithItems(t, other)) && (AllActive(t) <==> AllActive(WithItems(t, other)))
  {
  }

  // ---------------------------------------------------------------- the view has a history

  /** Three items of one group, each more confident than the one before; the middle one contradicts
      the other two, which agree. */
  ghost predicate Rising(x: MemoryItem, y: MemoryItem, z: MemoryItem) {
    && x.confidence < y.confidence < z.confidence
    && ItemsContradict(x, y) && ItemsContradict(y, z) && !ItemsContradict(x, z)
    && x.memoryId != z.memoryId
  }

  lemma RisingExists() returns (x: MemoryItem, y: MemoryItem, z: MemoryItem)
    ensures Rising(x, y, z)
  {
    x := MemoryItem("x", User, None, Claim({"w"}, true), 0.5, 0, "team");
    y := MemoryItem("y", User, None, Claim({"w"}, false), 0.6, 0, "team");
    z := MemoryItem("z", User, None, Claim({"w"}, true), 0.7, 0, "team");
    assert {"w"} * {"w"} == {"w"} && {"w"} + {"w"} == {"w"};
  }

  /** Items of different confidence are never overtaken. */
  lemma DifferentConfidencesFollow(items: map<string, MemoryItem>)
    requires WellKeyed(items)
    requires forall x, y :: x in items.Values && y in items.Values && x.confidence == y.confidence ==> x == y
    ensures NoneOvertaken(items) && FollowsPriority(items)
  {
    hide ItemsContradict, InTime, FollowsPriority;
    forall k, c, l | ThreeRanked(items, k, c, l) ensures !Before(l, k) {
      AboveHasOtherId(items, k, c);
      AboveHasOtherId(items, c, l);
    }
    forall x | x in items.Values ensures InTime(items, x) {
      NoneOvertakenIsInTime(items, x);
    }
    SweepFollowsPriority(items);
  }

  /** Whoever wins a pair of a sweep contradicts something it ranks above. */
  lemma WinnersBeat(items: map<string, MemoryItem>, x: MemoryItem)
    requires WellKeyed(items) && x in items.Values && x.memoryId in Winners(SweepPairs(items))
    ensures exists y :: y in items.Values && ItemsContradict(x, y) && Above(x, y)
  {
    hide ItemsContradict, Above, SweepPairs;
    var p :| p in SweepPairs(items) && p.winner.memoryId == x.memoryId;
    SweepPairsAreSound(items, p);
    KeyOfItem(items, x);
    assert p.loser in items.Values;
  }

  ghost function Two(x: MemoryItem, y: MemoryItem): map<string, MemoryItem> {
    map[x.memoryId := x][y.memoryId := y]
  }

  ghost function Three(x: MemoryItem, y: MemoryItem, z: MemoryItem): map<string, MemoryItem> {
    Two(x, y)[z.memoryId := z]
  }

  lemma RisingFacts(x: MemoryItem, y: MemoryItem, z: MemoryItem)
    requires Rising(x, y, z)
    ensures x.memoryId != y.memoryId && y.memoryId != z.memoryId && x.memoryId != z.memoryId
    ensures x.confidence < y.confidence < z.confidence
    ensures WellKeyed(Two(x, y)) && Two(x, y).Values == {x, y}
    ensures WellKeyed(Three(x, y, z)) && Three(x, y, z).Values == {x, y, z}
    ensures ItemsContradict(y, x) && ItemsContradict(z, y) && !ItemsContradict(z, x)
    ensures Above(y, x) && Above(z, y) && !Above(x, y) && !Above(y, z) && !Above(x, z)
  {
    ContradictionIsSymmetric(x, y);
    ContradictionIsSymmetric(y, z);
    ContradictionIsSymmetric(x, z);
    var two, three := Two(x, y), Three(x, y, z);
    assert two[x.memoryId] == x && two[y.memoryId] == y;
    assert three[x.memoryId] == x && three[y.memoryId] == y && three[z.memoryId] == z;
  }

  lemma NoSelfContradiction(x: MemoryItem)
    ensures !ItemsContradict(x, x)
  {
  }

  lemma RisingIsStar(x: MemoryItem, y: MemoryItem, z: MemoryItem)
    requires Rising(x, y, z)
    ensures IsStar(Three(x, y, z), z, y, x)
  {
    RisingFacts(x, y, z);
    hide ItemsContradict, Above, Three;
    NoSelfContradiction(x);
    NoSelfContradiction(y);
    NoSelfContradiction(z);
  }

  lemma OnlyPairOutranks(items: map<string, MemoryItem>, x: MemoryItem, y: MemoryItem)
    requires items.Values == {x, y} && ItemsContradict(y, x) && Above(y, x) && !Above(x, y)
    ensures Outranked(items, x)
  {
    hide ItemsContradict, Above, Outranked;
    AboveIsStrictTotalOrder(y, y, y);
    OutrankedIsRefuted(items, y);
    OutrankedIsRefuted(items, x);
    assert Refutes(items, y, x) || Outranked(items, y);
  }

  lemma RisingOutranked(x: MemoryItem, y: MemoryItem, z: MemoryItem)
    requires Rising(x, y, z)
    ensures Outranked(Two(x, y), x)
    ensures !Outranked(Three(x, y, z), x) && Outranked(Three(x, y, z), y)
  {
    RisingFacts(x, y, z);
    hide ItemsContradict, Above, Outranked, Two, Three, Rising;
    OnlyPairOutranks(Two(x, y), x, y);
    RisingIsStar(x, y, z);
    StarIsOutranked(Three(x, y, z), z, y, x);
  }

  lemma RisingFollows(x: MemoryItem, y: MemoryItem, z: MemoryItem)
    requires Rising(x, y, z)
    ensures FollowsPriority(Two(x, y)) && NoneOvertaken(Three(x, y, z)) && FollowsPriority(Three(x, y, z))
  {
    RisingFacts(x, y, z);
    hide ItemsContradict, Above, FollowsPriority, NoneOvertaken, Rising, Two, Three, WellKeyed;
    DifferentConfidencesFollow(Two(x, y));
    DifferentConfidencesFollow(Three(x, y, z));
  }

  lemma FirstSweepDropsX(t: Tables, x: MemoryItem, y: MemoryItem, z: MemoryItem)
    requires Rising(x, y, z) && Consistent(t) && t.items == Two(x, y)
    ensures !IsActive(Sweep(t), x.memoryId)
  {
    RisingFacts(x, y, z);
    hide ItemsContradict, Above, Outranked, Sweep, Two, Rising, Losers, Winners, SweepPairs, IsActive;
    RisingFollows(x, y, z);
    RisingOutranked(x, y, z);
    assert x in t.items.Values;
    KeyOfItem(t.items, x);
    ActiveAfterSweep(t, x.memoryId);
  }

  lemma SecondSweepLeavesX(u: Tables, x: MemoryItem, y: MemoryItem, z: MemoryItem)
    requires Rising(x, y, z) && Consistent(u) && u.items == Three(x, y, z)
    ensures IsActive(Sweep(u), x.memoryId) <==> IsActive(u, x.memoryId)
  {
    RisingFacts(x, y, z);
    hide ItemsContradict, Above, Outranked, Sweep, Three, Rising, Losers, Winners, SweepPairs, IsActive;
    hide FollowsPriority;
    RisingFollows(x, y, z);
    RisingOutranked(x, y, z);
    assert x in u.items.Values;
    KeyOfItem(u.items, x);
    NotOutrankedNotLost(u.items, x);
    ActiveAfterSweep(u, x.memoryId);
    if x.memoryId in Winners(SweepPairs(u.items)) {
      WinnersBeat(u.items, x);
      RisingIsStar(x, y, z);
    }
  }

  lemma NotOutrankedNotLost(items: map<string, MemoryItem>, x: MemoryItem)
    requires FollowsPriority(items) && x in items.Values && !Outranked(items, x)
    ensures x.memoryId !in Losers(SweepPairs(items))
  {
    hide Outranked, Losers, SweepPairs;
  }

  /** The run that sweeps before the third item comes, and the one that sweeps only at the end. */
  ghost function Early(x: MemoryItem, y: MemoryItem, z: MemoryItem): seq<Action> {
    [AddActive(x), AddActive(y), SweepAll, AddActive(z), SweepAll]
  }

  ghost function Late(x: MemoryItem, y: MemoryItem, z: MemoryItem): seq<Action> {
    [AddActive(x), AddActive(y), AddActive(z), SweepAll]
  }

  lemma RunsOfThree(x: MemoryItem, y: MemoryItem, z: MemoryItem)
    ensures var t := AddItem(AddItem(EMPTY_TABLES, x, true), y, true);
            && Run(Early(x, y, z)) == Sweep(AddItem(Sweep(t), z, true))
            && Run(Late(x, y, z)) == Sweep(AddItem(t, z, true))
  {
    hide Sweep, AddItem, RunFrom;
    var front := [AddActive(x), AddActive(y)];
    RunFromOneMore(EMPTY_TABLES, [], AddActive(x));
    RunFromOneMore(EMPTY_TABLES, [AddActive(x)], AddActive(y));
    NoActions(EMPTY_TABLES);
    assert [] + [AddActive(x)] == [AddActive(x)] && [AddActive(x)] + [AddActive(y)] == front;
    RunFromOneMore(EMPTY_TABLES, front, SweepAll);
    RunFromOneMore(EMPTY_TABLES, front + [SweepAll], AddActive(z));
    RunFromOneMore(EMPTY_TABLES, front + [SweepAll] + [AddActive(z)], SweepAll);
    assert Early(x, y, z) == front + [SweepAll] + [AddActive(z)] + [SweepAll];
    RunFromOneMore(EMPTY_TABLES, front, AddActive(z));
    RunFromOneMore(EMPTY_TABLES, front + [AddActive(z)], SweepAll);
    assert Late(x, y, z) == front + [AddActive(z)] + [SweepAll];
  }

  lemma TablesOfThree(x: MemoryItem, y: MemoryItem, z: MemoryItem)
    requires Rising(x, y, z)
    ensures var t := AddItem(AddItem(EMPTY_TABLES, x, true), y, true); var v := AddItem(t, z, true);
            && Consistent(t) && t.items == Two(x, y)
            && Consistent(v) && v.items == Three(x, y, z) && IsActive(v, x.memoryId)
  {
    RisingFacts(x, y, z);
    hide ItemsContradict, Above, Rising;
  }

  lemma AddToTwo(t: Tables, x: MemoryItem, y: MemoryItem, z: MemoryItem)
    requires Rising(x, y, z) && Consistent(t) && t.items == Two(x, y)
    ensures var u := AddItem(t, z, true);
            Consistent(u) && u.items == Three(x, y, z) && (IsActive(u, x.memoryId) <==> IsActive(t, x.memoryId))
  {
    RisingFacts(x, y, z);
    hide ItemsContradict, Above, Rising;
  }

  /** The active view has a history: with the same items in the end, and no tie anywhere, x is left
      inactive by the run that swept early, although y, the only item that ever refuted it, is
      superseded, and active by the run that swept late. */
  lemma ViewHasHistory(x: MemoryItem, y: MemoryItem, z: MemoryItem)
    requires Rising(x, y, z)
    ensures var early, late := Run(Early(x, y, z)), Run(Late(x, y, z));
            && early.items == late.items == Three(x, y, z)
            && NoneOvertaken(early.items) && FollowsPriority(early.items) && !Outranked(early.items, x)
            && !IsActive(early, x.memoryId) && IsActive(late, x.memoryId)
  {
    hide ItemsContradict, Above, Outranked, Sweep, NoneOvertaken, FollowsPriority, AddItem, Rising, Two, Three;
    hide Run, IsActive, Early, Late;
    var t := AddItem(AddItem(EMPTY_TABLES, x, true), y, true);
    var u, v := AddItem(Sweep(t), z, true), AddItem(t, z, true);
    RunsOfThree(x, y, z);
    TablesOfThree(x, y, z);
    SweepKeepsTables(t);
    AddToTwo(Sweep(t), x, y, z);
    SweepKeepsTables(u);
    SweepKeepsTables(v);
    RisingFollows(x, y, z);
    RisingOutranked(x, y, z);
    FirstSweepDropsX(t, x, y, z);
    SecondSweepLeavesX(u, x, y, z);
    SecondSweepLeavesX(v, x, y, z);
  }
}

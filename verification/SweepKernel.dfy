/** Which items a sweep supersedes, against the documented priority: confidence, then recency,
    then acl. The sweep visits a group in another order than the priority ranks it. */
module SweepKernel {
  import opened Memory
  import opened Resolver
  import opened ResolverRuns

  // ---------------------------------------------------------------- what the priority asks for

  ghost function ItemsAbove(items: map<string, MemoryItem>, x: MemoryItem): set<MemoryItem> {
    set y | y in items.Values && Above(y, x)
  }

  lemma ItemsAboveShrinks(items: map<string, MemoryItem>, x: MemoryItem)
    ensures forall y :: y in ItemsAbove(items, x) ==> ItemsAbove(items, y) < ItemsAbove(items, x)
  {
    hide Above;
    forall y | y in ItemsAbove(items, x) ensures ItemsAbove(items, y) < ItemsAbove(items, x) {
      forall z | z in ItemsAbove(items, y) ensures z in ItemsAbove(items, x) {
        AboveIsStrictTotalOrder(z, y, x);
      }
      AboveIsStrictTotalOrder(y, y, y);
      assert y !in ItemsAbove(items, y);
    }
  }

  /** The active view by priority: an item is outranked when one above it contradicts it and is
      not outranked itself. */
  ghost predicate Outranked(items: map<string, MemoryItem>, x: MemoryItem)
    decreases ItemsAbove(items, x)
  {
    ItemsAboveShrinks(items, x);
    exists y :: y in ItemsAbove(items, x) && ItemsContradict(y, x) && !Outranked(items, y)
  }

  ghost predicate Refutes(items: map<string, MemoryItem>, y: MemoryItem, x: MemoryItem) {
    y in items.Values && Above(y, x) && ItemsContradict(y, x) && !Outranked(items, y)
  }

  lemma OutrankedIsRefuted(items: map<string, MemoryItem>, x: MemoryItem)
    ensures Outranked(items, x) <==> exists y :: Refutes(items, y, x)
  {
    hide ItemsContradict, Above;
    if Outranked(items, x) {
      var y :| y in ItemsAbove(items, x) && ItemsContradict(y, x) && !Outranked(items, y);
      assert Refutes(items, y, x);
    }
    if y :| Refutes(items, y, x) {
      assert y in ItemsAbove(items, x);
    }
  }

  /** The sweep supersedes the outranked items, and no others. */
  ghost predicate FollowsPriority(items: map<string, MemoryItem>) {
    forall x :: x in items.Values ==> (x.memoryId in Losers(SweepPairs(items)) <==> Outranked(items, x))
  }

  // ---------------------------------------------------------------- one ranked group

  /** Row a refutes row b, when the ids in `out` are the ones to lose. */
  ghost predicate Beats(r: seq<MemoryItem>, out: set<string>, a: nat, b: nat)
    requires a < |r| && b < |r|
  {
    r[a].memoryId !in out && Above(r[a], r[b]) && ItemsContradict(r[a], r[b])
  }

  ghost predicate Beaten(r: seq<MemoryItem>, out: set<string>, b: nat)
    requires b < |r|
  {
    exists a :: 0 <= a < |r| && Beats(r, out, a, b)
  }

  ghost predicate KernelOf(r: seq<MemoryItem>, out: set<string>) {
    forall b :: 0 <= b < |r| ==> (r[b].memoryId in out <==> Beaten(r, out, b))
  }

  /** Of the rows visited between b and a, those that contradict b lose anyway. */
  ghost predicate HarmlessBetween(r: seq<MemoryItem>, out: set<string>, b: nat, a: nat)
    requires b < |r|
  {
    forall k :: b < k < a && k < |r| && ItemsContradict(r[b], r[k]) ==> r[k].memoryId in out
  }

  /** Row b meets what refutes it in time. If it is to lose, something that refutes it comes before
      it, or comes later with only harmless rows between. If it is not, whatever ranks above
      it, contradicts it and comes later has been beaten before b has its turn. */
  ghost predicate RowInTime(r: seq<MemoryItem>, out: set<string>, b: nat)
    requires b < |r|
  {
    if r[b].memoryId in out then
      exists a :: 0 <= a < |r| && Beats(r, out, a, b) && (a < b || HarmlessBetween(r, out, b, a))
    else forall j :: b < j < |r| && ItemsContradict(r[b], r[j]) && Above(r[j], r[b]) ==>
      exists p :: 0 <= p < b && Beats(r, out, p, j)
  }

  ghost predicate AllInTime(r: seq<MemoryItem>, out: set<string>) {
    forall b :: 0 <= b < |r| ==> RowInTime(r, out, b)
  }

  /** The scan at (i, j) is past the pair of rows a and b, in whichever order. */
  ghost predicate Past(i: nat, j: nat, a: nat, b: nat) {
    (a < b && (a < i || (a == i && b < j))) || (b < a && (b < i || (b == i && a < j)))
  }

  /** So far only rows that are to lose have lost, and every beaten row whose pair is past has. */
  ghost predicate OnTrack(r: seq<MemoryItem>, i: nat, j: nat, lost: set<string>, out: set<string>) {
    && (forall b :: 0 <= b < |r| && r[b].memoryId in lost ==> r[b].memoryId in out)
    && forall a, b :: 0 <= a < |r| && 0 <= b < |r| && Past(i, j, a, b) && Beats(r, out, a, b) ==> r[b].memoryId in lost
  }

  /** The pair that is resolved next has a loser that is to lose. */
  lemma ResolvedLoserIsOut(r: seq<MemoryItem>, i: nat, j: nat, lost: set<string>, out: set<string>)
    requires Visits(r) && KernelOf(r, out) && AllInTime(r, out) && OnTrack(r, i, j, lost, out)
    requires i < j < |r| && r[i].memoryId !in lost && r[j].memoryId !in lost && ItemsContradict(r[i], r[j])
    ensures Rank(r[i], r[j]).loser.memoryId in out
  {
    hide ItemsContradict, Above, KeyGe;
    RankIsAbove(r, i, j);
    assert RowInTime(r, out, i);
    forall p | 0 <= p < i ensures !Beats(r, out, p, j) {
      assert Past(i, j, p, j);
    }
    if Above(r[i], r[j]) {
      if r[i].memoryId in out {
        var a :| 0 <= a < |r| && Beats(r, out, a, i) && (a < i || HarmlessBetween(r, out, i, a));
        AboveIsStrictTotalOrder(r[i], r[j], r[i]);
        assert a != i && !Past(i, j, a, i) && a != j;
      } else {
        assert Beats(r, out, i, j);
      }
    }
  }

  /** A pair is ranked by priority, whichever of the two is visited first. */
  lemma RankIsAbove(r: seq<MemoryItem>, i: nat, j: nat)
    requires Visits(r) && i < j < |r|
    ensures Above(r[i], r[j]) ==> Rank(r[i], r[j]) == Resolution(r[i], r[j])
    ensures Above(r[j], r[i]) ==> Rank(r[i], r[j]) == Resolution(r[j], r[i])
    ensures Above(r[i], r[j]) || Above(r[j], r[i])
  {
    RankGoesDown(r, i, j);
    AboveIsStrictTotalOrder(r[i], r[j], r[i]);
  }

  lemma TrackSkips(r: seq<MemoryItem>, i: nat, j: nat, lost: set<string>, out: set<string>)
    requires i < j < |r| && OnTrack(r, i, j, lost, out)
    requires r[j].memoryId in lost || !ItemsContradict(r[i], r[j])
    ensures OnTrack(r, i, j + 1, lost, out)
  {
    hide ItemsContradict, Above;
    ContradictionIsSymmetric(r[i], r[j]);
    forall a, b | 0 <= a < |r| && 0 <= b < |r| && Past(i, j + 1, a, b) && Beats(r, out, a, b)
      ensures r[b].memoryId in lost
    {
      assert Past(i, j, a, b) || (a == i && b == j) || (a == j && b == i);
    }
  }

  lemma TrackResolves(r: seq<MemoryItem>, i: nat, j: nat, lost: set<string>, out: set<string>)
    requires Visits(r) && i < j < |r| && OnTrack(r, i, j, lost, out) && Rank(r[i], r[j]).loser.memoryId in out
    ensures OnTrack(r, i, j + 1, lost + {Rank(r[i], r[j]).loser.memoryId}, out)
  {
    hide ItemsContradict, Above, Rank, KeyGe;
    RankIsAbove(r, i, j);
    AboveIsStrictTotalOrder(r[i], r[j], r[i]);
    var more := lost + {Rank(r[i], r[j]).loser.memoryId};
    forall a, b | 0 <= a < |r| && 0 <= b < |r| && Past(i, j + 1, a, b) && Beats(r, out, a, b)
      ensures r[b].memoryId in more
    {
      assert Past(i, j, a, b) || (a == i && b == j) || (a == j && b == i);
    }
  }

  /** At the end of a row, or when the row itself is lost, the rest of its pairs are past. */
  lemma TrackTurns(r: seq<MemoryItem>, i: nat, j: nat, lost: set<string>, out: set<string>)
    requires i < |r| && i < j && OnTrack(r, i, j, lost, out) && (j >= |r| || r[i].memoryId in lost)
    ensures OnTrack(r, i + 1, i + 2, lost, out)
  {
    hide ItemsContradict, Above;
    forall a, b | 0 <= a < |r| && 0 <= b < |r| && Past(i + 1, i + 2, a, b) && Beats(r, out, a, b)
      ensures r[b].memoryId in lost
    {
      assert Past(i, j, a, b) || a == i || b == i;
    }
  }

  /** A scan whose rows are all in time supersedes exactly the kernel. */
  lemma {:induction false} ScanIsKernel(r: seq<MemoryItem>, i: nat, j: nat, lost: set<string>, out: set<string>, b: nat)
    requires Visits(r) && KernelOf(r, out) && AllInTime(r, out) && OnTrack(r, i, j, lost, out) && i < j
    requires b < |r|
    ensures r[b].memoryId in LostAfter(r, i, j, lost) <==> r[b].memoryId in out
    decreases |r| - i, |r| - j
  {
    hide ItemsContradict, Above, KernelOf, AllInTime, Rank, Visits, OnTrack, LostAfter, Scan;
    if i >= |r| {
      EndOfTrack(r, i, j, lost, out, b);
      EndOfScan(r, i, j, lost);
    } else if j >= |r| || r[i].memoryId in lost {
      LostAfterSkip(r, i, j, lost);
      TrackTurns(r, i, j, lost, out);
      ScanIsKernel(r, i + 1, i + 2, lost, out, b);
    } else if r[j].memoryId in lost || !ItemsContradict(r[i], r[j]) {
      LostAfterSkip(r, i, j, lost);
      TrackSkips(r, i, j, lost, out);
      ScanIsKernel(r, i, j + 1, lost, out, b);
    } else {
      LostAfterStep(r, i, j, lost);
      ResolvedLoserIsOut(r, i, j, lost, out);
      TrackResolves(r, i, j, lost, out);
      ScanIsKernel(r, i, j + 1, lost + {Rank(r[i], r[j]).loser.memoryId}, out, b);
    }
  }

  lemma EndOfScan(r: seq<MemoryItem>, i: nat, j: nat, lost: set<string>)
    requires i >= |r|
    ensures LostAfter(r, i, j, lost) == lost
  {
  }

  lemma EndOfTrack(r: seq<MemoryItem>, i: nat, j: nat, lost: set<string>, out: set<string>, b: nat)
    requires KernelOf(r, out) && OnTrack(r, i, j, lost, out) && i >= |r| && b < |r|
    ensures r[b].memoryId in lost <==> r[b].memoryId in out
  {
    hide ItemsContradict;
    if r[b].memoryId in out {
      var a :| 0 <= a < |r| && Beats(r, out, a, b);
      AboveIsStrictTotalOrder(r[b], r[b], r[b]);
      assert a != b && Past(i, j, a, b);
    }
  }

  // ---------------------------------------------------------------- all groups

  /** Visited before, in one group. */
  ghost predicate Before(x: MemoryItem, y: MemoryItem) {
    Group(x) == Group(y) && VisitLe(x, y) && x.memoryId != y.memoryId
  }

  /** The same of an item of the table. */
  ghost predicate InTime(items: map<string, MemoryItem>, x: MemoryItem) {
    if Outranked(items, x) then exists y :: Refutes(items, y, x) && (Before(y, x) || Harmless(items, x, y))
    else forall z :: z in items.Values && Before(x, z) && ItemsContradict(x, z) && Above(z, x) ==>
      BeatenBefore(items, z, x)
  }

  /** Of the items visited between x and y, those that contradict x are outranked. */
  ghost predicate Harmless(items: map<string, MemoryItem>, x: MemoryItem, y: MemoryItem) {
    forall z :: z in items.Values && Before(x, z) && Before(z, y) && ItemsContradict(x, z) ==> Outranked(items, z)
  }

  /** Something that refutes z is visited before x. */
  ghost predicate BeatenBefore(items: map<string, MemoryItem>, z: MemoryItem, x: MemoryItem) {
    exists p :: Refutes(items, p, z) && Before(p, x)
  }

  ghost function OutrankedIds(items: map<string, MemoryItem>): set<string> {
    set id | id in items && Outranked(items, items[id])
  }

  /** The rows of a ranked group, by place and by item. */
  lemma RowsOfGroup(items: map<string, MemoryItem>, g: GroupKey)
    requires WellKeyed(items)
    ensures Visits(Ranking(items, g))
    ensures forall a :: 0 <= a < |Ranking(items, g)| ==>
      var x := Ranking(items, g)[a];
      && x in items.Values && items[x.memoryId] == x && Group(x) == g
      && (x.memoryId in OutrankedIds(items) <==> Outranked(items, x))
    ensures forall a, b :: 0 <= a < |Ranking(items, g)| && 0 <= b < |Ranking(items, g)| ==>
      (a < b <==> Before(Ranking(items, g)[a], Ranking(items, g)[b]))
  {
    hide Ranking, ItemsContradict, Outranked;
    var r := Ranking(items, g);
    RankingRanks(items, g);
    VisitLeIsPreorder();
    forall a | 0 <= a < |r| ensures r[a] in items.Values && items[r[a].memoryId] == r[a] && Group(r[a]) == g {
      assert r[a] in r;
      assert r[a] in Members(items, g);
    }
    hide VisitLe;
    forall a, b | 0 <= a < |r| && 0 <= b < |r| ensures a < b <==> Before(r[a], r[b]) {
      assert a < b ==> VisitLe(r[a], r[b]);
      assert b < a ==> VisitLe(r[b], r[a]);
    }
  }

  lemma PlaceInGroup(items: map<string, MemoryItem>, x: MemoryItem) returns (b: nat)
    requires WellKeyed(items) && x in items.Values
    ensures b < |Ranking(items, Group(x))| && Ranking(items, Group(x))[b] == x
  {
    hide Ranking;
    var r := Ranking(items, Group(x));
    RankingRanks(items, Group(x));
    assert x in Members(items, Group(x));
    b :| 0 <= b < |r| && r[b] == x;
  }

  lemma BeatsIsRefutes(items: map<string, MemoryItem>, g: GroupKey, a: nat, b: nat)
    requires WellKeyed(items) && a < |Ranking(items, g)| && b < |Ranking(items, g)|
    ensures Beats(Ranking(items, g), OutrankedIds(items), a, b) <==>
      Refutes(items, Ranking(items, g)[a], Ranking(items, g)[b])
  {
    hide Ranking, ItemsContradict, Above, Outranked, OutrankedIds, Before;
    RowsOfGroup(items, g);
  }

  /** Who refutes a row has a place in its group. */
  lemma PlaceOfRefuter(items: map<string, MemoryItem>, g: GroupKey, y: MemoryItem, b: nat) returns (a: nat)
    requires WellKeyed(items) && b < |Ranking(items, g)| && Refutes(items, y, Ranking(items, g)[b])
    ensures a < |Ranking(items, g)| && Ranking(items, g)[a] == y
    ensures Beats(Ranking(items, g), OutrankedIds(items), a, b)
  {
    hide Ranking, ItemsContradict, Above, Outranked, OutrankedIds, Before;
    RowsOfGroup(items, g);
    ContradictionIsInGroup(y, Ranking(items, g)[b]);
    a := PlaceInGroup(items, y);
    BeatsIsRefutes(items, g, a, b);
  }

  lemma GroupKernel(items: map<string, MemoryItem>, g: GroupKey)
    requires WellKeyed(items)
    ensures KernelOf(Ranking(items, g), OutrankedIds(items))
  {
    hide Ranking, ItemsContradict, Above, Outranked, OutrankedIds, Before, Beats, Refutes;
    var r, out := Ranking(items, g), OutrankedIds(items);
    RowsOfGroup(items, g);
    forall b | 0 <= b < |r| ensures r[b].memoryId in out <==> Beaten(r, out, b) {
      OutrankedIsRefuted(items, r[b]);
      if y :| Refutes(items, y, r[b]) {
        var a := PlaceOfRefuter(items, g, y, b);
      }
      if a :| 0 <= a < |r| && Beats(r, out, a, b) {
        BeatsIsRefutes(items, g, a, b);
      }
    }
  }

  lemma RowsAreInTime(items: map<string, MemoryItem>, g: GroupKey)
    requires WellKeyed(items) && forall x :: x in items.Values ==> InTime(items, x)
    ensures AllInTime(Ranking(items, g), OutrankedIds(items))
  {
    hide Ranking, ItemsContradict, Above, Outranked, OutrankedIds, Before, Beats, Refutes, RowInTime, InTime;
    RowsOfGroup(items, g);
    forall b | 0 <= b < |Ranking(items, g)| ensures RowInTime(Ranking(items, g), OutrankedIds(items), b) {
      RowIsInTime(items, g, b);
    }
  }

  lemma RowIsInTime(items: map<string, MemoryItem>, g: GroupKey, b: nat)
    requires WellKeyed(items) && b < |Ranking(items, g)| && InTime(items, Ranking(items, g)[b])
    ensures RowInTime(Ranking(items, g), OutrankedIds(items), b)
  {
    hide Ranking, ItemsContradict, Above, Outranked, OutrankedIds, Before, Beats, Refutes;
    var r, out := Ranking(items, g), OutrankedIds(items);
    var x := r[b];
    RowsOfGroup(items, g);
    if Outranked(items, x) {
      var y :| Refutes(items, y, x) && (Before(y, x) || Harmless(items, x, y));
      var a := PlaceOfRefuter(items, g, y, b);
      assert a < b || HarmlessBetween(r, out, b, a);
    } else {
      forall j | b < j < |r| && ItemsContradict(x, r[j]) && Above(r[j], x)
        ensures exists p :: 0 <= p < b && Beats(r, out, p, j)
      {
        assert BeatenBefore(items, r[j], x);
        var q :| Refutes(items, q, r[j]) && Before(q, x);
        var p := PlaceOfRefuter(items, g, q, j);
      }
    }
  }

  /** Where every item is in time, a sweep supersedes the items the priority outranks, and no
      others. */
  lemma SweepFollowsPriority(items: map<string, MemoryItem>)
    requires WellKeyed(items) && forall x :: x in items.Values ==> InTime(items, x)
    ensures FollowsPriority(items)
  {
    hide ItemsContradict, SweepPairs, Losers, Ranking, Visits, Scan, InTime, Outranked, OutrankedIds, Before;
    hide KernelOf, AllInTime;
    forall x | x in items.Values ensures x.memoryId in Losers(SweepPairs(items)) <==> Outranked(items, x) {
      var g := Group(x);
      var b := PlaceInGroup(items, x);
      RowsOfGroup(items, g);
      GroupKernel(items, g);
      RowsAreInTime(items, g);
      LostInOwnGroup(items, x);
      NothingLost(Ranking(items, g), OutrankedIds(items));
      ScanIsKernel(Ranking(items, g), 0, 1, {}, OutrankedIds(items), b);
      LostInGroup(items, g);
    }
  }

  lemma NothingLost(r: seq<MemoryItem>, out: set<string>)
    ensures OnTrack(r, 0, 1, {}, out)
  {
  }
}

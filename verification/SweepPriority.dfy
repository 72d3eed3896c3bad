/** Conditions under which a sweep follows the documented priority, the exact one among them, and how
    it fails otherwise. */
module SweepPriority {
  import opened Ordering
  import opened Memory
  import opened Resolver
  import opened ResolverRuns
  import opened SweepKernel

  // ---------------------------------------------------------------- settled inversions

  /** x is visited before y, which ranks above it. */
  ghost predicate Inverted(x: MemoryItem, y: MemoryItem) {
    Before(x, y) && Above(y, x)
  }

  /** Of two contradicting items visited in the wrong order, the first has been refuted before. */
  ghost predicate InversionsAreSettled(items: map<string, MemoryItem>) {
    forall x, y :: x in items.Values && y in items.Values && ItemsContradict(x, y) && Inverted(x, y) ==>
      BeatenBefore(items, x, x)
  }

  /** One of two items of a group is visited first. */
  lemma BeforeIsTotal(x: MemoryItem, y: MemoryItem)
    requires Group(x) == Group(y) && x.memoryId != y.memoryId
    ensures Before(x, y) || Before(y, x)
    ensures !(Before(x, y) && Before(y, x))
  {
    VisitLeIsPreorder();
  }

  lemma SettledInversionsAreInTime(items: map<string, MemoryItem>, x: MemoryItem)
    requires WellKeyed(items) && InversionsAreSettled(items) && x in items.Values
    ensures InTime(items, x)
  {
    hide ItemsContradict, Above, Before, Outranked;
    OutrankedIsRefuted(items, x);
    if Outranked(items, x) {
      var y :| Refutes(items, y, x);
      ContradictionIsInGroup(y, x);
      ContradictionIsSymmetric(x, y);
      SameIdSameItem(items, x, y);
      BeforeIsTotal(x, y);
    } else {
      assert !BeatenBefore(items, x, x);
    }
  }

  lemma SameIdSameItem(items: map<string, MemoryItem>, x: MemoryItem, y: MemoryItem)
    requires WellKeyed(items) && x in items.Values && y in items.Values
    ensures x.memoryId == y.memoryId ==> x == y
  {
    var k :| k in items && items[k] == x;
    var l :| l in items && items[l] == y;
  }

  // ---------------------------------------------------------------- priority by confidence alone

  ghost function MoreConfident(items: map<string, MemoryItem>, x: MemoryItem): set<MemoryItem> {
    set y | y in items.Values && y.confidence > x.confidence
  }

  lemma MoreConfidentShrinks(items: map<string, MemoryItem>, x: MemoryItem)
    ensures forall y :: y in MoreConfident(items, x) ==> MoreConfident(items, y) < MoreConfident(items, x)
  {
    forall y | y in MoreConfident(items, x) ensures MoreConfident(items, y) < MoreConfident(items, x) {
      assert y !in MoreConfident(items, y);
    }
  }

  /** The greedy kernel, by confidence alone: an item is refuted when a strictly more
      confident item contradicts it and is not refuted itself. */
  ghost predicate Refuted(items: map<string, MemoryItem>, x: MemoryItem)
    decreases MoreConfident(items, x)
  {
    MoreConfidentShrinks(items, x);
    exists y :: y in MoreConfident(items, x) && ItemsContradict(y, x) && !Refuted(items, y)
  }

  /** No contradiction is left to the tie-breaks: of two contradicting items of equal
      confidence, one is refuted by something more confident. */
  ghost predicate TiesAreRefuted(items: map<string, MemoryItem>) {
    forall x, y :: x in items.Values && y in items.Values && ItemsContradict(x, y) && x.confidence == y.confidence ==>
      Refuted(items, x) || Refuted(items, y)
  }

  /** Where the ties are refuted, the tie-breaks do not matter. */
  lemma {:induction false} RefutedIsOutranked(items: map<string, MemoryItem>, x: MemoryItem)
    requires TiesAreRefuted(items) && x in items.Values
    ensures Outranked(items, x) <==> Refuted(items, x)
    decreases ItemsAbove(items, x)
  {
    hide ItemsContradict, TiesAreRefuted, Above, Refuted;
    ItemsAboveShrinks(items, x);
    forall y | y in ItemsAbove(items, x) ensures Outranked(items, y) <==> Refuted(items, y) {
      RefutedIsOutranked(items, y);
    }
    MoreConfidentIsAbove(items, x);
    RefutedUnfolds(items, x);
    OutrankedIsRefuted(items, x);
    if y :| Refutes(items, y, x) {
      assert y in ItemsAbove(items, x);
      if y.confidence == x.confidence { OneOfTieIsRefuted(items, y, x); }
    }
    if y :| y in MoreConfident(items, x) && ItemsContradict(y, x) && !Refuted(items, y) {
      assert y in ItemsAbove(items, x) && Refutes(items, y, x);
    }
  }

  lemma RefutedUnfolds(items: map<string, MemoryItem>, x: MemoryItem)
    ensures Refuted(items, x) <==>
      exists y :: y in MoreConfident(items, x) && ItemsContradict(y, x) && !Refuted(items, y)
  {
    hide ItemsContradict;
  }

  lemma MoreConfidentIsAbove(items: map<string, MemoryItem>, x: MemoryItem)
    ensures MoreConfident(items, x) <= ItemsAbove(items, x)
    ensures forall y :: y in ItemsAbove(items, x) && y.confidence != x.confidence ==> y in MoreConfident(items, x)
  {
  }

  lemma OneOfTieIsRefuted(items: map<string, MemoryItem>, x: MemoryItem, y: MemoryItem)
    requires TiesAreRefuted(items) && x in items.Values && y in items.Values
    requires ItemsContradict(x, y) && x.confidence == y.confidence
    ensures Refuted(items, x) || Refuted(items, y)
  {
    hide ItemsContradict;
  }

  /** A more confident item of the group is visited before. */
  lemma RefutedIsBeatenBefore(items: map<string, MemoryItem>, z: MemoryItem, x: MemoryItem)
    requires WellKeyed(items) && TiesAreRefuted(items) && z in items.Values && x in items.Values && Refuted(items, z)
    requires Group(z) == Group(x) && z.confidence == x.confidence
    ensures BeatenBefore(items, z, x)
  {
    hide ItemsContradict, TiesAreRefuted, Outranked;
    var y :| y in MoreConfident(items, z) && ItemsContradict(y, z) && !Refuted(items, y);
    RefutedIsOutranked(items, y);
    ContradictionIsInGroup(y, z);
    SameIdSameItem(items, y, x);
    assert Refutes(items, y, z) && Before(y, x);
  }

  lemma TiesRefutedAreInTime(items: map<string, MemoryItem>, x: MemoryItem)
    requires WellKeyed(items) && TiesAreRefuted(items) && x in items.Values
    ensures InTime(items, x)
  {
    hide ItemsContradict, TiesAreRefuted, Outranked, Refuted;
    RefutedIsOutranked(items, x);
    if Outranked(items, x) {
      RefutedIsBeatenBefore(items, x, x);
    } else {
      forall z | z in items.Values && Before(x, z) && ItemsContradict(x, z) && Above(z, x)
        ensures BeatenBefore(items, z, x)
      {
        OneOfTieIsRefuted(items, x, z);
        RefutedIsBeatenBefore(items, z, x);
      }
    }
  }

  /** The exact condition: a sweep supersedes the refuted items, and no others, if and only if
      every contradiction between equally confident items involves a refuted one. */
  lemma SweepIsKernelIff(items: map<string, MemoryItem>)
    requires WellKeyed(items)
    ensures (forall x :: x in items.Values ==> (x.memoryId in Losers(SweepPairs(items)) <==> Refuted(items, x)))
      <==> TiesAreRefuted(items)
  {
    hide ItemsContradict, SweepPairs, Losers, InTime, Outranked, Refuted;
    if TiesAreRefuted(items) {
      forall x | x in items.Values ensures InTime(items, x) && (Outranked(items, x) <==> Refuted(items, x)) {
        TiesRefutedAreInTime(items, x);
        RefutedIsOutranked(items, x);
      }
      SweepFollowsPriority(items);
    } else {
      var x, y :| x in items.Values && y in items.Values && ItemsContradict(x, y)
        && !Refuted(items, x) && !Refuted(items, y);
      SweepCovers(items, x, y);
    }
  }

  // ---------------------------------------------------------------- every pattern of contradictions

  /** No group visits an item before one that ranks two places or more above it. */
  ghost predicate NoneOvertaken(items: map<string, MemoryItem>) {
    forall k, c, l :: ThreeRanked(items, k, c, l) ==> !Before(l, k)
  }

  /** k ranks above c, and c above l. */
  ghost predicate ThreeRanked(items: map<string, MemoryItem>, k: MemoryItem, c: MemoryItem, l: MemoryItem) {
    && k in items.Values && c in items.Values && l in items.Values
    && Group(c) == Group(l) && Above(k, c) && Above(c, l)
  }

  lemma NoneOvertakenIsInTime(items: map<string, MemoryItem>, x: MemoryItem)
    requires WellKeyed(items) && NoneOvertaken(items) && x in items.Values
    ensures InTime(items, x)
  {
    hide ItemsContradict, Above, Before, Outranked;
    OutrankedIsRefuted(items, x);
    if Outranked(items, x) {
      var y :| Refutes(items, y, x);
      ContradictionIsInGroup(y, x);
      SameIdSameItem(items, x, y);
      BeforeIsTotal(x, y);
      forall z | z in items.Values && Before(x, z) && Before(z, y) ensures Before(y, x) {
        BeforeIsInGroup(x, z);
        OvertakenAmong(items, x, z, y);
      }
    } else {
      forall z | z in items.Values && Before(x, z) && ItemsContradict(x, z) && Above(z, x)
        ensures BeatenBefore(items, z, x)
      {
        ContradictionIsSymmetric(x, z);
        BeforeIsInGroup(x, z);
        assert Outranked(items, z) || Refutes(items, z, x);
        OutrankedIsRefuted(items, z);
        var q :| Refutes(items, q, z);
        RefuterIsBefore(items, x, z, q);
      }
    }
  }

  lemma BeforeIsInGroup(x: MemoryItem, y: MemoryItem)
    requires Before(x, y)
    ensures Group(x) == Group(y) && x.memoryId != y.memoryId
  {
  }

  /** Nothing is visited between two items in the wrong order. */
  lemma OvertakenAmong(items: map<string, MemoryItem>, x: MemoryItem, z: MemoryItem, y: MemoryItem)
    requires WellKeyed(items) && NoneOvertaken(items) && x in items.Values && y in items.Values && z in items.Values
    requires Group(x) == Group(y) == Group(z) && Above(y, x) && Before(x, z) && Before(z, y)
    ensures Before(y, x)
  {
    hide ItemsContradict, Above, Before;
    BeforeIsInGroup(x, z);
    BeforeIsInGroup(z, y);
    BeforeIsTotal(x, z);
    BeforeIsTotal(z, y);
    AboveIsStrictTotalOrder(x, z, x);
    AboveIsStrictTotalOrder(y, z, y);
    AboveIsStrictTotalOrder(y, x, y);
    assert ThreeRanked(items, y, z, x) || ThreeRanked(items, z, y, x) || ThreeRanked(items, y, x, z);
    AboveHasOtherId(items, y, x);
    BeforeIsTotal(x, y);
  }

  lemma AboveHasOtherId(items: map<string, MemoryItem>, x: MemoryItem, y: MemoryItem)
    requires WellKeyed(items) && x in items.Values && y in items.Values && Above(x, y)
    ensures x.memoryId != y.memoryId
  {
    hide Above;
    SameIdSameItem(items, x, y);
    AboveIsStrictTotalOrder(x, x, x);
  }

  lemma RefuterIsBefore(items: map<string, MemoryItem>, x: MemoryItem, z: MemoryItem, q: MemoryItem)
    requires WellKeyed(items) && NoneOvertaken(items) && x in items.Values && z in items.Values
    requires Group(x) == Group(z) && Above(z, x) && Refutes(items, q, z)
    ensures BeatenBefore(items, z, x)
  {
    hide ItemsContradict, Above, Before, Outranked;
    ContradictionIsInGroup(q, z);
    AboveIsStrictTotalOrder(q, z, x);
    AboveHasOtherId(items, q, x);
    BeforeIsTotal(x, q);
    assert ThreeRanked(items, q, z, x);
  }

  /** The same items making other claims. */
  ghost predicate Reclaimed(items: map<string, MemoryItem>, other: map<string, MemoryItem>) {
    && other.Keys == items.Keys
    && forall id :: id in items ==> other[id] == items[id].(claim := other[id].claim)
  }

  lemma ReclaimedKeepsOrders(items: map<string, MemoryItem>, other: map<string, MemoryItem>)
    requires WellKeyed(items) && Reclaimed(items, other)
    ensures WellKeyed(other) && (NoneOvertaken(items) ==> NoneOvertaken(other))
  {
    if NoneOvertaken(items) {
      forall k, c, l | ThreeRanked(other, k, c, l) ensures !Before(l, k) {
        var k0, c0, l0 := items[k.memoryId], items[c.memoryId], items[l.memoryId];
        SameOrders(k, k0, c, c0);
        SameOrders(c, c0, l, l0);
        SameOrders(l, l0, k, k0);
        assert k0 in items.Values && c0 in items.Values && l0 in items.Values;
        assert ThreeRanked(items, k0, c0, l0);
      }
    }
  }

  /** Neither order, nor the group, looks at the claim. */
  lemma SameOrders(x: MemoryItem, x': MemoryItem, y: MemoryItem, y': MemoryItem)
    requires x' == x.(claim := x'.claim) && y' == y.(claim := y'.claim)
    ensures Above(x, y) == Above(x', y') && Before(x, y) == Before(x', y')
    ensures (Group(x) == Group(y)) == (Group(x') == Group(y'))
  {
  }

  /** One item says something, some others deny it, and the rest say nothing. */
  ghost function Star(items: map<string, MemoryItem>, c: string, leaves: set<string>): (other: map<string, MemoryItem>)
    ensures Reclaimed(items, other)
  {
    map id | id in items :: items[id].(claim :=
      if id == c then Claim({"w"}, true) else if id in leaves then Claim({"w"}, false) else Claim({}, true))
  }

  /** One of the two is the middle of the star, the other a leaf. */
  ghost predicate Across(c: string, leaves: set<string>, x: MemoryItem, y: MemoryItem) {
    (x.memoryId == c && y.memoryId in leaves) || (y.memoryId == c && x.memoryId in leaves)
  }

  lemma StarContradicts(items: map<string, MemoryItem>, c: string, leaves: set<string>, x: MemoryItem, y: MemoryItem)
    requires WellKeyed(items) && c !in leaves && x in Star(items, c, leaves).Values
      && y in Star(items, c, leaves).Values
    ensures ItemsContradict(x, y) <==> Group(x) == Group(y) && Across(c, leaves, x, y)
  {
    assert {"w"} * {"w"} == {"w"} && {"w"} + {"w"} == {"w"};
  }

  /** Scanning up to the first contradicting pair resolves nothing. */
  lemma {:induction false} ScanToFirst(r: seq<MemoryItem>, i: nat, j: nat, a: nat, b: nat)
    requires i < j && a < b < |r| && (i < a || (i == a && j <= b))
    requires forall p, q :: 0 <= p < q < |r| && (p < a || (p == a && q < b)) ==> !ItemsContradict(r[p], r[q])
    ensures Scan(r, i, j, {}) == Scan(r, a, b, {})
    decreases |r| - i, |r| - j
  {
    hide ItemsContradict;
    if i == a && j == b {
    } else if j >= |r| {
      ScanToFirst(r, i + 1, i + 2, a, b);
    } else {
      ScanToFirst(r, i, j + 1, a, b);
    }
  }

  /** The loser of the first contradicting pair that a group visits is superseded. */
  lemma FirstPairDecides(r: seq<MemoryItem>, a: nat, b: nat)
    requires a < b < |r| && ItemsContradict(r[a], r[b])
    requires forall p, q :: 0 <= p < q < |r| && (p < a || (p == a && q < b)) ==> !ItemsContradict(r[p], r[q])
    ensures Rank(r[a], r[b]).loser.memoryId in LostAfter(r, 0, 1, {})
  {
    hide ItemsContradict, Rank;
    ScanToFirst(r, 0, 1, a, b);
    assert Scan(r, a, b, {})[0] == Rank(r[a], r[b]);
    assert Rank(r[a], r[b]) in Elements(Scan(r, 0, 1, {}));
  }

  /** The middle of three in priority, c, contradicts both others, which do not contradict each
      other. If the lowest, l, is visited before the highest, it is superseded, although the
      only item it contradicts is superseded as well. */
  lemma OvertakenLosesWrongly(items: map<string, MemoryItem>, k: MemoryItem, c: MemoryItem, l: MemoryItem)
    requires WellKeyed(items) && ThreeRanked(items, k, c, l) && Before(l, k)
    ensures var other := Star(items, c.memoryId, {k.memoryId, l.memoryId}); var lost := Losers(SweepPairs(other));
            l.memoryId in lost && c.memoryId in lost && !Outranked(other, other[l.memoryId])
  {
    hide ItemsContradict, Above, Before, Outranked, SweepPairs, Losers, Star;
    DistinctThree(items, k, c, l);
    var ids := {k.memoryId, l.memoryId};
    var other := Star(items, c.memoryId, ids);
    ReclaimedKeepsOrders(items, other);
    var k', c', l' := other[k.memoryId], other[c.memoryId], other[l.memoryId];
    SameOrders(k, k', c, c');
    SameOrders(c, c', l, l');
    SameOrders(l, l', k, k');
    BeforeIsInGroup(l', k');
    assert k' in other.Values && c' in other.Values && l' in other.Values;
    StarIsStar(items, k, c, l);
    StarIsOutranked(other, k', c', l');
    StarLoser(other, k', c', l');
    StarCenterLoses(other, k', c', l');
  }

  lemma DistinctThree(items: map<string, MemoryItem>, k: MemoryItem, c: MemoryItem, l: MemoryItem)
    requires WellKeyed(items) && k in items.Values && c in items.Values && l in items.Values
    requires Above(k, c) && Above(c, l)
    ensures k.memoryId != c.memoryId && c.memoryId != l.memoryId && k.memoryId != l.memoryId
    ensures items[k.memoryId] == k && items[c.memoryId] == c && items[l.memoryId] == l
  {
    hide Above;
    AboveIsStrictTotalOrder(k, c, l);
    AboveIsStrictTotalOrder(k, k, k);
    AboveIsStrictTotalOrder(c, c, c);
    SameIdSameItem(items, k, c);
    SameIdSameItem(items, c, l);
    SameIdSameItem(items, k, l);
  }

  /** c contradicts k and l, and nothing else contradicts anything. */
  ghost predicate IsStar(items: map<string, MemoryItem>, k: MemoryItem, c: MemoryItem, l: MemoryItem) {
    && k in items.Values && c in items.Values && l in items.Values
    && k.memoryId != c.memoryId && c.memoryId != l.memoryId && k.memoryId != l.memoryId
    && forall x, y :: x in items.Values && y in items.Values ==>
         (ItemsContradict(x, y) <==> (x == c && (y == k || y == l)) || (y == c && (x == k || x == l)))
  }

  lemma StarIsStar(items: map<string, MemoryItem>, k: MemoryItem, c: MemoryItem, l: MemoryItem)
    requires WellKeyed(items) && ThreeRanked(items, k, c, l) && Group(k) == Group(l)
    ensures var other := Star(items, c.memoryId, {k.memoryId, l.memoryId});
            IsStar(other, other[k.memoryId], other[c.memoryId], other[l.memoryId])
  {
    hide ItemsContradict, Above, Star;
    DistinctThree(items, k, c, l);
    var ids := {k.memoryId, l.memoryId};
    var other := Star(items, c.memoryId, ids);
    ReclaimedKeepsOrders(items, other);
    var k', c', l' := other[k.memoryId], other[c.memoryId], other[l.memoryId];
    assert k' in other.Values && c' in other.Values && l' in other.Values;
    SameOrders(k, k', c, c');
    SameOrders(c, c', l, l');
    forall x, y | x in other.Values && y in other.Values
      ensures ItemsContradict(x, y) <==> (x == c' && (y == k' || y == l')) || (y == c' && (x == k' || x == l'))
    {
      StarContradicts(items, c.memoryId, ids, x, y);
      SameIdSameItem(other, x, k');
      SameIdSameItem(other, x, c');
      SameIdSameItem(other, x, l');
      SameIdSameItem(other, y, k');
      SameIdSameItem(other, y, c');
      SameIdSameItem(other, y, l');
    }
  }

  lemma StarIsOutranked(items: map<string, MemoryItem>, k: MemoryItem, c: MemoryItem, l: MemoryItem)
    requires IsStar(items, k, c, l) && Above(k, c) && Above(c, l)
    ensures !Outranked(items, k) && Outranked(items, c) && !Outranked(items, l)
  {
    hide ItemsContradict, Above;
    AboveIsStrictTotalOrder(k, c, k);
    OutrankedIsRefuted(items, k);
    OutrankedIsRefuted(items, c);
    OutrankedIsRefuted(items, l);
    assert Refutes(items, k, c);
  }

  lemma PlaceIsUnique(r: seq<MemoryItem>, p: nat, a: nat, b: nat, c: nat)
    requires Visits(r) && p < |r| && a < |r| && b < |r| && c < |r|
    ensures (r[p] == r[a] ==> p == a) && (r[p] == r[b] ==> p == b) && (r[p] == r[c] ==> p == c)
  {
  }

  /** The pair of c and l is the first contradicting pair that the group visits. */
  lemma StarLoser(items: map<string, MemoryItem>, k: MemoryItem, c: MemoryItem, l: MemoryItem)
    requires WellKeyed(items) && IsStar(items, k, c, l) && Above(c, l) && Before(l, k) && Group(c) == Group(l)
    ensures l.memoryId in Losers(SweepPairs(items))
  {
    hide ItemsContradict, Above, Before, SweepPairs, Losers, Ranking, Visits, Rank, Scan;
    var g := Group(l);
    var r := Ranking(items, g);
    BeforeIsInGroup(l, k);
    RowsOfGroup(items, g);
    var pc := PlaceInGroup(items, c);
    var pk := PlaceInGroup(items, k);
    var pl := PlaceInGroup(items, l);
    assert pl < pk;
    var a, b := if pc < pl then pc else pl, if pc < pl then pl else pc;
    forall p, q | 0 <= p < q < |r| && (p < a || (p == a && q < b)) ensures !ItemsContradict(r[p], r[q]) {
      PlaceIsUnique(r, p, pc, pk, pl);
      PlaceIsUnique(r, q, pc, pk, pl);
    }
    FirstPairDecides(r, a, b);
    RankIsAbove(r, a, b);
    AboveIsStrictTotalOrder(c, l, c);
    LostInGroup(items, g);
    LostInOwnGroup(items, l);
  }

  lemma StarCenterLoses(items: map<string, MemoryItem>, k: MemoryItem, c: MemoryItem, l: MemoryItem)
    requires WellKeyed(items) && IsStar(items, k, c, l) && Above(k, c)
    ensures c.memoryId in Losers(SweepPairs(items))
  {
    hide ItemsContradict, Above, SweepPairs;
    SweepCovers(items, c, k);
    if p :| p in SweepPairs(items) && p.loser.memoryId == k.memoryId {
      SweepPairsAreSound(items, p);
      SameIdSameItem(items, p.loser, k);
      AboveIsStrictTotalOrder(k, c, k);
    }
  }

  /** The exact condition on the items, whatever they claim: a sweep supersedes what the priority
      outranks, for every pattern of contradictions, if and only if no group visits an item
      before one that ranks two places or more above it. */
  lemma FollowsPriorityIff(items: map<string, MemoryItem>)
    requires WellKeyed(items)
    ensures (forall other :: Reclaimed(items, other) ==> FollowsPriority(other)) <==> NoneOvertaken(items)
  {
    hide ItemsContradict, Above, Before, Outranked, SweepPairs, Losers, InTime, Star;
    if NoneOvertaken(items) {
      forall other | Reclaimed(items, other) ensures FollowsPriority(other) {
        ReclaimedKeepsOrders(items, other);
        forall x | x in other.Values ensures InTime(other, x) {
          NoneOvertakenIsInTime(other, x);
        }
        SweepFollowsPriority(other);
      }
    } else {
      var k, c, l :| ThreeRanked(items, k, c, l) && Before(l, k);
      OvertakenLosesWrongly(items, k, c, l);
      DistinctThree(items, k, c, l);
      var other := Star(items, c.memoryId, {k.memoryId, l.memoryId});
      ReclaimedKeepsOrders(items, other);
      assert other[l.memoryId] in other.Values && !FollowsPriority(other);
    }
  }

  /** Three items of one group with the same confidence and growing age are enough to fail. */
  lemma ThreeTiesFail(items: map<string, MemoryItem>, x: MemoryItem, y: MemoryItem, w: MemoryItem)
    requires WellKeyed(items) && x in items.Values && y in items.Values && w in items.Values
    requires Group(x) == Group(y) == Group(w) && x.memoryId != w.memoryId
    requires x.confidence == y.confidence == w.confidence && x.createdAt < y.createdAt < w.createdAt
    ensures var other := Star(items, y.memoryId, {w.memoryId, x.memoryId}); var lost := Losers(SweepPairs(other));
            x.memoryId in lost && y.memoryId in lost && !Outranked(other, other[x.memoryId])
  {
    hide ItemsContradict, Outranked, SweepPairs, Losers, Star;
    OvertakenLosesWrongly(items, w, y, x);
  }
}

/** What a sweep does to a store of two items, in terms of what the items say: when it leaves both
    active, and which of the two it keeps when it does not. */
module PairLaws {
  import opened Ordering
  import opened Wrappers
  import opened Memory
  import opened Resolver
  import opened ResolverRuns
  import opened SweepKernel
  import opened ActiveView

  /** A store of these two items, both active. */
  ghost predicate HoldsBoth(t: Tables, x: MemoryItem, y: MemoryItem) {
    && x.memoryId != y.memoryId
    && t.items == map[x.memoryId := x, y.memoryId := y]
    && t.active == map[x.memoryId := true, y.memoryId := true]
  }

  /** One subject of one namespace; no subject is the same as an empty one. */
  ghost predicate SameTopic(x: MemoryItem, y: MemoryItem) {
    && x.namespace == y.namespace
    && (x.subject == y.subject || (x.subject in {None, Some("")} && y.subject in {None, Some("")}))
  }

  ghost predicate BothActive(t: Tables, x: MemoryItem, y: MemoryItem) {
    IsActive(t, x.memoryId) && IsActive(t, y.memoryId)
  }

  ghost function SharedWords(x: MemoryItem, y: MemoryItem): nat {
    |set w | w in x.claim.words && w in y.claim.words|
  }

  /** The words that only one of the two claims has. */
  ghost function OwnWords(x: MemoryItem, y: MemoryItem): nat {
    |set w | w in x.claim.words && w !in y.claim.words| + |set w | w in y.claim.words && w !in x.claim.words|
  }

  /** Half of all words are shared exactly when the shared ones are no fewer than the others. */
  lemma OverlapInWords(x: MemoryItem, y: MemoryItem)
    ensures Overlaps(x.claim.words, y.claim.words) <==> SharedWords(x, y) != 0 && SharedWords(x, y) >= OwnWords(x, y)
  {
    var a, b := x.claim.words, y.claim.words;
    assert a * b == set w | w in a && w in b;
    assert a - b == set w | w in a && w !in b;
    assert b - a == set w | w in b && w !in a;
    assert a + b == (a * b) + (a - b) + (b - a);
    assert |(a * b) + (a - b)| == |a * b| + |a - b|;
    assert |(a * b) + (a - b) + (b - a)| == |(a * b) + (a - b)| + |b - a|;
    assert a * b != {} ==> a != {} && b != {};
  }

  lemma TopicIsGroup(x: MemoryItem, y: MemoryItem)
    ensures SameTopic(x, y) <==> Group(x) == Group(y)
  {
  }

  /** Whether two items contradict, in terms of what they say. */
  ghost predicate Opposed(x: MemoryItem, y: MemoryItem) {
    && SameTopic(x, y) && x.claim.positive != y.claim.positive
    && SharedWords(x, y) != 0 && SharedWords(x, y) >= OwnWords(x, y)
  }

  lemma OpposedIsContradiction(x: MemoryItem, y: MemoryItem)
    requires x.memoryId != y.memoryId
    ensures ItemsContradict(x, y) <==> Opposed(x, y)
  {
    hide Overlaps, SharedWords, OwnWords;
    OverlapInWords(x, y);
    TopicIsGroup(x, y);
  }

  lemma BothFacts(t: Tables, x: MemoryItem, y: MemoryItem)
    requires HoldsBoth(t, x, y)
    ensures Consistent(t) && t.items.Values == {x, y} && AllActive(t)
  {
    assert t.items[x.memoryId] == x && t.items[y.memoryId] == y;
  }

  /** Of a contradicting pair the one ranked below is superseded, and the other stays. */
  lemma LowerLoses(t: Tables, x: MemoryItem, y: MemoryItem)
    requires HoldsBoth(t, x, y) && ItemsContradict(x, y) && Above(x, y)
    ensures IsActive(Sweep(t), x.memoryId) && !IsActive(Sweep(t), y.memoryId)
  {
    BothFacts(t, x, y);
    hide ItemsContradict, Above, Sweep, SweepPairs, Losers, Winners;
    SweepCovers(t.items, x, y);
    AboveIsStrictTotalOrder(x, y, x);
    if x.memoryId in Losers(SweepPairs(t.items)) { LoserIsBelow(t.items, x, y); }
    ActiveAfterSweep(t, x.memoryId);
    ActiveAfterSweep(t, y.memoryId);
  }

  lemma LoserIsBelow(items: map<string, MemoryItem>, x: MemoryItem, y: MemoryItem)
    requires WellKeyed(items) && items.Values == {x, y} && x.memoryId in Losers(SweepPairs(items))
    ensures Above(y, x)
  {
    hide ItemsContradict, Above, SweepPairs;
    var p :| p in SweepPairs(items) && p.loser.memoryId == x.memoryId;
    SweepPairsAreSound(items, p);
    KeyOfItem(items, x);
    KeyOfItem(items, y);
    AboveIsStrictTotalOrder(x, x, x);
    assert p.winner in items.Values;
  }

  lemma NothingSuperseded(t: Tables, x: MemoryItem, y: MemoryItem)
    requires HoldsBoth(t, x, y) && !ItemsContradict(x, y)
    ensures BothActive(Sweep(t), x, y)
  {
    BothFacts(t, x, y);
    hide ItemsContradict, Sweep, SweepPairs, Losers, Winners;
    ContradictionIsSymmetric(x, y);
    NoSelfContradiction(x);
    NoSelfContradiction(y);
    NoContradictionsNoPairs(t.items);
    NobodyWinsNothing();
    ActiveAfterSweep(t, x.memoryId);
    ActiveAfterSweep(t, y.memoryId);
  }

  /** A sweep leaves two active items both active, unless they are about one topic with opposite
      polarity, and share at least one word and no fewer words than only one of them has. */
  lemma SweepKeepsBothIff(t: Tables, x: MemoryItem, y: MemoryItem)
    requires HoldsBoth(t, x, y)
    ensures BothActive(Sweep(t), x, y) <==>
      (|| !SameTopic(x, y) || x.claim.positive == y.claim.positive
       || SharedWords(x, y) == 0 || SharedWords(x, y) < OwnWords(x, y))
  {
    OpposedIsContradiction(x, y);
    if ItemsContradict(x, y) {
      hide ItemsContradict, Above, Sweep, SharedWords, OwnWords, SameTopic;
      AboveIsStrictTotalOrder(x, y, x);
      if Above(x, y) {
        LowerLoses(t, x, y);
      } else {
        ContradictionIsSymmetric(x, y);
        BothSwapped(t, x, y);
        LowerLoses(t, y, x);
      }
    } else {
      NothingSuperseded(t, x, y);
    }
  }

  lemma BothSwapped(t: Tables, x: MemoryItem, y: MemoryItem)
    requires HoldsBoth(t, x, y)
    ensures HoldsBoth(t, y, x)
  {
  }

  /** How privileged a scope is. */
  ghost predicate MorePrivileged(a: string, b: string) {
    || (a == "personal" && b != "personal")
    || (a == "project" && b != "personal" && b != "project")
    || (a == "team" && b != "personal" && b != "project" && b != "team")
  }

  /** The documented winner: more confident, or as confident and newer, or as new and of a more
      privileged scope. */
  ghost predicate Preferred(x: MemoryItem, y: MemoryItem) {
    || x.confidence > y.confidence
    || (x.confidence == y.confidence && x.createdAt > y.createdAt)
    || (x.confidence == y.confidence && x.createdAt == y.createdAt && MorePrivileged(x.acl, y.acl))
  }

  /** The documented winner, and among equals the one of the smaller id. */
  ghost predicate Wins(x: MemoryItem, y: MemoryItem) {
    Preferred(x, y) || (!Preferred(y, x) && TextLt(x.memoryId, y.memoryId))
  }

  lemma PreferredIsAbove(x: MemoryItem, y: MemoryItem)
    ensures Preferred(x, y) ==> Above(x, y)
    ensures !Preferred(x, y) && !Preferred(y, x) && TextLt(x.memoryId, y.memoryId) ==> Above(x, y)
  {
  }

  /** Of two opposed items a sweep keeps the preferred one, and where neither is preferred, the one of
      the smaller id. */
  lemma SweepKeepsPreferred(t: Tables, x: MemoryItem, y: MemoryItem)
    requires HoldsBoth(t, x, y) && Opposed(x, y) && Wins(x, y)
    ensures IsActive(Sweep(t), x.memoryId) && !IsActive(Sweep(t), y.memoryId)
  {
    hide Sweep, Above, ItemsContradict;
    OpposedIsContradiction(x, y);
    PreferredIsAbove(x, y);
    LowerLoses(t, x, y);
  }

  lemma OnlyPair(t: Tables, x: MemoryItem, y: MemoryItem)
    requires HoldsBoth(t, x, y) && ItemsContradict(x, y) && Above(x, y)
    ensures SweepPairs(t.items) == {Resolution(x, y)}
  {
    BothFacts(t, x, y);
    hide ItemsContradict, Above, SweepPairs;
    AboveIsStrictTotalOrder(x, y, x);
    AboveIsStrictTotalOrder(x, x, x);
    AboveIsStrictTotalOrder(y, y, y);
    forall p | p in SweepPairs(t.items) ensures p == Resolution(x, y) {
      SweepPairsAreSound(t.items, p);
      assert p.winner in t.items.Values && p.loser in t.items.Values;
    }
    SweepCovers(t.items, x, y);
  }

  /** The sweep records that the kept item supersedes the other, which contradicts it, and no more. */
  lemma SweepRecordsPreferred(t: Tables, x: MemoryItem, y: MemoryItem)
    requires HoldsBoth(t, x, y) && Opposed(x, y) && Wins(x, y)
    ensures Sweep(t).edges == t.edges + {Edge(x.memoryId, y.memoryId, Relation.Supersedes),
                                         Edge(y.memoryId, x.memoryId, Relation.Contradicts)}
  {
    hide Above, ItemsContradict, SweepPairs, Opposed, Preferred;
    OpposedIsContradiction(x, y);
    PreferredIsAbove(x, y);
    OnlyPair(t, x, y);
  }

  // ---------------------------------------------------------------- stores of any size

  lemma WinsIsAbove(x: MemoryItem, y: MemoryItem)
    requires x.memoryId != y.memoryId
    ensures Above(x, y) <==> Wins(x, y)
  {
    PreferredIsAbove(x, y);
    PreferredIsAbove(y, x);
    hide Above, Preferred;
    AboveIsStrictTotalOrder(x, y, x);
    TextLeIsTotalOrder();
  }

  /** After a sweep no two active items are opposed, whatever else there is and whatever the flags were. */
  lemma ActiveAreNotOpposed(t: Tables, x: MemoryItem, y: MemoryItem)
    requires Consistent(t) && x in t.items.Values && y in t.items.Values && BothActive(Sweep(t), x, y)
    ensures !Opposed(x, y)
  {
    hide ItemsContradict, Opposed, SweepPairs, Losers, Winners;
    KeyOfItem(t.items, x);
    KeyOfItem(t.items, y);
    if x.memoryId == y.memoryId {
      NeverSelfOpposed(x);
    } else {
      NoActiveContradiction(t);
      OpposedIsContradiction(x, y);
    }
  }

  lemma NeverSelfOpposed(x: MemoryItem)
    ensures !Opposed(x, x)
  {
  }

  /** An item that a sweep deactivates has an opposed item in the store that wins over it. */
  lemma DeactivatedHasWinner(t: Tables, x: MemoryItem)
    requires Consistent(t) && x in t.items.Values
    requires IsActive(t, x.memoryId) && !IsActive(Sweep(t), x.memoryId)
    ensures exists y :: y in t.items.Values && Opposed(y, x) && Wins(y, x)
  {
    hide ItemsContradict, Opposed, Wins, Above, Sweep, SweepPairs, Winners;
    KeyOfItem(t.items, x);
    ActiveAfterSweep(t, x.memoryId);
    var p :| p in SweepPairs(t.items) && p.loser.memoryId == x.memoryId;
    SweepPairsAreSound(t.items, p);
    AboveIsStrictTotalOrder(x, x, x);
    OpposedIsContradiction(p.winner, x);
    WinsIsAbove(p.winner, x);
    assert p.winner in t.items.Values;
  }
}

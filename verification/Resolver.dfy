/** Contradiction detection, and the sweep that chooses the active view. */
module Resolver {
  import opened Ordering
  import opened Wrappers
  import opened Memory

  // ---------------------------------------------------------------- the two tests on a pair

  /** Word overlap of at least one half: neither side empty, and |a & b| / |a | b| >= 1/2. */
  predicate Overlaps(a: set<string>, b: set<string>) {
    a != {} && b != {} && 2 * |a * b| >= |a + b|
  }

  function SubjectText(x: MemoryItem): string {
    if x.subject.Some? then x.subject.value else ""
  }

  predicate ItemsContradict(a: MemoryItem, b: MemoryItem) {
    && a.namespace == b.namespace && SubjectText(a) == SubjectText(b)
    && a.memoryId != b.memoryId
    && a.claim.positive != b.claim.positive
    && Overlaps(a.claim.words, b.claim.words)
  }

  lemma ContradictionIsSymmetric(a: MemoryItem, b: MemoryItem)
    ensures ItemsContradict(a, b) == ItemsContradict(b, a)
  {
    var s, t := a.claim.words, b.claim.words;
    assert s * t == t * s && s + t == t + s;
  }

  function AclPriority(acl: string): nat {
    match acl
    case "personal" => 3
    case "project" => 2
    case "team" => 1
    case _ => 0
  }

  /** Confidence, then recency, then acl. */
  predicate KeyGe(a: MemoryItem, b: MemoryItem) {
    || a.confidence > b.confidence
    || (a.confidence == b.confidence &&
        (|| a.createdAt > b.createdAt
         || (a.createdAt == b.createdAt && AclPriority(a.acl) >= AclPriority(b.acl))))
  }

  datatype Resolution = Resolution(winner: MemoryItem, loser: MemoryItem)

  function Rank(a: MemoryItem, b: MemoryItem): Resolution {
    if KeyGe(a, b) then Resolution(a, b) else Resolution(b, a)
  }

  /** The order in which a sweep visits a group: it breaks confidence ties toward the
      OLDER item, while Rank breaks them toward the newer one. */
  predicate VisitLe(a: MemoryItem, b: MemoryItem) {
    || a.confidence > b.confidence
    || (a.confidence == b.confidence &&
        (|| a.createdAt < b.createdAt
         || (a.createdAt == b.createdAt && TextLe(a.memoryId, b.memoryId))))
  }

  lemma VisitLeIsPreorder()
    ensures TotalPreorder(VisitLe)
    ensures forall a, b :: VisitLe(a, b) && VisitLe(b, a) ==> a.memoryId == b.memoryId
  {
    TextLeIsTotalOrder();
  }

  /** The one total order every supersession respects. */
  predicate Above(a: MemoryItem, b: MemoryItem) {
    || !KeyGe(b, a)
    || (KeyGe(a, b) && KeyGe(b, a) && TextLt(a.memoryId, b.memoryId))
  }

  lemma AboveIsStrictTotalOrder(a: MemoryItem, b: MemoryItem, c: MemoryItem)
    ensures !Above(a, a)
    ensures Above(a, b) && Above(b, c) ==> Above(a, c)
    ensures a.memoryId != b.memoryId ==> Above(a, b) || Above(b, a)
    ensures !(Above(a, b) && Above(b, a))
  {
    TextLeIsTotalOrder();
  }

  // ---------------------------------------------------------------- one group

  ghost function Losers(pairs: set<Resolution>): set<string> {
    set p | p in pairs :: p.loser.memoryId
  }

  ghost function Winners(pairs: set<Resolution>): set<string> {
    set p | p in pairs :: p.winner.memoryId
  }

  /** The pairs the nested loops resolve from position (i, j) on, in order, when the ids
      in `lost` have already been superseded in this sweep. */
  ghost function Scan(r: seq<MemoryItem>, i: nat, j: nat, lost: set<string>): seq<Resolution>
    decreases |r| - i, |r| - j
  {
    if i >= |r| then []
    else if j >= |r| || r[i].memoryId in lost then Scan(r, i + 1, i + 2, lost)
    else if r[j].memoryId in lost || !ItemsContradict(r[i], r[j]) then Scan(r, i, j + 1, lost)
    else
      var p := Rank(r[i], r[j]);
      [p] + Scan(r, i, j + 1, lost + {p.loser.memoryId})
  }

  ghost predicate DistinctIds(r: seq<MemoryItem>) {
    forall a, b :: 0 <= a < b < |r| ==> r[a].memoryId != r[b].memoryId
  }

  /** A group in visiting order. */
  ghost predicate Visits(r: seq<MemoryItem>) {
    Sorted(r, VisitLe) && DistinctIds(r)
  }

  lemma RankGoesDown(r: seq<MemoryItem>, i: nat, j: nat)
    requires Visits(r) && i < j < |r|
    ensures var p := Rank(r[i], r[j]); Above(p.winner, p.loser)
  {
    assert VisitLe(r[i], r[j]);
    TextLeIsTotalOrder();
  }

  /** What every resolved pair is: a contradicting pair of the group, neither side of it
      superseded before, with the winner strictly above the loser. */
  ghost predicate SoundPair(p: Resolution, r: seq<MemoryItem>, lost: set<string>) {
    && p.winner in r && p.loser in r
    && ItemsContradict(p.winner, p.loser) && Above(p.winner, p.loser)
    && p.winner.memoryId !in lost && p.loser.memoryId !in lost
  }

  lemma RankIsSound(r: seq<MemoryItem>, i: nat, j: nat, lost: set<string>)
    requires Visits(r) && i < j < |r| && r[i].memoryId !in lost && r[j].memoryId !in lost
    requires ItemsContradict(r[i], r[j])
    ensures SoundPair(Rank(r[i], r[j]), r, lost)
  {
    RankGoesDown(r, i, j);
    ContradictionIsSymmetric(r[i], r[j]);
  }

  lemma {:induction false} ScanIsSound(r: seq<MemoryItem>, i: nat, j: nat, lost: set<string>)
    requires Visits(r) && i < j
    ensures forall p :: p in Scan(r, i, j, lost) ==> SoundPair(p, r, lost)
    decreases |r| - i, |r| - j
  {
    hide ItemsContradict, Rank, Above;
    if i >= |r| {
    } else if j >= |r| || r[i].memoryId in lost {
      ScanIsSound(r, i + 1, i + 2, lost);
    } else if r[j].memoryId in lost || !ItemsContradict(r[i], r[j]) {
      ScanIsSound(r, i, j + 1, lost);
    } else {
      var first := Rank(r[i], r[j]);
      var more := lost + {first.loser.memoryId};
      ScanIsSound(r, i, j + 1, more);
      RankIsSound(r, i, j, lost);
      forall p | p in Scan(r, i, j, lost) ensures SoundPair(p, r, lost) {
        if p != first { assert SoundPair(p, r, more); }
      }
    }
  }

  /** Ids superseded before or during the scan. */
  ghost function LostAfter(r: seq<MemoryItem>, i: nat, j: nat, lost: set<string>): set<string> {
    lost + Losers(Elements(Scan(r, i, j, lost)))
  }

  lemma LostAfterStep(r: seq<MemoryItem>, i: nat, j: nat, lost: set<string>)
    requires i < |r| && j < |r| && r[i].memoryId !in lost && r[j].memoryId !in lost
    requires ItemsContradict(r[i], r[j])
    ensures Rank(r[i], r[j]).loser in {r[i], r[j]}
    ensures LostAfter(r, i, j, lost) == LostAfter(r, i, j + 1, lost + {Rank(r[i], r[j]).loser.memoryId})
  {
    var p := Rank(r[i], r[j]);
    var rest := Scan(r, i, j + 1, lost + {p.loser.memoryId});
    assert Elements([p] + rest) == {p} + Elements(rest);
    assert Losers({p} + Elements(rest)) == {p.loser.memoryId} + Losers(Elements(rest));
  }

  lemma LostAfterSkip(r: seq<MemoryItem>, i: nat, j: nat, lost: set<string>)
    requires i < |r|
    ensures j >= |r| || r[i].memoryId in lost ==> LostAfter(r, i, j, lost) == LostAfter(r, i + 1, i + 2, lost)
    ensures j < |r| && r[i].memoryId !in lost && (r[j].memoryId in lost || !ItemsContradict(r[i], r[j]))
      ==> LostAfter(r, i, j, lost) == LostAfter(r, i, j + 1, lost)
  {
  }

  lemma LostStaysLost(r: seq<MemoryItem>, i: nat, j: nat, lost: set<string>)
    ensures lost <= LostAfter(r, i, j, lost)
  {
  }

  /** No contradicting pair is left with neither side superseded. */
  lemma {:induction false} ScanCovers(r: seq<MemoryItem>, i: nat, j: nat, lost: set<string>, a: nat, b: nat)
    requires a < b < |r| && (i < a || (i == a && j <= b))
    requires ItemsContradict(r[a], r[b])
    ensures r[a].memoryId in LostAfter(r, i, j, lost) || r[b].memoryId in LostAfter(r, i, j, lost)
    decreases |r| - i, |r| - j
  {
    hide ItemsContradict, Rank;
    LostStaysLost(r, i, j, lost);
    LostAfterSkip(r, i, j, lost);
    if r[a].memoryId !in lost && r[b].memoryId !in lost {
      if j >= |r| || r[i].memoryId in lost {
        ScanCovers(r, i + 1, i + 2, lost, a, b);
      } else if r[j].memoryId in lost || !ItemsContradict(r[i], r[j]) {
        ScanCovers(r, i, j + 1, lost, a, b);
      } else {
        LostAfterStep(r, i, j, lost);
        var more := lost + {Rank(r[i], r[j]).loser.memoryId};
        if i == a && j == b {
          LostStaysLost(r, i, j + 1, more);
        } else {
          ScanCovers(r, i, j + 1, more, a, b);
        }
      }
    }
  }

  /** Ids lost elsewhere do not change what happens in this group. */
  lemma {:induction false} ScanFrame(r: seq<MemoryItem>, i: nat, j: nat, lost: set<string>, other: set<string>)
    requires forall x :: x in r ==> x.memoryId !in other
    ensures Scan(r, i, j, lost + other) == Scan(r, i, j, lost)
    decreases |r| - i, |r| - j
  {
    if i >= |r| {
    } else if j >= |r| || r[i].memoryId in lost {
      ScanFrame(r, i + 1, i + 2, lost, other);
    } else if r[j].memoryId in lost || !ItemsContradict(r[i], r[j]) {
      ScanFrame(r, i, j + 1, lost, other);
    } else {
      var l := {Rank(r[i], r[j]).loser.memoryId};
      ScanFrame(r, i, j + 1, lost + l, other);
      assert lost + other + l == lost + l + other;
    }
  }

  // ---------------------------------------------------------------- a whole sweep

  datatype GroupKey = GroupKey(namespace: Namespace, subject: string)

  function Group(x: MemoryItem): GroupKey {
    GroupKey(x.namespace, SubjectText(x))
  }

  ghost function Members(items: map<string, MemoryItem>, g: GroupKey): set<MemoryItem> {
    set x | x in items.Values && Group(x) == g
  }

  ghost function Listing(s: set<MemoryItem>): (r: seq<MemoryItem>)
    ensures forall x :: x in r <==> x in s
    ensures NoDuplicates(r)
  {
    if s == {} then [] else
      var x :| x in s;
      [x] + Listing(s - {x})
  }

  /** The members of a group in visiting order. */
  ghost function Ranking(items: map<string, MemoryItem>, g: GroupKey): seq<MemoryItem> {
    Sort(Listing(Members(items, g)), VisitLe)
  }

  ghost predicate IsRanking(r: seq<MemoryItem>, items: map<string, MemoryItem>, g: GroupKey) {
    Sorted(r, VisitLe) && NoDuplicates(r) && forall x :: x in r <==> x in Members(items, g)
  }

  /** However the store ordered its rows, each group is visited in one order only. */
  lemma RankingIsUnique(r: seq<MemoryItem>, items: map<string, MemoryItem>, g: GroupKey)
    requires WellKeyed(items) && IsRanking(r, items, g)
    ensures r == Ranking(items, g) && Visits(r)
  {
    VisitLeIsPreorder();
    SortFacts(Listing(Members(items, g)), VisitLe);
    forall x, y | x in r && y in r && x.memoryId == y.memoryId ensures x == y {
      var k :| k in items && items[k] == x;
      var l :| l in items && items[l] == y;
    }
    SortedListIsUnique(r, Ranking(items, g), VisitLe);
  }

  lemma RankingRanks(items: map<string, MemoryItem>, g: GroupKey)
    requires WellKeyed(items)
    ensures IsRanking(Ranking(items, g), items, g) && Visits(Ranking(items, g))
  {
    VisitLeIsPreorder();
    SortFacts(Listing(Members(items, g)), VisitLe);
    RankingIsUnique(Ranking(items, g), items, g);
  }

  ghost function Groups(items: map<string, MemoryItem>): set<GroupKey> {
    set x | x in items.Values :: Group(x)
  }

  ghost function GroupPairs(items: map<string, MemoryItem>, g: GroupKey): set<Resolution> {
    Elements(Scan(Ranking(items, g), 0, 1, {}))
  }

  ghost function PairsOf(items: map<string, MemoryItem>, gs: set<GroupKey>): set<Resolution> {
    set g, p | g in gs && p in GroupPairs(items, g) :: p
  }

  /** Everything a sweep resolves. It depends on the items only, not on their flags. */
  ghost function SweepPairs(items: map<string, MemoryItem>): set<Resolution> {
    PairsOf(items, Groups(items))
  }

  ghost function EdgesOf(pairs: set<Resolution>): set<Edge> {
    (set p | p in pairs :: Edge(p.winner.memoryId, p.loser.memoryId, Supersedes)) +
    (set p | p in pairs :: Edge(p.loser.memoryId, p.winner.memoryId, Contradicts))
  }

  ghost function Flags(active: map<string, bool>, pairs: set<Resolution>): map<string, bool> {
    map id | id in active :: id !in Losers(pairs) && (id in Winners(pairs) || active[id])
  }

  ghost function Resolved(t: Tables, pairs: set<Resolution>): Tables {
    Tables(t.items, Flags(t.active, pairs), t.edges + EdgesOf(pairs))
  }

  ghost function Sweep(t: Tables): Tables {
    Resolved(t, SweepPairs(t.items))
  }

  lemma GroupPairsAreSound(items: map<string, MemoryItem>, g: GroupKey)
    requires WellKeyed(items)
    ensures forall p :: p in GroupPairs(items, g) ==>
      SoundPair(p, Ranking(items, g), {}) && Group(p.winner) == g && Group(p.loser) == g
      && p.winner.memoryId in items && items[p.winner.memoryId] == p.winner
      && p.loser.memoryId in items && items[p.loser.memoryId] == p.loser
  {
    RankingRanks(items, g);
    ScanIsSound(Ranking(items, g), 0, 1, {});
  }

  // ---------------------------------------------------------------- the sweep as a program

  /** One more resolved pair: its loser is marked, and its winner activated. */
  lemma ResolveOne(t: Tables, done: set<Resolution>, p: Resolution)
    requires p.winner.memoryId in t.active && p.loser.memoryId in t.active
    requires p.winner.memoryId != p.loser.memoryId
    requires p.winner.memoryId !in Losers(done)
    ensures var now := Resolved(t, done); var next := Resolved(t, done + {p});
            && next.active == now.active[p.loser.memoryId := false][p.winner.memoryId := true]
            && next.edges == now.edges + {Edge(p.winner.memoryId, p.loser.memoryId, Supersedes)}
                                       + {Edge(p.loser.memoryId, p.winner.memoryId, Contradicts)}
            && Losers(done + {p}) == Losers(done) + {p.loser.memoryId}
  {
    OneMorePair(done, p);
    OneMoreEdges(done, p);
    hide Losers, Winners, EdgesOf;
  }

  lemma OneMorePair(done: set<Resolution>, p: Resolution)
    ensures Losers(done + {p}) == Losers(done) + {p.loser.memoryId}
    ensures Winners(done + {p}) == Winners(done) + {p.winner.memoryId}
  {
  }

  lemma OneMoreEdges(done: set<Resolution>, p: Resolution)
    ensures EdgesOf(done + {p}) == EdgesOf(done) + {Edge(p.winner.memoryId, p.loser.memoryId, Supersedes)}
                                                 + {Edge(p.loser.memoryId, p.winner.memoryId, Contradicts)}
  {
  }

  /** The winner becomes active unless it was itself superseded earlier in the sweep;
      without a sweep record it always does. */
  method ResolvePair(store: MemoryStore, a: MemoryItem, b: MemoryItem, inactivated: Option<set<string>>)
    returns (result: Resolution, inactivated': Option<set<string>>)
    modifies store
    ensures result == Rank(a, b) && store.items == old(store.items)
    ensures inactivated' == if inactivated.Some? then Some(inactivated.value + {result.loser.memoryId}) else None
    ensures store.edges == old(store.edges) + {Edge(result.winner.memoryId, result.loser.memoryId, Supersedes)}
                                            + {Edge(result.loser.memoryId, result.winner.memoryId, Contradicts)}
    ensures var down := WithFlag(old(store.active), result.loser.memoryId, false);
            store.active == if inactivated'.Some? && result.winner.memoryId in inactivated'.value then down
                            else WithFlag(down, result.winner.memoryId, true)
  {
    result := Rank(a, b);
    inactivated' := inactivated;
    store.AddEdge(result.winner.memoryId, result.loser.memoryId, Supersedes);
    store.AddEdge(result.loser.memoryId, result.winner.memoryId, Contradicts);
    store.SetActive(result.loser.memoryId, false);
    if inactivated.Some? {
      inactivated' := Some(inactivated.value + {result.loser.memoryId});
      if result.winner.memoryId !in inactivated'.value {
        store.SetActive(result.winner.memoryId, true);
      }
    } else {
      store.SetActive(result.winner.memoryId, true);
    }
  }

  /** One resolution inside a sweep that has resolved `done` so far. */
  method ResolveNext(store: MemoryStore, a: MemoryItem, b: MemoryItem, inactivated: set<string>,
                     ghost t: Tables, ghost done: set<Resolution>)
    returns (result: Resolution, inactivated': set<string>)
    requires a.memoryId in t.active && b.memoryId in t.active && a.memoryId != b.memoryId
    requires store.View() == Resolved(t, done) && inactivated == Losers(done)
    requires a.memoryId !in inactivated && b.memoryId !in inactivated
    modifies store
    ensures result == Rank(a, b) && result !in done
    ensures store.View() == Resolved(t, done + {result})
    ensures inactivated' == Losers(done + {result}) == inactivated + {result.loser.memoryId}
  {
    ResolveOne(t, done, Rank(a, b));
    var p, lost := ResolvePair(store, a, b, Some(inactivated));
    result, inactivated' := p, lost.value;
  }

  /** The two inner loops of a sweep, over one ranked group. */
  method ResolveGroup(store: MemoryStore, ranked: seq<MemoryItem>, inactivated: set<string>,
                      ghost t: Tables, ghost done: set<Resolution>)
    returns (results: seq<Resolution>, inactivated': set<string>)
    requires DistinctIds(ranked) && forall x :: x in ranked ==> x.memoryId in t.active
    requires store.View() == Resolved(t, done) && inactivated == Losers(done)
    modifies store
    ensures results == Scan(ranked, 0, 1, inactivated)
    ensures store.View() == Resolved(t, done + Elements(results))
    ensures inactivated' == Losers(done + Elements(results))
    ensures NoDuplicates(results) && Elements(results) !! done
  {
    hide Resolved, ItemsContradict, Rank;
    results, inactivated' := [], inactivated;
    ghost var sofar := done;
    for i := 0 to |ranked|
      invariant results + Scan(ranked, i, i + 1, inactivated') == Scan(ranked, 0, 1, inactivated)
      invariant sofar == done + Elements(results) && NoDuplicates(results) && Elements(results) !! done
      invariant store.View() == Resolved(t, sofar) && inactivated' == Losers(sofar)
    {
      var j := i + 1;
      while j < |ranked|
        invariant i < j <= |ranked|
        invariant results + Scan(ranked, i, j, inactivated') == Scan(ranked, 0, 1, inactivated)
        invariant sofar == done + Elements(results) && NoDuplicates(results) && Elements(results) !! done
        invariant store.View() == Resolved(t, sofar) && inactivated' == Losers(sofar)
      {
        var a, b := ranked[i], ranked[j];
        if a.memoryId in inactivated' {
          break;
        }
        if b.memoryId !in inactivated' && ItemsContradict(a, b) {
          var p, lost := ResolveNext(store, a, b, inactivated', t, sofar);
          sofar := sofar + {p};
          AppendPair(results, p, Scan(ranked, i, j + 1, lost));
          results, inactivated' := results + [p], lost;
        }
        j := j + 1;
      }
    }
  }

  lemma AppendPair(results: seq<Resolution>, p: Resolution, rest: seq<Resolution>)
    ensures (results + [p]) + rest == results + ([p] + rest)
    ensures Elements(results + [p]) == Elements(results) + {p}
  {
  }

  // ---------------------------------------------------------------- all groups

  lemma PairsOfOneMore(items: map<string, MemoryItem>, gs: set<GroupKey>, g: GroupKey)
    ensures PairsOf(items, gs + {g}) == PairsOf(items, gs) + GroupPairs(items, g)
  {
  }

  /** A group is resolved the same way whatever was superseded in the other groups. */
  lemma GroupsAreIndependent(items: map<string, MemoryItem>, gs: set<GroupKey>, g: GroupKey)
    requires WellKeyed(items) && g !in gs
    ensures Elements(Scan(Ranking(items, g), 0, 1, Losers(PairsOf(items, gs)))) == GroupPairs(items, g)
  {
    var elsewhere := Losers(PairsOf(items, gs));
    RankingRanks(items, g);
    forall p | p in PairsOf(items, gs)
      ensures p.loser.memoryId in items && items[p.loser.memoryId] == p.loser && Group(p.loser) in gs
    {
      var h :| h in gs && p in GroupPairs(items, h);
      GroupPairsAreSound(items, h);
    }
    forall x | x in Ranking(items, g) ensures items[x.memoryId] == x && Group(x) == g {
      assert x in Members(items, g);
    }
    ScanFrame(Ranking(items, g), 0, 1, {}, elsewhere);
    assert {} + elsewhere == elsewhere;
  }

  /** The groups of some rows: each holds the rows of its key, once each. */
  ghost predicate Grouped(groups: map<GroupKey, seq<MemoryItem>>, rows: seq<MemoryItem>) {
    && (forall x :: x in rows ==> Group(x) in groups)
    && (forall g :: g in groups ==> groups[g] != [] && NoDuplicates(groups[g]))
    && (forall g, x :: g in groups ==> (x in groups[g] <==> x in rows && Group(x) == g))
  }

  /** The rows of a group once one more row has been put in its place. */
  function Place(groups: map<GroupKey, seq<MemoryItem>>, x: MemoryItem): map<GroupKey, seq<MemoryItem>> {
    groups[Group(x) := (if Group(x) in groups then groups[Group(x)] else []) + [x]]
  }

  lemma GroupedOneMore(groups: map<GroupKey, seq<MemoryItem>>, rows: seq<MemoryItem>, x: MemoryItem)
    requires Grouped(groups, rows) && x !in rows
    ensures Grouped(Place(groups, x), rows + [x])
  {
    hide Group;
  }

  /** Rows split into groups, the groups in order of first appearance. */
  method GroupRows(rows: seq<MemoryItem>) returns (keys: seq<GroupKey>, groups: map<GroupKey, seq<MemoryItem>>)
    requires NoDuplicates(rows)
    ensures NoDuplicates(keys) && groups.Keys == Elements(keys)
    ensures Grouped(groups, rows)
  {
    hide Group, Grouped;
    keys, groups := [], map[];
    NothingGrouped();
    assert rows[..0] == [];
    for n := 0 to |rows|
      invariant NoDuplicates(keys) && groups.Keys == Elements(keys)
      invariant Grouped(groups, rows[..n])
    {
      var item := rows[n];
      assert item !in rows[..n];
      assert rows[..n + 1] == rows[..n] + [item];
      GroupedOneMore(groups, rows[..n], item);
      if Group(item) !in groups {
        keys := keys + [Group(item)];
      }
      groups := Place(groups, item);
    }
    assert rows[..|rows|] == rows;
  }

  lemma NothingGrouped()
    ensures Grouped(map[], [])
  {
  }

  /** The grouping of a full listing: one group per key, holding exactly its members. */
  ghost predicate Grouping(keys: seq<GroupKey>, groups: map<GroupKey, seq<MemoryItem>>,
                           items: map<string, MemoryItem>) {
    && NoDuplicates(keys) && Elements(keys) == Groups(items)
    && forall k :: 0 <= k < |keys| ==>
         keys[k] in groups && NoDuplicates(groups[keys[k]])
         && forall x :: x in groups[keys[k]] <==> x in Members(items, keys[k])
  }

  method GroupAll(store: MemoryStore) returns (keys: seq<GroupKey>, groups: map<GroupKey, seq<MemoryItem>>)
    requires Consistent(store.View())
    ensures Grouping(keys, groups, store.items)
  {
    var rows := store.AllItems(false);
    keys, groups := GroupRows(rows);
    GroupsOfListing(rows, keys, groups, store.items);
  }

  lemma GroupsOfListing(rows: seq<MemoryItem>, keys: seq<GroupKey>, groups: map<GroupKey, seq<MemoryItem>>,
                        items: map<string, MemoryItem>)
    requires WellKeyed(items) && Lists(rows, items)
    requires NoDuplicates(keys) && groups.Keys == Elements(keys) && Grouped(groups, rows)
    ensures Grouping(keys, groups, items)
  {
    hide Group;
    assert forall x :: x in rows <==> x in items.Values;
    forall g ensures g in Elements(keys) <==> g in Groups(items) {
      if g in groups {
        var x := groups[g][0];
        assert x in groups[g];
        assert x in rows && Group(x) == g && x in items.Values;
      }
      if g in Groups(items) {
        var x :| x in items.Values && Group(x) == g;
        assert x in rows;
      }
    }
    forall k | 0 <= k < |keys| ensures keys[k] in groups {
      assert keys[k] in Elements(keys);
    }
  }

  /** One sweep. The new tables are a function of the old tables alone: the order in which
      the store happened to list its rows is not visible in the result. */
  method ResolveAll(store: MemoryStore) returns (results: seq<Resolution>)
    requires Consistent(store.View())
    modifies store
    ensures store.View() == Sweep(old(store.View()))
    ensures Elements(results) == SweepPairs(store.items) && NoDuplicates(results)
  {
    hide Resolved, Scan, VisitLe, Losers, GroupPairs, Ranking, PairsOf, ItemsContradict;
    ghost var t := store.View();
    var keys, groups := GroupAll(store);
    var inactivated: set<string> := {};
    results := [];
    NothingResolved(t);
    for k := 0 to |keys|
      invariant Elements(results) == PairsOf(t.items, Elements(keys[..k])) && NoDuplicates(results)
      invariant store.View() == Resolved(t, Elements(results)) && inactivated == Losers(Elements(results))
    {
      var g := keys[k];
      assert keys[..k + 1] == keys[..k] + [g] && Elements(keys[..k + 1]) == Elements(keys[..k]) + {g};
      var ranked := Sort(groups[g], VisitLe);
      SortedGroupIsRanking(groups[g], t.items, g);
      GroupsAreIndependent(t.items, Elements(keys[..k]), g);
      PairsOfOneMore(t.items, Elements(keys[..k]), g);
      var more;
      more, inactivated := ResolveGroup(store, ranked, inactivated, t, Elements(results));
      NoDuplicatesConcat(results, more);
      results := results + more;
    }
    assert keys[..|keys|] == keys;
    SweepIsResolved(t);
  }

  lemma NothingResolved(t: Tables)
    ensures Resolved(t, {}) == t && Elements<Resolution>([]) == {}
    ensures PairsOf(t.items, Elements<GroupKey>([])) == {} && Losers({}) == {}
  {
  }

  lemma SweepIsResolved(t: Tables)
    ensures Sweep(t) == Resolved(t, SweepPairs(t.items)) && Sweep(t).items == t.items
  {
  }

  lemma SortedGroupIsRanking(group: seq<MemoryItem>, items: map<string, MemoryItem>, g: GroupKey)
    requires WellKeyed(items) && NoDuplicates(group)
    requires forall x :: x in group <==> x in Members(items, g)
    ensures Sort(group, VisitLe) == Ranking(items, g) && Visits(Ranking(items, g))
    ensures forall x :: x in Ranking(items, g) ==> x.memoryId in items
  {
    VisitLeIsPreorder();
    SortFacts(group, VisitLe);
    RankingIsUnique(Sort(group, VisitLe), items, g);
  }
}

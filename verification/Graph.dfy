/** Graph proximity: a bounded breadth-first search over the edge table, against walks. */
module Graph {
  import opened Ordering
  import opened Wrappers
  import opened Memory

  // ---------------------------------------------------------------- what distance means

  ghost predicate Linked(edges: set<Edge>, x: string, y: string) {
    exists e :: e in edges && e.src == x && e.dst == y
  }

  /** A walk from the first to the last node of the path, one directed edge of any relation a step. */
  ghost predicate Walk(edges: set<Edge>, path: seq<string>, x: string, y: string) {
    && |path| >= 1 && path[0] == x && path[|path| - 1] == y
    && forall i :: 0 < i < |path| ==> Linked(edges, path[i - 1], path[i])
  }

  ghost predicate ReachableIn(edges: set<Edge>, x: string, y: string, hops: nat) {
    exists path :: Walk(edges, path, x, y) && |path| == hops + 1
  }

  /** The length of a shortest walk. */
  ghost predicate Distance(edges: set<Edge>, x: string, y: string, d: nat) {
    ReachableIn(edges, x, y, d) && forall n: nat :: n < d ==> !ReachableIn(edges, x, y, n)
  }

  lemma {:induction false} ReachableHasDistance(edges: set<Edge>, x: string, y: string, n: nat) returns (d: nat)
    requires ReachableIn(edges, x, y, n)
    ensures d <= n && Distance(edges, x, y, d)
  {
    if m: nat :| m < n && ReachableIn(edges, x, y, m) {
      d := ReachableHasDistance(edges, x, y, m);
    } else {
      d := n;
    }
  }

  // ---------------------------------------------------------------- layers

  ghost function Successors(edges: set<Edge>, s: set<string>): set<string> {
    set e | e in edges && e.src in s :: e.dst
  }

  /** The nodes at most n hops away. */
  ghost function Within(edges: set<Edge>, a: string, n: nat): set<string> {
    if n == 0 then {a} else Within(edges, a, n - 1) + Successors(edges, Within(edges, a, n - 1))
  }

  /** The nodes exactly n hops away. */
  ghost function Layer(edges: set<Edge>, a: string, n: nat): set<string> {
    if n == 0 then {a} else Within(edges, a, n) - Within(edges, a, n - 1)
  }

  /** The successors of the last layer are all that the next ball adds. */
  lemma NextBall(edges: set<Edge>, a: string, n: nat)
    ensures Within(edges, a, n + 1) == Within(edges, a, n) + Successors(edges, Layer(edges, a, n))
  {
    if n > 0 {
      var inner, ball := Within(edges, a, n - 1), Within(edges, a, n);
      forall y | y in Successors(edges, ball) ensures y in ball || y in Successors(edges, Layer(edges, a, n)) {
        var e :| e in edges && e.src in ball && e.dst == y;
        if e.src in inner { assert y in Successors(edges, inner); }
      }
    }
  }

  lemma {:induction false} WalkStaysWithin(edges: set<Edge>, path: seq<string>, a: string, y: string)
    requires Walk(edges, path, a, y)
    ensures y in Within(edges, a, |path| - 1)
  {
    var n := |path| - 1;
    if n > 0 {
      WalkStaysWithin(edges, path[..n], a, path[n - 1]);
      var e :| e in edges && e.src == path[n - 1] && e.dst == path[n];
      assert y in Successors(edges, Within(edges, a, n - 1));
    }
  }

  lemma {:induction false} WithinHasWalk(edges: set<Edge>, a: string, y: string, n: nat) returns (path: seq<string>)
    requires y in Within(edges, a, n)
    ensures Walk(edges, path, a, y) && |path| <= n + 1
    decreases n
  {
    if n == 0 {
      path := [a];
    } else if y in Within(edges, a, n - 1) {
      path := WithinHasWalk(edges, a, y, n - 1);
    } else {
      var e :| e in edges && e.src in Within(edges, a, n - 1) && e.dst == y;
      path := WithinHasWalk(edges, a, e.src, n - 1);
      assert Linked(edges, e.src, y);
      path := path + [y];
    }
  }

  lemma {:induction false} WithinGrows(edges: set<Edge>, a: string, m: nat, n: nat)
    requires m <= n
    ensures Within(edges, a, m) <= Within(edges, a, n)
    decreases n
  {
    if m < n {
      WithinGrows(edges, a, m, n - 1);
    }
  }

  /** The balls of the search are exactly what walks of bounded length reach. */
  lemma WithinIsReachable(edges: set<Edge>, a: string, y: string, n: nat)
    ensures y in Within(edges, a, n) <==> exists m: nat :: m <= n && ReachableIn(edges, a, y, m)
  {
    if y in Within(edges, a, n) {
      var path := WithinHasWalk(edges, a, y, n);
      assert ReachableIn(edges, a, y, |path| - 1);
    }
    if m: nat :| m <= n && ReachableIn(edges, a, y, m) {
      var path :| Walk(edges, path, a, y) && |path| == m + 1;
      WalkStaysWithin(edges, path, a, y);
      WithinGrows(edges, a, m, n);
    }
  }

  /** The n-th layer is exactly the set of nodes at distance n. */
  lemma LayerIsDistance(edges: set<Edge>, a: string, y: string, n: nat)
    ensures y in Layer(edges, a, n) <==> Distance(edges, a, y, n)
  {
    WithinIsReachable(edges, a, y, n);
    if n > 0 {
      WithinIsReachable(edges, a, y, n - 1);
    }
  }

  // ---------------------------------------------------------------- the search

  /** An edge of the set leads to y, by one of the given relations if there are any. */
  ghost predicate Target(edges: set<Edge>, relations: Option<set<Relation>>, y: string) {
    exists e :: e in edges && e.dst == y && (relations.None? || e.relation in relations.value)
  }

  ghost function EdgesFrom(edges: set<Edge>, x: string): set<Edge> {
    set e | e in edges && e.src == x
  }

  /** Targets of the edges out of a node, in any order. */
  method Neighbors(store: MemoryStore, memoryId: string, relations: Option<set<Relation>>) returns (out: seq<string>)
    ensures forall y :: y in out <==> Target(EdgesFrom(store.edges, memoryId), relations, y)
  {
    var left := set e | e in store.edges && e.src == memoryId;
    ghost var seen: set<Edge> := {};
    out := [];
    while left != {}
      invariant left !! seen && left + seen == EdgesFrom(store.edges, memoryId)
      invariant forall y :: y in out <==> Target(seen, relations, y)
      decreases left
    {
      var edge :| edge in left;
      forall y
        ensures Target(seen + {edge}, relations, y) <==> Target(seen, relations, y) || Target({edge}, relations, y)
      {
      }
      left, seen := left - {edge}, seen + {edge};
      if relations.None? || edge.relation in relations.value {
        out := out + [edge.dst];
      }
    }
    assert seen == EdgesFrom(store.edges, memoryId);
  }

  lemma NodeSuccessors(edges: set<Edge>, done: set<string>, node: string, next: seq<string>)
    requires forall y :: y in next <==> Target(EdgesFrom(edges, node), None, y)
    ensures Successors(edges, done + {node}) == Successors(edges, done) + Elements(next)
  {
    forall y | y in Successors(edges, {node}) ensures y in next {
      var e :| e in edges && e.src in {node} && e.dst == y;
      assert e in EdgesFrom(edges, node);
    }
    assert Successors(edges, done + {node}) == Successors(edges, done) + Successors(edges, {node});
  }

  /** One hop: either the goal turns up among the successors of the frontier, or the
      successors not visited before become the next frontier. */
  method Expand(store: MemoryStore, frontier: set<string>, visited: set<string>, goal: string)
    returns (found: bool, nxt: set<string>, visited': set<string>)
    requires goal !in visited
    ensures found <==> goal in Successors(store.edges, frontier)
    ensures !found ==> visited' == visited + Successors(store.edges, frontier) && nxt == visited' - visited
  {
    var left := frontier;
    ghost var done: set<string> := {};
    found, nxt, visited' := false, {}, visited;
    while left != {}
      invariant left + done == frontier
      invariant visited' == visited + Successors(store.edges, done) && nxt == visited' - visited
      invariant goal !in visited'
      decreases left
    {
      var node :| node in left;
      var next := Neighbors(store, node, None);
      ghost var before := visited';
      NodeSuccessors(store.edges, done, node, next);
      for i := 0 to |next|
        invariant visited' == before + Elements(next[..i]) && nxt == visited' - visited
        invariant goal !in visited'
      {
        assert Elements(next[..i + 1]) == Elements(next[..i]) + {next[i]};
        if next[i] == goal {
          assert goal in Successors(store.edges, done + {node});
          assert Successors(store.edges, done + {node}) <= Successors(store.edges, frontier);
          found := true;
          return;
        }
        if next[i] !in visited' {
          visited' := visited' + {next[i]};
          nxt := nxt + {next[i]};
        }
      }
      assert next[..|next|] == next;
      left, done := left - {node}, done + {node};
    }
    assert done == frontier;
  }

  /** 1 for the node itself, 1/(d+1) at shortest distance d within the bound, otherwise 0. */
  method Proximity(store: MemoryStore, a: string, b: string, maxHops: int) returns (score: real)
    ensures a == b ==> score == 1.0
    ensures forall d: nat :: a != b && d <= maxHops && Distance(store.edges, a, b, d) ==>
      score == 1.0 / ((d + 1) as real)
    ensures a != b && (forall d: nat :: d <= maxHops ==> !ReachableIn(store.edges, a, b, d)) ==> score == 0.0
  {
    hide Distance, ReachableIn, Within, Successors;
    if a == b {
      return 1.0;
    }
    var frontier, visited := {a}, {a};
    var hop := 1;
    StartAtSelf(store.edges, a);
    while hop <= maxHops
      invariant hop >= 1 && (maxHops >= 1 ==> hop <= maxHops + 1) && (maxHops < 1 ==> hop == 1)
      invariant frontier == Layer(store.edges, a, hop - 1) && visited == Within(store.edges, a, hop - 1)
      invariant b !in visited
    {
      NextBall(store.edges, a, hop - 1);
      var found, nxt, seen := Expand(store, frontier, visited, b);
      if found {
        FoundAtDistance(store.edges, a, b, hop);
        return 1.0 / ((hop + 1) as real);
      }
      frontier, visited := nxt, seen;
      hop := hop + 1;
    }
    NotFound(store.edges, a, b, maxHops, hop - 1);
    return 0.0;
  }

  lemma StartAtSelf(edges: set<Edge>, a: string)
    ensures Within(edges, a, 0) == {a} == Layer(edges, a, 0)
  {
  }

  lemma FoundAtDistance(edges: set<Edge>, a: string, b: string, hop: nat)
    requires hop >= 1 && b in Within(edges, a, hop) && b !in Within(edges, a, hop - 1)
    ensures forall d: nat :: Distance(edges, a, b, d) ==> d == hop
    ensures ReachableIn(edges, a, b, hop)
  {
    assert b in Layer(edges, a, hop);
    LayerIsDistance(edges, a, b, hop);
  }

  lemma NotFound(edges: set<Edge>, a: string, b: string, maxHops: int, n: nat)
    requires b !in Within(edges, a, n) && maxHops <= n
    ensures forall d: nat :: d <= maxHops ==> !ReachableIn(edges, a, b, d) && !Distance(edges, a, b, d)
  {
    WithinIsReachable(edges, a, b, n);
  }
}

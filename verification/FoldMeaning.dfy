/** What the fold of an entity's rows means, without reference to the fold itself. */
module FoldMeaning {
  import opened Ordering
  import opened Wrappers
  import opened EventLog

  /** Position of the last row of some kind, or -1. */
  ghost function LastIndex(rows: seq<Row>, p: Row -> bool): (i: int)
    ensures -1 <= i < |rows|
    ensures i >= 0 ==> p(rows[i])
    ensures forall j :: i < j < |rows| ==> !p(rows[j])
  {
    if rows == [] then -1
    else if p(rows[|rows| - 1]) then |rows| - 1
    else LastIndex(rows[..|rows| - 1], p)
  }

  ghost function Carries(f: string): Row -> bool {
    (r: Row) => IsUpsert(r.op) && f in r.payload
  }

  ghost function TouchesPair(kind: string, target: string): Row -> bool {
    (r: Row) => IsEdge(r.op) && r.op.kind == kind && r.op.target == target
  }

  ghost function NotEdge(): Row -> bool {
    (r: Row) => !IsEdge(r.op)
  }

  ghost function AddsKind(kind: string): Row -> bool {
    (r: Row) => r.op.UpsertEdge? && r.op.kind == kind
  }

  function Versions(rows: seq<Row>): seq<Row> {
    Filter(rows, (r: Row) => r.op.AppendVersion?)
  }

  /** A payload field holds the value of the last upsert-style row that carries it. */
  lemma {:induction false} PayloadIsLastWriter(rows: seq<Row>, f: string)
    ensures var i := LastIndex(rows, Carries(f)); var payload := Fold(rows).payload;
            && (f in payload <==> i >= 0)
            && (i >= 0 ==> payload[f] == rows[i].payload[f])
  {
    if rows != [] {
      PayloadIsLastWriter(rows[..|rows| - 1], f);
    }
  }

  /** A target is a live edge exactly when the last edge row for that pair is an upsert. */
  lemma {:induction false} EdgeIsLastWriter(rows: seq<Row>, kind: string, target: string)
    ensures var i := LastIndex(rows, TouchesPair(kind, target));
            target in Targets(Fold(rows).edges, kind) <==> i >= 0 && rows[i].op.UpsertEdge?
  {
    hide Apply, Targets;
    NoEdges(kind);
    if rows != [] {
      var front, last := rows[..|rows| - 1], rows[|rows| - 1];
      EdgeIsLastWriter(front, kind, target);
      PairAfter(Fold(front), last, kind, target);
    }
  }

  lemma NoEdges(kind: string)
    ensures Targets(Fold([]).edges, kind) == {}
  {
  }

  /** Only an edge row of the pair itself changes whether the pair is live. */
  lemma PairAfter(s: State, r: Row, kind: string, target: string)
    ensures target in Targets(Apply(s, r).edges, kind) <==>
      if TouchesPair(kind, target)(r) then r.op.UpsertEdge? else target in Targets(s.edges, kind)
  {
  }

  /** A kind has an entry, possibly an empty one, once an edge of it was ever added. */
  lemma {:induction false} KindIsEverAdded(rows: seq<Row>, kind: string)
    ensures kind in Fold(rows).edges <==> LastIndex(rows, AddsKind(kind)) >= 0
  {
    if rows != [] {
      KindIsEverAdded(rows[..|rows| - 1], kind);
    }
  }

  /** The tombstone is set exactly when the last row that is not an edge row is a delete. */
  lemma {:induction false} DeletedIsLastWriter(rows: seq<Row>)
    ensures var i := LastIndex(rows, NotEdge());
            Fold(rows).deleted <==> i >= 0 && rows[i].op.DeleteEntity?
  {
    if rows != [] {
      DeletedIsLastWriter(rows[..|rows| - 1]);
    }
  }

  /** Versions are counted one by one, and the last row dates the state. */
  lemma {:induction false} CountersAreCounts(rows: seq<Row>)
    ensures Fold(rows).versionCount == |Versions(rows)|
    ensures Fold(rows).lastValidAt == if rows == [] then None else Some(rows[|rows| - 1].validAt)
  {
    hide Versions;
    if rows == [] {
      NoVersions();
    } else {
      var front, last := rows[..|rows| - 1], rows[|rows| - 1];
      CountersAreCounts(front);
      assert rows == front + [last];
      VersionsAppend(front, last);
    }
  }

  lemma NoVersions()
    ensures Versions([]) == []
  {
  }

  lemma VersionsAppend(front: seq<Row>, last: Row)
    ensures |Versions(front + [last])| == if last.op.AppendVersion? then |Versions(front)| + 1 else |Versions(front)|
  {
    FilterSplits(front, [last], (r: Row) => r.op.AppendVersion?);
    assert |Versions([last])| == if last.op.AppendVersion? then 1 else 0;
  }
}

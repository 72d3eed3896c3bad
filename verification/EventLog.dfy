/** The append-only bitemporal event log and the fold that materialises state from it:
    S(T, tau) folds the events with valid_at <= T and ingested_at <= tau. */
module EventLog {
  import opened Ordering
  import opened Wrappers
  import opened TimeText

  /** The stream an event belongs to. */
  datatype Key = Key(app: string, entityType: string, entityId: string)

  /** Normalised content: field names to encoded values. */
  type Payload = map<string, string>

  datatype Op =
    | UpsertEntity | DeleteEntity
    | UpsertEdge(kind: string, target: string) | DeleteEdge(kind: string, target: string)
    | AppendVersion | PermissionChange | CommentAdd | ReactionAdd | StatusChange

  predicate IsEdge(op: Op) {
    op.UpsertEdge? || op.DeleteEdge?
  }

  /** The ops that merge their payload into current state. */
  predicate IsUpsert(op: Op) {
    !IsEdge(op) && !op.DeleteEntity?
  }

  datatype AppEvent = AppEvent(
    eventId: string, key: Key, op: Op, payload: Payload, validAt: Moment, ingestedAt: Moment)

  /** A stored event: its times as text, and its place in the ingest order. */
  datatype Row = Row(
    eventId: string, key: Key, op: Op, payload: Payload, validAt: string, ingestedAt: string, seqNo: nat)

  function RowOf(e: AppEvent, seqNo: nat): Row {
    Row(e.eventId, e.key, e.op, e.payload, IsoOf(e.validAt), IsoOf(e.ingestedAt), seqNo)
  }

  // ---------------------------------------------------------------- the log

  /** Unique ids, numbered 1..n in order of arrival. */
  ghost predicate ValidLog(rows: seq<Row>) {
    && (forall i :: 0 <= i < |rows| ==> rows[i].seqNo == i + 1)
    && (forall i, j :: 0 <= i < j < |rows| ==> rows[i].eventId != rows[j].eventId)
  }

  ghost predicate HasId(rows: seq<Row>, id: string) {
    exists r :: r in rows && r.eventId == id
  }

  /** Re-appending a known id is a no-op. */
  ghost function Appended(rows: seq<Row>, e: AppEvent): seq<Row> {
    if HasId(rows, e.eventId) then rows else rows + [RowOf(e, |rows| + 1)]
  }

  ghost function AppendedAll(rows: seq<Row>, es: seq<AppEvent>): seq<Row> {
    if es == [] then rows else Appended(AppendedAll(rows, es[..|es| - 1]), es[|es| - 1])
  }

  lemma AppendKeepsLog(rows: seq<Row>, e: AppEvent)
    requires ValidLog(rows)
    ensures ValidLog(Appended(rows, e)) && rows <= Appended(rows, e)
  {
    hide IsoOf;
  }

  lemma {:induction false} AppendsKeepLog(rows: seq<Row>, es: seq<AppEvent>)
    requires ValidLog(rows)
    ensures ValidLog(AppendedAll(rows, es)) && rows <= AppendedAll(rows, es)
  {
    hide ValidLog, Appended;
    if es != [] {
      AppendsKeepLog(rows, es[..|es| - 1]);
      AppendKeepsLog(AppendedAll(rows, es[..|es| - 1]), es[|es| - 1]);
    }
  }

  lemma {:induction false} AppendsCompose(rows: seq<Row>, a: seq<AppEvent>, b: seq<AppEvent>)
    ensures AppendedAll(rows, a + b) == AppendedAll(AppendedAll(rows, a), b)
  {
    if b == [] {
      assert a + b == a;
    } else {
      assert (a + b)[..|a + b| - 1] == a + b[..|b| - 1];
      AppendsCompose(rows, a, b[..|b| - 1]);
    }
  }

  lemma {:induction false} AppendedIsKnown(rows: seq<Row>, es: seq<AppEvent>, p: nat)
    requires p < |es|
    ensures HasId(AppendedAll(rows, es), es[p].eventId)
  {
    hide IsoOf;
    var n := |es| - 1;
    var log := AppendedAll(rows, es[..n]);
    if p < n {
      AppendedIsKnown(rows, es[..n], p);
      var r :| r in log && r.eventId == es[p].eventId;
      assert r in AppendedAll(rows, es);
    } else if !HasId(log, es[n].eventId) {
      assert RowOf(es[n], |log| + 1) in AppendedAll(rows, es);
    }
  }

  lemma KnownIsNoOp(log: seq<Row>, e: AppEvent)
    requires HasId(log, e.eventId)
    ensures Appended(log, e) == log
  {
  }

  lemma {:induction false} LogIdsAreEventIds(es: seq<AppEvent>, id: string)
    ensures HasId(AppendedAll([], es), id) <==> exists e :: e in es && e.eventId == id
  {
    hide IsoOf;
    if es != [] {
      var front, last := es[..|es| - 1], es[|es| - 1];
      LogIdsAreEventIds(front, id);
      AppendedHasId(AppendedAll([], front), last, id);
      assert es == front + [last];
    }
  }

  lemma AppendedHasId(log: seq<Row>, e: AppEvent, id: string)
    ensures HasId(Appended(log, e), id) <==> HasId(log, id) || e.eventId == id
  {
    hide IsoOf;
    var now := Appended(log, e);
    if HasId(log, id) {
      var r :| r in log && r.eventId == id;
      assert r in now;
    }
    if e.eventId == id && !HasId(log, id) {
      assert RowOf(e, |log| + 1) in now;
    }
  }

  lemma {:induction false} KnownEventsAddNothing(log: seq<Row>, es: seq<AppEvent>)
    requires forall e :: e in es ==> HasId(log, e.eventId)
    ensures AppendedAll(log, es) == log
  {
    hide HasId;
    if es != [] {
      KnownEventsAddNothing(log, es[..|es| - 1]);
      KnownIsNoOp(log, es[|es| - 1]);
    }
  }

  // ---------------------------------------------------------------- queries

  datatype Query = Query(
    app: Option<string>, entityType: Option<string>, entityId: Option<string>,
    asOfValid: Option<Moment>, asOfIngest: Option<Moment>)

  predicate Allows(wanted: Option<string>, actual: string) {
    wanted.None? || wanted.value == actual
  }

  predicate UpTo(bound: Option<Moment>, time: string) {
    bound.None? || TextLe(time, IsoOf(bound.value))
  }

  predicate Matches(q: Query, r: Row) {
    && Allows(q.app, r.key.app) && Allows(q.entityType, r.key.entityType) && Allows(q.entityId, r.key.entityId)
    && UpTo(q.asOfValid, r.validAt) && UpTo(q.asOfIngest, r.ingestedAt)
  }

  /** The text filter decides the intended comparison of times, at millisecond resolution. */
  lemma FilterIsTimeFilter(e: AppEvent, seqNo: nat, T: Moment, tau: Moment)
    ensures UpTo(Some(T), RowOf(e, seqNo).validAt) <==> Instant(e.validAt) / 1000 <= Instant(T) / 1000
    ensures UpTo(Some(tau), RowOf(e, seqNo).ingestedAt) <==> Instant(e.ingestedAt) / 1000 <= Instant(tau) / 1000
  {
    IsoOfOrder(e.validAt, T);
    IsoOfOrder(e.ingestedAt, tau);
  }

  /** Fold order: valid time, then ingest order. */
  predicate FoldLe(a: Row, b: Row) {
    (a.validAt != b.validAt && TextLe(a.validAt, b.validAt)) || (a.validAt == b.validAt && a.seqNo <= b.seqNo)
  }

  lemma FoldLeIsPreorder()
    ensures TotalPreorder(FoldLe)
    ensures forall a, b :: FoldLe(a, b) && FoldLe(b, a) ==> a.seqNo == b.seqNo
  {
    TextLeIsTotalOrder();
  }

  function Select(rows: seq<Row>, q: Query): seq<Row> {
    Sort(Filter(rows, (r: Row) => Matches(q, r)), FoldLe)
  }

  lemma SelectFacts(rows: seq<Row>, q: Query)
    ensures Sorted(Select(rows, q), FoldLe)
    ensures forall r :: r in Select(rows, q) <==> r in rows && Matches(q, r)
    ensures ValidLog(rows) ==> NoDuplicates(Select(rows, q))
  {
    FoldLeIsPreorder();
    var keep := (r: Row) => Matches(q, r);
    SortFacts(Filter(rows, keep), FoldLe);
    FilterKeepsOrder(rows, keep, FoldLe);
  }

  // ---------------------------------------------------------------- one entity

  datatype State = State(
    payload: Payload, edges: map<string, set<string>>, deleted: bool,
    lastValidAt: Option<string>, versionCount: nat)

  const FRESH: State := State(map[], map[], false, None, 0)

  function Targets(edges: map<string, set<string>>, kind: string): set<string> {
    if kind in edges then edges[kind] else {}
  }

  /** What one row does to the state of its entity. */
  function Apply(s: State, r: Row): State {
    var t := s.(lastValidAt := Some(r.validAt));
    if r.op.DeleteEntity? then t.(deleted := true)
    else if r.op.UpsertEdge? then
      t.(edges := t.edges[r.op.kind := Targets(t.edges, r.op.kind) + {r.op.target}])
    else if r.op.DeleteEdge? then
      if r.op.kind in t.edges then t.(edges := t.edges[r.op.kind := t.edges[r.op.kind] - {r.op.target}]) else t
    else
      t.(deleted := false, payload := t.payload + r.payload,
         versionCount := if r.op.AppendVersion? then t.versionCount + 1 else t.versionCount)
  }

  function Fold(rows: seq<Row>): State {
    if rows == [] then FRESH else Apply(Fold(rows[..|rows| - 1]), rows[|rows| - 1])
  }

  // ---------------------------------------------------------------- all entities at once

  /** The one-pass fold: each row updates the state of its own entity. */
  ghost function OnePass(rows: seq<Row>): map<Key, State> {
    if rows == [] then map[] else
      var m, r := OnePass(rows[..|rows| - 1]), rows[|rows| - 1];
      m[r.key := Apply(if r.key in m then m[r.key] else FRESH, r)]
  }

  function OfKey(rows: seq<Row>, k: Key): seq<Row> {
    Filter(rows, (r: Row) => r.key == k)
  }

  lemma OfKeyAppend(front: seq<Row>, last: Row, k: Key)
    ensures OfKey(front + [last], k) == if last.key == k then OfKey(front, k) + [last] else OfKey(front, k)
  {
    FilterSplits(front, [last], (r: Row) => r.key == k);
    assert OfKey([last], k) == if last.key == k then [last] else [];
  }

  lemma {:induction false} OnePassIsPerEntity(rows: seq<Row>, k: Key)
    ensures k in OnePass(rows) <==> OfKey(rows, k) != []
    ensures k in OnePass(rows) ==> OnePass(rows)[k] == Fold(OfKey(rows, k))
  {
    hide Apply, OfKey;
    if rows == [] {
      NothingOfKey(k);
    } else {
      var front, last := rows[..|rows| - 1], rows[|rows| - 1];
      OnePassIsPerEntity(front, k);
      assert rows == front + [last];
      OfKeyAppend(front, last, k);
      assert (OfKey(front, k) + [last])[..|OfKey(front, k)|] == OfKey(front, k);
    }
  }

  lemma NothingOfKey(k: Key)
    ensures OfKey([], k) == []
  {
  }

  function AppQuery(app: Option<string>, T: Option<Moment>, tau: Option<Moment>): Query {
    Query(app, None, None, T, tau)
  }

  function EntityQuery(k: Key, T: Option<Moment>, tau: Option<Moment>): Query {
    Query(Some(k.app), Some(k.entityType), Some(k.entityId), T, tau)
  }

  /** S(T, tau) over all entities, tombstones included. */
  ghost function StatesAt(rows: seq<Row>, app: Option<string>, T: Option<Moment>,
                          tau: Option<Moment>): map<Key, State> {
    OnePass(Select(rows, AppQuery(app, T, tau)))
  }

  /** S(T, tau) of one entity, or None if it has no event by then. */
  ghost function EntityAt(rows: seq<Row>, k: Key, T: Option<Moment>, tau: Option<Moment>): Option<State> {
    var own := Select(rows, EntityQuery(k, T, tau));
    if own == [] then None else Some(Fold(own))
  }

  /** Selecting an entity's rows before or after the ordering gives the same list. */
  lemma SelectOfKey(rows: seq<Row>, app: Option<string>, k: Key, T: Option<Moment>, tau: Option<Moment>)
    requires ValidLog(rows) && Allows(app, k.app)
    ensures OfKey(Select(rows, AppQuery(app, T, tau)), k) == Select(rows, EntityQuery(k, T, tau))
  {
    hide UpTo, FoldLe;
    var all, own := Select(rows, AppQuery(app, T, tau)), Select(rows, EntityQuery(k, T, tau));
    SelectFacts(rows, AppQuery(app, T, tau));
    SelectFacts(rows, EntityQuery(k, T, tau));
    FilterKeepsOrder(all, (r: Row) => r.key == k, FoldLe);
    forall r ensures r in OfKey(all, k) <==> r in own {
      assert Matches(EntityQuery(k, T, tau), r) <==> Matches(AppQuery(app, T, tau), r) && r.key == k;
    }
    OrderedRowsAreUnique(rows, OfKey(all, k), own);
  }

  /** Two lists of log rows in fold order with the same members are the same list. */
  lemma OrderedRowsAreUnique(rows: seq<Row>, a: seq<Row>, b: seq<Row>)
    requires ValidLog(rows) && Sorted(a, FoldLe) && Sorted(b, FoldLe) && NoDuplicates(a) && NoDuplicates(b)
    requires forall r :: r in a <==> r in b
    requires forall r :: r in a ==> r in rows
    ensures a == b
  {
    FoldLeIsPreorder();
    forall x, y | x in a && y in a && FoldLe(x, y) && FoldLe(y, x) ensures x == y {
      assert x in rows && y in rows && x.seqNo == y.seqNo;
    }
    SortedListIsUnique(a, b, FoldLe);
  }

  /** The all-entity fold and the single-entity fold agree at every point (T, tau), however the
      events of the entities are interleaved in the log. */
  lemma FoldsAgree(rows: seq<Row>, app: Option<string>, k: Key, T: Option<Moment>, tau: Option<Moment>)
    requires ValidLog(rows)
    ensures k in StatesAt(rows, app, T, tau) <==> Allows(app, k.app) && EntityAt(rows, k, T, tau).Some?
    ensures k in StatesAt(rows, app, T, tau) ==> EntityAt(rows, k, T, tau) == Some(StatesAt(rows, app, T, tau)[k])
  {
    var all := Select(rows, AppQuery(app, T, tau));
    OnePassIsPerEntity(all, k);
    if Allows(app, k.app) {
      SelectOfKey(rows, app, k, T, tau);
    } else {
      SelectFacts(rows, AppQuery(app, T, tau));
      assert forall r :: r in OfKey(all, k) ==> r in all && r.key == k && Matches(AppQuery(app, T, tau), r);
      FirstIsMember(OfKey(all, k));
    }
  }

  lemma FirstIsMember(s: seq<Row>)
    ensures s == [] || s[0] in s
  {
  }

  // ---------------------------------------------------------------- the store

  /** The mutable state record that the fold updates in place. */
  class EntityState {
    var payload: Payload
    var edges: map<string, set<string>>
    var deleted: bool
    var lastValidAt: Option<string>
    var versionCount: nat

    ghost function View(): State
      reads this
    {
      State(payload, edges, deleted, lastValidAt, versionCount)
    }

    constructor ()
      ensures View() == FRESH
    {
      payload, edges, deleted, lastValidAt, versionCount := map[], map[], false, None, 0;
    }

    method ApplyRow(r: Row)
      modifies this
      ensures View() == Apply(old(View()), r)
    {
      lastValidAt := Some(r.validAt);
      if r.op.DeleteEntity? {
        deleted := true;
        return;
      }
      if r.op.UpsertEdge? {
        if r.op.kind !in edges {
          edges := edges[r.op.kind := {}];
        }
        edges := edges[r.op.kind := edges[r.op.kind] + {r.op.target}];
        return;
      }
      if r.op.DeleteEdge? {
        if r.op.kind in edges && edges[r.op.kind] == {} {
          assert edges[r.op.kind] - {r.op.target} == edges[r.op.kind];
          assert edges == edges[r.op.kind := edges[r.op.kind] - {r.op.target}];
        }
        if r.op.kind in edges && edges[r.op.kind] != {} {
          edges := edges[r.op.kind := edges[r.op.kind] - {r.op.target}];
        }
        return;
      }
      deleted := false;
      if r.op.AppendVersion? {
        versionCount := versionCount + 1;
      }
      payload := payload + r.payload;
    }
  }

  class EventStore {
    var rows: seq<Row>
    var cursors: map<(string, string), Option<string>>

    constructor ()
      ensures rows == [] && cursors == map[]
    {
      rows, cursors := [], map[];
    }

    method Exists(id: string) returns (found: bool)
      ensures found <==> HasId(rows, id)
    {
      found := false;
      for i := 0 to |rows|
        invariant found <==> HasId(rows[..i], id)
      {
        assert rows[..i + 1] == rows[..i] + [rows[i]];
        found := found || rows[i].eventId == id;
      }
      assert rows[..|rows|] == rows;
    }

    method MaxSeq() returns (m: nat)
      requires ValidLog(rows)
      ensures m == |rows|
    {
      m := 0;
      for i := 0 to |rows|
        invariant m == i
      {
        if rows[i].seqNo > m {
          m := rows[i].seqNo;
        }
      }
    }

    method Append(e: AppEvent) returns (id: string)
      requires ValidLog(rows)
      modifies this`rows
      ensures rows == Appended(old(rows), e) && ValidLog(rows) && id == e.eventId
    {
      var known := Exists(e.eventId);
      if !known {
        var last := MaxSeq();
        rows := rows + [RowOf(e, last + 1)];
      }
      id := e.eventId;
    }

    method AppendMany(es: seq<AppEvent>) returns (added: nat)
      requires ValidLog(rows)
      modifies this`rows
      ensures rows == AppendedAll(old(rows), es) && ValidLog(rows)
      ensures |rows| == |old(rows)| + added
    {
      added := 0;
      ghost var before := rows;
      for i := 0 to |es|
        invariant ValidLog(rows) && rows == AppendedAll(before, es[..i]) && |rows| == |before| + added
      {
        assert es[..i + 1][..i] == es[..i];
        var known := Exists(es[i].eventId);
        if !known {
          var _ := Append(es[i]);
          added := added + 1;
        }
      }
      assert es[..|es|] == es;
    }

    method IterEvents(q: Query) returns (out: seq<Row>)
      ensures out == Select(rows, q)
    {
      out := Select(rows, q);
    }

    /** The fold loop: one state object per entity, updated in place row by row. */
    method FoldAll(selected: seq<Row>) returns (states: map<Key, EntityState>)
      ensures states.Keys == OnePass(selected).Keys
      ensures forall k :: k in states ==> fresh(states[k]) && states[k].View() == OnePass(selected)[k]
    {
      hide Apply;
      states := map[];
      for i := 0 to |selected|
        invariant states.Keys == OnePass(selected[..i]).Keys
        invariant forall k :: k in states ==> fresh(states[k]) && states[k].View() == OnePass(selected[..i])[k]
        invariant forall k, l :: k in states && l in states && k != l ==> states[k] != states[l]
      {
        assert selected[..i + 1][..i] == selected[..i];
        var row := selected[i];
        if row.key !in states {
          var state := new EntityState();
          states := states[row.key := state];
        }
        states[row.key].ApplyRow(row);
      }
      assert selected[..|selected|] == selected;
    }

    method Materialize(app: Option<string>, T: Option<Moment>, tau: Option<Moment>, includeDeleted: bool)
      returns (out: map<Key, EntityState>)
      ensures forall k :: k in out ==> fresh(out[k])
      ensures var all := StatesAt(rows, app, T, tau);
              && (forall k :: k in out <==> k in all && (includeDeleted || !all[k].deleted))
              && (forall k :: k in out ==> out[k].View() == all[k])
    {
      hide Select, OnePass;
      var selected := IterEvents(AppQuery(app, T, tau));
      var states := FoldAll(selected);
      if includeDeleted {
        out := states;
      } else {
        out := map k | k in states && !states[k].deleted :: states[k];
      }
    }

    method MaterializeEntity(k: Key, T: Option<Moment>, tau: Option<Moment>) returns (state: EntityState?)
      ensures state != null ==> fresh(state)
      ensures var own := EntityAt(rows, k, T, tau);
              (state == null <==> own.None?) && (state != null ==> own == Some(state.View()))
    {
      hide Apply, Select;
      var selected := IterEvents(EntityQuery(k, T, tau));
      state := null;
      for i := 0 to |selected|
        invariant state == null <==> i == 0
        invariant state != null ==> fresh(state) && state.View() == Fold(selected[..i])
      {
        assert selected[..i + 1][..i] == selected[..i];
        if state == null {
          state := new EntityState();
        }
        state.ApplyRow(selected[i]);
      }
      assert selected[..|selected|] == selected;
    }

    /** What a stream's cursor reads as. */
    ghost function CursorAt(app: string, stream: string): Option<string>
      reads this`cursors
    {
      if (app, stream) in cursors then cursors[(app, stream)] else None
    }

    /** Writing a cursor is what reading it gives from then on, and no other stream notices. */
    method SetCursor(app: string, stream: string, cursor: Option<string>)
      modifies this`cursors
      ensures cursors == old(cursors)[(app, stream) := cursor]
      ensures CursorAt(app, stream) == cursor
      ensures forall a, s :: (a, s) != (app, stream) ==> CursorAt(a, s) == old(CursorAt(a, s))
    {
      cursors := cursors[(app, stream) := cursor];
    }

    method GetCursor(app: string, stream: string) returns (cursor: Option<string>)
      ensures cursor == CursorAt(app, stream)
    {
      cursor := if (app, stream) in cursors then cursors[(app, stream)] else None;
    }
  }
}

/** Exactly when the order in which events arrive does not show in the folded state. */
module ArrivalOrder {
  import opened Ordering
  import opened Wrappers
  import opened TimeText
  import opened EventLog
  import opened Bitemporal

  // ---------------------------------------------------------------- conflicts

  /** Two changes of one entity whose order shows: they write different values to one field,
      one deletes the entity and the other writes it, or they add and remove one edge. */
  ghost predicate OpsConflict(o: Op, m: Payload, p: Op, n: Payload) {
    || (IsUpsert(o) && IsUpsert(p) && exists f :: f in m && f in n && m[f] != n[f])
    || (o.DeleteEntity? && IsUpsert(p))
    || (IsUpsert(o) && p.DeleteEntity?)
    || (o.UpsertEdge? && p.DeleteEdge? && o.kind == p.kind && o.target == p.target)
    || (o.DeleteEdge? && p.UpsertEdge? && o.kind == p.kind && o.target == p.target)
  }

  ghost predicate Conflict(e: AppEvent, f: AppEvent) {
    OpsConflict(e.op, e.payload, f.op, f.payload)
  }

  ghost predicate RowsConflict(r: Row, s: Row) {
    OpsConflict(r.op, r.payload, s.op, s.payload)
  }

  /** Two rows of one time can be folded in either order exactly when they do not conflict,
      whatever the state they are folded into. */
  lemma CommuteIff(st: State, r: Row, s: Row)
    requires r.validAt == s.validAt
    ensures Apply(Apply(st, r), s) == Apply(Apply(st, s), r) <==> !RowsConflict(r, s)
  {
    hide Apply, RowsConflict;
    if IsEdge(r.op) && IsEdge(s.op) {
      EdgeRowsCommuteIff(st, r, s);
    } else if IsUpsert(r.op) && IsUpsert(s.op) {
      UpsertsCommuteIff(st, r, s);
    } else {
      UnlikeRowsCommuteIff(st, r, s);
    }
  }

  lemma EdgeRowsCommuteIff(st: State, r: Row, s: Row)
    requires r.validAt == s.validAt && IsEdge(r.op) && IsEdge(s.op)
    ensures Apply(Apply(st, r), s) == Apply(Apply(st, s), r) <==> !RowsConflict(r, s)
  {
    hide Apply, EdgeMap;
    EdgesCommuteIff(st.edges, r.op, s.op);
    ApplyEdge(st, r);
    ApplyEdge(st, s);
    ApplyEdge(Apply(st, r), s);
    ApplyEdge(Apply(st, s), r);
  }

  /** Only a delete and an upsert of one entity see each other. */
  lemma UnlikeRowsCommuteIff(st: State, r: Row, s: Row)
    requires r.validAt == s.validAt && !(IsEdge(r.op) && IsEdge(s.op)) && !(IsUpsert(r.op) && IsUpsert(s.op))
    ensures Apply(Apply(st, r), s) == Apply(Apply(st, s), r) <==> !RowsConflict(r, s)
  {
    hide Apply;
    if IsEdge(r.op) {
      EdgeRowCommutes(st, r, s);
    } else if IsEdge(s.op) {
      EdgeRowCommutes(st, s, r);
    } else {
      DeletesCommuteIff(st, r, s);
    }
  }

  /** An edge change and any other change touch different fields. */
  lemma EdgeRowCommutes(st: State, r: Row, s: Row)
    requires r.validAt == s.validAt && IsEdge(r.op) && !IsEdge(s.op)
    ensures Apply(Apply(st, r), s) == Apply(Apply(st, s), r)
  {
    hide EdgeMap, Targets;
    ApplyEdge(st, r);
    ApplyEdge(Apply(st, s), r);
  }

  lemma DeletesCommuteIff(st: State, r: Row, s: Row)
    requires r.validAt == s.validAt && !IsEdge(r.op) && !IsEdge(s.op) && !(IsUpsert(r.op) && IsUpsert(s.op))
    ensures Apply(Apply(st, r), s) == Apply(Apply(st, s), r) <==> r.op.DeleteEntity? == s.op.DeleteEntity?
  {
  }

  lemma UpsertsCommuteIff(st: State, r: Row, s: Row)
    requires r.validAt == s.validAt && IsUpsert(r.op) && IsUpsert(s.op)
    ensures Apply(Apply(st, r), s) == Apply(Apply(st, s), r) <==> !RowsConflict(r, s)
  {
    var p, m, n := st.payload, r.payload, s.payload;
    if f :| f in m && f in n && m[f] != n[f] {
      assert (p + m + n)[f] != (p + n + m)[f];
    } else {
      assert p + m + n == p + n + m;
    }
  }

  /** What an edge change does to the edges of an entity. */
  ghost function EdgeMap(edges: map<string, set<string>>, o: Op): map<string, set<string>>
    requires IsEdge(o)
  {
    if o.UpsertEdge? then edges[o.kind := Targets(edges, o.kind) + {o.target}]
    else if o.kind in edges then edges[o.kind := edges[o.kind] - {o.target}]
    else edges
  }

  lemma ApplyEdge(st: State, r: Row)
    ensures IsEdge(r.op) ==> Apply(st, r) == st.(lastValidAt := Some(r.validAt), edges := EdgeMap(st.edges, r.op))
  {
  }

  lemma EdgesCommuteIff(edges: map<string, set<string>>, o: Op, p: Op)
    requires IsEdge(o) && IsEdge(p)
    ensures EdgeMap(EdgeMap(edges, o), p) == EdgeMap(EdgeMap(edges, p), o)
      <==> !(o.kind == p.kind && o.target == p.target && o.UpsertEdge? != p.UpsertEdge?)
  {
    var a, b := EdgeMap(EdgeMap(edges, o), p), EdgeMap(EdgeMap(edges, p), o);
    if o.kind == p.kind && o.target == p.target && o.UpsertEdge? != p.UpsertEdge? {
      assert o.target in Targets(a, o.kind) <==> o.target !in Targets(b, o.kind);
    } else {
      forall k ensures (k in a <==> k in b) && (k in a ==> a[k] == b[k]) {
      }
    }
  }

  // ---------------------------------------------------------------- lists of rows

  predicate TimeLe(a: Row, b: Row) {
    TextLe(a.validAt, b.validAt)
  }

  /** No two members of one time conflict. */
  ghost predicate TiesCommute(rows: seq<Row>) {
    forall x, y :: x in rows && y in rows && x.validAt == y.validAt ==> !RowsConflict(x, y)
  }

  /** A row can be moved past rows of its own time that it does not conflict with. */
  lemma {:induction false} MoveToEnd(pre: seq<Row>, x: Row, post: seq<Row>)
    requires forall y :: y in post ==> y.validAt == x.validAt && !RowsConflict(x, y)
    ensures Fold(pre + [x] + post) == Fold(pre + post + [x])
  {
    hide Apply, RowsConflict;
    if post == [] {
      assert pre + [x] + post == pre + post + [x];
    } else {
      var n := |post| - 1;
      var y := post[n];
      MoveToEnd(pre, x, post[..n]);
      CommuteIff(Fold(pre + post[..n]), x, y);
      FoldAppend(pre + [x] + post[..n], y);
      FoldAppend(pre + post[..n], x);
      FoldAppend(pre + post[..n], y);
      FoldAppend(pre + post, x);
      assert pre + [x] + post == (pre + [x] + post[..n]) + [y];
      assert pre + post == (pre + post[..n]) + [y];
    }
  }

  lemma FoldAppend(rows: seq<Row>, r: Row)
    ensures Fold(rows + [r]) == Apply(Fold(rows), r)
  {
    assert (rows + [r])[..|rows|] == rows;
  }

  /** What is left of a list without its entry at k. */
  lemma WithoutFacts(b: seq<Row>, k: nat)
    requires k < |b| && Sorted(b, TimeLe) && NoDuplicates(b)
    ensures var c := b[..k] + b[k + 1..];
            && Sorted(c, TimeLe) && NoDuplicates(c)
            && forall x :: x in c <==> x in b && x != b[k]
  {
    var c := b[..k] + b[k + 1..];
    forall x ensures x in c <==> x in b && x != b[k] {
      if x in b {
        var i :| 0 <= i < |b| && b[i] == x;
        assert i != k ==> x == c[if i < k then i else i - 1];
      }
    }
  }

  /** Lists of the same rows in time order, whose ties commute, fold to the same state. */
  lemma {:induction false} FoldOfTiedOrders(a: seq<Row>, b: seq<Row>)
    requires Sorted(a, TimeLe) && Sorted(b, TimeLe) && NoDuplicates(a) && NoDuplicates(b)
    requires forall x :: x in a <==> x in b
    requires TiesCommute(a)
    ensures Fold(a) == Fold(b)
    decreases |a|
  {
    hide TimeLe, RowsConflict, Fold, TiesCommute;
    if a == [] {
      SameMembersBothEmpty(a, b);
    } else {
      var n := |a| - 1;
      assert a[n] in b;
      var k :| 0 <= k < |b| && b[k] == a[n];
      var front, c := a[..n], b[..k] + b[k + 1..];
      WithoutFacts(b, k);
      WithoutFacts(a, n);
      assert a[..n] + a[n + 1..] == front;
      FewerTiesCommute(a, front);
      FoldOfTiedOrders(front, c);
      LastFoldsLast(a, b, k);
      FoldAppend(front, a[n]);
      assert a == front + [a[n]];
    }
  }

  lemma FewerTiesCommute(a: seq<Row>, b: seq<Row>)
    requires TiesCommute(a) && forall x :: x in b ==> x in a
    ensures TiesCommute(b)
  {
    hide RowsConflict;
  }

  /** The last row of one order can be folded last in another. */
  lemma LastFoldsLast(a: seq<Row>, b: seq<Row>, k: nat)
    requires Sorted(a, TimeLe) && Sorted(b, TimeLe) && a != [] && k < |b| && b[k] == a[|a| - 1]
    requires (forall x :: x in b ==> x in a) && TiesCommute(a)
    ensures Fold(b) == Apply(Fold(b[..k] + b[k + 1..]), b[k])
  {
    hide TimeLe, RowsConflict, Fold, TiesCommute;
    LastIsTied(a, b, k);
    MoveToEnd(b[..k], b[k], b[k + 1..]);
    assert b == b[..k] + [b[k]] + b[k + 1..];
    FoldAppend(b[..k] + b[k + 1..], b[k]);
  }

  /** Whatever follows the last row of one order in another order has its time. */
  lemma LastIsTied(a: seq<Row>, b: seq<Row>, k: nat)
    requires Sorted(a, TimeLe) && Sorted(b, TimeLe) && a != [] && k < |b| && b[k] == a[|a| - 1]
    requires forall x :: x in b ==> x in a
    requires TiesCommute(a)
    ensures forall y :: y in b[k + 1..] ==> y.validAt == b[k].validAt && !RowsConflict(b[k], y)
  {
    hide RowsConflict;
    forall y | y in b[k + 1..] ensures y.validAt == b[k].validAt && y in a {
      var j :| 0 <= j < |b[k + 1..]| && b[k + 1..][j] == y;
      assert b[k + 1 + j] == y && TimeLe(b[k], y) && y in b;
      var i :| 0 <= i < |a| && a[i] == y;
      assert i < |a| - 1 ==> TimeLe(y, a[|a| - 1]);
      TextLeAntisymmetric(y.validAt, b[k].validAt);
    }
  }

  // ---------------------------------------------------------------- what a log holds

  /** Events of one id are stored as one row, whichever comes first. */
  ghost predicate IdsNameRows(es: seq<AppEvent>) {
    forall e, f :: e in es && f in es && e.eventId == f.eventId ==> RowOf(e, 0) == RowOf(f, 0)
  }

  /** Events of one id are one change: of one entity, at one millisecond, with one content. This is
      what ids are derived from; when the change was learned is no part of it. */
  ghost predicate IdsNameChanges(es: seq<AppEvent>) {
    forall e, f :: e in es && f in es && e.eventId == f.eventId ==>
      e.key == f.key && e.op == f.op && e.payload == f.payload && Millis(e.validAt) == Millis(f.validAt)
  }

  /** No change is learned in two different milliseconds. */
  ghost predicate LearnedOnce(es: seq<AppEvent>) {
    forall e, f :: e in es && f in es && e.eventId == f.eventId ==> Millis(e.ingestedAt) == Millis(f.ingestedAt)
  }

  lemma IdsNameRowsIff(es: seq<AppEvent>)
    ensures IdsNameRows(es) <==> IdsNameChanges(es) && LearnedOnce(es)
  {
    hide IsoOf, Instant;
    forall e, f ensures RowOf(e, 0) == RowOf(f, 0) <==>
      e.eventId == f.eventId && e.key == f.key && e.op == f.op && e.payload == f.payload
      && Millis(e.validAt) == Millis(f.validAt) && Millis(e.ingestedAt) == Millis(f.ingestedAt)
    {
      IsoOfOrder(e.validAt, f.validAt);
      IsoOfOrder(e.ingestedAt, f.ingestedAt);
    }
  }

  /** A row without its place in the ingest order. */
  function Strip(r: Row): Row {
    r.(seqNo := 0)
  }

  function StripAll(rows: seq<Row>): seq<Row> {
    if rows == [] then [] else StripAll(rows[..|rows| - 1]) + [Strip(rows[|rows| - 1])]
  }

  lemma {:induction false} StripAllAt(rows: seq<Row>)
    ensures |StripAll(rows)| == |rows| && forall i :: 0 <= i < |rows| ==> StripAll(rows)[i] == Strip(rows[i])
  {
    if rows != [] {
      StripAllAt(rows[..|rows| - 1]);
    }
  }

  /** The fold does not look at the ingest order of its rows, only at their list order. */
  lemma {:induction false} FoldIgnoresSeq(rows: seq<Row>)
    ensures Fold(StripAll(rows)) == Fold(rows)
  {
    hide Strip, Apply;
    if rows != [] {
      var n := |rows| - 1;
      FoldIgnoresSeq(rows[..n]);
      assert StripAll(rows)[..|StripAll(rows)| - 1] == StripAll(rows[..n]);
      ApplyIgnoresSeq(Fold(rows[..n]), rows[n]);
    }
  }

  lemma ApplyIgnoresSeq(s: State, r: Row)
    ensures Apply(s, Strip(r)) == Apply(s, r)
  {
  }

  /** The row that storing this event gives, at some place in the ingest order. */
  ghost predicate Stores(r: Row, e: AppEvent) {
    r == RowOf(e, r.seqNo)
  }

  ghost predicate StoresOneOf(r: Row, es: seq<AppEvent>) {
    exists e :: e in es && Stores(r, e)
  }

  ghost predicate StoredIn(e: AppEvent, rows: seq<Row>) {
    exists r :: r in rows && Stores(r, e)
  }

  /** The rows of a log are exactly the events that were appended. */
  lemma {:induction false} LogHoldsEvents(es: seq<AppEvent>)
    requires IdsNameRows(es)
    ensures forall r :: r in AppendedAll([], es) ==> StoresOneOf(r, es)
    ensures forall e :: e in es ==> StoredIn(e, AppendedAll([], es))
  {
    hide IsoOf, Stores;
    if es != [] {
      var front, last := es[..|es| - 1], es[|es| - 1];
      LogHoldsEvents(front);
      var log, now := AppendedAll([], front), AppendedAll([], es);
      assert es == front + [last];
      AppendHolds(log, front, last);
      forall e | e in es ensures StoredIn(e, now) {
        if e in front {
          var r :| r in log && Stores(r, e);
          assert r in now;
        }
      }
      forall r | r in now ensures StoresOneOf(r, es) {
        if r in log {
          var e :| e in front && Stores(r, e);
          assert e in es;
        }
      }
    }
  }

  /** One append stores the event, or finds it stored already. */
  lemma AppendHolds(log: seq<Row>, front: seq<AppEvent>, last: AppEvent)
    requires IdsNameRows(front + [last])
    requires forall r :: r in log ==> StoresOneOf(r, front)
    ensures StoredIn(last, Appended(log, last))
    ensures forall r :: r in Appended(log, last) ==> r in log || Stores(r, last)
  {
    hide IsoOf;
    if HasId(log, last.eventId) {
      var r :| r in log && r.eventId == last.eventId;
      var e :| e in front && Stores(r, e);
      assert e in front + [last] && last in front + [last];
    } else {
      var row := RowOf(last, |log| + 1);
      assert Appended(log, last) == log + [row];
      assert Stores(row, last) && row in Appended(log, last);
    }
  }

  ghost predicate SameEvents(a: seq<AppEvent>, b: seq<AppEvent>) {
    forall e :: e in a <==> e in b
  }

  lemma StripOfStored(r: Row, e: AppEvent, q: Query)
    requires Stores(r, e)
    ensures Strip(r) == RowOf(e, 0) && Matches(q, Strip(r)) == Matches(q, r)
  {
    hide IsoOf, UpTo;
  }

  /** One of the events, stored and stripped, that the query selects. */
  ghost predicate Selects(es: seq<AppEvent>, q: Query, x: Row) {
    Matches(q, x) && exists e :: e in es && x == RowOf(e, 0)
  }

  /** A stripped list holds exactly the stripped members of the list. */
  lemma StripAllMembers(rows: seq<Row>, x: Row)
    ensures x in StripAll(rows) <==> exists r :: r in rows && Strip(r) == x
  {
    hide Strip;
    StripAllAt(rows);
    if x in StripAll(rows) {
      var i :| 0 <= i < |StripAll(rows)| && StripAll(rows)[i] == x;
      assert rows[i] in rows;
    }
    if r :| r in rows && Strip(r) == x {
      var i :| 0 <= i < |rows| && rows[i] == r;
      assert StripAll(rows)[i] == x;
    }
  }

  lemma StrippedIsSelected(es: seq<AppEvent>, q: Query, r: Row)
    requires IdsNameRows(es) && r in AppendedAll([], es) && Matches(q, r)
    ensures Selects(es, q, Strip(r))
  {
    hide IsoOf, Matches, Stores, Strip, RowOf, AppendedAll, IdsNameRows;
    LogHoldsEvents(es);
    assert StoresOneOf(r, es);
    var e :| e in es && Stores(r, e);
    StripOfStored(r, e, q);
  }

  lemma SelectedIsStripped(es: seq<AppEvent>, q: Query, x: Row) returns (r: Row)
    requires IdsNameRows(es) && Selects(es, q, x)
    ensures r in AppendedAll([], es) && Matches(q, r) && Strip(r) == x
  {
    hide IsoOf, Matches, Stores, Strip, RowOf, AppendedAll, IdsNameRows;
    LogHoldsEvents(es);
    var e :| e in es && x == RowOf(e, 0);
    assert StoredIn(e, AppendedAll([], es));
    r :| r in AppendedAll([], es) && Stores(r, e);
    StripOfStored(r, e, q);
  }

  /** An entity's selected rows, stripped: exactly its matching events. */
  lemma StrippedMembers(es: seq<AppEvent>, q: Query, x: Row)
    requires IdsNameRows(es)
    ensures x in StripAll(Select(AppendedAll([], es), q)) <==> Selects(es, q, x)
  {
    hide IsoOf, Matches, Strip, Select, AppendedAll, IdsNameRows, StripAll, Selects;
    var log := AppendedAll([], es);
    SelectFacts(log, q);
    StripAllMembers(Select(log, q), x);
    if r :| r in Select(log, q) && Strip(r) == x {
      StrippedIsSelected(es, q, r);
    }
    if Selects(es, q, x) {
      var r := SelectedIsStripped(es, q, x);
    }
  }

  lemma SameIdSameRow(log: seq<Row>, a: Row, b: Row)
    requires ValidLog(log) && a in log && b in log && a != b
    ensures a.eventId != b.eventId
  {
    var i :| 0 <= i < |log| && log[i] == a;
    var j :| 0 <= j < |log| && log[j] == b;
  }

  // ---------------------------------------------------------------- arrival order

  /** No two events of one entity in one millisecond of valid time conflict. */
  ghost predicate ConflictFree(es: seq<AppEvent>) {
    forall e, f :: e in es && f in es && e.key == f.key && Millis(e.validAt) == Millis(f.validAt) ==> !Conflict(e, f)
  }

  /** An entity's stripped rows come in time order, each once. */
  lemma StrippedAreOrdered(es: seq<AppEvent>, q: Query)
    ensures var s := StripAll(Select(AppendedAll([], es), q)); Sorted(s, TimeLe) && NoDuplicates(s)
  {
    hide IsoOf, Matches, Select, AppendedAll, TextLe, StripAll, Strip;
    var log := AppendedAll([], es);
    var own := Select(log, q);
    AppendsKeepLog([], es);
    SelectFacts(log, q);
    StripAllAt(own);
    forall i, j | 0 <= i < j < |own| ensures TimeLe(Strip(own[i]), Strip(own[j])) && Strip(own[i]) != Strip(own[j]) {
      assert own[i] in own && own[j] in own && own[i] != own[j] && FoldLe(own[i], own[j]);
      SameIdSameRow(log, own[i], own[j]);
      StripKeeps(own[i]);
      StripKeeps(own[j]);
      TextLeTotal(own[i].validAt, own[j].validAt);
    }
  }

  lemma StripKeeps(r: Row)
    ensures Strip(r).eventId == r.eventId && Strip(r).validAt == r.validAt
  {
  }

  /** Rows of one entity inherit from their events that ties commute. */
  lemma SelectedTiesCommute(es: seq<AppEvent>, k: Key, T: Option<Moment>, tau: Option<Moment>)
    requires IdsNameRows(es) && ConflictFree(es)
    ensures TiesCommute(StripAll(Select(AppendedAll([], es), EntityQuery(k, T, tau))))
  {
    hide IsoOf, UpTo, OpsConflict, Select, StripAll, AppendedAll, IdsNameRows;
    var q := EntityQuery(k, T, tau);
    var s := StripAll(Select(AppendedAll([], es), q));
    forall x, y | x in s && y in s && x.validAt == y.validAt ensures !RowsConflict(x, y) {
      StrippedMembers(es, q, x);
      StrippedMembers(es, q, y);
      var e :| e in es && x == RowOf(e, 0);
      var f :| f in es && y == RowOf(f, 0);
      IsoOfOrder(e.validAt, f.validAt);
    }
  }

  lemma SameEventsSameFacts(a: seq<AppEvent>, b: seq<AppEvent>)
    requires SameEvents(a, b)
    ensures IdsNameRows(a) ==> IdsNameRows(b)
    ensures forall q, x :: Selects(a, q, x) <==> Selects(b, q, x)
  {
    hide IsoOf, Matches, RowOf;
  }

  lemma EntityIgnoresArrival(a: seq<AppEvent>, b: seq<AppEvent>, k: Key, T: Option<Moment>, tau: Option<Moment>)
    requires SameEvents(a, b) && IdsNameRows(a) && ConflictFree(a)
    ensures EntityAt(AppendedAll([], a), k, T, tau) == EntityAt(AppendedAll([], b), k, T, tau)
  {
    hide IsoOf, Matches, TimeLe, Select, AppendedAll, IdsNameRows, ConflictFree, TiesCommute, StripAll, Fold;
    var q := EntityQuery(k, T, tau);
    var x, y := Select(AppendedAll([], a), q), Select(AppendedAll([], b), q);
    StrippedAreOrdered(a, q);
    StrippedAreOrdered(b, q);
    SameEventsSameFacts(a, b);
    forall r ensures r in StripAll(x) <==> r in StripAll(y) {
      StrippedMembers(a, q, r);
      StrippedMembers(b, q, r);
    }
    SelectedTiesCommute(a, k, T, tau);
    FoldOfTiedOrders(StripAll(x), StripAll(y));
    FoldIgnoresSeq(x);
    FoldIgnoresSeq(y);
    StripAllAt(x);
    StripAllAt(y);
    SameMembersBothEmpty(StripAll(x), StripAll(y));
  }

  lemma SameMembersBothEmpty(a: seq<Row>, b: seq<Row>)
    requires forall x :: x in a <==> x in b
    ensures a == [] <==> b == []
  {
    assert a != [] ==> a[0] in b;
    assert b != [] ==> b[0] in a;
  }

  /** Appending the same conflict-free events in any two orders, with any repetitions, gives the
      same state of every entity at every bitemporal point. */
  lemma ArrivalOrderIsIrrelevant(a: seq<AppEvent>, b: seq<AppEvent>, app: Option<string>, T: Option<Moment>,
                                 tau: Option<Moment>)
    requires SameEvents(a, b) && IdsNameRows(a) && ConflictFree(a)
    ensures StatesAt(AppendedAll([], a), app, T, tau) == StatesAt(AppendedAll([], b), app, T, tau)
  {
    hide StatesAt, EntityAt, SameEvents, IdsNameRows, ConflictFree;
    AppendsKeepLog([], a);
    AppendsKeepLog([], b);
    var s, t := StatesAt(AppendedAll([], a), app, T, tau), StatesAt(AppendedAll([], b), app, T, tau);
    forall k ensures (k in s <==> k in t) && (k in s ==> s[k] == t[k]) {
      FoldsAgree(AppendedAll([], a), app, k, T, tau);
      FoldsAgree(AppendedAll([], b), app, k, T, tau);
      EntityIgnoresArrival(a, b, k, T, tau);
    }
  }

  // ---------------------------------------------------------------- conflicts show the order

  /** Two new events appended last give two rows at the end of the log. */
  lemma AppendTwo(log: seq<Row>, e: AppEvent, f: AppEvent)
    requires !HasId(log, e.eventId) && !HasId(log, f.eventId) && e.eventId != f.eventId
    ensures Appended(Appended(log, e), f) == log + [RowOf(e, |log| + 1), RowOf(f, |log| + 2)]
  {
    hide IsoOf;
    var row := RowOf(e, |log| + 1);
    forall r | r in log + [row] ensures r.eventId != f.eventId {
      assert r in log || r == row;
    }
  }

  /** At their own time, two rows of the entity that arrived last are folded last. */
  lemma LastTwoSelected(log: seq<Row>, r: Row, s: Row, q: Query)
    requires ValidLog(log + [r, s]) && ValidLog(log) && Matches(q, r) && Matches(q, s)
    requires r.validAt == s.validAt
    requires forall x :: x in log && Matches(q, x) ==> TextLe(x.validAt, r.validAt)
    ensures Select(log + [r, s], q) == Select(log, q) + [r, s]
  {
    hide Matches, TextLe, Select;
    var own, all := Select(log, q), Select(log + [r, s], q);
    SelectFacts(log, q);
    SelectFacts(log + [r, s], q);
    assert (log + [r, s])[|log|] == r && (log + [r, s])[|log| + 1] == s;
    forall x | x in log ensures x.seqNo <= |log| {
      var i :| 0 <= i < |log| && log[i] == x;
    }
    forall i | 0 <= i < |own| ensures FoldLe(own[i], r) && FoldLe(own[i], s) && own[i] != r && own[i] != s {
      assert own[i] in own && own[i] in log;
    }
    var want := own + [r, s];
    assert FoldLe(r, s);
    forall x ensures x in want <==> x in all {
      assert x in want <==> x in own || x == r || x == s;
      assert x in log + [r, s] <==> x in log || x == r || x == s;
    }
    OrderedRowsAreUnique(log + [r, s], want, all);
  }

  /** The state at the time of two last events of one entity: they are folded last, in order. */
  lemma LastTwoFolded(es: seq<AppEvent>, e: AppEvent, f: AppEvent, T: Moment)
    requires NewIds(es, e, f)
    requires e.key == f.key && Millis(e.validAt) == Millis(f.validAt) == Millis(T)
    ensures var log := AppendedAll([], es);
            var before := Fold(Select(log, EntityQuery(e.key, Some(T), None)));
            EntityAt(AppendedAll([], es + [e, f]), e.key, Some(T), None)
              == Some(Apply(Apply(before, RowOf(e, 0)), RowOf(f, 0)))
  {
    hide IsoOf, Select, Fold, Apply, Instant;
    var q := EntityQuery(e.key, Some(T), None);
    var log := AppendedAll([], es);
    var r, s := RowOf(e, |log| + 1), RowOf(f, |log| + 2);
    NewIdsAreUnknown(es, e, f);
    AppendTwo(log, e, f);
    assert (es + [e, f])[..|es| + 1] == es + [e] && (es + [e])[..|es|] == es;
    assert AppendedAll([], es + [e, f]) == log + [r, s];
    AppendsKeepLog([], es);
    AppendsKeepLog([], es + [e, f]);
    IsoOfOrder(e.validAt, f.validAt);
    IsoOfOrder(e.validAt, T);
    LastTwoSelected(log, r, s, q);
    var own := Select(log, q);
    assert own + [r, s] == (own + [r]) + [s];
    FoldAppend(own + [r], s);
    FoldAppend(own, r);
    ApplyIgnoresSeq(Fold(own), r);
    ApplyIgnoresSeq(Apply(Fold(own), r), s);
  }

  /** Two events of different ids, neither of which is among these. */
  ghost predicate NewIds(es: seq<AppEvent>, e: AppEvent, f: AppEvent) {
    e.eventId != f.eventId && forall g :: g in es ==> g.eventId != e.eventId && g.eventId != f.eventId
  }

  lemma NewIdsAreUnknown(es: seq<AppEvent>, e: AppEvent, f: AppEvent)
    requires NewIds(es, e, f)
    ensures !HasId(AppendedAll([], es), e.eventId) && !HasId(AppendedAll([], es), f.eventId)
  {
    LogIdsAreEventIds(es, e.eventId);
    LogIdsAreEventIds(es, f.eventId);
  }

  /** Whatever else happened, two conflicting events that arrive last leave two different states
      at their own time, depending on which came first. */
  lemma ConflictShows(es: seq<AppEvent>, e: AppEvent, f: AppEvent)
    requires NewIds(es, e, f)
    requires e.key == f.key && Millis(e.validAt) == Millis(f.validAt) && Conflict(e, f)
    ensures StatesAt(AppendedAll([], es + [e, f]), None, Some(e.validAt), None)
         != StatesAt(AppendedAll([], es + [f, e]), None, Some(e.validAt), None)
  {
    hide IsoOf, Select, Fold, Apply, Instant, StatesAt;
    IsoOfOrder(e.validAt, f.validAt);
    LastTwoFolded(es, e, f, e.validAt);
    LastTwoFolded(es, f, e, e.validAt);
    CommuteIff(Fold(Select(AppendedAll([], es), EntityQuery(e.key, Some(e.validAt), None))), RowOf(e, 0), RowOf(f, 0));
    AppendsKeepLog([], es + [e, f]);
    AppendsKeepLog([], es + [f, e]);
    FoldsAgree(AppendedAll([], es + [e, f]), None, e.key, Some(e.validAt), None);
    FoldsAgree(AppendedAll([], es + [f, e]), None, e.key, Some(e.validAt), None);
  }

  /** The order of arrival never shows: at no bitemporal point do two orders of the same events
      give different states. */
  ghost predicate OrderNeverShows(es: seq<AppEvent>) {
    forall b, app, T, tau :: SameEvents(es, b) ==>
      StatesAt(AppendedAll([], b), app, T, tau) == StatesAt(AppendedAll([], es), app, T, tau)
  }

  /** The exact condition: the order of arrival never shows if and only if no two events of one
      entity in one millisecond conflict. */
  lemma OrderNeverShowsIff(es: seq<AppEvent>)
    requires IdsNameRows(es)
    ensures OrderNeverShows(es) <==> ConflictFree(es)
  {
    hide StatesAt, IdsNameRows, Conflict, SameEvents, IsoOf, Instant;
    if ConflictFree(es) {
      forall b, app, T, tau | SameEvents(es, b)
        ensures StatesAt(AppendedAll([], b), app, T, tau) == StatesAt(AppendedAll([], es), app, T, tau)
      {
        ArrivalOrderIsIrrelevant(es, b, app, T, tau);
      }
    } else {
      var e, f :| e in es && f in es && e.key == f.key && Millis(e.validAt) == Millis(f.validAt) && Conflict(e, f);
      var rest, again := OthersFirst(es, e, f);
      ConflictShows(rest, e, f);
      KnownAddNothing(rest, e, f, again);
      KnownAddNothing(rest, f, e, again);
      if OrderNeverShows(es) {
        NotShownAt(es, rest + [e, f] + again, None, Some(e.validAt), None);
        NotShownAt(es, rest + [f, e] + again, None, Some(e.validAt), None);
      }
    }
  }

  lemma NotShownAt(es: seq<AppEvent>, b: seq<AppEvent>, app: Option<string>, T: Option<Moment>, tau: Option<Moment>)
    requires OrderNeverShows(es) && SameEvents(es, b)
    ensures StatesAt(AppendedAll([], b), app, T, tau) == StatesAt(AppendedAll([], es), app, T, tau)
  {
    hide StatesAt, SameEvents;
  }

  /** The same events with two of them behind all others, in either order, and then whatever else
      bears their ids. */
  lemma OthersFirst(es: seq<AppEvent>, e: AppEvent, f: AppEvent) returns (rest: seq<AppEvent>, again: seq<AppEvent>)
    requires IdsNameRows(es) && e in es && f in es && Conflict(e, f)
    ensures NewIds(rest, e, f)
    ensures forall x :: x in again ==> x.eventId == e.eventId || x.eventId == f.eventId
    ensures SameEvents(es, rest + [e, f] + again) && SameEvents(es, rest + [f, e] + again)
  {
    hide IsoOf, Instant;
    ConflictHasTwoIds(e, f);
    rest := Filter(es, (x: AppEvent) => x.eventId != e.eventId && x.eventId != f.eventId);
    again := Filter(es, (x: AppEvent) => x.eventId == e.eventId || x.eventId == f.eventId);
    forall x ensures x in rest + [e, f] + again <==> x in es {
      assert x in rest + [e, f] + again <==> x in rest || x == e || x == f || x in again;
    }
    forall x ensures x in rest + [f, e] + again <==> x in es {
      assert x in rest + [f, e] + again <==> x in rest || x == e || x == f || x in again;
    }
  }

  lemma ConflictHasTwoIds(e: AppEvent, f: AppEvent)
    requires Conflict(e, f)
    ensures RowOf(e, 0) != RowOf(f, 0)
  {
    hide IsoOf;
  }

  /** What bears the id of an event in the log is not appended. */
  lemma KnownAddNothing(rest: seq<AppEvent>, e: AppEvent, f: AppEvent, again: seq<AppEvent>)
    requires forall x :: x in again ==> x.eventId == e.eventId || x.eventId == f.eventId
    ensures AppendedAll([], rest + [e, f] + again) == AppendedAll([], rest + [e, f])
  {
    hide HasId;
    var es := rest + [e, f];
    AppendsCompose([], es, again);
    LogIdsAreEventIds(es, e.eventId);
    LogIdsAreEventIds(es, f.eventId);
    assert e in es && f in es;
    KnownEventsAddNothing(AppendedAll([], es), again);
  }

  // ---------------------------------------------------------------- changes learned again

  ghost predicate PartOf(part: seq<AppEvent>, es: seq<AppEvent>) {
    forall e :: e in part ==> e in es
  }

  /** Of a change learned twice, what is known between the two instants depends on which came first. */
  lemma LearnedTwiceShows(e: AppEvent, f: AppEvent)
    requires e.eventId == f.eventId && Millis(e.ingestedAt) < Millis(f.ingestedAt)
    ensures !OrderNeverShows([e, f])
  {
    hide IsoOf, Instant, StatesAt, RowOf;
    var tau := Some(e.ingestedAt);
    FirstStays(e, f);
    FirstStays(f, e);
    OneEventShows(e, e.key, tau);
    OneEventShows(f, e.key, tau);
    assert SameEvents([e, f], [f, e]);
    if OrderNeverShows([e, f]) {
      NotShownAt([e, f], [f, e], None, None, tau);
    }
  }

  /** A log of one event shows its entity exactly when the event has been learned. */
  lemma OneEventShows(e: AppEvent, k: Key, tau: Option<Moment>)
    requires tau.Some?
    ensures k in StatesAt([RowOf(e, 1)], None, None, tau) <==> k == e.key && Millis(e.ingestedAt) <= Millis(tau.value)
  {
    hide IsoOf, Instant, StatesAt, Select;
    var r, q := RowOf(e, 1), EntityQuery(k, None, tau);
    IsoOfOrder(e.ingestedAt, tau.value);
    FoldsAgree([r], None, k, None, tau);
    OneRowSelected(r, q);
  }

  lemma OneRowSelected(r: Row, q: Query)
    ensures Select([r], q) != [] <==> Matches(q, r)
  {
    hide Matches;
    SelectFacts([r], q);
    FirstIsMember(Select([r], q));
    assert r in [r];
  }

  lemma FirstStays(e: AppEvent, f: AppEvent)
    requires e.eventId == f.eventId
    ensures AppendedAll([], [e, f]) == [RowOf(e, 1)]
  {
    hide IsoOf;
    assert [e, f][..1] == [e] && [e][..0] == [];
    var row := RowOf(e, 1);
    assert !HasId([], e.eventId);
    assert AppendedAll([], []) == [];
    assert AppendedAll([], [e]) == Appended([], e) == [] + [row];
    assert row in [row] && HasId([row], f.eventId);
  }

  /** The exact condition when changes may be learned more than once: the order of arrival never
      shows, in these events or in any part of them, if and only if no two events of one entity in
      one millisecond conflict, and no change is learned in two different milliseconds. */
  lemma PartsNeverShowIff(es: seq<AppEvent>)
    requires IdsNameChanges(es)
    ensures (forall part :: PartOf(part, es) ==> OrderNeverShows(part)) <==> ConflictFree(es) && LearnedOnce(es)
  {
    hide OrderNeverShows, IdsNameRows, Conflict, Instant;
    IdsNameRowsIff(es);
    if !LearnedOnce(es) {
      var e, f :| e in es && f in es && e.eventId == f.eventId && Millis(e.ingestedAt) < Millis(f.ingestedAt);
      LearnedTwiceShows(e, f);
      assert PartOf([e, f], es);
    } else {
      forall part | PartOf(part, es) && ConflictFree(es) ensures OrderNeverShows(part) {
        PartInherits(part, es);
        OrderNeverShowsIff(part);
      }
      OrderNeverShowsIff(es);
      assert PartOf(es, es);
    }
  }

  lemma PartInherits(part: seq<AppEvent>, es: seq<AppEvent>)
    requires PartOf(part, es)
    ensures IdsNameRows(es) ==> IdsNameRows(part)
    ensures ConflictFree(es) ==> ConflictFree(part)
  {
    hide RowOf, Conflict, Instant;
  }
}

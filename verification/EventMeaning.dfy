/** What the state of an entity is in terms of the events that were appended: no rows, no folds. */
module EventMeaning {
  import opened Ordering
  import opened Wrappers
  import opened TimeText
  import opened EventLog
  import opened Bitemporal
  import opened FoldMeaning

  /** No id twice. */
  ghost predicate IdsOnce(es: seq<AppEvent>) {
    forall i, j :: 0 <= i < j < |es| ==> es[i].eventId != es[j].eventId
  }

  ghost predicate By(bound: Option<Moment>, t: Moment) {
    bound.None? || Millis(t) <= Millis(bound.value)
  }

  /** An event of this entity that happened by T and was learned by tau. */
  ghost predicate Seen(e: AppEvent, k: Key, T: Option<Moment>, tau: Option<Moment>) {
    e.key == k && By(T, e.validAt) && By(tau, e.ingestedAt)
  }

  // ---------------------------------------------------------------- kinds of events

  /** Sets the fields of its payload: anything but a delete and the two edge changes. */
  ghost predicate Writes(e: AppEvent, f: string) {
    && f in e.payload
    && (|| e.op == UpsertEntity || e.op == AppendVersion || e.op == PermissionChange || e.op == CommentAdd
        || e.op == ReactionAdd || e.op == StatusChange)
  }

  ghost predicate Touches(e: AppEvent, kind: string, target: string) {
    e.op == UpsertEdge(kind, target) || e.op == DeleteEdge(kind, target)
  }

  /** Says whether the entity exists. */
  ghost predicate SaysWhetherLive(e: AppEvent) {
    !e.op.UpsertEdge? && !e.op.DeleteEdge?
  }

  /** Event a is the last of its kind, in valid time and among equals in arrival. */
  ghost predicate IsLatest(es: seq<AppEvent>, p: AppEvent -> bool, a: nat) {
    a < |es| && p(es[a]) && forall b: nat :: b < |es| && p(es[b]) ==> NotAfter(es, b, a)
  }

  // ---------------------------------------------------------------- the log of distinct events

  lemma {:induction false} LogOfDistinct(es: seq<AppEvent>)
    requires IdsOnce(es)
    ensures var log := AppendedAll([], es);
            |log| == |es| && forall i :: 0 <= i < |es| ==> log[i] == RowOf(es[i], i + 1)
  {
    hide IsoOf;
    if es != [] {
      var n := |es| - 1;
      var front := es[..n];
      LogOfDistinct(front);
      LogIdsAreEventIds(front, es[n].eventId);
    }
  }

  lemma RowIsSelected(e: AppEvent, n: nat, k: Key, T: Option<Moment>, tau: Option<Moment>)
    ensures Matches(EntityQuery(k, T, tau), RowOf(e, n)) <==> Seen(e, k, T, tau)
  {
    hide IsoOf, Instant;
    if T.Some? { IsoOfOrder(e.validAt, T.value); }
    if tau.Some? { IsoOfOrder(e.ingestedAt, tau.value); }
  }

  /** The rows of an entity, by the places of their events. */
  lemma OwnRows(es: seq<AppEvent>, k: Key, T: Option<Moment>, tau: Option<Moment>, r: Row)
    requires IdsOnce(es)
    ensures r in Select(AppendedAll([], es), EntityQuery(k, T, tau)) <==>
      exists a :: 0 <= a < |es| && Seen(es[a], k, T, tau) && r == RowOf(es[a], a + 1)
  {
    hide IsoOf, Instant, Select, Matches, Seen, RowOf, AppendedAll;
    SelectFacts(AppendedAll([], es), EntityQuery(k, T, tau));
    if r in Select(AppendedAll([], es), EntityQuery(k, T, tau)) {
      var a := EventOfRow(es, k, T, tau, r);
    }
    if a :| 0 <= a < |es| && Seen(es[a], k, T, tau) && r == RowOf(es[a], a + 1) {
      RowOfEvent(es, k, T, tau, a);
    }
  }

  lemma EventOfRow(es: seq<AppEvent>, k: Key, T: Option<Moment>, tau: Option<Moment>, r: Row) returns (a: nat)
    requires IdsOnce(es) && r in AppendedAll([], es) && Matches(EntityQuery(k, T, tau), r)
    ensures a < |es| && Seen(es[a], k, T, tau) && r == RowOf(es[a], a + 1)
  {
    hide IsoOf, Instant, Matches, Seen, RowOf, AppendedAll;
    var log := AppendedAll([], es);
    LogOfDistinct(es);
    a :| 0 <= a < |log| && log[a] == r;
    RowIsSelected(es[a], a + 1, k, T, tau);
  }

  lemma RowOfEvent(es: seq<AppEvent>, k: Key, T: Option<Moment>, tau: Option<Moment>, a: nat)
    requires IdsOnce(es) && a < |es| && Seen(es[a], k, T, tau)
    ensures RowOf(es[a], a + 1) in AppendedAll([], es) && Matches(EntityQuery(k, T, tau), RowOf(es[a], a + 1))
  {
    hide IsoOf, Instant, Matches, Seen, RowOf, AppendedAll;
    var log := AppendedAll([], es);
    LogOfDistinct(es);
    RowIsSelected(es[a], a + 1, k, T, tau);
    assert log[a] in log;
  }

  /** The kind of a row is the kind of its event. */
  ghost predicate SameKind(p: Row -> bool, pe: AppEvent -> bool) {
    forall e, n :: p(RowOf(e, n)) <==> pe(e)
  }

  ghost function AlsoSeen(pe: AppEvent -> bool, k: Key, T: Option<Moment>, tau: Option<Moment>): AppEvent -> bool {
    (e: AppEvent) => pe(e) && Seen(e, k, T, tau)
  }

  lemma FoldOrderOfRows(e: AppEvent, m: nat, f: AppEvent, n: nat)
    requires FoldLe(RowOf(e, m), RowOf(f, n))
    ensures Millis(e.validAt) < Millis(f.validAt) || (Millis(e.validAt) == Millis(f.validAt) && m <= n)
  {
    hide IsoOf, Instant;
    IsoOfOrder(e.validAt, f.validAt);
  }

  lemma KindIsInOwn(es: seq<AppEvent>, k: Key, T: Option<Moment>, tau: Option<Moment>,
                    p: Row -> bool, pe: AppEvent -> bool, b: nat)
    requires IdsOnce(es) && SameKind(p, pe) && b < |es| && AlsoSeen(pe, k, T, tau)(es[b])
    ensures RowOf(es[b], b + 1) in Select(AppendedAll([], es), EntityQuery(k, T, tau)) && p(RowOf(es[b], b + 1))
  {
    hide IsoOf, Select, Seen, RowOf, AppendedAll;
    OwnRows(es, k, T, tau, RowOf(es[b], b + 1));
  }

  /** The last row of some kind is that of the latest event of that kind, and there is none without. */
  lemma LastRowIsLatest(es: seq<AppEvent>, k: Key, T: Option<Moment>, tau: Option<Moment>,
                        p: Row -> bool, pe: AppEvent -> bool) returns (a: nat)
    requires IdsOnce(es) && SameKind(p, pe)
    ensures var own := Select(AppendedAll([], es), EntityQuery(k, T, tau)); var i := LastIndex(own, p);
            if i < 0 then forall b: nat :: !IsLatest(es, AlsoSeen(pe, k, T, tau), b)
            else
              && a < |es| && own[i] == RowOf(es[a], a + 1)
              && forall b: nat :: IsLatest(es, AlsoSeen(pe, k, T, tau), b) <==> b == a
  {
    hide IsoOf, Instant, Select, Seen, RowOf, AppendedAll, FoldLe;
    var own := Select(AppendedAll([], es), EntityQuery(k, T, tau));
    var i := LastIndex(own, p);
    SelectFacts(AppendedAll([], es), EntityQuery(k, T, tau));
    a := 0;
    if i < 0 {
      forall b: nat ensures !IsLatest(es, AlsoSeen(pe, k, T, tau), b) {
        if b < |es| && AlsoSeen(pe, k, T, tau)(es[b]) { KindIsInOwn(es, k, T, tau, p, pe, b); }
      }
    } else {
      OwnRows(es, k, T, tau, own[i]);
      a :| 0 <= a < |es| && Seen(es[a], k, T, tau) && own[i] == RowOf(es[a], a + 1);
      forall b: nat | b < |es| && AlsoSeen(pe, k, T, tau)(es[b]) ensures NotAfter(es, b, a) {
        KindIsInOwn(es, k, T, tau, p, pe, b);
        var j :| 0 <= j < |own| && own[j] == RowOf(es[b], b + 1);
        if j < i {
          FoldOrderOfRows(es[b], b + 1, es[a], a + 1);
        } else {
          SameRowSamePlace(es, a, b);
        }
      }
      LatestIs(es, AlsoSeen(pe, k, T, tau), a);
    }
  }

  /** Event b does not come after event a. */
  ghost predicate NotAfter(es: seq<AppEvent>, b: nat, a: nat)
    requires a < |es| && b < |es|
  {
    Millis(es[b].validAt) < Millis(es[a].validAt) || (Millis(es[b].validAt) == Millis(es[a].validAt) && b <= a)
  }

  lemma LatestIs(es: seq<AppEvent>, p: AppEvent -> bool, a: nat)
    requires a < |es| && p(es[a]) && forall b: nat :: b < |es| && p(es[b]) ==> NotAfter(es, b, a)
    ensures forall b: nat :: IsLatest(es, p, b) <==> b == a
  {
    hide Instant;
    assert forall b: nat :: b < |es| && p(es[b]) ==> NotAfter(es, b, a);
    forall b: nat | IsLatest(es, p, b) ensures b == a {
      assert NotAfter(es, a, b) && NotAfter(es, b, a);
    }
  }

  lemma SameRowSamePlace(es: seq<AppEvent>, a: nat, b: nat)
    requires IdsOnce(es) && a < |es| && b < |es| && RowOf(es[a], a + 1) == RowOf(es[b], b + 1)
    ensures a == b
  {
    hide IsoOf;
  }

  // ---------------------------------------------------------------- existence and counts

  /** There is a state exactly when there is an event of the entity by then. */
  lemma ExistsIfSeen(es: seq<AppEvent>, k: Key, T: Option<Moment>, tau: Option<Moment>)
    requires IdsOnce(es)
    ensures EntityAt(AppendedAll([], es), k, T, tau).Some? <==> exists a :: 0 <= a < |es| && Seen(es[a], k, T, tau)
  {
    hide IsoOf, Select, Seen, RowOf, AppendedAll, Fold;
    var own := Select(AppendedAll([], es), EntityQuery(k, T, tau));
    if own != [] {
      OwnRows(es, k, T, tau, own[0]);
      assert own[0] in own;
    }
    if a :| 0 <= a < |es| && Seen(es[a], k, T, tau) {
      OwnRows(es, k, T, tau, RowOf(es[a], a + 1));
    }
  }

  /** The version events of an entity by (T, tau). */
  ghost function VersionEvents(es: seq<AppEvent>, k: Key, T: Option<Moment>, tau: Option<Moment>): seq<AppEvent> {
    Filter(es, (e: AppEvent) => Seen(e, k, T, tau) && e.op == AppendVersion)
  }

  /** The rows of an entity in the order of the log. */
  ghost function Mine(log: seq<Row>, k: Key, T: Option<Moment>, tau: Option<Moment>): seq<Row> {
    Filter(log, (r: Row) => Matches(EntityQuery(k, T, tau), r))
  }

  lemma MineWithOneMore(log: seq<Row>, e: AppEvent, n: nat, k: Key, T: Option<Moment>, tau: Option<Moment>)
    ensures Mine(log + [RowOf(e, n)], k, T, tau)
      == Mine(log, k, T, tau) + if Seen(e, k, T, tau) then [RowOf(e, n)] else []
  {
    hide IsoOf, Matches, Seen, RowOf;
    var keep := (r: Row) => Matches(EntityQuery(k, T, tau), r);
    RowIsSelected(e, n, k, T, tau);
    FilterSplits(log, [RowOf(e, n)], keep);
    assert Filter([RowOf(e, n)], keep) == if keep(RowOf(e, n)) then [RowOf(e, n)] else [];
  }

  lemma {:induction false} CountRows(es: seq<AppEvent>, k: Key, T: Option<Moment>, tau: Option<Moment>)
    requires IdsOnce(es)
    ensures |Versions(Mine(AppendedAll([], es), k, T, tau))| == |VersionEvents(es, k, T, tau)|
  {
    hide IsoOf, Seen, RowOf, Mine, Versions, VersionEvents;
    if es == [] {
      NoRowsNoVersions(k, T, tau);
    } else {
      var n := |es| - 1;
      var front, e := es[..n], es[n];
      CountRows(front, k, T, tau);
      LogOfDistinct(front);
      LogOfDistinct(es);
      var log, row := AppendedAll([], front), RowOf(e, n + 1);
      assert AppendedAll([], es) == log + [row];
      MineWithOneMore(log, e, n + 1, k, T, tau);
      assert Mine(log, k, T, tau) + [] == Mine(log, k, T, tau);
      VersionsAppend(Mine(log, k, T, tau), row);
      RowKeepsOp(e, n + 1);
      OneMoreVersionEvent(front, e, k, T, tau);
      assert es == front + [e];
    }
  }

  lemma NoRowsNoVersions(k: Key, T: Option<Moment>, tau: Option<Moment>)
    ensures |Versions(Mine(AppendedAll([], []), k, T, tau))| == 0 == |VersionEvents([], k, T, tau)|
  {
  }

  lemma RowKeepsOp(e: AppEvent, n: nat)
    ensures RowOf(e, n).op == e.op && RowOf(e, n).payload == e.payload && RowOf(e, n).validAt == IsoOf(e.validAt)
  {
    hide IsoOf;
  }

  lemma OneMoreVersionEvent(front: seq<AppEvent>, e: AppEvent, k: Key, T: Option<Moment>, tau: Option<Moment>)
    ensures |VersionEvents(front + [e], k, T, tau)|
      == |VersionEvents(front, k, T, tau)| + (if Seen(e, k, T, tau) && e.op == AppendVersion then 1 else 0)
  {
    hide Seen;
    var p := (x: AppEvent) => Seen(x, k, T, tau) && x.op == AppendVersion;
    FilterSplits(front, [e], p);
    assert |Filter([e], p)| == if p(e) then 1 else 0;
  }

  /** An entity has as many versions as version events were appended for it, by (T, tau). */
  lemma VersionsAreCounted(es: seq<AppEvent>, k: Key, T: Option<Moment>, tau: Option<Moment>)
    requires IdsOnce(es)
    ensures var s := EntityAt(AppendedAll([], es), k, T, tau);
            s.Some? ==> s.value.versionCount == |VersionEvents(es, k, T, tau)|
  {
    hide IsoOf, Matches, AppendedAll, VersionEvents, Fold;
    var q := EntityQuery(k, T, tau);
    CountRows(es, k, T, tau);
    var mine := Mine(AppendedAll([], es), k, T, tau);
    FilterOfSort(mine, FoldLe, (r: Row) => r.op.AppendVersion?);
    CountersAreCounts(Sort(mine, FoldLe));
  }

  // ---------------------------------------------------------------- the last writers

  lemma WritesIsCarries(f: string)
    ensures SameKind(Carries(f), (e: AppEvent) => Writes(e, f))
  {
    hide IsoOf;
  }

  /** A field is there exactly when an event wrote it, with the value of the latest that did. */
  lemma FieldIsLatest(es: seq<AppEvent>, k: Key, T: Option<Moment>, tau: Option<Moment>, f: string)
    requires IdsOnce(es)
    ensures var s := EntityAt(AppendedAll([], es), k, T, tau);
            var p := AlsoSeen((e: AppEvent) => Writes(e, f), k, T, tau);
            s.Some? ==>
              && (f in s.value.payload <==> exists a: nat :: IsLatest(es, p, a))
              && forall a: nat :: IsLatest(es, p, a) ==>
                   f in s.value.payload && f in es[a].payload && s.value.payload[f] == es[a].payload[f]
  {
    hide IsoOf, Instant, Select, Seen, RowOf, AppendedAll, Fold, Carries, IsLatest;
    var pe := (e: AppEvent) => Writes(e, f);
    var own := Select(AppendedAll([], es), EntityQuery(k, T, tau));
    WritesIsCarries(f);
    var a := LastRowIsLatest(es, k, T, tau, Carries(f), pe);
    PayloadIsLastWriter(own, f);
    if LastIndex(own, Carries(f)) >= 0 {
      RowKeepsOp(es[a], a + 1);
      CarriedIsThere(own[LastIndex(own, Carries(f))], f);
      assert IsLatest(es, AlsoSeen(pe, k, T, tau), a);
    }
  }

  lemma CarriedIsThere(r: Row, f: string)
    requires Carries(f)(r)
    ensures f in r.payload
  {
  }

  lemma TouchesIsTouched(kind: string, target: string)
    ensures SameKind(TouchesPair(kind, target), (e: AppEvent) => Touches(e, kind, target))
  {
    hide IsoOf;
  }

  /** A target is live exactly when the latest event that touched the pair added it. */
  lemma EdgeIsLatest(es: seq<AppEvent>, k: Key, T: Option<Moment>, tau: Option<Moment>, kind: string, target: string)
    requires IdsOnce(es)
    ensures var s := EntityAt(AppendedAll([], es), k, T, tau);
            var p := AlsoSeen((e: AppEvent) => Touches(e, kind, target), k, T, tau);
            s.Some? ==> (target in Targets(s.value.edges, kind)
                         <==> exists a: nat :: IsLatest(es, p, a) && es[a].op == UpsertEdge(kind, target))
  {
    hide IsoOf, Instant, Select, Seen, RowOf, AppendedAll, Fold, TouchesPair, IsLatest, Targets;
    var pe := (e: AppEvent) => Touches(e, kind, target);
    var p := AlsoSeen(pe, k, T, tau);
    var own := Select(AppendedAll([], es), EntityQuery(k, T, tau));
    TouchesIsTouched(kind, target);
    var a := LastRowIsLatest(es, k, T, tau, TouchesPair(kind, target), pe);
    EdgeIsLastWriter(own, kind, target);
    if LastIndex(own, TouchesPair(kind, target)) >= 0 {
      RowKeepsOp(es[a], a + 1);
      assert IsLatest(es, p, a);
      LatestIsOfKind(es, p, a);
    }
  }

  lemma LatestIsOfKind(es: seq<AppEvent>, p: AppEvent -> bool, a: nat)
    requires IsLatest(es, p, a)
    ensures a < |es| && p(es[a])
  {
    hide Instant;
  }

  lemma SaysIsNotEdge()
    ensures SameKind(NotEdge(), (e: AppEvent) => SaysWhetherLive(e))
  {
    hide IsoOf;
  }

  /** An entity is deleted exactly when the latest event that says whether it is live deletes it. */
  lemma TombstoneIsLatest(es: seq<AppEvent>, k: Key, T: Option<Moment>, tau: Option<Moment>)
    requires IdsOnce(es)
    ensures var s := EntityAt(AppendedAll([], es), k, T, tau);
            var p := AlsoSeen((e: AppEvent) => SaysWhetherLive(e), k, T, tau);
            s.Some? ==> (s.value.deleted <==> exists a: nat :: IsLatest(es, p, a) && es[a].op == DeleteEntity)
  {
    hide IsoOf, Instant, Select, Seen, RowOf, AppendedAll, Fold, NotEdge, IsLatest;
    var pe := (e: AppEvent) => SaysWhetherLive(e);
    var own := Select(AppendedAll([], es), EntityQuery(k, T, tau));
    SaysIsNotEdge();
    var a := LastRowIsLatest(es, k, T, tau, NotEdge(), pe);
    DeletedIsLastWriter(own);
    if LastIndex(own, NotEdge()) >= 0 {
      RowKeepsOp(es[a], a + 1);
      assert IsLatest(es, AlsoSeen(pe, k, T, tau), a);
    }
  }

  /** A state is dated by its latest event. */
  lemma StateIsDatedByLatest(es: seq<AppEvent>, k: Key, T: Option<Moment>, tau: Option<Moment>)
    requires IdsOnce(es)
    ensures var s := EntityAt(AppendedAll([], es), k, T, tau);
            var p := AlsoSeen((e: AppEvent) => true, k, T, tau);
            s.Some? ==> exists a: nat :: IsLatest(es, p, a) && s.value.lastValidAt == Some(IsoOf(es[a].validAt))
  {
    hide IsoOf, Instant, Select, Seen, RowOf, AppendedAll, Fold, IsLatest;
    var pe, any := (e: AppEvent) => true, (r: Row) => true;
    var own := Select(AppendedAll([], es), EntityQuery(k, T, tau));
    var a := LastRowIsLatest(es, k, T, tau, any, pe);
    CountersAreCounts(own);
    if own != [] {
      RowKeepsOp(es[a], a + 1);
      assert IsLatest(es, AlsoSeen(pe, k, T, tau), a);
    }
  }
}

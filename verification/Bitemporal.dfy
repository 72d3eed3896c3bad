/** Later arrivals never change an earlier bitemporal point. */
module Bitemporal {
  import opened Ordering
  import opened Wrappers
  import opened TimeText
  import opened EventLog

  function Millis(t: Moment): int {
    Instant(t) / 1000
  }

  // ---------------------------------------------------------------- no leakage

  /** The event happened after T, or was learned after tau. */
  ghost predicate Later(e: AppEvent, T: Moment, tau: Moment) {
    Millis(e.validAt) > Millis(T) || Millis(e.ingestedAt) > Millis(tau)
  }

  ghost predicate AllLater(es: seq<AppEvent>, T: Moment, tau: Moment) {
    forall e :: e in es ==> Later(e, T, tau)
  }

  /** A query bounded by (T, tau), whatever else it asks for. */
  ghost predicate BoundedBy(q: Query, T: Moment, tau: Moment) {
    q.asOfValid == Some(T) && q.asOfIngest == Some(tau)
  }

  lemma LaterRowsDoNotMatch(q: Query, e: AppEvent, n: nat, T: Moment, tau: Moment)
    requires BoundedBy(q, T, tau) && Later(e, T, tau)
    ensures !Matches(q, RowOf(e, n))
  {
    FilterIsTimeFilter(e, n, T, tau);
  }

  lemma {:induction false} SelectIgnoresLater(rows: seq<Row>, es: seq<AppEvent>, q: Query, T: Moment, tau: Moment)
    requires BoundedBy(q, T, tau) && AllLater(es, T, tau)
    ensures Select(AppendedAll(rows, es), q) == Select(rows, q)
  {
    hide RowOf, Later;
    if es != [] {
      var front, e := es[..|es| - 1], es[|es| - 1];
      SelectIgnoresLater(rows, front, q, T, tau);
      var log := AppendedAll(rows, front);
      var keep := (r: Row) => Matches(q, r);
      var row := RowOf(e, |log| + 1);
      LaterRowsDoNotMatch(q, e, |log| + 1, T, tau);
      FilterSplits(log, [row], keep);
      assert Filter([row], keep) == [];
      assert Filter(log + [row], keep) == Filter(log, keep);
    }
  }

  /** After any further appends of later events, the fold at (T, tau) is unchanged. */
  lemma NoLeakage(rows: seq<Row>, es: seq<AppEvent>, app: Option<string>, T: Moment, tau: Moment)
    requires AllLater(es, T, tau)
    ensures StatesAt(AppendedAll(rows, es), app, Some(T), Some(tau)) == StatesAt(rows, app, Some(T), Some(tau))
  {
    SelectIgnoresLater(rows, es, AppQuery(app, Some(T), Some(tau)), T, tau);
  }

  /** The same for one entity. */
  lemma NoEntityLeakage(rows: seq<Row>, es: seq<AppEvent>, k: Key, T: Moment, tau: Moment)
    requires AllLater(es, T, tau)
    ensures EntityAt(AppendedAll(rows, es), k, Some(T), Some(tau)) == EntityAt(rows, k, Some(T), Some(tau))
  {
    SelectIgnoresLater(rows, es, EntityQuery(k, Some(T), Some(tau)), T, tau);
  }
}

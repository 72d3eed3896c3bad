/** Resumable Calendar sync: a stored cursor, batches pulled lazily, and idempotent appends. */
module CalendarSync {
  import opened Wrappers
  import opened TimeText
  import opened EventLog
  import opened Bitemporal
  import opened ArrivalOrder

  // ---------------------------------------------------------------- what a source emits

  datatype Attendee = Attendee(email: Option<string>, response: string)

  /** A calendar event resource; `content` is its normalised payload less the calendar id. */
  datatype RawEvent = RawEvent(
    id: string, cancelled: bool, updated: Option<Moment>, start: Option<Moment>,
    content: Payload, attendees: seq<Attendee>)

  datatype Batch = Batch(token: Option<string>, events: seq<RawEvent>)

  /** What identifies an event for idempotent ingestion; the time it was learned is not part of it. */
  datatype Identity = Identity(key: Key, op: Op, validAt: string, payload: Payload)

  /** The calendar, its batches, and how ids are derived from identities. */
  datatype Source = Source(calendarId: string, batches: seq<Batch>, newId: Identity -> string)

  function Event(src: Source, id: string, op: Op, payload: Payload, validAt: Moment, ts: Moment): AppEvent {
    var key := Key("gcal", "event", id);
    AppEvent(src.newId(Identity(key, op, IsoOf(validAt), payload)), key, op, payload, validAt, ts)
  }

  /** `updated`, else the start, else the time of ingestion. */
  function ValidAt(raw: RawEvent, ts: Moment): Moment {
    if raw.updated.Some? then raw.updated.value
    else if raw.start.Some? then raw.start.value
    else ts
  }

  function EmitAttendees(src: Source, raw: RawEvent, ts: Moment, n: nat): seq<AppEvent>
    requires n <= |raw.attendees|
  {
    if n == 0 then [] else
      var a := raw.attendees[n - 1];
      var before := EmitAttendees(src, raw, ts, n - 1);
      if a.email.None? || a.email.value == "" then before
      else before + [Event(src, raw.id, UpsertEdge("attendee", a.email.value),
                           map["responseStatus" := a.response], ValidAt(raw, ts), ts)]
  }

  /** A cancelled event is a delete; any other is an upsert followed by its attendee edges. */
  function Emit(src: Source, raw: RawEvent, ts: Moment): seq<AppEvent> {
    if raw.cancelled then [Event(src, raw.id, DeleteEntity, map[], ValidAt(raw, ts), ts)]
    else [Event(src, raw.id, UpsertEntity, raw.content["calendar_id" := src.calendarId], ValidAt(raw, ts), ts)]
         + EmitAttendees(src, raw, ts, |raw.attendees|)
  }

  /** The raw event names this attendee by a usable address. */
  ghost predicate Invites(raw: RawEvent, n: nat, email: string, response: string)
    requires n <= |raw.attendees|
  {
    email != "" && exists i :: 0 <= i < n && raw.attendees[i] == Attendee(Some(email), response)
  }

  lemma {:induction false} AttendeesBecomeEdges(src: Source, raw: RawEvent, ts: Moment, n: nat, e: AppEvent)
    requires n <= |raw.attendees|
    ensures e in EmitAttendees(src, raw, ts, n) <==>
      exists email, response :: Invites(raw, n, email, response)
        && e == Event(src, raw.id, UpsertEdge("attendee", email), map["responseStatus" := response],
                      ValidAt(raw, ts), ts)
  {
    hide IsoOf, Event, ValidAt;
    if n > 0 {
      AttendeesBecomeEdges(src, raw, ts, n - 1, e);
      var a := raw.attendees[n - 1];
      forall email, response ensures Invites(raw, n, email, response) <==>
        Invites(raw, n - 1, email, response) || (email != "" && a == Attendee(Some(email), response)) {
      }
      if a.email.Some? && a.email.value != "" {
        assert a == Attendee(Some(a.email.value), a.response);
        assert Invites(raw, n, a.email.value, a.response);
      }
    }
  }

  /** The upsert of an event and its attendee edges are ties, but never conflicts: in whatever
      order they arrive, the event ends up the same. */
  lemma EmitIsConflictFree(src: Source, raw: RawEvent, ts: Moment)
    ensures ConflictFree(Emit(src, raw, ts))
  {
    hide IsoOf, Instant, EmitAttendees;
    var n := |raw.attendees|;
    forall e ensures e in EmitAttendees(src, raw, ts, n) ==> e.op.UpsertEdge? {
      AttendeesBecomeEdges(src, raw, ts, n, e);
    }
  }

  function EmitAll(src: Source, raws: seq<RawEvent>, ts: Moment): seq<AppEvent> {
    if raws == [] then [] else EmitAll(src, raws[..|raws| - 1], ts) + Emit(src, raws[|raws| - 1], ts)
  }

  function BatchEvents(src: Source, i: nat, ts: Moment): seq<AppEvent>
    requires i < |src.batches|
  {
    EmitAll(src, src.batches[i].events, ts)
  }

  /** Everything the first n batches emit. */
  function Stream(src: Source, n: nat, ts: Moment): seq<AppEvent>
    requires n <= |src.batches|
  {
    if n == 0 then [] else Stream(src, n - 1, ts) + BatchEvents(src, n - 1, ts)
  }

  /** Every event says when it took effect. */
  ghost predicate Dated(src: Source) {
    forall i, j :: 0 <= i < |src.batches| && 0 <= j < |src.batches[i].events| ==>
      src.batches[i].events[j].updated.Some? || src.batches[i].events[j].start.Some?
  }

  // ---------------------------------------------------------------- emission and time of ingestion

  /** The same event, learned at another time. */
  function Learned(e: AppEvent, ts: Moment): AppEvent {
    e.(ingestedAt := ts)
  }

  function LearnedAll(es: seq<AppEvent>, ts: Moment): seq<AppEvent> {
    if es == [] then [] else LearnedAll(es[..|es| - 1], ts) + [Learned(es[|es| - 1], ts)]
  }

  lemma {:induction false} LearnedAllFacts(es: seq<AppEvent>, ts: Moment)
    ensures |LearnedAll(es, ts)| == |es|
    ensures forall i :: 0 <= i < |es| ==> LearnedAll(es, ts)[i] == Learned(es[i], ts)
  {
    if es != [] {
      LearnedAllFacts(es[..|es| - 1], ts);
    }
  }

  lemma LearnedAllConcat(a: seq<AppEvent>, b: seq<AppEvent>, ts: Moment)
    ensures LearnedAll(a + b, ts) == LearnedAll(a, ts) + LearnedAll(b, ts)
  {
    hide LearnedAll;
    LearnedAllFacts(a, ts);
    LearnedAllFacts(b, ts);
    LearnedAllFacts(a + b, ts);
  }

  lemma {:induction false} AttendeesAreStable(src: Source, raw: RawEvent, t: Moment, u: Moment, n: nat)
    requires n <= |raw.attendees| && (raw.updated.Some? || raw.start.Some?)
    ensures EmitAttendees(src, raw, u, n) == LearnedAll(EmitAttendees(src, raw, t, n), u)
  {
    hide IsoOf;
    if n > 0 {
      AttendeesAreStable(src, raw, t, u, n - 1);
    }
  }

  lemma EmitIsStable(src: Source, raw: RawEvent, t: Moment, u: Moment)
    requires raw.updated.Some? || raw.start.Some?
    ensures Emit(src, raw, u) == LearnedAll(Emit(src, raw, t), u)
  {
    hide IsoOf, EmitAttendees;
    AttendeesAreStable(src, raw, t, u, |raw.attendees|);
    var first := Emit(src, raw, t)[0];
    assert [first][..0] == [];
    assert LearnedAll([first], u) == [Learned(first, u)];
    if !raw.cancelled {
      LearnedAllConcat([first], EmitAttendees(src, raw, t, |raw.attendees|), u);
    }
  }

  lemma {:induction false} EmitAllIsStable(src: Source, raws: seq<RawEvent>, t: Moment, u: Moment)
    requires forall j :: 0 <= j < |raws| ==> raws[j].updated.Some? || raws[j].start.Some?
    ensures EmitAll(src, raws, u) == LearnedAll(EmitAll(src, raws, t), u)
  {
    hide Emit;
    if raws != [] {
      var front, last := raws[..|raws| - 1], raws[|raws| - 1];
      EmitAllIsStable(src, front, t, u);
      EmitIsStable(src, last, t, u);
      LearnedAllConcat(EmitAll(src, front, t), Emit(src, last, t), u);
    }
  }

  lemma {:induction false} StreamIsStable(src: Source, n: nat, t: Moment, u: Moment)
    requires n <= |src.batches| && Dated(src)
    ensures Stream(src, n, u) == LearnedAll(Stream(src, n, t), u)
  {
    hide EmitAll;
    if n > 0 {
      StreamIsStable(src, n - 1, t, u);
      EmitAllIsStable(src, src.batches[n - 1].events, t, u);
      LearnedAllConcat(Stream(src, n - 1, t), BatchEvents(src, n - 1, t), u);
    }
  }

  // ---------------------------------------------------------------- resuming

  /** The batch after the first one that ended with the stored token; the first batch when
      there is no token, or when the token is unknown. */
  function ResumeFrom(batches: seq<Batch>, token: string, i: nat): nat
    requires i <= |batches|
    decreases |batches| - i
  {
    if i == |batches| then 0
    else if batches[i].token == Some(token) then i + 1
    else ResumeFrom(batches, token, i + 1)
  }

  function ResumeIndex(batches: seq<Batch>, token: Option<string>): nat {
    if token.None? then 0 else ResumeFrom(batches, token.value, 0)
  }

  lemma {:induction false} ResumeFromBounds(batches: seq<Batch>, token: string, i: nat, k: nat)
    requires i <= k < |batches| && batches[k].token == Some(token)
    ensures i < ResumeFrom(batches, token, i) <= k + 1
    decreases |batches| - i
  {
    if batches[i].token != Some(token) {
      ResumeFromBounds(batches, token, i + 1, k);
    }
  }

  /** Resuming from the token of batch k never skips past batch k. */
  lemma ResumeNeverSkips(batches: seq<Batch>, k: nat)
    requires k < |batches|
    ensures ResumeIndex(batches, batches[k].token) <= k + 1
  {
    if batches[k].token.Some? {
      ResumeFromBounds(batches, batches[k].token.value, 0, k);
    }
  }

  lemma {:induction false} UnknownTokenRestarts(batches: seq<Batch>, token: string, i: nat)
    requires i <= |batches| && forall k :: i <= k < |batches| ==> batches[k].token != Some(token)
    ensures ResumeFrom(batches, token, i) == 0
    decreases |batches| - i
  {
    if i < |batches| {
      UnknownTokenRestarts(batches, token, i + 1);
    }
  }

  // ---------------------------------------------------------------- the protocol

  /** A run is at event j of what batch i emits, stamping events with ts. */
  datatype Progress = Idle | Running(i: nat, j: nat, ts: Moment)

  datatype Sys = Sys(rows: seq<Row>, cursor: Option<string>, run: Progress)

  datatype Step =
    | Start(ts: Moment)
    | AppendNext
    | WriteCursor
    | Finish
    | Crash
    | ForceResync
    | TokenGone(token: string)

  /** The state after a step, or None when the step cannot happen. */
  ghost function Next(src: Source, s: Sys, step: Step): Option<Sys> {
    match step
    case Start(ts) =>
      if s.run != Idle then None else Some(s.(run := Running(ResumeIndex(src.batches, s.cursor), 0, ts)))
    case AppendNext =>
      if s.run == Idle || s.run.i >= |src.batches| || s.run.j >= |BatchEvents(src, s.run.i, s.run.ts)| then None
      else Some(Sys(Appended(s.rows, BatchEvents(src, s.run.i, s.run.ts)[s.run.j]), s.cursor,
                    Running(s.run.i, s.run.j + 1, s.run.ts)))
    case WriteCursor =>
      if s.run == Idle || s.run.i >= |src.batches| || s.run.j != |BatchEvents(src, s.run.i, s.run.ts)| then None
      else Some(Sys(s.rows, src.batches[s.run.i].token, Running(s.run.i + 1, 0, s.run.ts)))
    case Finish =>
      if s.run == Idle || s.run.i < |src.batches| then None else Some(s.(run := Idle))
    case Crash =>
      Some(s.(run := Idle))
    case ForceResync =>
      Some(s.(cursor := None))
    case TokenGone(token) =>
      if exists b :: b in src.batches && b.token == Some(token) then None else Some(s.(cursor := Some(token)))
  }

  ghost function Exec(src: Source, s: Sys, steps: seq<Step>): Option<Sys> {
    if steps == [] then Some(s) else
      match Exec(src, s, steps[..|steps| - 1])
      case None => None
      case Some(t) => Next(src, t, steps[|steps| - 1])
  }

  /** A row without the time it was learned. */
  function Anonymous(r: Row): Row {
    r.(ingestedAt := "")
  }

  /** The sequence of event identities of a log. */
  function Identities(rows: seq<Row>): seq<Row> {
    if rows == [] then [] else Identities(rows[..|rows| - 1]) + [Anonymous(rows[|rows| - 1])]
  }

  lemma {:induction false} IdentitiesAt(rows: seq<Row>)
    ensures |Identities(rows)| == |rows| && forall i :: 0 <= i < |rows| ==> Identities(rows)[i] == Anonymous(rows[i])
  {
    hide Anonymous;
    if rows != [] {
      IdentitiesAt(rows[..|rows| - 1]);
    }
  }

  lemma IdentitiesKeepIds(a: seq<Row>, b: seq<Row>, id: string)
    requires Identities(a) == Identities(b)
    ensures HasId(a, id) <==> HasId(b, id)
  {
    IdentitiesAt(a);
    IdentitiesAt(b);
    if r :| r in a && r.eventId == id {
      var i :| 0 <= i < |a| && a[i] == r;
      assert Anonymous(a[i]) == Anonymous(b[i]) && b[i] in b;
    }
    if r :| r in b && r.eventId == id {
      var i :| 0 <= i < |b| && b[i] == r;
      assert Anonymous(a[i]) == Anonymous(b[i]) && a[i] in a;
    }
  }

  /** Appending the same event learned at different times keeps two logs identical. */
  lemma AppendKeepsIdentities(a: seq<Row>, b: seq<Row>, e: AppEvent, ts: Moment)
    requires Identities(a) == Identities(b)
    ensures Identities(Appended(a, Learned(e, ts))) == Identities(Appended(b, e))
  {
    hide IsoOf;
    IdentitiesKeepIds(a, b, e.eventId);
    IdentitiesAt(a);
    IdentitiesAt(b);
    var r, s := RowOf(Learned(e, ts), |a| + 1), RowOf(e, |b| + 1);
    assert Anonymous(r) == Anonymous(s);
    assert (a + [r])[..|a|] == a && (b + [s])[..|b|] == b;
  }

  // ---------------------------------------------------------------- exactly once

  ghost function Full(src: Source, ref: Moment): seq<AppEvent> {
    Stream(src, |src.batches|, ref)
  }

  /** How many events the first n batches emit. */
  ghost function Offset(src: Source, n: nat, ref: Moment): nat
    requires n <= |src.batches|
  {
    |Stream(src, n, ref)|
  }

  lemma {:induction false} StreamPrefix(src: Source, m: nat, n: nat, ref: Moment)
    requires m <= n <= |src.batches|
    ensures Stream(src, m, ref) <= Stream(src, n, ref)
    decreases n
  {
    hide EmitAll;
    if m < n {
      StreamPrefix(src, m, n - 1, ref);
    }
  }

  /** Event j of batch i is the event of the full stream at its offset. */
  lemma StreamAt(src: Source, i: nat, j: nat, ref: Moment)
    requires i < |src.batches| && j < |BatchEvents(src, i, ref)|
    ensures Offset(src, i, ref) + j < |Full(src, ref)|
    ensures Full(src, ref)[Offset(src, i, ref) + j] == BatchEvents(src, i, ref)[j]
  {
    hide EmitAll;
    StreamPrefix(src, i + 1, |src.batches|, ref);
  }

  lemma BatchIsStable(src: Source, i: nat, ref: Moment, ts: Moment)
    requires i < |src.batches| && Dated(src)
    ensures |BatchEvents(src, i, ts)| == |BatchEvents(src, i, ref)|
    ensures forall j :: 0 <= j < |BatchEvents(src, i, ref)| ==>
      BatchEvents(src, i, ts)[j] == Learned(BatchEvents(src, i, ref)[j], ts)
  {
    hide EmitAll;
    EmitAllIsStable(src, src.batches[i].events, ref, ts);
    LearnedAllFacts(BatchEvents(src, i, ref), ts);
  }

  /** The log holds the first k events of the stream, once each, and neither the cursor nor a
      run in progress is ahead of them. */
  ghost predicate Holds(src: Source, rows0: seq<Row>, ref: Moment, s: Sys, k: nat) {
    && k <= |Full(src, ref)|
    && Identities(s.rows) == Identities(AppendedAll(rows0, Full(src, ref)[..k]))
    && ResumeIndex(src.batches, s.cursor) <= |src.batches|
    && Offset(src, ResumeIndex(src.batches, s.cursor), ref) <= k
    && RunHolds(src, ref, s.run, k)
  }

  ghost predicate RunHolds(src: Source, ref: Moment, run: Progress, k: nat) {
    run.Running? ==>
      && run.i <= |src.batches| && Offset(src, run.i, ref) + run.j <= k
      && (run.i < |src.batches| ==> run.j <= |BatchEvents(src, run.i, ref)|)
  }

  /** A pulled event is either already in the log, and then nothing happens, or the next one. */
  lemma AppendHolds(src: Source, rows0: seq<Row>, ref: Moment, s: Sys, k: nat) returns (k': nat)
    requires Dated(src) && Holds(src, rows0, ref, s, k) && Next(src, s, AppendNext).Some?
    ensures Holds(src, rows0, ref, Next(src, s, AppendNext).value, k')
  {
    hide IsoOf, BatchEvents, Stream, ResumeIndex, Appended, Dated, Identities;
    var i, j, ts := s.run.i, s.run.j, s.run.ts;
    BatchIsStable(src, i, ref, ts);
    StreamAt(src, i, j, ref);
    var full := Full(src, ref);
    var p := Offset(src, i, ref) + j;
    var log := AppendedAll(rows0, full[..k]);
    AppendKeepsIdentities(s.rows, log, full[p], ts);
    if p < k {
      AppendedIsKnown(rows0, full[..k], p);
      KnownIsNoOp(log, full[p]);
      k' := k;
    } else {
      assert full[..k + 1][..k] == full[..k];
      k' := k + 1;
    }
  }

  lemma CursorHolds(src: Source, rows0: seq<Row>, ref: Moment, s: Sys, k: nat)
    requires Dated(src) && Holds(src, rows0, ref, s, k) && Next(src, s, WriteCursor).Some?
    ensures Holds(src, rows0, ref, Next(src, s, WriteCursor).value, k)
  {
    hide IsoOf, ResumeIndex, Dated, Identities, EmitAll;
    var i := s.run.i;
    BatchIsStable(src, i, ref, s.run.ts);
    ResumeNeverSkips(src.batches, i);
    StreamPrefix(src, ResumeIndex(src.batches, src.batches[i].token), i + 1, ref);
  }

  /** Every step keeps the exactly-once invariant. */
  lemma StepHolds(src: Source, rows0: seq<Row>, ref: Moment, s: Sys, step: Step, k: nat) returns (k': nat)
    requires Dated(src) && Holds(src, rows0, ref, s, k) && Next(src, s, step).Some?
    ensures Holds(src, rows0, ref, Next(src, s, step).value, k')
  {
    hide IsoOf, Dated, Identities, EmitAll, Appended;
    k' := k;
    match step
    case AppendNext => k' := AppendHolds(src, rows0, ref, s, k);
    case WriteCursor => CursorHolds(src, rows0, ref, s, k);
    case TokenGone(token) => UnknownTokenRestarts(src.batches, token, 0);
    case _ =>
  }

  lemma {:induction false} ExecHolds(src: Source, rows0: seq<Row>, ref: Moment, s: Sys, steps: seq<Step>, k: nat)
    returns (k': nat)
    requires Dated(src) && Holds(src, rows0, ref, s, k) && Exec(src, s, steps).Some?
    ensures Holds(src, rows0, ref, Exec(src, s, steps).value, k')
    decreases |steps|
  {
    hide Dated, Holds, Next;
    if steps == [] {
      k' := k;
    } else {
      var front := steps[..|steps| - 1];
      k' := ExecHolds(src, rows0, ref, s, front, k);
      k' := StepHolds(src, rows0, ref, Exec(src, s, front).value, steps[|steps| - 1], k');
    }
  }

  /** Any interleaving of runs, appends, cursor writes, crashes and resyncs that ends by
      completing a run leaves the event identities of one uninterrupted sync. */
  lemma InterruptedSyncIsExactlyOnce(src: Source, rows0: seq<Row>, cursor0: Option<string>, ref: Moment,
                                     steps: seq<Step>)
    requires Dated(src) && ResumeIndex(src.batches, cursor0) == 0
    requires Exec(src, Sys(rows0, cursor0, Idle), steps + [Finish]).Some?
    ensures Identities(Exec(src, Sys(rows0, cursor0, Idle), steps + [Finish]).value.rows)
         == Identities(AppendedAll(rows0, Full(src, ref)))
  {
    hide Dated, Holds, Next, ResumeIndex, Identities, AppendedAll;
    var s := Sys(rows0, cursor0, Idle);
    StartHolds(src, rows0, cursor0, ref);
    assert (steps + [Finish])[..|steps|] == steps;
    var k := ExecHolds(src, rows0, ref, s, steps, 0);
    FinishHolds(src, rows0, ref, Exec(src, s, steps).value, k);
  }

  lemma StartHolds(src: Source, rows0: seq<Row>, cursor0: Option<string>, ref: Moment)
    requires ResumeIndex(src.batches, cursor0) == 0
    ensures Holds(src, rows0, ref, Sys(rows0, cursor0, Idle), 0)
  {
    hide ResumeIndex, Identities, AppendedAll, BatchEvents;
    assert Full(src, ref)[..0] == [];
    AppendNothing(rows0);
  }

  /** A run can finish only when the whole stream is in the log. */
  lemma FinishHolds(src: Source, rows0: seq<Row>, ref: Moment, s: Sys, k: nat)
    requires Holds(src, rows0, ref, s, k) && Next(src, s, Finish).Some?
    ensures Next(src, s, Finish).value.rows == s.rows
    ensures Identities(s.rows) == Identities(AppendedAll(rows0, Full(src, ref)))
  {
    hide ResumeIndex, Identities, AppendedAll, BatchEvents, Stream;
    assert k == |Full(src, ref)|;
    assert Full(src, ref)[..k] == Full(src, ref);
  }

  lemma AppendNothing(rows: seq<Row>)
    ensures AppendedAll(rows, []) == rows
  {
  }

  // ---------------------------------------------------------------- why dates are needed

  ghost predicate InjectiveIds(src: Source) {
    forall x, y :: src.newId(x) == src.newId(y) ==> x == y
  }

  /** Some event of the source records this date. */
  ghost predicate Recorded(src: Source, date: Moment) {
    exists i, j :: 0 <= i < |src.batches| && 0 <= j < |src.batches[i].events|
      && (src.batches[i].events[j].updated == Some(date) || src.batches[i].events[j].start == Some(date))
  }

  /** An instant that shares its millisecond with no date of the source. */
  ghost predicate Unrecorded(src: Source, ts: Moment) {
    forall date: Moment :: Recorded(src, date) ==> IsoOf(date) != IsoOf(ts)
  }

  /** An event as the source gives it at ts: named by its identity, and valid from a recorded
      date, or else from ts itself. */
  ghost predicate FromSource(src: Source, e: AppEvent, ts: Moment) {
    && e.eventId == src.newId(Identity(e.key, e.op, IsoOf(e.validAt), e.payload))
    && (e.validAt == ts || Recorded(src, e.validAt))
  }

  lemma {:induction false} AttendeesFromSource(src: Source, raw: RawEvent, ts: Moment, n: nat)
    requires n <= |raw.attendees| && (ValidAt(raw, ts) == ts || Recorded(src, ValidAt(raw, ts)))
    ensures forall e :: e in EmitAttendees(src, raw, ts, n) ==> FromSource(src, e, ts)
  {
    hide IsoOf, Recorded, ValidAt;
    if n > 0 {
      AttendeesFromSource(src, raw, ts, n - 1);
    }
  }

  lemma {:induction false} EmitAllFromSource(src: Source, i: nat, n: nat, ts: Moment)
    requires i < |src.batches| && n <= |src.batches[i].events|
    ensures forall e :: e in EmitAll(src, src.batches[i].events[..n], ts) ==> FromSource(src, e, ts)
  {
    hide IsoOf, FromSource, EmitAttendees;
    if n > 0 {
      EmitAllFromSource(src, i, n - 1, ts);
      var raw := src.batches[i].events[n - 1];
      assert src.batches[i].events[..n][..n - 1] == src.batches[i].events[..n - 1];
      RawIsRecorded(src, i, n - 1, ts);
      AttendeesFromSource(src, raw, ts, |raw.attendees|);
      FirstFromSource(src, raw, ts);
    }
  }

  lemma RawIsRecorded(src: Source, i: nat, j: nat, ts: Moment)
    requires i < |src.batches| && j < |src.batches[i].events|
    ensures var at := ValidAt(src.batches[i].events[j], ts); at == ts || Recorded(src, at)
  {
  }

  lemma FirstFromSource(src: Source, raw: RawEvent, ts: Moment)
    requires ValidAt(raw, ts) == ts || Recorded(src, ValidAt(raw, ts))
    ensures FromSource(src, Emit(src, raw, ts)[0], ts)
  {
    hide IsoOf, Recorded;
  }

  lemma {:induction false} StreamFromSource(src: Source, n: nat, ts: Moment)
    requires n <= |src.batches|
    ensures forall e :: e in Stream(src, n, ts) ==> FromSource(src, e, ts)
  {
    hide IsoOf, FromSource, EmitAll;
    if n > 0 {
      StreamFromSource(src, n - 1, ts);
      var raws := src.batches[n - 1].events;
      EmitAllFromSource(src, n - 1, |raws|, ts);
      assert raws[..|raws|] == raws;
    }
  }

  /** Ids derived from identities name changes: whenever it is learned, an event of the source is the
      same change. */
  lemma SourceIdsNameChanges(src: Source, t: Moment, u: Moment)
    requires InjectiveIds(src)
    ensures IdsNameChanges(Full(src, t) + Full(src, u))
  {
    hide IsoOf, Full, Recorded, Instant;
    FullIsStream(src, t);
    FullIsStream(src, u);
    StreamFromSource(src, |src.batches|, t);
    StreamFromSource(src, |src.batches|, u);
    var es := Full(src, t) + Full(src, u);
    forall e, f | e in es && f in es && e.eventId == f.eventId
      ensures e.key == f.key && e.op == f.op && e.payload == f.payload && Millis(e.validAt) == Millis(f.validAt)
    {
      assert FromSource(src, e, t) || FromSource(src, e, u);
      assert FromSource(src, f, t) || FromSource(src, f, u);
      IsoOfOrder(e.validAt, f.validAt);
    }
  }

  lemma {:induction false} EmittedIsInBatch(src: Source, raws: seq<RawEvent>, j: nat, ts: Moment)
    requires j < |raws|
    ensures Emit(src, raws[j], ts)[0] in EmitAll(src, raws, ts)
  {
    hide Emit;
    EmitIsNotEmpty(src, raws[j], ts);
    if j < |raws| - 1 {
      EmittedIsInBatch(src, raws[..|raws| - 1], j, ts);
    }
  }

  lemma EmitIsNotEmpty(src: Source, raw: RawEvent, ts: Moment)
    ensures Emit(src, raw, ts) != []
    ensures Emit(src, raw, ts)[0].validAt == ValidAt(raw, ts)
  {
    hide IsoOf;
  }

  /** Every event of the source is in its stream. */
  lemma EmittedIsInStream(src: Source, i: nat, j: nat, ts: Moment)
    requires i < |src.batches| && j < |src.batches[i].events|
    ensures Emit(src, src.batches[i].events[j], ts) != []
    ensures Emit(src, src.batches[i].events[j], ts)[0] in Full(src, ts)
  {
    hide Emit, EmitAll;
    EmitIsNotEmpty(src, src.batches[i].events[j], ts);
    EmittedIsInBatch(src, src.batches[i].events, j, ts);
    StreamPrefix(src, i + 1, |src.batches|, ts);
    var e := Emit(src, src.batches[i].events[j], ts)[0];
    var k :| 0 <= k < |BatchEvents(src, i, ts)| && BatchEvents(src, i, ts)[k] == e;
    assert Stream(src, i + 1, ts)[|Stream(src, i, ts)| + k] == e;
  }

  /** An undated event gets a new identity at a new instant. */
  lemma UndatedIsNew(src: Source, t: Moment, u: Moment, i: nat, j: nat)
    requires InjectiveIds(src) && Unrecorded(src, u) && IsoOf(t) != IsoOf(u)
    requires i < |src.batches| && j < |src.batches[i].events|
    requires src.batches[i].events[j].updated.None? && src.batches[i].events[j].start.None?
    ensures exists e :: e in Full(src, u) && forall f :: f in Full(src, t) ==> f.eventId != e.eventId
  {
    hide IsoOf, Full, Recorded, Emit;
    var raw := src.batches[i].events[j];
    EmittedIsInStream(src, i, j, u);
    EmitIsNotEmpty(src, raw, u);
    var e := Emit(src, raw, u)[0];
    StreamFromSource(src, |src.batches|, u);
    StreamFromSource(src, |src.batches|, t);
    FullIsStream(src, t);
    FullIsStream(src, u);
    forall f | f in Full(src, t) ensures f.eventId != e.eventId {
      assert FromSource(src, f, t) && FromSource(src, e, u);
    }
  }

  lemma FullIsStream(src: Source, ts: Moment)
    ensures Full(src, ts) == Stream(src, |src.batches|, ts)
  {
  }

  /** The exact condition on dates: a full resync at a new instant adds nothing to the log of an
      earlier sync if and only if every event is dated. */
  lemma ResyncIsSilentIffDated(src: Source, t: Moment, u: Moment)
    requires InjectiveIds(src) && Unrecorded(src, u) && IsoOf(t) != IsoOf(u)
    ensures var log := AppendedAll([], Full(src, t)); AppendedAll(log, Full(src, u)) == log <==> Dated(src)
  {
    hide IsoOf, Full, Appended, InjectiveIds, Unrecorded;
    var log := AppendedAll([], Full(src, t));
    forall id { LogIdsAreEventIds(Full(src, t), id); }
    if Dated(src) {
      StreamIsStable(src, |src.batches|, t, u);
      FullIsStream(src, t);
      FullIsStream(src, u);
      LearnedAllFacts(Full(src, t), u);
      KnownEventsAddNothing(log, Full(src, u));
    } else {
      var i, j :| 0 <= i < |src.batches| && 0 <= j < |src.batches[i].events|
        && src.batches[i].events[j].updated.None? && src.batches[i].events[j].start.None?;
      UndatedIsNew(src, t, u, i, j);
      var e :| e in Full(src, u) && forall f :: f in Full(src, t) ==> f.eventId != e.eventId;
      var p :| 0 <= p < |Full(src, u)| && Full(src, u)[p] == e;
      AppendedIsKnown(log, Full(src, u), p);
    }
  }

  // ---------------------------------------------------------------- a further run

  /** What batches m to n - 1 emit. */
  ghost function Between(src: Source, m: nat, n: nat, ts: Moment): seq<AppEvent>
    requires m <= n <= |src.batches|
  {
    StreamPrefix(src, m, n, ts);
    Stream(src, n, ts)[|Stream(src, m, ts)|..]
  }

  lemma {:induction false} EmptyBatchesAddNothing(src: Source, m: nat, n: nat, ts: Moment)
    requires m <= n <= |src.batches|
    ensures Stream(src, m, ts) <= Stream(src, n, ts)
    ensures |Stream(src, n, ts)| == |Stream(src, m, ts)| <==> forall i :: m <= i < n ==> BatchEvents(src, i, ts) == []
    decreases n
  {
    hide EmitAll;
    if m < n {
      EmptyBatchesAddNothing(src, m, n - 1, ts);
    }
  }

  lemma {:induction false} ResumeFromIsAfterFirst(batches: seq<Batch>, token: string, i: nat, k: nat)
    requires i <= k < |batches| && batches[k].token == Some(token)
    ensures var r := ResumeFrom(batches, token, i);
            i < r <= |batches| && batches[r - 1].token == Some(token)
            && forall f :: i <= f < r - 1 ==> batches[f].token != Some(token)
    decreases |batches| - i
  {
    if batches[i].token != Some(token) {
      ResumeFromIsAfterFirst(batches, token, i + 1, k);
    }
  }

  /** Once the cursor is the last batch's token, a further run is silent exactly when that token
      is not null and no batch that emits anything comes after the first batch that bears it. */
  lemma FurtherRunIsSilentIff(src: Source, ts: Moment)
    requires src.batches != []
    ensures var last := src.batches[|src.batches| - 1].token;
            var m := ResumeIndex(src.batches, last);
            && m <= |src.batches|
            && (Between(src, m, |src.batches|, ts) == [] <==>
                 forall i :: 0 <= i < |src.batches| && BatchEvents(src, i, ts) != [] ==>
                   last.Some? && forall f :: 0 <= f < i ==> src.batches[f].token != last)
  {
    hide EmitAll, BatchEvents, Stream;
    var n := |src.batches|;
    var last := src.batches[n - 1].token;
    if last.Some? {
      ResumeFromIsAfterFirst(src.batches, last.value, 0, n - 1);
    }
    EmptyBatchesAddNothing(src, ResumeIndex(src.batches, last), n, ts);
  }

  ghost predicate DistinctTokens(batches: seq<Batch>) {
    && (forall i :: 0 <= i < |batches| ==> batches[i].token.Some?)
    && (forall i, j :: 0 <= i < j < |batches| ==> batches[i].token != batches[j].token)
  }

  /** A run from its start to its end, with nothing in between but its own steps. */
  ghost predicate Uninterrupted(run: seq<Step>) {
    && |run| >= 2 && run[0].Start? && run[|run| - 1] == Finish
    && forall k :: 0 < k < |run| - 1 ==> run[k] == AppendNext || run[k] == WriteCursor
  }

  /** While a run goes on, the stored token is the one that resumes where the run is. */
  ghost predicate CursorIsCurrent(src: Source, s: Sys) {
    s.run.Running? && s.run.i <= |src.batches| && ResumeIndex(src.batches, s.cursor) == s.run.i
  }

  lemma ResumeAfterBatch(batches: seq<Batch>, k: nat)
    requires DistinctTokens(batches) && k < |batches|
    ensures ResumeIndex(batches, batches[k].token) == k + 1
  {
    ResumeFromIsAfterFirst(batches, batches[k].token.value, 0, k);
  }

  lemma ResumeInRange(batches: seq<Batch>, token: Option<string>)
    ensures ResumeIndex(batches, token) <= |batches|
  {
    if token.Some? {
      if k: nat :| k < |batches| && batches[k].token == token {
        ResumeFromIsAfterFirst(batches, token.value, 0, k);
      } else {
        UnknownTokenRestarts(batches, token.value, 0);
      }
    }
  }

  lemma {:induction false} RunKeepsCursorCurrent(src: Source, s: Sys, run: seq<Step>, k: nat)
    requires DistinctTokens(src.batches) && Uninterrupted(run) && 1 <= k < |run| && Exec(src, s, run[..k]).Some?
    ensures CursorIsCurrent(src, Exec(src, s, run[..k]).value)
  {
    hide ResumeIndex, DistinctTokens, BatchEvents, Appended;
    assert run[..k][..k - 1] == run[..k - 1];
    if k == 1 {
      assert Exec(src, s, run[..0]) == Some(s);
      ResumeInRange(src.batches, s.cursor);
    } else {
      RunKeepsCursorCurrent(src, s, run, k - 1);
      var t := Exec(src, s, run[..k - 1]).value;
      if run[k - 1] == WriteCursor {
        ResumeAfterBatch(src.batches, t.run.i);
      }
    }
  }

  /** Once a run has written a token, the stored token is that of the batch before it. */
  lemma {:induction false} RunStoresTokens(src: Source, s: Sys, run: seq<Step>, k: nat)
    requires Uninterrupted(run) && 1 <= k < |run| && Exec(src, s, run[..k]).Some?
    ensures var t := Exec(src, s, run[..k]).value; var m := ResumeIndex(src.batches, s.cursor);
            && t.run.Running? && m <= t.run.i <= |src.batches|
            && t.cursor == if m < t.run.i then src.batches[t.run.i - 1].token else s.cursor
  {
    hide ResumeIndex, BatchEvents, Appended;
    assert run[..k][..k - 1] == run[..k - 1];
    if k == 1 {
      assert Exec(src, s, run[..0]) == Some(s);
      ResumeInRange(src.batches, s.cursor);
    } else {
      RunStoresTokens(src, s, run, k - 1);
    }
  }

  /** A run from start to end that pulls anything leaves the last batch's token, so whether the next
      one is silent is decided by FurtherRunIsSilentIff. */
  lemma CompletedRunEndsAtLastToken(src: Source, s: Sys, run: seq<Step>)
    requires Uninterrupted(run) && Exec(src, s, run).Some? && ResumeIndex(src.batches, s.cursor) < |src.batches|
    ensures Exec(src, s, run).value.run == Idle
    ensures Exec(src, s, run).value.cursor == src.batches[|src.batches| - 1].token
  {
    hide ResumeIndex, BatchEvents, Appended;
    assert run[..|run|] == run;
    RunStoresTokens(src, s, run, |run| - 1);
  }

  /** With distinct tokens that are never null: whatever happened before, once a run has gone from
      start to end, the next run finds nothing to append and no token to write; all it can do
      is finish, and that changes neither the log nor the cursor. */
  lemma FurtherRunIsSilent(src: Source, s: Sys, run: seq<Step>, ts: Moment)
    requires DistinctTokens(src.batches) && Uninterrupted(run) && Exec(src, s, run).Some?
    ensures var done := Exec(src, s, run).value; var next := Next(src, done, Start(ts));
            && next.Some? && Next(src, next.value, AppendNext).None? && Next(src, next.value, WriteCursor).None?
            && Next(src, next.value, Finish) == Some(done)
  {
    hide ResumeIndex, DistinctTokens, BatchEvents, Appended;
    var n := |run| - 1;
    assert run[..|run|] == run;
    RunKeepsCursorCurrent(src, s, run, n);
  }

  // ---------------------------------------------------------------- the adapter

  class GCalSync {
    const store: EventStore
    const src: Source

    constructor (store: EventStore, src: Source)
      ensures this.store == store && this.src == src
    {
      this.store, this.src := store, src;
    }

    ghost function Cursor(): Option<string>
      reads store
    {
      store.CursorAt("gcal", src.calendarId)
    }

    method Resume(last: Option<string>) returns (start: nat)
      ensures start == ResumeIndex(src.batches, last) <= |src.batches|
    {
      if last.None? {
        return 0;
      }
      for i := 0 to |src.batches|
        invariant ResumeFrom(src.batches, last.value, i) == ResumeIndex(src.batches, last)
      {
        if src.batches[i].token == last {
          return i + 1;
        }
      }
      return 0;
    }

    method ForceResync()
      modifies store`cursors
      ensures Cursor() == None && store.cursors == old(store.cursors)[("gcal", src.calendarId) := None]
    {
      store.SetCursor("gcal", src.calendarId, None);
    }

    /** The events of one batch: each is appended before the next is pulled. */
    method PullEvents(i: nat, ts: Moment, ghost s0: Sys, ghost before: seq<Step>)
      returns (emitted: nat, added: nat, ghost steps: seq<Step>)
      requires ValidLog(store.rows) && i < |src.batches|
      requires Exec(src, s0, before) == Some(Sys(store.rows, Cursor(), Running(i, 0, ts)))
      modifies store`rows
      ensures ValidLog(store.rows) && store.rows == AppendedAll(old(store.rows), BatchEvents(src, i, ts))
      ensures emitted == |BatchEvents(src, i, ts)| && |store.rows| == |old(store.rows)| + added
      ensures Exec(src, s0, steps) == Some(Sys(store.rows, Cursor(), Running(i, emitted, ts)))
    {
      hide EmitAll, Appended, ValidLog, ResumeIndex;
      var events := BatchEvents(src, i, ts);
      ghost var rows := store.rows;
      emitted, added, steps := 0, 0, before;
      for j := 0 to |events|
        invariant ValidLog(store.rows) && store.rows == AppendedAll(rows, events[..j])
        invariant emitted == j && |store.rows| == |rows| + added
        invariant Exec(src, s0, steps) == Some(Sys(store.rows, Cursor(), Running(i, j, ts)))
      {
        assert events[..j + 1][..j] == events[..j];
        emitted := emitted + 1;
        var count := |store.rows|;
        AppendAddsAtMostOne(store.rows, events[j]);
        var _ := store.Append(events[j]);
        if |store.rows| > count {
          added := added + 1;
        }
        assert (steps + [AppendNext])[..|steps|] == steps;
        steps := steps + [AppendNext];
      }
      assert events[..|events|] == events;
    }

    /** One batch: its events, and only then its token. */
    method PullBatch(i: nat, ts: Moment, ghost s0: Sys, ghost before: seq<Step>)
      returns (emitted: nat, added: nat, ghost steps: seq<Step>)
      requires ValidLog(store.rows) && i < |src.batches|
      requires Exec(src, s0, before) == Some(Sys(store.rows, Cursor(), Running(i, 0, ts)))
      modifies store
      ensures ValidLog(store.rows) && store.rows == AppendedAll(old(store.rows), BatchEvents(src, i, ts))
      ensures emitted == |BatchEvents(src, i, ts)| && |store.rows| == |old(store.rows)| + added
      ensures Cursor() == src.batches[i].token
      ensures Exec(src, s0, steps) == Some(Sys(store.rows, Cursor(), Running(i + 1, 0, ts)))
    {
      hide EmitAll, BatchEvents, ValidLog, ResumeIndex;
      emitted, added, steps := PullEvents(i, ts, s0, before);
      store.SetCursor("gcal", src.calendarId, src.batches[i].token);
      assert (steps + [WriteCursor])[..|steps|] == steps;
      steps := steps + [WriteCursor];
    }

    /** One sync, appending every event it yields. Its intermediate states are states of the
        protocol, and it leaves the log and the cursor of a completed run. */
    method RunSync(ts: Moment) returns (emitted: nat, added: nat, ghost steps: seq<Step>)
      requires ValidLog(store.rows)
      modifies store
      ensures var m := ResumeIndex(src.batches, old(Cursor()));
              && m <= |src.batches|
              && store.rows == AppendedAll(old(store.rows), Between(src, m, |src.batches|, ts))
              && emitted == |Between(src, m, |src.batches|, ts)| && |store.rows| == |old(store.rows)| + added
              && Cursor() == if m < |src.batches| then src.batches[|src.batches| - 1].token else old(Cursor())
      ensures ValidLog(store.rows)
      ensures Exec(src, Sys(old(store.rows), old(Cursor()), Idle), steps + [Finish])
        == Some(Sys(store.rows, Cursor(), Idle))
    {
      hide ValidLog, BatchEvents, ResumeIndex, Exec, Between, AppendedAll;
      ghost var rows, s0 := store.rows, Sys(store.rows, Cursor(), Idle);
      var last := store.GetCursor("gcal", src.calendarId);
      var start := Resume(last);
      var i := start;
      emitted, added, steps := 0, 0, [Start(ts)];
      StartStep(src, s0, ts);
      NothingYet(src, start, ts, rows);
      while i < |src.batches|
        invariant start <= i <= |src.batches| && ValidLog(store.rows)
        invariant store.rows == AppendedAll(rows, Between(src, start, i, ts))
        invariant emitted == |Between(src, start, i, ts)| && |store.rows| == |rows| + added
        invariant Cursor() == if start < i then src.batches[i - 1].token else last
        invariant Exec(src, s0, steps) == Some(Sys(store.rows, Cursor(), Running(i, 0, ts)))
      {
        var e, a;
        e, a, steps := PullBatch(i, ts, s0, steps);
        OneMoreBatch(src, start, i, ts, rows);
        emitted, added := emitted + e, added + a;
        i := i + 1;
      }
      FinishStep(src, s0, steps, store.rows, Cursor(), ts);
    }
  }

  lemma StartStep(src: Source, s: Sys, ts: Moment)
    requires s.run == Idle
    ensures Exec(src, s, [Start(ts)]) == Some(Sys(s.rows, s.cursor, Running(ResumeIndex(src.batches, s.cursor), 0, ts)))
  {
    hide ResumeIndex;
    assert [Start(ts)][..0] == [];
  }

  lemma FinishStep(src: Source, s: Sys, steps: seq<Step>, rows: seq<Row>, cursor: Option<string>, ts: Moment)
    requires Exec(src, s, steps) == Some(Sys(rows, cursor, Running(|src.batches|, 0, ts)))
    ensures Exec(src, s, steps + [Finish]) == Some(Sys(rows, cursor, Idle))
  {
    hide ResumeIndex;
    assert (steps + [Finish])[..|steps|] == steps;
  }

  lemma NothingYet(src: Source, m: nat, ts: Moment, rows: seq<Row>)
    requires m <= |src.batches|
    ensures Between(src, m, m, ts) == [] && AppendedAll(rows, Between(src, m, m, ts)) == rows
  {
  }

  lemma OneMoreBatch(src: Source, m: nat, i: nat, ts: Moment, rows: seq<Row>)
    requires m <= i < |src.batches|
    ensures |Between(src, m, i + 1, ts)| == |Between(src, m, i, ts)| + |BatchEvents(src, i, ts)|
    ensures AppendedAll(AppendedAll(rows, Between(src, m, i, ts)), BatchEvents(src, i, ts))
         == AppendedAll(rows, Between(src, m, i + 1, ts))
  {
    hide EmitAll, Appended;
    StreamPrefix(src, m, i, ts);
    assert Between(src, m, i + 1, ts) == Between(src, m, i, ts) + BatchEvents(src, i, ts);
    AppendsCompose(rows, Between(src, m, i, ts), BatchEvents(src, i, ts));
  }

  lemma AppendAddsAtMostOne(rows: seq<Row>, e: AppEvent)
    ensures |rows| <= |Appended(rows, e)| <= |rows| + 1
  {
    hide IsoOf;
  }
}

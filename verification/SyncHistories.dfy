/** Whole histories of a resumable sync: why dates are needed for exactly-once, and what happens when
    the list of batches grows between runs. */
module SyncHistories {
  import opened Wrappers
  import opened TimeText
  import opened EventLog
  import opened CalendarSync

  // ---------------------------------------------------------------- runs put together

  lemma {:induction false} ExecCompose(src: Source, s: Sys, a: seq<Step>, b: seq<Step>)
    requires Exec(src, s, a).Some?
    ensures Exec(src, s, a + b) == Exec(src, Exec(src, s, a).value, b)
  {
    hide Next;
    if b == [] {
      assert a + b == a;
    } else {
      assert (a + b)[..|a + b| - 1] == a + b[..|b| - 1];
      ExecCompose(src, s, a, b[..|b| - 1]);
    }
  }

  lemma ExecOne(src: Source, s: Sys, step: Step)
    ensures Exec(src, s, [step]) == Next(src, s, step)
  {
    hide Next;
    assert [step][..0] == [];
    assert Exec(src, s, []) == Some(s);
  }

  /** The first n events of a batch, appended one by one. */
  lemma {:induction false} EventsRun(src: Source, s: Sys, n: nat) returns (run: seq<Step>)
    requires s.run.Running? && s.run.j == 0 && s.run.i < |src.batches|
    requires n <= |BatchEvents(src, s.run.i, s.run.ts)|
    ensures Exec(src, s, run) == Some(Sys(AppendedAll(s.rows, BatchEvents(src, s.run.i, s.run.ts)[..n]), s.cursor,
                                          Running(s.run.i, n, s.run.ts)))
  {
    hide BatchEvents, ResumeIndex, Appended;
    var events := BatchEvents(src, s.run.i, s.run.ts);
    if n == 0 {
      run := [];
      AppendNothing(s.rows);
      assert events[..0] == [];
    } else {
      run := EventsRun(src, s, n - 1);
      ExecCompose(src, s, run, [AppendNext]);
      ExecOne(src, Exec(src, s, run).value, AppendNext);
      run := run + [AppendNext];
      assert events[..n][..n - 1] == events[..n - 1];
    }
  }

  /** The first n batches of a run that starts at the first. */
  lemma {:induction false} BatchesRun(src: Source, s: Sys, n: nat) returns (run: seq<Step>, cursor: Option<string>)
    requires s.run.Running? && s.run.i == s.run.j == 0 && n <= |src.batches|
    ensures Exec(src, s, run)
      == Some(Sys(AppendedAll(s.rows, Stream(src, n, s.run.ts)), cursor, Running(n, 0, s.run.ts)))
  {
    hide BatchEvents, ResumeIndex, Appended, Next, AppendedAll;
    if n == 0 {
      run, cursor := [], s.cursor;
      AppendNothing(s.rows);
    } else {
      run, cursor := BatchesRun(src, s, n - 1);
      var t := Exec(src, s, run).value;
      var events := BatchEvents(src, n - 1, s.run.ts);
      var more := EventsRun(src, t, |events|);
      assert events[..|events|] == events;
      AppendsCompose(s.rows, Stream(src, n - 1, s.run.ts), events);
      ExecCompose(src, s, run, more);
      ExecCompose(src, s, run + more, [WriteCursor]);
      ExecOne(src, Exec(src, s, run + more).value, WriteCursor);
      cursor := src.batches[n - 1].token;
      WriteNext(src, Exec(src, s, run + more).value);
      run := run + more + [WriteCursor];
    }
  }

  lemma WriteNext(src: Source, s: Sys)
    requires s.run.Running? && s.run.i < |src.batches| && s.run.j == |BatchEvents(src, s.run.i, s.run.ts)|
    ensures Next(src, s, WriteCursor)
      == Some(Sys(s.rows, src.batches[s.run.i].token, Running(s.run.i + 1, 0, s.run.ts)))
  {
    hide BatchEvents, ResumeIndex;
  }

  /** An uninterrupted run from the first batch to the last. */
  lemma FullRun(src: Source, rows: seq<Row>, cursor0: Option<string>, ts: Moment)
    returns (run: seq<Step>, cursor: Option<string>)
    requires ResumeIndex(src.batches, cursor0) == 0
    ensures run != [] && run[|run| - 1] == Finish
    ensures Exec(src, Sys(rows, cursor0, Idle), run) == Some(Sys(AppendedAll(rows, Full(src, ts)), cursor, Idle))
  {
    hide BatchEvents, ResumeIndex, Appended, AppendedAll, Stream;
    var s := Sys(rows, cursor0, Idle);
    StartStep(src, s, ts);
    var middle;
    middle, cursor := BatchesRun(src, Sys(rows, cursor0, Running(0, 0, ts)), |src.batches|);
    ExecCompose(src, s, [Start(ts)], middle);
    FinishStep(src, s, [Start(ts)] + middle, AppendedAll(rows, Full(src, ts)), cursor, ts);
    run := [Start(ts)] + middle + [Finish];
  }

  // ---------------------------------------------------------------- exactly once needs dates

  /** Whatever happens on the way, a history that ends by completing a run leaves the event
      identities of one uninterrupted sync, at some instant. */
  ghost predicate ExactlyOnce(src: Source) {
    forall steps :: Exec(src, Sys([], None, Idle), steps + [Finish]).Some? ==>
      exists ref :: Identities(Exec(src, Sys([], None, Idle), steps + [Finish]).value.rows)
        == Identities(AppendedAll([], Full(src, ref)))
  }

  /** The history of two full runs with a forced resync between them. */
  lemma TwoFullRuns(src: Source, t: Moment, u: Moment) returns (steps: seq<Step>)
    ensures Exec(src, Sys([], None, Idle), steps + [Finish]).Some?
    ensures Exec(src, Sys([], None, Idle), steps + [Finish]).value.rows == AppendedAll([], Full(src, t) + Full(src, u))
  {
    hide BatchEvents, Appended, AppendedAll, Stream, Next;
    var s := Sys([], None, Idle);
    var first, c := FullRun(src, [], None, t);
    var log := AppendedAll([], Full(src, t));
    ExecCompose(src, s, first, [ForceResync]);
    ExecOne(src, Sys(log, c, Idle), ForceResync);
    ResyncNext(src, Sys(log, c, Idle));
    var second, d := FullRun(src, log, None, u);
    ExecCompose(src, s, first + [ForceResync], second);
    AppendsCompose([], Full(src, t), Full(src, u));
    steps := first + [ForceResync] + second[..|second| - 1];
    assert steps + [Finish] == first + [ForceResync] + second;
  }

  lemma ResyncNext(src: Source, s: Sys)
    ensures Next(src, s, ForceResync) == Some(s.(cursor := None))
  {
  }

  /** A log with an event that a single sync does not emit is not the log of that sync. */
  lemma NewIdShows(src: Source, es: seq<AppEvent>, ref: Moment, e: AppEvent)
    requires e in es && forall f :: f in Full(src, ref) ==> f.eventId != e.eventId
    ensures Identities(AppendedAll([], es)) != Identities(AppendedAll([], Full(src, ref)))
  {
    hide Full, AppendedAll, Identities, HasId, IsoOf;
    LogIdsAreEventIds(es, e.eventId);
    LogIdsAreEventIds(Full(src, ref), e.eventId);
    if Identities(AppendedAll([], es)) == Identities(AppendedAll([], Full(src, ref))) {
      IdentitiesKeepIds(AppendedAll([], es), AppendedAll([], Full(src, ref)), e.eventId);
    }
  }

  /** With an undated event, two full runs at new instants leave more than any single sync. */
  lemma UndatedIsStoredTwice(src: Source, t: Moment, u: Moment, ref: Moment)
    requires InjectiveIds(src) && Unrecorded(src, t) && Unrecorded(src, u) && IsoOf(t) != IsoOf(u) && !Dated(src)
    ensures Identities(AppendedAll([], Full(src, t) + Full(src, u))) != Identities(AppendedAll([], Full(src, ref)))
  {
    hide Full, AppendedAll, Identities, IsoOf, Unrecorded, InjectiveIds;
    var i, j :| 0 <= i < |src.batches| && 0 <= j < |src.batches[i].events|
      && src.batches[i].events[j].updated.None? && src.batches[i].events[j].start.None?;
    var at := if IsoOf(ref) != IsoOf(u) then u else t;
    UndatedIsNew(src, ref, at, i, j);
    var e :| e in Full(src, at) && forall f :: f in Full(src, ref) ==> f.eventId != e.eventId;
    NewIdShows(src, Full(src, t) + Full(src, u), ref, e);
  }

  /** The exact condition: with collision-free ids, every history is exactly once if and only if every
      event is dated. The two instants are any that no event records. */
  lemma ExactlyOnceIffDated(src: Source, t: Moment, u: Moment)
    requires InjectiveIds(src) && Unrecorded(src, t) && Unrecorded(src, u) && IsoOf(t) != IsoOf(u)
    ensures ExactlyOnce(src) <==> Dated(src)
  {
    hide Full, AppendedAll, Identities, IsoOf, Unrecorded, InjectiveIds, Exec;
    if Dated(src) {
      forall steps | Exec(src, Sys([], None, Idle), steps + [Finish]).Some?
        ensures Identities(Exec(src, Sys([], None, Idle), steps + [Finish]).value.rows)
          == Identities(AppendedAll([], Full(src, t)))
      {
        InterruptedSyncIsExactlyOnce(src, [], None, t, steps);
      }
    } else {
      var steps := TwoFullRuns(src, t, u);
      forall ref ensures Identities(Exec(src, Sys([], None, Idle), steps + [Finish]).value.rows)
        != Identities(AppendedAll([], Full(src, ref)))
      {
        UndatedIsStoredTwice(src, t, u, ref);
      }
    }
  }

  // ---------------------------------------------------------------- a list of batches that grows

  /** A step of the protocol, or a new batch at the end of the list. */
  datatype Move = Do(step: Step) | Grow(batch: Batch)

  datatype World = World(src: Source, sys: Sys)

  function Grown(src: Source, b: Batch): Source {
    src.(batches := src.batches + [b])
  }

  /** A run reads the list when it starts, so growth shows only between runs. */
  ghost function Moved(w: World, move: Move): Option<World> {
    match move
    case Do(step) =>
      (match Next(w.src, w.sys, step)
       case None => None
       case Some(s) => Some(World(w.src, s)))
    case Grow(b) =>
      if w.sys.run == Idle then Some(World(Grown(w.src, b), w.sys)) else None
  }

  ghost function Play(w: World, moves: seq<Move>): Option<World> {
    if moves == [] then Some(w) else
      match Play(w, moves[..|moves| - 1])
      case None => None
      case Some(v) => Moved(v, moves[|moves| - 1])
  }

  ghost predicate Borne(batches: seq<Batch>, token: string) {
    exists i :: 0 <= i < |batches| && batches[i].token == Some(token)
  }

  /** The stored token was unknown, and is the new batch's. */
  ghost predicate Masks(w: World, b: Batch) {
    b.token.Some? && w.sys.cursor == b.token && !Borne(w.src.batches, b.token.value)
  }

  /** No batch comes that bears a token stored while it was unknown. */
  ghost predicate NeverMasked(w: World, moves: seq<Move>) {
    forall n :: 0 <= n < |moves| && moves[n].Grow? && Play(w, moves[..n]).Some? ==>
      !Masks(Play(w, moves[..n]).value, moves[n].batch)
  }

  // ---------------------------------------------------------------- growth keeps what was emitted

  /** What is emitted depends on the calendar and the ids, not on the list of batches. */
  lemma {:induction false} SameAttendees(src: Source, other: Source, raw: RawEvent, ts: Moment, n: nat)
    requires other.calendarId == src.calendarId && other.newId == src.newId && n <= |raw.attendees|
    ensures EmitAttendees(other, raw, ts, n) == EmitAttendees(src, raw, ts, n)
  {
    hide IsoOf;
    if n > 0 {
      SameAttendees(src, other, raw, ts, n - 1);
    }
  }

  lemma {:induction false} SameEmission(src: Source, other: Source, raws: seq<RawEvent>, ts: Moment)
    requires other.calendarId == src.calendarId && other.newId == src.newId
    ensures EmitAll(other, raws, ts) == EmitAll(src, raws, ts)
  {
    hide IsoOf, EmitAttendees;
    if raws != [] {
      SameEmission(src, other, raws[..|raws| - 1], ts);
      var raw := raws[|raws| - 1];
      SameAttendees(src, other, raw, ts, |raw.attendees|);
    }
  }

  lemma {:induction false} StreamOfGrown(src: Source, b: Batch, n: nat, ts: Moment)
    requires n <= |src.batches|
    ensures Stream(Grown(src, b), n, ts) == Stream(src, n, ts)
  {
    hide EmitAll;
    if n > 0 {
      StreamOfGrown(src, b, n - 1, ts);
      SameEmission(src, Grown(src, b), src.batches[n - 1].events, ts);
    }
  }

  lemma {:induction false} ResumeFromGrown(batches: seq<Batch>, b: Batch, token: string, i: nat)
    requires i <= |batches|
    ensures ResumeFrom(batches + [b], token, i) ==
      if Borne(batches[i..], token) then ResumeFrom(batches, token, i)
      else if b.token == Some(token) then |batches| + 1 else 0
    decreases |batches| - i
  {
    if i < |batches| {
      ResumeFromGrown(batches, b, token, i + 1);
      BorneOneMore(batches, token, i);
    } else {
      assert ResumeFrom(batches + [b], token, |batches| + 1) == 0;
    }
  }

  lemma BorneOneMore(batches: seq<Batch>, token: string, i: nat)
    requires i < |batches|
    ensures Borne(batches[i..], token) <==> batches[i].token == Some(token) || Borne(batches[i + 1..], token)
  {
    var all, rest := batches[i..], batches[i + 1..];
    if k :| 0 <= k < |rest| && rest[k].token == Some(token) {
      assert all[k + 1].token == Some(token);
    }
    if k :| 0 <= k < |all| && all[k].token == Some(token) {
      assert k > 0 ==> rest[k - 1].token == Some(token);
    }
    assert all[0] == batches[i];
  }

  lemma {:induction false} UnborneRestarts(batches: seq<Batch>, token: string)
    requires !Borne(batches, token)
    ensures ResumeFrom(batches, token, 0) == 0
  {
    UnknownTokenRestarts(batches, token, 0);
  }

  /** Growth moves the place to resume from only when it masks: then to the very end. */
  lemma ResumeAfterGrowth(w: World, b: Batch)
    ensures ResumeIndex(Grown(w.src, b).batches, w.sys.cursor)
      == if Masks(w, b) then |w.src.batches| + 1 else ResumeIndex(w.src.batches, w.sys.cursor)
  {
    hide Borne, ResumeFrom;
    if w.sys.cursor.Some? {
      var token := w.sys.cursor.value;
      ResumeFromGrown(w.src.batches, b, token, 0);
      assert w.src.batches[0..] == w.src.batches;
      if !Borne(w.src.batches, token) { UnborneRestarts(w.src.batches, token); }
    }
  }

  /** Growth that does not mask keeps the exactly-once invariant. */
  lemma GrowHolds(w: World, b: Batch, rows0: seq<Row>, ref: Moment, k: nat)
    requires w.sys.run == Idle && Holds(w.src, rows0, ref, w.sys, k) && !Masks(w, b)
    ensures Holds(Grown(w.src, b), rows0, ref, w.sys, k)
  {
    hide Stream, ResumeIndex, Masks, Identities, AppendedAll, BatchEvents, IsoOf;
    var n := |w.src.batches|;
    ResumeAfterGrowth(w, b);
    StreamOfGrown(w.src, b, n, ref);
    StreamOfGrown(w.src, b, ResumeIndex(w.src.batches, w.sys.cursor), ref);
    StreamPrefix(Grown(w.src, b), n, n + 1, ref);
    var before, after := Full(w.src, ref), Full(Grown(w.src, b), ref);
    assert before <= after;
    assert before[..k] == after[..k];
  }

  // ---------------------------------------------------------------- exactly once while it grows

  lemma {:induction false} PlayGrows(w: World, moves: seq<Move>)
    requires Play(w, moves).Some?
    ensures w.src.batches <= Play(w, moves).value.src.batches
  {
    hide Next;
    if moves != [] {
      PlayGrows(w, moves[..|moves| - 1]);
    }
  }

  lemma DatedPrefix(src: Source, other: Source)
    requires Dated(other) && src.batches <= other.batches
    ensures Dated(src)
  {
  }

  lemma {:induction false} PlayHolds(w: World, moves: seq<Move>, rows0: seq<Row>, ref: Moment) returns (k: nat)
    requires Holds(w.src, rows0, ref, w.sys, 0) && NeverMasked(w, moves)
    requires Play(w, moves).Some? && Dated(Play(w, moves).value.src)
    ensures Holds(Play(w, moves).value.src, rows0, ref, Play(w, moves).value.sys, k)
    decreases |moves|
  {
    hide Holds, Next, Dated, Masks;
    if moves == [] {
      k := 0;
    } else {
      var n := |moves| - 1;
      var front, last := moves[..n], moves[n];
      var v := Play(w, front).value;
      DatedPrefix(v.src, Play(w, moves).value.src);
      FrontNeverMasked(w, moves);
      k := PlayHolds(w, front, rows0, ref);
      match last
      case Do(step) => k := StepHolds(v.src, rows0, ref, v.sys, step, k);
      case Grow(b) => GrowHolds(v, b, rows0, ref, k);
    }
  }

  lemma FrontNeverMasked(w: World, moves: seq<Move>)
    requires moves != [] && NeverMasked(w, moves)
    ensures NeverMasked(w, moves[..|moves| - 1])
  {
    hide Masks, Play;
    var front := moves[..|moves| - 1];
    forall n | 0 <= n < |front| && front[n].Grow? && Play(w, front[..n]).Some?
      ensures !Masks(Play(w, front[..n]).value, front[n].batch)
    {
      assert front[..n] == moves[..n] && front[n] == moves[n];
    }
  }

  /** Batches that come between runs are picked up, once each: a history that ends by completing a run
      leaves the event identities of one sync of the final list, unless a batch came whose token
      had been stored before it was known. */
  lemma GrowingSyncIsExactlyOnce(src: Source, rows0: seq<Row>, cursor0: Option<string>, ref: Moment, moves: seq<Move>)
    requires ResumeIndex(src.batches, cursor0) == 0
    requires var w := World(src, Sys(rows0, cursor0, Idle));
             && NeverMasked(w, moves) && Play(w, moves + [Do(Finish)]).Some?
             && Dated(Play(w, moves + [Do(Finish)]).value.src)
    ensures var end := Play(World(src, Sys(rows0, cursor0, Idle)), moves + [Do(Finish)]).value;
            Identities(end.sys.rows) == Identities(AppendedAll(rows0, Full(end.src, ref)))
  {
    hide Dated, Holds, Next, ResumeIndex, Identities, AppendedAll, Masks, NeverMasked;
    var w := World(src, Sys(rows0, cursor0, Idle));
    StartHolds(src, rows0, cursor0, ref);
    assert (moves + [Do(Finish)])[..|moves|] == moves;
    var k := PlayHolds(w, moves, rows0, ref);
    var v := Play(w, moves).value;
    FinishHolds(v.src, rows0, ref, v.sys, k);
  }

  /** The stored token, if any, is one that a batch bears. */
  ghost predicate CursorKnown(w: World) {
    (w.sys.run.Running? ==> w.sys.run.i <= |w.src.batches|)
      && (w.sys.cursor.Some? ==> Borne(w.src.batches, w.sys.cursor.value))
  }

  lemma {:induction false} CursorStaysKnown(w: World, moves: seq<Move>)
    requires CursorKnown(w) && Play(w, moves).Some?
    requires forall m :: m in moves ==> !(m.Do? && m.step.TokenGone?)
    ensures CursorKnown(Play(w, moves).value)
  {
    hide BatchEvents, Appended, ResumeIndex, Borne;
    if moves != [] {
      var front, last := moves[..|moves| - 1], moves[|moves| - 1];
      assert last in moves && forall m :: m in front ==> m in moves;
      CursorStaysKnown(w, front);
      MoveKeepsKnown(Play(w, front).value, last);
    }
  }

  lemma MoveKeepsKnown(v: World, m: Move)
    requires CursorKnown(v) && Moved(v, m).Some? && !(m.Do? && m.step.TokenGone?)
    ensures CursorKnown(Moved(v, m).value)
  {
    hide BatchEvents, Appended, ResumeIndex;
    ResumeInRange(v.src.batches, v.sys.cursor);
    if m.Grow? && v.sys.cursor.Some? {
      var i :| 0 <= i < |v.src.batches| && v.src.batches[i].token == v.sys.cursor;
      assert Grown(v.src, m.batch).batches[i].token == v.sys.cursor;
    }
  }

  /** Where no stored token is ever invalidated, nothing masks. */
  lemma NothingMasks(w: World, moves: seq<Move>)
    requires CursorKnown(w) && forall m :: m in moves ==> !(m.Do? && m.step.TokenGone?)
    ensures NeverMasked(w, moves)
  {
    hide Play, Borne;
    forall n | 0 <= n < |moves| && moves[n].Grow? && Play(w, moves[..n]).Some?
      ensures !Masks(Play(w, moves[..n]).value, moves[n].batch)
    {
      CursorStaysKnown(w, moves[..n]);
    }
  }

  // ---------------------------------------------------------------- the exact condition on growth

  lemma {:induction false} ExecPrefix(src: Source, s: Sys, steps: seq<Step>, k: nat)
    requires k <= |steps| && Exec(src, s, steps).Some?
    ensures Exec(src, s, steps[..k]).Some?
    decreases |steps|
  {
    hide Next;
    if k < |steps| {
      ExecPrefix(src, s, steps[..|steps| - 1], k);
      assert steps[..|steps| - 1][..k] == steps[..k];
    } else {
      assert steps[..k] == steps;
    }
  }

  /** A run that resumes at the end of the list does nothing. */
  lemma RunAtEndIsSilent(src: Source, s: Sys, run: seq<Step>)
    requires Uninterrupted(run) && Exec(src, s, run).Some? && ResumeIndex(src.batches, s.cursor) == |src.batches|
    ensures Exec(src, s, run).value == s.(run := Idle)
  {
    hide ResumeIndex, BatchEvents, Appended;
    ExecPrefix(src, s, run, 1);
    ExecPrefix(src, s, run, 2);
    assert run[..2][..1] == run[..1] && run[..1][..0] == [];
    assert Exec(src, s, []) == Some(s);
    assert run[..1][0] == run[0] && run[..2][1] == run[1];
    assert run[..|run|] == run;
  }

  /** The exact condition on one growth: the next uninterrupted run brings the log to one sync of the new
      list if and only if the growth does not mask, or the log was there already. */
  lemma GrownRunIsExactlyOnceIff(w: World, b: Batch, rows0: seq<Row>, ref: Moment, k: nat, run: seq<Step>)
    requires w.sys.run == Idle && Holds(w.src, rows0, ref, w.sys, k) && Dated(Grown(w.src, b))
    requires Uninterrupted(run) && Exec(Grown(w.src, b), w.sys, run).Some?
    ensures var all := Identities(AppendedAll(rows0, Full(Grown(w.src, b), ref)));
            var now := Identities(Exec(Grown(w.src, b), w.sys, run).value.rows);
            now == all <==> !Masks(w, b) || Identities(w.sys.rows) == all
  {
    hide Holds, ResumeIndex, Identities, AppendedAll, Masks, Dated, Next, Full;
    var src := Grown(w.src, b);
    ResumeAfterGrowth(w, b);
    if Masks(w, b) {
      RunAtEndIsSilent(src, w.sys, run);
    } else {
      GrowHolds(w, b, rows0, ref, k);
      var n := |run| - 1;
      ExecPrefix(src, w.sys, run, n);
      var k' := ExecHolds(src, rows0, ref, w.sys, run[..n], k);
      FinishHolds(src, rows0, ref, Exec(src, w.sys, run[..n]).value, k');
    }
  }
}

/** What a calendar event looks like after a sync, in terms of the event as the calendar gave it. */
module SyncedState {
  import opened Ordering
  import opened Wrappers
  import opened TimeText
  import opened EventLog
  import opened FoldMeaning
  import opened Bitemporal
  import opened ArrivalOrder
  import opened CalendarSync

  /** Event j of batch i, and no other event of the source bears its id. */
  ghost predicate ListedOnce(src: Source, i: nat, j: nat) {
    && i < |src.batches| && j < |src.batches[i].events|
    && forall a, b :: 0 <= a < |src.batches| && 0 <= b < |src.batches[a].events| && (a, b) != (i, j) ==>
         src.batches[a].events[b].id != src.batches[i].events[j].id
  }

  /** The stream of an event in the log. */
  function EventKey(id: string): Key {
    Key("gcal", "event", id)
  }

  /** The addresses of an event at which someone can be reached. */
  ghost function Addresses(raw: RawEvent): set<string> {
    set a | a in raw.attendees && a.email.Some? && a.email.value != "" :: a.email.value
  }

  /** When the change took effect: `updated` if it is there, else the start, else when it was learned. */
  ghost function EffectiveAt(raw: RawEvent, ts: Moment): Moment {
    match (raw.updated, raw.start)
    case (Some(t), _) => t
    case (None, Some(t)) => t
    case (None, None) => ts
  }

  // ---------------------------------------------------------------- the events of one key

  lemma {:induction false} AttendeeKeys(src: Source, raw: RawEvent, ts: Moment, n: nat)
    requires n <= |raw.attendees|
    ensures forall e :: e in EmitAttendees(src, raw, ts, n) ==>
      e.key == EventKey(raw.id) && e.validAt == EffectiveAt(raw, ts) && e.ingestedAt == ts
  {
    hide IsoOf;
    if n > 0 {
      AttendeeKeys(src, raw, ts, n - 1);
    }
  }

  lemma EmitKeys(src: Source, raw: RawEvent, ts: Moment)
    ensures forall e :: e in Emit(src, raw, ts) ==>
      e.key == EventKey(raw.id) && e.validAt == EffectiveAt(raw, ts) && e.ingestedAt == ts
  {
    hide IsoOf, EmitAttendees;
    AttendeeKeys(src, raw, ts, |raw.attendees|);
  }

  /** The events of one raw event among those of a batch. */
  lemma {:induction false} OfKeyInBatch(src: Source, raws: seq<RawEvent>, ts: Moment, e: AppEvent)
    ensures e in EmitAll(src, raws, ts) <==> exists j :: 0 <= j < |raws| && e in Emit(src, raws[j], ts)
  {
    hide IsoOf, Emit;
    if raws != [] {
      var n := |raws| - 1;
      OfKeyInBatch(src, raws[..n], ts, e);
      assert e in EmitAll(src, raws, ts) <==> e in EmitAll(src, raws[..n], ts) || e in Emit(src, raws[n], ts);
      if j :| 0 <= j < |raws[..n]| && e in Emit(src, raws[..n][j], ts) { assert raws[j] == raws[..n][j]; }
      if j :| 0 <= j < |raws| && e in Emit(src, raws[j], ts) { assert j < n ==> raws[..n][j] == raws[j]; }
    }
  }

  /** Event b of batch a emits e. */
  ghost predicate EmittedBy(src: Source, a: int, b: int, ts: Moment, e: AppEvent) {
    0 <= a < |src.batches| && 0 <= b < |src.batches[a].events| && e in Emit(src, src.batches[a].events[b], ts)
  }

  lemma {:induction false} OfKeyInStream(src: Source, n: nat, ts: Moment, e: AppEvent)
    requires n <= |src.batches|
    ensures e in Stream(src, n, ts) <==> exists a, b :: a < n && EmittedBy(src, a, b, ts, e)
  {
    hide IsoOf, Emit, EmitAll;
    if n > 0 {
      OfKeyInStream(src, n - 1, ts, e);
      OfKeyInBatch(src, src.batches[n - 1].events, ts, e);
      assert e in Stream(src, n, ts) <==>
        e in Stream(src, n - 1, ts) || e in EmitAll(src, src.batches[n - 1].events, ts);
      var raws := src.batches[n - 1].events;
      if b :| 0 <= b < |raws| && e in Emit(src, raws[b], ts) {
        assert EmittedBy(src, n - 1, b, ts, e);
      }
    }
  }

  /** Of an event listed once the stream has exactly what that event emits. */
  lemma OnlyItsOwn(src: Source, i: nat, j: nat, ts: Moment, e: AppEvent)
    requires ListedOnce(src, i, j)
    ensures e in Full(src, ts) && e.key == EventKey(src.batches[i].events[j].id)
      <==> e in Emit(src, src.batches[i].events[j], ts)
  {
    hide IsoOf, Emit, Stream;
    OfKeyInStream(src, |src.batches|, ts, e);
    EmitKeys(src, src.batches[i].events[j], ts);
    if a, b :| EmittedBy(src, a, b, ts, e) {
      EmitKeys(src, src.batches[a].events[b], ts);
    }
    assert e in Emit(src, src.batches[i].events[j], ts) ==> EmittedBy(src, i, j, ts, e);
  }

  // ---------------------------------------------------------------- the rows of one key

  lemma FullNamesRows(src: Source, ts: Moment)
    requires InjectiveIds(src)
    ensures IdsNameRows(Full(src, ts))
  {
    hide IsoOf, Full, InjectiveIds, Instant, Recorded;
    SourceIdsNameChanges(src, ts, ts);
    FullLearnedAt(src, ts);
    assert forall e :: e in Full(src, ts) ==> e in Full(src, ts) + Full(src, ts);
    IdsNameRowsIff(Full(src, ts));
  }

  lemma FullLearnedAt(src: Source, ts: Moment)
    ensures forall e :: e in Full(src, ts) ==> e.ingestedAt == ts
  {
    hide IsoOf, Emit;
    forall e | e in Full(src, ts) ensures e.ingestedAt == ts {
      OfKeyInStream(src, |src.batches|, ts, e);
      var a, b :| a < |src.batches| && EmittedBy(src, a, b, ts, e);
      EmitKeys(src, src.batches[a].events[b], ts);
    }
  }

  ghost function Synced(src: Source, ts: Moment): seq<Row> {
    AppendedAll([], Full(src, ts))
  }

  ghost function OwnOf(src: Source, ts: Moment, id: string): seq<Row> {
    Select(Synced(src, ts), EntityQuery(EventKey(id), None, None))
  }

  /** The rows store what the event emits, and nothing else. */
  ghost predicate StoresEmission(own: seq<Row>, es: seq<AppEvent>) {
    && (forall r :: r in own ==> StoresOneOf(r, es))
    && (forall e :: e in es ==> StoredIn(e, own))
  }

  lemma OwnIffKey(src: Source, ts: Moment, id: string, r: Row)
    ensures r in OwnOf(src, ts, id) <==> r in Synced(src, ts) && r.key == EventKey(id)
  {
    hide IsoOf, Full, Select, AppendedAll;
    SelectFacts(Synced(src, ts), EntityQuery(EventKey(id), None, None));
  }

  lemma OwnRowIsEmitted(src: Source, i: nat, j: nat, ts: Moment, r: Row)
    requires InjectiveIds(src) && ListedOnce(src, i, j) && r in OwnOf(src, ts, src.batches[i].events[j].id)
    ensures StoresOneOf(r, Emit(src, src.batches[i].events[j], ts))
  {
    var id := src.batches[i].events[j].id;
    hide IsoOf, Emit, Full, OwnOf, InjectiveIds, AppendedAll, ListedOnce, IdsNameRows, Stores;
    FullNamesRows(src, ts);
    LogHoldsEvents(Full(src, ts));
    OwnIffKey(src, ts, id, r);
    assert StoresOneOf(r, Full(src, ts));
    var e :| e in Full(src, ts) && Stores(r, e);
    StoredFields(r, e);
    OnlyItsOwn(src, i, j, ts, e);
  }

  lemma EmittedIsOwn(src: Source, i: nat, j: nat, ts: Moment, e: AppEvent)
    requires InjectiveIds(src) && ListedOnce(src, i, j) && e in Emit(src, src.batches[i].events[j], ts)
    ensures StoredIn(e, OwnOf(src, ts, src.batches[i].events[j].id))
  {
    var id := src.batches[i].events[j].id;
    hide IsoOf, Emit, Full, OwnOf, InjectiveIds, AppendedAll, ListedOnce, IdsNameRows, Stores;
    FullNamesRows(src, ts);
    LogHoldsEvents(Full(src, ts));
    OnlyItsOwn(src, i, j, ts, e);
    assert StoredIn(e, Synced(src, ts));
    var r :| r in Synced(src, ts) && Stores(r, e);
    StoredFields(r, e);
    OwnIffKey(src, ts, id, r);
  }

  /** The rows of an event listed once: those of what it emits. */
  lemma OwnRowsOfRaw(src: Source, i: nat, j: nat, ts: Moment)
    requires InjectiveIds(src) && ListedOnce(src, i, j)
    ensures var raw := src.batches[i].events[j];
            StoresEmission(OwnOf(src, ts, raw.id), Emit(src, raw, ts))
  {
    var raw := src.batches[i].events[j];
    hide IsoOf, Emit, OwnOf, InjectiveIds, ListedOnce, StoresOneOf, StoredIn;
    forall r | r in OwnOf(src, ts, raw.id) ensures StoresOneOf(r, Emit(src, raw, ts)) {
      OwnRowIsEmitted(src, i, j, ts, r);
    }
    forall e | e in Emit(src, raw, ts) ensures StoredIn(e, OwnOf(src, ts, raw.id)) {
      EmittedIsOwn(src, i, j, ts, e);
    }
  }

  lemma StoredFields(r: Row, e: AppEvent)
    requires Stores(r, e)
    ensures r.key == e.key && r.op == e.op && r.payload == e.payload && r.validAt == IsoOf(e.validAt)
  {
    hide IsoOf;
  }

  // ---------------------------------------------------------------- a confirmed event

  lemma ConfirmedEmits(src: Source, raw: RawEvent, ts: Moment, e: AppEvent)
    requires !raw.cancelled && e in Emit(src, raw, ts)
    ensures (e.op == UpsertEntity && e.payload == raw.content["calendar_id" := src.calendarId])
      || (exists address :: address in Addresses(raw) && e.op == UpsertEdge("attendee", address))
  {
    hide IsoOf, EmitAttendees;
    AttendeesBecomeEdges(src, raw, ts, |raw.attendees|, e);
    if e in EmitAttendees(src, raw, ts, |raw.attendees|) {
      var email, response :| Invites(raw, |raw.attendees|, email, response)
        && e
          == Event(src, raw.id, UpsertEdge("attendee", email), map["responseStatus" := response], ValidAt(raw, ts), ts);
      var a := Attendee(Some(email), response);
      assert a in raw.attendees;
      assert email in Addresses(raw);
    }
  }

  lemma AddressIsEmitted(src: Source, raw: RawEvent, ts: Moment, address: string)
    requires !raw.cancelled && address in Addresses(raw)
    ensures exists e :: e in Emit(src, raw, ts) && e.op == UpsertEdge("attendee", address)
  {
    hide IsoOf, EmitAttendees;
    var n := |raw.attendees|;
    var a :| a in raw.attendees && a.email.Some? && a.email.value == address != "";
    var e :=
      Event(src, raw.id, UpsertEdge("attendee", address), map["responseStatus" := a.response], ValidAt(raw, ts), ts);
    var k :| 0 <= k < n && raw.attendees[k] == a;
    assert raw.attendees[k] == Attendee(Some(address), a.response);
    assert Invites(raw, n, address, a.response);
    AttendeesBecomeEdges(src, raw, ts, n, e);
  }

  lemma ContentIsEmitted(src: Source, raw: RawEvent, ts: Moment)
    requires !raw.cancelled
    ensures exists e :: e in Emit(src, raw, ts) && e.op == UpsertEntity
                     && e.payload == raw.content["calendar_id" := src.calendarId]
  {
    hide IsoOf, EmitAttendees;
    assert Emit(src, raw, ts)[0] in Emit(src, raw, ts);
  }

  lemma LastIndexFacts(rows: seq<Row>, p: Row -> bool)
    ensures LastIndex(rows, p) >= 0 ==> rows[LastIndex(rows, p)] in rows && p(rows[LastIndex(rows, p)])
    ensures forall r :: r in rows && p(r) ==> LastIndex(rows, p) >= 0
  {
  }

  /** A row that upserts this content, or adds one of these attendees. */
  ghost predicate ConfirmsIn(r: Row, content: Payload, addresses: set<string>) {
    || (r.op == UpsertEntity && r.payload == content)
    || exists address :: address in addresses && r.op == UpsertEdge("attendee", address)
  }

  /** What rows that upsert one content and add these attendees, at one time, fold to. */
  ghost predicate Confirms(own: seq<Row>, content: Payload, addresses: set<string>, at: string) {
    && (forall r :: r in own ==> r.validAt == at && ConfirmsIn(r, content, addresses))
    && (exists r :: r in own && r.op == UpsertEntity)
    && (forall address :: address in addresses ==> exists r :: r in own && r.op == UpsertEdge("attendee", address))
  }

  lemma ConfirmedPayload(own: seq<Row>, content: Payload, addresses: set<string>, at: string)
    requires Confirms(own, content, addresses, at)
    ensures Fold(own).payload == content
  {
    var r0 :| r0 in own && r0.op == UpsertEntity;
    forall f ensures (f in Fold(own).payload <==> f in content)
      && (f in content ==> f in Fold(own).payload && Fold(own).payload[f] == content[f])
    {
      PayloadIsLastWriter(own, f);
      LastIndexFacts(own, Carries(f));
      assert f in content ==> Carries(f)(r0);
    }
  }

  lemma ConfirmedEdges(own: seq<Row>, content: Payload, addresses: set<string>, at: string)
    requires Confirms(own, content, addresses, at)
    ensures Targets(Fold(own).edges, "attendee") == addresses
    ensures forall kind :: kind in Fold(own).edges ==> kind == "attendee"
  {
    hide Fold, Targets;
    forall address ensures address in Targets(Fold(own).edges, "attendee") <==> address in addresses {
      EdgeIsLastWriter(own, "attendee", address);
      LastIndexFacts(own, TouchesPair("attendee", address));
      if address in addresses {
        var r :| r in own && r.op == UpsertEdge("attendee", address);
        assert TouchesPair("attendee", address)(r);
      }
    }
    forall kind | kind in Fold(own).edges ensures kind == "attendee" {
      KindIsEverAdded(own, kind);
      LastIndexFacts(own, AddsKind(kind));
    }
  }

  lemma ConfirmedLives(own: seq<Row>, content: Payload, addresses: set<string>, at: string)
    requires Confirms(own, content, addresses, at)
    ensures own != [] && !Fold(own).deleted && Fold(own).lastValidAt == Some(at) && Fold(own).versionCount == 0
  {
    hide Fold;
    DeletedIsLastWriter(own);
    CountersAreCounts(own);
    LastIndexFacts(own, NotEdge());
    assert own[|own| - 1] in own;
    FirstIsMember(Versions(own));
  }

  /** After a sync into an empty log, a confirmed event that is listed once is there, with its content
      and the calendar's id as payload, exactly its usable addresses as attendees, no other edges,
      and dated by when it took effect. */
  lemma ConfirmedEventIsShown(src: Source, i: nat, j: nat, ts: Moment)
    requires InjectiveIds(src) && ListedOnce(src, i, j) && !src.batches[i].events[j].cancelled
    ensures var raw := src.batches[i].events[j]; var s := EntityAt(Synced(src, ts), EventKey(raw.id), None, None);
            && s.Some? && !s.value.deleted && s.value.versionCount == 0
            && s.value.payload == raw.content["calendar_id" := src.calendarId]
            && Targets(s.value.edges, "attendee") == Addresses(raw)
            && (forall kind :: kind in s.value.edges ==> kind == "attendee")
            && s.value.lastValidAt == Some(IsoOf(EffectiveAt(raw, ts)))
  {
    var raw := src.batches[i].events[j];
    hide IsoOf, Emit, Full, Select, InjectiveIds, AppendedAll, ListedOnce, Stores, Fold, Targets, Addresses;
    var own := OwnOf(src, ts, raw.id);
    var content, at := raw.content["calendar_id" := src.calendarId], IsoOf(EffectiveAt(raw, ts));
    OwnRowsOfRaw(src, i, j, ts);
    ConfirmedRows(src, raw, ts, own);
    ConfirmedPayload(own, content, Addresses(raw), at);
    ConfirmedEdges(own, content, Addresses(raw), at);
    ConfirmedLives(own, content, Addresses(raw), at);
  }

  lemma ConfirmedRow(src: Source, raw: RawEvent, ts: Moment, r: Row)
    requires !raw.cancelled && StoresOneOf(r, Emit(src, raw, ts))
    ensures r.validAt == IsoOf(EffectiveAt(raw, ts))
    ensures ConfirmsIn(r, raw.content["calendar_id" := src.calendarId], Addresses(raw))
  {
    hide IsoOf, Emit, Stores, Addresses;
    EmitKeys(src, raw, ts);
    var e :| e in Emit(src, raw, ts) && Stores(r, e);
    StoredFields(r, e);
    ConfirmedEmits(src, raw, ts, e);
  }

  lemma ConfirmedRows(src: Source, raw: RawEvent, ts: Moment, own: seq<Row>)
    requires !raw.cancelled && StoresEmission(own, Emit(src, raw, ts))
    ensures Confirms(own, raw.content["calendar_id" := src.calendarId], Addresses(raw), IsoOf(EffectiveAt(raw, ts)))
  {
    hide IsoOf, Emit, Stores, Addresses, ConfirmsIn, StoresOneOf;
    forall r | r in own ensures r.validAt == IsoOf(EffectiveAt(raw, ts))
      && ConfirmsIn(r, raw.content["calendar_id" := src.calendarId], Addresses(raw))
    {
      ConfirmedRow(src, raw, ts, r);
    }
    ContentIsEmitted(src, raw, ts);
    var e :| e in Emit(src, raw, ts) && e.op == UpsertEntity;
    var r := StoredRow(own, e);
    forall address | address in Addresses(raw) ensures exists r :: r in own && r.op == UpsertEdge("attendee", address) {
      AddressIsEmitted(src, raw, ts, address);
      var e :| e in Emit(src, raw, ts) && e.op == UpsertEdge("attendee", address);
      var r := StoredRow(own, e);
    }
  }

  lemma StoredRow(own: seq<Row>, e: AppEvent) returns (r: Row)
    requires StoredIn(e, own)
    ensures r in own && r.op == e.op
  {
    hide IsoOf;
    r :| r in own && Stores(r, e);
  }

  // ---------------------------------------------------------------- a cancelled event

  lemma CancelledEmits(src: Source, raw: RawEvent, ts: Moment)
    requires raw.cancelled
    ensures Emit(src, raw, ts) != [] && forall e :: e in Emit(src, raw, ts) ==> e.op == DeleteEntity
  {
    hide IsoOf;
  }

  lemma DeletesOnly(own: seq<Row>, at: string)
    requires own != [] && forall r :: r in own ==> r.op == DeleteEntity && r.validAt == at
    ensures Fold(own).deleted && Fold(own).payload == map[] && Fold(own).edges == map[] && Fold(own).lastValidAt
      == Some(at)
  {
    hide Fold;
    var n := |own| - 1;
    assert own[n] in own;
    DeletedIsLastWriter(own);
    CountersAreCounts(own);
    assert NotEdge()(own[n]);
    LastIndexFacts(own, NotEdge());
    forall f ensures f !in Fold(own).payload {
      PayloadIsLastWriter(own, f);
      LastIndexFacts(own, Carries(f));
    }
    forall kind ensures kind !in Fold(own).edges {
      KindIsEverAdded(own, kind);
      LastIndexFacts(own, AddsKind(kind));
    }
  }

  /** A cancelled event that is listed once is a tombstone: no payload, no edges, and dated the same way. */
  lemma CancelledEventIsTombstone(src: Source, i: nat, j: nat, ts: Moment)
    requires InjectiveIds(src) && ListedOnce(src, i, j) && src.batches[i].events[j].cancelled
    ensures var raw := src.batches[i].events[j]; var s := EntityAt(Synced(src, ts), EventKey(raw.id), None, None);
            && s.Some? && s.value.deleted && s.value.payload == map[] && s.value.edges == map[]
            && s.value.lastValidAt == Some(IsoOf(EffectiveAt(raw, ts)))
  {
    var raw := src.batches[i].events[j];
    hide IsoOf, Emit, Full, Select, InjectiveIds, AppendedAll, ListedOnce, Stores, Fold;
    var own := OwnOf(src, ts, raw.id);
    OwnRowsOfRaw(src, i, j, ts);
    CancelledEmits(src, raw, ts);
    EmitKeys(src, raw, ts);
    var e0 := Emit(src, raw, ts)[0];
    assert e0 in Emit(src, raw, ts);
    var r0 :| r0 in own && Stores(r0, e0);
    forall r | r in own ensures r.op == DeleteEntity && r.validAt == IsoOf(EffectiveAt(raw, ts)) {
      var e :| e in Emit(src, raw, ts) && Stores(r, e);
      StoredFields(r, e);
    }
    DeletesOnly(own, IsoOf(EffectiveAt(raw, ts)));
  }

  /** A first run into an empty log leaves that log. */
  lemma FirstRunIsSynced(src: Source, ts: Moment)
    ensures AppendedAll([], Between(src, ResumeIndex(src.batches, None), |src.batches|, ts)) == Synced(src, ts)
  {
    hide BatchEvents, AppendedAll;
  }

  // ---------------------------------------------------------------- after any history

  lemma IdentitiesOfPrepended(x: Row, rows: seq<Row>)
    ensures Identities([x] + rows) == [Anonymous(x)] + Identities(rows)
  {
    hide Anonymous, Identities;
    IdentitiesAt(rows);
    IdentitiesAt([x] + rows);
  }

  lemma NoIdentities()
    ensures Identities([]) == []
  {
  }

  lemma {:induction false} FilterOfIdentities(rows: seq<Row>, keep: Row -> bool)
    requires forall r :: keep(Anonymous(r)) == keep(r)
    ensures Filter(Identities(rows), keep) == Identities(Filter(rows, keep))
  {
    hide Anonymous, Identities;
    NoIdentities();
    if rows != [] {
      assert rows == [rows[0]] + rows[1..];
      FilterOfIdentities(rows[1..], keep);
      IdentitiesOfPrepended(rows[0], rows[1..]);
      IdentitiesOfPrepended(rows[0], Filter(rows[1..], keep));
      var ids := Identities(rows);
      assert ids[0] == Anonymous(rows[0]) && ids[1..] == Identities(rows[1..]);
      assert keep(ids[0]) == keep(rows[0]);
      assert [] + Filter(rows[1..], keep) == Filter(rows[1..], keep);
      assert Filter(ids, keep) == (if keep(ids[0]) then [ids[0]] else []) + Filter(ids[1..], keep);
    }
  }

  lemma {:induction false} InsertOfIdentities(x: Row, rows: seq<Row>)
    ensures Insert(Anonymous(x), Identities(rows), FoldLe) == Identities(Insert(x, rows, FoldLe))
  {
    hide Identities, FoldLe;
    NoIdentities();
    if rows == [] {
      IdentitiesOfPrepended(x, []);
    } else {
      assert rows == [rows[0]] + rows[1..];
      IdentitiesOfPrepended(rows[0], rows[1..]);
      assert Identities(rows)[1..] == Identities(rows[1..]);
      FoldOrderIgnoresIngest(x, rows[0]);
      InsertOfIdentities(x, rows[1..]);
      IdentitiesOfPrepended(x, rows);
      IdentitiesOfPrepended(rows[0], Insert(x, rows[1..], FoldLe));
    }
  }

  lemma FoldOrderIgnoresIngest(x: Row, y: Row)
    ensures FoldLe(Anonymous(x), Anonymous(y)) == FoldLe(x, y)
  {
  }

  lemma {:induction false} SortOfIdentities(rows: seq<Row>)
    ensures Sort(Identities(rows), FoldLe) == Identities(Sort(rows, FoldLe))
  {
    hide Identities, FoldLe, Anonymous;
    NoIdentities();
    if rows != [] {
      assert rows == [rows[0]] + rows[1..];
      IdentitiesOfPrepended(rows[0], rows[1..]);
      assert Identities(rows)[1..] == Identities(rows[1..]);
      SortOfIdentities(rows[1..]);
      InsertOfIdentities(rows[0], Sort(rows[1..], FoldLe));
    }
  }

  lemma {:induction false} FoldOfIdentities(rows: seq<Row>)
    ensures Fold(Identities(rows)) == Fold(rows)
  {
    hide Apply, Anonymous;
    if rows != [] {
      var n := |rows| - 1;
      FoldOfIdentities(rows[..n]);
      assert Identities(rows)[..|Identities(rows)| - 1] == Identities(rows[..n]);
      ApplyIgnoresIngest(Fold(rows[..n]), rows[n]);
    }
  }

  lemma ApplyIgnoresIngest(s: State, r: Row)
    ensures Apply(s, Anonymous(r)) == Apply(s, r)
  {
  }

  lemma EmptyIdentities(rows: seq<Row>)
    ensures Identities(rows) == [] <==> rows == []
  {
  }

  lemma StateOfIdentities(rows: seq<Row>, k: Key, T: Option<Moment>)
    ensures EntityAt(Identities(rows), k, T, None) == EntityAt(rows, k, T, None)
  {
    hide Identities, FoldLe, Fold, Matches;
    var q := EntityQuery(k, T, None);
    var keep := (r: Row) => Matches(q, r);
    forall r ensures keep(Anonymous(r)) == keep(r) {
      MatchIgnoresIngest(q, r);
    }
    FilterOfIdentities(rows, keep);
    SortOfIdentities(Filter(rows, keep));
    FoldOfIdentities(Select(rows, q));
    EmptyIdentities(Select(rows, q));
  }

  lemma MatchIgnoresIngest(q: Query, r: Row)
    requires q.asOfIngest == None
    ensures Matches(q, Anonymous(r)) == Matches(q, r)
  {
    hide IsoOf;
  }

  /** After any history that ends by completing a run, of a dated source, every entity is as one sync into
      an empty log leaves it. */
  lemma HistoryShowsOneSync(src: Source, ref: Moment, steps: seq<Step>, k: Key, T: Option<Moment>)
    requires Dated(src) && Exec(src, Sys([], None, Idle), steps + [Finish]).Some?
    ensures EntityAt(Exec(src, Sys([], None, Idle), steps + [Finish]).value.rows, k, T, None)
      == EntityAt(Synced(src, ref), k, T, None)
  {
    hide Dated, Exec, Full, AppendedAll, Identities, Select, IsoOf;
    var rows := Exec(src, Sys([], None, Idle), steps + [Finish]).value.rows;
    InterruptedSyncIsExactlyOnce(src, [], None, ref, steps);
    StateOfIdentities(rows, k, T);
    StateOfIdentities(Synced(src, ref), k, T);
  }
}

/** Content-addressed snapshots of a materialised state, and their diffs. */
module Snapshots {
  import opened Ordering
  import opened Wrappers
  import opened TimeText
  import opened EventLog
  import opened Bitemporal

  /** The texts that get hashed. */
  datatype Text =
    | VersionText(key: Key, payload: Payload, edges: map<string, set<string>>, deleted: bool)
    | RootText(hashes: seq<string>)
    | EmptyText
    | IdText(app: Option<string>, valid: string, ingest: string, root: string)
    | StateText(state: FullState)
    | ManifestText(manifest: Manifest)

  type Digest = Text -> string

  /** Collision freedom, the one assumption made of the hash. */
  ghost predicate Injective(h: Digest) {
    forall x, y :: h(x) == h(y) ==> x == y
  }

  datatype EntityVersion = EntityVersion(key: Key, versionHash: string, deleted: bool)

  datatype Manifest = Manifest(snapshotId: string, app: Option<string>, asOfValid: Moment, asOfIngest: Moment,
                               rootHash: string, entities: seq<EntityVersion>, caption: Option<string>)

  /** An entity in the stored state of a snapshot; the state itself is keyed by joined keys. */
  datatype StoredEntity = StoredEntity(payload: Payload, edges: map<string, set<string>>, deleted: bool,
                                       versionHash: string)

  type FullState = map<string, StoredEntity>

  function JoinKey(k: Key): string {
    k.app + "/" + k.entityType + "/" + k.entityId
  }

  /** The id of a snapshot: where it was taken, at millisecond resolution, and its root. */
  function SnapshotId(h: Digest, app: Option<string>, T: Moment, tau: Moment, root: string): string {
    "snap_" + h(IdText(app, IsoOf(T), IsoOf(tau), root))
  }

  function VersionHash(h: Digest, k: Key, s: State): string {
    h(VersionText(k, s.payload, s.edges, s.deleted))
  }

  /** The hashes are sorted first, so the root does not depend on their order. */
  function RootHash(h: Digest, hashes: seq<string>): string {
    if hashes == [] then h(EmptyText) else h(RootText(Sort(hashes, TextLe)))
  }

  // ---------------------------------------------------------------- the order of entities

  predicate KeyLe(a: Key, b: Key) {
    TextLt(a.app, b.app) || (a.app == b.app &&
      (TextLt(a.entityType, b.entityType) || (a.entityType == b.entityType && TextLe(a.entityId, b.entityId))))
  }

  lemma KeyLeIsTotalOrder()
    ensures TotalPreorder(KeyLe)
    ensures forall a, b :: KeyLe(a, b) && KeyLe(b, a) ==> a == b
  {
    TextLeIsTotalOrder();
  }

  /** The version record of one entity of a state. */
  ghost predicate IsVersion(e: EntityVersion, h: Digest, states: map<Key, State>) {
    && e.key in states
    && e.versionHash == VersionHash(h, e.key, states[e.key]) && e.deleted == states[e.key].deleted
  }

  /** The entities of a state, each once, in key order. */
  ghost predicate Versions(es: seq<EntityVersion>, h: Digest, states: map<Key, State>) {
    && (forall i :: 0 <= i < |es| ==> IsVersion(es[i], h, states))
    && (forall i, j :: 0 <= i < j < |es| ==> es[i].key != es[j].key && KeyLe(es[i].key, es[j].key))
    && (forall k :: k in states ==> exists i :: 0 <= i < |es| && es[i].key == k)
  }

  function HashesOf(es: seq<EntityVersion>): seq<string> {
    seq(|es|, i requires 0 <= i < |es| => es[i].versionHash)
  }

  // ---------------------------------------------------------------- equal roots

  /** Two states agree on what a snapshot covers of one entity. */
  ghost predicate AgreeAt(s: map<Key, State>, t: map<Key, State>, k: Key) {
    && (k in s <==> k in t)
    && (k in s ==> s[k].payload == t[k].payload && s[k].edges == t[k].edges && s[k].deleted == t[k].deleted)
  }

  /** Two states agree on keys, payloads, edges and tombstones. */
  ghost predicate SameContent(s: map<Key, State>, t: map<Key, State>) {
    forall k :: AgreeAt(s, t, k)
  }

  lemma SameContentSameVersions(h: Digest, a: seq<EntityVersion>, s: map<Key, State>, t: map<Key, State>)
    requires Versions(a, h, s) && SameContent(s, t)
    ensures Versions(a, h, t)
  {
    hide KeyLe, IsVersion, AgreeAt;
    forall e: EntityVersion ensures IsVersion(e, h, s) == IsVersion(e, h, t) {
      SameVersionAt(h, s, t, e);
    }
    forall k ensures k in s <==> k in t {
      assert AgreeAt(s, t, k);
      AgreeingKeys(s, t, k);
    }
  }

  lemma AgreeingKeys(s: map<Key, State>, t: map<Key, State>, k: Key)
    requires AgreeAt(s, t, k)
    ensures k in s <==> k in t
  {
  }

  lemma SameVersionAt(h: Digest, s: map<Key, State>, t: map<Key, State>, e: EntityVersion)
    requires AgreeAt(s, t, e.key)
    ensures IsVersion(e, h, s) == IsVersion(e, h, t)
  {
  }

  /** The entity list of a state is unique. */
  lemma VersionsAreUnique(h: Digest, a: seq<EntityVersion>, b: seq<EntityVersion>, s: map<Key, State>)
    requires Versions(a, h, s) && Versions(b, h, s)
    ensures a == b
  {
    KeyLeIsTotalOrder();
    var le := (x: EntityVersion, y: EntityVersion) => KeyLe(x.key, y.key);
    hide KeyLe;
    VersionMembers(h, a, s);
    VersionMembers(h, b, s);
    SortedListIsUnique(a, b, le);
  }

  lemma VersionMembers(h: Digest, es: seq<EntityVersion>, s: map<Key, State>)
    requires Versions(es, h, s)
    ensures forall e :: e in es <==> IsVersion(e, h, s)
    ensures NoDuplicates(es)
  {
    hide KeyLe;
    forall e: EntityVersion | IsVersion(e, h, s) ensures e in es {
      var i :| 0 <= i < |es| && es[i].key == e.key;
    }
  }

  /** A version hash found in another snapshot is that of the same entity with the same content. */
  lemma HashListsDecide(h: Digest, a: seq<EntityVersion>, b: seq<EntityVersion>, s: map<Key, State>, t: map<Key, State>,
                        k: Key)
    requires Injective(h) && Versions(a, h, s) && Versions(b, h, t)
    requires forall x :: x in HashesOf(a) ==> x in HashesOf(b)
    requires k in s
    ensures k in t && AgreeAt(s, t, k)
  {
    hide KeyLe, Injective;
    var i :| 0 <= i < |a| && a[i].key == k;
    assert HashesOf(a)[i] in HashesOf(a);
    var j :| 0 <= j < |b| && HashesOf(b)[j] == HashesOf(a)[i];
    assert IsVersion(a[i], h, s) && IsVersion(b[j], h, t);
    EqualHashes(h, a[i], b[j], s, t);
  }

  lemma EqualHashes(h: Digest, x: EntityVersion, y: EntityVersion, s: map<Key, State>, t: map<Key, State>)
    requires Injective(h) && IsVersion(x, h, s) && IsVersion(y, h, t) && x.versionHash == y.versionHash
    ensures x.key == y.key && AgreeAt(s, t, x.key)
  {
    var u, v := s[x.key], t[y.key];
    var m, n := VersionText(x.key, u.payload, u.edges, u.deleted), VersionText(y.key, v.payload, v.edges, v.deleted);
    assert h(m) == h(n);
  }

  lemma EqualRootsSameHashes(h: Digest, x: seq<string>, y: seq<string>)
    requires Injective(h) && RootHash(h, x) == RootHash(h, y)
    ensures forall v :: v in x <==> v in y
  {
    TextLeIsTotalOrder();
    SortFacts(x, TextLe);
    SortFacts(y, TextLe);
    if x != [] && y != [] {
      assert RootText(Sort(x, TextLe)) == RootText(Sort(y, TextLe));
    }
  }

  lemma EqualRootsSameContent(h: Digest, a: seq<EntityVersion>, b: seq<EntityVersion>, s: map<Key, State>,
                              t: map<Key, State>)
    requires Injective(h) && Versions(a, h, s) && Versions(b, h, t)
    requires RootHash(h, HashesOf(a)) == RootHash(h, HashesOf(b))
    ensures SameContent(s, t)
  {
    hide Versions, RootHash, Injective, HashesOf;
    EqualRootsSameHashes(h, HashesOf(a), HashesOf(b));
    forall k ensures AgreeAt(s, t, k) {
      if k in s { HashListsDecide(h, a, b, s, t, k); }
      if k in t { HashListsDecide(h, b, a, t, s, k); }
    }
  }

  /** With a collision-free hash, two snapshots have the same root exactly when their states
      agree on keys, payloads, edges and tombstones. */
  lemma RootsAgreeIff(h: Digest, a: seq<EntityVersion>, b: seq<EntityVersion>, s: map<Key, State>, t: map<Key, State>)
    requires Injective(h) && Versions(a, h, s) && Versions(b, h, t)
    ensures RootHash(h, HashesOf(a)) == RootHash(h, HashesOf(b)) <==> SameContent(s, t)
  {
    hide Versions, RootHash, Injective, HashesOf, SameContent;
    if SameContent(s, t) {
      SameContentSameVersions(h, a, s, t);
      VersionsAreUnique(h, a, b, t);
    }
    if RootHash(h, HashesOf(a)) == RootHash(h, HashesOf(b)) {
      EqualRootsSameContent(h, a, b, s, t);
    }
  }

  // ---------------------------------------------------------------- the stored state

  function Stored(s: State, hash: string): StoredEntity {
    StoredEntity(s.payload, s.edges, s.deleted, hash)
  }

  /** The stored state of a list of entities: of two that share a joined key, the later stays. */
  ghost function StateOf(es: seq<EntityVersion>, states: map<Key, State>): FullState
    requires forall i :: 0 <= i < |es| ==> es[i].key in states
  {
    if es == [] then map[] else
      var e := es[|es| - 1];
      StateOf(es[..|es| - 1], states)[JoinKey(e.key) := Stored(states[e.key], e.versionHash)]
  }

  lemma EmptyState(states: map<Key, State>)
    ensures StateOf([], states) == map[]
  {
  }

  /** One more entity, with its version record as the loop computes it. */
  lemma OneMoreEntity(h: Digest, es: seq<EntityVersion>, e: EntityVersion, states: map<Key, State>)
    requires (forall i :: 0 <= i < |es| ==> es[i].key in states) && e.key in states
    requires e.versionHash == VersionHash(h, e.key, states[e.key]) && e.deleted == states[e.key].deleted
    ensures IsVersion(e, h, states)
    ensures StateOf(es + [e], states) == StateOf(es, states)[JoinKey(e.key) := Stored(states[e.key], e.versionHash)]
  {
    hide JoinKey;
    assert (es + [e])[..|es|] == es;
  }

  lemma {:induction false} StateOfSameContent(es: seq<EntityVersion>, s: map<Key, State>, t: map<Key, State>)
    requires SameContent(s, t) && forall i :: 0 <= i < |es| ==> es[i].key in s && es[i].key in t
    ensures StateOf(es, s) == StateOf(es, t)
  {
    hide JoinKey;
    if es != [] {
      StateOfSameContent(es[..|es| - 1], s, t);
      assert AgreeAt(s, t, es[|es| - 1].key);
    }
  }

  lemma VersionKeysAreIn(h: Digest, es: seq<EntityVersion>, states: map<Key, State>)
    requires Versions(es, h, states)
    ensures forall i :: 0 <= i < |es| ==> es[i].key in states
  {
    hide KeyLe;
  }

  /** Snapshots of one id store one state: taking it again can only store the same again. */
  lemma SameIdSameState(h: Digest, a: seq<EntityVersion>, b: seq<EntityVersion>, s: map<Key, State>, t: map<Key, State>,
                        app: Option<string>, app': Option<string>, T: Moment, T': Moment, tau: Moment, tau': Moment)
    requires Injective(h) && Versions(a, h, s) && Versions(b, h, t)
    requires SnapshotId(h, app, T, tau, RootHash(h, HashesOf(a)))
      == SnapshotId(h, app', T', tau', RootHash(h, HashesOf(b)))
    ensures app == app' && IsoOf(T) == IsoOf(T') && IsoOf(tau) == IsoOf(tau')
    ensures a == b && (forall i :: 0 <= i < |a| ==> a[i].key in s && a[i].key in t) && StateOf(a, s) == StateOf(b, t)
  {
    hide Versions, RootHash, HashesOf, IsoOf, SameContent, StateOf, Injective;
    EqualIds(h, IdText(app, IsoOf(T), IsoOf(tau), RootHash(h, HashesOf(a))),
             IdText(app', IsoOf(T'), IsoOf(tau'), RootHash(h, HashesOf(b))));
    RootsAgreeIff(h, a, b, s, t);
    SameContentSameVersions(h, a, s, t);
    VersionsAreUnique(h, a, b, t);
    VersionKeysAreIn(h, a, s);
    VersionKeysAreIn(h, a, t);
    StateOfSameContent(a, s, t);
  }

  lemma EqualIds(h: Digest, x: Text, y: Text)
    requires Injective(h) && "snap_" + h(x) == "snap_" + h(y)
    ensures x == y
  {
    assert ("snap_" + h(x))[5..] == h(x) && ("snap_" + h(y))[5..] == h(y);
  }

  // ---------------------------------------------------------------- blobs

  function StateIn(blobs: map<string, Text>, hash: Option<string>): Option<FullState> {
    if hash.None? || hash.value == "" then Some(map[])
    else if hash.value in blobs && blobs[hash.value].StateText? then Some(blobs[hash.value].state) else None
  }

  function ManifestIn(blobs: map<string, Text>, hash: string): Option<Manifest> {
    if hash in blobs && blobs[hash].ManifestText? then Some(blobs[hash].manifest) else None
  }

  ghost predicate Grows(before: map<string, Text>, after: map<string, Text>) {
    forall k :: k in before ==> k in after && after[k] == before[k]
  }

  lemma StateKept(before: map<string, Text>, after: map<string, Text>, hash: Option<string>)
    requires Grows(before, after)
    ensures StateIn(before, hash).Some? ==> StateIn(after, hash) == StateIn(before, hash)
  {
  }

  lemma ManifestKept(before: map<string, Text>, after: map<string, Text>, hash: string)
    requires Grows(before, after)
    ensures ManifestIn(before, hash).Some? ==> ManifestIn(after, hash) == ManifestIn(before, hash)
  {
  }

  lemma StateFound(blobs: map<string, Text>, hash: string, full: FullState)
    requires hash != "" && hash in blobs && blobs[hash] == StateText(full)
    ensures StateIn(blobs, Some(hash)) == Some(full)
  {
  }

  lemma ManifestFound(blobs: map<string, Text>, hash: string, m: Manifest)
    requires hash in blobs && blobs[hash] == ManifestText(m)
    ensures ManifestIn(blobs, hash) == Some(m)
  {
  }

  // ---------------------------------------------------------------- taking a snapshot

  class SnapshotMaterializer {
    const events: EventStore
    const h: Digest
    /** The blob store, by content hash; and the manifest's hash by snapshot id. */
    var blobs: map<string, Text>
    var manifests: map<string, string>

    constructor (events: EventStore, h: Digest)
      ensures this.events == events && this.h == h && Valid()
    {
      this.events, this.h, blobs, manifests := events, h, map[], map[];
    }

    /** Every blob is stored under its own hash. */
    ghost predicate Valid()
      reads this
    {
      forall k :: k in blobs ==> k == h(blobs[k])
    }

    method SortedKeys(states: map<Key, EntityState>) returns (keys: seq<Key>)
      ensures Sorted(keys, KeyLe) && NoDuplicates(keys) && forall k :: k in keys <==> k in states
    {
      hide KeyLe;
      var left := states.Keys;
      keys := [];
      while left != {}
        invariant left <= states.Keys && NoDuplicates(keys)
        invariant forall k :: k in keys <==> k in states && k !in left
        decreases left
      {
        var k :| k in left;
        left := left - {k};
        keys := keys + [k];
      }
      KeyLeIsTotalOrder();
      SortFacts(keys, KeyLe);
      keys := Sort(keys, KeyLe);
    }

    /** The entity list and the stored state at (T, tau), tombstones included. */
    method Collect(app: Option<string>, T: Moment, tau: Moment) returns (entities: seq<EntityVersion>, full: FullState)
      ensures var at := StatesAt(events.rows, app, Some(T), Some(tau));
              && Versions(entities, h, at) && (forall i :: 0 <= i < |entities| ==> entities[i].key in at)
              && full == StateOf(entities, at)
    {
      hide StatesAt, KeyLe, Versions, JoinKey, StateOf, IsVersion;
      ghost var at := StatesAt(events.rows, app, Some(T), Some(tau));
      var states := events.Materialize(app, Some(T), Some(tau), true);
      var keys := SortedKeys(states);
      entities, full := [], map[];
      EmptyState(at);
      for i := 0 to |keys|
        invariant |entities| == i
        invariant forall j :: 0 <= j < i ==> entities[j].key == keys[j] && IsVersion(entities[j], h, at)
        invariant forall j :: 0 <= j < i ==> entities[j].key in at
        invariant forall k :: k in states ==> k in at && states[k].View() == at[k]
        invariant full == StateOf(entities, at)
      {
        assert keys[i] in keys && keys[i] in states;
        var state := states[keys[i]];
        var vh := h(VersionText(keys[i], state.payload, state.edges, state.deleted));
        var e := EntityVersion(keys[i], vh, state.deleted);
        OneMoreEntity(h, entities, e, at);
        entities := entities + [e];
        full := full[JoinKey(e.key) := StoredEntity(state.payload, state.edges, state.deleted, vh)];
      }
      ListedKeysAreVersions(h, keys, entities, at);
    }

    /** What loading a snapshot's state gives: nothing stored reads as the empty state, and None is the
        error of a blob that is not there. */
    ghost function StateAt(id: string): Option<FullState>
      reads this, events
    {
      StateIn(blobs, events.CursorAt("_snapshot_state", id))
    }

    ghost function ManifestAt(id: string): Option<Manifest>
      reads this
    {
      if id in manifests then ManifestIn(blobs, manifests[id]) else None
    }

    method LoadState(id: string) returns (state: Option<FullState>)
      ensures state == StateAt(id)
    {
      var hash := events.GetCursor("_snapshot_state", id);
      state := StateIn(blobs, hash);
    }

    method GetManifest(id: string) returns (m: Option<Manifest>)
      ensures m == ManifestAt(id)
    {
      m := if id in manifests then ManifestIn(blobs, manifests[id]) else None;
    }

    /** A new blob never takes the place of another. */
    method Put(text: Text) returns (hash: string)
      requires Valid() && Injective(h)
      modifies this`blobs
      ensures Valid() && hash == h(text) && hash in blobs && blobs[hash] == text
      ensures Grows(old(blobs), blobs)
    {
      hash := h(text);
      blobs := blobs[hash := text];
    }

    /** Storing a snapshot makes it loadable, and leaves every other one as it was. */
    method Persist(m: Manifest, full: FullState)
      requires Valid() && Injective(h) && h(StateText(full)) != ""
      modifies this`blobs, this`manifests, events`cursors
      ensures Valid() && StateAt(m.snapshotId) == Some(full) && ManifestAt(m.snapshotId) == Some(m)
      ensures forall id :: id != m.snapshotId && old(StateAt(id)).Some? ==> StateAt(id) == old(StateAt(id))
      ensures forall id :: id != m.snapshotId && old(ManifestAt(id)).Some? ==> ManifestAt(id) == old(ManifestAt(id))
    {
      hide StateIn, ManifestIn, Injective;
      ghost var before := blobs;
      var stateHash := Put(StateText(full));
      var manifestHash := Put(ManifestText(m));
      forall hash { StateKept(before, blobs, hash); }
      forall hash { ManifestKept(before, blobs, hash); }
      StateFound(blobs, stateHash, full);
      ManifestFound(blobs, manifestHash, m);
      manifests := manifests[m.snapshotId := manifestHash];
      events.SetCursor("_snapshot_state", m.snapshotId, Some(stateHash));
    }

    /** The state at (T, tau), tombstones included, as a manifest; T and tau are the present where they are
        not given. What is persisted can be loaded again. */
    method Materialize(app: Option<string>, asOfValid: Option<Moment>, asOfIngest: Option<Moment>,
                       caption: Option<string>, persist: bool, now: Moment, now': Moment)
      returns (m: Manifest, ghost full: FullState)
      requires Valid() && (persist ==> Injective(h) && forall x :: h(x) != "")
      modifies this`blobs, this`manifests, events`cursors
      ensures var T := if asOfValid.Some? then asOfValid.value else now;
              var tau := if asOfIngest.Some? then asOfIngest.value else now';
              var at := StatesAt(events.rows, app, Some(T), Some(tau));
              var root := RootHash(h, HashesOf(m.entities));
              && m == Manifest(SnapshotId(h, app, T, tau, root), app, T, tau, root, m.entities, caption)
              && Versions(m.entities, h, at) && (forall i :: 0 <= i < |m.entities| ==> m.entities[i].key in at)
              && full == StateOf(m.entities, at)
      ensures Valid()
      ensures persist ==> StateAt(m.snapshotId) == Some(full) && ManifestAt(m.snapshotId) == Some(m)
      ensures persist ==> forall id :: id != m.snapshotId && old(StateAt(id)).Some? ==> StateAt(id) == old(StateAt(id))
      ensures persist ==> forall id :: id != m.snapshotId && old(ManifestAt(id)).Some? ==>
        ManifestAt(id) == old(ManifestAt(id))
      ensures !persist ==> blobs == old(blobs) && manifests == old(manifests) && events.cursors == old(events.cursors)
    {
      hide StatesAt, Versions, HashesOf, RootHash, SnapshotId, StateOf;
      var T := if asOfValid.Some? then asOfValid.value else now;
      var tau := if asOfIngest.Some? then asOfIngest.value else now';
      var entities, state := Collect(app, T, tau);
      full := state;
      var root := RootHash(h, HashesOf(entities));
      m := Manifest(SnapshotId(h, app, T, tau, root), app, T, tau, root, entities, caption);
      if persist {
        Persist(m, state);
      }
    }
  }

  lemma ListedKeysAreVersions(h: Digest, keys: seq<Key>, es: seq<EntityVersion>, at: map<Key, State>)
    requires Sorted(keys, KeyLe) && NoDuplicates(keys) && forall k :: k in keys <==> k in at
    requires |es| == |keys| && forall j :: 0 <= j < |es| ==> es[j].key == keys[j] && IsVersion(es[j], h, at)
    ensures Versions(es, h, at)
  {
    hide KeyLe, IsVersion;
    forall k | k in at ensures exists i :: 0 <= i < |es| && es[i].key == k {
      assert k in keys;
      var i :| 0 <= i < |keys| && keys[i] == k;
      assert es[i].key == k;
    }
    forall i, j | 0 <= i < j < |es| ensures es[i].key != es[j].key && KeyLe(es[i].key, es[j].key) {
      assert keys[i] != keys[j] && KeyLe(keys[i], keys[j]);
    }
  }

  /** A snapshot taken again at (T, tau), after any later events have arrived, is the same snapshot. */
  lemma SnapshotsDoNotLeak(h: Digest, rows: seq<Row>, es: seq<AppEvent>, app: Option<string>, T: Moment, tau: Moment,
                           a: seq<EntityVersion>, b: seq<EntityVersion>)
    requires AllLater(es, T, tau)
    requires Versions(a, h, StatesAt(rows, app, Some(T), Some(tau)))
    requires Versions(b, h, StatesAt(AppendedAll(rows, es), app, Some(T), Some(tau)))
    ensures a == b && RootHash(h, HashesOf(a)) == RootHash(h, HashesOf(b))
  {
    hide StatesAt, Versions;
    NoLeakage(rows, es, app, T, tau);
    VersionsAreUnique(h, a, b, StatesAt(rows, app, Some(T), Some(tau)));
  }

  /** The entities of a snapshot come by application, then type, then id. */
  lemma EntitiesAreOrdered(h: Digest, es: seq<EntityVersion>, states: map<Key, State>, i: nat, j: nat)
    requires Versions(es, h, states) && i < j < |es|
    ensures var k, l := es[i].key, es[j].key;
            || TextLt(k.app, l.app)
            || (k.app == l.app && TextLt(k.entityType, l.entityType))
            || (k.app == l.app && k.entityType == l.entityType && TextLt(k.entityId, l.entityId))
  {
    hide TextLe;
    assert KeyLe(es[i].key, es[j].key) && es[i].key != es[j].key;
  }

  /** The root of some hashes does not depend on their order. */
  lemma RootIgnoresOrder(h: Digest, x: seq<string>, y: seq<string>)
    requires multiset(x) == multiset(y)
    ensures RootHash(h, x) == RootHash(h, y)
  {
    TextLeIsTotalOrder();
    SortOfPermutation(x, y, TextLe);
    MultisetSize(x, y);
  }
}

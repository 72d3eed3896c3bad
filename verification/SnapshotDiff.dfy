/** Diffing two snapshots by the version hashes of their live entities. */
module SnapshotDiff {
  import opened Ordering
  import opened EventLog
  import opened Snapshots

  datatype Diff = Diff(added: seq<string>, removed: seq<string>, changed: seq<string>, unchangedCount: nat)

  predicate IsEmpty(d: Diff) {
    d.added == [] && d.removed == [] && d.changed == []
  }

  /** Live entities by joined key; a later entry of the same joined key replaces an earlier one. */
  function LiveMap(es: seq<EntityVersion>): map<string, string> {
    if es == [] then map[] else
      var m, e := LiveMap(es[..|es| - 1]), es[|es| - 1];
      if e.deleted then m else m[JoinKey(e.key) := e.versionHash]
  }

  ghost function Shared(a: map<string, string>, b: map<string, string>): set<string> {
    set k | k in a && k in b && a[k] == b[k]
  }

  ghost function Differing(a: map<string, string>, b: map<string, string>): set<string> {
    set k | k in a && k in b && a[k] != b[k]
  }

  /** The list of a set of keys in text order. */
  ghost predicate ListOf(s: seq<string>, keys: set<string>) {
    Sorted(s, TextLe) && NoDuplicates(s) && forall k :: k in s <==> k in keys
  }

  /** What a diff from `before` to `after` must report. */
  ghost predicate Reports(d: Diff, before: map<string, string>, after: map<string, string>) {
    && ListOf(d.added, after.Keys - before.Keys)
    && ListOf(d.removed, before.Keys - after.Keys)
    && ListOf(d.changed, Differing(before, after))
    && d.unchangedCount == |Shared(before, after)|
  }

  lemma ListIsUnique(a: seq<string>, b: seq<string>, keys: set<string>)
    requires ListOf(a, keys) && ListOf(b, keys)
    ensures a == b
  {
    TextLeIsTotalOrder();
    SortedListIsUnique(a, b, TextLe);
  }

  lemma ListOfEmpty(s: seq<string>, keys: set<string>)
    requires ListOf(s, keys)
    ensures s == [] <==> keys == {}
    ensures |s| == |keys| && Elements(s) == keys
  {
    DistinctCount(s);
    assert Elements(s) == keys;
  }

  // ---------------------------------------------------------------- what the report means

  /** Every live key of either side is in exactly one of the four classes. */
  lemma DiffPartitions(d: Diff, before: map<string, string>, after: map<string, string>)
    requires Reports(d, before, after)
    ensures Elements(d.added) + Elements(d.removed) + Elements(d.changed) + Shared(before, after)
      == before.Keys + after.Keys
    ensures Elements(d.added) !! Elements(d.removed) !! Elements(d.changed) !! Shared(before, after)
    ensures |d.added| + |d.removed| + |d.changed| + d.unchangedCount == |before.Keys + after.Keys|
  {
    hide Sorted, NoDuplicates, Shared, Differing;
    ListOfEmpty(d.added, after.Keys - before.Keys);
    ListOfEmpty(d.removed, before.Keys - after.Keys);
    ListOfEmpty(d.changed, Differing(before, after));
    SharedAndDiffering(before, after);
    FourClasses(before.Keys, after.Keys, Differing(before, after), Shared(before, after));
  }

  lemma FourClasses(x: set<string>, y: set<string>, z: set<string>, w: set<string>)
    requires w + z == x * y && w !! z
    ensures (y - x) + (x - y) + z + w == x + y
    ensures (y - x) !! (x - y) !! z !! w
    ensures |y - x| + |x - y| + |z| + |w| == |x + y|
  {
    DisjointSizes(y - x, x - y, z, w);
    assert (y - x) + (x - y) + z + w == x + y;
  }

  lemma SharedAndDiffering(a: map<string, string>, b: map<string, string>)
    ensures Shared(a, b) + Differing(a, b) == a.Keys * b.Keys && Shared(a, b) !! Differing(a, b)
  {
  }

  lemma DisjointSizes(x: set<string>, y: set<string>, z: set<string>, w: set<string>)
    requires x !! y !! z !! w
    ensures |x + y + z + w| == |x| + |y| + |z| + |w|
  {
    assert |x + y| == |x| + |y|;
    assert |x + y + z| == |x + y| + |z|;
  }

  /** The diff is empty exactly when the live maps agree. */
  lemma EmptyIff(d: Diff, before: map<string, string>, after: map<string, string>)
    requires Reports(d, before, after)
    ensures IsEmpty(d) <==> before == after
  {
    ListOfEmpty(d.added, after.Keys - before.Keys);
    ListOfEmpty(d.removed, before.Keys - after.Keys);
    ListOfEmpty(d.changed, Differing(before, after));
    if IsEmpty(d) {
      forall k ensures (k in before <==> k in after) && (k in before ==> before[k] == after[k]) {
        assert k !in after.Keys - before.Keys && k !in before.Keys - after.Keys && k !in Differing(before, after);
      }
    }
  }

  /** Swapping the arguments swaps added and removed, and changes nothing else. */
  lemma SwapSwaps(d: Diff, e: Diff, before: map<string, string>, after: map<string, string>)
    requires Reports(d, before, after) && Reports(e, after, before)
    ensures e == Diff(d.removed, d.added, d.changed, d.unchangedCount)
  {
    assert Differing(before, after) == Differing(after, before);
    assert Shared(before, after) == Shared(after, before);
    ListIsUnique(d.added, e.removed, after.Keys - before.Keys);
    ListIsUnique(d.removed, e.added, before.Keys - after.Keys);
    ListIsUnique(d.changed, e.changed, Differing(before, after));
  }

  /** Whenever two snapshots have equal roots, their diff is empty. */
  lemma EqualRootsEmptyDiff(h: Digest, a: seq<EntityVersion>, b: seq<EntityVersion>, s: map<Key, State>,
                            t: map<Key, State>, d: Diff)
    requires Injective(h) && Versions(a, h, s) && Versions(b, h, t)
    requires RootHash(h, HashesOf(a)) == RootHash(h, HashesOf(b))
    requires Reports(d, LiveMap(a), LiveMap(b))
    ensures IsEmpty(d)
  {
    hide Versions, RootHash, Reports;
    RootsAgreeIff(h, a, b, s, t);
    SameContentSameVersions(h, a, s, t);
    VersionsAreUnique(h, a, b, t);
    EmptyIff(d, LiveMap(a), LiveMap(b));
  }

  // ---------------------------------------------------------------- joined keys

  /** No type is another one followed by a slash and more. */
  ghost predicate NoTypeExtends(types: set<string>) {
    forall a, b :: a in types && b in types ==> !(a + "/" <= b)
  }

  /** A key of one of these types, in an application without a slash; the id may hold any. */
  ghost predicate KeyOf(types: set<string>, k: Key) {
    k.entityType in types && '/' !in k.app
  }

  lemma JoinIsInjective(types: set<string>, k: Key, l: Key)
    requires NoTypeExtends(types) && KeyOf(types, k) && KeyOf(types, l) && JoinKey(k) == JoinKey(l)
    ensures k == l
  {
    var x, y := k.entityType + "/" + k.entityId, l.entityType + "/" + l.entityId;
    assert JoinKey(k) == k.app + "/" + x && JoinKey(l) == l.app + "/" + y;
    assert "/" == ['/'];
    HeadBefore('/', k.app, l.app, x, y);
    if |k.entityType| < |l.entityType| {
      ShorterExtends(k.entityType, l.entityType, k.entityId, l.entityId);
    } else if |l.entityType| < |k.entityType| {
      ShorterExtends(l.entityType, k.entityType, l.entityId, k.entityId);
    } else {
      assert x[..|k.entityType|] == k.entityType && y[..|l.entityType|] == l.entityType;
      assert x[|k.entityType| + 1..] == k.entityId && y[|l.entityType| + 1..] == l.entityId;
    }
  }

  /** If two texts with different heads are equal, the longer head goes on where the shorter ends. */
  lemma ShorterExtends(a: string, b: string, x: string, y: string)
    requires |a| < |b| && a + "/" + x == b + "/" + y
    ensures a + "/" <= b
  {
    var s := b + "/" + y;
    assert s[..|a| + 1] == a + "/";
    assert s[..|a| + 1] == b[..|a| + 1];
  }

  /** The exact condition on the types in use: joined keys name entities, for all ids and all
      applications without a slash, if and only if no type extends another after a slash. */
  lemma JoinIsInjectiveIff(types: set<string>)
    ensures (forall k, l :: KeyOf(types, k) && KeyOf(types, l) && JoinKey(k) == JoinKey(l) ==> k == l)
      <==> NoTypeExtends(types)
  {
    hide JoinKey;
    if NoTypeExtends(types) {
      forall k, l | KeyOf(types, k) && KeyOf(types, l) && JoinKey(k) == JoinKey(l) ensures k == l {
        JoinIsInjective(types, k, l);
      }
    } else {
      var a, b :| a in types && b in types && a + "/" <= b;
      var k, l := Key("gcal", a, b[|a| + 1..] + "/" + "c"), Key("gcal", b, "c");
      ExtendingTypeCollides(a, b, "c");
      assert KeyOf(types, k) && KeyOf(types, l);
    }
  }

  lemma ExtendingTypeCollides(a: string, b: string, id: string)
    requires a + "/" <= b
    ensures JoinKey(Key("gcal", a, b[|a| + 1..] + "/" + id)) == JoinKey(Key("gcal", b, id))
  {
    var c := b[|a| + 1..];
    assert b == a + "/" + c;
    assert a + "/" + (c + "/" + id) == b + "/" + id;
    assert JoinKey(Key("gcal", a, c + "/" + id)) == "gcal" + "/" + (a + "/" + (c + "/" + id));
    assert JoinKey(Key("gcal", b, id)) == "gcal" + "/" + (b + "/" + id);
  }

  ghost predicate Live(s: map<Key, State>, k: Key) {
    k in s && !s[k].deleted
  }

  ghost predicate KeysOf(types: set<string>, s: map<Key, State>) {
    forall k :: k in s ==> KeyOf(types, k)
  }

  lemma {:induction false} LiveMapOfDistinct(types: set<string>, es: seq<EntityVersion>, k: Key)
    requires NoTypeExtends(types) && KeyOf(types, k)
    requires forall i :: 0 <= i < |es| ==> KeyOf(types, es[i].key)
    requires forall i, j :: 0 <= i < j < |es| ==> es[i].key != es[j].key
    ensures JoinKey(k) in LiveMap(es) <==> exists i :: 0 <= i < |es| && es[i].key == k && !es[i].deleted
    ensures forall i :: 0 <= i < |es| && es[i].key == k && !es[i].deleted ==>
      LiveMap(es)[JoinKey(k)] == es[i].versionHash
  {
    hide JoinKey, NoTypeExtends;
    if es != [] {
      var n := |es| - 1;
      LiveMapOfDistinct(types, es[..n], k);
      if JoinKey(es[n].key) == JoinKey(k) { JoinIsInjective(types, es[n].key, k); }
      if es[n].key == k && !es[n].deleted { assert es[n].key == k && JoinKey(k) in LiveMap(es); }
      if i :| 0 <= i < n && es[..n][i].key == k && !es[..n][i].deleted { assert es[i].key == k && !es[i].deleted; }
      if i :| 0 <= i < |es| && es[i].key == k && !es[i].deleted {
        assert i < n ==> es[..n][i].key == k;
      }
    }
  }

  /** The live map of a snapshot: the version hash of each live entity of the state. */
  lemma LiveMapOfState(types: set<string>, h: Digest, es: seq<EntityVersion>, s: map<Key, State>, k: Key)
    requires NoTypeExtends(types) && KeysOf(types, s) && KeyOf(types, k)
    requires Versions(es, h, s)
    ensures JoinKey(k) in LiveMap(es) <==> Live(s, k)
    ensures Live(s, k) ==> LiveMap(es)[JoinKey(k)] == VersionHash(h, k, s[k])
  {
    hide KeyLe, JoinKey, LiveMap, NoTypeExtends;
    LiveMapOfDistinct(types, es, k);
  }

  lemma {:induction false} StateOfDistinct(types: set<string>, es: seq<EntityVersion>, s: map<Key, State>, k: Key)
    requires NoTypeExtends(types) && KeyOf(types, k)
    requires forall i :: 0 <= i < |es| ==> es[i].key in s && KeyOf(types, es[i].key)
    requires forall i, j :: 0 <= i < j < |es| ==> es[i].key != es[j].key
    ensures JoinKey(k) in StateOf(es, s) <==> exists i :: 0 <= i < |es| && es[i].key == k
    ensures forall i :: 0 <= i < |es| && es[i].key == k ==>
      StateOf(es, s)[JoinKey(k)] == Stored(s[k], es[i].versionHash)
  {
    hide JoinKey, NoTypeExtends;
    if es != [] {
      var n := |es| - 1;
      StateOfDistinct(types, es[..n], s, k);
      if JoinKey(es[n].key) == JoinKey(k) { JoinIsInjective(types, es[n].key, k); }
      if i :| 0 <= i < n && es[..n][i].key == k { assert es[i].key == k; }
      if i :| 0 <= i < |es| && es[i].key == k { assert i < n ==> es[..n][i].key == k; }
    }
  }

  /** The stored state of a snapshot, tombstones included, loses no entity. */
  lemma StoredStateIsComplete(types: set<string>, h: Digest, es: seq<EntityVersion>, s: map<Key, State>, k: Key)
    requires NoTypeExtends(types) && KeysOf(types, s) && KeyOf(types, k)
    requires Versions(es, h, s) && forall i :: 0 <= i < |es| ==> es[i].key in s
    ensures JoinKey(k) in StateOf(es, s) <==> k in s
    ensures k in s ==>
      var x := s[k];
      var version := h(VersionText(k, x.payload, x.edges, x.deleted));
      StateOf(es, s)[JoinKey(k)] == StoredEntity(x.payload, x.edges, x.deleted, version)
  {
    hide KeyLe, JoinKey, StateOf, NoTypeExtends;
    StateOfDistinct(types, es, s, k);
  }

  /** Where no type extends another, the diff names entities: added and removed are
      those live on one side only, changed those live on both with other content. */
  lemma DiffNamesEntities(types: set<string>, h: Digest, a: seq<EntityVersion>, b: seq<EntityVersion>,
                          s: map<Key, State>, t: map<Key, State>, d: Diff, k: Key)
    requires Injective(h) && Versions(a, h, s) && Versions(b, h, t)
    requires NoTypeExtends(types) && KeysOf(types, s) && KeysOf(types, t) && KeyOf(types, k)
    requires Reports(d, LiveMap(a), LiveMap(b))
    ensures JoinKey(k) in d.added <==> Live(t, k) && !Live(s, k)
    ensures JoinKey(k) in d.removed <==> Live(s, k) && !Live(t, k)
    ensures JoinKey(k) in d.changed <==>
      Live(s, k) && Live(t, k) && (s[k].payload != t[k].payload || s[k].edges != t[k].edges)
  {
    hide Versions, JoinKey, LiveMap, KeysOf, NoTypeExtends;
    LiveMapOfState(types, h, a, s, k);
    LiveMapOfState(types, h, b, t, k);
    if Live(s, k) && Live(t, k) {
      var x := VersionText(k, s[k].payload, s[k].edges, s[k].deleted);
      var y := VersionText(k, t[k].payload, t[k].edges, t[k].deleted);
      assert h(x) == h(y) <==> x == y;
    }
  }

  // ---------------------------------------------------------------- the diff as a program

  lemma OneMore(s: seq<string>, x: string)
    requires NoDuplicates(s) && x !in Elements(s)
    ensures NoDuplicates(s + [x]) && Elements(s + [x]) == Elements(s) + {x}
  {
  }

  /** The lists so far, when the keys in `left` are still to be looked at. */
  ghost predicate Classified(added: seq<string>, changed: seq<string>, same: set<string>,
                             bmap: map<string, string>, amap: map<string, string>, left: set<string>) {
    && NoDuplicates(added) && Elements(added) == amap.Keys - left - bmap.Keys
    && NoDuplicates(changed) && Elements(changed) == Differing(bmap, amap) - left
    && same == Shared(bmap, amap) - left
  }

  lemma ClassifyNext(added: seq<string>, changed: seq<string>, same: set<string>,
                     bmap: map<string, string>, amap: map<string, string>, left: set<string>, key: string)
    requires Classified(added, changed, same, bmap, amap, left) && key in left && left <= amap.Keys
    ensures key !in bmap ==> Classified(added + [key], changed, same, bmap, amap, left - {key})
    ensures key in bmap && bmap[key] != amap[key] ==> Classified(added, changed + [key], same, bmap, amap, left - {key})
    ensures key in bmap && bmap[key] == amap[key] ==>
      Classified(added, changed, same + {key}, bmap, amap, left - {key}) && key !in same
  {
    hide Differing, Shared;
    NextKey(bmap, amap, left, key);
    if key !in bmap {
      OneMore(added, key);
    } else if bmap[key] != amap[key] {
      OneMore(changed, key);
    }
  }

  /** The first loop: each live entity after is new, changed or the same. */
  method Compare(bmap: map<string, string>, amap: map<string, string>)
    returns (added: seq<string>, changed: seq<string>, unchangedCount: nat)
    ensures NoDuplicates(added) && Elements(added) == amap.Keys - bmap.Keys
    ensures NoDuplicates(changed) && Elements(changed) == Differing(bmap, amap)
    ensures unchangedCount == |Shared(bmap, amap)|
  {
    hide Classified;
    var left := amap.Keys;
    ghost var same: set<string> := {};
    added, changed, unchangedCount := [], [], 0;
    AllLeft(bmap, amap);
    while left != {}
      invariant left <= amap.Keys
      invariant Classified(added, changed, same, bmap, amap, left) && unchangedCount == |same|
      decreases left
    {
      var key :| key in left;
      ClassifyNext(added, changed, same, bmap, amap, left, key);
      left := left - {key};
      if key !in bmap {
        added := added + [key];
      } else if bmap[key] != amap[key] {
        changed := changed + [key];
      } else {
        same := same + {key};
        unchangedCount := unchangedCount + 1;
      }
    }
    NoneLeft(added, changed, same, bmap, amap);
  }

  lemma NoneLeft(added: seq<string>, changed: seq<string>, same: set<string>, bmap: map<string, string>,
                 amap: map<string, string>)
    requires Classified(added, changed, same, bmap, amap, {})
    ensures NoDuplicates(added) && Elements(added) == amap.Keys - bmap.Keys
    ensures NoDuplicates(changed) && Elements(changed) == Differing(bmap, amap) && same == Shared(bmap, amap)
  {
  }

  lemma AllLeft(bmap: map<string, string>, amap: map<string, string>)
    ensures Classified([], [], {}, bmap, amap, amap.Keys)
  {
  }

  /** What one more key of the new map adds to each class. */
  lemma NextKey(bmap: map<string, string>, amap: map<string, string>, left: set<string>, key: string)
    requires key in left && left <= amap.Keys
    ensures var rest := left - {key};
            && amap.Keys - rest - bmap.Keys == amap.Keys - left - bmap.Keys + (if key in bmap then {} else {key})
            && Differing(bmap, amap) - rest
              == Differing(bmap, amap) - left + (if key in bmap && bmap[key] != amap[key] then {key} else {})
            && Shared(bmap, amap) - rest
              == Shared(bmap, amap) - left + (if key in bmap && bmap[key] == amap[key] then {key} else {})
  {
  }

  method Missing(bmap: map<string, string>, amap: map<string, string>) returns (removed: seq<string>)
    ensures NoDuplicates(removed) && forall k :: k in removed <==> k in bmap.Keys - amap.Keys
  {
    var left := bmap.Keys;
    removed := [];
    while left != {}
      invariant left <= bmap.Keys
      invariant NoDuplicates(removed) && forall k :: k in removed <==> k in bmap.Keys - left && k !in amap
      decreases left
    {
      var key :| key in left;
      left := left - {key};
      if key !in amap {
        removed := removed + [key];
      }
    }
  }

  method DiffSnapshots(before: Manifest, after: Manifest) returns (d: Diff)
    ensures Reports(d, LiveMap(before.entities), LiveMap(after.entities))
  {
    hide LiveMap, TextLe;
    var bmap, amap := LiveMap(before.entities), LiveMap(after.entities);
    var added, changed, unchangedCount := Compare(bmap, amap);
    var removed := Missing(bmap, amap);
    TextLeIsTotalOrder();
    assert forall k :: k in added <==> k in Elements(added);
    assert forall k :: k in changed <==> k in Elements(changed);
    SortFacts(added, TextLe);
    SortFacts(removed, TextLe);
    SortFacts(changed, TextLe);
    d := Diff(Sort(added, TextLe), Sort(removed, TextLe), Sort(changed, TextLe), unchangedCount);
  }
}

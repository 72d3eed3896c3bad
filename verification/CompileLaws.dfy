/** What a compile stores for a candidate, in terms of the candidate's own fields. */
module CompileLaws {
  import opened Ordering
  import opened Wrappers
  import opened Memory
  import opened ResolverRuns
  import opened Compiler

  // ---------------------------------------------------------------- corroboration

  /** The two candidates claim the same of the same. */
  ghost predicate SameClaim(lib: Library, c: Candidate, d: Candidate) {
    c.kind == d.kind && c.namespace == d.namespace && lib.normalize(c.text) == lib.normalize(d.text)
  }

  /** How many of the candidates claim what c claims, c itself included. */
  ghost function Backers(lib: Library, cands: seq<Candidate>, c: Candidate): seq<Candidate> {
    Filter(cands, (d: Candidate) => SameClaim(lib, d, c))
  }

  /** Neither the kind nor the namespace holds the separator of a claim key. */
  ghost predicate BarFree(c: Candidate) {
    '|' !in c.kind && '|' !in c.namespace
  }

  lemma KeyIsClaim(lib: Library, c: Candidate, d: Candidate)
    requires BarFree(c) && BarFree(d)
    ensures ClaimKey(lib, c) == ClaimKey(lib, d) <==> SameClaim(lib, c, d)
  {
    var x, y := c.namespace + "|" + lib.normalize(c.text), d.namespace + "|" + lib.normalize(d.text);
    assert ClaimKey(lib, c) == c.kind + "|" + x && ClaimKey(lib, d) == d.kind + "|" + y;
    if ClaimKey(lib, c) == ClaimKey(lib, d) {
      assert "|" == ['|'];
      HeadBefore('|', c.kind, d.kind, x, y);
      HeadBefore('|', c.namespace, d.namespace, lib.normalize(c.text), lib.normalize(d.text));
    }
  }

  /** A claim is corroborated by the candidates that claim the same. */
  lemma {:induction false} OccurrencesAreBackers(lib: Library, cands: seq<Candidate>, c: Candidate)
    requires BarFree(c) && forall d :: d in cands ==> BarFree(d)
    ensures Occurrences(lib, cands, ClaimKey(lib, c)) == |Backers(lib, cands, c)|
  {
    hide ClaimKey, SameClaim;
    if cands != [] {
      var n := |cands| - 1;
      var front, last := cands[..n], cands[n];
      OccurrencesAreBackers(lib, front, c);
      KeyIsClaim(lib, last, c);
      assert cands == front + [last];
      OneMoreBacker(lib, front, last, c);
    }
  }

  lemma OneMoreBacker(lib: Library, front: seq<Candidate>, last: Candidate, c: Candidate)
    ensures |Backers(lib, front + [last], c)| == |Backers(lib, front, c)| + (if SameClaim(lib, last, c) then 1 else 0)
  {
    hide SameClaim;
    FilterSplits(front, [last], (d: Candidate) => SameClaim(lib, d, c));
    assert |Backers(lib, [last], c)| == if SameClaim(lib, last, c) then 1 else 0;
  }

  /** The confidence of a candidate is its score with one corroborating source for each other candidate
      that claims the same. */
  lemma ConfidenceIsCorroborated(lib: Library, cands: seq<Candidate>, c: Candidate)
    requires c in cands && forall d :: d in cands ==> BarFree(d)
    ensures |Backers(lib, cands, c)| >= 1
    ensures Confidence(lib, cands, c) == lib.score(c, |Backers(lib, cands, c)| - 1)
  {
    hide ClaimKey, Backers;
    OccurrencesAreBackers(lib, cands, c);
    PresentKeyOccurs(lib, cands, c);
  }

  // ---------------------------------------------------------------- what is stored

  /** Which namespace, scope and default subject a candidate's namespace text stands for. */
  ghost predicate StoredUnder(text: string, x: MemoryItem) {
    || (text == "user" && x.namespace == User && x.acl == "personal")
    || (text == "team" && x.namespace == Team && x.acl == "team")
    || (text == "project" && x.namespace == Project && x.acl == "project")
    || (text == "app_state" && x.namespace == AppState && x.acl == "team")
  }

  /** The subject a candidate names, or the one its namespace has by default. */
  ghost predicate AboutSubject(c: Candidate, subject: string) {
    if c.subject.Some? && c.subject.value != "" then subject == c.subject.value
    else
      || (c.namespace == "user" && subject == "user")
      || (c.namespace == "team" && subject == "team-norms")
      || (c.namespace == "project" && c.entityType.Some? && subject == c.entityType.value)
      || (c.namespace == "project" && c.entityType.None? && subject == "project")
      || (c.namespace == "app_state" && subject == "general")
  }

  /** An item made of this candidate. */
  ghost predicate Represents(lib: Library, x: MemoryItem, c: Candidate) {
    && (c.kind == "episodic" || c.kind == "semantic" || c.kind == "procedural")
    && StoredUnder(c.namespace, x)
    && x.subject.Some? && AboutSubject(c, x.subject.value)
    && x.claim == lib.read(c.text)
    && x.memoryId == lib.memoryId(DedupeKey(c.kind, c.namespace, lib.normalize(x.subject.value), lib.normalize(c.text)))
  }

  lemma ItemRepresents(lib: Library, c: Candidate, confidence: real, now: int)
    ensures var item := ToItem(lib, c, confidence, now);
            && (item.Some? ==> Represents(lib, item.value, c) && item.value.confidence == confidence
                               && item.value.createdAt == now)
            && (item.None? <==> !((c.kind == "episodic" || c.kind == "semantic" || c.kind == "procedural")
                                  && (c.namespace == "user" || c.namespace == "team" || c.namespace == "project"
                                      || c.namespace == "app_state")))
  {
  }

  /** The first n candidates made this item new at the clock's reading. */
  ghost predicate MadeBy(lib: Library, cands: seq<Candidate>, n: nat, clock: nat -> int, x: MemoryItem, i: nat)
    requires n <= |cands|
  {
    && i < n && Represents(lib, x, cands[i]) && x.createdAt == clock(i)
    && x.confidence == Confidence(lib, cands, cands[i]) >= 0.42
  }

  /** Every item the loop adds represents one of the candidates, with a confidence of at least 0.42, and is
      active; every other item was there before. */
  lemma {:induction false} AddedItemsRepresent(lib: Library, cands: seq<Candidate>, n: nat, clock: nat -> int,
                                               t: Tables, id: string)
    requires n <= |cands|
    ensures var u := Promote(lib, cands, n, clock, t).tables;
            id in u.items ==>
              || (id in t.items && u.items[id] == t.items[id])
              || (id !in t.items && id in u.active && u.active[id]
                  && exists i: nat :: MadeBy(lib, cands, n, clock, u.items[id], i))
  {
    hide ToItem, Confidence, Represents;
    if n > 0 {
      AddedItemsRepresent(lib, cands, n - 1, clock, t, id);
      NothingPromoted(lib, cands, clock, t);
      PromoteGrows(lib, cands, 0, n - 1, clock, t);
      var p := Promote(lib, cands, n - 1, clock, t);
      var u := Promote(lib, cands, n, clock, t).tables;
      var c := cands[n - 1];
      var conf := Confidence(lib, cands, c);
      ItemRepresents(lib, c, conf, clock(n - 1));
      if id in u.items && id !in p.tables.items {
        assert MadeBy(lib, cands, n, clock, u.items[id], n - 1);
      } else if id in u.items && id !in t.items {
        var i: nat :| MadeBy(lib, cands, n - 1, clock, p.tables.items[id], i);
        assert MadeBy(lib, cands, n, clock, u.items[id], i);
      }
    }
  }

  /** The loop raises exactly when it meets a confident candidate of an unknown kind or namespace. */
  lemma {:induction false} RaisesIff(lib: Library, cands: seq<Candidate>, n: nat, clock: nat -> int, t: Tables)
    requires n <= |cands|
    ensures Promote(lib, cands, n, clock, t).raised <==> exists i :: 0 <= i < n && Unstorable(lib, cands, cands[i])
  {
    hide ToItem, Confidence;
    if n > 0 {
      RaisesIff(lib, cands, n - 1, clock, t);
      ItemRepresents(lib, cands[n - 1], Confidence(lib, cands, cands[n - 1]), clock(n - 1));
    }
  }

  ghost predicate Unstorable(lib: Library, cands: seq<Candidate>, c: Candidate) {
    && Confidence(lib, cands, c) >= 0.42
    && !((c.kind == "episodic" || c.kind == "semantic" || c.kind == "procedural")
         && (c.namespace == "user" || c.namespace == "team" || c.namespace == "project" || c.namespace == "app_state"))
  }

  /** A compile that does not raise promotes every confident candidate, and counts it. */
  lemma {:induction false} PromotedAreCounted(lib: Library, cands: seq<Candidate>, n: nat, clock: nat -> int, t: Tables)
    requires n <= |cands| && !Promote(lib, cands, n, clock, t).raised
    ensures Promote(lib, cands, n, clock, t).promoted
      == |Filter(cands[..n], (c: Candidate) => Confidence(lib, cands, c) >= 0.42)|
  {
    hide ToItem, Confidence;
    if n > 0 {
      PromotedAreCounted(lib, cands, n - 1, clock, t);
      var p := (c: Candidate) => Confidence(lib, cands, c) >= 0.42;
      assert cands[..n] == cands[..n - 1] + [cands[n - 1]];
      FilterSplits(cands[..n - 1], [cands[n - 1]], p);
      assert |Filter([cands[n - 1]], p)| == if p(cands[n - 1]) then 1 else 0;
    }
  }
}

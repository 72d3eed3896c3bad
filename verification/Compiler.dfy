/** The compile pipeline: count corroboration, promote confident candidates into the
    append-only store, then sweep. */
module Compiler {
  import opened Ordering
  import opened Wrappers
  import opened Memory
  import opened Resolver
  import opened ResolverRuns

  datatype Candidate = Candidate(
    text: string, kind: string, namespace: string, subject: Option<string>,
    entityType: Option<string>, sourceKind: string)

  /** The library behaviour the pipeline relies on: text normalisation (strip and lower case),
      the evidence-based confidence, the content-derived id and the reading of a claim. */
  datatype Library = Library(
    normalize: string -> string,
    score: (Candidate, nat) -> real,
    memoryId: DedupeKey -> string,
    read: string -> Claim)

  datatype DedupeKey = DedupeKey(kind: string, namespace: string, subject: string, claim: string)

  const PROMOTION_THRESHOLD: real := 0.42

  function ClaimKey(lib: Library, c: Candidate): string {
    c.kind + "|" + c.namespace + "|" + lib.normalize(c.text)
  }

  ghost function Occurrences(lib: Library, cands: seq<Candidate>, key: string): nat {
    if cands == [] then 0 else
      var before := Occurrences(lib, cands[..|cands| - 1], key);
      if ClaimKey(lib, cands[|cands| - 1]) == key then before + 1 else before
  }

  lemma {:induction false} PresentKeyOccurs(lib: Library, cands: seq<Candidate>, c: Candidate)
    requires c in cands
    ensures Occurrences(lib, cands, ClaimKey(lib, c)) >= 1
  {
    if cands[|cands| - 1] != c {
      assert c in cands[..|cands| - 1];
      PresentKeyOccurs(lib, cands[..|cands| - 1], c);
    }
  }

  function NamespaceOf(text: string): Option<Namespace> {
    match text
    case "user" => Some(User)
    case "team" => Some(Team)
    case "project" => Some(Project)
    case "app_state" => Some(AppState)
    case _ => None
  }

  predicate IsKind(text: string) {
    text == "episodic" || text == "semantic" || text == "procedural"
  }

  function AclOf(namespace: string): string {
    match namespace
    case "user" => "personal"
    case "project" => "project"
    case _ => "team"
  }

  function InferSubject(c: Candidate): string {
    match c.namespace
    case "user" => "user"
    case "team" => "team-norms"
    case "project" => if c.entityType.Some? then c.entityType.value else "project"
    case _ => "general"
  }

  /** A missing or empty subject is inferred. */
  function SubjectOf(c: Candidate): string {
    if c.subject.Some? && c.subject.value != "" then c.subject.value else InferSubject(c)
  }

  /** None stands for the ValueError that an unknown kind or namespace raises. */
  function ToItem(lib: Library, c: Candidate, confidence: real, now: int): Option<MemoryItem> {
    if !IsKind(c.kind) || NamespaceOf(c.namespace).None? then None
    else Some(MemoryItem(ItemId(lib, c), NamespaceOf(c.namespace).value, Some(SubjectOf(c)),
                         lib.read(c.text), confidence, now, AclOf(c.namespace)))
  }

  function ItemId(lib: Library, c: Candidate): string {
    lib.memoryId(DedupeKey(c.kind, c.namespace, lib.normalize(SubjectOf(c)), lib.normalize(c.text)))
  }

  ghost function Confidence(lib: Library, cands: seq<Candidate>, c: Candidate): real {
    var n := Occurrences(lib, cands, ClaimKey(lib, c));
    lib.score(c, if n >= 1 then n - 1 else 0)
  }

  datatype Progress = Progress(tables: Tables, promoted: nat, raised: bool)

  /** The promotion loop over the first n candidates; it stops at the first bad candidate. */
  ghost function Promote(lib: Library, cands: seq<Candidate>, n: nat, clock: nat -> int, t: Tables): Progress
    requires n <= |cands|
  {
    if n == 0 then Progress(t, 0, false) else
      var p := Promote(lib, cands, n - 1, clock, t);
      var c := cands[n - 1];
      var conf := Confidence(lib, cands, c);
      if p.raised || conf < PROMOTION_THRESHOLD then p
      else
        match ToItem(lib, c, conf, clock(n - 1))
        case None => p.(raised := true)
        case Some(item) => p.(tables := AddItem(p.tables, item, true), promoted := p.promoted + 1)
  }

  /** The whole compile: a raised error leaves what was added, and skips the sweep. */
  ghost function Compiled(lib: Library, cands: seq<Candidate>, clock: nat -> int, t: Tables): Tables {
    var p := Promote(lib, cands, |cands|, clock, t);
    if p.raised then p.tables else Sweep(p.tables)
  }

  class KnowledgeCompiler {
    const memory: MemoryStore
    const lib: Library

    constructor (memory: MemoryStore, lib: Library)
      ensures this.memory == memory && this.lib == lib
    {
      this.memory, this.lib := memory, lib;
    }

    method CorroborationCounts(cands: seq<Candidate>) returns (counts: map<string, nat>)
      ensures forall key :: (key in counts <==> Occurrences(lib, cands, key) >= 1)
      ensures forall key :: key in counts ==> counts[key] == Occurrences(lib, cands, key)
    {
      counts := map[];
      for n := 0 to |cands|
        invariant forall key :: (key in counts <==> Occurrences(lib, cands[..n], key) >= 1)
        invariant forall key :: key in counts ==> counts[key] == Occurrences(lib, cands[..n], key)
      {
        assert cands[..n + 1][..n] == cands[..n];
        var key := ClaimKey(lib, cands[n]);
        counts := counts[key := (if key in counts then counts[key] else 0) + 1];
      }
      assert cands[..|cands|] == cands;
    }

    /** One candidate of the promotion loop. */
    method PromoteNext(cands: seq<Candidate>, n: nat, corroboration: map<string, nat>, clock: nat -> int,
                       ghost before: Progress, ghost t: Tables)
      returns (promoted: bool, raised: bool)
      requires n < |cands| && before == Promote(lib, cands, n, clock, t) && !before.raised
      requires before.tables == memory.View() && Consistent(memory.View())
      requires forall key :: (key in corroboration <==> Occurrences(lib, cands, key) >= 1)
      requires forall key :: key in corroboration ==> corroboration[key] == Occurrences(lib, cands, key)
      modifies memory
      ensures Consistent(memory.View()) && !(raised && promoted)
      ensures Promote(lib, cands, n + 1, clock, t)
        == Progress(memory.View(), if promoted then before.promoted + 1 else before.promoted, raised)
    {
      hide Sweep, ToItem, ClaimKey, Occurrences;
      promoted, raised := false, false;
      var cand := cands[n];
      PresentKeyOccurs(lib, cands, cand);
      var key := ClaimKey(lib, cand);
      var seen := if key in corroboration then corroboration[key] else 1;
      var conf := lib.score(cand, if seen >= 1 then seen - 1 else 0);
      if conf >= PROMOTION_THRESHOLD {
        var item := ToItem(lib, cand, conf, clock(n));
        if item.None? {
          raised := true;
        } else {
          var id := memory.Add(item.value, true);
          promoted := true;
        }
      }
    }

    method Compile(cands: seq<Candidate>, clock: nat -> int) returns (promoted: nat, resolved: nat, raised: bool)
      requires Consistent(memory.View())
      modifies memory
      ensures memory.View() == Compiled(lib, cands, clock, old(memory.View()))
      ensures var p := Promote(lib, cands, |cands|, clock, old(memory.View()));
              promoted == p.promoted && raised == p.raised
      ensures !raised ==> resolved == |SweepPairs(memory.items)|
    {
      hide Sweep, SweepPairs, Promote, Occurrences;
      ghost var t := memory.View();
      promoted, resolved, raised := 0, 0, false;
      var corroboration := CorroborationCounts(cands);
      NothingPromoted(lib, cands, clock, t);
      for n := 0 to |cands|
        invariant !raised && Consistent(memory.View())
        invariant Promote(lib, cands, n, clock, t) == Progress(memory.View(), promoted, false)
      {
        var added;
        added, raised := PromoteNext(cands, n, corroboration, clock, Promote(lib, cands, n, clock, t), t);
        if raised {
          RaisedStays(lib, cands, n + 1, |cands|, clock, t);
          return;
        }
        if added {
          promoted := promoted + 1;
        }
      }
      var results := ResolveAll(memory);
      DistinctCount(results);
      resolved := |results|;
    }
  }

  lemma NothingPromoted(lib: Library, cands: seq<Candidate>, clock: nat -> int, t: Tables)
    ensures Promote(lib, cands, 0, clock, t) == Progress(t, 0, false)
  {
  }

  lemma {:induction false} RaisedStays(lib: Library, cands: seq<Candidate>, n: nat, m: nat, clock: nat -> int,
                                       t: Tables)
    requires n <= m <= |cands| && Promote(lib, cands, n, clock, t).raised
    ensures Promote(lib, cands, m, clock, t) == Promote(lib, cands, n, clock, t)
    decreases m
  {
    hide ToItem, Confidence;
    if n < m {
      RaisedStays(lib, cands, n, m - 1, clock, t);
    }
  }

  /** Promotion only ever adds rows. */
  lemma {:induction false} PromoteGrows(lib: Library, cands: seq<Candidate>, n: nat, m: nat, clock: nat -> int,
                                        t: Tables)
    requires n <= m <= |cands|
    ensures Promote(lib, cands, n, clock, t).tables.items.Keys <= Promote(lib, cands, m, clock, t).tables.items.Keys
    decreases m
  {
    hide ToItem, Confidence;
    if n < m {
      PromoteGrows(lib, cands, n, m - 1, clock, t);
    }
  }

  /** A candidate that gets into the store: confident enough, of a known kind and namespace. */
  ghost predicate Promotes(lib: Library, cands: seq<Candidate>, c: Candidate) {
    && Confidence(lib, cands, c) >= PROMOTION_THRESHOLD
    && IsKind(c.kind) && NamespaceOf(c.namespace).Some?
  }

  /** Unless it raises, the loop adds the ids of the promoted candidates, and no others; rows
      that were there before are left alone. */
  lemma {:induction false} PromoteAddsExactly(lib: Library, cands: seq<Candidate>, n: nat, clock: nat -> int, t: Tables,
                                              id: string)
    requires n <= |cands| && !Promote(lib, cands, n, clock, t).raised
    ensures id in Promote(lib, cands, n, clock, t).tables.items <==>
      id in t.items || exists i :: 0 <= i < n && Promotes(lib, cands, cands[i]) && ItemId(lib, cands[i]) == id
    ensures id in t.items ==> Promote(lib, cands, n, clock, t).tables.items[id] == t.items[id]
  {
    hide IsKind, NamespaceOf, ItemId, Confidence;
    if n > 0 {
      PromoteAddsExactly(lib, cands, n - 1, clock, t, id);
      var c := cands[n - 1];
      assert Promotes(lib, cands, c) ==> ToItem(lib, c, Confidence(lib, cands, c), clock(n - 1)).Some?;
    }
  }

  lemma {:induction false} PromoteKeepsConsistent(lib: Library, cands: seq<Candidate>, n: nat, clock: nat -> int,
                                                  t: Tables)
    requires n <= |cands| && Consistent(t)
    ensures Consistent(Promote(lib, cands, n, clock, t).tables)
  {
    hide ToItem, Confidence;
    if n > 0 {
      PromoteKeepsConsistent(lib, cands, n - 1, clock, t);
    }
  }

  /** The items that the promotion loop adds, in order. */
  ghost function Promotions(lib: Library, cands: seq<Candidate>, n: nat, clock: nat -> int, t: Tables): seq<Action>
    requires n <= |cands|
  {
    if n == 0 then [] else
      var before := Promotions(lib, cands, n - 1, clock, t);
      var c := cands[n - 1];
      var conf := Confidence(lib, cands, c);
      if Promote(lib, cands, n - 1, clock, t).raised || conf < PROMOTION_THRESHOLD then before
      else
        match ToItem(lib, c, conf, clock(n - 1))
        case None => before
        case Some(item) => before + [AddActive(item)]
  }

  lemma {:induction false} PromoteIsRun(lib: Library, cands: seq<Candidate>, n: nat, clock: nat -> int, t: Tables)
    requires n <= |cands|
    ensures Promote(lib, cands, n, clock, t).tables == RunFrom(t, Promotions(lib, cands, n, clock, t))
  {
    hide ToItem, Confidence, AddItem, Sweep, RunFrom;
    if n == 0 {
      NoActions(t);
    } else {
      PromoteIsRun(lib, cands, n - 1, clock, t);
      var c := cands[n - 1];
      var item := ToItem(lib, c, Confidence(lib, cands, c), clock(n - 1));
      if item.Some? { RunFromOneMore(t, Promotions(lib, cands, n - 1, clock, t), AddActive(item.value)); }
    }
  }

  /** What a compile does to the memory: the promotions, and then a sweep unless it raised. */
  ghost function CompileActions(lib: Library, cands: seq<Candidate>, clock: nat -> int, t: Tables): seq<Action> {
    Promotions(lib, cands, |cands|, clock, t) + if Promote(lib, cands, |cands|, clock, t).raised then [] else [SweepAll]
  }

  /** A compile is a run of adds and at most one sweep. */
  lemma CompiledIsRun(lib: Library, cands: seq<Candidate>, clock: nat -> int, t: Tables)
    ensures Compiled(lib, cands, clock, t) == RunFrom(t, CompileActions(lib, cands, clock, t))
  {
    hide Promote, Promotions, Sweep, RunFrom;
    var adds := Promotions(lib, cands, |cands|, clock, t);
    PromoteIsRun(lib, cands, |cands|, clock, t);
    RunFromOneMore(t, adds, SweepAll);
    assert adds + [] == adds;
  }

  /** One compile: its candidates, and what the clock says as they are promoted. */
  datatype Job = Job(cands: seq<Candidate>, clock: nat -> int)

  /** The tables after these compiles, from the empty store on. */
  ghost function CompiledAll(lib: Library, jobs: seq<Job>): Tables {
    if jobs == [] then EMPTY_TABLES
    else Compiled(lib, jobs[|jobs| - 1].cands, jobs[|jobs| - 1].clock, CompiledAll(lib, jobs[..|jobs| - 1]))
  }

  /** Any sequence of compiles is a run. */
  lemma {:induction false} CompilesAreRuns(lib: Library, jobs: seq<Job>) returns (actions: seq<Action>)
    ensures CompiledAll(lib, jobs) == Run(actions)
  {
    hide Compiled, CompileActions, Act, RunFrom;
    if jobs == [] {
      actions := [];
      NoActions(EMPTY_TABLES);
    } else {
      var job := jobs[|jobs| - 1];
      var front := CompilesAreRuns(lib, jobs[..|jobs| - 1]);
      var more := CompileActions(lib, job.cands, job.clock, Run(front));
      CompiledIsRun(lib, job.cands, job.clock, Run(front));
      RunFromCompose(EMPTY_TABLES, front, more);
      actions := front + more;
    }
  }

  /** Over any sequence of compiles the supersedes graph has no cycle, and whatever is inactive is
      superseded, through some chain, by something active. */
  lemma CompilesKeepOrder(lib: Library, jobs: seq<Job>)
    ensures var t := CompiledAll(lib, jobs);
            && (forall path :: Chain(t, path) && |path| >= 2 ==> path[0] != path[|path| - 1])
            && forall y :: y in t.items && !IsActive(t, y) ==>
                 exists path :: Chain(t, path) && path[|path| - 1] == y && IsActive(t, path[0])
  {
    hide CompiledAll, Run, IsActive;
    var t := CompiledAll(lib, jobs);
    var actions := CompilesAreRuns(lib, jobs);
    forall path | Chain(t, path) && |path| >= 2 ensures path[0] != path[|path| - 1] {
      SupersedesIsAcyclic(actions, path);
    }
    forall y | y in t.items && !IsActive(t, y)
      ensures exists path :: Chain(t, path) && path[|path| - 1] == y && IsActive(t, path[0])
    {
      InactiveIsSupersededByActive(actions, y);
    }
  }

  /** After a compile that does not raise, no two active items contradict. */
  lemma CompiledViewIsConsistent(lib: Library, cands: seq<Candidate>, clock: nat -> int, t: Tables)
    requires Consistent(t) && !Promote(lib, cands, |cands|, clock, t).raised
    ensures Settled(Compiled(lib, cands, clock, t))
  {
    hide Settled, Promote, Sweep;
    PromoteKeepsConsistent(lib, cands, |cands|, clock, t);
    NoActiveContradiction(Promote(lib, cands, |cands|, clock, t).tables);
  }

  /** Replaying the promotions over tables that already hold their ids changes nothing and
      stops at the same place, whatever the clock says this time. */
  lemma {:induction false} ReplayIsNoOp(lib: Library, cands: seq<Candidate>, n: nat,
      clock: nat -> int, later: nat -> int, t: Tables, again: Tables)
    requires n <= |cands|
    requires Promote(lib, cands, n, clock, t).tables.items.Keys <= again.items.Keys
    ensures var p, q := Promote(lib, cands, n, clock, t), Promote(lib, cands, n, later, again);
            q == Progress(again, p.promoted, p.raised)
  {
    if n > 0 {
      PromoteGrows(lib, cands, n - 1, n, clock, t);
      ReplayIsNoOp(lib, cands, n - 1, clock, later, t, again);
    }
  }

  /** Compiling the same candidates a second time leaves the items, the active flags and the
      edges exactly as the first compile left them. */
  lemma CompileTwiceIsOnce(lib: Library, cands: seq<Candidate>, clock: nat -> int, later: nat -> int, t: Tables)
    ensures var once := Compiled(lib, cands, clock, t); Compiled(lib, cands, later, once) == once
  {
    hide SweepPairs;
    var p := Promote(lib, cands, |cands|, clock, t);
    ReplayIsNoOp(lib, cands, |cands|, clock, later, t, Compiled(lib, cands, clock, t));
    SweepIsIdempotent(p.tables);
  }
}

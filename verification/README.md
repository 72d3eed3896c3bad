# ombench: models and proofs of its core

ombench keeps a bitemporal log of SaaS events, folds it into point-in-time state and
content-addressed snapshots, compiles runs and app state into an append-only memory of claims,
and packs, searches and scores that memory for benchmark reports. This project models the
parts whose promises reach over whole runs or across several functions, and proves them for
every input.

`dafny verify dfyconfig.toml` checks all of it.

| part | modules |
|---|---|
| contradiction resolver over the append-only memory | `Memory`, `Resolver`, `ResolverRuns`, `SweepKernel`, `SweepPriority`, `ActiveView`, `PairLaws`, `Compiler`, `CompileLaws` |
| event log, fold, snapshots, resumable sync, transactions | `TimeText`, `TimeLaws`, `EventLog`, `FoldMeaning`, `EventMeaning`, `Bitemporal`, `ArrivalOrder`, `Snapshots`, `SnapshotDiff`, `CalendarSync`, `SyncHistories`, `SyncedState`, `Transactions` |
| optimisers and indexes against a simple definition | `Budget`, `BudgetLaws`, `Bm25`, `Bm25Laws`, `Graph` |
| rank statistics and the seeded bootstrap | `Stats`, `Bootstrap`, `BootstrapLaws` |
| lists, orders, sorting, real arithmetic | `Ordering`, `Wrappers`, `Reals` |

## Main results

- **Resolver.** After one sweep from any flags no two active items contradict. For every pattern
  of claims, a sweep supersedes exactly what the documented priority outranks, if and only if no
  group visits an item before one that ranks two or more places above it
  (`FollowsPriorityIff`). The active view itself is the documented one, for every pattern of
  claims, if and only if besides that every item was active before the sweep
  (`ViewIsPriorityIff`): nothing reactivates an item that wins no pair, so what is active
  depends on when the sweeps were (`ViewHasHistory`). Over every run of adds and sweeps, and
  over every sequence of compiles, the SUPERSEDES graph is acyclic and every inactive item
  hangs, along SUPERSEDES edges, from an active one. A second sweep, and a second compile,
  change nothing. What contradicts what, and which of the two stays, is also stated of the words,
  polarities, confidences, times and scopes of the items alone (`PairLaws`).
- **Event log.** The one-pass fold of all entities and the fold of one entity agree at every
  (T, tau). Events that happened after T or arrived after tau never change the state or the
  snapshot at (T, tau). Where each change is learned once, the order of arrival never shows,
  at any (T, tau), if and only if no two events of one entity in one millisecond conflict
  (`OrderNeverShowsIff`). Where changes may be learned again, it never shows in any part of the
  events if and only if, besides, no change is learned in two different milliseconds
  (`PartsNeverShowIff`). What the fold computes is stated without the fold: last writer per
  field, per edge pair and for the tombstone, of the stored rows (`FoldMeaning`) and of the
  events that were appended (`EventMeaning`).
- **Sync.** Any interleaving of appends, cursor writes, crashes, restarts and resyncs that
  ends in one completed run leaves the identities of one uninterrupted sync, and after a run from
  start to end the next one does nothing. With collision-free ids, every history is exactly
  once if and only if every calendar event is dated (`ExactlyOnceIffDated`). Batches that come
  between runs are picked up once each, unless one bears a token that was stored before any
  batch bore it (`GrowingSyncIsExactlyOnce`, `GrownRunIsExactlyOnceIff`).
  An event listed once is then shown as the calendar gave it: with its content and attendees, or
  as a tombstone if it was cancelled (`SyncedState`).
- **Snapshots.** With collision-free hashing, roots are equal exactly when contents are; the diff
  partitions the live keys, is empty exactly when the live maps agree, and swaps with its
  arguments. Its keys name entities if and only if no type in use extends another after a slash.
  What is persisted can be loaded again, however many snapshots follow.
- **Transactions.** The depth counter and the in-transaction flag reach the same database for
  every program of nested blocks, statements, raised and caught exceptions.
- **Budget.** The in-place pass refines the two-dimensional recurrence and is optimal over all
  sub-multisets; the greedy is within the value of its first rejected item at every budget if
  and only if no value is negative. Plans are also compared with choices of items by their tokens
  (`BudgetLaws`).
- **BM25, graph, statistics.** The incremental index always equals a rebuild; a search for a term
  finds exactly the documents that hold it, which score more the more often they do and the shorter
  they are (`Bm25Laws`). The bounded graph search returns exactly 1/(d+1) at shortest distance d;
  the nested tie loop computes midranks; a step of the generator can be undone and its lowest bit
  alternates, so the interval of two values has no width (`BootstrapLaws`).

## How the program is represented

- Objects that the program updates in place (`MemoryStore`, `EventStore`, `EntityState`,
  `BM25Index`, the two backends, `GCalSync`, `_LCG`) are classes whose methods are proved against a
  specification function of the old state; the laws are lemmas about that function. The dynamic
  program and the midrank loops work on arrays.
- Floats are `real`, and the final `round(..., 4)` calls are dropped.
- SHA-256 of canonical JSON is a digest function on structured texts. Its injectivity is a
  premise of the lemmas that need it, and of no other. Event ids come from an arbitrary
  function of the identity.
- A table is a map or a sequence of rows; `ORDER BY` and `sorted` are one stable sort. Rows that
  the query leaves unordered, and iteration over sets and dictionaries, come in an arbitrary order.
- Claims reach the resolver as their content words less the stop words, with their polarity.
  The overlap threshold is the default, one half, which is the only one a sweep uses.
- Text normalisation, the confidence score, the idf, id derivation and the clock are parameters.
- Event times and query bounds are UTC readings to the microsecond, which is what events
  normalise them to; their stored form is the text of `to_iso`.
- Payload values are encoded text. An event's edge kind and target are text, which the event
  constructors guarantee. UTC offsets are whole seconds.
- SciPy's answer and the p-value of a rank statistic are parameters.
- An entity key's application has no slash, as none of the supported ones does.

## Where the code and its documentation differ

- The resolver's documentation says that in the active view higher confidence wins, and ties go to
  the more recent item (`resolver.py:5-7`). There are two ways in which the code, which the model
  follows, does not keep that. The pairwise ranking goes by recency, but the sweep visits the
  older item first (`resolver.py:140`), so it can supersede the wrong items:
  `SweepPriority.FollowsPriorityIff` says exactly when the superseded items are the outranked
  ones, and `SweepPriority.ThreeTiesFail` that three items of equal confidence and different age
  are enough for them not to be. And an item that an earlier sweep left inactive stays so, when
  what superseded it is superseded in turn, unless it wins a pair (`resolver.py:88-97`):
  `ActiveView.ViewIsPriorityIff` says exactly when the active view is the documented one, and
  `ActiveView.ViewHasHistory` is a run, without any tie, in which it is not.
- `transaction()` promises to roll back on exception (`postgres_backend.py:98`,
  `sqlite_backend.py:99`), but `except Exception` does not see interrupts: one that leaves the
  outermost block leaves the transaction open, and nothing done afterwards on that connection
  becomes durable (`Transactions.InterruptWedges`).
- `append_many` promises a batch in one transaction (`events/store.py:121`). That holds as the
  outermost block; inside a caller's transaction, what it added before raising stays
  (`Transactions.NestedAppendManyKeepsPart`). `Transactions.AppendManyIsSilentIff` says exactly
  when the log reads the same afterwards, however the batch ends.
- Running a sync again picks up only newer batches (`gcal/sync.py:10-11`), but a stored token that no batch
  bears yet resumes at the start, and once a new batch bears it, behind that batch: everything is
  then skipped (`SyncHistories.GrownRunIsExactlyOnceIff`).
- `diff_snapshots` speaks of entities (`diff.py:43-46`) but compares joined keys, which two entities
  can share; `SnapshotDiff.JoinIsInjectiveIff` says when.
- `_knapsack` reads token counts back through ids (`budget.py:62-63`). The reported total is
  right at every value and budget exactly when items that share an id cost the same
  (`Budget.TokensAreRightIff`).
- The bootstrap promises to resample with replacement (`stats.py:65-66`), but an index is the
  generator's state modulo n, and its lowest bit alternates: of an even number of values every two
  draws take one even and one odd place (`BootstrapLaws.HalfTheDrawsAreEven`), and of two values
  every resample holds each once, so that their interval is always one point
  (`BootstrapLaws.TwoValuesCollapse`). Of the 32 bits kept of a seed only 31 matter
  (`BootstrapLaws.SeedsRepeat`).

## Model

| member | source | states |
|---|---|---|
| Budget.PickAchievesBest | src/ombench/memory/budget.py:54-60 | the recorded pick always sums to the recorded value and fits its capacity |
| Budget.PickIsPack | src/ombench/memory/budget.py:54-60 | no item is used twice |
| Budget.BestIsUpperBound | src/ombench/memory/budget.py:50-64 | no choice of the items within capacity w is worth more than the recurrence's value |
| Budget.Consider | src/ombench/memory/budget.py:54-60 | the descending in-place pass turns every cell of the first n items into the cell of the first n+1 |
| Budget.Knapsack | src/ombench/memory/budget.py:50-64 | the plan names a pack within budget whose value is the maximum over all packs within budget; its tokens are right if ids name costs |
| Budget.DistinctIdsAreExact | src/ombench/memory/budget.py:61-64 | with distinct ids the plan names a best pack and reports its tokens exactly |
| Budget.TokensAreRightIff | src/ombench/memory/budget.py:61-64 | the reported tokens are right at all values and budgets if and only if items sharing an id cost the same |
| Budget.GreedySplits | src/ombench/memory/budget.py:72-77 | every item is kept or rejected exactly once |
| Budget.GreedyFits | src/ombench/memory/budget.py:72-77 | the kept items fit the budget, and no rejected item fits what they leave over |
| Budget.GreedyGap | src/ombench/memory/budget.py:67-78 | for non-negative values the greedy falls short of any pack within budget by at most its first rejected item, and by nothing if it rejects none |
| Budget.GreedyGapIff | src/ombench/memory/budget.py:67-78 | at all budgets, or only all large ones, the greedy is within its first rejected item of optimal if and only if no value is negative |
| Budget.NegativeIsKept | src/ombench/memory/budget.py:45-47 | a failing case at every budget that holds all items and a negative one, so also at budgets over 5000, where the greedy is used |
| Budget.Greedy | src/ombench/memory/budget.py:67-78 | the loop returns the ids, value and tokens of the greedy pack of the list sorted by density, then id |
| Budget.Optimize | src/ombench/memory/budget.py:35-47 | empty without budget or eligible items, never over budget, optimal on moderate instances, within one item of optimal on large ones |
| BudgetLaws.WeightIsTokens | src/ombench/memory/budget.py:55 | a pack weighs the tokens of its items, and one for each that has none |
| BudgetLaws.PlanBeatsTokens | src/ombench/memory/budget.py:35-64 | no choice among the items whose tokens fit the budget is worth more than the plan of a moderate instance |
| BudgetLaws.PlanReportsTokens | src/ombench/memory/budget.py:61-78 | with distinct ids every plan, dynamic or greedy, is of some of the items, and reports their ids, their value and their tokens |
| BudgetLaws.GreedyOrder | src/ombench/memory/budget.py:68 | the greedy looks at items by value per token, compared crosswise, then by id |
| Memory.MemoryStore.Add | src/ombench/memory/store.py:25-53 | adding is a no-op for a known id and otherwise stores the item with its flag |
| Memory.MemoryStore.AllItems | src/ombench/memory/store.py:81-86 | every row (or every active row) once, by creation time |
| Resolver.ContradictionIsSymmetric | src/ombench/memory/resolver.py:43-56 | the contradiction test does not depend on the order of its arguments |
| Resolver.AboveIsStrictTotalOrder | src/ombench/memory/resolver.py:108-119 | confidence, recency, acl priority, then smaller id is a strict total order on items of different ids |
| Resolver.RankGoesDown | src/ombench/memory/resolver.py:108-119 | resolving a pair in visiting order always ranks the winner strictly above the loser, although the two keys differ |
| Resolver.ScanCovers | src/ombench/memory/resolver.py:141-149 | no contradicting pair of a group is left with neither side superseded, in spite of the break and the skip |
| Resolver.RankingIsUnique | src/ombench/memory/resolver.py:128-140 | whatever order the store returns rows in, each group is visited in one order only |
| Resolver.GroupsAreIndependent | src/ombench/memory/resolver.py:138-149 | the shared set of superseded ids couples no two groups |
| Resolver.ResolvePair | src/ombench/memory/resolver.py:70-102 | both edges are added, the loser is deactivated, and the winner activated unless it was superseded in this sweep |
| Resolver.ResolveGroup | src/ombench/memory/resolver.py:141-149 | the two loops with break and continue resolve exactly the scan's pairs, and leave flags and edges that depend on the set of resolved pairs only |
| Resolver.ResolveAll | src/ombench/memory/resolver.py:122-150 | the tables after a sweep are a function of the tables before, whatever the row order, and the results list every resolved pair once |
| PairLaws.OverlapInWords | src/ombench/memory/resolver.py:37-56 | two claims overlap enough exactly when they share a word, and share no fewer words than only one of them has |
| PairLaws.SweepKeepsBothIff | src/ombench/memory/resolver.py:43-56 | of two active items a sweep leaves both active if and only if they differ in namespace or subject, or agree in polarity, or share no word, or share fewer words than only one of them has |
| PairLaws.SweepKeepsPreferred | src/ombench/memory/resolver.py:105-119 | otherwise the more confident stays, then the newer, then that of the more privileged scope, then that of the smaller id |
| PairLaws.SweepRecordsPreferred | src/ombench/memory/resolver.py:88-90 | and the two edges that say so are all that is recorded |
| PairLaws.ActiveAreNotOpposed | src/ombench/memory/resolver.py:43-150 | in a store of any size, after a sweep from any flags, no two active items on one topic with opposite polarity share at least half their words |
| PairLaws.DeactivatedHasWinner | src/ombench/memory/resolver.py:43-150 | and what a sweep deactivates has such an opponent in the store that wins over it |
| ResolverRuns.SweepPairsAreSound | src/ombench/memory/resolver.py:138-149 | every resolved pair of a sweep joins contradicting items of the table and goes strictly down |
| ResolverRuns.NoActiveContradiction | src/ombench/memory/resolver.py:122-150 | after one sweep from any flags no two active items contradict |
| ResolverRuns.SweepIsIdempotent | src/ombench/memory/resolver.py:122-150 | a second sweep changes no flag and adds no edge |
| SweepKernel.SweepFollowsPriority | src/ombench/memory/resolver.py:135-149 | where every item meets what refutes it in time, a sweep supersedes exactly the items that confidence, then recency, then acl outrank |
| SweepPriority.SettledInversionsAreInTime | src/ombench/memory/resolver.py:140-149 | that holds if contradicting items visited against the priority have the first of them refuted before |
| SweepPriority.FollowsPriorityIff | src/ombench/memory/resolver.py:108-149 | the exact condition on one sweep: for every pattern of claims the superseded items are those that the priority outranks, if and only if no group visits an item before one that ranks two or more places above it |
| SweepPriority.OvertakenLosesWrongly | src/ombench/memory/resolver.py:140-149 | otherwise an item can be superseded although the only item it contradicts is superseded as well |
| SweepPriority.ThreeTiesFail | src/ombench/memory/resolver.py:140 | three items of one group, equal confidence and different age are enough |
| ActiveView.ViewIsPriorityIff | src/ombench/memory/resolver.py:88-149 | the exact condition on the active view: for every pattern of claims it is the documented one after a sweep, if and only if besides that every item was active before |
| ActiveView.ViewIsPriorityHereIff | src/ombench/memory/resolver.py:88-97 | for given claims: where the sweep follows the priority so does the view, if and only if what is not outranked was active before or wins a pair |
| ActiveView.ViewHasHistory | src/ombench/memory/resolver.py:88-97 | with the same items and no ties, a run that sweeps before the last item comes leaves an item inactive that a run that sweeps once leaves active, although its only opponent is superseded |
| ActiveView.RisingExists | src/ombench/memory/resolver.py:43-56 | three items as that run needs exist |
| SweepPriority.SweepIsKernelIff | src/ombench/memory/resolver.py:135-149 | by confidence alone: a sweep supersedes exactly what strictly greater confidence refutes, if and only if each contradiction of equal confidence involves a refuted item |
| ResolverRuns.RunsKeepInvariant | src/ombench/memory/resolver.py:88-97 | over every run of adds and sweeps, SUPERSEDES edges go strictly down and every inactive item has one into it |
| ResolverRuns.SupersedesIsAcyclic | src/ombench/memory/resolver.py:88-97 | over every run the supersedes graph has no cycle |
| ResolverRuns.InactiveIsSupersededByActive | src/ombench/memory/resolver.py:88-97 | over every run each inactive item is reachable along SUPERSEDES edges from an active one |
| Compiler.KnowledgeCompiler.CorroborationCounts | src/ombench/memory/compiler.py:120-124 | each claim key is counted as often as candidates bear it, and no other key has an entry |
| Compiler.KnowledgeCompiler.Compile | src/ombench/memory/compiler.py:91-107 | the new tables are those of promoting and then sweeping; an unknown kind or namespace raises and skips the sweep |
| Compiler.PromoteAddsExactly | src/ombench/memory/compiler.py:95-104 | the loop adds exactly the ids of candidates at or above the threshold, and changes no existing row |
| Compiler.CompiledViewIsConsistent | src/ombench/memory/compiler.py:106-107 | after a compile no two active items contradict |
| Compiler.CompileTwiceIsOnce | src/ombench/memory/compiler.py:83-107 | compiling the same candidates twice leaves items, flags and edges of the first compile |
| Compiler.CompiledIsRun | src/ombench/memory/compiler.py:95-107 | a compile is a run of adds and, unless it raises, one sweep |
| Compiler.CompilesKeepOrder | src/ombench/memory/compiler.py:83-107 | over any sequence of compiles the supersedes graph has no cycle and every inactive item hangs from an active one |
| CompileLaws.OccurrencesAreBackers | src/ombench/memory/compiler.py:116-124 | where no kind or namespace holds a bar, a key occurs as often as candidates claim the same of the same |
| CompileLaws.ConfidenceIsCorroborated | src/ombench/memory/compiler.py:95-99 | a candidate is scored with one corroborating source for each other candidate that claims the same |
| CompileLaws.ItemRepresents | src/ombench/memory/compiler.py:126-156 | an item has the namespace, scope, subject, claim and id that its candidate stands for; there is none exactly for an unknown kind or namespace |
| CompileLaws.AddedItemsRepresent | src/ombench/memory/compiler.py:95-104 | every item the loop adds is active and represents a candidate of confidence at least 0.42, and the others were there before |
| CompileLaws.RaisesIff | src/ombench/memory/compiler.py:128-129 | the loop raises exactly when a candidate of confidence at least 0.42 has an unknown kind or namespace |
| CompileLaws.PromotedAreCounted | src/ombench/memory/compiler.py:100-104 | a compile that does not raise counts exactly the candidates of confidence at least 0.42 |
| Graph.Neighbors | src/ombench/memory/graph.py:28-34 | exactly the targets of edges out of the node by the allowed relations |
| Graph.WithinIsReachable | src/ombench/memory/graph.py:45-56 | the visited set after n hops is what walks of at most n edges reach, cycles or not |
| Graph.LayerIsDistance | src/ombench/memory/graph.py:45-56 | the n-th frontier is the set of nodes at distance n |
| Graph.Expand | src/ombench/memory/graph.py:48-56 | one hop finds the goal exactly when it is a successor of the frontier, and otherwise grows visited by the successors |
| Graph.Proximity | src/ombench/memory/graph.py:37-57 | 1 for the node itself, 1/(d+1) at shortest distance d within the bound, 0 otherwise |
| Bm25.BM25Index.Add | src/ombench/memory/bm25.py:40-54 | after an add or a replacement every table is what the current documents determine |
| Bm25.BM25Index.ScoreOf | src/ombench/memory/bm25.py:81-95 | the score is a function of the current documents alone |
| Bm25.BM25Index.Search | src/ombench/memory/bm25.py:97-102 | the first top_k positive scores by score, then id; a negative top_k drops from the end |
| Bm25.SearchEqualsRebuild | src/ombench/memory/bm25.py:97-102 | two indexes over the same documents, one of them rebuilt, give the same list |
| Bm25Laws.CountIsMultiplicity | src/ombench/memory/bm25.py:45-47 | a term is counted as often as it occurs in the document |
| Bm25Laws.AverageOfEqualLengths | src/ombench/memory/bm25.py:66-69 | the average of equal lengths is that length |
| Bm25Laws.HolderScores | src/ombench/memory/bm25.py:81-95 | for a term of positive idf a holder scores above 0 and below idf * (k1 + 1), and any other document 0 |
| Bm25Laws.ScoreGrowsWithCount | src/ombench/memory/bm25.py:91-94 | of two documents of one length the one that holds the term more often scores more |
| Bm25Laws.ScoreShrinksWithLength | src/ombench/memory/bm25.py:93 | for positive b, of two that hold it equally often the longer scores less |
| Bm25Laws.ScoreWithoutLength | src/ombench/memory/bm25.py:93-94 | for b = 0 the score is idf * tf * (k1 + 1) / (tf + k1) |
| Bm25Laws.ScoreAdds | src/ombench/memory/bm25.py:88-95 | the score of a query is the sum of the scores of its parts, repetitions included |
| Bm25Laws.SearchFindsHolders | src/ombench/memory/bm25.py:97-102 | with room for all, a search for a term of positive idf returns exactly the documents that hold it |
| Bm25Laws.SearchOrder | src/ombench/memory/bm25.py:100-102 | hits are documents with positive scores, higher scores first, then smaller ids, and no more than asked for |
| TimeText.EnsureUtc | src/ombench/timeutil.py:40-48 | the UTC reading denotes the same instant |
| TimeText.FieldsOrderLikeMillis | src/ombench/timeutil.py:51-55 | the printed fields compare as the instants do at millisecond resolution, across months and leap years |
| TimeText.IsoOrderIsTimeOrder | src/ombench/timeutil.py:51-55 | text order is chronological order of instants cut to milliseconds, and texts are equal exactly when the instants share a millisecond (RFC 3339, section 5.1) |
| TimeText.FromIsoToIso | src/ombench/timeutil.py:51-73 | reading back what was written gives the instant cut to its millisecond |
| TimeLaws.MonthsBegin | src/ombench/timeutil.py:51-55 | from March on, months begin every 153 days in five |
| TimeLaws.CalendarRepeats | src/ombench/timeutil.py:51-55 | the calendar repeats every 400 years of 146097 days |
| TimeLaws.FebruaryEnds | src/ombench/timeutil.py:51-55 | 28 February and 1 March are one day apart, or two in a leap year |
| TimeLaws.InstantIsInjective | src/ombench/timeutil.py:40-48 | different readings are different instants |
| TimeLaws.OffsetIsAhead | src/ombench/timeutil.py:46-48 | a reading without an offset is UTC, and one with an offset of some hours is that many hours ahead of it |
| TimeLaws.IsoShape | src/ombench/timeutil.py:51-55 | the text is YYYY-MM-DDTHH:MM:SS.mmmZ with each field at its place (RFC 3339, section 5.6) |
| TimeLaws.NumbersAreDecimal | src/ombench/timeutil.py:55 | fields read as decimal numbers with leading zeros |
| EventLog.EventStore.Append | src/ombench/events/store.py:78-118 | a known id is a no-op; otherwise one row is added with the next number |
| EventLog.EventStore.AppendMany | src/ombench/events/store.py:120-128 | the batch is appended in order and the number of new rows is returned |
| EventLog.AppendsKeepLog | src/ombench/events/store.py:78-118 | over any appends the log only grows at its end, with unique ids and numbers 1..n |
| EventLog.FilterIsTimeFilter | src/ombench/events/store.py:172-177 | the text comparisons in the query decide the intended time comparisons |
| EventLog.SelectFacts | src/ombench/events/store.py:145-185 | a query gives exactly the matching rows, once each, by valid time and then number |
| EventLog.EntityState.ApplyRow | src/ombench/events/store.py:229-255 | the new state of the entity is the fold step of its old state |
| EventLog.EventStore.FoldAll | src/ombench/events/store.py:207-223 | the loop over a dictionary of mutable states computes the one-pass fold |
| EventLog.EventStore.Materialize | src/ombench/events/store.py:189-227 | the states at (T, tau), without the tombstoned ones unless asked for |
| EventLog.EventStore.MaterializeEntity | src/ombench/events/store.py:257-281 | the state of one entity at (T, tau), or nothing if it has no event by then |
| EventLog.FoldsAgree | src/ombench/events/store.py:207-281 | the all-entity map has a key exactly when the single-entity fold exists, with equal states, at every (T, tau) |
| EventLog.EventStore.SetCursor | src/ombench/events/store.py:285-304 | reading a cursor back gives what was last written, and no other stream notices |
| FoldMeaning.PayloadIsLastWriter | src/ombench/events/store.py:248-255 | a field holds the value of the last upsert-style event that carries it, and exists only if one does |
| FoldMeaning.EdgeIsLastWriter | src/ombench/events/store.py:239-247 | a target is live exactly when the last edge event of that kind and target is an upsert |
| FoldMeaning.KindIsEverAdded | src/ombench/events/store.py:239-247 | a kind has an entry, possibly empty, exactly when an edge of it was ever added |
| FoldMeaning.DeletedIsLastWriter | src/ombench/events/store.py:236-251 | the tombstone is set exactly when the last event that is not an edge event is a delete |
| FoldMeaning.CountersAreCounts | src/ombench/events/store.py:235-254 | version_count counts the appended versions, and the last event dates the state |
| EventMeaning.ExistsIfSeen | src/ombench/events/store.py:189-281 | with distinct event ids, an entity has a state at (T, tau) exactly when an event of it happened by T and was learned by tau |
| EventMeaning.VersionsAreCounted | src/ombench/events/store.py:93-254 | it has as many versions as such events are version events |
| EventMeaning.FieldIsLatest | src/ombench/events/store.py:93-255 | a field is there exactly when such an event wrote it, with the value of the latest, by time and then arrival |
| EventMeaning.EdgeIsLatest | src/ombench/events/store.py:93-247 | a target is live exactly when the latest such event that touched the pair added it |
| EventMeaning.TombstoneIsLatest | src/ombench/events/store.py:93-251 | it is deleted exactly when the latest such event that is no edge change deletes it |
| EventMeaning.StateIsDatedByLatest | src/ombench/events/store.py:93-235 | it is dated by the latest such event |
| Bitemporal.NoLeakage | src/ombench/events/store.py:172-223 | after any further appends of events past T or tau the state at (T, tau) is unchanged |
| Bitemporal.NoEntityLeakage | src/ombench/events/store.py:257-281 | the same for the single-entity fold |
| ArrivalOrder.CommuteIff | src/ombench/events/store.py:229-255 | two rows of one time can be folded in either order exactly when they do not write a field differently, delete and write, or add and remove one edge |
| ArrivalOrder.FoldOfTiedOrders | src/ombench/events/store.py:229-255 | lists of the same rows in time order whose ties do not conflict fold to the same state |
| ArrivalOrder.ArrivalOrderIsIrrelevant | src/ombench/events/store.py:93-223 | the same conflict-free events in any two orders, repetitions included, give equal state maps at every (T, tau), where events of one id are stored as one row |
| ArrivalOrder.ConflictShows | src/ombench/events/store.py:180 | whatever else happened, two conflicting events that arrive last leave different states, depending on which came first |
| ArrivalOrder.OrderNeverShowsIff | src/ombench/events/store.py:93-223 | the exact condition where events of one id are stored as one row: the order of arrival never shows if and only if no two events of one entity in one millisecond conflict |
| ArrivalOrder.IdsNameRowsIff | src/ombench/events/schema.py:110-121 | events of one id are stored as one row if and only if ids name changes and no change is learned in two different milliseconds |
| ArrivalOrder.PartsNeverShowIff | src/ombench/events/store.py:86-223 | the exact condition where ids name changes: the order of arrival never shows, in any part of the events, if and only if none conflict and no change is learned in two different milliseconds |
| ArrivalOrder.LearnedTwiceShows | src/ombench/events/store.py:86-87 | of a change learned twice, what is known between the two instants depends on which came first |
| CalendarSync.SourceIdsNameChanges | src/ombench/events/schema.py:110-121 | collision-free ids derived from identities name changes, over any two syncs |
| CalendarSync.AttendeesBecomeEdges | src/ombench/integrations/gcal/sync.py:122-133 | exactly the attendees with a usable address become edges, with their responses |
| CalendarSync.EmitIsConflictFree | src/ombench/integrations/gcal/sync.py:115-133 | the upsert of an event and its attendee edges are ties without a conflict |
| CalendarSync.StreamIsStable | src/ombench/events/schema.py:110-121 | the whole stream has the same identities whenever it is synced, as ingestion time is no part of identity |
| CalendarSync.ResumeNeverSkips | src/ombench/integrations/gcal/sync.py:87-100 | resuming from the token of a batch never skips past that batch |
| CalendarSync.StepHolds | src/ombench/integrations/gcal/sync.py:74-100 | every protocol step keeps: the log holds a prefix of the stream once each, and neither the cursor nor a run is ahead of it |
| CalendarSync.InterruptedSyncIsExactlyOnce | src/ombench/integrations/gcal/sync.py:74-100 | any interleaving of runs, appends, cursor writes, crashes and resyncs that ends by completing a run leaves the identities of one uninterrupted sync |
| CalendarSync.ResyncIsSilentIffDated | src/ombench/integrations/gcal/sync.py:105 | with collision-free ids, a full resync at a new instant adds nothing if and only if every event has an update time or a start |
| SyncHistories.ExactlyOnceIffDated | src/ombench/integrations/gcal/sync.py:74-105 | with collision-free ids, every history of the protocol leaves the log of one sync if and only if every event has an update time or a start |
| SyncHistories.GrowingSyncIsExactlyOnce | src/ombench/integrations/gcal/sync.py:74-100 | batches may be added between runs: a history that ends by completing a run leaves the identities of one sync of the final list, unless a batch bears a token stored while unknown |
| SyncHistories.NothingMasks | src/ombench/integrations/gcal/sync.py:87-100 | that cannot happen as long as no stored token is invalidated by another |
| SyncHistories.GrownRunIsExactlyOnceIff | src/ombench/integrations/gcal/sync.py:87-100 | the exact condition on one added batch: the next run completes the log if and only if the batch does not bear the stored unknown token, or nothing was missing |
| CalendarSync.FurtherRunIsSilentIff | src/ombench/integrations/gcal/sync.py:79-85 | in general it is silent exactly when the last token is not null and no batch after its first bearer emits anything |
| CalendarSync.CompletedRunEndsAtLastToken | src/ombench/integrations/gcal/sync.py:82-85 | a run from start to end that pulls anything leaves the last batch's token, from whatever state it started |
| CalendarSync.FurtherRunIsSilent | src/ombench/integrations/gcal/sync.py:79-85 | with distinct non-null tokens, after any history and a run from start to end, the next run has nothing to append and no token to write, and finishing it changes nothing |
| CalendarSync.GCalSync.Resume | src/ombench/integrations/gcal/sync.py:87-100 | the batch after the first that ends with the stored token, else the first |
| CalendarSync.GCalSync.ForceResync | src/ombench/integrations/gcal/sync.py:135-137 | clears this calendar's cursor and no other |
| CalendarSync.GCalSync.PullBatch | src/ombench/integrations/gcal/sync.py:82-85 | a batch's token is written only after its events are in the log |
| CalendarSync.GCalSync.RunSync | src/ombench/integrations/base.py:103-118 | a completed run is a run of the protocol, appends what the remaining batches emit, and counts emitted and new events |
| SyncedState.ConfirmedEventIsShown | src/ombench/integrations/gcal/sync.py:102-133 | after a sync into an empty log a confirmed event listed once is not deleted, has its content and the calendar id as payload and exactly its usable addresses as attendees, and is dated by its update or else its start |
| SyncedState.CancelledEventIsTombstone | src/ombench/integrations/gcal/sync.py:105-112 | a cancelled one is deleted, without payload or edges, and dated the same way |
| SyncedState.FirstRunIsSynced | src/ombench/integrations/gcal/sync.py:74-85 | a first run into an empty log leaves that log |
| SyncedState.HistoryShowsOneSync | src/ombench/integrations/gcal/sync.py:74-100 | after any history that ends by completing a run, of a dated source, every entity at every T is as that one sync leaves it |
| Snapshots.SnapshotMaterializer.Materialize | src/ombench/snapshots/materialize.py:38-95 | the manifest lists each entity of the state at (T, tau), or at present, once, in key order, with its hash and tombstone, their root and its id; what is persisted loads again, and other snapshots as before |
| Snapshots.SnapshotMaterializer.Persist | src/ombench/snapshots/materialize.py:97-127 | storing a snapshot makes its state and its manifest loadable and leaves every other one as it was |
| Snapshots.SnapshotMaterializer.LoadState | src/ombench/snapshots/materialize.py:131-139 | the stored state of a snapshot; nothing stored reads as the empty state |
| Snapshots.SnapshotMaterializer.GetManifest | src/ombench/snapshots/materialize.py:141-149 | the stored manifest of a snapshot, if there is one |
| Snapshots.SameIdSameState | src/ombench/snapshots/manifest.py:42-50 | with collision-free hashing two snapshots of one id have the same coordinates, entities and stored state |
| Snapshots.VersionsAreUnique | src/ombench/snapshots/materialize.py:62-81 | the state determines the entity list |
| Snapshots.RootsAgreeIff | src/ombench/snapshots/manifest.py:57-83 | with collision-free hashing two roots are equal exactly when keys, payloads, edges and tombstones are |
| Snapshots.SnapshotsDoNotLeak | src/ombench/snapshots/materialize.py:53-95 | a snapshot taken again at (T, tau) after later events arrived is the same snapshot |
| Snapshots.EntitiesAreOrdered | src/ombench/snapshots/materialize.py:64 | entities come by application, then type, then id, in text order |
| Snapshots.RootIgnoresOrder | src/ombench/snapshots/manifest.py:57-66 | the root does not depend on the order in which hashes come |
| SnapshotDiff.DiffSnapshots | src/ombench/snapshots/diff.py:40-73 | the report lists added, removed and changed live keys in text order and counts the unchanged |
| SnapshotDiff.DiffPartitions | src/ombench/snapshots/diff.py:59-68 | every live key of either side is in exactly one class, and the numbers add up |
| SnapshotDiff.EmptyIff | src/ombench/snapshots/diff.py:25-27 | the diff is empty exactly when the live maps agree |
| SnapshotDiff.SwapSwaps | src/ombench/snapshots/diff.py:40-73 | swapping the arguments swaps added and removed and changes nothing else |
| SnapshotDiff.EqualRootsEmptyDiff | src/ombench/snapshots/diff.py:40-73 | equal roots give an empty diff |
| SnapshotDiff.JoinIsInjective | src/ombench/snapshots/diff.py:36-37 | where no type in use extends another after a slash, joined keys name entities, even where ids hold slashes |
| SnapshotDiff.JoinIsInjectiveIff | src/ombench/snapshots/diff.py:36-37 | the exact condition on the types: joined keys name entities for all ids if and only if no type is another one followed by a slash and more |
| SnapshotDiff.LiveMapOfState | src/ombench/snapshots/diff.py:48-53 | under that condition the live map holds the version hash of each live entity and nothing else |
| SnapshotDiff.StoredStateIsComplete | src/ombench/snapshots/materialize.py:76-81 | where no type in use extends another after a slash, the stored state loses no entity |
| SnapshotDiff.DiffNamesEntities | src/ombench/snapshots/diff.py:43-46 | added and removed are the entities live on one side only, changed those live on both with other content |
| Transactions.NestedIsPlain | src/ombench/storage/postgres_backend.py:104-119 | inside a transaction every block is transparent |
| Transactions.StaysSynced | src/ombench/storage/postgres_backend.py:105-119 | the depth is positive exactly while a transaction is open |
| Transactions.BackendsAgree | src/ombench/storage/sqlite_backend.py:98-116 | for every program both backends reach the same database, open transaction and outcome |
| Transactions.OutermostIsAllOrNothing | src/ombench/storage/postgres_backend.py:97-119 | the outermost block keeps every surviving statement, or restores its BEGIN state when an Exception leaves it |
| Transactions.OutermostIsDurable | src/ombench/storage/postgres_backend.py:97-119 | all of the block or none of it is durable, however it ended |
| Transactions.InterruptWedges | src/ombench/storage/postgres_backend.py:112-115 | once an interrupt has left a transaction open, nothing that follows becomes durable |
| Transactions.AppendManyIsAtomic | src/ombench/events/store.py:120-128 | as the outermost block append_many adds all its events, or leaves the log unchanged if an Exception is raised, or makes nothing durable if interrupted |
| Transactions.NestedAppendManyKeepsPart | src/ombench/events/store.py:120-128 | inside a caller's transaction what it added stays, however it ends |
| Transactions.AppendManyIsSilentIff | src/ombench/events/store.py:120-128 | however it ends, the log reads the same afterwards if and only if an Exception left the outermost block, or all its events were in the log already |
| Transactions.PostgresBackend.Transaction | src/ombench/storage/postgres_backend.py:97-119 | the block with its depth counter, on each way out |
| Transactions.SQLiteBackend.Transaction | src/ombench/storage/sqlite_backend.py:98-116 | the block with its in-transaction flag, on each way out |
| Stats.MidRanks | src/ombench/eval/stats.py:128-139 | the nested loop gives each entry the number of smaller absolute values plus half of one more than the number of equal ones |
| Stats.RanksAddUp | src/ombench/eval/stats.py:128-139 | all midranks add up to n(n+1)/2, ties or not |
| Stats.RankSumsAddUp | src/ombench/eval/stats.py:140-144 | w_plus + w_minus is n(n+1)/2 exactly when no delta is zero, and the statistic is at most n(n+1)/4 |
| Stats.StatisticOfPermutation | src/ombench/eval/stats.py:125-142 | permuting the deltas changes neither rank sum |
| Stats.NegationSwaps | src/ombench/eval/stats.py:140-142 | negating the deltas swaps the rank sums and keeps the statistic |
| Stats.WilcoxonStatistic | src/ombench/eval/stats.py:125-142 | sorting first does not matter: the statistic is that of the deltas as given |
| Stats.WilcoxonSignedRank | src/ombench/eval/stats.py:106-122 | zero differences are dropped; nothing left is degenerate, otherwise the library's answer or the rank statistic, at most n(n+1)/4 |
| Stats.RanksFollowSize | src/ombench/eval/stats.py:128-139 | an entry of smaller absolute value has the smaller rank |
| Stats.StatisticIsSmaller | src/ombench/eval/stats.py:142 | the statistic is the smaller of the two rank sums, neither of which is negative |
| Stats.StatisticIsZeroIff | src/ombench/eval/stats.py:140-142 | without zero deltas it is 0 exactly when all have one sign |
| Stats.OnlyZerosDropped | src/ombench/eval/stats.py:113 | zeros are dropped, and every other value stays as often as it was |
| Bootstrap.LCG.RandInt | src/ombench/eval/stats.py:45-57 | the masked step of the generator, and an index within bounds |
| Bootstrap.QuantileIsMonotone | src/ombench/eval/stats.py:31-42 | interpolated percentiles of a sorted list grow with the quantile |
| Bootstrap.BootstrapMeanCI | src/ombench/eval/stats.py:60-89 | the interval is a function of values, level, iterations and seed, at every level; too extreme a level raises IndexError |
| Bootstrap.IntervalRaisesIff | src/ombench/eval/stats.py:37-42 | exactly when: a percentile lies so far below the list that counting from its end does not reach it |
| Bootstrap.NegativeLevelSwaps | src/ombench/eval/stats.py:83-89 | a negative level gives the ends of the positive one, swapped |
| Bootstrap.IntervalIsOrdered | src/ombench/eval/stats.py:60-89 | whatever the seed, low is at most high, and both and the estimate lie within the range of the values |
| Bootstrap.IntervalsNest | src/ombench/eval/stats.py:83-89 | a higher level never gives a narrower interval |
| BootstrapLaws.StepIsInvertible | src/ombench/eval/stats.py:56 | a step of the generator can be undone, so no two states lead to one |
| BootstrapLaws.ParityAlternates | src/ombench/eval/stats.py:56 | the lowest bit of its state alternates |
| BootstrapLaws.HalfTheDrawsAreEven | src/ombench/eval/stats.py:55-80 | of an even number of values every two draws take one even and one odd place |
| BootstrapLaws.TwoValuesCollapse | src/ombench/eval/stats.py:60-89 | the interval of two values is always the point at their mean |
| BootstrapLaws.QuantileAtPlace | src/ombench/eval/stats.py:37-42 | between two places a percentile goes from one value to the next in proportion |
| BootstrapLaws.ExtremeLevels | src/ombench/eval/stats.py:82-89 | at level 1 the interval spans all resampled means, at level 0 it is their middle |
| BootstrapLaws.SeedsRepeat | src/ombench/eval/stats.py:53-56 | seeds that agree in 31 bits give the same interval |

## Left out

- TimeText.FromIsoToIso: reading is modelled for the canonical shape that writing produces, not for the other shapes, whitespace and offsets that `from_iso` accepts.
- TimeText.IsoOrderIsTimeOrder: stated for years 1000 to 9999, because the printed width of earlier years depends on the platform; the event log keeps its times in that range.
- Cohen's kappa, the win rate and the normal distribution: one-liners and floating-point analysis.
- EventLog.EventStore.AppendMany: the transaction around the batch is modelled in `Transactions`, the row-by-row loop here.
- Compiler.KnowledgeCompiler.Compile: takes the extracted candidates as its input; extraction, evidence records and the knowledge-base files are not part of this model.
- Bm25.BM25Index.Search: works on token lists; tokenisation is a regular expression.
- Snapshots.SnapshotMaterializer.Persist: the manifest row's id and manifest hash; its other columns repeat the manifest, and the listing of snapshots is one query.
- Postgres's state after a failing SQL statement, autocommit modes, WAL, migrations and the blob files on disk.
- Actor, parent, cursor and provenance columns of an event, which the fold does not read.
- The live Calendar client, and the Slack, Docs, Drive and Gmail integrations.
- The single-item and by-subject reads of the memory store, evidence and the subject index: one query each.
- The retriever's packing and fusion, fault injection, the time-travel view, sandboxes, validators, the approval queue: claims settled by reading one branch.
- Embeddings, the learned router and the usefulness predictor: floating-point models.

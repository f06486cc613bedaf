# effaced: a verified model of the erasure engine

This project models the core of `packages/effaced` (a GDPR erasure library for relational
applications) in Dafny and proves what its docstrings promise. It has four parts.

* **The saga**: the outbox table and its transactions (`OutboxStore`), the runner that books resolver
  outcomes (`Runner`), the retry schedule (`Backoff`), the two reference resolvers (`Resolvers`), and
  a step relation over rows, trail, clock, claims and external systems (`SagaProtocol`) in which any
  number of runners interleave with crashes, expired leases, late enqueues, horizons and requeues.
  What holds in every run is in `SagaProtocol`; what needs runners to settle within their lease is in
  `SagaLeases`, and what can still become of an entry then in `SagaProgress`; `SagaRuns` shows that the
  runner's code stays inside the protocol and gives the runs its comments rule out, `SagaOverruns` when
  a success can be taken back, and `SagaAnswers` that every booked row stands as a resolver's own answer
  demands. `RowLocks` is the wait-for relation of the row locks, `Routing` the way
  from an erasure's references to outbox entries, and `ExternalErasure` joins a completed erasure to the saga.
* **The local erasure**: data maps and graphs (`Manifest`), their resolution from foreign keys and
  from mappers, with the linter (`Resolution`, `Reachability`, `LintReports`, `HopDirection`), deletion order
  (`Ordering`), the subject predicate (`Scoping`), the plan (`Planning`), the store and the statements
  (`Store`, `Executor`), the run of the plan on the changing database (`Erasure`, `ErasureRun`) and the
  order it needs (`SnapshotOrder`, over the store of `UniformStore`), the whole of `erase_subject` with
  its external work (`SubjectErasure`, with the totals it reports in `Totals`), what retention keeps (`Retained`), the read-back (`Verifier`) and
  the erasure after it (`Reruns`), what the metadata and the data map settle beforehand (`Declared`,
  `Dangling`) and the retention sweep's join (`Sweeper`).
* **The audit chain**: the sink and the verifier's walk (`AuditChain`).
* **Identity and replay**: canonical identifiers (`Identity`, `StoredStrings`), the plan derived from a surviving
  trail (`ReplayPlan`) and its execution (`Replayer`, `Nesting`).

`dafny verify dfyconfig.toml` checks the whole project.

## What the proofs found

* With one declared key column, a composite identifier holding a reserved character is stored under a
  string that a later operation reads as a different subject; with several columns this cannot happen
  (`Identity.StoredKeyScopesAlike`, `Identity.SingleColumnCollision`).
* A data map is not required to list a table once. Listed twice, a table with a RETAIN column can be
  planned for row deletion (`Planning.RepeatedEntryDeletesRetained`). A RETAIN cell survives every erasure
  if and only if no entry of its table offers the rows for deletion and the table's first entry says
  nothing else of its column (`Retained.RetainedSurvivesExactly`).
* The linter is documented as the exact inverse of resolution. It is silent on a map resolution refuses
  when the subject is listed twice and when a path takes an inherited relationship
  (`Reachability.RepeatedSubjectEscapesLint`, `Reachability.InheritedRelationshipEscapesLint`). It is the
  inverse if and only if in every map it passes all entries of the subject's name resolve and every
  path's relationships start where the ones before them ended (`Reachability.LintGapIsExact`).
* `claim_batch` documents that an entry crashing its runner every time converges to abandonment. It has
  no ceiling, so it does not (`SagaRuns.CrashLoopIsEndless`); exactly the claims after a crash that had
  spent the budget pass it (`SagaRuns.CeilingIsPassedByCrashesOnly`), and the true bound has a term for
  crashed claims (`SagaLeases.StepBudgeted`). `max_attempts` is not validated, hence the `max(1, ...)`.
* The `mark_*` updates match on the entry id alone, so a succeeded row need not stay succeeded when a
  runner overruns its lease (`SagaRuns.OverrunReopens`). It can be taken back if and only if a claim on it
  is outstanding that is unanswered or about to book something else (`SagaOverruns.ReopenableExactly`).
* Mapper-based resolution accepts relationships that lead from a parent table to its child. The deletion
  order then removes the child first and the parent's rows in the subject's scope survive the erasure,
  unnoticed by the read-back, whose path is gone too (`HopDirection.HopAgainstKeyMissesRows`). Erasing step
  by step equals erasing the initial scope if and only if every table that loses rows comes at or after
  the tables whose chains pass through it (`SnapshotOrder.SnapshotOrderIsExact`).
* A replay plan rests on completion events, which commit apart from the erasure. A subject is replayed
  exactly when some attempt on it completed at or after the backup, which is not the same as having lost
  an erasure when attempts straddle the backup or roll back (`Replayer.ReplayedExactly`).
* A retention sweep reports a row whose key is NULL under the text `None` (`Sweeper.NullKeyIsMisreported`).
  All its counts are right if and only if no matched row has a NULL in its key
  (`Sweeper.CountsAreRightExactly`).
* An abandoned erasure can be requeued; an abandoned rectification is the one state from which an entry
  can never succeed (`SagaProgress.OnlyAbandonedRectificationsAreLost`).

## Conditions the theorems carry

* Order and snapshot theorems need a coherent graph that deletes in order, as foreign-key resolution
  yields when every table on a path is in the data map, and no anonymised column that is a join,
  subject-id or primary-key column (`Erasure.Orderly`).
* Referential integrity needs every foreign key into a row-deleted table to be the child's first hop and
  the rest of the child's path to be the parent's own (`ErasureRun.KeysOnPath`). Both this and the line
  above are brought back to the metadata and the data map in `Declared.SoundlyDeclared`.
* Rows of row-deleted tables are gone after a replay, and not merely out of reach, when the paths nest:
  wherever a path reaches a table that loses rows it goes on as that table's own (`Replayer.PathsNest`).
  Soundly declared keys see to that (`Nesting.KeyPathsNest`); where paths part, a row can outlast the
  replay (`Nesting.PartingPathsLeaveRows`).
* The hash is one injective function of event content and prior hash (`AuditChain.CollisionFree`).
* External systems meet the resolver contract and nothing recreates erased data (`SagaProtocol.Contract`);
  both reference resolvers are proved to meet it.
* The protocol keeps a ledger beside the state: for each claim when it was taken and which place of the
  trail it wrote. No step reads it; it is what makes "its own event" sayable, since of the stored events
  only the requeue's carries the entry id.

## Model

| member | source | states |
|---|---|---|
| `Identity.EscapeIsOnePass` | packages/effaced/src/effaced/annotations/subject_identifier.py:37-43 | The two successive replace passes never re-escape what the first one wrote: they equal one escaping pass, for every string. |
| `Identity.ParseCanonical` | packages/effaced/src/effaced/annotations/subject_identifier.py:151-182 | The character loop returns the key whose canonical string was parsed, for every valid composite key, and refuses exactly the strings with an empty element. |
| `Identity.RoundTrip` | packages/effaced/src/effaced/annotations/subject_identifier.py:46-70 | Parsing the canonical string of any composite key, whatever characters its elements hold, gives the key back. |
| `Identity.CompositeInjective` | packages/effaced/src/effaced/annotations/subject_identifier.py:46-70 | Composite keys of any arities share a canonical string only if they are equal. |
| `Identity.StoredKeyScopesAlike` | packages/effaced/src/effaced/adapters/sqlalchemy/scoping.py:120-159 | An operation reading the stored string scopes by the same key as the one that wrote it if and only if the key has several columns or its one value holds neither reserved character. |
| `Identity.SharedStringSharesKey` | packages/effaced/src/effaced/adapters/sqlalchemy/scoping.py:144-159 | With several declared columns, two accepted identifiers recorded under one string name one key. |
| `Identity.SingleColumnCollision` | packages/effaced/src/effaced/annotations/subject_identifier.py:46-70 | With one declared column a bare string and a one-element composite can share a stored string and still name different subjects (a concrete pair). |
| `Identity.SingleColumnAgreement` | packages/effaced/src/effaced/annotations/subject_identifier.py:46-70 | Such a pair names the same subject if and only if the composite's element is free of reserved characters. |
| `StoredStrings.StringsReadAsRuns` | packages/effaced/src/effaced/annotations/subject_identifier.py:151-182 | Any string at all, canonical or not, reads as the runs of characters between its unescaped separators; an escape makes the next character literal, whatever it is, and a last escape with nothing after it is dropped. |
| `StoredStrings.ScopedKeyIsOwn` | packages/effaced/src/effaced/adapters/sqlalchemy/scoping.py:120-159 | A key that is scoped by has the declared arity and is the identifier's own: a composite's elements, the bare string of a single column, or what the stored string of several parses to; malformed exactly when such a string has an empty element. |
| `Ordering.FkSafeDeletionOrder` | packages/effaced/src/effaced/manifest/resolution/ordering.py:14-54 | Returns every table once with every child before its parent; an edge to an unknown table is refused; for known tables it fails exactly when the edges between different tables contain a cycle. |
| `Ordering.OrderExcludesCycle` | packages/effaced/src/effaced/manifest/resolution/ordering.py:39-54 | A children-first order rules out a cycle. |
| `Ordering.StuckMeansCycle` | packages/effaced/src/effaced/manifest/resolution/ordering.py:50-54 | When no remaining table can go next there is a cycle of foreign keys among them (found by a walk longer than the table list). |
| `Manifest.ChainIsContiguous` | packages/effaced/src/effaced/manifest/resolution/table_access_plan.py:32-44 | The validator loop accepts exactly the hop lists that start at the table and link end to end. |
| `Resolution.FkEdges` | packages/effaced/src/effaced/adapters/sqlalchemy/resolution.py:259-267 | The edges are exactly the child-parent pairs of foreign keys between graph tables. |
| `Resolution.ResolvePathFk` | packages/effaced/src/effaced/adapters/sqlalchemy/resolution.py:358-428 | The walk yields hops exactly when every segment is mounted and the target of exactly one key of the table before, ending at the subject; the hops then follow those keys, and otherwise the reason given is that of the first check that fails, naming the first segment that cannot be walked. |
| `Resolution.ResolveFromFk` | packages/effaced/src/effaced/adapters/sqlalchemy/resolution.py:270-325 | Succeeds exactly on the data maps with one anchored subject, its key columns present, resolvable paths and no key cycle, and otherwise gives the reason of the first check that fails, at the first entry it fails for; the graph is coherent, over the anchor's table and key columns, each access is its own entry's, hops follow keys, accesses are in deletion order, and with distinct names it deletes rows of exactly the tables whose entries declare the whole row. |
| `Resolution.DeletedRowsHoldNothingElse` | packages/effaced/src/effaced/adapters/sqlalchemy/resolution.py:340-355 | In a resolved graph a row-deleted table has no column but annotated DELETE columns and key members, so deleting its rows erases no more than the manifest declares. |
| `Resolution.RowsGoWhenDeclared` | packages/effaced/src/effaced/adapters/sqlalchemy/resolution.py:340-355 | With distinct names a resolved graph loses a table's rows if and only if every annotated column of it is DELETE and every physical column is annotated or a member of the primary key or of a foreign key. |
| `Resolution.ResolvedIsWellOrdered` | packages/effaced/src/effaced/adapters/sqlalchemy/resolution.py:308-325 | For hop-closed graphs that follow foreign keys every table a chain passes through has its access at or after the chain's own, over chains of any length, and the subject comes last; so whatever the manifest, it deletes in order. |
| `Reachability.ResolvePath` | packages/effaced/src/effaced/adapters/sqlalchemy/resolution.py:174-207 | The loop over a registry of mappers, whose relationships may lead back and forth, computes the walk of the dotted path and its first refusal. |
| `Reachability.WalkTakesRelationships` | packages/effaced/src/effaced/adapters/sqlalchemy/resolution.py:210-256 | A walk takes direct joins of plain tables over column pairs one after another, each becoming the hop with exactly its tables and pairs, and it stops at the first segment that is not one, naming it. |
| `Reachability.PathOfFails` | packages/effaced/src/effaced/adapters/sqlalchemy/resolution.py:174-207 | The reason a path is refused is that of the first check that fails: no link, stray id columns, no mapper, the walk's own, or the wrong end. |
| `Reachability.ResolveSubjectGraph` | packages/effaced/src/effaced/adapters/sqlalchemy/resolution.py:33-81 | The mapper-based resolution succeeds exactly on the resolvable data maps and otherwise gives the reason of the first check that fails, at the first entry it fails for; the graph is coherent, over the anchor's table and key columns, with one access per declared name, each from an entry's own path, in deletion order, and with distinct names it deletes rows of exactly the tables whose entries declare the whole row. |
| `Reachability.RowsGoWhenDeclared` | packages/effaced/src/effaced/adapters/sqlalchemy/resolution.py:141-171 | The same equivalence for mapper-based resolution, over the table of the entry's mapper. |
| `Reachability.LintReachability` | packages/effaced/src/effaced/adapters/sqlalchemy/reachability_linter.py:21-73 | Returns exactly the findings of the independent definition: a wrong number of anchors, the anchor's own gap, each unreachable table in manifest order with the reason its path is refused, and the cycle; none exactly on clean data maps. |
| `LintReports.FindingsAreGaps` | packages/effaced/src/effaced/adapters/sqlalchemy/reachability_linter.py:76-148 | The findings are exactly the gaps: the missing anchor, every anchor after the first, the anchor's own failure, each other table whose path fails with its reason, and the cycle among what is reached. |
| `LintReports.RaisedIsFound` | packages/effaced/src/effaced/adapters/sqlalchemy/reachability_linter.py:21-73 | Whatever reason resolution raises is among the linter's findings, on maps whose paths walk on and whose entries of the subject's name resolve. |
| `Reachability.LintGapIsExact` | packages/effaced/src/effaced/adapters/sqlalchemy/reachability_linter.py:32-64 | For any mappers resolution never succeeds where the linter finds a gap, and the two are exact inverses if and only if in a map the linter passes every entry of the subject's name resolves and every declared path takes relationships that each start where the one before ended. |
| `Reachability.LintIsInverse` | packages/effaced/src/effaced/adapters/sqlalchemy/reachability_linter.py:32-37 | With the subject listed once the linter is the documented inverse if and only if the declared paths of a map it passes walk on in that way, whatever else the mappers inherit; other tables may be listed repeatedly. |
| `Reachability.WalkIsContiguous` | packages/effaced/src/effaced/adapters/sqlalchemy/resolution.py:174-207 | The hops of a walked path, of any length, link end to end exactly when its relationships do. |
| `Reachability.InheritingNothingPathsWalkOn` | packages/effaced/src/effaced/adapters/sqlalchemy/resolution.py:174-207 | Where no mapper has a relationship from or to another table than its own, every path does. |
| `Reachability.RepeatedSubjectEscapesLint` | packages/effaced/src/effaced/adapters/sqlalchemy/reachability_linter.py:62-64 | Listing the subject table twice breaks the documented inverse: the linter finds nothing, resolution refuses (a concrete map). |
| `Reachability.InheritedRelationshipEscapesLint` | packages/effaced/src/effaced/adapters/sqlalchemy/resolution.py:174-207 | A path that takes an inherited relationship escapes it too, every table listed once: it is walked, but the hop starts at the parent's table and the access validator refuses it (concrete mappers). |
| `HopDirection.ResolutionYieldsThisGraph` | packages/effaced/src/effaced/adapters/sqlalchemy/resolution.py:33-81 | Mapper resolution accepts the data map whose one path follows a relationship against its key, and can return no other graph than the one below. |
| `HopDirection.HopAgainstKeyMissesRows` | packages/effaced/src/effaced/adapters/sqlalchemy/resolution.py:234-256 | On what mapper resolution yields there, the accepted plan's first delete leaves the second nothing to find, so rows in scope survive (concrete mappers, schema and store). |
| `Scoping.SubjectScope` | packages/effaced/src/effaced/adapters/sqlalchemy/scoping.py:48-99 | The loop over reversed hops builds the nested predicate of the chain read outwards, for any length; malformed keys and unknown tables are refused. |
| `Scoping.ScopeIsChain` | packages/effaced/src/effaced/adapters/sqlalchemy/scoping.py:84-99 | The nested IN holds of a row exactly when a chain of joined rows, NULLs and self-references included, leads from it to the subject's key. |
| `Scoping.ChainIsUnique` | packages/effaced/src/effaced/adapters/sqlalchemy/scoping.py:84-99 | Over unique hop targets a row has at most one such chain. |
| `Scoping.ScopesAreDisjoint` | packages/effaced/src/effaced/adapters/sqlalchemy/scoping.py:102-117 | Over unique hop targets no row is in the scopes of two different keys, even when composite keys share elements. |
| `Planning.MakePlan` | packages/effaced/src/effaced/erasure/planner.py:389-461 | A plan is made exactly for the manifests that agree with the graph and have no surviving table behind a deleted one; a refusal names the first conflicting entry's table and the first deleted table on its path, as a retention violation exactly when the entry retains a column. |
| `Planning.PlanIsStaged` | packages/effaced/src/effaced/erasure/planner.py:389-425 | The steps come table by table in deletion order, a table's rewrite before its retain. |
| `Erasure.StepsAreCalledFor` | packages/effaced/src/effaced/erasure/planner.py:399-425 | Every step is one its table calls for: a delete of a table that loses rows, or for a survivor the rewrite of exactly the annotated columns that are not RETAIN and the retention of exactly those that are. |
| `Erasure.PlanIsComplete` | packages/effaced/src/effaced/erasure/planner.py:389-425 | And none is missing: each table that loses rows has its delete, each survivor a rewrite exactly when a column of it calls for one and a retain exactly when a column is RETAIN. |
| `Planning.RetainedIsUntouched` | packages/effaced/src/effaced/erasure/planner.py:399-425 | A RETAIN column's table loses no row and the column is not rewritten if and only if the manifest guards it: no entry of the table offers a fully owned row for deletion, and its first entry says nothing else of the column. |
| `Planning.CollectedIsGuarded` | packages/effaced/src/effaced/erasure/planner.py:399-425 | Collecting each table and each column once, as schema collection does, guards every RETAIN column. |
| `Planning.RepeatedEntryDeletesRetained` | packages/effaced/src/effaced/erasure/planner.py:391-396 | A manifest listing a table twice loses that guarantee: an accepted plan deletes rows of a RETAIN column (a concrete manifest). |
| `Executor.Anonymize` | packages/effaced/src/effaced/adapters/sqlalchemy/erasure_executor.py:97-123 | The per-row loop of updates by primary key rewrites exactly the rows selected at the start, in exactly the listed columns, even though each update changes the database the next one runs on; every rewritten cell gets a call of its own, so a supply that never repeats makes all of them different. |
| `Executor.Execute` | packages/effaced/src/effaced/adapters/sqlalchemy/erasure_executor.py:55-95 | The effect and count of one step on the subject's rows, and when it fails: no primary key, bad identifier, unknown table, or a refused statement. |
| `Executor.SameKeysKeepConsistent` | packages/effaced/src/effaced/adapters/sqlalchemy/erasure_executor.py:97-123 | Rewriting columns outside every key keeps all primary and foreign keys satisfied. |
| `Store.Session.Delete` | packages/effaced/src/effaced/adapters/sqlalchemy/erasure_executor.py:125-129 | A delete removes exactly the matching rows, or is refused and changes nothing when it would leave a dangling reference. |
| `Store.Session.UpdateByKey` | packages/effaced/src/effaced/adapters/sqlalchemy/erasure_executor.py:114-122 | An update sets the values on exactly the rows with that key, or is refused and changes nothing. |
| `Erasure.ScopeShrinks` | packages/effaced/src/effaced/adapters/sqlalchemy/scoping.py:84-99 | Deleting rows and rewriting non-join columns never adds a row to any scope, along chains of any length. |
| `Erasure.StepSelectsInitialScope` | packages/effaced/src/effaced/erasure/planner.py:277-302 | When a step runs on the database earlier steps have changed, it selects exactly the rows that were in scope before the erasure began, on every manifest that deletes in order. |
| `Erasure.StepAdvances` | packages/effaced/src/effaced/erasure/planner.py:277-302 | One executed step takes the outcome of the first k steps on the initial scope to that of the first k+1. |
| `Erasure.CompleteIsErased` | packages/effaced/src/effaced/erasure/planner.py:277-302 | After the whole plan exactly the initial scope is deleted or rewritten as the manifest says, and every other row and cell is untouched. |
| `SnapshotOrder.SnapshotOrderIsExact` | packages/effaced/src/effaced/manifest/resolution/ordering.py:39-50 | Running the plan step by step erases the initial scope, for every subject and every database, if and only if every table that loses rows is placed at or after the tables whose chains pass through it. |
| `SnapshotOrder.OutOfOrderFails` | packages/effaced/src/effaced/erasure/planner.py:277-302 | Where it is not, no run of the plan erases the subject from the database that has everything in one subject's scope. |
| `ErasureRun.EveryStepKeepsConsistent` | packages/effaced/src/effaced/erasure/planner.py:389-461 | From a consistent database every prefix of an accepted plan leaves no dangling reference, when foreign keys into deleted tables lie on the child's own path. |
| `ErasureRun.ChildDeletedFirst` | packages/effaced/src/effaced/manifest/resolution/ordering.py:39-50 | A parent loses rows only after its child has. |
| `ErasureRun.RunLocalSteps` | packages/effaced/src/effaced/erasure/planner.py:277-302 | The audited loop against a sink that may refuse any append: one success event per step, a step whose success is refused is recorded as failed like one that failed, and the run stops there; a finished run has the snapshot effect, counts and events, and no step can fail under the stated schema conditions. |
| `SubjectErasure.EraseSubject` | packages/effaced/src/effaced/erasure/planner.py:141-386 | A conflicting manifest and a reference no resolver takes are refused before any event or change; otherwise request, steps, one insert of the external work and completion follow in that order, a failed insert or a refused event ends the attempt, the outbox gets all of the work or none, and a completed erasure on an orderly manifest has rows and returned counts of the subject's scope before it began, and its completion event totals the sizes of the sets of (table, row) pairs deleted, rewritten and retained. |
| `SubjectErasure.TotalIsSize` | packages/effaced/src/effaced/erasure/planner.py:238-250 | Adding one strategy's counts up along a plan gives the number of (table, row) pairs of the subject in the tables with such a step: no row is missed or counted twice. |
| `SubjectErasure.CompletedIsPending` | packages/effaced/src/effaced/erasure/planner.py:355-386 | A completed erasure stores each routed reference's entry as a row of its own, names exactly the resolvers that got one, and touches no other row. |
| `SubjectErasure.CompletedReachesEverySystem` | packages/effaced/src/effaced/saga/runner.py:289-295 | In every run that goes on from the outbox a completed erasure left, when ERASURE_COMPLETED is appended for the subject no system holds any of its references. |
| `ExternalErasure.CompletedIsQueued` | packages/effaced/src/effaced/erasure/planner.py:355-386 | Every row a completed erasure inserts can be claimed at once, and the insert is a run of enabled enqueue steps from wherever the saga stands. |
| `ExternalErasure.ErasureCanFinish` | packages/effaced/src/effaced/saga/outbox.py:105-111 | From wherever the saga stands when an erasure completes, some honoured run goes on from its outbox to a state where no system holds any of the subject's references and, if there were any, the completion of this very erasure is in the trail. |
| `Verifier.VerifySubjectErased` | packages/effaced/src/effaced/adapters/sqlalchemy/erasure_verifier.py:86-179 | Clean exactly when no deleted table holds a row in scope; residual and surviving counts cover exactly the planned tables and are the scopes' sizes; the one event recorded totals the sizes of the sets of (table, row) pairs left and surviving and names exactly the deleted tables that still hold rows, or the sink refused it, and no row changes. |
| `Verifier.ScopesAfterErasure` | packages/effaced/src/effaced/erasure/planner.py:428-461 | After an accepted plan deleted tables have an empty scope and every surviving table exactly the scope it had: accepted plans keep survivors' chains whole. |
| `Verifier.EraseVerifyErase` | packages/effaced/src/effaced/erasure/planner.py:180-186 | After an erasure the read-back is clean with the counts of the initial scopes, and a second erasure deletes nothing and selects the same surviving rows. |
| `Reruns.EraseTwice` | packages/effaced/src/effaced/erasure/planner.py:180-186 | Erase, verify, erase again in one call: the verdict is clean, row-deleted tables report zero the second time, every surviving table is reported as the first time and as the read-back counts it, and both calls' external work is pending under keys of its own. |
| `Verifier.OtherSubjectsUntouched` | packages/effaced/src/effaced/erasure/planner.py:141-258 | Over unique hop targets every row of every other subject survives an erasure cell for cell. |
| `Declared.SoundIsUnfailing` | packages/effaced/src/effaced/erasure/planner.py:389-461 | For a planned graph resolved over foreign keys, the schema conditions under which no local step fails hold if and only if the declarations are sound: no overwritten column belongs to a key, rows to overwrite are addressable, and whatever refers to a row-deleted table is declared with a path through it. |
| `Declared.OnPathIsDeclared` | packages/effaced/src/effaced/adapters/sqlalchemy/resolution.py:358-428 | A referring table's resolved chain is its key followed by the parent's chain exactly when its declared path is the parent's name followed by the parent's path. |
| `Dangling.ReferrersExactly` | packages/effaced/src/effaced/erasure/planner.py:389-461 | That every referrer of a row-deleted table be declared with its path through it holds if and only if no consistent store makes the erasure end inconsistent, where referrers that lose rows themselves are on such a path. |
| `Dangling.SurvivingReferrerRefutes` | packages/effaced/src/effaced/adapters/sqlalchemy/erasure_executor.py:125-129 | A table that survives, or is not declared, and refers to a row-deleted one always makes some consistent store and subject impossible to erase. |
| `Declared.EraseDeclared` | packages/effaced/src/effaced/erasure/planner.py:141-258 | Resolve, plan and erase in one call: a sound data map is erased faithfully on any consistent database, and only a refused audit event, an unmatched reference or a used key can stop it; without a primary key on every table with overwritten columns it never completes. |
| `Declared.OthersUntouched` | packages/effaced/src/effaced/erasure/planner.py:141-258 | Where every key refers to a primary key, a consistent database alone makes every other subject's rows survive cell for cell. |
| `Retained.RetainedSurvivesExactly` | packages/effaced/src/effaced/erasure/planner.py:399-425 | Every RETAIN cell survives every erasure, of any subject from any data, if and only if the manifest guards its column. |
| `Retained.RetainedCellsSurvive` | packages/effaced/src/effaced/erasure/planner.py:399-425 | A column whose table is not deleted and that is not rewritten keeps every cell of every row. |
| `Sweeper.AttributionStatement` | packages/effaced/src/effaced/retention/sweeper.py:167-203 | The loop over hops and aliases builds one equality per column pair of each hop between consecutive aliases, and selects the whole key from the last. |
| `Sweeper.SweptEntry` | packages/effaced/src/effaced/retention/sweeper.py:135-165 | Counts each result row once, under the canonical reference of its key, and the rows with a NULL anchor apart; refuses exactly when a matched composite key has an empty element. |
| `Sweeper.JoinIsChain` | packages/effaced/src/effaced/retention/sweeper.py:188-203 | An assignment of rows to the aliases satisfies the join exactly when it is a chain of the nested predicate. |
| `Sweeper.CountsAreRightExactly` | packages/effaced/src/effaced/retention/sweeper.py:150-234 | Over unique hop targets every key's reported count is the number of lapsed rows in its erasure scope if and only if no matched row is attributed over a NULL key cell. |
| `Sweeper.SweepCountsScope` | packages/effaced/src/effaced/retention/sweeper.py:150-203 | Where none is, the join neither splits, merges nor repeats rows: the count of any key is that of its scope. |
| `Sweeper.NullIsMiscounted` | packages/effaced/src/effaced/retention/sweeper.py:223-234 | Any row attributed over a NULL is counted for a key whose scope does not hold it. |
| `Sweeper.NullKeyIsMisreported` | packages/effaced/src/effaced/retention/sweeper.py:223-234 | Such rows exist: a row with a NULL key is reported under a subject whose scope does not hold it (a concrete store). |
| `Sweeper.ReportedReferenceScopes` | packages/effaced/src/effaced/retention/sweeper.py:223-234 | The reference reported for a valid key, given to an erasure, scopes by that key. |
| `ReplayPlan.Derive` | packages/effaced/src/effaced/replay/plan.py:72-140 | Three sorted lists without repeats holding exactly the subjects with a completion in the window (with count and latest event), with only failures, and with only requests. |
| `ReplayPlan.PlanReadsTrail` | packages/effaced/src/effaced/replay/plan.py:86-140 | Read off the trail's events: a subject is replayed if it completed at or after the cutoff, failed-only if it only failed there, indeterminate if it was only requested there. |
| `ReplayPlan.EntryCitesLatest` | packages/effaced/src/effaced/replay/plan.py:95-140 | An entry counts its subject's completions at or after the cutoff and cites the latest, by time and then by id; entries come in the order of what they cite, then by subject. |
| `Sorting.StringOrder` | packages/effaced/src/effaced/replay/plan.py:81-84 | Subjects are ordered as strings are: a prefix first, and otherwise by the first difference. |
| `ReplayPlan.OrderIndependent` | packages/effaced/src/effaced/replay/plan.py:81-84 | Any permutation of the same events gives an equal plan, lists included. |
| `ReplayPlan.ThreeDisjointGroups` | packages/effaced/src/effaced/replay/plan.py:86-92 | The three lists are disjoint and together hold exactly the subjects with an erasure event at or after the cutoff. |
| `Replayer.Replay` | packages/effaced/src/effaced/replay/replayer.py:88-137 | Per entry the replay notice precedes the erasure's own events and any change; the first failure or refused event stops the run; on an orderly manifest every replayed subject is gone from the deleted tables, its rows elsewhere are rewritten, nothing outside the replayed scopes has changed, and the external work for the references found again is pending. |
| `Replayer.LostErasuresAreGone` | packages/effaced/src/effaced/replay/replayer.py:88-137 | Restore and replay erases every lost erasure's subject again unless it straddles the backup instant: nothing of it is reachable in deleted tables, and every restored row of it elsewhere has its columns rewritten and its other cells kept. |
| `Replayer.RestoreAndReplay` | packages/effaced/src/effaced/replay/replayer.py:63-137 | One call from trail to data: derive the plan, replay it; a finished run has erased again every lost erasure that does not straddle the backup, and it finishes where no step can fail, references are matched, keys fresh and the sink up. |
| `Nesting.KeyPathsNest` | packages/effaced/src/effaced/replay/replayer.py:88-137 | On a planned graph resolved over foreign keys whose declarations are sound, every path that reaches a row-deleted table goes on as that table's own, so a replay takes every restored row of its subjects out of row-deleted tables. |
| `Nesting.PartingPathsLeaveRows` | packages/effaced/src/effaced/replay/replayer.py:88-137 | Rows of row-deleted tables can outlast a replay where paths do not nest: replaying two subjects leaves a row that was in the second's restored scope (a concrete graph and store meeting every other condition). |
| `Replayer.ReplayedExactly` | packages/effaced/src/effaced/replay/plan.py:86-92 | Over any history a subject is replayed if and only if some attempt on it completed at or after the cutoff; so the plan is right about it exactly when that agrees with having lost an erasure, and fails only by straddling or by rolled-back attempts. |
| `Replayer.ReplayedAreTheLost` | packages/effaced/src/effaced/replay/plan.py:86-92 | A subject none of whose own attempts straddles the cutoff or rolled back after it is replayed exactly when its erasure was lost, whatever becomes of others. |
| `AuditChain.ChildrenByPrior` | packages/effaced/src/effaced/audit/chain_verifier.py:113-116 | The dictionary holds, for each cited hash, exactly the rows citing it. |
| `AuditChain.Walk` | packages/effaced/src/effaced/audit/chain_verifier.py:106-140 | The loop over current and visited terminates on every row set and computes the followed verdict, cycles and forks included. |
| `AuditChain.WalkIsExact` | packages/effaced/src/effaced/audit/chain_verifier.py:106-140 | With a collision-free hash the walk verifies a row set exactly when its rows can be ordered as one list with a NULL-prior head, each prior the previous hash and each hash recomputing. |
| `AuditChain.EditIsLocalised` | packages/effaced/src/effaced/audit/chain_verifier.py:119-131 | On an intact list of pointers the reported break is the first row whose content or hash does not recompute. |
| `AuditChain.Verify` | packages/effaced/src/effaced/audit/chain_verifier.py:71-104 | Rows without a hash are skipped: the verdict is clean exactly when the stored rows that carry a hash, each as often as it is stored, can be put in one chain; so a trail without hashes is clean and any hashed row that does not recompute is not; on an intact list of pointers the first such row along it is named, and whatever row is named carries a hash and does not recompute, is the first of two that continue the chain at one place, or has the smallest id. |
| `AuditChain.DatabaseAuditSink.Append` | packages/effaced/src/effaced/audit/database_sink.py:52-105 | Inserts the event bound to the hash of a tail row, or refuses a used id and changes nothing. |
| `AuditChain.SerialAppend` | packages/effaced/src/effaced/audit/database_sink.py:78-105 | An append to an intact chain leaves an intact chain. |
| `AuditChain.RunVerifiesIffUnforked` | packages/effaced/src/effaced/audit/database_sink.py:78-105 | In every interleaving of tail reads and inserts the trail verifies at a moment exactly when no two committed appends had read the same tail. |
| `AuditChain.ForkIsForever` | packages/effaced/src/effaced/audit/chain_verifier.py:113-140 | Once a run's trail has forked no later append makes it verify again. |
| `AuditChain.SerialRunVerifies` | packages/effaced/src/effaced/audit/database_sink.py:52-105 | A trail only ever appended to one event at a time verifies at every moment. |
| `AuditChain.VerifiesIffPrefixOfWritten` | packages/effaced/src/effaced/audit/hash_chain.py:38-87 | Among row sets whose hashes were all once written by the sink, exactly the content-identical prefixes of what was written verify; so only removal of the newest rows goes unseen. |
| `Backoff.Policy.Delay` | packages/effaced/src/effaced/saga/backoff_policy.py:50-70 | The doubling loop with its early break equals min(base * 2^(n-1), max), rejects n < 1, and its working value stays below twice the ceiling. |
| `Backoff.Policy.WaitShape` | packages/effaced/src/effaced/saga/backoff_policy.py:50-70 | Waits start at the base, each is twice the one before until the ceiling caps it, they are monotone, stay in bounds and reach the ceiling. |
| `OutboxStore.RowMappingRoundTrips` | packages/effaced/src/effaced/saga/_row_mapping.py:30-94 | Entry to row and back is the identity; row to entry and back is one except for a stored empty payload. |
| `OutboxStore.Outbox.Enqueue` | packages/effaced/src/effaced/saga/outbox.py:83-98 | Inserts all entries or, on a repeated id, none. |
| `OutboxStore.InsertedHolds` | packages/effaced/src/effaced/saga/_row_mapping.py:30-51 | Every enqueued entry is stored as its own row, in an empty outbox too, no earlier row changes and no other row appears. |
| `OutboxStore.FreshExactly` | packages/effaced/src/effaced/saga/outbox.py:83-98 | The ids an insert accepts are exactly those not in the table and different from each other. |
| `OutboxStore.Outbox.ClaimBatch` | packages/effaced/src/effaced/saga/outbox.py:100-158 | Claims due, unlocked rows oldest first up to the limit with nothing older left out, marks exactly those rows in flight with one more attempt and a gate at the lease's end, and returns them as stored. |
| `OutboxStore.BatchIsOldestDue` | packages/effaced/src/effaced/saga/outbox.py:100-158 | A batch holds only unlocked, unfinished rows whose gate has passed, by enqueue time and then by id, and a due row left out means the batch is full of rows before it. |
| `OutboxStore.Outbox.MarkSucceeded` | packages/effaced/src/effaced/saga/outbox.py:160-218 | Marks the row and, exactly when every sibling of its operation has succeeded, appends the completion in the same transaction; if that append fails neither happens. |
| `OutboxStore.Outbox.MarkFailed` | packages/effaced/src/effaced/saga/outbox.py:220-239 | Sets the retry gate and error on that row alone and keeps the payload. |
| `OutboxStore.Outbox.MarkScheduled` | packages/effaced/src/effaced/saga/outbox.py:241-270 | Parks that row with a fresh budget at the given gate. |
| `OutboxStore.Outbox.MarkAbandoned` | packages/effaced/src/effaced/saga/outbox.py:272-291 | Ends that row and clears its payload and gate. |
| `OutboxStore.Outbox.Update` | packages/effaced/src/effaced/saga/outbox.py:481-503 | The shared update changes one row's status, error and gate, and its payload only when told to clear it. |
| `OutboxStore.Outbox.Requeue` | packages/effaced/src/effaced/saga/outbox.py:351-453 | Locks existing ids in ascending order; refuses the whole call on an abandoned rectification; otherwise all events precede all flips, a failing sink leaves a prefix of events and no flip, and exactly the abandoned rows asked for become pending with no attempts, gate or error. |
| `OutboxStore.RequeueTells` | packages/effaced/src/effaced/saga/outbox.py:424-453 | The events tell, in lock order, what each row had spent and why it had ended. |
| `Runner.Settle` | packages/effaced/src/effaced/saga/runner.py:208-240 | Books against a sink that may fail at any append. It raises exactly on a cancelled call or when the events that must come first do not fit, and then no row changes; otherwise a reported end leaves the row succeeded, a horizon parks it with a gate not before it and an event naming it, a refusal abandons it, any other error abandons it if and only if the budget is spent and else fails it with the backoff, and the events tell the answer as given, the read-back's verdict included. |
| `Runner.BookedAsAnswered` | packages/effaced/src/effaced/saga/runner.py:208-240 | The same for the value-level booking that the protocol and the batch use: row and events are what the resolver's answer demands, whatever verdict the code forms in between. |
| `Runner.AnswersByCapability` | packages/effaced/src/effaced/saga/runner.py:154-206 | Which answers each dispatched call admits, if and only if: an unregistered resolver or one that cannot rectify only refuses; exactly a retention-only resolver answers with an expiry, and never reports an erasure; a read-back comes only from one that can verify. |
| `Runner.SucceedEntry` | packages/effaced/src/effaced/saga/runner.py:242-325 | Success event, then mark with completion in the transaction, then the isolated read-back verdict that never undoes the success. |
| `Runner.ParkEntry` | packages/effaced/src/effaced/saga/runner.py:327-346 | Expiry event first, then the park, with the gate clamped to at least one backoff step. |
| `Runner.AbandonEntry` | packages/effaced/src/effaced/saga/runner.py:348-372 | Failure event first, then the terminal mark. |
| `Runner.RunOnce` | packages/effaced/src/effaced/saga/runner.py:99-152 | One batch is the claim followed by the outcomes booked in order until one raises. |
| `Runner.UnsettledStaysClaimed` | packages/effaced/src/effaced/saga/runner.py:145-152 | Whatever becomes of the others, an entry that was not settled keeps its claim. |
| `Resolvers.InMemoryResolver.EraseSubject` | packages/effaced/src/effaced/testing/in_memory_resolver.py:99-114 | Drops exactly that reference, reports whether it was held, and meets the resolver contract. |
| `Resolvers.InMemoryResolver.EraseAndVerify` | packages/effaced/src/effaced/saga/runner.py:178-206 | Erasing and reading back as the runner does always confirms absence. |
| `Resolvers.InMemoryRetentionOnlyResolver.ExportSubject` | packages/effaced/src/effaced/testing/in_memory_retention_only_resolver.py:84-102 | Exports the held records in order, each with the horizon once set, and nothing whose horizon has passed. |
| `Resolvers.InMemoryResolver.RectifySubject` | packages/effaced/src/effaced/testing/in_memory_resolver.py:139-171 | Applies the corrections to that reference alone and reports consistency exactly when nothing changed. |
| `Resolvers.CorrectingConverges` | packages/effaced/src/effaced/testing/in_memory_resolver.py:139-171 | Applying corrections twice is applying them once. |
| `Resolvers.LastCorrectionStands` | packages/effaced/src/effaced/testing/in_memory_resolver.py:139-171 | Every held record keeps its place, field and category; of several corrections for a category the last one gives the value, and a record no correction is for stays as it is. |
| `Resolvers.InMemoryRetentionOnlyResolver.PurgeExpired` | packages/effaced/src/effaced/testing/in_memory_retention_only_resolver.py:76-82 | The loop removes exactly the data whose horizon has passed: what remains is what the resolver contract does not call absent. |
| `Resolvers.InMemoryRetentionOnlyResolver.ScheduleErasure` | packages/effaced/src/effaced/testing/in_memory_retention_only_resolver.py:120-143 | Reports absence exactly when the data is gone or past its horizon, otherwise the first horizon ever set, and meets the resolver contract. |
| `Routing.OutboxEntries` | packages/effaced/src/effaced/erasure/planner.py:355-386 | An unmatched kind refuses the erasure; otherwise the nested loop yields entries addressed to the references, each once where resolvers are registered once, every one an unattempted pending erasure of the subject with no gate, numbered consecutively. |
| `Routing.EveryRefRoutedOnce` | packages/effaced/src/effaced/erasure/planner.py:355-386 | Routing neither drops, repeats nor invents a reference. |
| `Routing.CompletionReachesEverySystem` | packages/effaced/src/effaced/saga/runner.py:289-295 | When a subject's ERASURE_COMPLETED is appended, in any run, no system its references were routed to still holds them. |
| `SagaProtocol.EveryRunIsSound` | packages/effaced/src/effaced/saga/outbox.py:160-218 | In every state of every run, with overruns, crashes and requeues: settled rows rest on an event their own settling claim appended, terminal rows hold no corrections, a wholly succeeded group has a completion event not older than its last enqueue, and succeeded erasures are gone outside. |
| `SagaProtocol.StepNeverLost` | packages/effaced/src/effaced/saga/outbox.py:193-218 | No step loses a completion: a group that becomes wholly succeeded gets its event in that step. |
| `SagaProtocol.StepAudited` | packages/effaced/src/effaced/saga/runner.py:289-295 | No step lets a row succeed, be abandoned or be parked without an event already in the trail that the settling claim itself appended after it was taken, also after a requeue or a second park. |
| `SagaProtocol.StepGone` | packages/effaced/src/effaced/testing/in_memory_retention_only_resolver.py:120-143 | No step makes a succeeded erasure's data present again, whether it was deleted or expired. |
| `SagaProgress.OnlyAbandonedRectificationsAreLost` | packages/effaced/src/effaced/saga/outbox.py:105-111 | From every state of every honoured run an entry can still be brought to success if and only if it is not an abandoned rectification: crashed, failed and parked entries are never stuck, and requeue recovers abandoned erasures only. |
| `SagaProtocol.SettledClaimsInject` | packages/effaced/src/effaced/saga/runner.py:289-295 | Over the whole history no two claims recorded the same event, and succeeded, abandoned and parked rows map one to one to trail positions of events their own settling claims appended after being taken. |
| `SagaProtocol.CompletionIsSound` | packages/effaced/src/effaced/saga/outbox.py:206-218 | A completion event is appended only while finishing an entry of that group, with every sibling succeeded and the entry's own success event already logged; for an erasure every routed system is then without the data. |
| `SagaAnswers.BookedRowsAreAnswered` | packages/effaced/src/effaced/saga/runner.py:208-240 | In every state of every run, leases honoured or not, a row that is neither waiting nor claimed stands as some step booked it for an answer a resolver gave to a claim on it: succeeded on a reported end, parked until at least the horizon answered, abandoned on a refusal or a spent budget, failed otherwise. |
| `SagaAnswers.NoCallBeforeAnsweredHorizon` | packages/effaced/src/effaced/saga/runner.py:327-346 | In every run a call on a claim taken on a parked entry comes no earlier than the horizon the resolver itself answered when that entry was parked. |
| `SagaLeases.StepExclusive` | packages/effaced/src/effaced/saga/outbox.py:132-158 | If runners settle within their leases, each entry has at most one live claim and it matches the stored status, gate and attempts. |
| `SagaLeases.TerminalIsStable` | packages/effaced/src/effaced/saga/outbox.py:481-503 | Then a succeeded row never changes, an abandoned row leaves only by requeue, and no requeue takes a row from under a live claim. |
| `SagaLeases.StepKept` | packages/effaced/src/effaced/saga/_row_mapping.py:97-113 | Then every unfinished rectification, and every claim on one, holds the corrections it was enqueued with. |
| `SagaLeases.StepWaits` | packages/effaced/src/effaced/saga/outbox.py:241-270 | Then a parked row's gate is never before the horizon its latest expiry event names. |
| `SagaLeases.NoCallBeforeHorizon` | packages/effaced/src/effaced/saga/runner.py:327-346 | Then a parked entry's resolver is not called before that horizon. |
| `SagaLeases.StepBudgeted` | packages/effaced/src/effaced/saga/runner.py:232-236 | Then a failed row still has an attempt left and no row has more attempts in its budget than max(1, max_attempts) plus its crashed claims. |
| `SagaLeases.StepSpaced` | packages/effaced/src/effaced/saga/runner.py:396-402 | Then a failed row's gate is at least its backoff after its last attempt began, and a claimed row's is its lease end. |
| `SagaLeases.ClaimsAreSpaced` | packages/effaced/src/effaced/saga/outbox.py:132-158 | Then a failed entry is claimed again only after that backoff, and a claimed entry only when no live claim is left on it. |
| `SagaLeases.HonouredRunsAreDisciplined` | packages/effaced/src/effaced/saga/outbox.py:122-126 | All of these hold in every state of every run whose runners honour their leases. |
| `SagaRuns.SettleRefines` | packages/effaced/src/effaced/saga/runner.py:208-240 | Booking one outcome, with the sink failing anywhere, is a run of protocol steps. |
| `SagaRuns.ClaimRefines` | packages/effaced/src/effaced/saga/outbox.py:132-158 | A batch claim is a run of single claims whose holds are the returned entries. |
| `SagaRuns.RequeueRefines` | packages/effaced/src/effaced/saga/outbox.py:424-453 | A requeue call, complete or cut short by the sink, is one protocol step. |
| `SagaRuns.CrashLoopIsEndless` | packages/effaced/src/effaced/saga/outbox.py:112-115 | An entry whose runner always crashes is claimed any number of times and never abandoned, whatever max_attempts is. |
| `SagaRuns.CeilingIsPassedByCrashesOnly` | packages/effaced/src/effaced/saga/outbox.py:112-115 | In a run that honours its leases a claim takes an entry over its budget if and only if the claim before it had spent the budget and was never booked. |
| `SagaRuns.OverrunReopens` | packages/effaced/src/effaced/saga/outbox.py:481-503 | Without leases being honoured a success is not final: a runner that overran its lease turns another's success into a failure (a concrete run). |
| `SagaOverruns.ReopenableExactly` | packages/effaced/src/effaced/saga/outbox.py:481-503 | In any run a succeeded entry can be taken out of success by some continuation if and only if a claim on it is still held that has no answer yet or is judged a park, an abandonment or a retry; an overrun alone reopens nothing. |
| `SagaOverruns.OnlyLateBookingsReopen` | packages/effaced/src/effaced/saga/outbox.py:481-503 | One step takes a row out of success exactly when it books such a claim. |
| `RowLocks.NoDeadlock` | packages/effaced/src/effaced/saga/outbox.py:193-205 | No reachable state has a circle of transactions waiting for each other's row locks. |
| `RowLocks.SomeoneCanGoOn` | packages/effaced/src/effaced/saga/outbox.py:429-436 | From any open transaction some transaction can proceed. |

## Left out

- Coercion of subject-id components to column types, and values that cannot carry a type: cells and keys are strings here.
- SHA-256, JSON encoding and timestamp normalisation (`audit/hash_chain.py:18-35`): one injective function; timestamps are integers, so the timezone checks do not appear.
- `read`, `read_since` and the status, abandoned and scheduled listings: plain queries.
- SQLAlchemy, pydantic, asyncio and graphlib internals: statements have their meaning, `gather` gives one outcome per entry, and the topological sort's order within a batch is the model's own.
- Database cascades, deferred constraints and isolation anomalies: transactions are atomic and foreign keys are checked at once. Connection-pool exhaustion is a sink that is down.
- Row identity in the store is a number of its own, so rows of a table without a primary key stay distinct.
- Surrogate values: an endless supply of values; that each rewritten cell gets a call of its own is proved, that the values differ is up to the supply.
- SubjectErasure.EraseSubject: idempotency keys are consecutive numbers from one the caller gives; the optional subject lock, which is written and completed in the same transaction, is left out.
- Sweeper.SweptEntry: one column's findings; the outer loop over columns, the event per subject and the cutoff arithmetic are left out, and whether an anchor has lapsed is a predicate on its stored text.
- Runner.RunOnce: resolver answers come from a function of the entry; the abandonment hook, whose failures are swallowed, is left out.
- OutboxStore.Outbox.Requeue: an outbox built without a sink, which refuses at once, is not modelled.
- SagaProtocol.EveryRunIsSound: entries are enqueued one step at a time, pending and unattempted, which allows more runs than the caller's one transaction.
- Resolvers.InMemoryResolver.RectifySubject: injected faults are not modelled; the covered surface of the fake is left out.
- Reachability.ResolveSubjectGraph: a mapper's relationships are given with the tables they join; joined-table inheritance appears only as a relationship whose source is another table.
- Declared.SoundIsUnfailing: the equivalence is with the conditions of `ErasureRun.Unfailing`. That they are needed is proved for primary keys (`Declared.EraseDeclared`) and for referrers that survive (`Dangling.ReferrersExactly`).
- Declared.OthersUntouched: a key that refers to a UNIQUE constraint instead of the primary key is covered by `Verifier.OtherSubjectsUntouched`, not by this lemma.
- Resolver packages, the framework integrations, the worker thread, the command line, consent and restriction ledgers, export, completeness lint, manifest migration and the overdue reporter: plumbing, or properties that follow from one body.

/** Executing the local steps: no prefix breaks a key, and each step is recorded or counts as failed. */
module ErasureRun {
  import opened Manifest
  import opened Scoping
  import opened Planning
  import opened Store
  import opened Executor
  import opened Erasure
  import Identity

  // --- no step can meet an integrity error ------------------------------------------

  /** A foreign key into a table that loses rows is the child's first hop, and the child's chain
      goes on as the parent's own; no overwritten column belongs to a key. */
  ghost predicate KeysOnPath(schema: Schema, g: Graph, tables: seq<TableEntry>) {
    && (forall t :: FreeOfKeys(schema, t, Rewritten(g, tables, t)))
    && forall f :: f in schema.foreignKeys && Deleted(g, tables, f.parent) ==> OnPath(g, f)
  }

  predicate OnPath(g: Graph, f: ForeignKey) {
    && InGraph(g, f.child) && InGraph(g, f.parent)
    && AccessOf(g, f.child).hops
       == [Hop(f.child, f.childColumns, f.parent, f.parentColumns)] + AccessOf(g, f.parent).hops
  }

  predicate NoConflicts(g: Graph, tables: seq<TableEntry>) {
    forall e :: e in tables ==> !Conflicting(g, tables, e)
  }

  /** In deletion order a child's stage is before its parent's. */
  lemma ChildStageFirst(g: Graph, tables: seq<TableEntry>, f: ForeignKey, c: nat, p: nat)
    requires Coherent(g) && DeletesInOrder(g, tables) && OnPath(g, f) && Deleted(g, tables, f.parent)
    requires c < |g.accesses| && p < |g.accesses| && g.accesses[c].table == f.child && g.accesses[p].table == f.parent
    ensures c < p
  {
    AccessIsUnique(g, c);
    AccessIsUnique(g, p);
    var childHops := g.accesses[c].hops;
    assert |childHops| == 1 + |g.accesses[p].hops|;
    assert childHops[0] in childHops;
    assert AtOrAfter(g, c, f.parent);
  }

  lemma ChildDeletedFirst(g: Graph, tables: seq<TableEntry>, f: ForeignKey, n: nat)
    requires Coherent(g) && Agree(g, tables) && DeletesInOrder(g, tables) && OnPath(g, f)
    requires n <= |StepsUpTo(g, tables, |g.accesses|)|
    requires Deleted(g, tables, f.child) && Touched(StepsUpTo(g, tables, |g.accesses|), n, f.parent, DELETE)
    ensures Touched(StepsUpTo(g, tables, |g.accesses|), n, f.child, DELETE)
  {
    hide DeletesInOrder, OnPath, Deleted, Agree;
    var steps, stages := StepsUpTo(g, tables, |g.accesses|), StagesUpTo(g, tables, |g.accesses|);
    PlanIsStaged(g, tables, |g.accesses|);
    var j :| 0 <= j < n && steps[j].target == f.parent && steps[j].strategy == DELETE;
    StepIsItsTables(g, tables, |g.accesses|, steps[j]);
    StepOfDeleted(g, tables, f.child);
    var m :| 0 <= m < |steps| && steps[m] == Step(f.child, DELETE, []);
    assert StagedAt(g, steps, stages, j) && StagedAt(g, steps, stages, m);
    assert j < m ==> InOrder(steps, stages, j, m);
    ChildStageFirst(g, tables, f, stages[m], stages[j]);
  }

  lemma StepOfDeleted(g: Graph, tables: seq<TableEntry>, t: string)
    requires Coherent(g) && Agree(g, tables) && Deleted(g, tables, t)
    ensures var steps := StepsUpTo(g, tables, |g.accesses|);
            exists m :: 0 <= m < |steps| && steps[m] == Step(t, DELETE, [])
  {
    PlanHolds(g, tables, t, Step(t, DELETE, []));
  }

  /** A row whose parent is in the subject's scope is in the scope itself. */
  lemma ChildInScope(db: Db, g: Graph, key: seq<string>, f: ForeignKey, r: nat, p: nat)
    requires OnPath(g, f) && r in TableOf(db, f.child) && p in SubjectRows(db, g, key, f.parent)
    requires SqlEqual(Project(TableOf(db, f.child)[r], f.childColumns),
                      Project(TableOf(db, f.parent)[p], f.parentColumns))
    ensures r in SubjectRows(db, g, key, f.child)
  {
    var hops := AccessOf(g, f.child).hops;
    assert hops[1..] == AccessOf(g, f.parent).hops;
    assert hops[0] == Hop(f.child, f.childColumns, f.parent, f.parentColumns);
  }

  lemma ReferenceSurvives(schema: Schema, g: Graph, tables: seq<TableEntry>, key: seq<string>, supply: Surrogates,
                          before: Db, now: Db, n: nat, f: ForeignKey, r: nat)
    requires Coherent(g) && Agree(g, tables) && DeletesInOrder(g, tables) && NoConflicts(g, tables)
    requires KeysOnPath(schema, g, tables)
    requires n <= |StepsUpTo(g, tables, |g.accesses|)|
    requires Progress(g, tables, key, supply, before, now, StepsUpTo(g, tables, |g.accesses|), n)
    requires f in schema.foreignKeys && r in TableOf(now, f.child)
    requires r in TableOf(before, f.child) ==> References(before, f, TableOf(before, f.child)[r])
    ensures References(now, f, TableOf(now, f.child)[r])
  {
    var steps := StepsUpTo(g, tables, |g.accesses|);
    assert TableProgress(g, tables, key, supply, before, now, steps, n, f.child);
    assert TableProgress(g, tables, key, supply, before, now, steps, n, f.parent);
    var row, row' := TableOf(before, f.child)[r], TableOf(now, f.child)[r];
    KeptColumns(schema, g, tables, key, supply, before, now, steps, n, f.child, r, f.childColumns) by {
      forall c | c in f.childColumns ensures KeyColumn(schema, f.child, c) {}
    }
    hide DeletesInOrder, Coherent, Agree, NoConflicts, StepsUpTo, TableProgress;
    if !exists i :: 0 <= i < |f.childColumns| && Get(row, f.childColumns[i]) == Null {
      var p :| p in TableOf(before, f.parent)
        && SqlEqual(Project(row, f.childColumns), Project(TableOf(before, f.parent)[p], f.parentColumns));
      ParentKept(schema, g, tables, key, supply, before, now, n, f, r, p);
      KeptColumns(schema, g, tables, key, supply, before, now, steps, n, f.parent, p, f.parentColumns) by {
        forall c | c in f.parentColumns ensures KeyColumn(schema, f.parent, c) {}
      }
    }
  }

  /** A remaining row keeps its cells in key columns. */
  lemma KeptColumns(schema: Schema, g: Graph, tables: seq<TableEntry>, key: seq<string>, supply: Surrogates, before: Db,
                    now: Db, steps: seq<Step>, n: nat, t: string, r: nat, columns: seq<string>)
    requires n <= |steps| && TableProgress(g, tables, key, supply, before, now, steps, n, t) && r in TableOf(now, t)
    requires forall c :: c in columns ==> KeyColumn(schema, t, c)
    requires FreeOfKeys(schema, t, Rewritten(g, tables, t))
    ensures Project(TableOf(now, t)[r], columns) == Project(TableOf(before, t)[r], columns)
    ensures forall c :: c in columns ==> Get(TableOf(now, t)[r], c) == Get(TableOf(before, t)[r], c)
  {
    SameProjection(TableOf(now, t)[r], TableOf(before, t)[r], columns);
  }

  /** Once a parent has lost rows its child, which cannot survive, has lost its own before. */
  lemma ChildDoomed(g: Graph, tables: seq<TableEntry>, f: ForeignKey, n: nat)
    requires Coherent(g) && Agree(g, tables) && DeletesInOrder(g, tables) && NoConflicts(g, tables)
    requires n <= |StepsUpTo(g, tables, |g.accesses|)|
    requires Touched(StepsUpTo(g, tables, |g.accesses|), n, f.parent, DELETE)
    requires Deleted(g, tables, f.parent) ==> OnPath(g, f)
    ensures OnPath(g, f) && Touched(StepsUpTo(g, tables, |g.accesses|), n, f.child, DELETE)
  {
    hide DeletesInOrder, Deleted, Coherent;
    var steps := StepsUpTo(g, tables, |g.accesses|);
    var j :| 0 <= j < n && steps[j].target == f.parent && steps[j].strategy == DELETE;
    StepIsItsTables(g, tables, |g.accesses|, steps[j]);
    assert Deleted(g, tables, f.parent);
    SurvivorHasNoDoomedParent(g, tables, f);
    ChildDeletedFirst(g, tables, f, n);
  }

  lemma SurvivorHasNoDoomedParent(g: Graph, tables: seq<TableEntry>, f: ForeignKey)
    requires Agree(g, tables) && NoConflicts(g, tables) && OnPath(g, f) && Deleted(g, tables, f.parent)
    ensures Deleted(g, tables, f.child)
  {
    hide Deleted;
    var a := AccessOf(g, f.child);
    assert a.hops[0] in a.hops && a.hops[0].target == f.parent;
    assert !Conflicting(g, tables, EntryOf(tables, f.child));
  }

  lemma ParentKept(schema: Schema, g: Graph, tables: seq<TableEntry>, key: seq<string>, supply: Surrogates, before: Db,
                   now: Db, n: nat, f: ForeignKey, r: nat, p: nat)
    requires Coherent(g) && Agree(g, tables) && DeletesInOrder(g, tables) && NoConflicts(g, tables)
    requires KeysOnPath(schema, g, tables)
    requires n <= |StepsUpTo(g, tables, |g.accesses|)|
    requires Progress(g, tables, key, supply, before, now, StepsUpTo(g, tables, |g.accesses|), n)
    requires f in schema.foreignKeys && r in TableOf(now, f.child) && r in TableOf(before, f.child)
    requires p in TableOf(before, f.parent)
    requires SqlEqual(Project(TableOf(before, f.child)[r], f.childColumns),
                      Project(TableOf(before, f.parent)[p], f.parentColumns))
    ensures p in TableOf(now, f.parent)
  {
    var steps := StepsUpTo(g, tables, |g.accesses|);
    assert TableProgress(g, tables, key, supply, before, now, steps, n, f.child);
    assert TableProgress(g, tables, key, supply, before, now, steps, n, f.parent);
    if p in SubjectRows(before, g, key, f.parent) && Touched(steps, n, f.parent, DELETE) {
      ChildDoomed(g, tables, f, n);
      ChildInScope(before, g, key, f, r, p);
    }
  }

  /** From a consistent database no step of a conflict-free plan leaves a dangling reference or a
      repeated key: the database refuses none of them. */
  lemma EveryStepKeepsConsistent(schema: Schema, g: Graph, tables: seq<TableEntry>, key: seq<string>,
                                 supply: Surrogates, before: Db, now: Db, n: nat)
    requires Coherent(g) && Agree(g, tables) && DeletesInOrder(g, tables) && NoConflicts(g, tables)
    requires KeysOnPath(schema, g, tables)
    requires n <= |StepsUpTo(g, tables, |g.accesses|)| && schema.Consistent(before)
    requires Progress(g, tables, key, supply, before, now, StepsUpTo(g, tables, |g.accesses|), n)
    ensures schema.Consistent(now)
  {
    var steps := StepsUpTo(g, tables, |g.accesses|);
    forall f | f in schema.foreignKeys ensures KeyHolds(now, f) {
      assert KeyHolds(before, f);
      forall r | r in TableOf(now, f.child) ensures References(now, f, TableOf(now, f.child)[r]) {
        ReferenceSurvives(schema, g, tables, key, supply, before, now, n, f, r);
      }
    }
    forall t | t in schema.primaryKeys ensures KeyUnique(now, t, schema.primaryKeys[t]) {
      assert KeyUnique(before, t, schema.primaryKeys[t]);
      assert TableProgress(g, tables, key, supply, before, now, steps, n, t);
      forall r | r in TableOf(now, t)
        ensures Project(TableOf(now, t)[r], schema.primaryKeys[t])
                == Project(TableOf(before, t)[r], schema.primaryKeys[t])
      {
        KeptColumns(schema, g, tables, key, supply, before, now, steps, n, t, r, schema.primaryKeys[t]) by {
          forall c | c in schema.primaryKeys[t] ensures KeyColumn(schema, t, c) {}
        }
      }
    }
  }

  // --- the audited run ----------------------------------------------------------------

  datatype LocalEvent =
    | Requested(localSteps: nat, externalSteps: nat, refs: nat)
    | StepSucceeded(target: string, strategy: Strategy, rows: nat)
    | StepFailed(target: string, strategy: Strategy)
    | EnqueueFailed
    | LocalCompleted(deleted: nat, anonymized: nat, retained: nat, enqueued: nat, skipped: seq<string>)
    | Replayed(completions: nat)
    | Verified(clean: bool, tables: nat, residualRows: nat, survivingRows: nat, failed: set<string>)

  datatype Record = Record(subject: string, event: LocalEvent)

  /** An append-only sink, each append a transaction of its own; the n-th is refused when `down(n)`. */
  class AuditSink {
    const down: nat -> bool
    var calls: nat
    var log: seq<Record>

    constructor (down: nat -> bool)
      ensures this.down == down && calls == 0 && log == []
    {
      this.down, calls, log := down, 0, [];
    }

    /** The latest append was taken. */
    predicate Heard()
      reads this
    {
      calls > 0 && !down(calls - 1)
    }

    ghost predicate NeverDown() {
      forall n :: !down(n)
    }

    method Append(r: Record) returns (ok: bool)
      modifies this
      ensures calls == old(calls) + 1 && ok == Heard() == !down(old(calls))
      ensures log == if ok then old(log) + [r] else old(log)
    {
      ok := !down(calls);
      calls := calls + 1;
      if ok {
        log := log + [r];
      }
    }
  }

  datatype Counts = Counts(deleted: map<string, nat>, anonymized: map<string, nat>, retained: map<string, nat>) {
    function Noting(s: Step, rows: nat): Counts {
      match s.strategy
      case DELETE => this.(deleted := deleted[s.target := rows])
      case ANONYMIZE => this.(anonymized := anonymized[s.target := rows])
      case RETAIN => this.(retained := retained[s.target := rows])
    }
  }

  /** The counts report, for every step taken, the size of its table's scope in `before`. */
  ghost predicate CountsScopes(c: Counts, g: Graph, key: seq<string>, before: Db, steps: seq<Step>, n: nat)
    requires n <= |steps|
  {
    && CountsFor(c.deleted, g, key, before, steps, n, DELETE)
    && CountsFor(c.anonymized, g, key, before, steps, n, ANONYMIZE)
    && CountsFor(c.retained, g, key, before, steps, n, RETAIN)
  }

  ghost predicate CountsFor(m: map<string, nat>, g: Graph, key: seq<string>, before: Db, steps: seq<Step>, n: nat,
                            s: Strategy)
    requires n <= |steps|
  {
    && (forall t :: t in m <==> Touched(steps, n, t, s))
    && (forall t :: t in m ==> m[t] == |SubjectRows(before, g, key, t)|)
  }

  lemma NotingCounts(c: Counts, g: Graph, key: seq<string>, before: Db, steps: seq<Step>, k: nat)
    requires k < |steps| && CountsScopes(c, g, key, before, steps, k)
    ensures CountsScopes(c.Noting(steps[k], |SubjectRows(before, g, key, steps[k].target)|), g, key, before, steps,
                         k + 1)
  {
    var c' := c.Noting(steps[k], |SubjectRows(before, g, key, steps[k].target)|);
    NotingFor(c.deleted, c'.deleted, g, key, before, steps, k, DELETE);
    NotingFor(c.anonymized, c'.anonymized, g, key, before, steps, k, ANONYMIZE);
    NotingFor(c.retained, c'.retained, g, key, before, steps, k, RETAIN);
  }

  lemma NotingFor(m: map<string, nat>, m': map<string, nat>, g: Graph, key: seq<string>, before: Db, steps: seq<Step>,
                  k: nat, s: Strategy)
    requires k < |steps| && CountsFor(m, g, key, before, steps, k, s)
    requires m' == if steps[k].strategy == s then m[steps[k].target := |SubjectRows(before, g, key, steps[k].target)|]
                   else m
    ensures CountsFor(m', g, key, before, steps, k + 1, s)
  {
    var n := k + 1;
    forall t ensures t in m' <==> Touched(steps, n, t, s) {
      TouchedNext(steps, k, t, s);
    }
  }

  lemma DownOnce(sink: AuditSink, n: int)
    ensures n >= 0 && sink.down(n) ==> !sink.NeverDown()
  {}

  datatype RunResult =
    | Done(counts: Counts)
    | Failed(at: nat, why: StepResult)
    | Unrecorded(at: nat)

  function Key(g: Graph, id: Identity.Identifier): seq<string> {
    var k := Identity.SubjectValues(|g.idColumns|, id);
    if k.Values? then k.values else []
  }

  predicate Accepted(g: Graph, id: Identity.Identifier) {
    (id.Composite? ==> Identity.ValidKey(id.values)) && Identity.SubjectValues(|g.idColumns|, id).Values?
  }

  predicate HasPrimaryKeys(schema: Schema, g: Graph, tables: seq<TableEntry>) {
    forall e :: e in tables && Rewritten(g, tables, e.name) != [] ==> e.name in schema.primaryKeys
  }

  /** Under these no local step can fail. */
  ghost predicate Unfailing(schema: Schema, g: Graph, tables: seq<TableEntry>) {
    && Orderly(schema, g, tables) && NoConflicts(g, tables)
    && KeysOnPath(schema, g, tables) && HasPrimaryKeys(schema, g, tables)
  }

  /** One success record per step, in order. */
  predicate SuccessesOf(records: seq<Record>, subject: string, steps: seq<Step>, n: nat)
    requires n <= |steps|
  {
    && |records| == n
    && forall j :: 0 <= j < n ==>
         && records[j].subject == subject
         && records[j].event.StepSucceeded?
         && records[j].event.target == steps[j].target
         && records[j].event.strategy == steps[j].strategy
  }

  /** What a run leaves in the trail: a success per completed step, then a failure event for the step
      that failed or whose success was refused, unless the sink refuses that too. */
  predicate RunRecords(records: seq<Record>, subject: string, steps: seq<Step>, r: RunResult, heard: bool) {
    match r
    case Done(_) => SuccessesOf(records, subject, steps, |steps|)
    case Failed(at, _) => at < |steps| && CutShort(records, subject, steps, at, heard)
    case Unrecorded(at) => at < |steps| && CutShort(records, subject, steps, at, heard)
  }

  predicate CutShort(records: seq<Record>, subject: string, steps: seq<Step>, at: nat, heard: bool)
    requires at < |steps|
  {
    && |records| == at + (if heard then 1 else 0)
    && SuccessesOf(records[..at], subject, steps, at)
    && (heard ==> records[at] == Record(subject, StepFailed(steps[at].target, steps[at].strategy)))
  }

  /** The state of a run after `i` steps of a plan that meets the conditions. */
  ghost predicate Running(g: Graph, tables: seq<TableEntry>, key: seq<string>, supply: Surrogates, before: Db, now: Db,
                          counts: Counts, records: seq<Record>, steps: seq<Step>, i: nat)
    requires i <= |steps|
  {
    && Progress(g, tables, key, supply, before, now, steps, i)
    && CountsScopes(counts, g, key, before, steps, i)
    && ScopesReported(records, g, key, before, steps, i)
  }

  /** Each success record carries the size of its table's scope in `before`. */
  ghost predicate ScopesReported(records: seq<Record>, g: Graph, key: seq<string>, before: Db, steps: seq<Step>, n: nat)
    requires n <= |steps|
  {
    && |records| == n
    && forall j :: 0 <= j < n ==>
         records[j].event.StepSucceeded? && records[j].event.rows == |SubjectRows(before, g, key, steps[j].target)|
  }

  lemma RunningStarts(g: Graph, tables: seq<TableEntry>, key: seq<string>, supply: Surrogates, before: Db,
                      steps: seq<Step>)
    ensures Running(g, tables, key, supply, before, before, Counts(map[], map[], map[]), [], steps, 0)
  {}

  method RunLocalSteps(session: Session, sink: AuditSink, g: Graph, ghost tables: seq<TableEntry>, steps: seq<Step>,
                       id: Identity.Identifier, supply: Surrogates)
    returns (r: RunResult, ghost records: seq<Record>)
    requires session.Valid() && Coherent(g) && Agree(g, tables) && steps == StepsUpTo(g, tables, |g.accesses|)
    requires id.Composite? ==> Identity.ValidKey(id.values)
    modifies session, sink
    ensures session.Valid()
    ensures sink.log == old(sink.log) + records && RunRecords(records, Identity.Canonical(id), steps, r, sink.Heard())
    ensures r.Unrecorded? ==> sink.calls > 1 && sink.down(sink.calls - 2)
    ensures r.Done? && Accepted(g, id) && Orderly(session.schema, g, tables) ==>
              Running(g, tables, Key(g, id), supply, old(session.db), session.db, r.counts, records, steps, |steps|)
    ensures Accepted(g, id) && Unfailing(session.schema, g, tables) ==> !r.Failed?
    ensures r.Done? ==> Keyed(session.schema, steps, |steps|)
  {
    assert id.Composite? ==> id.values != [];
    assert session.schema.Consistent(session.db);
    hide *;
    var subject := Identity.Canonical(id);
    var counts, next := Counts(map[], map[], map[]), 0;
    ghost var before, start := session.db, sink.log;
    ghost var key := Key(g, id);
    ghost var sound := Accepted(g, id) && Orderly(session.schema, g, tables);
    records := [];
    RunningStarts(g, tables, key, supply, before, steps);
    NothingRecorded(session.schema, start, subject, steps);
    for i := 0 to |steps|
      invariant session.Valid()
      invariant Underway(session.schema, sink.log, RunTrail(start, records), subject, steps, i)
      invariant sound ==> Running(g, tables, key, supply, before, session.db, counts, records, steps, i)
    {
      var outcome;
      outcome, next, records :=
        RunStep(session, sink, g, tables, steps, i, id, supply, next, before, counts, records, start);
      if !outcome.Booked? {
        r := CutShortBy(i, outcome);
        return;
      }
      counts := counts.Noting(steps[i], outcome.rows);
    }
    r := Done(counts);
    RunRecorded(session.schema, sink.log, start, records, subject, steps, counts, sink.Heard());
  }

  /** A rewriting step has a primary key to address its rows by. */
  predicate Addressed(schema: Schema, s: Step) {
    s.strategy == ANONYMIZE ==> s.target in schema.primaryKeys
  }

  predicate Keyed(schema: Schema, steps: seq<Step>, n: nat)
    requires n <= |steps|
  {
    n == 0 || (Keyed(schema, steps, n - 1) && Addressed(schema, steps[n - 1]))
  }

  lemma OneMoreKeyed(schema: Schema, steps: seq<Step>, n: nat)
    requires n < |steps|
    ensures Keyed(schema, steps, n) && Addressed(schema, steps[n]) ==> Keyed(schema, steps, n + 1)
  {}

  lemma {:induction false} KeyedSteps(schema: Schema, steps: seq<Step>, n: nat)
    requires n <= |steps| && Keyed(schema, steps, n)
    ensures forall j :: 0 <= j < n ==> Addressed(schema, steps[j])
  {
    if n > 0 { KeyedSteps(schema, steps, n - 1); }
  }

  lemma AllAddressed(schema: Schema, g: Graph, tables: seq<TableEntry>)
    requires Coherent(g) && Agree(g, tables)
    requires var steps := StepsUpTo(g, tables, |g.accesses|);
             Keyed(schema, steps, |steps|)
    ensures HasPrimaryKeys(schema, g, tables)
  {
    KeyedSteps(schema, StepsUpTo(g, tables, |g.accesses|), |StepsUpTo(g, tables, |g.accesses|)|);
    forall e | e in tables && Rewritten(g, tables, e.name) != [] ensures e.name in schema.primaryKeys {
      PlanHolds(g, tables, e.name, Step(e.name, ANONYMIZE, Rewritten(g, tables, e.name)));
    }
  }

  lemma AppendJoins(log: seq<Record>, a: seq<Record>, b: seq<Record>)
    ensures log + a + b == log + (a + b)
  {}

  /** What a run has left in the trail behind `start`. */
  datatype RunTrail = RunTrail(start: seq<Record>, records: seq<Record>)

  /** So many steps are done: each has its success in the trail, and could address its rows. */
  predicate Underway(schema: Schema, log: seq<Record>, trail: RunTrail, subject: string, steps: seq<Step>, n: nat)
    requires n <= |steps|
  {
    match trail
    case RunTrail(start, records) =>
      log == start + records && SuccessesOf(records, subject, steps, n) && Keyed(schema, steps, n)
  }

  lemma UnderwayShows(schema: Schema, log: seq<Record>, start: seq<Record>, records: seq<Record>, subject: string,
                      steps: seq<Step>, n: nat)
    requires n <= |steps|
    ensures Underway(schema, log, RunTrail(start, records), subject, steps, n)
            <==> log == start + records && SuccessesOf(records, subject, steps, n) && Keyed(schema, steps, n)
  {}

  lemma NothingRecorded(schema: Schema, log: seq<Record>, subject: string, steps: seq<Step>)
    ensures Underway(schema, log, RunTrail(log, []), subject, steps, 0)
  {}

  lemma SuccessRecorded(records: seq<Record>, id: Identity.Identifier, steps: seq<Step>, i: nat, rows: nat)
    requires id.Composite? ==> Identity.ValidKey(id.values)
    requires i < |steps| && SuccessesOf(records, Identity.Canonical(id), steps, i)
    ensures SuccessesOf(records + [SuccessOf(id, steps[i], rows)], Identity.Canonical(id), steps, i + 1)
  {}

  lemma FailureRecorded(records: seq<Record>, subject: string, steps: seq<Step>, r: RunResult)
    requires !r.Done? && r.at < |steps| && SuccessesOf(records, subject, steps, r.at)
    ensures var failure := Record(subject, StepFailed(steps[r.at].target, steps[r.at].strategy));
            RunRecords(records + [failure], subject, steps, r, true)
    ensures RunRecords(records, subject, steps, r, false)
  {
    assert (records + [Record(subject, StepFailed(steps[r.at].target, steps[r.at].strategy))])[..r.at] == records;
    assert records[..r.at] == records;
  }

  lemma RunRecorded(schema: Schema, log: seq<Record>, start: seq<Record>, records: seq<Record>, subject: string,
                    steps: seq<Step>, c: Counts, heard: bool)
    requires Underway(schema, log, RunTrail(start, records), subject, steps, |steps|)
    ensures log == start + records && RunRecords(records, subject, steps, Done(c), heard)
    ensures Keyed(schema, steps, |steps|)
  {}

  function SuccessOf(id: Identity.Identifier, s: Step, rows: nat): Record
    requires id.Composite? ==> Identity.ValidKey(id.values)
  {
    Record(Identity.Canonical(id), StepSucceeded(s.target, s.strategy, rows))
  }

  function FailureOf(id: Identity.Identifier, s: Step): Record
    requires id.Composite? ==> Identity.ValidKey(id.values)
  {
    Record(Identity.Canonical(id), StepFailed(s.target, s.strategy))
  }

  /** A step is done once its success is recorded; recording it is part of the step. */
  datatype StepOutcome = Booked(rows: nat) | Failing(why: StepResult) | Unbooked

  function CutShortBy(at: nat, o: StepOutcome): (r: RunResult)
    requires !o.Booked?
    ensures !r.Done? && (r.Failed? <==> o.Failing?) && (r.Unrecorded? <==> o.Unbooked?)
  {
    if o.Failing? then Failed(at, o.why) else Unrecorded(at)
  }

  /** The events one step leaves in the trail. */
  function StepRecords(id: Identity.Identifier, s: Step, o: StepOutcome, heard: bool): seq<Record>
    requires id.Composite? ==> Identity.ValidKey(id.values)
  {
    if o.Booked? then [SuccessOf(id, s, o.rows)] else if heard then [FailureOf(id, s)] else []
  }

  lemma StepBooked(start: seq<Record>, log: seq<Record>, records: seq<Record>, id: Identity.Identifier,
                   steps: seq<Step>, i: nat, o: StepOutcome, heard: bool)
    returns (all: seq<Record>)
    requires id.Composite? ==> Identity.ValidKey(id.values)
    requires i < |steps| && SuccessesOf(records, Identity.Canonical(id), steps, i) && o.Booked?
    requires log == start + records + StepRecords(id, steps[i], o, heard)
    ensures all == records + [SuccessOf(id, steps[i], o.rows)] && log == start + all
    ensures SuccessesOf(all, Identity.Canonical(id), steps, i + 1)
  {
    all := records + [SuccessOf(id, steps[i], o.rows)];
    SuccessRecorded(records, id, steps, i, o.rows);
  }

  lemma StepCutShort(start: seq<Record>, log: seq<Record>, records: seq<Record>, id: Identity.Identifier,
                     steps: seq<Step>, i: nat, o: StepOutcome, heard: bool)
    returns (all: seq<Record>)
    requires id.Composite? ==> Identity.ValidKey(id.values)
    requires i < |steps| && SuccessesOf(records, Identity.Canonical(id), steps, i) && !o.Booked?
    requires log == start + records + StepRecords(id, steps[i], o, heard)
    ensures log == start + all && RunRecords(all, Identity.Canonical(id), steps, CutShortBy(i, o), heard)
  {
    all := records + StepRecords(id, steps[i], o, heard);
    FailureRecorded(records, Identity.Canonical(id), steps, CutShortBy(i, o));
    assert records + [] == records;
  }

  /** Step `i` of a run that has left `records` so far. */
  method RunStep(session: Session, sink: AuditSink, g: Graph, ghost tables: seq<TableEntry>, steps: seq<Step>, i: nat,
                 id: Identity.Identifier, supply: Surrogates, start: nat, ghost before: Db, ghost counts: Counts,
                 ghost records: seq<Record>, ghost log: seq<Record>)
    returns (o: StepOutcome, next: nat, ghost all: seq<Record>)
    requires session.Valid() && Coherent(g) && Agree(g, tables) && steps == StepsUpTo(g, tables, |g.accesses|)
    requires i < |steps| && session.schema.Consistent(before)
    requires id.Composite? ==> Identity.ValidKey(id.values)
    requires Underway(session.schema, sink.log, RunTrail(log, records), Identity.Canonical(id), steps, i)
    requires Accepted(g, id) && Orderly(session.schema, g, tables) ==>
               Running(g, tables, Key(g, id), supply, before, session.db, counts, records, steps, i)
    modifies session, sink
    ensures session.Valid()
    ensures o.Booked? ==> Underway(session.schema, sink.log, RunTrail(log, all), Identity.Canonical(id), steps, i + 1)
    ensures !o.Booked? ==> sink.log == log + all
    ensures !o.Booked? ==> RunRecords(all, Identity.Canonical(id), steps, CutShortBy(i, o), sink.Heard())
    ensures o.Unbooked? ==> sink.calls > 1 && sink.down(sink.calls - 2)
    ensures o.Booked? && Accepted(g, id) && Orderly(session.schema, g, tables) ==>
              Running(g, tables, Key(g, id), supply, before, session.db, counts.Noting(steps[i], o.rows), all, steps,
                      i + 1)
    ensures Accepted(g, id) && Unfailing(session.schema, g, tables) ==> !o.Failing?
  {
    UnderwayShows(session.schema, sink.log, log, records, Identity.Canonical(id), steps, i);
    hide *;
    o, next := AuditedStep(session, sink, g, tables, steps, i, id, supply, start, before, counts, records);
    OneMoreKeyed(session.schema, steps, i);
    if o.Booked? {
      all := StepBooked(log, sink.log, records, id, steps, i, o, sink.Heard());
      UnderwayShows(session.schema, sink.log, log, all, Identity.Canonical(id), steps, i + 1);
    } else {
      all := StepCutShort(log, sink.log, records, id, steps, i, o, sink.Heard());
    }
  }

  /** Step `i` and the event of its outcome: a success that cannot be recorded is recorded as a failure. */
  method AuditedStep(session: Session, sink: AuditSink, g: Graph, ghost tables: seq<TableEntry>, steps: seq<Step>,
                     i: nat, id: Identity.Identifier, supply: Surrogates, start: nat, ghost before: Db,
                     ghost counts: Counts, ghost records: seq<Record>)
    returns (o: StepOutcome, next: nat)
    requires session.Valid() && Coherent(g) && Agree(g, tables) && steps == StepsUpTo(g, tables, |g.accesses|)
    requires i < |steps| && session.schema.Consistent(before)
    requires id.Composite? ==> Identity.ValidKey(id.values)
    requires Accepted(g, id) && Orderly(session.schema, g, tables) ==>
               Running(g, tables, Key(g, id), supply, before, session.db, counts, records, steps, i)
    modifies session, sink
    ensures session.Valid()
    ensures sink.log == old(sink.log) + StepRecords(id, steps[i], o, sink.Heard())
    ensures o.Unbooked? ==> sink.calls > 1 && sink.down(sink.calls - 2)
    ensures o.Booked? && Accepted(g, id) && Orderly(session.schema, g, tables) ==>
              Running(g, tables, Key(g, id), supply, before, session.db, counts.Noting(steps[i], o.rows),
                      records + [SuccessOf(id, steps[i], o.rows)], steps, i + 1)
    ensures Accepted(g, id) && Unfailing(session.schema, g, tables) ==> !o.Failing?
    ensures o.Booked? ==> Addressed(session.schema, steps[i])
  {
    hide *;
    var r;
    r, next := ExecuteStaged(session, g, tables, steps, i, id, supply, start, before, counts, records);
    o := BookStep(sink, steps[i], id, r);
  }

  method BookStep(sink: AuditSink, s: Step, id: Identity.Identifier, r: StepResult) returns (o: StepOutcome)
    requires id.Composite? ==> Identity.ValidKey(id.values)
    modifies sink
    ensures o == if !r.Rows? then Failing(r) else if sink.down(old(sink.calls)) then Unbooked else Booked(r.rows)
    ensures sink.calls == old(sink.calls) + if o.Unbooked? then 2 else 1
    ensures sink.log == old(sink.log) + StepRecords(id, s, o, sink.Heard())
  {
    if r.Rows? {
      var ok := sink.Append(SuccessOf(id, s, r.rows));
      if ok {
        return Booked(r.rows);
      }
    }
    var noted := sink.Append(FailureOf(id, s));
    o := if r.Rows? then Unbooked else Failing(r);
  }

  /** Step `i` of the plan, run on what the steps before it left. */
  method ExecuteStaged(session: Session, g: Graph, ghost tables: seq<TableEntry>, steps: seq<Step>, i: nat,
                       id: Identity.Identifier, supply: Surrogates, start: nat, ghost before: Db, ghost counts: Counts,
                       ghost records: seq<Record>)
    returns (r: StepResult, next: nat)
    requires session.Valid() && Coherent(g) && Agree(g, tables) && steps == StepsUpTo(g, tables, |g.accesses|)
    requires i < |steps| && session.schema.Consistent(before)
    requires id.Composite? ==> Identity.ValidKey(id.values)
    requires Accepted(g, id) && Orderly(session.schema, g, tables) ==>
               Running(g, tables, Key(g, id), supply, before, session.db, counts, records, steps, i)
    modifies session
    ensures session.Valid()
    ensures r.Rows? && Accepted(g, id) && Orderly(session.schema, g, tables) ==>
              Running(g, tables, Key(g, id), supply, before, session.db, counts.Noting(steps[i], r.rows),
                      records + [SuccessOf(id, steps[i], r.rows)], steps, i + 1)
    ensures Accepted(g, id) && Unfailing(session.schema, g, tables) ==> r.Rows?
    ensures r.Rows? ==> Addressed(session.schema, steps[i])
  {
    hide *;
    ghost var now := session.db;
    PlannedStep(session.schema, g, tables, i);
    r, next := Execute(session, g, steps[i], id, supply, start);
    AcceptedKey(g, id);
    KeyedIsAddressed(session.schema, steps[i]);
    if Accepted(g, id) && Orderly(session.schema, g, tables) {
      if r.Rows? {
        RunningAdvances(session.schema, g, tables, id, supply, before, now, session.db, counts, records, i, r.rows);
      } else if Unfailing(session.schema, g, tables) {
        RunningCannotFail(session.schema, g, tables, id, supply, before, now, counts, records, i);
      }
    }
    UnfailingIsOrderly(session.schema, g, tables);
  }

  lemma KeyedIsAddressed(schema: Schema, s: Step)
    ensures Addressed(schema, s) <==> !(s.strategy == ANONYMIZE && s.target !in schema.primaryKeys)
  {}

  lemma AcceptedKey(g: Graph, id: Identity.Identifier)
    ensures Accepted(g, id) ==>
              && Identity.SubjectValues(|g.idColumns|, id).Values?
              && Identity.SubjectValues(|g.idColumns|, id).values == Key(g, id)
  {}

  lemma UnfailingIsOrderly(schema: Schema, g: Graph, tables: seq<TableEntry>)
    ensures Unfailing(schema, g, tables) ==> Orderly(schema, g, tables)
  {}

  lemma PlannedStep(schema: Schema, g: Graph, tables: seq<TableEntry>, k: nat)
    requires Coherent(g) && Agree(g, tables) && k < |StepsUpTo(g, tables, |g.accesses|)|
    ensures var s := StepsUpTo(g, tables, |g.accesses|)[k];
            && InGraph(g, s.target)
            && (s.strategy == ANONYMIZE && Orderly(schema, g, tables) ==> FreeOfPrimaryKey(schema, s.target, s.columns))
  {
    StepFacts(schema, g, tables, StepsUpTo(g, tables, |g.accesses|), k);
  }

  lemma RunningAdvances(schema: Schema, g: Graph, tables: seq<TableEntry>, id: Identity.Identifier, supply: Surrogates,
                        before: Db, now: Db, after: Db, counts: Counts, records: seq<Record>, k: nat, rows: nat)
    requires Orderly(schema, g, tables) && k < |StepsUpTo(g, tables, |g.accesses|)|
    requires id.Composite? ==> Identity.ValidKey(id.values)
    requires var steps := StepsUpTo(g, tables, |g.accesses|);
             && Running(g, tables, Key(g, id), supply, before, now, counts, records, steps, k)
             && rows == |SubjectRows(now, g, Key(g, id), steps[k].target)|
             && StepEffect(now, after, steps[k], SubjectRows(now, g, Key(g, id), steps[k].target), supply)
    ensures var steps := StepsUpTo(g, tables, |g.accesses|);
            Running(g, tables, Key(g, id), supply, before, after, counts.Noting(steps[k], rows),
                    records + [SuccessOf(id, steps[k], rows)], steps, k + 1)
  {
    var steps := StepsUpTo(g, tables, |g.accesses|);
    StepSelectsInitialScope(g, tables, Key(g, id), supply, before, now, steps, k);
    StepAdvances(g, tables, Key(g, id), supply, before, now, after, steps, k);
    NotingCounts(counts, g, Key(g, id), before, steps, k);
    ScopeReported(records, id, g, Key(g, id), before, steps, k);
  }

  lemma ScopeReported(records: seq<Record>, id: Identity.Identifier, g: Graph, key: seq<string>, before: Db,
                      steps: seq<Step>, k: nat)
    requires id.Composite? ==> Identity.ValidKey(id.values)
    requires k < |steps| && ScopesReported(records, g, key, before, steps, k)
    ensures ScopesReported(records + [SuccessOf(id, steps[k], |SubjectRows(before, g, key, steps[k].target)|)],
                           g, key, before, steps, k + 1)
  {}

  lemma RunningCannotFail(schema: Schema, g: Graph, tables: seq<TableEntry>, id: Identity.Identifier,
                          supply: Surrogates, before: Db, now: Db, counts: Counts, records: seq<Record>, k: nat)
    requires Unfailing(schema, g, tables) && schema.Consistent(before) && k < |StepsUpTo(g, tables, |g.accesses|)|
    requires Running(g, tables, Key(g, id), supply, before, now, counts, records, StepsUpTo(g, tables, |g.accesses|), k)
    ensures var s := StepsUpTo(g, tables, |g.accesses|)[k];
            var rows := SubjectRows(now, g, Key(g, id), s.target);
            && (s.strategy == DELETE ==> schema.Consistent(WithoutRows(now, s.target, rows)))
            && (s.strategy == ANONYMIZE ==> s.target in schema.primaryKeys && FreeOfKeys(schema, s.target, s.columns))
  {
    StepCannotFail(schema, g, tables, Key(g, id), supply, before, now, k);
  }

  lemma StepFacts(schema: Schema, g: Graph, tables: seq<TableEntry>, steps: seq<Step>, k: nat)
    requires Coherent(g) && Agree(g, tables) && steps == StepsUpTo(g, tables, |g.accesses|) && k < |steps|
    ensures InGraph(g, steps[k].target)
    ensures steps[k].strategy == ANONYMIZE ==> steps[k].columns == Rewritten(g, tables, steps[k].target) != []
    ensures steps[k].strategy == ANONYMIZE && KeepsPrimaryKeys(schema, g, tables) ==>
              FreeOfPrimaryKey(schema, steps[k].target, steps[k].columns)
    ensures steps[k].strategy == ANONYMIZE && HasPrimaryKeys(schema, g, tables) ==>
              steps[k].target in schema.primaryKeys
  {
    hide StepsUpTo, Coherent, Agree, Deleted, ColumnsWhere, FreeOfPrimaryKey;
    StepIsItsTables(g, tables, |g.accesses|, steps[k]);
  }

  lemma StepCannotFail(schema: Schema, g: Graph, tables: seq<TableEntry>, key: seq<string>, supply: Surrogates,
                       before: Db, now: Db, k: nat)
    requires Unfailing(schema, g, tables) && schema.Consistent(before)
    requires k < |StepsUpTo(g, tables, |g.accesses|)|
    requires Progress(g, tables, key, supply, before, now, StepsUpTo(g, tables, |g.accesses|), k)
    ensures var s := StepsUpTo(g, tables, |g.accesses|)[k];
            var rows := SubjectRows(now, g, key, s.target);
            && (s.strategy == DELETE ==> schema.Consistent(WithoutRows(now, s.target, rows)))
            && (s.strategy == ANONYMIZE ==> s.target in schema.primaryKeys && FreeOfKeys(schema, s.target, s.columns))
  {
    var steps := StepsUpTo(g, tables, |g.accesses|);
    var s := steps[k];
    StepFacts(schema, g, tables, steps, k);
    if s.strategy == DELETE {
      var after := WithoutRows(now, s.target, SubjectRows(now, g, key, s.target));
      DeleteAdvances(g, tables, key, supply, before, now, k);
      EveryStepKeepsConsistent(schema, g, tables, key, supply, before, after, k + 1);
    }
  }

  lemma DeleteAdvances(g: Graph, tables: seq<TableEntry>, key: seq<string>, supply: Surrogates, before: Db, now: Db,
                       k: nat)
    requires Coherent(g) && Agree(g, tables) && DeletesInOrder(g, tables) && KeepsJoins(g, tables)
    requires k < |StepsUpTo(g, tables, |g.accesses|)| && StepsUpTo(g, tables, |g.accesses|)[k].strategy == DELETE
    requires Progress(g, tables, key, supply, before, now, StepsUpTo(g, tables, |g.accesses|), k)
    ensures var s := StepsUpTo(g, tables, |g.accesses|)[k];
            Progress(g, tables, key, supply, before, WithoutRows(now, s.target, SubjectRows(now, g, key, s.target)),
                     StepsUpTo(g, tables, |g.accesses|), k + 1)
  {
    hide *;
    var steps := StepsUpTo(g, tables, |g.accesses|);
    DeleteEffect(now, steps[k], SubjectRows(now, g, key, steps[k].target), supply);
    StepAdvances(g, tables, key, supply, before, now,
                 WithoutRows(now, steps[k].target, SubjectRows(now, g, key, steps[k].target)), steps, k);
  }

  lemma DeleteEffect(now: Db, s: Step, rows: set<nat>, supply: Surrogates)
    requires s.strategy == DELETE
    ensures StepEffect(now, WithoutRows(now, s.target, rows), s, rows, supply)
  {}
}

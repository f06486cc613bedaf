/** Erasing one subject: the plan, the local steps and the external work in the caller's one
    transaction, each stage in the trail. */
module SubjectErasure {
  import opened Manifest
  import opened Scoping
  import opened Planning
  import opened Store
  import opened Executor
  import opened Erasure
  import opened ErasureRun
  import opened Totals
  import Identity
  import OutboxStore
  import Routing
  import Runner
  import SagaProtocol
  import Sorting

  // --- external work -----------------------------------------------------------------------

  /** The registered resolvers, the subject's references, and the idempotency keys from `first` on. */
  datatype External = External(resolvers: seq<string>, refs: seq<Routing.Ref>, first: nat, now: int) {
    predicate Matched() {
      forall ref :: ref in refs ==> ref.kind in resolvers
    }

    function Entries(subject: string): seq<OutboxStore.Entry> {
      Routing.EntriesFor(Routing.Routed(resolvers, refs), first, subject, now)
    }
  }

  predicate HasRef(refs: seq<Routing.Ref>, kind: string) {
    exists ref :: ref in refs && ref.kind == kind
  }

  /** The resolvers with a reference, or those without, in registry order. */
  function WithRef(resolvers: seq<string>, refs: seq<Routing.Ref>, present: bool): seq<string> {
    if resolvers == [] then []
    else (if HasRef(refs, resolvers[0]) == present then [resolvers[0]] else []) + WithRef(resolvers[1..], refs, present)
  }

  lemma WithRefMembers(resolvers: seq<string>, refs: seq<Routing.Ref>, present: bool, name: string)
    ensures name in WithRef(resolvers, refs, present) <==> name in resolvers && HasRef(refs, name) == present
  {
    if resolvers != [] {
      WithRefMembers(resolvers[1..], refs, present, name);
      assert resolvers == [resolvers[0]] + resolvers[1..];
    }
  }

  /** Every entry of the list is pending in the outbox, as its own row. */
  predicate Pending(rows: OutboxStore.Rows, entries: seq<OutboxStore.Entry>) {
    forall e :: e in entries ==> e.id in rows && rows[e.id] == OutboxStore.RowOf(e)
  }

  predicate Below(rows: OutboxStore.Rows, first: nat) {
    forall id :: id in rows ==> id < first
  }

  /** Keys from above all stored ones on are fresh. */
  lemma {:induction false} KeysAreFresh(rows: OutboxStore.Rows, refs: seq<Routing.Ref>, first: nat, subject: string,
                                        now: int)
    requires Below(rows, first)
    ensures var entries := Routing.EntriesFor(refs, first, subject, now);
            OutboxStore.FreshIds(rows, entries) && Below(OutboxStore.Inserted(rows, entries), first + |refs|)
  {
    if refs != [] {
      var n := |refs| - 1;
      KeysAreFresh(rows, refs[..n], first, subject, now);
      var entries := Routing.EntriesFor(refs, first, subject, now);
      assert entries[..n] == Routing.EntriesFor(refs[..n], first, subject, now);
    }
  }

  // --- outcomes and their records -------------------------------------------------------------

  /** How an attempt ended. `NotRecorded` numbers the event the sink refused: the request is number 0,
      completion comes after the steps. */
  datatype ErasureResult =
    | Completed(counts: Counts, enqueued: seq<string>)
    | Refusal(conflict: PlanResult)
    | UnmatchedKind
    | Aborted(at: nat, why: StepResult)
    | NotEnqueued
    | NotRecorded(event: nat)

  /** The sum of one strategy's counts, in plan order. */
  function Total(steps: seq<Step>, s: Strategy, counts: map<string, nat>): nat {
    if steps == [] then 0
    else (if steps[0].strategy == s && steps[0].target in counts then counts[steps[0].target] else 0)
         + Total(steps[1..], s, counts)
  }

  function Request(subject: string, steps: seq<Step>, ext: External): Record {
    Record(subject, Requested(|steps|, |ext.resolvers|, |ext.refs|))
  }

  function Completion(subject: string, steps: seq<Step>, ext: External, c: Counts): Record {
    Record(subject, LocalCompleted(Total(steps, DELETE, c.deleted), Total(steps, ANONYMIZE, c.anonymized),
                                   Total(steps, RETAIN, c.retained), |ext.Entries(subject)|,
                                   WithRef(ext.resolvers, ext.refs, false)))
  }

  /** The trail of one attempt: the request, the steps, and completion only if nothing failed. */
  predicate ErasureRecords(records: seq<Record>, subject: string, steps: seq<Step>, ext: External, r: ErasureResult,
                           heard: bool)
  {
    match r
    case Completed(c, _) =>
      && |records| > 1
      && Opened(records, subject, steps, ext)
      && records[|records| - 1] == Completion(subject, steps, ext, c)
      && SuccessesOf(records[1..|records| - 1], subject, steps, |steps|)
    case Refusal(_) => records == []
    case UnmatchedKind => records == []
    case Aborted(at, why) =>
      Opened(records, subject, steps, ext) && RunRecords(records[1..], subject, steps, Failed(at, why), heard)
    case NotEnqueued => Opened(records, subject, steps, ext) && EnqueueCutShort(records[1..], subject, steps, heard)
    case NotRecorded(event) =>
      if event == 0 then records == []
      else if event == |steps| + 1 then
        Opened(records, subject, steps, ext) && SuccessesOf(records[1..], subject, steps, |steps|)
      else
        Opened(records, subject, steps, ext) && RunRecords(records[1..], subject, steps, Unrecorded(event - 1), heard)
  }

  predicate Opened(records: seq<Record>, subject: string, steps: seq<Step>, ext: External)
    ensures Opened(records, subject, steps, ext) ==> records != []
  {
    records != [] && records[0] == Record(subject, Requested(|steps|, |ext.resolvers|, |ext.refs|))
  }

  predicate EnqueueCutShort(records: seq<Record>, subject: string, steps: seq<Step>, heard: bool) {
    && |records| == |steps| + (if heard then 1 else 0)
    && SuccessesOf(records[..|steps|], subject, steps, |steps|)
    && (heard ==> records[|steps|] == Record(subject, EnqueueFailed))
  }

  /** A completion event reports the subject's rows, each counted once in every group its table is in: the
      tables that lost rows, those rewritten and those with something kept; and how many references were
      routed and which resolvers had none. */
  ghost predicate ReportsTotals(event: LocalEvent, g: Graph, tables: seq<TableEntry>, key: seq<string>, before: Db,
                                ext: External) {
    match event
    case LocalCompleted(deleted, anonymized, retained, enqueued, skipped) =>
      && deleted == |RowsIn(before, g, key, DeletedTables(g, tables))|
      && anonymized == |RowsIn(before, g, key, RewrittenTables(g, tables))|
      && retained == |RowsIn(before, g, key, RetainedTables(g, tables))|
      && (Sorting.NoRepeats(ext.resolvers) && ext.Matched() ==> enqueued == |ext.refs|)
      && (forall name :: name in skipped
            <==> name in ext.resolvers && forall ref :: ref in ext.refs ==> ref.kind != name)
    case _ => false
  }

  /** A completed erasure: the rows and cells it changed, the numbers it returned and recorded step by step,
      and the totals of its completion event are those of the subject's scope before it began. */
  ghost predicate Faithful(g: Graph, tables: seq<TableEntry>, id: Identity.Identifier, ext: External,
                           supply: Surrogates, before: Db, after: Db, records: seq<Record>, r: ErasureResult)
    requires Agree(g, tables)
  {
    match r
    case Completed(counts, _) =>
      var steps := StepsUpTo(g, tables, |g.accesses|);
      && Erased(g, tables, Key(g, id), supply, before, after)
      && CountsScopes(counts, g, Key(g, id), before, steps, |steps|)
      && |records| > 1
      && ScopesReported(records[1..|records| - 1], g, Key(g, id), before, steps, |steps|)
      && ReportsTotals(records[|records| - 1].event, g, tables, Key(g, id), before, ext)
    case _ => false
  }

  /** Adding up one strategy's counts along the plan counts every row of its tables once. */
  lemma {:induction false} TotalIsSize(steps: seq<Step>, s: Strategy, counts: map<string, nat>, db: Db, g: Graph,
                                       key: seq<string>)
    requires OncePerTable(steps) && forall t :: t in Totals.Targets(steps, s) ==> t in counts
    requires forall t :: t in counts ==> counts[t] == |SubjectRows(db, g, key, t)|
    ensures Total(steps, s, counts) == |RowsIn(db, g, key, Totals.Targets(steps, s))|
  {
    hide SubjectRows;
    if steps == [] {
      RowsOfNone(db, g, key);
      assert Totals.Targets(steps, s) == {};
    } else {
      TargetsCons(steps, s);
      TotalIsSize(steps[1..], s, counts, db, g, key);
      hide Totals.Targets, RowsIn, OncePerTable;
      if steps[0].strategy == s {
        OneMoreTable(db, g, key, Totals.Targets(steps[1..], s), steps[0].target);
      }
    }
  }

  lemma TargetsCons(steps: seq<Step>, s: Strategy)
    requires steps != [] && OncePerTable(steps)
    ensures OncePerTable(steps[1..])
    ensures Totals.Targets(steps, s)
            == if steps[0].strategy == s then Totals.Targets(steps[1..], s) + {steps[0].target}
               else Totals.Targets(steps[1..], s)
    ensures steps[0].strategy == s ==> steps[0].target !in Totals.Targets(steps[1..], s)
  {
    forall t ensures t in Totals.Targets(steps, s) <==>
        t in Totals.Targets(steps[1..], s) || (steps[0].strategy == s && t == steps[0].target)
    {
      if t in Totals.Targets(steps, s) {
        var j :| 0 <= j < |steps| && steps[j].strategy == s && steps[j].target == t;
        assert j > 0 ==> steps[1..][j - 1] == steps[j];
      }
      if t in Totals.Targets(steps[1..], s) {
        var j :| 0 <= j < |steps[1..]| && steps[1..][j].strategy == s && steps[1..][j].target == t;
        assert steps[j + 1] == steps[1..][j];
      }
    }
  }

  /** What becomes of the outbox: the whole of the external work once the steps are done, or nothing. */
  predicate EnqueuedWhole(before: OutboxStore.Rows, after: OutboxStore.Rows, subject: string, ext: External,
                          r: ErasureResult, steps: nat)
  {
    match r
    case Completed(_, enqueued) =>
      Inserts(before, after, ext.Entries(subject)) && enqueued == WithRef(ext.resolvers, ext.refs, true)
    case NotEnqueued => after == before && !OutboxStore.FreshIds(before, ext.Entries(subject))
    case NotRecorded(event) =>
      if event == steps + 1 then Inserts(before, after, ext.Entries(subject)) else after == before
    case Aborted(_, _) => after == before
    case Refusal(_) => after == before
    case UnmatchedKind => after == before
  }

  predicate Inserts(before: OutboxStore.Rows, after: OutboxStore.Rows, entries: seq<OutboxStore.Entry>) {
    OutboxStore.FreshIds(before, entries) && after == OutboxStore.Inserted(before, entries)
  }

  lemma CompletionTotals(g: Graph, tables: seq<TableEntry>, key: seq<string>, before: Db, subject: string,
                         ext: External,
                         c: Counts)
    requires Coherent(g) && Agree(g, tables)
    requires var steps := StepsUpTo(g, tables, |g.accesses|);
             CountsScopes(c, g, key, before, steps, |steps|)
    ensures var steps := StepsUpTo(g, tables, |g.accesses|);
            ReportsTotals(Completion(subject, steps, ext, c).event, g, tables, key, before, ext)
  {
    hide StepsUpTo, Agree, Coherent, SubjectRows, DeletedTables, RewrittenTables, RetainedTables;
    hide RowsIn, OncePerTable, Total, CountsFor;
    var steps := StepsUpTo(g, tables, |g.accesses|);
    PlanIsOncePerTable(g, tables);
    PlanTargets(g, tables);
    CountedTotal(c.deleted, g, key, before, steps, DELETE);
    CountedTotal(c.anonymized, g, key, before, steps, ANONYMIZE);
    CountedTotal(c.retained, g, key, before, steps, RETAIN);
    EntriesMatchRefs(subject, ext);
  }

  lemma CountedTotal(m: map<string, nat>, g: Graph, key: seq<string>, before: Db, steps: seq<Step>, s: Strategy)
    requires OncePerTable(steps) && CountsFor(m, g, key, before, steps, |steps|, s)
    ensures Total(steps, s, m) == |RowsIn(before, g, key, Totals.Targets(steps, s))|
  {
    TotalIsSize(steps, s, m, before, g, key);
  }

  lemma EntriesMatchRefs(subject: string, ext: External)
    ensures Sorting.NoRepeats(ext.resolvers) && ext.Matched() ==> |ext.Entries(subject)| == |ext.refs|
    ensures forall name :: name in WithRef(ext.resolvers, ext.refs, false)
                           <==> name in ext.resolvers && forall ref :: ref in ext.refs ==> ref.kind != name
  {
    if Sorting.NoRepeats(ext.resolvers) && ext.Matched() {
      var routed := Routing.Routed(ext.resolvers, ext.refs);
      Routing.EveryRefRoutedOnce(ext.resolvers, ext.refs);
      assert |routed| == |multiset(routed)| && |ext.refs| == |multiset(ext.refs)|;
    }
    forall name ensures name in WithRef(ext.resolvers, ext.refs, false)
        <==> name in ext.resolvers && forall ref :: ref in ext.refs ==> ref.kind != name
    {
      WithRefMembers(ext.resolvers, ext.refs, false, name);
    }
  }

  // --- erase_subject ------------------------------------------------------------------------------

  /** Erases one subject: refuses a conflicting manifest and a reference no resolver takes before any
      record or change; otherwise records the request, runs the plan, enqueues the external work in the
      same transaction, and records completion with the totals. An event that cannot be recorded
      ends the attempt. */
  method EraseSubject(session: Session, outbox: OutboxStore.Outbox, sink: AuditSink, g: Graph, tables: seq<TableEntry>,
                      id: Identity.Identifier, ext: External, supply: Surrogates)
    returns (r: ErasureResult, ghost records: seq<Record>)
    requires session.Valid() && Coherent(g)
    requires id.Composite? ==> Identity.ValidKey(id.values)
    modifies session, outbox, sink
    ensures session.Valid()
    ensures r.Refusal? <==> !Agree(g, tables) || !NoConflicts(g, tables)
    ensures r.UnmatchedKind? <==> !r.Refusal? && !ext.Matched()
    ensures r.Refusal? || r.UnmatchedKind? ==>
              session.db == old(session.db) && outbox.rows == old(outbox.rows) && records == []
    ensures sink.log == old(sink.log) + records
    ensures !r.Refusal? ==>
              ErasureRecords(records, Identity.Canonical(id), StepsUpTo(g, tables, |g.accesses|), ext, r, sink.Heard())
    ensures !r.Refusal? ==> var steps := |StepsUpTo(g, tables, |g.accesses|)|;
              EnqueuedWhole(old(outbox.rows), outbox.rows, Identity.Canonical(id), ext, r, steps)
    ensures r.NotRecorded? ==> !sink.NeverDown() && (r.event == 0 ==> session.db == old(session.db))
    ensures r.Completed? && Accepted(g, id) && Orderly(session.schema, g, tables) ==>
              Faithful(g, tables, id, ext, supply, old(session.db), session.db, records, r)
    ensures Accepted(g, id) && Unfailing(session.schema, g, tables) ==> !r.Refusal? && !r.Aborted?
    ensures Below(old(outbox.rows), ext.first) ==> !r.NotEnqueued?
    ensures r.Completed? ==> HasPrimaryKeys(session.schema, g, tables)
  {
    hide *;
    var plan := MakePlan(g, tables);
    PlannedIffNoConflict(session.schema, g, tables);
    if !plan.Plan? {
      return Refusal(plan), [];
    }
    r, records := ErasePlanned(session, outbox, sink, g, tables, plan.steps, id, ext, supply);
    if r.Completed? { AllAddressed(session.schema, g, tables); }
  }

  method ErasePlanned(session: Session, outbox: OutboxStore.Outbox, sink: AuditSink, g: Graph,
                      ghost tables: seq<TableEntry>, steps: seq<Step>, id: Identity.Identifier, ext: External,
                      supply: Surrogates)
    returns (r: ErasureResult, ghost records: seq<Record>)
    requires session.Valid() && Coherent(g) && Agree(g, tables) && steps == StepsUpTo(g, tables, |g.accesses|)
    requires id.Composite? ==> Identity.ValidKey(id.values)
    modifies session, outbox, sink
    ensures session.Valid() && !r.Refusal?
    ensures r.UnmatchedKind? <==> !ext.Matched()
    ensures r.UnmatchedKind? ==> session.db == old(session.db) && outbox.rows == old(outbox.rows) && records == []
    ensures sink.log == old(sink.log) + records
    ensures ErasureRecords(records, Identity.Canonical(id), steps, ext, r, sink.Heard())
    ensures EnqueuedWhole(old(outbox.rows), outbox.rows, Identity.Canonical(id), ext, r, |steps|)
    ensures r.NotRecorded? ==> !sink.NeverDown() && (r.event == 0 ==> session.db == old(session.db))
    ensures r.Completed? && Accepted(g, id) && Orderly(session.schema, g, tables) ==>
              Faithful(g, tables, id, ext, supply, old(session.db), session.db, records, r)
    ensures Accepted(g, id) && Unfailing(session.schema, g, tables) ==> !r.Aborted?
    ensures Below(old(outbox.rows), ext.first) ==> !r.NotEnqueued?
    ensures r.Completed? ==> Keyed(session.schema, steps, |steps|)
  {
    assert id.Composite? ==> id.values != [];
    assert ext.Matched() <==> !exists ref :: ref in ext.refs && ref.kind !in ext.resolvers;
    hide *;
    var entries := Routing.OutboxEntries(ext.resolvers, ext.refs, Identity.Canonical(id), ext.first, ext.now);
    if entries.UnmatchedKind? {
      EndedEarly(outbox.rows, Identity.Canonical(id), steps, ext, UnmatchedKind, sink.Heard());
      return UnmatchedKind, [];
    }
    r, records := RunPlan(session, outbox, sink, g, tables, steps, id, ext, entries.entries, supply);
  }

  /** An attempt that left no record and no change. */
  lemma EndedEarly(rows: OutboxStore.Rows, subject: string, steps: seq<Step>, ext: External, r: ErasureResult,
                   heard: bool)
    requires r.UnmatchedKind? || r == NotRecorded(0)
    ensures ErasureRecords([], subject, steps, ext, r, heard) && EnqueuedWhole(rows, rows, subject, ext, r, |steps|)
  {}

  lemma PlannedIffNoConflict(schema: Schema, g: Graph, tables: seq<TableEntry>)
    ensures NoConflicts(g, tables) <==> forall e :: e in tables ==> !Conflicting(g, tables, e)
    ensures Unfailing(schema, g, tables) ==> Agree(g, tables) && NoConflicts(g, tables)
  {}

  method RunPlan(session: Session, outbox: OutboxStore.Outbox, sink: AuditSink, g: Graph, ghost tables: seq<TableEntry>,
                 steps: seq<Step>, id: Identity.Identifier, ext: External, entries: seq<OutboxStore.Entry>,
                 supply: Surrogates)
    returns (r: ErasureResult, ghost records: seq<Record>)
    requires session.Valid() && Coherent(g) && Agree(g, tables) && steps == StepsUpTo(g, tables, |g.accesses|)
    requires id.Composite? ==> Identity.ValidKey(id.values)
    requires entries == ext.Entries(Identity.Canonical(id))
    modifies session, outbox, sink
    ensures session.Valid() && !r.Refusal? && !r.UnmatchedKind?
    ensures sink.log == old(sink.log) + records
    ensures ErasureRecords(records, Identity.Canonical(id), steps, ext, r, sink.Heard())
    ensures EnqueuedWhole(old(outbox.rows), outbox.rows, Identity.Canonical(id), ext, r, |steps|)
    ensures r.NotRecorded? ==> !sink.NeverDown() && (r.event == 0 ==> session.db == old(session.db))
    ensures r.Completed? && Accepted(g, id) && Orderly(session.schema, g, tables) ==>
              Faithful(g, tables, id, ext, supply, old(session.db), session.db, records, r)
    ensures Accepted(g, id) && Unfailing(session.schema, g, tables) ==> !r.Aborted?
    ensures Below(old(outbox.rows), ext.first) ==> !r.NotEnqueued?
    ensures r.Completed? ==> Keyed(session.schema, steps, |steps|)
  {
    assert id.Composite? ==> id.values != [];
    hide *;
    var subject := Identity.Canonical(id);
    var request := Request(subject, steps, ext);
    ghost var log := sink.log;
    var ok := sink.Append(request);
    DownOnce(sink, sink.calls - 1);
    if !ok {
      EndedEarly(outbox.rows, subject, steps, ext, NotRecorded(0), sink.Heard());
      return NotRecorded(0), [];
    }
    var run;
    ghost var middle;
    run, middle := RunLocalSteps(session, sink, g, tables, steps, id, supply);
    ErasureRun.AppendJoins(log, [request], middle);
    if !run.Done? {
      records := [request] + middle;
      r := EndedBy(run);
      CutShortRecorded(outbox.rows, middle, subject, steps, ext, run, sink.Heard());
      DownOnce(sink, sink.calls - 2);
      return;
    }
    DoneRecorded(middle, subject, steps, run, sink.Heard());
    r, records := FinishRun(outbox, sink, g, tables, steps, id, ext, entries, supply, run.counts, old(session.db),
                            session.db, middle, log);
  }

  /** How a run that was cut short ends the attempt. */
  function EndedBy(run: RunResult): (r: ErasureResult)
    requires !run.Done?
    ensures r.Aborted? <==> run.Failed?
    ensures !r.Aborted? ==> run.Unrecorded? && r == NotRecorded(run.at + 1)
  {
    if run.Failed? then Aborted(run.at, run.why) else NotRecorded(run.at + 1)
  }

  lemma DoneRecorded(records: seq<Record>, subject: string, steps: seq<Step>, run: RunResult, heard: bool)
    requires run.Done? && RunRecords(records, subject, steps, run, heard)
    ensures SuccessesOf(records, subject, steps, |steps|)
  {}

  lemma CutShortRecorded(rows: OutboxStore.Rows, middle: seq<Record>, subject: string, steps: seq<Step>, ext: External,
                         run: RunResult, heard: bool)
    requires !run.Done? && RunRecords(middle, subject, steps, run, heard)
    ensures ErasureRecords([Request(subject, steps, ext)] + middle, subject, steps, ext, EndedBy(run), heard)
    ensures EnqueuedWhole(rows, rows, subject, ext, EndedBy(run), |steps|)
  {
    assert ([Request(subject, steps, ext)] + middle)[1..] == middle;
  }

  /** After the last step: the external work in one insert, then the completion event. */
  method FinishRun(outbox: OutboxStore.Outbox, sink: AuditSink, g: Graph, ghost tables: seq<TableEntry>,
                   steps: seq<Step>, id: Identity.Identifier, ext: External, entries: seq<OutboxStore.Entry>,
                   ghost supply: Surrogates, counts: Counts, ghost before: Db, ghost after: Db,
                   ghost middle: seq<Record>, ghost log: seq<Record>)
    returns (r: ErasureResult, ghost records: seq<Record>)
    requires Coherent(g) && Agree(g, tables) && steps == StepsUpTo(g, tables, |g.accesses|)
    requires id.Composite? ==> Identity.ValidKey(id.values)
    requires entries == ext.Entries(Identity.Canonical(id))
    requires SuccessesOf(middle, Identity.Canonical(id), steps, |steps|)
    requires sink.log == log + ([Request(Identity.Canonical(id), steps, ext)] + middle)
    modifies outbox, sink
    ensures r.Completed? || r.NotEnqueued? || (r == NotRecorded(|steps| + 1) && !sink.NeverDown())
    ensures sink.log == log + records && ErasureRecords(records, Identity.Canonical(id), steps, ext, r, sink.Heard())
    ensures EnqueuedWhole(old(outbox.rows), outbox.rows, Identity.Canonical(id), ext, r, |steps|)
    ensures r.Completed? && Running(g, tables, Key(g, id), supply, before, after, counts, middle, steps, |steps|) ==>
              Faithful(g, tables, id, ext, supply, before, after, records, r)
    ensures r.Completed? ==> r.counts == counts
    ensures Below(old(outbox.rows), ext.first) ==> !r.NotEnqueued?
  {
    assert id.Composite? ==> id.values != [];
    hide *;
    var subject := Identity.Canonical(id);
    ghost var rows := outbox.rows;
    FreshAbove(rows, subject, ext);
    var ok := outbox.Enqueue(entries);
    var last := if ok then Completion(subject, steps, ext, counts) else Record(subject, EnqueueFailed);
    var taken := sink.Append(last);
    DownOnce(sink, sink.calls - 1);
    r := if !ok then NotEnqueued
         else if taken then Completed(counts, WithRef(ext.resolvers, ext.refs, true)) else NotRecorded(|steps| + 1);
    records := FinishRecorded(log, sink.log, middle, subject, steps, ext, counts, last, r, taken);
    EnqueueIsWhole(rows, outbox.rows, subject, steps, ext, r);
    CompletionIsFaithful(g, tables, id, supply, before, after, middle, ext, records, r);
  }

  lemma FreshAbove(rows: OutboxStore.Rows, subject: string, ext: External)
    ensures Below(rows, ext.first) ==> OutboxStore.FreshIds(rows, ext.Entries(subject))
  {
    if Below(rows, ext.first) {
      KeysAreFresh(rows, Routing.Routed(ext.resolvers, ext.refs), ext.first, subject, ext.now);
    }
  }

  /** The three ways a run to the last step can end, in the trail. */
  lemma FinishRecorded(log: seq<Record>, log': seq<Record>, middle: seq<Record>, subject: string, steps: seq<Step>,
                       ext: External, c: Counts, last: Record, r: ErasureResult, taken: bool)
    returns (records: seq<Record>)
    requires SuccessesOf(middle, subject, steps, |steps|)
    requires log' == if taken then log + ([Request(subject, steps, ext)] + middle) + [last]
                     else log + ([Request(subject, steps, ext)] + middle)
    requires last == if r.NotEnqueued? then Record(subject, EnqueueFailed) else Completion(subject, steps, ext, c)
    requires r.NotEnqueued? || (r.Completed? && taken && r.counts == c) || (r == NotRecorded(|steps| + 1) && !taken)
    ensures records == [Request(subject, steps, ext)] + middle + if taken then [last] else []
    ensures log' == log + records && ErasureRecords(records, subject, steps, ext, r, taken)
  {
    var request := Request(subject, steps, ext);
    records := [request] + middle + if taken then [last] else [];
    assert records[1..] == middle + if taken then [last] else [];
    assert taken ==> records[1..|records| - 1] == middle;
    assert records[1..][..|steps|] == middle;
    hide SuccessesOf;
  }

  lemma EnqueueIsWhole(rows: OutboxStore.Rows, rows': OutboxStore.Rows, subject: string, steps: seq<Step>,
                       ext: External, r: ErasureResult)
    requires r.NotEnqueued? <==> !OutboxStore.FreshIds(rows, ext.Entries(subject))
    requires rows' == if r.NotEnqueued? then rows else OutboxStore.Inserted(rows, ext.Entries(subject))
    requires r.NotEnqueued? || r.Completed? || r == NotRecorded(|steps| + 1)
    requires r.Completed? ==> r.enqueued == WithRef(ext.resolvers, ext.refs, true)
    ensures EnqueuedWhole(rows, rows', subject, ext, r, |steps|)
  {}

  lemma CompletionIsFaithful(g: Graph, tables: seq<TableEntry>, id: Identity.Identifier, supply: Surrogates, before: Db,
                             after: Db, middle: seq<Record>, ext: External, records: seq<Record>, r: ErasureResult)
    requires Coherent(g) && Agree(g, tables) && (id.Composite? ==> Identity.ValidKey(id.values))
    requires var steps, subject := StepsUpTo(g, tables, |g.accesses|), Identity.Canonical(id);
             r.Completed? ==>
               records == [Request(subject, steps, ext)] + middle + [Completion(subject, steps, ext, r.counts)]
    ensures var steps := StepsUpTo(g, tables, |g.accesses|);
            r.Completed? && Running(g, tables, Key(g, id), supply, before, after, r.counts, middle, steps, |steps|) ==>
              Faithful(g, tables, id, ext, supply, before, after, records, r)
  {
    hide StepsUpTo, Coherent, Agree, Progress, Erased, CountsScopes, ScopesReported, ReportsTotals, Request, Completion;
    var steps := StepsUpTo(g, tables, |g.accesses|);
    if r.Completed? && Running(g, tables, Key(g, id), supply, before, after, r.counts, middle, steps, |steps|) {
      assert records[1..|records| - 1] == middle;
      CompleteIsErased(g, tables, Key(g, id), supply, before, after);
      CompletionTotals(g, tables, Key(g, id), before, Identity.Canonical(id), ext, r.counts);
    }
  }

  // --- what completion means outside ----------------------------------------------------------------

  /** A completed erasure leaves one pending entry of its own for every routed reference, names exactly
      the resolvers that got one, and touches no other row. */
  lemma CompletedIsPending(before: OutboxStore.Rows, after: OutboxStore.Rows, subject: string, ext: External,
                           r: ErasureResult, steps: nat)
    requires EnqueuedWhole(before, after, subject, ext, r, steps) && r.Completed?
    ensures Pending(after, ext.Entries(subject))
    ensures forall id :: id in before ==> id in after && after[id] == before[id]
    ensures forall name :: name in r.enqueued <==> exists e :: e in ext.Entries(subject) && e.resolver == name
  {
    OutboxStore.InsertedHolds(before, ext.Entries(subject));
    forall name ensures name in r.enqueued <==> exists e :: e in ext.Entries(subject) && e.resolver == name {
      WithRefMembers(ext.resolvers, ext.refs, true, name);
      ResolverEnqueued(subject, ext, name);
    }
  }

  lemma ResolverEnqueued(subject: string, ext: External, name: string)
    ensures name in ext.resolvers && HasRef(ext.refs, name)
            <==> exists e :: e in ext.Entries(subject) && e.resolver == name
  {
    var routed, entries := Routing.Routed(ext.resolvers, ext.refs), ext.Entries(subject);
    if name in ext.resolvers && HasRef(ext.refs, name) {
      var ref :| ref in ext.refs && ref.kind == name;
      Routing.RoutedMembers(ext.resolvers, ext.refs, ref);
      var i :| 0 <= i < |routed| && routed[i] == ref;
      assert entries[i].resolver == name;
    }
    if e :| e in entries && e.resolver == name {
      var i :| 0 <= i < |entries| && entries[i] == e;
      Routing.RoutedMembers(ext.resolvers, ext.refs, routed[i]);
    }
  }

  lemma PendingIsEnqueued(s: SagaProtocol.State, entries: seq<OutboxStore.Entry>)
    requires Pending(s.rows, entries)
    ensures Routing.Enqueued(s, entries)
  {}

  /** From the erasure to the outside: whatever run goes on from the outbox a completed erasure left,
      when ERASURE_COMPLETED is appended for the subject no system holds any of its references. */
  lemma CompletedReachesEverySystem(cfg: Runner.Config, states: seq<SagaProtocol.State>, acts: seq<SagaProtocol.Action>,
                                    i: nat, n: nat, before: OutboxStore.Rows, subject: string, ext: External,
                                    r: ErasureResult, steps: nat, ref: Routing.Ref)
    requires SagaProtocol.Run(cfg, states, acts) && i <= n < |acts|
    requires EnqueuedWhole(before, states[i].rows, subject, ext, r, steps) && r.Completed?
    requires ext.Matched() && ref in ext.refs
    requires SagaProtocol.Enabled(cfg, states[n], acts[n])
    requires OutboxStore.Completed(subject, OutboxStore.ERASE) in SagaProtocol.Appended(cfg, states[n], acts[n])
    ensures SagaProtocol.Absent(states[n].world, states[n].now, (ref.kind, ref.value))
  {
    CompletedIsPending(before, states[i].rows, subject, ext, r, steps);
    PendingIsEnqueued(states[i], ext.Entries(subject));
    Routing.EnqueuedStays(cfg, states, acts, i, n, ext.Entries(subject));
    hide SagaProtocol.Run, SagaProtocol.Appended, EnqueuedWhole, Pending, Routing.Enqueued;
    SagaProtocol.EveryRunIsSound(cfg, states, acts, n);
    Routing.CompletionReachesEverySystem(cfg, states[n], acts[n], ext.resolvers, ext.refs, subject, ext.first, ext.now,
                                         ref);
  }
}

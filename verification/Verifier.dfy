/** The read-back after an erasure, and what erasing, verifying and erasing again add up to. */
module Verifier {
  import opened Manifest
  import opened Scoping
  import opened Planning
  import opened Store
  import opened Executor
  import opened Erasure
  import opened ErasureRun
  import opened Totals
  import Identity

  // --- what an erasure leaves in scope ------------------------------------------------

  lemma ErasedWithin(g: Graph, tables: seq<TableEntry>, key: seq<string>, supply: Surrogates, before: Db, after: Db,
                     t: string)
    requires KeepsJoins(g, tables) && Erased(g, tables, key, supply, before, after)
    ensures Within(g, after, before, t)
    ensures !Deleted(g, tables, t) ==> Within(g, before, after, t)
  {
    assert TableErased(g, tables, key, supply, before, after, t);
    forall r | r in TableOf(after, t) ensures SameJoins(g, t, TableOf(after, t)[r], TableOf(before, t)[r]) {}
  }

  /** After an erasure of an accepted plan a row-deleted table has no row left in the subject's
      scope, and a surviving table has exactly the rows it had: the accepted plan kept every
      survivor's chain to the subject whole. */
  lemma ScopesAfterErasure(g: Graph, tables: seq<TableEntry>, key: seq<string>, supply: Surrogates, before: Db,
                           after: Db, t: string)
    requires Coherent(g) && Agree(g, tables) && KeepsJoins(g, tables) && NoConflicts(g, tables)
    requires Erased(g, tables, key, supply, before, after)
    ensures Deleted(g, tables, t) ==> SubjectRows(after, g, key, t) == {}
    ensures !Deleted(g, tables, t) ==> SubjectRows(after, g, key, t) == SubjectRows(before, g, key, t)
  {
    forall u: string ensures Within(g, after, before, u) && (!Deleted(g, tables, u) ==> Within(g, before, after, u)) {
      ErasedWithin(g, tables, key, supply, before, after, u);
    }
    SubjectRowsShrink(g, key, t, after, before);
    if Deleted(g, tables, t) {
      assert TableErased(g, tables, key, supply, before, after, t);
    } else {
      if InGraph(g, t) {
        var e := EntryOf(tables, AccessOf(g, t).table);
        assert !Conflicting(g, tables, e);
        SubjectRowsShrink(g, key, t, before, after);
      }
    }
  }

  // --- the verifier ----------------------------------------------------------------------

  datatype Verdict = Verdict(verified: bool, residual: map<string, nat>, surviving: map<string, nat>)

  datatype VerifyResult = Read(verdict: Verdict) | Unplanned(why: PlanResult) | BadKey | NotRecorded

  /** No row-deleted table holds a row in the subject's scope. */
  ghost predicate NothingLeft(db: Db, g: Graph, tables: seq<TableEntry>, key: seq<string>) {
    forall t :: Deleted(g, tables, t) ==> SubjectRows(db, g, key, t) == {}
  }

  /** The verdict is clean exactly when nothing is left, and the two count maps are of the row-deleted
      tables and of the survivors with something to rewrite or keep. */
  ghost predicate ReadsBack(v: Verdict, db: Db, g: Graph, tables: seq<TableEntry>, key: seq<string>) {
    match v
    case Verdict(verified, residual, surviving) =>
      && (verified <==> NothingLeft(db, g, tables, key))
      && (forall t :: t in residual <==> Deleted(g, tables, t))
      && (forall t :: t in residual ==> residual[t] == |SubjectRows(db, g, key, t)|)
      && (forall t :: t in surviving <==> Rewritten(g, tables, t) != [] || Retained(g, tables, t) != [])
      && (forall t :: t in surviving ==> surviving[t] == |SubjectRows(db, g, key, t)|)
  }

  /** The counts of a map, added up along the first `n` tables of the graph. */
  function TotalRows(g: Graph, m: map<string, nat>, n: nat): nat
    requires n <= |g.accesses|
  {
    if n == 0 then 0
    else TotalRows(g, m, n - 1) + if g.accesses[n - 1].table in m then m[g.accesses[n - 1].table] else 0
  }

  lemma {:induction false} TotalIsZero(g: Graph, m: map<string, nat>, n: nat)
    requires n <= |g.accesses|
    ensures TotalRows(g, m, n) == 0
            <==> forall i :: 0 <= i < n && g.accesses[i].table in m ==> m[g.accesses[i].table] == 0
  {
    if n > 0 {
      TotalIsZero(g, m, n - 1);
    }
  }

  /** The event of one verification: how many tables were read, the rows left in each group, and the
      row-deleted tables that still hold some. */
  function VerdictRecord(g: Graph, subject: string, v: Verdict): Record {
    Record(subject, Verified(v.verified, |v.residual| + |v.surviving|, TotalRows(g, v.residual, |g.accesses|),
                             TotalRows(g, v.surviving, |g.accesses|), set t | t in v.residual && v.residual[t] > 0))
  }

  /** A verdict event tells of the scopes themselves: whether anything is left, how many tables were read,
      how many rows are left in those that lost theirs and how many survive, and which still hold some. */
  ghost predicate TellsScopes(event: LocalEvent, db: Db, g: Graph, tables: seq<TableEntry>, key: seq<string>) {
    match event
    case Verified(clean, read, left, survive, failed) =>
      var doomed, kept := DeletedTables(g, tables), RewrittenTables(g, tables) + RetainedTables(g, tables);
      && (clean <==> NothingLeft(db, g, tables, key)) && (clean <==> left == 0)
      && read == |doomed| + |kept|
      && left == |RowsIn(db, g, key, doomed)| && survive == |RowsIn(db, g, key, kept)|
      && (forall t :: t in failed <==> Deleted(g, tables, t) && SubjectRows(db, g, key, t) != {})
    case _ => false
  }

  /** The tables of the first `n` accesses that have a count. */
  ghost function CountedTables(g: Graph, m: map<string, nat>, n: nat): set<string>
    requires n <= |g.accesses|
  {
    set i | 0 <= i < n && g.accesses[i].table in m :: g.accesses[i].table
  }

  lemma {:induction false} TotalIsRows(g: Graph, m: map<string, nat>, db: Db, key: seq<string>, n: nat)
    requires Coherent(g) && n <= |g.accesses| && forall t :: t in m ==> m[t] == |SubjectRows(db, g, key, t)|
    ensures TotalRows(g, m, n) == |RowsIn(db, g, key, CountedTables(g, m, n))|
  {
    hide SubjectRows, RowsIn;
    if n == 0 {
      RowsOfNone(db, g, key);
      assert CountedTables(g, m, n) == {};
    } else {
      var t := g.accesses[n - 1].table;
      TotalIsRows(g, m, db, key, n - 1);
      assert forall i :: 0 <= i < n - 1 ==> g.accesses[i].table != t;
      if t in m {
        assert CountedTables(g, m, n) == CountedTables(g, m, n - 1) + {t};
        OneMoreTable(db, g, key, CountedTables(g, m, n - 1), t);
      } else {
        assert CountedTables(g, m, n) == CountedTables(g, m, n - 1);
      }
    }
  }

  lemma AllCounted(g: Graph, m: map<string, nat>)
    requires m.Keys <= GraphTables(g)
    ensures CountedTables(g, m, |g.accesses|) == m.Keys
  {
    forall t | t in m ensures t in CountedTables(g, m, |g.accesses|) {
      var a :| a in g.accesses && a.table == t;
      var i :| 0 <= i < |g.accesses| && g.accesses[i] == a;
    }
  }

  lemma TotalIsSize(g: Graph, m: map<string, nat>, db: Db, key: seq<string>, names: set<string>)
    requires Coherent(g) && m.Keys == names <= GraphTables(g)
    requires forall t :: t in m ==> m[t] == |SubjectRows(db, g, key, t)|
    ensures |m| == |names| && TotalRows(g, m, |g.accesses|) == |RowsIn(db, g, key, names)|
  {
    hide GraphTables, SubjectRows, RowsIn, Coherent, CountedTables, TotalRows;
    AllCounted(g, m);
    TotalIsRows(g, m, db, key, |g.accesses|);
  }

  lemma VerdictTells(subject: string, db: Db, g: Graph, tables: seq<TableEntry>, key: seq<string>, v: Verdict)
    requires Coherent(g) && ReadsBack(v, db, g, tables, key)
    ensures TellsScopes(VerdictRecord(g, subject, v).event, db, g, tables, key)
  {
    hide SubjectRows, RowsIn, Deleted, Rewritten, Retained, TotalRows, NothingLeft, Coherent;
    CleanIsZero(db, g, tables, key, v);
    ReadKeys(db, g, tables, key, v);
    TotalIsSize(g, v.residual, db, key, DeletedTables(g, tables));
    TotalIsSize(g, v.surviving, db, key, RewrittenTables(g, tables) + RetainedTables(g, tables));
  }

  lemma ReadKeys(db: Db, g: Graph, tables: seq<TableEntry>, key: seq<string>, v: Verdict)
    requires ReadsBack(v, db, g, tables, key)
    ensures v.residual.Keys == DeletedTables(g, tables) <= GraphTables(g)
    ensures v.surviving.Keys == RewrittenTables(g, tables) + RetainedTables(g, tables) <= GraphTables(g)
  {
    hide SubjectRows, Deleted, Rewritten, Retained;
    PlannedInGraph(g, tables);
  }

  lemma PlannedInGraph(g: Graph, tables: seq<TableEntry>)
    ensures forall t :: Deleted(g, tables, t) || Rewritten(g, tables, t) != [] || Retained(g, tables, t) != [] ==>
              t in GraphTables(g)
  {}

  lemma CleanIsZero(db: Db, g: Graph, tables: seq<TableEntry>, key: seq<string>, v: Verdict)
    requires ReadsBack(v, db, g, tables, key)
    ensures NothingLeft(db, g, tables, key) <==> TotalRows(g, v.residual, |g.accesses|) == 0
  {
    TotalIsZero(g, v.residual, |g.accesses|);
    forall t | Deleted(g, tables, t) ensures exists i :: 0 <= i < |g.accesses| && g.accesses[i].table == t {}
    assert NothingLeft(db, g, tables, key) <==> forall t :: t in v.residual ==> v.residual[t] == 0;
  }

  /** Counts every planned table; changes nothing. The verdict is clean exactly when no
      row-deleted table holds a row in the subject's scope, and the counts are those scopes' sizes. */
  method ReadBack(session: Session, g: Graph, tables: seq<TableEntry>, id: Identity.Identifier)
    returns (r: VerifyResult)
    requires Coherent(g)
    ensures !r.NotRecorded? && (r.Unplanned? <==> !Agree(g, tables) || !NoConflicts(g, tables))
    ensures r.Read? ==> ReadsBack(r.verdict, session.db, g, tables, Key(g, id))
    ensures r.BadKey? <==>
              && Agree(g, tables) && NoConflicts(g, tables) && StepsUpTo(g, tables, |g.accesses|) != []
              && !Identity.SubjectValues(|g.idColumns|, id).Values?
  {
    hide *;
    var plan := MakePlan(g, tables);
    PlannedUnlessConflict(g, tables);
    if !plan.Plan? {
      return Unplanned(plan);
    }
    var steps := plan.steps;
    var residual: map<string, nat>, surviving: map<string, nat> := map[], map[];
    NothingRead(session.db, g, Key(g, id), steps);
    for i := 0 to |steps|
      invariant ReadSoFar(residual, surviving, session.db, g, Key(g, id), steps, i)
      invariant i > 0 ==> Identity.SubjectValues(|g.idColumns|, id).Values?
    {
      var s := steps[i];
      var scope := SubjectScope(g, s.target, id);
      if scope.Refused? {
        return BadKey;
      }
      StepScope(g, tables, i, id);
      var n := session.Count(s.target, scope.where);
      OneMoreRead(residual, surviving, session.db, g, id, steps, i, n);
      if s.strategy == DELETE {
        residual := residual[s.target := n];
      } else {
        surviving := surviving[s.target := n];
      }
    }
    var verdict := Verdict(forall t :: t in residual ==> residual[t] == 0, residual, surviving);
    AllRead(verdict, session.db, g, tables, Key(g, id));
    r := Read(verdict);
  }

  /** Reads the subject's tables back and appends the verdict to the trail. */
  method VerifySubjectErased(session: Session, sink: AuditSink, g: Graph, tables: seq<TableEntry>,
                             id: Identity.Identifier)
    returns (r: VerifyResult)
    requires Coherent(g) && (id.Composite? ==> Identity.ValidKey(id.values))
    modifies sink
    ensures r.Unplanned? <==> !Agree(g, tables) || !NoConflicts(g, tables)
    ensures r.Read? ==> ReadsBack(r.verdict, session.db, g, tables, Key(g, id))
    ensures r.Read? ==> sink.log == old(sink.log) + [VerdictRecord(g, Identity.Canonical(id), r.verdict)]
    ensures r.Read? ==> var event := VerdictRecord(g, Identity.Canonical(id), r.verdict).event;
              TellsScopes(event, session.db, g, tables, Key(g, id))
    ensures !r.Read? ==> sink.log == old(sink.log)
    ensures r.NotRecorded? ==> sink.down(old(sink.calls)) && !sink.NeverDown()
    ensures r.BadKey? ==> !Identity.SubjectValues(|g.idColumns|, id).Values?
  {
    assert id.Composite? ==> id.values != [];
    hide *;
    r := ReadBack(session, g, tables, id);
    if r.Read? {
      VerdictTells(Identity.Canonical(id), session.db, g, tables, Key(g, id), r.verdict);
      var ok := sink.Append(VerdictRecord(g, Identity.Canonical(id), r.verdict));
      if !ok {
        r := VerifyResult.NotRecorded;
      }
    }
  }

  /** Counts read over the first `n` steps: row deletes in one map, the rest in the other. */
  ghost predicate ReadSoFar(residual: map<string, nat>, surviving: map<string, nat>, db: Db, g: Graph, key: seq<string>,
                            steps: seq<Step>, n: nat)
    requires n <= |steps|
  {
    CountsFor(residual, g, key, db, steps, n, DELETE) && CountsSurvivors(surviving, g, key, db, steps, n)
  }

  ghost predicate CountsSurvivors(m: map<string, nat>, g: Graph, key: seq<string>, db: Db, steps: seq<Step>, n: nat)
    requires n <= |steps|
  {
    && (forall t :: t in m <==> Touched(steps, n, t, ANONYMIZE) || Touched(steps, n, t, RETAIN))
    && (forall t :: t in m ==> m[t] == |SubjectRows(db, g, key, t)|)
  }

  lemma SurvivorNext(m: map<string, nat>, m': map<string, nat>, g: Graph, key: seq<string>, db: Db, steps: seq<Step>,
                     k: nat)
    requires k < |steps| && CountsSurvivors(m, g, key, db, steps, k)
    requires m' == if steps[k].strategy != DELETE then m[steps[k].target := |SubjectRows(db, g, key, steps[k].target)|]
                   else m
    ensures CountsSurvivors(m', g, key, db, steps, k + 1)
  {
    var n := k + 1;
    forall t ensures t in m' <==> Touched(steps, n, t, ANONYMIZE) || Touched(steps, n, t, RETAIN) {
      TouchedNext(steps, k, t, ANONYMIZE);
      TouchedNext(steps, k, t, RETAIN);
    }
  }

  lemma PlannedUnlessConflict(g: Graph, tables: seq<TableEntry>)
    ensures NoConflicts(g, tables) <==> forall e :: e in tables ==> !Conflicting(g, tables, e)
  {}

  lemma NothingRead(db: Db, g: Graph, key: seq<string>, steps: seq<Step>)
    ensures ReadSoFar(map[], map[], db, g, key, steps, 0)
  {}

  lemma StepScope(g: Graph, tables: seq<TableEntry>, k: nat, id: Identity.Identifier)
    requires Coherent(g) && Agree(g, tables) && k < |StepsUpTo(g, tables, |g.accesses|)|
    ensures InGraph(g, StepsUpTo(g, tables, |g.accesses|)[k].target)
  {
    StepIsItsTables(g, tables, |g.accesses|, StepsUpTo(g, tables, |g.accesses|)[k]);
  }

  lemma OneMoreRead(residual: map<string, nat>, surviving: map<string, nat>, db: Db, g: Graph, id: Identity.Identifier,
                    steps: seq<Step>, k: nat, n: nat)
    requires k < |steps| && ReadSoFar(residual, surviving, db, g, Key(g, id), steps, k)
    requires Identity.SubjectValues(|g.idColumns|, id).Values? && InGraph(g, steps[k].target)
    requires n == |Matching(db, steps[k].target, ScopeOf(g.idColumns, Identity.SubjectValues(|g.idColumns|, id).values,
                                                        AccessOf(g, steps[k].target).hops))|
    ensures steps[k].strategy == DELETE ==>
              ReadSoFar(residual[steps[k].target := n], surviving, db, g, Key(g, id), steps, k + 1)
    ensures steps[k].strategy != DELETE ==>
              ReadSoFar(residual, surviving[steps[k].target := n], db, g, Key(g, id), steps, k + 1)
  {
    var t := steps[k].target;
    hide ReadSoFar, CountsFor, CountsSurvivors;
    ReadParts(residual, surviving, db, g, Key(g, id), steps, k);
    var residual' := if steps[k].strategy == DELETE then residual[t := n] else residual;
    var surviving' := if steps[k].strategy != DELETE then surviving[t := n] else surviving;
    NotingFor(residual, residual', g, Key(g, id), db, steps, k, DELETE);
    SurvivorNext(surviving, surviving', g, Key(g, id), db, steps, k);
    ReadParts(residual', surviving', db, g, Key(g, id), steps, k + 1);
  }

  lemma ReadParts(residual: map<string, nat>, surviving: map<string, nat>, db: Db, g: Graph, key: seq<string>,
                  steps: seq<Step>, n: nat)
    requires n <= |steps|
    ensures ReadSoFar(residual, surviving, db, g, key, steps, n)
            <==> CountsFor(residual, g, key, db, steps, n, DELETE) && CountsSurvivors(surviving, g, key, db, steps, n)
  {}

  lemma AllRead(v: Verdict, db: Db, g: Graph, tables: seq<TableEntry>, key: seq<string>)
    requires Coherent(g) && Agree(g, tables)
    requires var steps := StepsUpTo(g, tables, |g.accesses|);
             ReadSoFar(v.residual, v.surviving, db, g, key, steps, |steps|)
    requires v.verified <==> forall t :: t in v.residual ==> v.residual[t] == 0
    ensures ReadsBack(v, db, g, tables, key)
  {
    var steps := StepsUpTo(g, tables, |g.accesses|);
    forall t: string
      ensures Touched(steps, |steps|, t, DELETE) <==> Deleted(g, tables, t)
      ensures Touched(steps, |steps|, t, ANONYMIZE) <==> Rewritten(g, tables, t) != []
      ensures Touched(steps, |steps|, t, RETAIN) <==> Retained(g, tables, t) != []
    {
      PlanTouches(g, tables, t);
      PlanRetains(g, tables, t);
    }
  }

  // --- erase, verify, erase again --------------------------------------------------------

  /** Verification after an erasure is clean, and it counts in every surviving table exactly the
      rows that were in scope before; a second erasure deletes nothing and selects those same rows. */
  lemma EraseVerifyErase(g: Graph, tables: seq<TableEntry>, key: seq<string>, supply: Surrogates, supply': Surrogates,
                         before: Db, after: Db, again: Db)
    requires Coherent(g) && Agree(g, tables) && KeepsJoins(g, tables) && NoConflicts(g, tables)
    requires Erased(g, tables, key, supply, before, after) && Erased(g, tables, key, supply', after, again)
    ensures NothingLeft(after, g, tables, key)
    ensures forall t :: !Deleted(g, tables, t) ==>
              |SubjectRows(after, g, key, t)| == |SubjectRows(before, g, key, t)|
    ensures forall t :: TableOf(again, t).Keys == TableOf(after, t).Keys
    ensures forall t :: SubjectRows(again, g, key, t) == SubjectRows(after, g, key, t)
  {
    forall t: string
      ensures Deleted(g, tables, t) ==> SubjectRows(after, g, key, t) == {}
      ensures !Deleted(g, tables, t) ==> SubjectRows(after, g, key, t) == SubjectRows(before, g, key, t)
      ensures TableOf(again, t).Keys == TableOf(after, t).Keys
      ensures SubjectRows(again, g, key, t) == SubjectRows(after, g, key, t)
    {
      ScopesAfterErasure(g, tables, key, supply, before, after, t);
      ScopesAfterErasure(g, tables, key, supply', after, again, t);
      assert TableErased(g, tables, key, supply', after, again, t);
    }
  }

  /** No cross-subject bleed: with unique hop targets every row of another subject, in every table,
      survives the erasure cell for cell. */
  lemma OtherSubjectsUntouched(g: Graph, tables: seq<TableEntry>, key: seq<string>, other: seq<string>,
                               supply: Surrogates, before: Db, after: Db, t: string, r: nat)
    requires Erased(g, tables, key, supply, before, after) && InGraph(g, t) && key != other
    requires UniqueTargets(before, AccessOf(g, t).hops)
    requires r in SubjectRows(before, g, other, t)
    ensures r in TableOf(after, t) && TableOf(after, t)[r] == TableOf(before, t)[r]
  {
    assert TableErased(g, tables, key, supply, before, after, t);
    if r in SubjectRows(before, g, key, t) {
      ScopesAreDisjoint(before, g.idColumns, AccessOf(g, t).hops, TableOf(before, t)[r], key, other);
    }
  }
}

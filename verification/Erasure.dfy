/** Running the plan: every step sees what the steps before it left behind, and the outcome is
    still the one the database held at the start calls for. */
module Erasure {
  import opened Manifest
  import opened Scoping
  import opened Planning
  import opened Store
  import opened Executor

  // --- conditions on the graph and the manifest ----------------------------------

  predicate AtOrAfter(g: Graph, i: nat, table: string) {
    exists j :: i <= j < |g.accesses| && g.accesses[j].table == table
  }

  /** Every table that loses rows comes after the tables whose chains pass through it. */
  predicate DeletesInOrder(g: Graph, tables: seq<TableEntry>) {
    forall i, h :: 0 <= i < |g.accesses| && h in g.accesses[i].hops && Deleted(g, tables, h.target) ==>
         AtOrAfter(g, i, h.target)
  }

  /** A column some join or the subject key is matched on. */
  predicate JoinColumn(g: Graph, table: string, column: string) {
    || (table == g.subject && column in g.idColumns)
    || exists a :: a in g.accesses && exists h :: h in a.hops && HopUses(h, table, column)
  }

  predicate HopUses(h: Hop, table: string, column: string) {
    (h.source == table && column in h.sourceColumns) || (h.target == table && column in h.targetColumns)
  }

  ghost predicate KeepsJoins(g: Graph, tables: seq<TableEntry>) {
    forall t, c :: c in Rewritten(g, tables, t) ==> !JoinColumn(g, t, c)
  }

  ghost predicate KeepsPrimaryKeys(schema: Schema, g: Graph, tables: seq<TableEntry>) {
    forall t :: FreeOfPrimaryKey(schema, t, Rewritten(g, tables, t))
  }

  /** What the order and snapshot theorems ask of a manifest: ordered chains, and no overwritten
      column that identifies a row, a subject or a join. */
  ghost predicate Orderly(schema: Schema, g: Graph, tables: seq<TableEntry>) {
    && Coherent(g) && Agree(g, tables) && DeletesInOrder(g, tables)
    && KeepsJoins(g, tables) && KeepsPrimaryKeys(schema, g, tables)
  }

  // --- the outcome, stated on the database before the erasure ------------------------

  ghost predicate TableErased(g: Graph, tables: seq<TableEntry>, key: seq<string>, supply: Surrogates, before: Db,
                              after: Db, t: string) {
    var rows := SubjectRows(before, g, key, t);
    var T, T' := TableOf(before, t), TableOf(after, t);
    var columns := Rewritten(g, tables, t);
    && T'.Keys == T.Keys - (if Deleted(g, tables, t) then rows else {})
    && (forall r :: r in T' && (r !in rows || columns == []) ==> T'[r] == T[r])
    && (forall r :: r in T' && r in rows ==> RowRewritten(T[r], T'[r], columns, supply))
  }

  /** Exactly the rows in the subject's scope before the erasure are gone or overwritten, in
      exactly the columns the manifest says; every other row and cell is untouched. */
  ghost predicate Erased(g: Graph, tables: seq<TableEntry>, key: seq<string>, supply: Surrogates, before: Db,
                         after: Db)
  {
    forall t :: TableErased(g, tables, key, supply, before, after, t)
  }

  // --- scopes only shrink ---------------------------------------------------------

  ghost predicate SameJoins(g: Graph, t: string, row: Row, row': Row) {
    forall c :: JoinColumn(g, t, c) ==> Get(row, c) == Get(row', c)
  }

  /** Every row of `small` is in `big`, with the same join columns. */
  ghost predicate Within(g: Graph, small: Db, big: Db, t: string) {
    && TableOf(small, t).Keys <= TableOf(big, t).Keys
    && forall r :: r in TableOf(small, t) ==> SameJoins(g, t, TableOf(small, t)[r], TableOf(big, t)[r])
  }

  predicate GraphHop(g: Graph, h: Hop) {
    exists a :: a in g.accesses && h in a.hops
  }

  lemma HopColumnsJoin(g: Graph, h: Hop, t: string, c: string)
    requires GraphHop(g, h) && HopUses(h, t, c)
    ensures JoinColumn(g, t, c)
  {}

  /** The rest of some table's hop chain, starting at `t`. */
  ghost predicate PathFrom(g: Graph, t: string, hops: seq<Hop>) {
    && Contiguous(t, hops)
    && (forall h :: h in hops ==> GraphHop(g, h))
    && (if hops == [] then t == g.subject else hops[|hops| - 1].target == g.subject)
  }

  lemma AccessIsPath(g: Graph, t: string)
    requires Coherent(g) && InGraph(g, t)
    ensures PathFrom(g, t, AccessOf(g, t).hops)
  {
    assert CoherentAccess(g, AccessOf(g, t));
    forall h | h in AccessOf(g, t).hops ensures GraphHop(g, h) {}
  }

  /** Removing rows and overwriting columns no join uses never adds a row to a scope. */
  lemma {:induction false} ScopeShrinks(g: Graph, key: seq<string>, t: string, hops: seq<Hop>, small: Db, big: Db,
                                        row: Row, row': Row)
    requires PathFrom(g, t, hops) && SameJoins(g, t, row, row')
    requires forall h :: h in hops ==> Within(g, small, big, h.target)
    requires Holds(small, ScopeOf(g.idColumns, key, hops), row)
    ensures Holds(big, ScopeOf(g.idColumns, key, hops), row')
    decreases |hops|
  {
    if hops == [] {
      SameProjection(row, row', g.idColumns);
    } else {
      var h := hops[0];
      var S, B := TableOf(small, h.target), TableOf(big, h.target);
      var r :| r in S && Holds(small, ScopeOf(g.idColumns, key, hops[1..]), S[r])
        && SqlEqual(Project(row, h.sourceColumns), Project(S[r], h.targetColumns));
      assert Within(g, small, big, h.target);
      assert GraphHop(g, h);
      forall c | c in h.sourceColumns ensures Get(row, c) == Get(row', c) {
        HopColumnsJoin(g, h, t, c);
      }
      forall c | c in h.targetColumns ensures Get(S[r], c) == Get(B[r], c) {
        HopColumnsJoin(g, h, h.target, c);
      }
      SameProjection(row, row', h.sourceColumns);
      SameProjection(S[r], B[r], h.targetColumns);
      assert PathFrom(g, h.target, hops[1..]) by {
        forall x | x in hops[1..] ensures GraphHop(g, x) { assert x in hops; }
      }
      ScopeShrinks(g, key, h.target, hops[1..], small, big, S[r], B[r]);
      assert r in B;
    }
  }

  /** Row sets shrink with the database. */
  lemma SubjectRowsShrink(g: Graph, key: seq<string>, t: string, small: Db, big: Db)
    requires Coherent(g) && Within(g, small, big, t)
    requires InGraph(g, t) ==> forall h :: h in AccessOf(g, t).hops ==> Within(g, small, big, h.target)
    ensures SubjectRows(small, g, key, t) <= SubjectRows(big, g, key, t)
  {
    if InGraph(g, t) {
      AccessIsPath(g, t);
      forall r | r in SubjectRows(small, g, key, t) ensures r in SubjectRows(big, g, key, t) {
        ScopeShrinks(g, key, t, AccessOf(g, t).hops, small, big, TableOf(small, t)[r], TableOf(big, t)[r]);
      }
    }
  }

  // --- part-way through the plan -----------------------------------------------------

  ghost predicate Touched(steps: seq<Step>, n: nat, t: string, s: Strategy)
    requires n <= |steps|
  {
    exists j :: 0 <= j < n && steps[j].target == t && steps[j].strategy == s
  }

  ghost predicate TableProgress(g: Graph, tables: seq<TableEntry>, key: seq<string>, supply: Surrogates, before: Db,
                                now: Db, steps: seq<Step>, n: nat, t: string)
    requires n <= |steps|
  {
    var rows := SubjectRows(before, g, key, t);
    var T, T' := TableOf(before, t), TableOf(now, t);
    && T'.Keys == T.Keys - (if Touched(steps, n, t, DELETE) then rows else {})
    && (forall r :: r in T' && !(r in rows && Touched(steps, n, t, ANONYMIZE)) ==> T'[r] == T[r])
    && (forall r :: r in T' && r in rows && Touched(steps, n, t, ANONYMIZE)
          ==> RowRewritten(T[r], T'[r], Rewritten(g, tables, t), supply))
  }

  ghost predicate Progress(g: Graph, tables: seq<TableEntry>, key: seq<string>, supply: Surrogates, before: Db, now: Db,
                           steps: seq<Step>, n: nat)
    requires n <= |steps|
  {
    forall t :: TableProgress(g, tables, key, supply, before, now, steps, n, t)
  }

  lemma ProgressWithin(g: Graph, tables: seq<TableEntry>, key: seq<string>, supply: Surrogates, before: Db, now: Db,
                       steps: seq<Step>, n: nat, t: string)
    requires KeepsJoins(g, tables) && n <= |steps| && TableProgress(g, tables, key, supply, before, now, steps, n, t)
    ensures Within(g, now, before, t)
    ensures !Touched(steps, n, t, DELETE) ==> Within(g, before, now, t)
  {
    forall r | r in TableOf(now, t) ensures SameJoins(g, t, TableOf(now, t)[r], TableOf(before, t)[r]) {}
  }

  lemma SurvivorIsWhole(g: Graph, tables: seq<TableEntry>, steps: seq<Step>, k: nat, u: string)
    requires Coherent(g) && Agree(g, tables) && steps == StepsUpTo(g, tables, |g.accesses|) && k <= |steps|
    requires !Deleted(g, tables, u)
    ensures !Touched(steps, k, u, DELETE)
  {
    hide StepsUpTo, Coherent, Agree, Deleted;
    forall j | 0 <= j < k && steps[j].target == u ensures steps[j].strategy != DELETE {
      StepIsItsTables(g, tables, |g.accesses|, steps[j]);
    }
  }

  /** No table placed at or after a step's own has lost rows when the step runs. */
  lemma LaterIsWhole(g: Graph, steps: seq<Step>, stages: seq<nat>, k: nat, u: string)
    requires Coherent(g) && Staged(g, steps, stages, |g.accesses|) && k < |steps| && AtOrAfter(g, stages[k], u)
    ensures !Touched(steps, k, u, DELETE)
  {
    var p :| stages[k] <= p < |g.accesses| && g.accesses[p].table == u;
    forall j | 0 <= j < k && steps[j].target == u ensures steps[j].strategy != DELETE {
      assert StagedAt(g, steps, stages, j) && InOrder(steps, stages, j, k);
      assert g.accesses[stages[j]].table == g.accesses[p].table;
    }
  }

  /** The tables on a step's chain, and its own table, have lost no row when the step runs. */
  lemma ChainStillWhole(g: Graph, tables: seq<TableEntry>, steps: seq<Step>, stages: seq<nat>, k: nat, u: string)
    requires Coherent(g) && Agree(g, tables) && DeletesInOrder(g, tables)
    requires steps == StepsUpTo(g, tables, |g.accesses|) && stages == StagesUpTo(g, tables, |g.accesses|) && k < |steps|
    requires InGraph(g, steps[k].target)
    requires u == steps[k].target || exists h :: h in AccessOf(g, steps[k].target).hops && h.target == u
    ensures !Touched(steps, k, u, DELETE)
  {
    if Deleted(g, tables, u) {
      PlanIsStaged(g, tables, |g.accesses|);
      assert StagedAt(g, steps, stages, k);
      AccessIsUnique(g, stages[k]);
      assert AtOrAfter(g, stages[k], u);
      hide StepsUpTo, StagesUpTo, Coherent, Agree, DeletesInOrder, Deleted;
      LaterIsWhole(g, steps, stages, k, u);
    } else {
      hide StepsUpTo, StagesUpTo, Coherent, Agree, DeletesInOrder, Deleted;
      SurvivorIsWhole(g, tables, steps, k, u);
    }
  }

  /** When a step runs, the rows it selects are the rows in scope before the erasure began. */
  lemma StepSelectsInitialScope(g: Graph, tables: seq<TableEntry>, key: seq<string>, supply: Surrogates, before: Db,
                                now: Db, steps: seq<Step>, k: nat)
    requires Coherent(g) && Agree(g, tables) && DeletesInOrder(g, tables) && KeepsJoins(g, tables)
    requires steps == StepsUpTo(g, tables, |g.accesses|) && k < |steps|
    requires Progress(g, tables, key, supply, before, now, steps, k)
    ensures InGraph(g, steps[k].target)
    ensures SubjectRows(now, g, key, steps[k].target) == SubjectRows(before, g, key, steps[k].target)
  {
    var t := steps[k].target;
    StepIsItsTables(g, tables, |g.accesses|, steps[k]);
    forall u | u == t || exists h :: h in AccessOf(g, t).hops && h.target == u
      ensures Within(g, now, before, u) && Within(g, before, now, u)
    {
      ChainStillWhole(g, tables, steps, StagesUpTo(g, tables, |g.accesses|), k, u);
      assert TableProgress(g, tables, key, supply, before, now, steps, k, u);
      ProgressWithin(g, tables, key, supply, before, now, steps, k, u);
    }
    SubjectRowsShrink(g, key, t, now, before);
    SubjectRowsShrink(g, key, t, before, now);
  }

  /** A step of the plan advances the progress by exactly itself. */
  lemma StepAdvances(g: Graph, tables: seq<TableEntry>, key: seq<string>, supply: Surrogates, before: Db, now: Db,
                     after: Db, steps: seq<Step>, k: nat)
    requires Coherent(g) && Agree(g, tables) && DeletesInOrder(g, tables) && KeepsJoins(g, tables)
    requires steps == StepsUpTo(g, tables, |g.accesses|) && k < |steps|
    requires Progress(g, tables, key, supply, before, now, steps, k)
    requires StepEffect(now, after, steps[k], SubjectRows(now, g, key, steps[k].target), supply)
    ensures Progress(g, tables, key, supply, before, after, steps, k + 1)
  {
    var s := steps[k];
    StepSelectsInitialScope(g, tables, key, supply, before, now, steps, k);
    StepIsItsTables(g, tables, |g.accesses|, s);
    ChainStillWhole(g, tables, steps, StagesUpTo(g, tables, |g.accesses|), k, s.target);
    EffectIsLocal(now, after, s, SubjectRows(before, g, key, s.target), supply);
    hide StepEffect, TableProgress, Touched, StepsUpTo, Agree, KeepsJoins;
    var n := k + 1;
    forall t: string ensures TableProgress(g, tables, key, supply, before, after, steps, n, t) {
      assert TableProgress(g, tables, key, supply, before, now, steps, k, t);
      if t == s.target {
        OwnTableAdvances(g, tables, key, supply, before, now, after, steps, k);
      } else {
        OtherTableAdvances(g, tables, key, supply, before, now, after, steps, k, t);
      }
    }
  }

  lemma EffectIsLocal(now: Db, after: Db, s: Step, rows: set<nat>, supply: Surrogates)
    requires StepEffect(now, after, s, rows, supply)
    ensures forall t :: t != s.target ==> TableOf(after, t) == TableOf(now, t)
  {}

  lemma TouchedNext(steps: seq<Step>, k: nat, t: string, strategy: Strategy)
    requires k < |steps|
    ensures Touched(steps, k + 1, t, strategy)
            <==> Touched(steps, k, t, strategy) || (steps[k].target == t && steps[k].strategy == strategy)
  {}

  lemma OtherTableAdvances(g: Graph, tables: seq<TableEntry>, key: seq<string>, supply: Surrogates, before: Db, now: Db,
                           after: Db, steps: seq<Step>, k: nat, t: string)
    requires k < |steps| && t != steps[k].target && TableOf(after, t) == TableOf(now, t)
    requires TableProgress(g, tables, key, supply, before, now, steps, k, t)
    ensures TableProgress(g, tables, key, supply, before, after, steps, k + 1, t)
  {
    TouchedNext(steps, k, t, DELETE);
    TouchedNext(steps, k, t, ANONYMIZE);
  }

  /** The table a step targets. */
  lemma OwnTableAdvances(g: Graph, tables: seq<TableEntry>, key: seq<string>, supply: Surrogates, before: Db, now: Db,
                         after: Db, steps: seq<Step>, k: nat)
    requires k < |steps|
    requires TableProgress(g, tables, key, supply, before, now, steps, k, steps[k].target)
    requires StepEffect(now, after, steps[k], SubjectRows(before, g, key, steps[k].target), supply)
    requires !Touched(steps, k, steps[k].target, DELETE)
    requires InGraph(g, steps[k].target) && Declares(tables, steps[k].target)
    requires steps[k] in TableSteps(EntryOf(tables, steps[k].target), Deleted(g, tables, steps[k].target))
    ensures TableProgress(g, tables, key, supply, before, after, steps, k + 1, steps[k].target)
  {
    var t := steps[k].target;
    var rows := SubjectRows(before, g, key, t);
    TouchedNext(steps, k, t, DELETE);
    TouchedNext(steps, k, t, ANONYMIZE);
    if steps[k].strategy == ANONYMIZE {
      assert steps[k].columns == Rewritten(g, tables, t);
      forall r | r in TableOf(after, t) && r in rows
        ensures RowRewritten(TableOf(before, t)[r], TableOf(after, t)[r], Rewritten(g, tables, t), supply)
      {
        var now' := TableOf(now, t)[r];
        assert RowRewritten(now', TableOf(after, t)[r], Rewritten(g, tables, t), supply);
      }
    }
  }

  /** The whole plan: part-way progress has become the erasure of the initial scope. */
  lemma CompleteIsErased(g: Graph, tables: seq<TableEntry>, key: seq<string>, supply: Surrogates, before: Db, after: Db)
    requires Coherent(g) && Agree(g, tables)
    requires var steps := StepsUpTo(g, tables, |g.accesses|);
             Progress(g, tables, key, supply, before, after, steps, |steps|)
    ensures Erased(g, tables, key, supply, before, after)
  {
    hide StepsUpTo, Coherent, Agree, Deleted, Rewritten, Touched, SubjectRows;
    var steps := StepsUpTo(g, tables, |g.accesses|);
    forall t ensures TableErased(g, tables, key, supply, before, after, t) {
      assert TableProgress(g, tables, key, supply, before, after, steps, |steps|, t);
      PlanTouches(g, tables, t);
    }
  }

  lemma PlanTouches(g: Graph, tables: seq<TableEntry>, t: string)
    requires Coherent(g) && Agree(g, tables)
    ensures var steps := StepsUpTo(g, tables, |g.accesses|);
            && (Touched(steps, |steps|, t, DELETE) <==> Deleted(g, tables, t))
            && (Touched(steps, |steps|, t, ANONYMIZE) <==> Rewritten(g, tables, t) != [])
  {
    hide StepsUpTo, Coherent, Agree, Deleted, Rewritten;
    var steps := StepsUpTo(g, tables, |g.accesses|);
    PlanHoldsChanges(g, tables, t);
    forall j | 0 <= j < |steps| && steps[j].target == t
      ensures steps[j].strategy == DELETE <==> Deleted(g, tables, t)
      ensures steps[j].strategy == ANONYMIZE ==> Rewritten(g, tables, t) != []
    {
      StepChanges(g, tables, steps[j]);
    }
  }

  lemma PlanHoldsChanges(g: Graph, tables: seq<TableEntry>, t: string)
    requires Coherent(g) && Agree(g, tables)
    ensures var steps := StepsUpTo(g, tables, |g.accesses|);
            && (Deleted(g, tables, t) ==> Touched(steps, |steps|, t, DELETE))
            && (Rewritten(g, tables, t) != [] ==> Touched(steps, |steps|, t, ANONYMIZE))
  {
    if Deleted(g, tables, t) {
      PlanHolds(g, tables, t, Step(t, DELETE, []));
    } else if Rewritten(g, tables, t) != [] {
      PlanHolds(g, tables, t, Step(t, ANONYMIZE, Rewritten(g, tables, t)));
    }
  }

  lemma StepChanges(g: Graph, tables: seq<TableEntry>, s: Step)
    requires Coherent(g) && Agree(g, tables) && s in StepsUpTo(g, tables, |g.accesses|)
    ensures s.strategy == DELETE <==> Deleted(g, tables, s.target)
    ensures s.strategy == ANONYMIZE ==> Rewritten(g, tables, s.target) != []
  {
    hide StepsUpTo, Coherent, Agree, Deleted, ColumnsWhere;
    StepIsItsTables(g, tables, |g.accesses|, s);
  }

  lemma PlanRetains(g: Graph, tables: seq<TableEntry>, t: string)
    requires Coherent(g) && Agree(g, tables)
    ensures var steps := StepsUpTo(g, tables, |g.accesses|);
            Touched(steps, |steps|, t, RETAIN) <==> Retained(g, tables, t) != []
  {
    hide Coherent, Agree, StepsUpTo, Retained;
    var steps := StepsUpTo(g, tables, |g.accesses|);
    if Retained(g, tables, t) != [] {
      PlanHoldsRetained(g, tables, t);
    }
    if Touched(steps, |steps|, t, RETAIN) {
      RetainStepRetains(g, tables, t);
    }
  }

  lemma RetainStepRetains(g: Graph, tables: seq<TableEntry>, t: string)
    requires Coherent(g) && Agree(g, tables)
    requires var steps := StepsUpTo(g, tables, |g.accesses|);
             Touched(steps, |steps|, t, RETAIN)
    ensures Retained(g, tables, t) != []
  {
    hide Coherent, Agree, StepsUpTo, ColumnsWhere, Deleted;
    var steps := StepsUpTo(g, tables, |g.accesses|);
    var j :| 0 <= j < |steps| && steps[j].target == t && steps[j].strategy == RETAIN;
    StepIsItsTables(g, tables, |g.accesses|, steps[j]);
  }

  lemma PlanHoldsRetained(g: Graph, tables: seq<TableEntry>, t: string)
    requires Coherent(g) && Agree(g, tables) && Retained(g, tables, t) != []
    ensures var steps := StepsUpTo(g, tables, |g.accesses|);
            Touched(steps, |steps|, t, RETAIN)
  {
    PlanHolds(g, tables, t, Step(t, RETAIN, Retained(g, tables, t)));
  }

  lemma PlanHolds(g: Graph, tables: seq<TableEntry>, t: string, s: Step)
    requires Coherent(g) && Agree(g, tables) && InGraph(g, t) && Declares(tables, t)
    requires s in TableSteps(EntryOf(tables, t), Deleted(g, tables, t))
    ensures var steps := StepsUpTo(g, tables, |g.accesses|);
            exists j :: 0 <= j < |steps| && steps[j] == s
  {
    var i :| 0 <= i < |g.accesses| && g.accesses[i] == AccessOf(g, t);
    PlanCoversTable(g, tables, i, |g.accesses|, s);
  }

  // --- what the plan holds -----------------------------------------------------------------

  /** The column is annotated in the table's entry, as RETAIN or as something else. */
  predicate Annotated(e: TableEntry, column: string, retained: bool) {
    exists c :: c in e.columns && c.name == column && (c.erasure == RETAIN <==> retained)
  }

  lemma SurvivorColumns(g: Graph, tables: seq<TableEntry>, t: string)
    requires InGraph(g, t) && Declares(tables, t) && !Deleted(g, tables, t)
    ensures forall c :: c in Rewritten(g, tables, t) <==> Annotated(EntryOf(tables, t), c, false)
    ensures forall c :: c in Retained(g, tables, t) <==> Annotated(EntryOf(tables, t), c, true)
    ensures Rewritten(g, tables, t) == [] <==> forall c :: !Annotated(EntryOf(tables, t), c, false)
    ensures Retained(g, tables, t) == [] <==> forall c :: !Annotated(EntryOf(tables, t), c, true)
  {
    var e := EntryOf(tables, t);
    forall c
      ensures c in Rewritten(g, tables, t) <==> Annotated(e, c, false)
      ensures c in Retained(g, tables, t) <==> Annotated(e, c, true)
    {
      ColumnsWhereMembers(e.columns, false, c);
      ColumnsWhereMembers(e.columns, true, c);
    }
    hide Deleted, ColumnsWhere, Annotated;
    assert Rewritten(g, tables, t) != [] ==> Rewritten(g, tables, t)[0] in Rewritten(g, tables, t);
    assert Retained(g, tables, t) != [] ==> Retained(g, tables, t)[0] in Retained(g, tables, t);
  }

  /** Each step is what its table calls for: the delete of a table that loses rows, or for a survivor the
      rewrite of every annotated column that is not RETAIN and the retention of those that are. */
  lemma StepsAreCalledFor(g: Graph, tables: seq<TableEntry>, s: Step)
    requires Coherent(g) && Agree(g, tables) && s in StepsUpTo(g, tables, |g.accesses|)
    ensures InGraph(g, s.target) && Declares(tables, s.target)
    ensures s.strategy == DELETE <==> Deleted(g, tables, s.target)
    ensures s.strategy == DELETE ==> s.columns == []
    ensures s.strategy != DELETE ==>
              forall c :: c in s.columns <==> Annotated(EntryOf(tables, s.target), c, s.strategy == RETAIN)
  {
    StepIsItsTables(g, tables, |g.accesses|, s);
    hide StepsUpTo, Coherent, Agree, ColumnsWhere, Annotated;
    if !Deleted(g, tables, s.target) { SurvivorColumns(g, tables, s.target); }
  }

  /** And every table's steps are in the plan. */
  lemma PlanIsComplete(g: Graph, tables: seq<TableEntry>, t: string)
    requires Coherent(g) && Agree(g, tables) && InGraph(g, t) && Declares(tables, t)
    ensures var steps := StepsUpTo(g, tables, |g.accesses|);
            && (Deleted(g, tables, t) ==> Touched(steps, |steps|, t, DELETE))
            && (!Deleted(g, tables, t) ==>
                  && (Touched(steps, |steps|, t, ANONYMIZE) <==> exists c :: Annotated(EntryOf(tables, t), c, false))
                  && (Touched(steps, |steps|, t, RETAIN) <==> exists c :: Annotated(EntryOf(tables, t), c, true)))
  {
    hide StepsUpTo, Coherent, Agree, Deleted, Annotated, Rewritten, Retained, Touched;
    PlanTouches(g, tables, t);
    PlanRetains(g, tables, t);
    if !Deleted(g, tables, t) { SurvivorColumns(g, tables, t); }
  }
}

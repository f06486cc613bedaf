/** The rows of a subject over several tables at once, and what adding counts up comes to. */
module Totals {
  import opened Manifest
  import opened Scoping
  import opened Planning
  import opened Executor
  import opened Erasure

  /** The subject's rows in some tables, each with the table it is in. */
  ghost function RowsIn(db: Db, g: Graph, key: seq<string>, names: set<string>): set<(string, nat)> {
    set t, r | t in names && r in SubjectRows(db, g, key, t) :: (t, r)
  }

  lemma RowsOfNone(db: Db, g: Graph, key: seq<string>)
    ensures RowsIn(db, g, key, {}) == {}
  {}

  ghost function Tagged(t: string, rows: set<nat>): set<(string, nat)> {
    set r | r in rows :: (t, r)
  }

  lemma {:induction false} TaggedSize(t: string, rows: set<nat>)
    ensures |Tagged(t, rows)| == |rows|
    decreases |rows|
  {
    if rows != {} {
      var x :| x in rows;
      TaggedSize(t, rows - {x});
      assert Tagged(t, rows) == Tagged(t, rows - {x}) + {(t, x)};
      assert (t, x) !in Tagged(t, rows - {x});
    }
  }

  /** One more table adds its own rows. */
  lemma OneMoreTable(db: Db, g: Graph, key: seq<string>, names: set<string>, t: string)
    requires t !in names
    ensures |RowsIn(db, g, key, names + {t})| == |RowsIn(db, g, key, names)| + |SubjectRows(db, g, key, t)|
  {
    hide SubjectRows;
    var before, own := RowsIn(db, g, key, names), Tagged(t, SubjectRows(db, g, key, t));
    TaggedSize(t, SubjectRows(db, g, key, t));
    assert RowsIn(db, g, key, names + {t}) == before + own;
    assert before !! own;
  }

  // --- the tables of a plan ------------------------------------------------------------------

  ghost function GraphTables(g: Graph): set<string> {
    set a | a in g.accesses :: a.table
  }

  ghost function DeletedTables(g: Graph, tables: seq<TableEntry>): set<string> {
    set t | t in GraphTables(g) && Deleted(g, tables, t)
  }

  ghost function RewrittenTables(g: Graph, tables: seq<TableEntry>): set<string> {
    set t | t in GraphTables(g) && Rewritten(g, tables, t) != []
  }

  ghost function RetainedTables(g: Graph, tables: seq<TableEntry>): set<string> {
    set t | t in GraphTables(g) && Retained(g, tables, t) != []
  }

  /** The tables some step of that strategy targets. */
  ghost function Targets(steps: seq<Step>, s: Strategy): set<string> {
    set j | 0 <= j < |steps| && steps[j].strategy == s :: steps[j].target
  }

  /** No table has two steps of one strategy. */
  predicate OncePerTable(steps: seq<Step>) {
    forall i, j :: 0 <= i < j < |steps| ==>
      steps[i].target != steps[j].target || steps[i].strategy != steps[j].strategy
  }

  lemma PlanIsOncePerTable(g: Graph, tables: seq<TableEntry>)
    requires Coherent(g) && Agree(g, tables)
    ensures OncePerTable(StepsUpTo(g, tables, |g.accesses|))
  {
    var steps, stages := StepsUpTo(g, tables, |g.accesses|), StagesUpTo(g, tables, |g.accesses|);
    PlanIsStaged(g, tables, |g.accesses|);
    hide StepsUpTo, StagesUpTo, Agree;
    forall i, j | 0 <= i < j < |steps|
      ensures steps[i].target != steps[j].target || steps[i].strategy != steps[j].strategy
    {
      assert StagedAt(g, steps, stages, i) && StagedAt(g, steps, stages, j) && InOrder(steps, stages, i, j);
    }
  }

  lemma PlanTargets(g: Graph, tables: seq<TableEntry>)
    requires Coherent(g) && Agree(g, tables)
    ensures var steps := StepsUpTo(g, tables, |g.accesses|);
            && Targets(steps, DELETE) == DeletedTables(g, tables)
            && Targets(steps, ANONYMIZE) == RewrittenTables(g, tables)
            && Targets(steps, RETAIN) == RetainedTables(g, tables)
  {
    var steps := StepsUpTo(g, tables, |g.accesses|);
    forall t ensures t in Targets(steps, DELETE) <==> t in DeletedTables(g, tables)
      ensures t in Targets(steps, ANONYMIZE) <==> t in RewrittenTables(g, tables)
      ensures t in Targets(steps, RETAIN) <==> t in RetainedTables(g, tables)
    {
      PlanTouches(g, tables, t);
      PlanRetains(g, tables, t);
      forall j | 0 <= j < |steps| ensures steps[j].target in GraphTables(g) {
        StepIsItsTables(g, tables, |g.accesses|, steps[j]);
      }
    }
  }
}

/** The erasure plan: which tables lose rows, which are rewritten in place, and in what order. */
module Planning {
  import opened Manifest
  import opened Wrappers

  datatype Step = Step(target: string, strategy: Strategy, columns: seq<string>)

  datatype PlanResult =
    | Plan(steps: seq<Step>)
    | Disagreement
    | RetentionViolation(table: string, ancestor: string)
    | UnerasableDependent(table: string, ancestor: string)

  // --- classification --------------------------------------------------------

  /** Whole-row deletion: the row is fully owned and every annotated column is DELETE. */
  predicate RowDeleted(g: Graph, e: TableEntry) {
    InGraph(g, e.name) && AccessOf(g, e.name).fullyOwned && forall c :: c in e.columns ==> c.erasure == DELETE
  }

  predicate Deleted(g: Graph, tables: seq<TableEntry>, name: string) {
    exists e :: e in tables && e.name == name && RowDeleted(g, e)
  }

  function ColumnsWhere(columns: seq<Column>, retained: bool): seq<string> {
    if columns == [] then []
    else (if (columns[0].erasure == RETAIN) == retained then [columns[0].name] else [])
         + ColumnsWhere(columns[1..], retained)
  }

  lemma ColumnsWhereMembers(columns: seq<Column>, retained: bool, name: string)
    ensures name in ColumnsWhere(columns, retained)
            <==> exists c :: c in columns && c.name == name && (c.erasure == RETAIN) == retained
  {
    if columns != [] {
      ColumnsWhereMembers(columns[1..], retained, name);
      assert columns == [columns[0]] + columns[1..];
    }
  }

  /** One table's steps: a row delete, or column-level anonymise and retain. */
  function TableSteps(e: TableEntry, rowDeleted: bool): seq<Step> {
    if rowDeleted then [Step(e.name, DELETE, [])]
    else
      var anonymize := ColumnsWhere(e.columns, false);
      var retain := ColumnsWhere(e.columns, true);
      (if anonymize != [] then [Step(e.name, ANONYMIZE, anonymize)] else [])
      + if retain != [] then [Step(e.name, RETAIN, retain)] else []
  }

  /** The planner's tables: the manifest and the graph describe the same set. */
  predicate Agree(g: Graph, tables: seq<TableEntry>) {
    && (forall e :: e in tables ==> InGraph(g, e.name))
    && (forall a :: a in g.accesses ==> Declares(tables, a.table))
  }

  function StepsAt(g: Graph, tables: seq<TableEntry>, i: nat): seq<Step>
    requires Agree(g, tables) && i < |g.accesses|
  {
    var name := g.accesses[i].table;
    TableSteps(EntryOf(tables, name), Deleted(g, tables, name))
  }

  /** The steps of the first `n` tables in deletion order. */
  function StepsUpTo(g: Graph, tables: seq<TableEntry>, n: nat): seq<Step>
    requires Agree(g, tables) && n <= |g.accesses|
  {
    if n == 0 then [] else StepsUpTo(g, tables, n - 1) + StepsAt(g, tables, n - 1)
  }

  // --- conflicts ---------------------------------------------------------------

  /** The table is the first on the hop chain whose rows are planned for deletion. */
  predicate FirstDoomed(g: Graph, tables: seq<TableEntry>, hops: seq<Hop>, table: string) {
    exists i :: 0 <= i < |hops| && hops[i].target == table && Deleted(g, tables, table)
      && forall k :: 0 <= k < i ==> !Deleted(g, tables, hops[k].target)
  }

  lemma FirstDoomedCons(g: Graph, tables: seq<TableEntry>, hops: seq<Hop>, table: string)
    requires hops != [] && !Deleted(g, tables, hops[0].target) && FirstDoomed(g, tables, hops[1..], table)
    ensures FirstDoomed(g, tables, hops, table)
  {
    var i :| 0 <= i < |hops[1..]| && hops[1..][i].target == table && Deleted(g, tables, table)
      && forall k :: 0 <= k < i ==> !Deleted(g, tables, hops[1..][k].target);
    forall k | 0 <= k < i + 1 ensures !Deleted(g, tables, hops[k].target) {
      assert k > 0 ==> hops[1..][k - 1] == hops[k];
    }
    assert hops[i + 1] == hops[1..][i];
  }

  /** The first table on a hop chain whose rows are planned for deletion. */
  function DeletedAncestor(g: Graph, tables: seq<TableEntry>, hops: seq<Hop>): (a: seq<string>)
    ensures a != [] ==> |a| == 1 && FirstDoomed(g, tables, hops, a[0])
    ensures a == [] <==> forall h :: h in hops ==> !Deleted(g, tables, h.target)
  {
    if hops == [] then []
    else if Deleted(g, tables, hops[0].target) then [hops[0].target]
    else
      var rest := DeletedAncestor(g, tables, hops[1..]);
      if rest != [] then FirstDoomedCons(g, tables, hops, rest[0]); rest else rest
  }

  /** A surviving table whose path to the subject runs through a table that loses rows. */
  predicate Conflicting(g: Graph, tables: seq<TableEntry>, e: TableEntry) {
    && InGraph(g, e.name)
    && !Deleted(g, tables, e.name)
    && exists h :: h in AccessOf(g, e.name).hops && Deleted(g, tables, h.target)
  }

  predicate Retains(e: TableEntry) {
    exists c :: c in e.columns && c.erasure == RETAIN
  }

  /** The first entry that conflicts is of that table, and the named ancestor is the first doomed table on
      its chain. */
  predicate Refuses(g: Graph, tables: seq<TableEntry>, table: string, ancestor: string, retains: bool) {
    exists i :: 0 <= i < |tables| && RefusedAt(g, tables, i, table, ancestor, retains)
  }

  predicate RefusedAt(g: Graph, tables: seq<TableEntry>, i: nat, table: string, ancestor: string, retains: bool)
    requires i < |tables|
  {
    && tables[i].name == table && Conflicting(g, tables, tables[i])
    && ((exists c :: c in tables[i].columns && c.erasure == RETAIN) <==> retains)
    && (forall k :: 0 <= k < i ==> !Conflicting(g, tables, tables[k]))
    && FirstDoomed(g, tables, AccessOf(g, table).hops, ancestor)
  }

  /** Computes the plan, or refuses it: exactly the manifests without conflict get a plan, and a
      refusal names a surviving table and the doomed table its path runs through. */
  method MakePlan(g: Graph, tables: seq<TableEntry>) returns (r: PlanResult)
    requires Coherent(g)
    ensures r.Disagreement? <==> !Agree(g, tables)
    ensures r.Plan? <==> Agree(g, tables) && forall e :: e in tables ==> !Conflicting(g, tables, e)
    ensures r.Plan? ==> r.steps == StepsUpTo(g, tables, |g.accesses|)
    ensures r.RetentionViolation? ==> Refuses(g, tables, r.table, r.ancestor, true)
    ensures r.UnerasableDependent? ==> Refuses(g, tables, r.table, r.ancestor, false)
  {
    if !Agree(g, tables) {
      return Disagreement;
    }
    for i := 0 to |tables|
      invariant forall k :: 0 <= k < i ==> !Conflicting(g, tables, tables[k])
    {
      var e := tables[i];
      if !Deleted(g, tables, e.name) {
        var ancestor := DeletedAncestor(g, tables, AccessOf(g, e.name).hops);
        if ancestor != [] {
          assert RefusedAt(g, tables, i, e.name, ancestor[0], Retains(e));
          if Retains(e) {
            return RetentionViolation(e.name, ancestor[0]);
          }
          return UnerasableDependent(e.name, ancestor[0]);
        }
      }
    }
    var steps := [];
    for i := 0 to |g.accesses|
      invariant steps == StepsUpTo(g, tables, i)
    {
      steps := steps + StepsAt(g, tables, i);
    }
    r := Plan(steps);
  }

  // --- what the plan does to columns ---------------------------------------------

  /** The columns of a table the plan overwrites. */
  function Rewritten(g: Graph, tables: seq<TableEntry>, name: string): seq<string> {
    if Declares(tables, name) && InGraph(g, name) && !Deleted(g, tables, name)
    then ColumnsWhere(EntryOf(tables, name).columns, false)
    else []
  }

  /** The columns of a table the plan keeps as they are. */
  function Retained(g: Graph, tables: seq<TableEntry>, name: string): seq<string> {
    if Declares(tables, name) && InGraph(g, name) && !Deleted(g, tables, name)
    then ColumnsWhere(EntryOf(tables, name).columns, true)
    else []
  }

  /** What retention of a column comes down to in the manifest: no entry of its table offers the rows
      for deletion, and the table's first entry says nothing else about the column. */
  predicate Guarded(g: Graph, tables: seq<TableEntry>, name: string, column: string)
    requires InGraph(g, name) && Declares(tables, name)
  {
    && (forall e :: e in tables && e.name == name && AccessOf(g, name).fullyOwned ==>
         exists c :: c in e.columns && c.erasure != DELETE)
    && (forall c :: c in EntryOf(tables, name).columns && c.name == column ==> c.erasure == RETAIN)
  }

  /** Retention is sacred exactly so far: a RETAIN column's table never loses a row and the column is
      never overwritten if and only if the manifest guards it. */
  lemma RetainedIsUntouched(g: Graph, tables: seq<TableEntry>, e: TableEntry, c: Column)
    requires Coherent(g) && Agree(g, tables) && e in tables && c in e.columns && c.erasure == RETAIN
    ensures InGraph(g, e.name) && Declares(tables, e.name)
    ensures !Deleted(g, tables, e.name) && c.name !in Rewritten(g, tables, e.name)
            <==> Guarded(g, tables, e.name, c.name)
  {
    ColumnsWhereMembers(EntryOf(tables, e.name).columns, false, c.name);
  }

  /** Collecting each table and column once guards every retained column. */
  lemma CollectedIsGuarded(g: Graph, tables: seq<TableEntry>, e: TableEntry, c: Column)
    requires Coherent(g) && Agree(g, tables) && Collected(tables) && e in tables && c in e.columns
    requires c.erasure == RETAIN
    ensures InGraph(g, e.name) && Declares(tables, e.name) && Guarded(g, tables, e.name, c.name)
  {
    EntryIsUnique(tables, e);
    forall f | f in tables && f.name == e.name ensures f == e { EntryIsUnique(tables, f); }
    forall d | d in e.columns && d.name == c.name ensures d == c {
      var i :| 0 <= i < |e.columns| && e.columns[i] == d;
      var j :| 0 <= j < |e.columns| && e.columns[j] == c;
      assert DistinctColumns(e);
    }
  }

  /** A manifest that lists a table twice can lose that guarantee: one entry retains a column, the
      other makes the planner delete the table's rows, and the plan is not refused. */
  lemma RepeatedEntryDeletesRetained()
    ensures exists g: Graph, tables: seq<TableEntry>, e: TableEntry, c: Column ::
              && Coherent(g) && Agree(g, tables)
              && e in tables && c in e.columns && c.erasure == RETAIN
              && (forall f :: f in tables ==> DistinctColumns(f) && !Conflicting(g, tables, f))
              && StepsUpTo(g, tables, |g.accesses|) == [Step(e.name, DELETE, [])]
  {
    var c := Column("c", RETAIN);
    var e, twin := TableEntry("t", None, [c]), TableEntry("t", None, []);
    var a := Access("t", [], true);
    var g := Graph("t", ["id"], [a]);
    var tables := [e, twin];
    assert a in g.accesses && e in tables && twin in tables;
    assert c in e.columns;
    assert AccessOf(g, "t") == a;
    assert RowDeleted(g, twin);
    assert Deleted(g, tables, "t");
    assert StepsUpTo(g, tables, 1) == StepsUpTo(g, tables, 0) + StepsAt(g, tables, 0) == [Step("t", DELETE, [])];
    assert forall f :: f in tables ==> DistinctColumns(f) && !Conflicting(g, tables, f);
  }

  // --- the order of the steps ------------------------------------------------------

  /** The table position each step belongs to. */
  function StagesUpTo(g: Graph, tables: seq<TableEntry>, n: nat): seq<nat>
    requires Agree(g, tables) && n <= |g.accesses|
  {
    if n == 0 then []
    else StagesUpTo(g, tables, n - 1) + seq(|StepsAt(g, tables, n - 1)|, i => n - 1)
  }

  /** Step j is staged at table position p. */
  predicate StagedAt(g: Graph, steps: seq<Step>, stages: seq<nat>, j: nat) {
    && j < |steps| == |stages|
    && stages[j] < |g.accesses|
    && steps[j].target == g.accesses[stages[j]].table
  }

  /** Earlier steps belong to earlier tables, or are the rewrite before the same table's retain. */
  predicate InOrder(steps: seq<Step>, stages: seq<nat>, i: nat, j: nat)
    requires i < j < |steps| == |stages|
  {
    stages[i] < stages[j] || (stages[i] == stages[j] && steps[i].strategy == ANONYMIZE && steps[j].strategy == RETAIN)
  }

  /** The steps are staged at their tables and in order. */
  predicate Staged(g: Graph, steps: seq<Step>, stages: seq<nat>, n: nat) {
    && |steps| == |stages|
    && (forall j :: 0 <= j < |steps| ==> StagedAt(g, steps, stages, j) && stages[j] < n)
    && (forall i, j :: 0 <= i < j < |steps| ==> InOrder(steps, stages, i, j))
  }

  lemma TableStepsShape(e: TableEntry, rowDeleted: bool)
    ensures var steps := TableSteps(e, rowDeleted);
            && |steps| <= 2
            && (forall k :: 0 <= k < |steps| ==> steps[k].target == e.name)
            && (|steps| == 2 ==> steps[0].strategy == ANONYMIZE && steps[1].strategy == RETAIN)
  {}

  lemma OneMoreStage(g: Graph, before: seq<Step>, stagesBefore: seq<nat>, more: seq<Step>, n: nat)
    requires n < |g.accesses| && Staged(g, before, stagesBefore, n)
    requires |more| <= 2 && forall k :: 0 <= k < |more| ==> more[k].target == g.accesses[n].table
    requires |more| == 2 ==> more[0].strategy == ANONYMIZE && more[1].strategy == RETAIN
    ensures Staged(g, before + more, stagesBefore + seq(|more|, i => n), n + 1)
  {
    var steps, stages, m := before + more, stagesBefore + seq(|more|, i => n), |before|;
    forall j | 0 <= j < |steps| ensures StagedAt(g, steps, stages, j) && stages[j] < n + 1 {
      assert j < m ==> StagedAt(g, before, stagesBefore, j);
    }
    forall i, j | 0 <= i < j < |steps| ensures InOrder(steps, stages, i, j) {
      assert j < m ==> InOrder(before, stagesBefore, i, j);
      assert i < m ==> StagedAt(g, before, stagesBefore, i);
    }
  }

  lemma NextStage(g: Graph, tables: seq<TableEntry>, k: nat)
    requires Agree(g, tables) && k < |g.accesses|
    requires Staged(g, StepsUpTo(g, tables, k), StagesUpTo(g, tables, k), k)
    ensures Staged(g, StepsUpTo(g, tables, k + 1), StagesUpTo(g, tables, k + 1), k + 1)
  {
    var name := g.accesses[k].table;
    var more := StepsAt(g, tables, k);
    assert more == TableSteps(EntryOf(tables, name), Deleted(g, tables, name));
    assert StepsUpTo(g, tables, k + 1) == StepsUpTo(g, tables, k) + more;
    assert StagesUpTo(g, tables, k + 1) == StagesUpTo(g, tables, k) + seq(|more|, i => k);
    hide *;
    TableStepsShape(EntryOf(tables, name), Deleted(g, tables, name));
    OneMoreStage(g, StepsUpTo(g, tables, k), StagesUpTo(g, tables, k), more, k);
  }

  lemma {:induction false} PlanIsStaged(g: Graph, tables: seq<TableEntry>, n: nat)
    requires Agree(g, tables) && n <= |g.accesses|
    ensures Staged(g, StepsUpTo(g, tables, n), StagesUpTo(g, tables, n), n)
  {
    hide *;
    if n == 0 {
      NothingStaged(g, tables);
    } else {
      PlanIsStaged(g, tables, n - 1);
      NextStage(g, tables, n - 1);
    }
  }

  lemma NothingStaged(g: Graph, tables: seq<TableEntry>)
    requires Agree(g, tables)
    ensures Staged(g, StepsUpTo(g, tables, 0), StagesUpTo(g, tables, 0), 0)
  {}

  /** A table's steps are in the plan once the plan reaches it. */
  lemma {:induction false} PlanCoversTable(g: Graph, tables: seq<TableEntry>, i: nat, n: nat, s: Step)
    requires Agree(g, tables) && i < n <= |g.accesses| && s in StepsAt(g, tables, i)
    ensures s in StepsUpTo(g, tables, n)
    decreases n
  {
    hide StepsAt, Agree;
    if i < n - 1 { PlanCoversTable(g, tables, i, n - 1, s); }
  }

  /** Every step of the plan is one of its own table's steps. */
  lemma TableStepsTarget(e: TableEntry, rowDeleted: bool, s: Step)
    requires s in TableSteps(e, rowDeleted)
    ensures s.target == e.name
  {}

  lemma {:induction false} StepIsItsTables(g: Graph, tables: seq<TableEntry>, n: nat, s: Step)
    requires Agree(g, tables) && n <= |g.accesses| && s in StepsUpTo(g, tables, n)
    ensures InGraph(g, s.target) && Declares(tables, s.target)
    ensures s in TableSteps(EntryOf(tables, s.target), Deleted(g, tables, s.target))
  {
    if s in StepsAt(g, tables, n - 1) {
      var name := g.accesses[n - 1].table;
      assert g.accesses[n - 1] in g.accesses;
      TableStepsTarget(EntryOf(tables, name), Deleted(g, tables, name), s);
      hide TableSteps, Deleted;
    } else {
      hide StepsAt, TableSteps, Deleted, Agree;
      StepIsItsTables(g, tables, n - 1, s);
    }
  }
}

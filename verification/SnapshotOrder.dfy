/** The deletion order erasure needs, exactly: a plan run step by step erases what the starting
    database calls for if and only if every table that loses rows comes late enough. */
module SnapshotOrder {
  import opened Manifest
  import opened Scoping
  import opened Planning
  import opened Store
  import opened Executor
  import opened Erasure
  import opened ErasureRun
  import opened UniformStore

  // --- runs of a plan --------------------------------------------------------------------

  ghost predicate Ran(g: Graph, key: seq<string>, supply: Surrogates, steps: seq<Step>, dbs: seq<Db>, k: nat)
    requires k + 1 < |dbs| && k < |steps|
  {
    StepEffect(dbs[k], dbs[k + 1], steps[k], SubjectRows(dbs[k], g, key, steps[k].target), supply)
  }

  /** The databases a plan goes through, each step selecting its rows on what the last one left. */
  ghost predicate PlanRun(g: Graph, tables: seq<TableEntry>, key: seq<string>, supply: Surrogates, dbs: seq<Db>)
    requires Agree(g, tables)
  {
    var steps := StepsUpTo(g, tables, |g.accesses|);
    |dbs| == |steps| + 1 && forall k :: 0 <= k < |steps| ==> Ran(g, key, supply, steps, dbs, k)
  }

  /** Whatever the data and the subject, running the plan erases exactly the initial scope. */
  ghost predicate ErasesSnapshot(g: Graph, tables: seq<TableEntry>)
    requires Agree(g, tables)
  {
    forall key, supply, dbs :: PlanRun(g, tables, key, supply, dbs) ==>
         Erased(g, tables, key, supply, dbs[0], dbs[|dbs| - 1])
  }

  // --- in order: every run erases the snapshot ---------------------------------------------

  ghost predicate Reaches(g: Graph, tables: seq<TableEntry>, key: seq<string>, supply: Surrogates, steps: seq<Step>,
                          dbs: seq<Db>, n: nat) {
    n < |dbs| && n <= |steps| && Progress(g, tables, key, supply, dbs[0], dbs[n], steps, n)
  }

  lemma NothingRan(g: Graph, tables: seq<TableEntry>, key: seq<string>, supply: Surrogates, steps: seq<Step>,
                   dbs: seq<Db>)
    requires dbs != []
    ensures Reaches(g, tables, key, supply, steps, dbs, 0)
  {}

  lemma NextRan(g: Graph, tables: seq<TableEntry>, key: seq<string>, supply: Surrogates, steps: seq<Step>, dbs: seq<Db>,
                k: nat)
    requires Coherent(g) && Agree(g, tables) && DeletesInOrder(g, tables) && KeepsJoins(g, tables)
    requires steps == StepsUpTo(g, tables, |g.accesses|)
    requires k + 1 < |dbs| && k < |steps| && Ran(g, key, supply, steps, dbs, k)
    requires Reaches(g, tables, key, supply, steps, dbs, k)
    ensures Reaches(g, tables, key, supply, steps, dbs, k + 1)
  {
    hide Coherent, Agree, DeletesInOrder, KeepsJoins, Progress, StepsUpTo, StepEffect, SubjectRows;
    StepAdvances(g, tables, key, supply, dbs[0], dbs[k], dbs[k + 1], steps, k);
  }

  lemma RunProgresses(g: Graph, tables: seq<TableEntry>, key: seq<string>, supply: Surrogates, steps: seq<Step>,
                      dbs: seq<Db>)
    requires Coherent(g) && Agree(g, tables) && DeletesInOrder(g, tables) && KeepsJoins(g, tables)
    requires steps == StepsUpTo(g, tables, |g.accesses|)
    requires |dbs| == |steps| + 1 && forall k :: 0 <= k < |steps| ==> Ran(g, key, supply, steps, dbs, k)
    ensures Reaches(g, tables, key, supply, steps, dbs, |steps|)
  {
    hide *;
    NothingRan(g, tables, key, supply, steps, dbs);
    for n := 0 to |steps|
      invariant Reaches(g, tables, key, supply, steps, dbs, n)
    {
      NextRan(g, tables, key, supply, steps, dbs, n);
    }
  }

  lemma InOrderErases(g: Graph, tables: seq<TableEntry>)
    requires Coherent(g) && Agree(g, tables) && DeletesInOrder(g, tables) && KeepsJoins(g, tables)
    ensures ErasesSnapshot(g, tables)
  {
    forall key, supply, dbs | PlanRun(g, tables, key, supply, dbs)
      ensures Erased(g, tables, key, supply, dbs[0], dbs[|dbs| - 1])
    {
      RunProgresses(g, tables, key, supply, StepsUpTo(g, tables, |g.accesses|), dbs);
      hide Progress, StepsUpTo, Agree, Coherent, DeletesInOrder, KeepsJoins, Erased;
      CompleteIsErased(g, tables, key, supply, dbs[0], dbs[|dbs| - 1]);
    }
  }

  // --- a run from any database --------------------------------------------------------------

  function AfterStep(db: Db, s: Step, rows: set<nat>, supply: Surrogates): Db {
    match s.strategy
    case DELETE => WithoutRows(db, s.target, rows)
    case ANONYMIZE => WithValues(db, s.target, rows, map c | c in s.columns :: Val(supply(0)))
    case RETAIN => db
  }

  lemma AfterStepIsEffect(db: Db, s: Step, rows: set<nat>, supply: Surrogates)
    ensures StepEffect(db, AfterStep(db, s, rows, supply), s, rows, supply)
  {
    if s.strategy == ANONYMIZE {
      var T, T' := TableOf(db, s.target), TableOf(AfterStep(db, s, rows, supply), s.target);
      assert Replaced(Val(supply(0)), supply);
      forall r | r in T && r in rows ensures RowRewritten(T[r], T'[r], s.columns, supply) {}
    }
  }

  lemma {:induction false} PlanRunFrom(g: Graph, key: seq<string>, supply: Surrogates, steps: seq<Step>, db: Db, n: nat)
    returns (dbs: seq<Db>)
    requires n <= |steps|
    ensures |dbs| == n + 1 && dbs[0] == db && forall k :: 0 <= k < n ==> Ran(g, key, supply, steps, dbs, k)
  {
    if n == 0 {
      dbs := [db];
    } else {
      var before := PlanRunFrom(g, key, supply, steps, db, n - 1);
      var rows := SubjectRows(before[n - 1], g, key, steps[n - 1].target);
      AfterStepIsEffect(before[n - 1], steps[n - 1], rows, supply);
      dbs := before + [AfterStep(before[n - 1], steps[n - 1], rows, supply)];
      hide StepEffect, AfterStep;
      forall k | 0 <= k < n ensures Ran(g, key, supply, steps, dbs, k) {
        if k < n - 1 { assert Ran(g, key, supply, steps, before, k); }
      }
    }
  }

  // --- the database with everything in scope --------------------------------------------------

  function SameEverywhere(g: Graph): Db {
    Uniform(ChainTables(g), JoinColumns(g))
  }

  lemma TableIsInScope(g: Graph, t: string)
    requires Coherent(g) && InGraph(g, t)
    ensures TableOf(SameEverywhere(g), t).Keys == {0}
    ensures SubjectRows(SameEverywhere(g), g, UniformKey(g), t) == {0}
  {
    EveryTableInScope(g, ChainTables(g), JoinColumns(g), t);
  }

  // --- out of order: some run does not --------------------------------------------------------

  lemma {:induction false} EmptyBreaksChain(db: Db, idColumns: seq<string>, key: seq<string>, hops: seq<Hop>, h: Hop,
                                            row: Row)
    requires h in hops && TableOf(db, h.target) == map[]
    ensures !Holds(db, ScopeOf(idColumns, key, hops), row)
    decreases |hops|
  {
    if hops[0] != h {
      assert h in hops[1..];
      forall r | r in TableOf(db, hops[0].target)
        ensures !Holds(db, ScopeOf(idColumns, key, hops[1..]), TableOf(db, hops[0].target)[r])
      {
        EmptyBreaksChain(db, idColumns, key, hops[1..], h, TableOf(db, hops[0].target)[r]);
      }
    }
  }

  lemma OneStepKeys(g: Graph, key: seq<string>, supply: Surrogates, steps: seq<Step>, dbs: seq<Db>, k: nat, t: string)
    requires k < |steps| && k + 1 < |dbs| && Ran(g, key, supply, steps, dbs, k)
    ensures TableOf(dbs[k + 1], t).Keys <= TableOf(dbs[k], t).Keys
    ensures steps[k].target != t ==> TableOf(dbs[k + 1], t) == TableOf(dbs[k], t)
    ensures SubjectRows(dbs[k], g, key, steps[k].target) == {} ==>
              TableOf(dbs[k + 1], t).Keys == TableOf(dbs[k], t).Keys
  {
    hide SubjectRows, RowRewritten;
  }

  /** A table is as it will be once the last step on it is over. */
  lemma {:induction false} StaysSettled(g: Graph, key: seq<string>, supply: Surrogates, steps: seq<Step>, dbs: seq<Db>,
                                        k: nat, n: nat, t: string)
    requires k <= n <= |steps| && |dbs| == |steps| + 1
    requires forall j :: 0 <= j < |steps| ==> Ran(g, key, supply, steps, dbs, j)
    requires forall j :: k <= j < n ==> steps[j].target != t
    ensures TableOf(dbs[k], t) == TableOf(dbs[n], t)
    decreases n - k
  {
    if k < n {
      var m := n - 1;
      StaysSettled(g, key, supply, steps, dbs, k, m, t);
      assert Ran(g, key, supply, steps, dbs, m);
      OneStepKeys(g, key, supply, steps, dbs, m, t);
    }
  }

  lemma {:induction false} KeysShrink(g: Graph, key: seq<string>, supply: Surrogates, steps: seq<Step>, dbs: seq<Db>,
                                      n: nat, t: string)
    requires n <= |steps| && |dbs| == |steps| + 1
    requires forall j :: 0 <= j < |steps| ==> Ran(g, key, supply, steps, dbs, j)
    ensures TableOf(dbs[n], t).Keys <= TableOf(dbs[0], t).Keys
  {
    if n > 0 {
      var m := n - 1;
      KeysShrink(g, key, supply, steps, dbs, m, t);
      assert Ran(g, key, supply, steps, dbs, m);
      OneStepKeys(g, key, supply, steps, dbs, m, t);
    }
  }

  /** Every step on `t` comes after the last step on `u`, and `t` reaches the subject over `u`. */
  ghost predicate Behind(g: Graph, steps: seq<Step>, t: string, u: string) {
    && InGraph(g, t) && (exists h :: h in AccessOf(g, t).hops && h.target == u)
    && forall j, k :: 0 <= k <= j < |steps| && steps[k].target == t ==> steps[j].target != u
  }

  /** When the table the path leads over ends up empty, the table behind it loses nothing. */
  lemma {:induction false} BehindKeepsRows(g: Graph, key: seq<string>, supply: Surrogates, steps: seq<Step>,
                                           dbs: seq<Db>, t: string, u: string, n: nat)
    requires |dbs| == |steps| + 1 && (forall j :: 0 <= j < |steps| ==> Ran(g, key, supply, steps, dbs, j))
    requires Behind(g, steps, t, u) && TableOf(dbs[|steps|], u).Keys == {} && n <= |steps|
    ensures TableOf(dbs[n], t).Keys == TableOf(dbs[0], t).Keys
  {
    if n > 0 {
      var k := n - 1;
      BehindKeepsRows(g, key, supply, steps, dbs, t, u, k);
      assert Ran(g, key, supply, steps, dbs, k);
      if steps[k].target == t {
        StaysSettled(g, key, supply, steps, dbs, k, |steps|, u);
        assert TableOf(dbs[k], u) == map[];
        var h :| h in AccessOf(g, t).hops && h.target == u;
        forall r | r in TableOf(dbs[k], t)
          ensures !Holds(dbs[k], ScopeOf(g.idColumns, key, AccessOf(g, t).hops), TableOf(dbs[k], t)[r])
        {
          EmptyBreaksChain(dbs[k], g.idColumns, key, AccessOf(g, t).hops, h, TableOf(dbs[k], t)[r]);
        }
        assert SubjectRows(dbs[k], g, key, t) == {};
      }
      OneStepKeys(g, key, supply, steps, dbs, k, t);
    }
  }

  lemma EarlierIsBehind(g: Graph, tables: seq<TableEntry>, i: nat, h: Hop)
    requires Coherent(g) && Agree(g, tables) && i < |g.accesses| && h in g.accesses[i].hops
    requires !AtOrAfter(g, i, h.target)
    ensures Behind(g, StepsUpTo(g, tables, |g.accesses|), g.accesses[i].table, h.target)
  {
    hide StepsUpTo, StagesUpTo, Agree, Coherent, Staged, AtOrAfter;
    var steps, stages := StepsUpTo(g, tables, |g.accesses|), StagesUpTo(g, tables, |g.accesses|);
    PlanIsStaged(g, tables, |g.accesses|);
    AccessIsUnique(g, i);
    StagesApart(g, steps, stages, i, h.target);
  }

  lemma StagesApart(g: Graph, steps: seq<Step>, stages: seq<nat>, i: nat, u: string)
    requires Coherent(g) && Staged(g, steps, stages, |g.accesses|) && i < |g.accesses| && !AtOrAfter(g, i, u)
    ensures forall j, k :: 0 <= k <= j < |steps| && steps[k].target == g.accesses[i].table ==> steps[j].target != u
  {
    hide CoherentAccess;
    forall j, k | 0 <= k <= j < |steps| && steps[k].target == g.accesses[i].table ensures steps[j].target != u {
      assert StagedAt(g, steps, stages, k) && StagedAt(g, steps, stages, j);
      assert stages[k] == i;
      assert k < j ==> InOrder(steps, stages, k, j);
      assert i <= stages[j] < |g.accesses|;
    }
  }

  /** A row-deleted table deleted before one whose chain passes through it: on the database with
      everything in scope no run of the plan erases the snapshot. */
  lemma OutOfOrderFails(g: Graph, tables: seq<TableEntry>, i: nat, h: Hop, supply: Surrogates, dbs: seq<Db>)
    requires Coherent(g) && Agree(g, tables) && NoConflicts(g, tables)
    requires i < |g.accesses| && h in g.accesses[i].hops && Deleted(g, tables, h.target) && !AtOrAfter(g, i, h.target)
    requires PlanRun(g, tables, UniformKey(g), supply, dbs) && dbs[0] == SameEverywhere(g)
    ensures !Erased(g, tables, UniformKey(g), supply, dbs[0], dbs[|dbs| - 1])
  {
    var steps, t, u := StepsUpTo(g, tables, |g.accesses|), g.accesses[i].table, h.target;
    var last := dbs[|steps|];
    DoomedBehind(g, tables, i, h);
    EarlierIsBehind(g, tables, i, h);
    TableIsInScope(g, t);
    TableIsInScope(g, u);
    KeysShrink(g, UniformKey(g), supply, steps, dbs, |steps|, u);
    hide Coherent, Agree, NoConflicts, StepsUpTo, SameEverywhere, SubjectRows, Ran, Behind;
    if 0 in TableOf(last, u) {
      assert !TableErased(g, tables, UniformKey(g), supply, dbs[0], last, u);
    } else {
      assert TableOf(last, u).Keys == {};
      BehindKeepsRows(g, UniformKey(g), supply, steps, dbs, t, u, |steps|);
      assert !TableErased(g, tables, UniformKey(g), supply, dbs[0], last, t);
    }
  }

  lemma DoomedBehind(g: Graph, tables: seq<TableEntry>, i: nat, h: Hop)
    requires Coherent(g) && Agree(g, tables) && NoConflicts(g, tables)
    requires i < |g.accesses| && h in g.accesses[i].hops && Deleted(g, tables, h.target)
    ensures Deleted(g, tables, g.accesses[i].table) && InGraph(g, g.accesses[i].table) && InGraph(g, h.target)
  {
    AccessIsUnique(g, i);
    assert g.accesses[i] in g.accesses;
    assert !Conflicting(g, tables, EntryOf(tables, g.accesses[i].table));
  }

  /** Sequential erasure equals snapshot erasure, for every subject and every database, if and only
      if every table that loses rows is placed at or after the tables whose chains pass through it. */
  lemma SnapshotOrderIsExact(g: Graph, tables: seq<TableEntry>)
    requires Coherent(g) && Agree(g, tables) && NoConflicts(g, tables) && KeepsJoins(g, tables)
    ensures ErasesSnapshot(g, tables) <==> DeletesInOrder(g, tables)
  {
    if DeletesInOrder(g, tables) {
      InOrderErases(g, tables);
    } else {
      var i, h :|
        0 <= i < |g.accesses| && h in g.accesses[i].hops && Deleted(g, tables, h.target) && !AtOrAfter(g, i, h.target);
      hide *;
      OutOfOrderRun(g, tables, i, h);
    }
  }

  lemma OutOfOrderRun(g: Graph, tables: seq<TableEntry>, i: nat, h: Hop)
    requires Coherent(g) && Agree(g, tables) && NoConflicts(g, tables)
    requires i < |g.accesses| && h in g.accesses[i].hops && Deleted(g, tables, h.target) && !AtOrAfter(g, i, h.target)
    ensures !ErasesSnapshot(g, tables)
  {
    hide Coherent, Agree, NoConflicts, Deleted, AtOrAfter, StepsUpTo, Erased, Ran, SameEverywhere, UniformKey;
    var supply: Surrogates := n => "";
    var steps := StepsUpTo(g, tables, |g.accesses|);
    var dbs := PlanRunFrom(g, UniformKey(g), supply, steps, SameEverywhere(g), |steps|);
    assert PlanRun(g, tables, UniformKey(g), supply, dbs);
    OutOfOrderFails(g, tables, i, h, supply, dbs);
  }
}

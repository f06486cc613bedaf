/** What a referring table left out of an erasure costs: a consistent store on which it cannot succeed. */
module Dangling {
  import opened Manifest
  import opened Scoping
  import opened Planning
  import opened Store
  import opened Executor
  import opened Erasure
  import opened ErasureRun
  import opened Resolution
  import opened Declared
  import opened SnapshotOrder
  import opened UniformStore

  /** A consistent store and a subject whose erasure leaves it inconsistent, whatever the surrogates: some
      statement on the way is refused. */
  ghost predicate Refutes(schema: Schema, g: Graph, tables: seq<TableEntry>, key: seq<string>, db: Db) {
    && schema.Consistent(db)
    && forall supply, after :: Erased(g, tables, key, supply, db, after) ==> !schema.Consistent(after)
  }

  ghost predicate Refutable(schema: Schema, g: Graph, tables: seq<TableEntry>) {
    exists key, db :: Refutes(schema, g, tables, key, db)
  }

  // --- a surviving referrer refutes ---------------------------------------------------------------

  lemma ReferrerIsLeft(schema: Schema, g: Graph, tables: seq<TableEntry>, f: ForeignKey, T: set<string>, C: set<string>,
                       supply: Surrogates, after: Db)
    requires Coherent(g) && f in schema.foreignKeys && PairedKeys(schema)
    requires Deleted(g, tables, f.parent) && !Deleted(g, tables, f.child)
    requires ChainTables(g) <= T && JoinColumns(g) <= C && KeyTables(schema) <= T && KeyColumns(schema) <= C
    requires Erased(g, tables, UniformKey(g), supply, Uniform(T, C), after)
    ensures !KeyHolds(after, f)
  {
    hide Coherent, SubjectRows;
    var before := Uniform(T, C);
    EveryTableInScope(g, T, C, f.parent);
    assert TableErased(g, tables, UniformKey(g), supply, before, after, f.parent);
    assert TableErased(g, tables, UniformKey(g), supply, before, after, f.child);
    assert f.child in KeyTables(schema);
    assert TableOf(after, f.parent).Keys == {} && 0 in TableOf(after, f.child);
    var row := TableOf(after, f.child)[0];
    forall c | c in f.childColumns ensures Get(row, c) != Null {
      assert c in KeyColumns(schema);
      ErasedCellIsThere(g, tables, supply, T, C, after, f.child, c);
    }
    assert !References(after, f, row);
  }

  /** An erasure leaves no NULL where there was none. */
  lemma ErasedCellIsThere(g: Graph, tables: seq<TableEntry>, supply: Surrogates, T: set<string>, C: set<string>,
                          after: Db, t: string, c: string)
    requires TableErased(g, tables, UniformKey(g), supply, Uniform(T, C), after, t)
    requires t in T && c in C && 0 in TableOf(after, t)
    ensures Get(TableOf(after, t)[0], c) != Null
  {
    var row := TableOf(Uniform(T, C), t)[0];
    assert Get(row, c) == Val("v");
    hide SubjectRows, Rewritten;
  }

  lemma SurvivingReferrerRefutes(schema: Schema, g: Graph, tables: seq<TableEntry>, f: ForeignKey)
    requires Coherent(g) && f in schema.foreignKeys && PairedKeys(schema)
    requires Deleted(g, tables, f.parent) && !Deleted(g, tables, f.child)
    ensures Refutable(schema, g, tables)
  {
    var T, C := ChainTables(g) + KeyTables(schema), JoinColumns(g) + KeyColumns(schema);
    UniformIsConsistent(schema, T, C);
    hide Erased, Deleted, Uniform, ChainTables, JoinColumns, KeyTables, KeyColumns;
    forall supply, after | Erased(g, tables, UniformKey(g), supply, Uniform(T, C), after)
      ensures !schema.Consistent(after)
    {
      ReferrerIsLeft(schema, g, tables, f, T, C, supply, after);
    }
    assert Refutes(schema, g, tables, UniformKey(g), Uniform(T, C));
  }

  // --- with every referrer on its path nothing does ------------------------------------------------

  lemma OnPathIsIrrefutable(schema: Schema, g: Graph, tables: seq<TableEntry>, key: seq<string>, db: Db)
    requires Coherent(g) && Agree(g, tables) && DeletesInOrder(g, tables) && NoConflicts(g, tables)
    requires KeepsJoins(g, tables) && KeysOnPath(schema, g, tables)
    ensures !Refutes(schema, g, tables, key, db)
  {
    hide *;
    if schema.Consistent(db) {
      var supply: Surrogates := n => "";
      var steps := StepsUpTo(g, tables, |g.accesses|);
      var dbs := PlanRunFrom(g, key, supply, steps, db, |steps|);
      RunProgresses(g, tables, key, supply, steps, dbs);
      ReachesShows(g, tables, key, supply, steps, dbs, |steps|);
      EveryStepKeepsConsistent(schema, g, tables, key, supply, db, dbs[|steps|], |steps|);
      CompleteIsErased(g, tables, key, supply, db, dbs[|steps|]);
      NotRefuted(schema, g, tables, key, supply, db, dbs[|steps|]);
    } else {
      InconsistentRefutesNothing(schema, g, tables, key, db);
    }
  }

  lemma ReachesShows(g: Graph, tables: seq<TableEntry>, key: seq<string>, supply: Surrogates, steps: seq<Step>,
                     dbs: seq<Db>, n: nat)
    requires Reaches(g, tables, key, supply, steps, dbs, n)
    ensures n < |dbs| && n <= |steps| && Progress(g, tables, key, supply, dbs[0], dbs[n], steps, n)
  {}

  lemma NotRefuted(schema: Schema, g: Graph, tables: seq<TableEntry>, key: seq<string>, supply: Surrogates, db: Db,
                   after: Db)
    requires Erased(g, tables, key, supply, db, after) && schema.Consistent(after)
    ensures !Refutes(schema, g, tables, key, db)
  {}

  lemma InconsistentRefutesNothing(schema: Schema, g: Graph, tables: seq<TableEntry>, key: seq<string>, db: Db)
    requires !schema.Consistent(db)
    ensures !Refutes(schema, g, tables, key, db)
  {}

  // --- in terms of the declarations -------------------------------------------------------------------

  /** A table that loses rows itself and refers to another such table reaches the subject through it. */
  ghost predicate DeletedOnPath(schema: Schema, g: Graph, tables: seq<TableEntry>) {
    forall f :: f in schema.foreignKeys && Deleted(g, tables, f.parent) && Deleted(g, tables, f.child) ==> OnPath(g, f)
  }

  /** That every referrer of a table that loses rows be declared with its path through that table is
      needed, and enough: where nothing else stands in the way it holds if and only if no consistent
      store refutes the erasure. */
  lemma ReferrersExactly(schema: Schema, meta: Metadata, tables: seq<TableEntry>, g: Graph)
    requires Describes(schema, meta) && ValidKeys(meta) && ResolvedFk(meta, tables, g) && DistinctNames(tables)
    requires PathsDeclared(tables) && NoConflicts(g, tables) && KeepsKeys(schema, meta, tables)
    requires DeletedOnPath(schema, g, tables)
    ensures ReferrersDeclared(schema, meta, tables) <==> !Refutable(schema, g, tables)
  {
    ResolvedAgrees(meta, tables, g);
    DeclaredPathsDeleteInOrder(meta, tables, g);
    ReferrersAreOnPath(schema, meta, tables, g);
    KeepingKeys(schema, meta, tables, g);
    KeysArePaired(schema, meta);
    assert Coherent(g);
    hide ResolvedFk, Describes, ValidKeys, DistinctNames, PathsDeclared, KeepsKeys, ReferrersDeclared, Refutes,
      Coherent, Agree, DeletesInOrder, NoConflicts, KeepsJoins, FreeOfKeys, Deleted, OnPath, PairedKeys;
    if forall f :: f in schema.foreignKeys && Deleted(g, tables, f.parent) ==> OnPath(g, f) {
      assert KeysOnPath(schema, g, tables);
      forall key, db ensures !Refutes(schema, g, tables, key, db) {
        OnPathIsIrrefutable(schema, g, tables, key, db);
      }
    } else {
      var f :| f in schema.foreignKeys && Deleted(g, tables, f.parent) && !OnPath(g, f);
      SurvivingReferrerRefutes(schema, g, tables, f);
    }
  }

  lemma KeysArePaired(schema: Schema, meta: Metadata)
    requires Describes(schema, meta) && ValidKeys(meta)
    ensures PairedKeys(schema)
  {
    forall f | f in schema.foreignKeys ensures 0 < |f.childColumns| == |f.parentColumns| {
      assert IsKey(meta, f);
      assert KeyConstraint(f.childColumns, f.parent, f.parentColumns).Valid();
    }
  }
}

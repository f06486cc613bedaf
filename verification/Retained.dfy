/** When a retained column survives every erasure, exactly. */
module Retained {
  import opened Manifest
  import opened Scoping
  import opened Planning
  import opened Executor
  import opened Erasure
  import opened SnapshotOrder
  import opened UniformStore

  ghost predicate CellKept(before: Db, after: Db, table: string, column: string, r: nat)
    requires r in TableOf(before, table)
  {
    r in TableOf(after, table) && Get(TableOf(after, table)[r], column) == Get(TableOf(before, table)[r], column)
  }

  /** No erasure, of any subject from any data, removes or changes a cell of the column. */
  ghost predicate SurvivesErasure(g: Graph, tables: seq<TableEntry>, table: string, column: string) {
    forall key, supply, before, after, r ::
      r in TableOf(before, table) && Erased(g, tables, key, supply, before, after) ==>
        CellKept(before, after, table, column, r)
  }

  function ErasedTable(g: Graph, tables: seq<TableEntry>, key: seq<string>, supply: Surrogates, before: Db,
                       t: string): Table
  {
    var T, rows, columns := TableOf(before, t), SubjectRows(before, g, key, t), Rewritten(g, tables, t);
    if Deleted(g, tables, t) then T - rows
    else map r | r in T :: if r in rows then T[r] + (map c | c in columns :: Val(supply(0))) else T[r]
  }

  function ErasedDb(g: Graph, tables: seq<TableEntry>, key: seq<string>, supply: Surrogates, before: Db): Db {
    map t | t in before :: ErasedTable(g, tables, key, supply, before, t)
  }

  lemma ErasureExists(g: Graph, tables: seq<TableEntry>, key: seq<string>, supply: Surrogates, before: Db)
    ensures Erased(g, tables, key, supply, before, ErasedDb(g, tables, key, supply, before))
  {
    var after := ErasedDb(g, tables, key, supply, before);
    hide TableErased, ErasedTable;
    forall t ensures TableErased(g, tables, key, supply, before, after, t) {
      if t in before {
        assert TableOf(after, t) == ErasedTable(g, tables, key, supply, before, t);
      } else {
        assert TableOf(after, t) == map[];
      }
      TableErasedBy(g, tables, key, supply, before, after, t);
    }
  }

  lemma TableErasedBy(g: Graph, tables: seq<TableEntry>, key: seq<string>, supply: Surrogates, before: Db, after: Db,
                      t: string)
    requires TableOf(after, t) == if t in before then ErasedTable(g, tables, key, supply, before, t) else map[]
    ensures TableErased(g, tables, key, supply, before, after, t)
  {
    assert Deleted(g, tables, t) ==> Rewritten(g, tables, t) == [];
    hide Deleted, SubjectRows, Rewritten;
    var T, T', columns := TableOf(before, t), TableOf(after, t), Rewritten(g, tables, t);
    assert Replaced(Val(supply(0)), supply);
    forall r | r in T' && r in SubjectRows(before, g, key, t) ensures RowRewritten(T[r], T'[r], columns, supply) {
      if !Deleted(g, tables, t) {
        assert T'[r] == T[r] + (map c | c in columns :: Val(supply(0)));
      }
    }
  }

  /** A retained column survives every erasure if and only if the manifest guards it. */
  lemma RetainedSurvivesExactly(g: Graph, tables: seq<TableEntry>, e: TableEntry, c: Column)
    requires Coherent(g) && Agree(g, tables) && e in tables && c in e.columns && c.erasure == RETAIN
    ensures InGraph(g, e.name) && Declares(tables, e.name)
    ensures SurvivesErasure(g, tables, e.name, c.name) <==> Guarded(g, tables, e.name, c.name)
  {
    RetainedIsUntouched(g, tables, e, c);
    if Guarded(g, tables, e.name, c.name) {
      RetainedCellsSurvive(g, tables, e.name, c.name);
    } else {
      UnguardedIsLost(g, tables, e.name, c.name);
    }
  }

  /** A guarded column keeps every one of its cells, in every row of its table. */
  lemma RetainedCellsSurvive(g: Graph, tables: seq<TableEntry>, table: string, column: string)
    requires !Deleted(g, tables, table) && column !in Rewritten(g, tables, table)
    ensures SurvivesErasure(g, tables, table, column)
  {
    forall key, supply, before, after, r | r in TableOf(before, table) && Erased(g, tables, key, supply, before, after)
      ensures CellKept(before, after, table, column, r)
    {
      assert TableErased(g, tables, key, supply, before, after, table);
    }
  }

  lemma UnguardedIsLost(g: Graph, tables: seq<TableEntry>, table: string, column: string)
    requires Coherent(g) && InGraph(g, table) && (Deleted(g, tables, table) || column in Rewritten(g, tables, table))
    ensures !SurvivesErasure(g, tables, table, column)
  {
    hide *;
    var supply: Surrogates := n => "w";
    var before := SameEverywhere(g);
    var after := ErasedDb(g, tables, UniformKey(g), supply, before);
    TableIsInScope(g, table);
    ErasureExists(g, tables, UniformKey(g), supply, before);
    CellIsUniform(g, table, column);
    RowIsLost(g, tables, UniformKey(g), supply, before, after, table, column);
    LossIsSeen(g, tables, UniformKey(g), supply, before, after, table, column);
  }

  lemma LossIsSeen(g: Graph, tables: seq<TableEntry>, key: seq<string>, supply: Surrogates, before: Db, after: Db,
                   table: string, column: string)
    requires Erased(g, tables, key, supply, before, after) && 0 in TableOf(before, table)
    requires !CellKept(before, after, table, column, 0)
    ensures !SurvivesErasure(g, tables, table, column)
  {
    hide Erased, CellKept;
  }

  lemma CellIsUniform(g: Graph, table: string, column: string)
    requires TableOf(SameEverywhere(g), table).Keys == {0}
    ensures 0 in TableOf(SameEverywhere(g), table)
    ensures Get(TableOf(SameEverywhere(g), table)[0], column) in {Val("v"), Null}
  {}

  lemma RowIsLost(g: Graph, tables: seq<TableEntry>, key: seq<string>, supply: Surrogates, before: Db, after: Db,
                  table: string, column: string)
    requires Erased(g, tables, key, supply, before, after) && (forall n :: supply(n) == "w")
    requires 0 in TableOf(before, table) && 0 in SubjectRows(before, g, key, table)
    requires Get(TableOf(before, table)[0], column) != Val("w")
    requires Deleted(g, tables, table) || column in Rewritten(g, tables, table)
    ensures !CellKept(before, after, table, column, 0)
  {
    hide Deleted, SubjectRows, Rewritten;
    assert TableErased(g, tables, key, supply, before, after, table);
    if 0 in TableOf(after, table) {
      assert RowRewritten(TableOf(before, table)[0], TableOf(after, table)[0], Rewritten(g, tables, table), supply);
      assert Replaced(Get(TableOf(after, table)[0], column), supply);
    }
  }
}

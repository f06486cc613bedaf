/** The store with one row in every table and one value in every column: all of it is one subject's. */
module UniformStore {
  import opened Manifest
  import opened Scoping
  import opened Executor
  import opened Erasure
  import opened Store

  function JoinColumns(g: Graph): set<string> {
    (set c | c in g.idColumns)
    + (set a, h, c | a in g.accesses && h in a.hops && c in h.sourceColumns :: c)
    + (set a, h, c | a in g.accesses && h in a.hops && c in h.targetColumns :: c)
  }

  function ChainTables(g: Graph): set<string> {
    (set a | a in g.accesses :: a.table) + (set a, h | a in g.accesses && h in a.hops :: h.target)
  }

  function UniformRow(columns: set<string>): Row {
    map c | c in columns :: Val("v")
  }

  function Uniform(tables: set<string>, columns: set<string>): Db {
    map t | t in tables :: map[0 := UniformRow(columns)]
  }

  function UniformKey(g: Graph): seq<string> {
    seq(|g.idColumns|, i => "v")
  }

  /** Any listed columns of the row hold the value. */
  lemma UniformCells(columns: set<string>, listed: seq<string>)
    requires forall c :: c in listed ==> c in columns
    ensures var cells := Project(UniformRow(columns), listed);
            |cells| == |listed| && forall i :: 0 <= i < |cells| ==> cells[i] == Val("v")
  {}

  lemma UniformlyEqual(columns: set<string>, a: seq<string>, b: seq<string>)
    requires |a| == |b| && (forall c :: c in a ==> c in columns) && (forall c :: c in b ==> c in columns)
    ensures SqlEqual(Project(UniformRow(columns), a), Project(UniformRow(columns), b))
  {
    UniformCells(columns, a);
    UniformCells(columns, b);
  }

  // --- everything is in scope -----------------------------------------------------------------

  lemma {:induction false} AllInScope(g: Graph, tables: set<string>, columns: set<string>, hops: seq<Hop>)
    requires ChainTables(g) <= tables && JoinColumns(g) <= columns
    requires forall h :: h in hops ==> GraphHop(g, h) && h.Valid()
    ensures Holds(Uniform(tables, columns), ScopeOf(g.idColumns, UniformKey(g), hops), UniformRow(columns))
    decreases |hops|
  {
    if hops == [] {
      assert forall c :: c in g.idColumns ==> c in JoinColumns(g);
      UniformCells(columns, g.idColumns);
      assert forall i :: 0 <= i < |g.idColumns| ==> Cells(UniformKey(g))[i] == Val("v");
    } else {
      var h := hops[0];
      forall x | x in hops[1..] ensures GraphHop(g, x) && x.Valid() { assert x in hops; }
      AllInScope(g, tables, columns, hops[1..]);
      assert GraphHop(g, h) && h.Valid();
      JoinedInScope(g, tables, columns, h);
      var T := TableOf(Uniform(tables, columns), h.target);
      assert 0 in T && T[0] == UniformRow(columns);
    }
  }

  lemma JoinedInScope(g: Graph, tables: set<string>, columns: set<string>, h: Hop)
    requires ChainTables(g) <= tables && JoinColumns(g) <= columns && GraphHop(g, h) && h.Valid()
    ensures h.target in Uniform(tables, columns)
    ensures SqlEqual(Project(UniformRow(columns), h.sourceColumns), Project(UniformRow(columns), h.targetColumns))
  {
    var a :| a in g.accesses && h in a.hops;
    assert h.target in ChainTables(g);
    forall c | c in h.sourceColumns || c in h.targetColumns ensures c in columns {
      assert c in JoinColumns(g);
    }
    UniformlyEqual(columns, h.sourceColumns, h.targetColumns);
  }

  lemma EveryTableInScope(g: Graph, tables: set<string>, columns: set<string>, t: string)
    requires Coherent(g) && InGraph(g, t) && ChainTables(g) <= tables && JoinColumns(g) <= columns
    ensures TableOf(Uniform(tables, columns), t).Keys == {0}
    ensures SubjectRows(Uniform(tables, columns), g, UniformKey(g), t) == {0}
  {
    var a := AccessOf(g, t);
    assert CoherentAccess(g, a);
    forall h | h in a.hops ensures GraphHop(g, h) {}
    AllInScope(g, tables, columns, a.hops);
    assert t in ChainTables(g);
  }

  // --- every key holds ----------------------------------------------------------------------------

  function KeyTables(schema: Schema): set<string> {
    (set f | f in schema.foreignKeys :: f.child) + (set f | f in schema.foreignKeys :: f.parent)
  }

  function KeyColumns(schema: Schema): set<string> {
    (set f, c | f in schema.foreignKeys && c in f.childColumns :: c)
    + (set f, c | f in schema.foreignKeys && c in f.parentColumns :: c)
    + (set t, c | t in schema.primaryKeys && c in schema.primaryKeys[t] :: c)
  }

  predicate PairedKeys(schema: Schema) {
    forall f :: f in schema.foreignKeys ==> 0 < |f.childColumns| == |f.parentColumns|
  }

  lemma UniformIsConsistent(schema: Schema, tables: set<string>, columns: set<string>)
    requires PairedKeys(schema) && KeyTables(schema) <= tables && KeyColumns(schema) <= columns
    ensures schema.Consistent(Uniform(tables, columns))
  {
    var db := Uniform(tables, columns);
    forall f | f in schema.foreignKeys ensures KeyHolds(db, f) {
      assert f.child in KeyTables(schema) && f.parent in KeyTables(schema);
      forall c | c in f.childColumns || c in f.parentColumns ensures c in columns {
        assert c in KeyColumns(schema);
      }
      UniformlyEqual(columns, f.childColumns, f.parentColumns);
      assert 0 in TableOf(db, f.parent);
    }
    forall t | t in schema.primaryKeys ensures KeyUnique(db, t, schema.primaryKeys[t]) {
      forall c | c in schema.primaryKeys[t] ensures c in columns {
        assert c in KeyColumns(schema);
      }
      UniformlyEqual(columns, schema.primaryKeys[t], schema.primaryKeys[t]);
    }
  }
}

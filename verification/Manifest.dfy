/** The data map, the resolved subject graph, and the validators that make them coherent. */
module Manifest {
  import opened Wrappers

  datatype Strategy = DELETE | ANONYMIZE | RETAIN

  datatype Column = Column(name: string, erasure: Strategy)

  /** How rows reach the subject: a path of names, empty on the subject table itself. */
  datatype Link = Link(path: seq<string>, idColumns: seq<string>)

  datatype TableEntry = TableEntry(name: string, link: Option<Link>, columns: seq<Column>)

  /** One foreign-key step: the source columns of a row equal the target columns of the next. */
  datatype Hop = Hop(source: string, sourceColumns: seq<string>, target: string, targetColumns: seq<string>) {
    predicate Valid() {
      0 < |sourceColumns| == |targetColumns|
    }
  }

  datatype Access = Access(table: string, hops: seq<Hop>, fullyOwned: bool)

  datatype Graph = Graph(subject: string, idColumns: seq<string>, accesses: seq<Access>)

  // --- hop chains ----------------------------------------------------------

  /** The hops start at the table and each one starts where the one before it ended. */
  predicate Contiguous(table: string, hops: seq<Hop>)
    decreases |hops|
  {
    hops != [] ==> hops[0].source == table && Contiguous(hops[0].target, hops[1..])
  }

  method ChainIsContiguous(table: string, hops: seq<Hop>) returns (ok: bool)
    ensures ok == Contiguous(table, hops)
    ensures ok ==> forall i :: 0 < i < |hops| ==> hops[i].source == hops[i - 1].target
  {
    var source := table;
    for i := 0 to |hops|
      invariant source == if i == 0 then table else hops[i - 1].target
      invariant Contiguous(table, hops) == Contiguous(source, hops[i..])
      invariant forall k :: 0 < k < i ==> hops[k].source == hops[k - 1].target
    {
      assert hops[i..][1..] == hops[i + 1..];
      if hops[i].source != source {
        return false;
      }
      source := hops[i].target;
    }
    ok := true;
  }

  predicate Coherent(g: Graph) {
    && g.idColumns != []
    && (forall i, j :: 0 <= i < |g.accesses| && 0 <= j < |g.accesses| && g.accesses[i].table == g.accesses[j].table ==>
         i == j)
    && (forall a :: a in g.accesses ==> CoherentAccess(g, a))
    && (exists a :: a in g.accesses && a.table == g.subject)
  }

  predicate CoherentAccess(g: Graph, a: Access) {
    && Contiguous(a.table, a.hops)
    && (forall h :: h in a.hops ==> h.Valid())
    && (a.hops == [] ==> a.table == g.subject)
    && (a.hops != [] ==> a.hops[|a.hops| - 1].target == g.subject)
  }

  function DeletionOrder(g: Graph): seq<string> {
    seq(|g.accesses|, i requires 0 <= i < |g.accesses| => g.accesses[i].table)
  }

  predicate InGraph(g: Graph, table: string) {
    exists a :: a in g.accesses && a.table == table
  }

  /** The access of a table of the graph; unique when the graph is coherent. */
  function AccessOf(g: Graph, table: string): (a: Access)
    requires InGraph(g, table)
    ensures a in g.accesses && a.table == table
  {
    FirstAccess(g.accesses, table)
  }

  function FirstAccess(accesses: seq<Access>, table: string): (a: Access)
    requires exists a :: a in accesses && a.table == table
    ensures a in accesses && a.table == table
  {
    if accesses[0].table == table then accesses[0] else FirstAccess(accesses[1..], table)
  }

  lemma AccessIsUnique(g: Graph, i: nat)
    requires Coherent(g) && i < |g.accesses|
    ensures InGraph(g, g.accesses[i].table) && AccessOf(g, g.accesses[i].table) == g.accesses[i]
  {
    assert g.accesses[i] in g.accesses;
    var a := AccessOf(g, g.accesses[i].table);
    var j :| 0 <= j < |g.accesses| && g.accesses[j] == a;
  }

  // --- data maps -----------------------------------------------------------

  predicate DistinctNames(tables: seq<TableEntry>) {
    forall i, j :: 0 <= i < |tables| && 0 <= j < |tables| && tables[i].name == tables[j].name ==> i == j
  }

  predicate DistinctColumns(e: TableEntry) {
    forall i, j :: 0 <= i < |e.columns| && 0 <= j < |e.columns| && e.columns[i].name == e.columns[j].name ==> i == j
  }

  /** What collecting a schema yields: each table once, each column of it once. */
  predicate Collected(tables: seq<TableEntry>) {
    DistinctNames(tables) && forall e :: e in tables ==> DistinctColumns(e)
  }

  predicate Declares(tables: seq<TableEntry>, name: string) {
    exists e :: e in tables && e.name == name
  }

  /** The first entry of that name, as the manifest's lookup returns it. */
  function EntryOf(tables: seq<TableEntry>, name: string): (e: TableEntry)
    requires Declares(tables, name)
    ensures e in tables && e.name == name
  {
    if tables[0].name == name then tables[0] else EntryOf(tables[1..], name)
  }

  lemma EntryIsUnique(tables: seq<TableEntry>, e: TableEntry)
    requires DistinctNames(tables) && e in tables
    ensures Declares(tables, e.name) && EntryOf(tables, e.name) == e
  {
    var f := EntryOf(tables, e.name);
    var i :| 0 <= i < |tables| && tables[i] == e;
    var j :| 0 <= j < |tables| && tables[j] == f;
  }
}

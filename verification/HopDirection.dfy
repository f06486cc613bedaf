/** Why the order theorem needs hops that follow foreign keys: a relationship can lead the other way. */
module HopDirection {
  import opened Manifest
  import opened Wrappers
  import opened Scoping
  import opened Planning
  import opened Store
  import opened Executor
  import opened Resolution
  import opened Ordering
  import opened Reachability

  /** Each user row references its profile row, and profiles reach the subject over the users. */
  function Against(): Hop {
    Hop("profiles", ["id"], "users", ["profile_id"])
  }

  function Tables(): Metadata {
    [TableMeta("users", ["id", "profile_id"], ["id"], [KeyConstraint(["profile_id"], "profiles", ["id"])]),
     TableMeta("profiles", ["id"], ["id"], [])]
  }

  function AgainstKeys(): Graph {
    Graph("users", ["id"], [Access("users", [], true), Access("profiles", [Against()], true)])
  }

  function Entries(): seq<TableEntry> {
    [TableEntry("users", Some(Link([], ["id"])), []), TableEntry("profiles", Some(Link(["user"], ["id"])), [])]
  }

  function User(): Row {
    map["id" := Val("u"), "profile_id" := Val("p")]
  }

  function Profile(): Row {
    map["id" := Val("p")]
  }

  function Stored(): Db {
    map["users" := map[0 := User()], "profiles" := map[0 := Profile()]]
  }

  lemma GraphFacts()
    ensures Coherent(AgainstKeys()) && Agree(AgainstKeys(), Entries()) && HopClosed(AgainstKeys())
    ensures InGraph(AgainstKeys(), "users") && AccessOf(AgainstKeys(), "users").hops == []
    ensures InGraph(AgainstKeys(), "profiles") && AccessOf(AgainstKeys(), "profiles").hops == [Against()]
  {
    var g := AgainstKeys();
    assert g.accesses[0] in g.accesses && g.accesses[1] in g.accesses;
    assert [Against()][1..] == [];
    assert CoherentAccess(g, g.accesses[0]) && CoherentAccess(g, g.accesses[1]);
    AccessIsUnique(g, 0);
    AccessIsUnique(g, 1);
    assert Entries()[0] in Entries() && Entries()[1] in Entries();
  }

  lemma PlanFacts()
    requires Agree(AgainstKeys(), Entries())
    requires InGraph(AgainstKeys(), "users") && AccessOf(AgainstKeys(), "users") == AgainstKeys().accesses[0]
    requires InGraph(AgainstKeys(), "profiles") && AccessOf(AgainstKeys(), "profiles") == AgainstKeys().accesses[1]
    ensures forall e :: e in Entries() ==> !Conflicting(AgainstKeys(), Entries(), e)
    ensures StepsUpTo(AgainstKeys(), Entries(), 2) == [Step("users", DELETE, []), Step("profiles", DELETE, [])]
  {
    var g, tables := AgainstKeys(), Entries();
    assert tables[0] in tables && tables[1] in tables;
    assert RowDeleted(g, tables[0]) && RowDeleted(g, tables[1]);
    assert Deleted(g, tables, "users") && Deleted(g, tables, "profiles");
    assert StepsUpTo(g, tables, 1) == StepsUpTo(g, tables, 0) + StepsAt(g, tables, 0);
    assert StepsUpTo(g, tables, 2) == StepsUpTo(g, tables, 1) + StepsAt(g, tables, 1);
  }

  lemma OrderFacts()
    ensures DeletionOrdered(Tables(), AgainstKeys())
  {
    assert Tables()[0] in Tables() && Tables()[1] in Tables();
  }

  lemma ScopeFacts()
    requires InGraph(AgainstKeys(), "users") && AccessOf(AgainstKeys(), "users").hops == []
    requires InGraph(AgainstKeys(), "profiles") && AccessOf(AgainstKeys(), "profiles").hops == [Against()]
    ensures SubjectRows(Stored(), AgainstKeys(), ["u"], "users") == {0}
    ensures SubjectRows(Stored(), AgainstKeys(), ["u"], "profiles") == {0}
  {
    var anchor := ScopeOf(["id"], ["u"], []);
    assert Project(User(), ["id"])[0] == Val("u");
    assert Holds(Stored(), anchor, User());
    assert [Against()][1..] == [];
    assert ScopeOf(["id"], ["u"], [Against()]) == In(["id"], "users", ["profile_id"], anchor);
    assert Project(User(), ["profile_id"])[0] == Project(Profile(), ["id"])[0] == Val("p");
    assert 0 in TableOf(Stored(), "users") && TableOf(Stored(), "users")[0] == User();
    assert Holds(Stored(), In(["id"], "users", ["profile_id"], anchor), Profile());
  }

  lemma LostFacts()
    requires InGraph(AgainstKeys(), "profiles") && AccessOf(AgainstKeys(), "profiles").hops == [Against()]
    ensures SubjectRows(WithoutRows(Stored(), "users", {0}), AgainstKeys(), ["u"], "profiles") == {}
  {
    var db := WithoutRows(Stored(), "users", {0});
    assert TableOf(db, "users") == map[];
    assert [Against()][1..] == [];
    assert ScopeOf(["id"], ["u"], [Against()]) == In(["id"], "users", ["profile_id"], ScopeOf(["id"], ["u"], []));
  }

  // --- mapper resolution yields exactly this graph -------------------------------------------

  /** The profile's relationship to its user, over the user's own foreign key. */
  function Back(): Relationship {
    Relationship(false, true, "profiles", "users", [("id", "profile_id")], 0)
  }

  function Mappers(): Registry {
    [Mapper(Tables()[0], true, map[]), Mapper(Tables()[1], true, map["user" := Back()])]
  }

  lemma PathFacts()
    ensures Linked(Mappers()) && InheritsNothing(Mappers())
    ensures MapperFor(Mappers(), "users") == Some(0) && MapperFor(Mappers(), "profiles") == Some(1)
    ensures PathOf(Entries()[0], Mappers(), "users") == Hops([])
    ensures PathOf(Entries()[1], Mappers(), "users") == Hops([Against()])
  {
    var mappers := Mappers();
    assert mappers[..1] == [mappers[0]];
    assert MapperFor(mappers, "users") == Some(0) && MapperFor(mappers, "profiles") == Some(1);
    assert ["user"][1..] == [];
    assert HopOf(Back()) == Against();
    assert Reachability.Walk(mappers, "profiles", 1, ["user"]) == Hops([HopOf(Back())] + []);
    assert [HopOf(Back())] + [] == [Against()];
  }

  lemma OwnedFacts()
    ensures FullyOwned(Entries()[0], Tables()[0]) && FullyOwned(Entries()[1], Tables()[1])
  {
    var t := Tables()[0];
    assert t.keys[0] in t.keys && "profile_id" in t.keys[0].columns && "id" in t.primaryKey;
  }

  lemma AnchorFacts()
    ensures Anchors(Entries()) == [Entries()[0]] && NamesOf(Entries()) == {"users", "profiles"}
  {
    var users, profiles := Entries()[0], Entries()[1];
    assert Entries()[1..] == [profiles] && [profiles][1..] == [];
    assert Anchors([profiles]) == [] + Anchors([]);
    assert users in Entries() && profiles in Entries();
    assert forall e :: e in Entries() ==> e == users || e == profiles;
  }

  lemma KeyFacts(e: Edge)
    ensures IsEdge(Tables(), {"users", "profiles"}, e) <==> e == ("users", "profiles")
  {
    var t := Tables()[0];
    assert t in Tables() && t.keys[0] in t.keys;
    assert forall u :: u in Tables() ==> u == t || u == Tables()[1];
  }

  lemma NoCycle()
    ensures !CyclicAmong(Tables(), {"users", "profiles"})
  {
    var edges: seq<Edge> := [("users", "profiles")];
    forall e ensures e in edges <==> IsEdge(Tables(), {"users", "profiles"}, e) { KeyFacts(e); }
    CycleOfEdges(Tables(), {"users", "profiles"}, edges);
    OrderExcludesCycle(["users", "profiles"], edges);
  }

  lemma MapResolves()
    ensures Linked(Mappers()) && Resolvable(Entries(), Mappers(), Tables())
  {
    PathFacts();
    AnchorFacts();
    NoCycle();
    hide PathOf, MapperFor, CyclicAmong, Anchors, Linked;
    assert forall e :: e in Entries() ==> e == Entries()[0] || e == Entries()[1];
    assert [Against()][1..] == [];
  }

  lemma AccessesAreForced(g: Graph, a: Access)
    requires Linked(Mappers()) && |Anchors(Entries())| == 1 && ResolvesTo(Entries(), Mappers(), Tables(), g)
    requires a in g.accesses
    ensures a == AgainstKeys().accesses[0] || a == AgainstKeys().accesses[1]
  {
    PathFacts();
    AnchorFacts();
    OwnedFacts();
    hide PathOf, MapperFor, FullyOwned, DeletionOrdered, Coherent, Linked, Anchors;
    var e :| e in Entries() && FromPath(e, Mappers(), g.subject, a);
    assert e == Entries()[0] || e == Entries()[1];
  }

  /** Relationship resolution accepts this map, and this graph is the only one it can return. */
  lemma ResolutionYieldsThisGraph(g: Graph)
    ensures Linked(Mappers()) && Resolvable(Entries(), Mappers(), Tables()) && |Anchors(Entries())| == 1
    ensures ResolvesTo(Entries(), Mappers(), Tables(), g) ==> g == AgainstKeys()
  {
    MapResolves();
    AnchorFacts();
    if ResolvesTo(Entries(), Mappers(), Tables(), g) {
      forall a | a in g.accesses ensures a == AgainstKeys().accesses[0] || a == AgainstKeys().accesses[1] {
        AccessesAreForced(g, a);
      }
      assert g.subject == "users" && g.idColumns == ["id"];
      TwoInOrder(g);
    }
  }

  lemma TwoInOrder(g: Graph)
    requires Distinct(DeletionOrder(g)) && (forall n :: n in DeletionOrder(g) <==> n in {"users", "profiles"})
    requires DeletionOrdered(Tables(), g) && g.subject == "users" && g.idColumns == ["id"]
    requires forall a :: a in g.accesses ==> a == AgainstKeys().accesses[0] || a == AgainstKeys().accesses[1]
    ensures g == AgainstKeys()
  {
    var order := DeletionOrder(g);
    assert "users" in order && "profiles" in order;
    var i :| 0 <= i < |order| && order[i] == "users";
    var j :| 0 <= j < |order| && order[j] == "profiles";
    assert TableSet(g) == {"users", "profiles"};
    KeyFacts(("users", "profiles"));
    assert i < j;
    DistinctCardinality(order);
    assert (set n | n in order) == {"users", "profiles"};
    assert i == 0 && j == 1 && |order| == 2;
    assert g.accesses[0] in g.accesses && g.accesses[1] in g.accesses;
    assert g.accesses == AgainstKeys().accesses;
  }

  /** The accepted plan deletes both tables, the later one had a row in scope, and the earlier
      step leaves none for the later one to select. */
  ghost predicate MissesRows(meta: Metadata, g: Graph, tables: seq<TableEntry>, key: seq<string>, db: Db) {
    && Coherent(g) && Agree(g, tables) && DeletionOrdered(meta, g) && HopClosed(g)
    && (forall e :: e in tables ==> !Conflicting(g, tables, e))
    && StepsUpTo(g, tables, |g.accesses|) == [Step("users", DELETE, []), Step("profiles", DELETE, [])]
    && SubjectRows(db, g, key, "profiles") != {}
    && SubjectRows(WithoutRows(db, "users", SubjectRows(db, g, key, "users")), g, key, "profiles") == {}
  }

  /** Mapper resolution accepts the data map and can only return the graph. */
  ghost predicate Yields(tables: seq<TableEntry>, mappers: Registry, meta: Metadata, g: Graph) {
    && Linked(mappers) && Resolvable(tables, mappers, meta) && |Anchors(tables)| == 1
    && forall other :: ResolvesTo(tables, mappers, meta, other) ==> other == g
  }

  lemma ThisMapYields()
    ensures Yields(Entries(), Mappers(), Tables(), AgainstKeys())
  {
    hide Resolvable, ResolvesTo, Linked;
    ResolutionYieldsThisGraph(AgainstKeys());
    forall g ensures ResolvesTo(Entries(), Mappers(), Tables(), g) ==> g == AgainstKeys() {
      ResolutionYieldsThisGraph(g);
    }
  }

  lemma ThisGraphMisses()
    ensures MissesRows(Tables(), AgainstKeys(), Entries(), ["u"], Stored())
  {
    GraphFacts();
    AccessIsUnique(AgainstKeys(), 0);
    AccessIsUnique(AgainstKeys(), 1);
    PlanFacts();
    OrderFacts();
    ScopeFacts();
    LostFacts();
    hide Coherent, Agree, DeletionOrdered, HopClosed, Conflicting, StepsUpTo, SubjectRows, WithoutRows;
    assert |AgainstKeys().accesses| == 2;
  }

  /** A relationship from a parent table to its child makes the deletion order take the child
      first, and then the parent's rows in scope are never found. */
  lemma HopAgainstKeyMissesRows()
    ensures exists meta: Metadata, mappers: Registry, g: Graph, tables: seq<TableEntry>, key: seq<string>, db: Db ::
              Yields(tables, mappers, meta, g) && MissesRows(meta, g, tables, key, db)
  {
    hide *;
    ThisMapYields();
    ThisGraphMisses();
  }
}

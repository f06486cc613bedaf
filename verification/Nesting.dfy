/** The nesting of paths a replay needs to take every restored row with it: enforced keys bring it about,
    and without it a path can be cut by another subject's erasure. */
module Nesting {
  import opened Manifest
  import opened Wrappers
  import opened Scoping
  import opened Planning
  import opened Store
  import opened Executor
  import opened Erasure
  import opened ErasureRun
  import opened Resolution
  import opened Declared
  import opened Replayer
  import Identity
  import RP = ReplayPlan

  // --- enforced keys nest --------------------------------------------------------------------

  /** A hop along an enforced key into a table that loses rows starts where its table's own path does. */
  lemma KeyGoesOn(schema: Schema, g: Graph, tables: seq<TableEntry>, h: Hop)
    requires KeysOnPath(schema, g, tables) && KeyOf(h) in schema.foreignKeys && Deleted(g, tables, h.target)
    ensures InGraph(g, h.source) && InGraph(g, h.target)
    ensures AccessOf(g, h.source).hops == [h] + AccessOf(g, h.target).hops
  {
    assert OnPath(g, KeyOf(h));
  }

  /** On the way from the table that owns the path: each time a table is reached that loses rows, what is
      left of the path is that table's own. */
  lemma {:induction false} GoesOnAt(schema: Schema, g: Graph, tables: seq<TableEntry>, a: Access, i: nat)
    requires Coherent(g) && Agree(g, tables) && NoConflicts(g, tables) && KeysOnPath(schema, g, tables)
    requires a in g.accesses && i < |a.hops| && Deleted(g, tables, a.hops[i].target)
    requires forall h :: h in a.hops ==> KeyOf(h) in schema.foreignKeys
    ensures GoesOn(g, a.hops, i)
  {
    var h := a.hops[i];
    KeyGoesOn(schema, g, tables, h);
    SourceAt(g, a, i);
    hide KeysOnPath, Deleted;
    if i == 0 {
      OwnAccess(g, a);
      assert a.hops == [h] + a.hops[1..];
    } else if Deleted(g, tables, a.hops[i - 1].target) {
      GoesOnAt(schema, g, tables, a, i - 1);
      assert a.hops[i..] == [h] + a.hops[i + 1..];
    } else {
      SurvivorPassesNone(g, tables, h);
    }
  }

  lemma OwnAccess(g: Graph, a: Access)
    requires Coherent(g) && a in g.accesses
    ensures InGraph(g, a.table) && AccessOf(g, a.table) == a
  {
    var i :| 0 <= i < |g.accesses| && g.accesses[i] == a;
    AccessIsUnique(g, i);
  }

  lemma SourceAt(g: Graph, a: Access, i: nat)
    requires Coherent(g) && a in g.accesses && i < |a.hops|
    ensures a.hops[i].source == if i == 0 then a.table else a.hops[i - 1].target
  {
    assert CoherentAccess(g, a);
    ContiguousAt(a.table, a.hops, i);
  }

  lemma {:induction false} ContiguousAt(table: string, hops: seq<Hop>, i: nat)
    requires Contiguous(table, hops) && i < |hops|
    ensures hops[i].source == if i == 0 then table else hops[i - 1].target
    decreases i
  {
    if i > 0 {
      ContiguousAt(hops[0].target, hops[1..], i - 1);
    }
  }

  /** No surviving table's own path starts with a hop into a table that loses rows. */
  lemma SurvivorPassesNone(g: Graph, tables: seq<TableEntry>, h: Hop)
    requires Agree(g, tables) && NoConflicts(g, tables) && InGraph(g, h.source) && InGraph(g, h.target)
    requires Deleted(g, tables, h.target) && AccessOf(g, h.source).hops == [h] + AccessOf(g, h.target).hops
    ensures Deleted(g, tables, h.source)
  {
    var a := AccessOf(g, h.source);
    assert a.hops[0] in a.hops;
    assert Declares(tables, a.table);
    var e :| e in tables && e.name == h.source;
    assert !Conflicting(g, tables, e);
  }

  /** So on a planned graph resolved over foreign keys whose referrers are declared, as soundness asks,
      paths nest, and a replay takes every restored row of its subjects out of row-deleted tables. */
  lemma KeyPathsNest(schema: Schema, meta: Metadata, tables: seq<TableEntry>, g: Graph)
    requires Describes(schema, meta) && ResolvedFk(meta, tables, g) && DistinctNames(tables) && PathsDeclared(tables)
    requires NoConflicts(g, tables) && SoundlyDeclared(schema, meta, tables)
    ensures PathsNest(g, tables)
  {
    SoundRuns(schema, meta, tables, g);
    SoundIsUnfailing(schema, meta, tables, g);
    ResolvedAgrees(meta, tables, g);
    assert KeysOnPath(schema, g, tables) && Coherent(g) && FollowsKeys(meta, g);
    hide Describes, ResolvedFk, PathsDeclared, NoConflicts, SoundlyDeclared, KeysOnPath,
      Coherent, Agree, Deleted, GoesOn, FollowsKey;
    forall a | a in g.accesses ensures Nested(g, tables, a.hops) {
      forall h | h in a.hops ensures KeyOf(h) in schema.foreignKeys { FollowedIsEnforced(schema, meta, h); }
      forall i | 0 <= i < |a.hops| && Deleted(g, tables, a.hops[i].target) ensures GoesOn(g, a.hops, i) {
        GoesOnAt(schema, g, tables, a, i);
      }
    }
  }

  // --- paths that part do not -----------------------------------------------------------------

  /** A note belongs to the owner of its file. */
  function OfFile(): Hop {
    Hop("notes", ["file"], "files", ["id"])
  }

  function ToOwner(): Hop {
    Hop("files", ["owner"], "users", ["id"])
  }

  /** The file itself belongs to its editor. */
  function ToEditor(): Hop {
    Hop("files", ["editor"], "users", ["id"])
  }

  function Parting(): Graph {
    Graph("users", ["id"], [Access("notes", [OfFile(), ToOwner()], true), Access("files", [ToEditor()], true),
                            Access("users", [], true)])
  }

  function Manifest3(): seq<TableEntry> {
    [TableEntry("notes", None, []), TableEntry("files", None, []), TableEntry("users", None, [])]
  }

  function File(): Row {
    map["id" := Val("f"), "owner" := Val("b"), "editor" := Val("a")]
  }

  function Note(): Row {
    map["file" := Val("f")]
  }

  function UserRow(id: string): Row {
    map["id" := Val(id)]
  }

  function Restored(): Db {
    map["users" := map[0 := UserRow("a"), 1 := UserRow("b")], "files" := map[0 := File()], "notes" := map[0 := Note()]]
  }

  /** After the erasure of "a": the user and the file are gone. */
  function WithoutA(): Db {
    map["users" := map[1 := UserRow("b")], "files" := map[], "notes" := map[0 := Note()]]
  }

  /** After that of "b" too: the note is still there. */
  function WithoutBoth(): Db {
    map["users" := map[], "files" := map[], "notes" := map[0 := Note()]]
  }

  lemma ThreeAccesses()
    ensures Coherent(Parting())
  {
    var g := Parting();
    assert g.accesses[0] in g.accesses && g.accesses[1] in g.accesses && g.accesses[2] in g.accesses;
    assert [OfFile(), ToOwner()][1..] == [ToOwner()] && [ToOwner()][1..] == [] && [ToEditor()][1..] == [];
    assert CoherentAccess(g, g.accesses[0]) && CoherentAccess(g, g.accesses[1]) && CoherentAccess(g, g.accesses[2]);
  }

  lemma Found()
    ensures InGraph(Parting(), "notes") && AccessOf(Parting(), "notes") == Access("notes", [OfFile(), ToOwner()], true)
    ensures InGraph(Parting(), "files") && AccessOf(Parting(), "files") == Access("files", [ToEditor()], true)
    ensures InGraph(Parting(), "users") && AccessOf(Parting(), "users") == Access("users", [], true)
  {
    ThreeAccesses();
    hide Coherent;
    AccessIsUnique(Parting(), 0);
    AccessIsUnique(Parting(), 1);
    AccessIsUnique(Parting(), 2);
  }

  predicate Named(t: string) {
    t == "notes" || t == "files" || t == "users"
  }

  lemma AllDeleted()
    ensures Agree(Parting(), Manifest3())
    ensures forall t :: Deleted(Parting(), Manifest3(), t) <==> Named(t)
  {
    Found();
    var tables := Manifest3();
    hide Parting, AccessOf, InGraph;
    assert tables[0] in tables && tables[1] in tables && tables[2] in tables;
    forall a | a in Parting().accesses ensures Declares(tables, a.table) { AccessNames(a); }
    assert forall e :: e in tables ==> RowDeleted(Parting(), e) && Named(e.name);
    assert tables[0].name == "notes" && tables[1].name == "files" && tables[2].name == "users";
  }

  lemma AccessNames(a: Access)
    requires a in Parting().accesses
    ensures a.table == "notes" || a.table == "files" || a.table == "users"
  {}

  lemma NothingRewritten()
    ensures forall t :: Rewritten(Parting(), Manifest3(), t) == []
  {
    AllDeleted();
    hide Parting, Deleted, InGraph;
    forall t ensures Rewritten(Parting(), Manifest3(), t) == [] {
      assert forall e :: e in Manifest3() ==> Named(e.name);
    }
  }

  lemma OrderFacts()
    ensures NoConflicts(Parting(), Manifest3()) && DeletesInOrder(Parting(), Manifest3())
  {
    AllDeleted();
    hide Deleted;
    var g := Parting();
    assert g.accesses[1].table == "files" && g.accesses[2].table == "users";
    assert forall e :: e in Manifest3() ==> Named(e.name);
    forall i, h | 0 <= i < |g.accesses| && h in g.accesses[i].hops ensures AtOrAfter(g, i, h.target) {
      assert h.target == g.accesses[1].table || h.target == g.accesses[2].table;
    }
  }

  lemma Parts()
    ensures !PathsNest(Parting(), Manifest3())
  {
    Found();
    AllDeleted();
    var a := Parting().accesses[0];
    assert a in Parting().accesses && a.hops[0 + 1..] == [ToOwner()];
    assert ToOwner().sourceColumns[0] != ToEditor().sourceColumns[0];
    assert Deleted(Parting(), Manifest3(), a.hops[0].target) by { assert Named("files"); }
    assert !GoesOn(Parting(), a.hops, 0);
    assert !Nested(Parting(), Manifest3(), a.hops);
  }

  // --- scopes at three moments ------------------------------------------------------------------------

  function ById(key: string): Scope {
    Anchor(["id"], [key])
  }

  function Edited(key: string): Scope {
    In(["editor"], "users", ["id"], ById(key))
  }

  function Owned(key: string): Scope {
    In(["owner"], "users", ["id"], ById(key))
  }

  function Filed(key: string): Scope {
    In(["file"], "files", ["id"], Owned(key))
  }

  lemma ScopesAre(key: string)
    ensures ScopeOf(["id"], [key], []) == ById(key)
    ensures ScopeOf(["id"], [key], [ToEditor()]) == Edited(key)
    ensures ScopeOf(["id"], [key], [OfFile(), ToOwner()]) == Filed(key)
  {
    assert [OfFile(), ToOwner()][1..] == [ToOwner()] && [ToOwner()][1..] == [] && [ToEditor()][1..] == [];
    assert ScopeOf(["id"], [key], [ToOwner()]) == Owned(key);
  }

  lemma InParting(t: string)
    ensures InGraph(Parting(), t) ==> Named(t)
  {
    if a :| a in Parting().accesses && a.table == t { AccessNames(a); }
  }

  /** Who a note, a file and a user belong to. */
  lemma Scopes(db: Db, key: string)
    ensures SubjectRows(db, Parting(), [key], "notes") == Matching(db, "notes", Filed(key))
    ensures SubjectRows(db, Parting(), [key], "files") == Matching(db, "files", Edited(key))
    ensures SubjectRows(db, Parting(), [key], "users") == Matching(db, "users", ById(key))
    ensures forall t :: !Named(t) ==> SubjectRows(db, Parting(), [key], t) == {}
  {
    Found();
    ScopesAre(key);
    assert Parting().idColumns == ["id"];
    forall t | !Named(t) ensures SubjectRows(db, Parting(), [key], t) == {} { InParting(t); }
    hide Parting, InGraph, AccessOf, ScopeOf, Named, Filed, Edited, ById, Matching;
  }

  lemma UserIs(db: Db, id: string, key: string)
    ensures Holds(db, ById(key), UserRow(id)) <==> id == key
  {
    assert Project(UserRow(id), ["id"])[0] == Val(id) && Cells([key])[0] == Val(key);
  }

  /** Only users "a" and "b" are stored. */
  predicate TwoUsers(db: Db) {
    forall r :: r in TableOf(db, "users") ==>
         TableOf(db, "users")[r] == UserRow("a") || TableOf(db, "users")[r] == UserRow("b")
  }

  lemma FileColumns(id: string)
    ensures SqlEqual(Project(File(), ["owner"]), Project(UserRow(id), ["id"])) <==> id == "b"
    ensures SqlEqual(Project(File(), ["editor"]), Project(UserRow(id), ["id"])) <==> id == "a"
    ensures SqlEqual(Project(Note(), ["file"]), Project(File(), ["id"]))
  {
    assert Project(File(), ["owner"])[0] == Val("b") && Project(File(), ["editor"])[0] == Val("a");
    assert Project(UserRow(id), ["id"])[0] == Val(id) && Project(File(), ["id"])[0] == Val("f");
    assert Project(Note(), ["file"])[0] == Val("f");
  }

  /** The file is in a subject's scope by its owner, or by its editor, where that user is stored. */
  lemma FileIs(db: Db, key: string)
    requires TwoUsers(db)
    ensures Holds(db, Owned(key), File())
            <==> key == "b" && exists r :: r in TableOf(db, "users") && TableOf(db, "users")[r] == UserRow("b")
    ensures Holds(db, Edited(key), File())
            <==> key == "a" && exists r :: r in TableOf(db, "users") && TableOf(db, "users")[r] == UserRow("a")
  {
    FileColumns("a");
    FileColumns("b");
    UserIs(db, "a", key);
    UserIs(db, "b", key);
    hide UserRow, File, ById, SqlEqual, Project;
    assert Holds(db, Owned(key), File())
           <==> exists r :: r in TableOf(db, "users") && Holds(db, ById(key), TableOf(db, "users")[r])
                  && SqlEqual(Project(File(), ["owner"]), Project(TableOf(db, "users")[r], ["id"]));
    assert Holds(db, Edited(key), File())
           <==> exists r :: r in TableOf(db, "users") && Holds(db, ById(key), TableOf(db, "users")[r])
                  && SqlEqual(Project(File(), ["editor"]), Project(TableOf(db, "users")[r], ["id"]));
  }

  lemma MatchOne(db: Db, t: string, p: Scope, row: Row)
    requires TableOf(db, t) == map[0 := row]
    ensures Matching(db, t, p) == if Holds(db, p, row) then {0} else {}
  {}

  lemma RestoredUsers()
    ensures TwoUsers(Restored()) && UserRow("a") != UserRow("b")
    ensures TableOf(Restored(), "users").Keys == {0, 1}
    ensures TableOf(Restored(), "users")[0] == UserRow("a") && TableOf(Restored(), "users")[1] == UserRow("b")
    ensures TableOf(Restored(), "files") == map[0 := File()] && TableOf(Restored(), "notes") == map[0 := Note()]
  {
    assert UserRow("a")["id"] != UserRow("b")["id"];
  }

  lemma ScopesOfA()
    ensures SubjectRows(Restored(), Parting(), ["a"], "notes") == {}
    ensures SubjectRows(Restored(), Parting(), ["a"], "files") == {0}
    ensures SubjectRows(Restored(), Parting(), ["a"], "users") == {0}
  {
    hide *;
    Scopes(Restored(), "a");
    UsersOfA();
    FilesOfA();
  }

  /** The one file is edited by "a" and owned by "b", so the one note is not the subject's. */
  lemma FilesOfA()
    ensures Matching(Restored(), "files", Edited("a")) == {0} && Matching(Restored(), "notes", Filed("a")) == {}
  {
    RestoredUsers();
    FileIs(Restored(), "a");
    hide Restored, UserRow, File, Note, ById, Edited, Owned, TwoUsers, SqlEqual, Project, Matching;
    assert Holds(Restored(), Edited("a"), File());
    assert !Holds(Restored(), Owned("a"), File());
    assert !Holds(Restored(), Filed("a"), Note());
    hide Holds, Filed;
    MatchOne(Restored(), "files", Edited("a"), File());
    MatchOne(Restored(), "notes", Filed("a"), Note());
  }

  lemma UsersOfA()
    ensures Matching(Restored(), "users", ById("a")) == {0}
  {
    RestoredUsers();
    UserIs(Restored(), "a", "a");
    UserIs(Restored(), "b", "a");
    hide Restored, UserRow, ById, Holds, TwoUsers;
  }

  lemma ScopesOfB()
    ensures 0 in SubjectRows(Restored(), Parting(), ["b"], "notes")
  {
    Scopes(Restored(), "b");
    RestoredUsers();
    FileIs(Restored(), "b");
    FileColumns("b");
    hide SubjectRows, Restored, UserRow, File, Note, ById, Edited, Owned, TwoUsers, Parting, SqlEqual, Project;
    assert Holds(Restored(), Owned("b"), File());
    assert TableOf(Restored(), "files")[0] == File() && 0 in TableOf(Restored(), "files");
    assert Holds(Restored(), Filed("b"), Note());
    assert TableOf(Restored(), "notes")[0] == Note() && 0 in TableOf(Restored(), "notes");
  }

  lemma ScopesOfBLater()
    ensures SubjectRows(WithoutA(), Parting(), ["b"], "notes") == {}
    ensures SubjectRows(WithoutA(), Parting(), ["b"], "files") == {}
    ensures SubjectRows(WithoutA(), Parting(), ["b"], "users") == {1}
  {
    Scopes(WithoutA(), "b");
    UserIs(WithoutA(), "b", "b");
    hide SubjectRows, UserRow, Parting, ById, Edited, Owned;
    assert TableOf(WithoutA(), "files") == map[];
    assert TableOf(WithoutA(), "users").Keys == {1} && TableOf(WithoutA(), "users")[1] == UserRow("b");
  }

  // --- two erasures -------------------------------------------------------------------------------------

  /** What the erasure of fully deleted tables comes to, table by table. */
  lemma ErasedWhere(key: seq<string>, supply: Surrogates, before: Db, after: Db)
    requires forall t :: Named(t) ==> TableOf(after, t) == TableOf(before, t) - SubjectRows(before, Parting(), key, t)
    requires forall t :: !Named(t) ==> TableOf(after, t) == TableOf(before, t)
    ensures Erased(Parting(), Manifest3(), key, supply, before, after)
  {
    AllDeleted();
    NothingRewritten();
    hide Parting, Deleted, SubjectRows, Rewritten, Named, Replaced;
    forall t ensures TableErased(Parting(), Manifest3(), key, supply, before, after, t) {}
  }

  lemma AfterA()
    ensures TableOf(WithoutA(), "notes") == TableOf(Restored(), "notes") - {}
    ensures TableOf(WithoutA(), "files") == TableOf(Restored(), "files") - {0}
    ensures TableOf(WithoutA(), "users") == TableOf(Restored(), "users") - {0}
    ensures forall t :: !Named(t) ==> TableOf(WithoutA(), t) == TableOf(Restored(), t)
  {
    hide UserRow, File, Note;
  }

  lemma AfterB()
    ensures TableOf(WithoutBoth(), "notes") == TableOf(WithoutA(), "notes") - {}
    ensures TableOf(WithoutBoth(), "files") == TableOf(WithoutA(), "files") - {}
    ensures TableOf(WithoutBoth(), "users") == TableOf(WithoutA(), "users") - {1}
    ensures forall t :: !Named(t) ==> TableOf(WithoutBoth(), t) == TableOf(WithoutA(), t)
  {
    hide UserRow, File, Note;
  }

  lemma FirstErased(supply: Surrogates)
    ensures Erased(Parting(), Manifest3(), ["a"], supply, Restored(), WithoutA())
  {
    AfterA();
    ScopesOfA();
    hide Parting, SubjectRows, Erased, Restored, WithoutA;
    ErasedWhere(["a"], supply, Restored(), WithoutA());
  }

  lemma SecondErased(supply: Surrogates)
    ensures Erased(Parting(), Manifest3(), ["b"], supply, WithoutA(), WithoutBoth())
  {
    AfterB();
    ScopesOfBLater();
    hide Parting, SubjectRows, Erased, WithoutA, WithoutBoth;
    ErasedWhere(["b"], supply, WithoutA(), WithoutBoth());
  }

  /** Replaying two lost erasures, each as complete as it can be, leaves a row of a row-deleted table that
      was in the second subject's scope when the backup was restored. */
  ghost predicate LeavesRow(g: Graph, tables: seq<TableEntry>, a: RP.Entry, b: RP.Entry, supply: Surrogates,
                            restored: Db, between: Db, after: Db, t: string, r: nat)
  {
    && Erased(g, tables, KeyFor(g, a), supply, restored, between)
    && Erased(g, tables, KeyFor(g, b), supply, between, after)
    && Deleted(g, tables, t) && r in SubjectRows(restored, g, KeyFor(g, b), t) && r in TableOf(after, t)
  }

  /** All that the replay theorems ask for, but the nesting of paths. */
  ghost predicate OnlyUnnested(g: Graph, tables: seq<TableEntry>) {
    && Coherent(g) && Agree(g, tables) && NoConflicts(g, tables) && DeletesInOrder(g, tables)
    && KeepsJoins(g, tables) && !PathsNest(g, tables)
  }

  lemma PartingPathsLeaveRows()
    ensures exists g: Graph, tables: seq<TableEntry>, a: RP.Entry, b: RP.Entry, supply: Surrogates, restored: Db,
              between: Db, after: Db, t: string, r: nat ::
              OnlyUnnested(g, tables) && LeavesRow(g, tables, a, b, supply, restored, between, after, t, r)
  {
    hide *;
    var supply: Surrogates := n => "";
    var a, b := RP.Entry("a", 1, 0, 0), RP.Entry("b", 1, 0, 0);
    ThisIsUnnested();
    ThisLeavesRow(a, b, supply);
  }

  lemma ThisIsUnnested()
    ensures OnlyUnnested(Parting(), Manifest3())
  {
    NothingRewritten();
    hide Parting, Coherent, Agree, NoConflicts, DeletesInOrder, PathsNest, Rewritten, JoinColumn;
    ThreeAccesses();
    AllDeleted();
    OrderFacts();
    Parts();
  }

  lemma ThisLeavesRow(a: RP.Entry, b: RP.Entry, supply: Surrogates)
    requires a.subject == "a" && b.subject == "b"
    ensures LeavesRow(Parting(), Manifest3(), a, b, supply, Restored(), WithoutA(), WithoutBoth(), "notes", 0)
  {
    assert KeyFor(Parting(), a) == ["a"] && KeyFor(Parting(), b) == ["b"];
    assert 0 in TableOf(WithoutBoth(), "notes") && Named("notes");
    hide Erased, Parting, Deleted, SubjectRows, KeyFor, Named;
    AllDeleted();
    FirstErased(supply);
    SecondErased(supply);
    ScopesOfB();
  }
}

/** From the schema and the data map alone: when erasure over foreign keys can meet no integrity
    error, and when it touches nobody else. */
module Declared {
  import opened Manifest
  import opened Scoping
  import opened Planning
  import opened Store
  import opened Executor
  import opened Erasure
  import opened ErasureRun
  import opened SubjectErasure
  import opened Resolution
  import Verifier
  import Identity
  import OutboxStore

  // --- one description of the keys -------------------------------------------------

  /** The database enforces the keys the metadata lists, and no others. */
  ghost predicate Describes(schema: Schema, meta: Metadata) {
    && (forall f :: f in schema.foreignKeys <==> IsKey(meta, f))
    && (forall t :: t in schema.primaryKeys <==> Mounted(meta, t) && MetaOf(meta, t).primaryKey != [])
    && (forall t :: t in schema.primaryKeys ==> schema.primaryKeys[t] == MetaOf(meta, t).primaryKey)
  }

  predicate IsKey(meta: Metadata, f: ForeignKey) {
    Mounted(meta, f.child) && KeyConstraint(f.childColumns, f.parent, f.parentColumns) in MetaOf(meta, f.child).keys
  }

  /** The key a hop follows, as the database knows it. */
  function KeyOf(h: Hop): ForeignKey {
    ForeignKey(h.source, h.sourceColumns, h.target, h.targetColumns)
  }

  lemma FollowedIsEnforced(schema: Schema, meta: Metadata, h: Hop)
    requires Describes(schema, meta)
    ensures FollowsKey(meta, h) <==> KeyOf(h) in schema.foreignKeys
  {
    assert IsKey(meta, KeyOf(h)) <==> FollowsKey(meta, h);
  }

  /** A hop to the primary key of its target meets at most one row, in every consistent database. */
  lemma PrimaryKeyIsUnique(schema: Schema, meta: Metadata, db: Db, h: Hop)
    requires Describes(schema, meta) && schema.Consistent(db)
    requires Mounted(meta, h.target) && h.targetColumns == MetaOf(meta, h.target).primaryKey != []
    ensures UniqueTarget(db, h)
  {
    assert h.target in schema.primaryKeys;
    assert KeyUnique(db, h.target, schema.primaryKeys[h.target]);
  }

  /** Every foreign key refers to the primary key of its parent. */
  predicate KeysArePrimary(meta: Metadata) {
    forall t, k :: t in meta && k in t.keys ==>
      Mounted(meta, k.parent) && k.parentColumns == MetaOf(meta, k.parent).primaryKey != []
  }

  // --- what resolution says of the graph ---------------------------------------------

  /** The outcome of resolving a data map over foreign keys. */
  ghost predicate ResolvedFk(meta: Metadata, tables: seq<TableEntry>, g: Graph) {
    && Coherent(g)
    && (forall n :: n in DeletionOrder(g) <==> n in NamesOf(tables))
    && (forall a :: a in g.accesses ==> Derived(meta, tables, a))
    && FollowsKeys(meta, g)
    && DeletionOrdered(meta, g)
    && |Anchors(tables)| == 1
    && g.subject == Anchors(tables)[0].name
    && g.idColumns == Anchors(tables)[0].link.value.idColumns
  }

  /** The table loses rows: its annotated columns are all DELETE and nothing else needs keeping. */
  predicate LosesRows(meta: Metadata, e: TableEntry) {
    Mounted(meta, e.name) && FullyOwned(e, MetaOf(meta, e.name)) && forall c :: c in e.columns ==> c.erasure == DELETE
  }

  lemma AccessIsDeclared(meta: Metadata, tables: seq<TableEntry>, g: Graph, e: TableEntry)
    requires ResolvedFk(meta, tables, g) && DistinctNames(tables) && e in tables
    ensures InGraph(g, e.name) && FromEntry(meta, e, AccessOf(g, e.name))
    ensures Deleted(g, tables, e.name) <==> LosesRows(meta, e)
  {
    NamedInGraph(meta, tables, g, e.name);
    var a := AccessOf(g, e.name);
    var f :| f in tables && FromEntry(meta, f, a);
    assert a.table == e.name;
    SameEntry(tables, e, f);
    forall d | d in tables && d.name == e.name ensures d == e {
      SameEntry(tables, d, e);
    }
  }

  lemma NamedInGraph(meta: Metadata, tables: seq<TableEntry>, g: Graph, name: string)
    requires ResolvedFk(meta, tables, g) && name in NamesOf(tables)
    ensures InGraph(g, name)
  {
    hide Derived, FollowsKeys, DeletionOrdered, Coherent;
    assert name in DeletionOrder(g);
    var i :| 0 <= i < |DeletionOrder(g)| && DeletionOrder(g)[i] == name;
    assert g.accesses[i].table == name;
  }

  lemma SameEntry(tables: seq<TableEntry>, e: TableEntry, f: TableEntry)
    requires DistinctNames(tables) && e in tables && f in tables && e.name == f.name
    ensures e == f
  {
    EntryIsUnique(tables, e);
    EntryIsUnique(tables, f);
  }

  lemma ResolvedAgrees(meta: Metadata, tables: seq<TableEntry>, g: Graph)
    requires ResolvedFk(meta, tables, g) && DistinctNames(tables)
    ensures Agree(g, tables)
  {
    forall e | e in tables ensures InGraph(g, e.name) {
      AccessIsDeclared(meta, tables, g, e);
    }
    forall a | a in g.accesses ensures Declares(tables, a.table) {
      var e :| e in tables && FromEntry(meta, e, a);
    }
  }

  // --- conditions a caller can check before anything runs --------------------------------

  /** The surviving table has the column overwritten. */
  predicate Overwrites(meta: Metadata, e: TableEntry, column: string) {
    !LosesRows(meta, e) && exists c :: c in e.columns && c.name == column && c.erasure != RETAIN
  }

  /** No overwritten column belongs to a key or identifies the subject. */
  ghost predicate KeepsKeys(schema: Schema, meta: Metadata, tables: seq<TableEntry>) {
    forall e, c :: e in tables && Overwrites(meta, e, c) ==>
      !KeyColumn(schema, e.name, c) && !(IsAnchor(e) && c in e.link.value.idColumns)
  }

  /** A table with overwritten columns has a primary key to address its rows by. */
  ghost predicate Addressable(schema: Schema, meta: Metadata, tables: seq<TableEntry>) {
    forall e, c :: e in tables && Overwrites(meta, e, c) ==> e.name in schema.primaryKeys
  }

  /** Whatever refers to a table that loses rows is declared, and its path goes through that table. */
  ghost predicate ReferrersDeclared(schema: Schema, meta: Metadata, tables: seq<TableEntry>) {
    forall f, p :: f in schema.foreignKeys && p in tables && p.name == f.parent && LosesRows(meta, p) ==>
      exists e :: e in tables && GoesThrough(e, f.child, p)
  }

  predicate GoesThrough(e: TableEntry, child: string, p: TableEntry) {
    e.name == child && e.link.Some? && p.link.Some? && e.link.value.path == [p.name] + p.link.value.path
  }

  /** Every table a path names is declared. */
  predicate PathsDeclared(tables: seq<TableEntry>) {
    forall e, n :: e in tables && e.link.Some? && n in e.link.value.path ==> n in NamesOf(tables)
  }

  ghost predicate SoundlyDeclared(schema: Schema, meta: Metadata, tables: seq<TableEntry>) {
    KeepsKeys(schema, meta, tables) && Addressable(schema, meta, tables) && ReferrersDeclared(schema, meta, tables)
  }

  // --- the conditions are exact ---------------------------------------------------------

  lemma RewrittenIsOverwritten(meta: Metadata, tables: seq<TableEntry>, g: Graph, e: TableEntry, c: string)
    requires ResolvedFk(meta, tables, g) && DistinctNames(tables) && e in tables
    ensures c in Rewritten(g, tables, e.name) <==> Overwrites(meta, e, c)
  {
    AccessIsDeclared(meta, tables, g, e);
    EntryIsUnique(tables, e);
    ColumnsWhereMembers(e.columns, false, c);
  }

  lemma AnchorIsSubject(meta: Metadata, tables: seq<TableEntry>, g: Graph, e: TableEntry)
    requires ResolvedFk(meta, tables, g) && DistinctNames(tables) && e in tables
    ensures IsAnchor(e) <==> e.name == g.subject
    ensures IsAnchor(e) ==> e.link.value.idColumns == g.idColumns
  {
    var anchor := Anchors(tables)[0];
    AnchorsMembers(tables, anchor);
    AnchorsMembers(tables, e);
    if e.name == g.subject { SameEntry(tables, e, anchor); }
  }

  /** Columns of joins are columns of keys. */
  lemma JoinsAreKeys(schema: Schema, meta: Metadata, g: Graph, t: string, c: string)
    requires Describes(schema, meta) && FollowsKeys(meta, g) && JoinColumn(g, t, c)
    ensures KeyColumn(schema, t, c) || (t == g.subject && c in g.idColumns)
  {
    if !(t == g.subject && c in g.idColumns) {
      var a, h :| a in g.accesses && h in a.hops && HopUses(h, t, c);
      FollowedIsEnforced(schema, meta, h);
    }
  }

  /** Two chains along the same names follow the same keys. */
  lemma {:induction false} SameHops(meta: Metadata, start: string, a: seq<Hop>, b: seq<Hop>)
    requires |a| == |b| && Contiguous(start, a) && Contiguous(start, b)
    requires forall i :: 0 <= i < |a| ==> a[i].target == b[i].target && OnlyKey(meta, a[i]) && OnlyKey(meta, b[i])
    ensures a == b
    decreases |a|
  {
    if a != [] {
      SameKey(meta, a[0], KeyConstraint(b[0].sourceColumns, b[0].target, b[0].targetColumns));
      SameHops(meta, a[0].target, a[1..], b[1..]);
    }
  }

  lemma SameKey(meta: Metadata, h: Hop, k: KeyConstraint)
    requires OnlyKey(meta, h) && k in MetaOf(meta, h.source).keys && k.parent == h.target
    ensures k == KeyConstraint(h.sourceColumns, h.target, h.targetColumns)
  {
    var keys := MetaOf(meta, h.source).keys;
    KeysToMembers(keys, h.target, k);
    KeysToMembers(keys, h.target, KeyConstraint(h.sourceColumns, h.target, h.targetColumns));
  }

  /** The referring table's chain is the key and then its parent's chain, exactly when its declared
      path is the parent's name and then the parent's path. */
  lemma OnPathIsDeclared(schema: Schema, meta: Metadata, tables: seq<TableEntry>, g: Graph, f: ForeignKey,
                         p: TableEntry)
    requires Describes(schema, meta) && ResolvedFk(meta, tables, g) && DistinctNames(tables)
    requires f in schema.foreignKeys && p in tables && p.name == f.parent
    ensures OnPath(g, f) <==> exists e :: e in tables && GoesThrough(e, f.child, p)
  {
    AccessIsDeclared(meta, tables, g, p);
    if OnPath(g, f) {
      var e :| e in tables && FromEntry(meta, e, AccessOf(g, f.child));
      PathOfChain(meta, e, p, f, AccessOf(g, f.child), AccessOf(g, p.name));
    }
    if e :| e in tables && GoesThrough(e, f.child, p) {
      AccessIsDeclared(meta, tables, g, e);
      assert IsKey(meta, f);
      ChainOfPath(meta, e, p, f, AccessOf(g, f.child), AccessOf(g, p.name)) by {
        assert CoherentAccess(g, AccessOf(g, f.child)) && CoherentAccess(g, AccessOf(g, p.name));
      }
    }
  }

  lemma PathOfChain(meta: Metadata, e: TableEntry, p: TableEntry, f: ForeignKey, child: Access, parent: Access)
    requires FromEntry(meta, e, child) && FromEntry(meta, p, parent) && e.name == f.child && p.name == f.parent
    requires child.hops == [Hop(f.child, f.childColumns, f.parent, f.parentColumns)] + parent.hops
    ensures GoesThrough(e, f.child, p)
  {
    var path, rest := e.link.value.path, p.link.value.path;
    assert |path| == 1 + |rest|;
    forall i | 0 <= i < |path| ensures path[i] == ([p.name] + rest)[i] {
      assert child.hops[i].target == path[i];
      if i > 0 {
        assert child.hops[i] == parent.hops[i - 1];
        assert parent.hops[i - 1].target == rest[i - 1];
      }
    }
  }

  lemma ChainOfPath(meta: Metadata, e: TableEntry, p: TableEntry, f: ForeignKey, child: Access, parent: Access)
    requires FromEntry(meta, e, child) && FromEntry(meta, p, parent) && GoesThrough(e, f.child, p) && p.name == f.parent
    requires Contiguous(child.table, child.hops) && Contiguous(parent.table, parent.hops) && IsKey(meta, f)
    ensures child.hops == [Hop(f.child, f.childColumns, f.parent, f.parentColumns)] + parent.hops
  {
    var path, rest := e.link.value.path, p.link.value.path;
    assert child.hops[0].target == path[0] == f.parent;
    SameKey(meta, child.hops[0], KeyConstraint(f.childColumns, f.parent, f.parentColumns));
    forall i | 0 <= i < |parent.hops|
      ensures child.hops[1..][i].target == parent.hops[i].target && OnlyKey(meta, child.hops[1..][i])
      ensures OnlyKey(meta, parent.hops[i])
    {
      assert child.hops[i + 1].target == path[i + 1] == rest[i];
    }
    SameHops(meta, f.parent, child.hops[1..], parent.hops);
  }

  lemma ReferrersAreOnPath(schema: Schema, meta: Metadata, tables: seq<TableEntry>, g: Graph)
    requires Describes(schema, meta) && ResolvedFk(meta, tables, g) && DistinctNames(tables)
    ensures ReferrersDeclared(schema, meta, tables)
            <==> forall f :: f in schema.foreignKeys && Deleted(g, tables, f.parent) ==> OnPath(g, f)
  {
    hide ResolvedFk, Describes, OnPath, LosesRows, GoesThrough;
    forall f, p | f in schema.foreignKeys && p in tables && p.name == f.parent
      ensures OnPath(g, f) <==> exists e :: e in tables && GoesThrough(e, f.child, p)
      ensures Deleted(g, tables, p.name) <==> LosesRows(meta, p)
    {
      OnPathIsDeclared(schema, meta, tables, g, f, p);
      AccessIsDeclared(meta, tables, g, p);
    }
  }

  lemma KeepingKeys(schema: Schema, meta: Metadata, tables: seq<TableEntry>, g: Graph)
    requires Describes(schema, meta) && ResolvedFk(meta, tables, g) && DistinctNames(tables)
    ensures KeepsKeys(schema, meta, tables)
            <==> (forall t :: FreeOfKeys(schema, t, Rewritten(g, tables, t))) && KeepsJoins(g, tables)
  {
    hide ResolvedFk, Describes, LosesRows, Overwrites, KeyColumn, JoinColumn;
    forall e, c | e in tables
      ensures c in Rewritten(g, tables, e.name) <==> Overwrites(meta, e, c)
      ensures KeyColumn(schema, e.name, c) || (IsAnchor(e) && c in e.link.value.idColumns)
              <==> KeyColumn(schema, e.name, c) || JoinColumn(g, e.name, c)
    {
      RewrittenIsOverwritten(meta, tables, g, e, c);
      AnchorIsSubject(meta, tables, g, e);
      JoinedIsKept(schema, meta, tables, g, e, c);
    }
  }

  lemma JoinedIsKept(schema: Schema, meta: Metadata, tables: seq<TableEntry>, g: Graph, e: TableEntry, c: string)
    requires Describes(schema, meta) && ResolvedFk(meta, tables, g)
    requires IsAnchor(e) <==> e.name == g.subject
    requires IsAnchor(e) ==> e.link.value.idColumns == g.idColumns
    ensures KeyColumn(schema, e.name, c) || (IsAnchor(e) && c in e.link.value.idColumns)
            <==> KeyColumn(schema, e.name, c) || JoinColumn(g, e.name, c)
  {
    if JoinColumn(g, e.name, c) { JoinsAreKeys(schema, meta, g, e.name, c); }
  }

  lemma AddressableRows(schema: Schema, meta: Metadata, tables: seq<TableEntry>, g: Graph)
    requires ResolvedFk(meta, tables, g) && DistinctNames(tables)
    ensures Addressable(schema, meta, tables) <==> HasPrimaryKeys(schema, g, tables)
  {
    hide ResolvedFk, LosesRows, Overwrites;
    forall e, c | e in tables ensures c in Rewritten(g, tables, e.name) <==> Overwrites(meta, e, c) {
      RewrittenIsOverwritten(meta, tables, g, e, c);
    }
    forall e | e in tables ensures Rewritten(g, tables, e.name) != [] <==> exists c :: Overwrites(meta, e, c) {
      if Rewritten(g, tables, e.name) != [] {
        assert Rewritten(g, tables, e.name)[0] in Rewritten(g, tables, e.name);
      }
    }
  }

  /** Paths that name only declared tables give a hop-closed graph, which deletes in order. */
  lemma DeclaredPathsDeleteInOrder(meta: Metadata, tables: seq<TableEntry>, g: Graph)
    requires ResolvedFk(meta, tables, g) && PathsDeclared(tables)
    ensures DeletesInOrder(g, tables)
  {
    hide DeletesInOrder, FollowsKeys, DeletionOrdered, Coherent, PathsDeclared, Derived;
    forall a, h | a in g.accesses && h in a.hops ensures InGraph(g, h.target) {
      assert Derived(meta, tables, a);
      HopIsDeclared(meta, tables, a, h);
      NamedInGraph(meta, tables, g, h.target);
    }
    ResolvedIsWellOrdered(meta, g);
  }

  lemma HopIsDeclared(meta: Metadata, tables: seq<TableEntry>, a: Access, h: Hop)
    requires PathsDeclared(tables) && Derived(meta, tables, a) && h in a.hops
    ensures h.target in NamesOf(tables)
  {
    var e :| e in tables && FromEntry(meta, e, a);
    var i :| 0 <= i < |a.hops| && a.hops[i] == h;
    assert e.link.value.path[i] == h.target;
  }

  /** The conditions under which no local step fails, on any consistent database, come down to the
      declarations: a planned graph resolved over foreign keys meets them exactly when those are sound. */
  lemma SoundIsUnfailing(schema: Schema, meta: Metadata, tables: seq<TableEntry>, g: Graph)
    requires Describes(schema, meta) && ResolvedFk(meta, tables, g) && DistinctNames(tables) && PathsDeclared(tables)
    requires NoConflicts(g, tables)
    ensures Unfailing(schema, g, tables) <==> SoundlyDeclared(schema, meta, tables)
  {
    ResolvedAgrees(meta, tables, g);
    DeclaredPathsDeleteInOrder(meta, tables, g);
    ReferrersAreOnPath(schema, meta, tables, g);
    KeepingKeys(schema, meta, tables, g);
    AddressableRows(schema, meta, tables, g);
    FreeOfKeysIsFreeOfPrimary(schema, g, tables);
    assert Coherent(g);
    hide ResolvedFk, Describes, DistinctNames, PathsDeclared, Coherent, Agree, DeletesInOrder, NoConflicts, KeepsJoins,
      HasPrimaryKeys, KeepsPrimaryKeys, KeepsKeys, Addressable, ReferrersDeclared, FreeOfKeys, OnPath, Deleted;
  }

  lemma FreeOfKeysIsFreeOfPrimary(schema: Schema, g: Graph, tables: seq<TableEntry>)
    ensures (forall t :: FreeOfKeys(schema, t, Rewritten(g, tables, t))) ==> KeepsPrimaryKeys(schema, g, tables)
  {
    if forall t :: FreeOfKeys(schema, t, Rewritten(g, tables, t)) {
      forall t ensures FreeOfPrimaryKey(schema, t, Rewritten(g, tables, t)) {
        assert FreeOfKeys(schema, t, Rewritten(g, tables, t));
      }
    }
  }

  /** Resolves, plans and erases in one call. A sound data map is erased faithfully, and only an audit
      sink that refuses an event, a reference no resolver takes or a used key can stop it. */
  method EraseDeclared(session: Session, outbox: OutboxStore.Outbox, sink: AuditSink, meta: Metadata,
                       tables: seq<TableEntry>, id: Identity.Identifier, ext: External, supply: Surrogates)
    returns (resolved: Resolved, r: ErasureResult, ghost records: seq<Record>)
    requires session.Valid() && Describes(session.schema, meta) && ValidKeys(meta) && DistinctNames(tables)
    requires forall e :: e in tables && e.link.Some? ==> e.link.value.idColumns != []
    requires id.Composite? ==> Identity.ValidKey(id.values)
    modifies session, outbox, sink
    ensures session.Valid() && (resolved.Resolved? <==> ResolvableFk(tables, meta))
    ensures resolved.Unresolved? ==>
              session.db == old(session.db) && outbox.rows == old(outbox.rows) && sink.log == old(sink.log)
    ensures resolved.Resolved? ==>
              && ResolvedFk(meta, tables, resolved.graph) && Agree(resolved.graph, tables)
              && (r.Refusal? <==> !NoConflicts(resolved.graph, tables))
    ensures resolved.Resolved? && Accepted(resolved.graph, id) && PathsDeclared(tables) && !r.Refusal?
            && SoundlyDeclared(session.schema, meta, tables) ==>
              && (r.Completed? ==>
                    Faithful(resolved.graph, tables, id, ext, supply, old(session.db), session.db, records, r))
              && (sink.NeverDown() && ext.Matched() && Below(old(outbox.rows), ext.first) ==> r.Completed?)
    ensures resolved.Resolved? && r.Completed? ==> Addressable(session.schema, meta, tables)
  {
    resolved := ResolveFromFk(tables, meta);
    if resolved.Unresolved? {
      return resolved, NotRecorded(0), [];
    }
    var g := resolved.graph;
    assert ResolvedFk(meta, tables, g);
    ResolvedAgrees(meta, tables, g);
    hide *;
    r, records := EraseSubject(session, outbox, sink, g, tables, id, ext, supply);
    SoundRuns(session.schema, meta, tables, g);
    AddressableRows(session.schema, meta, tables, g);
  }

  lemma SoundRuns(schema: Schema, meta: Metadata, tables: seq<TableEntry>, g: Graph)
    requires Describes(schema, meta) && ResolvedFk(meta, tables, g) && DistinctNames(tables)
    ensures PathsDeclared(tables) && NoConflicts(g, tables) && SoundlyDeclared(schema, meta, tables) ==>
              Unfailing(schema, g, tables) && Orderly(schema, g, tables)
  {
    hide *;
    if PathsDeclared(tables) && NoConflicts(g, tables) && SoundlyDeclared(schema, meta, tables) {
      SoundIsUnfailing(schema, meta, tables, g);
      UnfailingIsOrderly(schema, g, tables);
    }
  }

  /** Where every key refers to a primary key, a consistent database needs no further condition for
      an erasure to leave every other subject's rows as they were. */
  lemma OthersUntouched(schema: Schema, meta: Metadata, tables: seq<TableEntry>, g: Graph, key: seq<string>,
                        other: seq<string>, supply: Surrogates, before: Db, after: Db, t: string, r: nat)
    requires Describes(schema, meta) && ResolvedFk(meta, tables, g) && KeysArePrimary(meta) && schema.Consistent(before)
    requires Erased(g, tables, key, supply, before, after) && InGraph(g, t) && key != other
    requires r in SubjectRows(before, g, other, t)
    ensures r in TableOf(after, t) && TableOf(after, t)[r] == TableOf(before, t)[r]
  {
    forall h | h in AccessOf(g, t).hops ensures UniqueTarget(before, h) {
      assert FollowsKey(meta, h);
      PrimaryKeyIsUnique(schema, meta, before, h);
    }
    Verifier.OtherSubjectsUntouched(g, tables, key, other, supply, before, after, t, r);
  }
}

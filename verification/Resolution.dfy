/** Resolving a data map into a subject graph over the foreign keys of its schema. */
module Resolution {
  import opened Manifest
  import opened Wrappers
  import opened Ordering
  import opened Erasure
  import Planning

  // --- schema metadata -------------------------------------------------------------

  datatype KeyConstraint = KeyConstraint(columns: seq<string>, parent: string, parentColumns: seq<string>) {
    predicate Valid() { 0 < |columns| == |parentColumns| }
  }

  datatype TableMeta = TableMeta(name: string, columns: seq<string>, primaryKey: seq<string>, keys: seq<KeyConstraint>)

  type Metadata = seq<TableMeta>

  predicate Mounted(meta: Metadata, name: string) {
    exists t :: t in meta && t.name == name
  }

  function MetaOf(meta: Metadata, name: string): (t: TableMeta)
    requires Mounted(meta, name)
    ensures t in meta && t.name == name
  {
    if meta[0].name == name then meta[0] else MetaOf(meta[1..], name)
  }

  /** The (child, parent) pairs of the foreign keys between tables of the graph. */
  predicate IsEdge(meta: Metadata, names: set<string>, e: Edge) {
    e.0 in names && e.1 in names && exists t :: t in meta && t.name == e.0 && exists k :: k in t.keys && k.parent == e.1
  }

  method FkEdges(meta: Metadata, names: set<string>) returns (edges: seq<Edge>)
    ensures forall e :: e in edges <==> IsEdge(meta, names, e)
  {
    edges := [];
    for i := 0 to |meta|
      invariant forall e :: e in edges <==> IsEdge(meta[..i], names, e)
    {
      ghost var before := edges;
      var t := meta[i];
      assert meta[..i + 1] == meta[..i] + [t];
      if t.name in names {
        for j := 0 to |t.keys|
          invariant forall e :: e in edges <==>
                      e in before || (e.0 == t.name && e.1 in names && exists k :: k in t.keys[..j] && k.parent == e.1)
        {
          assert t.keys[..j + 1] == t.keys[..j] + [t.keys[j]];
          if t.keys[j].parent in names {
            edges := edges + [(t.name, t.keys[j].parent)];
          }
        }
        assert t.keys[..|t.keys|] == t.keys;
      }
      forall e ensures IsEdge(meta[..i + 1], names, e) <==>
          || IsEdge(meta[..i], names, e)
          || (t.name in names && e.0 == t.name && e.1 in names && exists k :: k in t.keys && k.parent == e.1)
      {
        EdgeSnoc(meta[..i], t, names, e);
      }
    }
    assert meta[..|meta|] == meta;
  }

  lemma EdgeSnoc(meta: Metadata, t: TableMeta, names: set<string>, e: Edge)
    ensures IsEdge(meta + [t], names, e) <==>
              || IsEdge(meta, names, e)
              || (t.name in names && e.0 == t.name && e.1 in names && exists k :: k in t.keys && k.parent == e.1)
  {
    if IsEdge(meta + [t], names, e) {
      var u :| u in meta + [t] && u.name == e.0 && exists k :: k in u.keys && k.parent == e.1;
      assert u in meta || u == t;
    }
    if t.name in names && e.0 == t.name && e.1 in names && exists k :: k in t.keys && k.parent == e.1 {
      assert t in meta + [t];
    }
    if IsEdge(meta, names, e) {
      var u :| u in meta && u.name == e.0 && exists k :: k in u.keys && k.parent == e.1;
      assert u in meta + [t];
    }
  }

  /** A cycle of foreign keys between different tables of the set. */
  ghost predicate CyclicAmong(meta: Metadata, names: set<string>) {
    exists walk: seq<string> :: CyclicWalk(meta, names, walk)
  }

  ghost predicate CyclicWalk(meta: Metadata, names: set<string>, walk: seq<string>) {
    && |walk| > 1 && walk[0] == walk[|walk| - 1]
    && forall i :: 0 <= i < |walk| - 1 ==> StepsAlong(meta, names, walk, i)
  }

  ghost predicate StepsAlong(meta: Metadata, names: set<string>, walk: seq<string>, i: nat)
    requires i < |walk| - 1
  {
    walk[i] != walk[i + 1] && IsEdge(meta, names, (walk[i], walk[i + 1]))
  }

  lemma CycleOfEdges(meta: Metadata, names: set<string>, edges: seq<Edge>)
    requires forall e :: e in edges <==> IsEdge(meta, names, e)
    ensures HasCycle(edges) <==> CyclicAmong(meta, names)
  {
    if walk :| Cycle(walk, edges) {
      forall i | 0 <= i < |walk| - 1 ensures StepsAlong(meta, names, walk, i) {
        assert walk[i] != walk[i + 1] && (walk[i], walk[i + 1]) in edges;
      }
      assert CyclicWalk(meta, names, walk);
    }
    if walk: seq<string> :| CyclicWalk(meta, names, walk) {
      forall i {:trigger walk[i]} | 0 <= i < |walk| - 1
        ensures walk[i] != walk[i + 1] && (walk[i], walk[i + 1]) in edges
      {
        assert StepsAlong(meta, names, walk, i);
      }
      assert Cycle(walk, edges);
    }
  }

  // --- the subject anchor -------------------------------------------------------------

  predicate IsAnchor(e: TableEntry) {
    e.link.Some? && e.link.value.path == []
  }

  function Anchors(tables: seq<TableEntry>): (anchors: seq<TableEntry>)
    ensures forall i :: 0 <= i < |anchors| ==> IsAnchor(anchors[i])
  {
    if tables == [] then [] else (if IsAnchor(tables[0]) then [tables[0]] else []) + Anchors(tables[1..])
  }

  lemma AnchorsMembers(tables: seq<TableEntry>, e: TableEntry)
    ensures e in Anchors(tables) <==> e in tables && IsAnchor(e)
  {
    if tables != [] {
      AnchorsMembers(tables[1..], e);
      assert tables == [tables[0]] + tables[1..];
    }
  }

  datatype Failure =
    | NoAnchor | ManyAnchors | NotMounted(table: string) | MissingIdColumn | NoLink(table: string)
    | StrayIdColumns(table: string) | BadSegment(table: string, segment: string) | WrongEnd(table: string)
    | KeyCycle | InvalidPlan(table: string)

  datatype Resolved = Resolved(graph: Graph) | Unresolved(why: Failure)

  datatype Path = Hops(hops: seq<Hop>) | Broken(why: Failure)

  /** The link of a non-subject table must not declare subject columns of its own. */
  predicate StrayColumns(link: Link) {
    link.path != [] && link.idColumns != ["id"]
  }

  // --- foreign-key paths --------------------------------------------------------------

  function KeysTo(keys: seq<KeyConstraint>, parent: string): seq<KeyConstraint> {
    if keys == [] then []
    else (if keys[0].parent == parent then [keys[0]] else []) + KeysTo(keys[1..], parent)
  }

  lemma KeysToMembers(keys: seq<KeyConstraint>, parent: string, k: KeyConstraint)
    ensures k in KeysTo(keys, parent) <==> k in keys && k.parent == parent
  {
    if keys != [] {
      KeysToMembers(keys[1..], parent, k);
      assert keys == [keys[0]] + keys[1..];
    }
  }

  /** A hop that follows a foreign key of its source table, from child to parent. */
  predicate FollowsKey(meta: Metadata, h: Hop) {
    Mounted(meta, h.source) && KeyConstraint(h.sourceColumns, h.target, h.targetColumns) in MetaOf(meta, h.source).keys
  }

  predicate ValidKeys(meta: Metadata) {
    forall t, k :: t in meta && k in t.keys ==> k.Valid()
  }

  /** The hop follows the one foreign key its source has to its target. */
  predicate OnlyKey(meta: Metadata, h: Hop) {
    h.Valid() && FollowsKey(meta, h) && |KeysTo(MetaOf(meta, h.source).keys, h.target)| == 1
  }

  /** Each name of the path is mounted and is the parent of exactly one key of the table before. */
  predicate Walkable(meta: Metadata, current: string, path: seq<string>)
    decreases |path|
  {
    path != [] ==>
      && Mounted(meta, current) && Mounted(meta, path[0])
      && |KeysTo(MetaOf(meta, current).keys, path[0])| == 1
      && Walkable(meta, path[0], path[1..])
  }

  predicate PathResolves(meta: Metadata, e: TableEntry, subject: string) {
    && e.link.Some? && (e.link.value.path == [] || e.link.value.idColumns == ["id"]) && Mounted(meta, e.name)
    && Walkable(meta, e.name, e.link.value.path)
    && (e.link.value.path != [] ==> e.link.value.path[|e.link.value.path| - 1] == subject)
  }

  /** The segment cannot be walked: it names no table, or not the parent of exactly one key of the one before. */
  predicate StopsAt(meta: Metadata, e: TableEntry, path: seq<string>, i: nat)
    requires i < |path| && Mounted(meta, if i == 0 then e.name else path[i - 1])
  {
    !Mounted(meta, path[i]) || |KeysTo(MetaOf(meta, if i == 0 then e.name else path[i - 1]).keys, path[i])| != 1
  }

  /** Why the path of an entry does not resolve: the first of the checks that fails. */
  predicate PathFails(meta: Metadata, e: TableEntry, subject: string, why: Failure) {
    match e.link
    case None => why == NoLink(e.name)
    case Some(link) =>
      if link.path != [] && link.idColumns != ["id"] then why == StrayIdColumns(e.name)
      else if !Mounted(meta, e.name) then why == NotMounted(e.name)
      else if Walkable(meta, e.name, link.path) then
        link.path != [] && link.path[|link.path| - 1] != subject && why == WrongEnd(e.name)
      else
        exists i :: 0 <= i < |link.path| && Walkable(meta, e.name, link.path[..i])
          && Mounted(meta, if i == 0 then e.name else link.path[i - 1])
          && StopsAt(meta, e, link.path, i) && why == BadSegment(e.name, link.path[i])
  }

  /** Flattens a dotted path of table names: each segment must be mounted and be the parent of
      exactly one foreign key of the table before it, and the path must end at the subject. */
  method ResolvePathFk(e: TableEntry, meta: Metadata, subject: string) returns (r: Path)
    requires ValidKeys(meta)
    ensures r.Hops? <==> PathResolves(meta, e, subject)
    ensures r.Hops? ==>
              && |r.hops| == |e.link.value.path|
              && Contiguous(e.name, r.hops)
              && (forall i :: 0 <= i < |r.hops| ==> r.hops[i].target == e.link.value.path[i])
              && (forall h :: h in r.hops ==> OnlyKey(meta, h))
              && (r.hops != [] ==> r.hops[|r.hops| - 1].target == subject)
    ensures r.Broken? ==> PathFails(meta, e, subject, r.why)
  {
    if e.link.None? {
      return Broken(NoLink(e.name));
    }
    var link := e.link.value;
    if StrayColumns(link) {
      return Broken(StrayIdColumns(e.name));
    }
    if !Mounted(meta, e.name) {
      return Broken(NotMounted(e.name));
    }
    var current := e.name;
    var hops: seq<Hop> := [];
    for i := 0 to |link.path|
      invariant Mounted(meta, current) && |hops| == i
      invariant Walkable(meta, e.name, link.path) == Walkable(meta, current, link.path[i..])
      invariant current == if hops == [] then e.name else hops[|hops| - 1].target
      invariant Contiguous(e.name, hops)
      invariant forall k :: 0 <= k < i ==> hops[k].target == link.path[k]
      invariant forall h :: h in hops ==> OnlyKey(meta, h)
      invariant Walkable(meta, e.name, link.path[..i]) && current == if i == 0 then e.name else link.path[i - 1]
    {
      var segment := link.path[i];
      assert link.path[i..][1..] == link.path[i + 1..];
      WalkableSnoc(meta, e.name, link.path, i);
      if !Mounted(meta, segment) {
        return Broken(BadSegment(e.name, segment));
      }
      var matches := KeysTo(MetaOf(meta, current).keys, segment);
      if |matches| != 1 {
        return Broken(BadSegment(e.name, segment));
      }
      KeysToMembers(MetaOf(meta, current).keys, segment, matches[0]);
      var h := Hop(current, matches[0].columns, segment, matches[0].parentColumns);
      assert KeyConstraint(h.sourceColumns, h.target, h.targetColumns) == matches[0];
      assert matches[0] in MetaOf(meta, current).keys && matches[0].Valid();
      assert OnlyKey(meta, h);
      ContiguousSnoc(e.name, hops, h);
      hops := hops + [h];
      current := segment;
    }
    if hops != [] && hops[|hops| - 1].target != subject {
      return Broken(WrongEnd(e.name));
    }
    r := Hops(hops);
  }

  lemma {:induction false} WalkableSnoc(meta: Metadata, current: string, path: seq<string>, i: nat)
    requires i < |path| && Walkable(meta, current, path[..i]) && Mounted(meta, current)
    ensures Mounted(meta, if i == 0 then current else path[i - 1])
    ensures Mounted(meta, path[i])
            && |KeysTo(MetaOf(meta, if i == 0 then current else path[i - 1]).keys, path[i])| == 1 ==>
              Walkable(meta, current, path[..i + 1])
    decreases i
  {
    if i == 0 {
      assert path[..1][1..] == [];
    } else {
      assert path[..i][1..] == path[1..][..i - 1] && path[..i + 1][1..] == path[1..][..i];
      WalkableSnoc(meta, path[0], path[1..], i - 1);
    }
  }

  lemma ContiguousSnoc(table: string, hops: seq<Hop>, h: Hop)
    requires Contiguous(table, hops) && h.source == if hops == [] then table else hops[|hops| - 1].target
    ensures Contiguous(table, hops + [h])
    decreases |hops|
  {
    if hops == [] {
      assert (hops + [h])[1..] == [];
    } else {
      ContiguousSnoc(hops[0].target, hops[1..], h);
      assert (hops + [h])[1..] == hops[1..] + [h];
    }
  }

  predicate FullyOwned(e: TableEntry, t: TableMeta) {
    forall c :: c in t.columns ==>
      || (exists a :: a in e.columns && a.name == c)
      || c in t.primaryKey
      || exists k :: k in t.keys && c in k.columns
  }

  // --- assembling the graph --------------------------------------------------------------

  function TableSet(g: Graph): set<string> {
    set t | t in DeletionOrder(g)
  }

  /** The accesses in deletion order, under the foreign keys between the graph's tables. */
  ghost predicate DeletionOrdered(meta: Metadata, g: Graph) {
    forall i, j | 0 <= i < |g.accesses| && 0 <= j < |g.accesses| ::
      && g.accesses[i].table != g.accesses[j].table
      && IsEdge(meta, TableSet(g), (g.accesses[i].table, g.accesses[j].table))
      ==> i < j
  }

  /** An access the graph's own validator accepts. */
  predicate AccessFits(subject: string, a: Access) {
    && Contiguous(a.table, a.hops)
    && (forall h :: h in a.hops ==> h.Valid())
    && (if a.hops == [] then a.table == subject else a.hops[|a.hops| - 1].target == subject)
  }

  /** A graph over one subject and key, with one access per planned table in deletion order. */
  ghost predicate Assembled(subject: string, idColumns: seq<string>, plans: map<string, Access>, meta: Metadata,
                            g: Graph) {
    && g.subject == subject && g.idColumns == idColumns
    && (forall a :: a in g.accesses <==> a.table in plans && a == plans[a.table])
    && Distinct(DeletionOrder(g))
    && (forall n :: n in DeletionOrder(g) <==> n in plans)
    && DeletionOrdered(meta, g)
  }

  method Assemble(subject: string, idColumns: seq<string>, names: seq<string>, plans: map<string, Access>,
                  meta: Metadata)
    returns (r: Resolved)
    requires (forall n :: n in names <==> n in plans) && subject in plans && idColumns != []
    requires forall n :: n in plans ==> plans[n].table == n && AccessFits(subject, plans[n])
    ensures r.Unresolved? <==> CyclicAmong(meta, plans.Keys)
    ensures r.Unresolved? ==> r.why == KeyCycle
    ensures r.Resolved? ==> Assembled(subject, idColumns, plans, meta, r.graph) && Coherent(r.graph)
  {
    hide AccessFits;
    var edges := FkEdges(meta, plans.Keys);
    var o := FkSafeDeletionOrder(names, edges);
    assert forall e :: e in edges ==> !Outside(names, e);
    CycleOfEdges(meta, plans.Keys, edges);
    if o.CyclicEdges? {
      return Unresolved(KeyCycle);
    }
    var g := Graph(subject, idColumns, seq(|o.tables|, i requires 0 <= i < |o.tables| => plans[o.tables[i]]));
    GraphOfOrder(meta, plans, o.tables, edges, g);
    assert Assembled(subject, idColumns, plans, meta, g);
    hide *;
    AssembledIsCoherent(subject, idColumns, plans, meta, g);
    r := Resolved(g);
  }

  lemma AssembledIsCoherent(subject: string, idColumns: seq<string>, plans: map<string, Access>, meta: Metadata,
                            g: Graph)
    requires Assembled(subject, idColumns, plans, meta, g) && subject in plans && idColumns != []
    requires forall n :: n in plans ==> plans[n].table == n && AccessFits(subject, plans[n])
    ensures Coherent(g)
  {
    hide DeletionOrdered;
    assert plans[subject] in g.accesses;
    forall a | a in g.accesses ensures CoherentAccess(g, a) {
      assert AccessFits(subject, plans[a.table]);
    }
    forall i, j | 0 <= i < |g.accesses| && 0 <= j < |g.accesses| && g.accesses[i].table == g.accesses[j].table
      ensures i == j
    {
      assert DeletionOrder(g)[i] == DeletionOrder(g)[j];
    }
  }

  lemma GraphOfOrder(meta: Metadata, plans: map<string, Access>, order: seq<string>, edges: seq<Edge>, g: Graph)
    requires forall n :: n in plans ==> plans[n].table == n
    requires Distinct(order) && ChildrenFirst(order, edges) && forall n :: n in order <==> n in plans
    requires forall e :: e in edges <==> IsEdge(meta, plans.Keys, e)
    requires |g.accesses| == |order| && forall i :: 0 <= i < |order| ==> g.accesses[i] == plans[order[i]]
    ensures DeletionOrder(g) == order && DeletionOrdered(meta, g)
    ensures forall a :: a in g.accesses <==> a.table in plans && a == plans[a.table]
  {
    assert DeletionOrder(g) == order;
    assert TableSet(g) == plans.Keys;
    forall i, j | 0 <= i < |g.accesses| && 0 <= j < |g.accesses| && g.accesses[i].table != g.accesses[j].table
        && IsEdge(meta, TableSet(g), (g.accesses[i].table, g.accesses[j].table))
      ensures i < j
    {
      var e := (g.accesses[i].table, g.accesses[j].table);
      assert e in edges && order[i] == e.0 && order[j] == e.1;
    }
    forall a: Access | a.table in plans && a == plans[a.table] ensures a in g.accesses {
      var i :| 0 <= i < |order| && order[i] == a.table;
      assert g.accesses[i] == a;
    }
  }

  function NamesOf(tables: seq<TableEntry>): set<string> {
    set e | e in tables :: e.name
  }

  /** Exactly what foreign-key resolution asks of a data map. */
  ghost predicate ResolvableFk(tables: seq<TableEntry>, meta: Metadata) {
    && |Anchors(tables)| == 1
    && var subject := Anchors(tables)[0];
       && Mounted(meta, subject.name)
       && (forall c :: c in subject.link.value.idColumns ==> c in MetaOf(meta, subject.name).columns)
       && (forall e :: e in tables ==> PathResolves(meta, e, subject.name))
       && !CyclicAmong(meta, NamesOf(tables))
  }

  /** Resolves the data map over foreign keys. The graph it returns is coherent, describes the
      manifest's tables, follows keys from child to parent, and is in deletion order. */
  method ResolveFromFk(tables: seq<TableEntry>, meta: Metadata) returns (r: Resolved)
    requires ValidKeys(meta)
    requires forall e :: e in tables && e.link.Some? ==> e.link.value.idColumns != []
    ensures r.Resolved? <==> ResolvableFk(tables, meta)
    ensures r.Unresolved? ==> RaisedFk(tables, meta, r.why)
    ensures r.Resolved? ==>
              && Coherent(r.graph)
              && (forall n :: n in DeletionOrder(r.graph) <==> n in NamesOf(tables))
              && (forall a :: a in r.graph.accesses ==> Derived(meta, tables, a))
              && FollowsKeys(meta, r.graph)
              && DeletionOrdered(meta, r.graph)
              && r.graph.subject == Anchors(tables)[0].name
              && r.graph.idColumns == Anchors(tables)[0].link.value.idColumns
    ensures r.Resolved? && DistinctNames(tables) ==> DeletesAsDeclared(meta, r.graph, tables)
  {
    hide DeletesAsDeclared, DistinctNames, FirstBroken;
    var anchors := Anchors(tables);
    if |anchors| != 1 {
      return Unresolved(if anchors == [] then NoAnchor else ManyAnchors);
    }
    var subject := anchors[0];
    forall e ensures e in anchors <==> e in tables && IsAnchor(e) {
      AnchorsMembers(tables, e);
    }
    assert subject in anchors;
    if !Mounted(meta, subject.name) {
      return Unresolved(NotMounted(subject.name));
    }
    var idColumns := subject.link.value.idColumns;
    if exists c :: c in idColumns && c !in MetaOf(meta, subject.name).columns {
      return Unresolved(MissingIdColumn);
    }
    var failure, names, plans := PlanPathsFk(tables, meta, subject.name);
    if failure.Some? {
      return Unresolved(failure.value);
    }
    hide PathResolves, PlannedFk, FollowsKeys, DeletionOrdered, Coherent, Derived;
    assert subject.name in plans;
    r := AssembleFk(subject.name, idColumns, names, plans, meta);
    if r.Resolved? { ResolvedDeletesAsDeclared(meta, r.graph, tables); }
  }

  method AssembleFk(subject: string, idColumns: seq<string>, names: seq<string>, plans: map<string, Access>,
                    meta: Metadata)
    returns (r: Resolved)
    requires (forall n :: n in names <==> n in plans) && subject in plans && idColumns != []
    requires forall n :: n in plans ==> plans[n].table == n && PlannedFk(meta, subject, plans[n])
    ensures r.Unresolved? <==> CyclicAmong(meta, plans.Keys)
    ensures r.Unresolved? ==> r.why == KeyCycle
    ensures r.Resolved? ==>
              && Coherent(r.graph) && r.graph.subject == subject && r.graph.idColumns == idColumns
              && (forall a :: a in r.graph.accesses ==> a.table in plans && a == plans[a.table])
              && (forall n :: n in DeletionOrder(r.graph) <==> n in plans)
              && FollowsKeys(meta, r.graph)
              && DeletionOrdered(meta, r.graph)
  {
    hide AccessFits, Coherent, DeletionOrdered;
    r := Assemble(subject, idColumns, names, plans, meta);
  }

  /** The reason is that of the first entry whose path does not resolve. */
  predicate FirstBroken(tables: seq<TableEntry>, meta: Metadata, subject: string, why: Failure) {
    exists i :: 0 <= i < |tables| && PathFails(meta, tables[i], subject, why)
      && forall k :: 0 <= k < i ==> PathResolves(meta, tables[k], subject)
  }

  /** Which reason resolution gives: the first check that fails, in the order they are made. */
  ghost predicate RaisedFk(tables: seq<TableEntry>, meta: Metadata, why: Failure) {
    var anchors := Anchors(tables);
    if anchors == [] then why == NoAnchor
    else if |anchors| > 1 then why == ManyAnchors
    else if !Mounted(meta, anchors[0].name) then why == NotMounted(anchors[0].name)
    else if exists c :: c in anchors[0].link.value.idColumns && c !in MetaOf(meta, anchors[0].name).columns then
      why == MissingIdColumn
    else if forall e :: e in tables ==> PathResolves(meta, e, anchors[0].name) then why == KeyCycle
    else FirstBroken(tables, meta, anchors[0].name, why)
  }

  /** One access per table name, or the first failure. */
  method PlanPathsFk(tables: seq<TableEntry>, meta: Metadata, subject: string)
    returns (failure: Option<Failure>, names: seq<string>, plans: map<string, Access>)
    requires ValidKeys(meta)
    requires forall e :: e in tables && IsAnchor(e) ==> e.name == subject
    ensures failure.None? <==> forall e :: e in tables ==> PathResolves(meta, e, subject)
    ensures failure.Some? ==> FirstBroken(tables, meta, subject, failure.value)
    ensures failure.None? ==>
              && (forall n :: n in names <==> n in plans)
              && plans.Keys == NamesOf(tables)
              && (forall n :: n in plans ==>
                   plans[n].table == n && PlannedFk(meta, subject, plans[n]) && Derived(meta, tables, plans[n]))
  {
    hide PathResolves, PlannedFk, FromEntry, PathFails;
    names, plans := [], map[];
    for i := 0 to |tables|
      invariant forall n :: n in names <==> n in plans
      invariant plans.Keys == NamesOf(tables[..i])
      invariant forall k :: 0 <= k < i ==> PathResolves(meta, tables[k], subject)
      invariant forall n :: n in plans ==>
                plans[n].table == n && PlannedFk(meta, subject, plans[n]) && Derived(meta, tables[..i], plans[n])
    {
      var e := tables[i];
      var broken, access := PlanEntryFk(e, meta, subject);
      if broken.Some? {
        return broken, names, plans;
      }
      if e.name !in plans {
        names := names + [e.name];
      }
      plans := plans[e.name := access];
      assert tables[..i + 1] == tables[..i] + [e];
    }
    assert tables[..|tables|] == tables;
    failure := None;
  }

  method PlanEntryFk(e: TableEntry, meta: Metadata, subject: string) returns (failure: Option<Failure>, access: Access)
    requires ValidKeys(meta) && (IsAnchor(e) ==> e.name == subject)
    ensures failure.None? <==> PathResolves(meta, e, subject)
    ensures failure.Some? ==> PathFails(meta, e, subject, failure.value)
    ensures failure.None? ==> access.table == e.name && PlannedFk(meta, subject, access) && FromEntry(meta, e, access)
  {
    var path := ResolvePathFk(e, meta, subject);
    if path.Broken? {
      return Some(path.why), Access(e.name, [], false);
    }
    failure, access := None, Access(e.name, path.hops, FullyOwned(e, MetaOf(meta, e.name)));
  }

  /** The access an entry's own path and columns call for. */
  predicate FromEntry(meta: Metadata, e: TableEntry, a: Access) {
    && a.table == e.name && e.link.Some? && Mounted(meta, e.name)
    && |a.hops| == |e.link.value.path|
    && (forall i :: 0 <= i < |a.hops| ==> a.hops[i].target == e.link.value.path[i] && OnlyKey(meta, a.hops[i]))
    && a.fullyOwned == FullyOwned(e, MetaOf(meta, e.name))
  }

  predicate Derived(meta: Metadata, tables: seq<TableEntry>, a: Access) {
    exists e :: e in tables && FromEntry(meta, e, a)
  }

  predicate PlannedFk(meta: Metadata, subject: string, a: Access) {
    AccessFits(subject, a) && forall h :: h in a.hops ==> FollowsKey(meta, h)
  }

  /** What a manifest says for the rows of a table to go as a whole: every annotated column is DELETE, and
      every column there is is annotated, or is a member of the primary key or of a foreign key. */
  predicate DeclaresWholeRow(e: TableEntry, t: TableMeta) {
    && (forall a :: a in e.columns ==> a.erasure == DELETE)
    && (forall c :: c in t.columns && c !in t.primaryKey && (forall k :: k in t.keys ==> c !in k.columns) ==>
          exists a :: a in e.columns && a.name == c)
  }

  /** In a graph resolved over foreign keys a table loses its rows exactly when its entry declares the
      whole row. */
  lemma RowsGoWhenDeclared(meta: Metadata, g: Graph, tables: seq<TableEntry>, t: string)
    requires DistinctNames(tables) && forall n :: n in DeletionOrder(g) <==> n in NamesOf(tables)
    requires forall a :: a in g.accesses ==> Derived(meta, tables, a)
    ensures Planning.Deleted(g, tables, t)
            <==> Declares(tables, t) && Mounted(meta, t) && DeclaresWholeRow(EntryOf(tables, t), MetaOf(meta, t))
  {
    if Declares(tables, t) {
      var e := EntryOf(tables, t);
      assert t in NamesOf(tables);
      var i :| 0 <= i < |g.accesses| && DeletionOrder(g)[i] == t;
      assert g.accesses[i] in g.accesses;
      var f :| f in tables && FromEntry(meta, f, AccessOf(g, t));
      EntryIsUnique(tables, f);
      OwnedIffDeclared(e, MetaOf(meta, t));
      forall d | d in tables && d.name == t ensures d == e { EntryIsUnique(tables, d); }
      hide FullyOwned, DeclaresWholeRow;
    }
  }

  /** The tables a resolved graph deletes are those whose entries declare the whole row. */
  ghost predicate DeletesAsDeclared(meta: Metadata, g: Graph, tables: seq<TableEntry>) {
    forall t :: Planning.Deleted(g, tables, t)
                <==> && Declares(tables, t) && Mounted(meta, t)
                     && DeclaresWholeRow(EntryOf(tables, t), MetaOf(meta, t))
  }

  lemma ResolvedDeletesAsDeclared(meta: Metadata, g: Graph, tables: seq<TableEntry>)
    requires forall n :: n in DeletionOrder(g) <==> n in NamesOf(tables)
    requires forall a :: a in g.accesses ==> Derived(meta, tables, a)
    ensures DistinctNames(tables) ==> DeletesAsDeclared(meta, g, tables)
  {
    hide Planning.Deleted, DeclaresWholeRow;
    if DistinctNames(tables) {
      forall t ensures Planning.Deleted(g, tables, t) <==>
          Declares(tables, t) && Mounted(meta, t) && DeclaresWholeRow(EntryOf(tables, t), MetaOf(meta, t))
      {
        RowsGoWhenDeclared(meta, g, tables, t);
      }
    }
  }

  lemma OwnedIffDeclared(e: TableEntry, t: TableMeta)
    ensures FullyOwned(e, t) && (forall a :: a in e.columns ==> a.erasure == DELETE) <==> DeclaresWholeRow(e, t)
  {}

  /** Whole-row deletion erases no more than the manifest declares: every column of a row-deleted
      table is annotated DELETE or is a member of its primary key or of a foreign key. */
  lemma DeletedRowsHoldNothingElse(meta: Metadata, g: Graph, tables: seq<TableEntry>, t: string, c: string)
    requires DistinctNames(tables) && Planning.Deleted(g, tables, t)
    requires forall a :: a in g.accesses ==> Derived(meta, tables, a)
    requires Mounted(meta, t) && c in MetaOf(meta, t).columns
    ensures (exists a :: a in EntryOf(tables, t).columns && a.name == c && a.erasure == DELETE)
            || c in MetaOf(meta, t).primaryKey
            || exists k :: k in MetaOf(meta, t).keys && c in k.columns
  {
    var e :| e in tables && e.name == t && Planning.RowDeleted(g, e);
    EntryIsUnique(tables, e);
    var f :| f in tables && FromEntry(meta, f, AccessOf(g, t));
    EntryIsUnique(tables, f);
  }

  // --- deletion order along chains ----------------------------------------------------------

  /** Every table a chain passes through has an access of its own. */
  predicate HopClosed(g: Graph) {
    forall a, h :: a in g.accesses && h in a.hops ==> InGraph(g, h.target)
  }

  ghost predicate FollowsKeys(meta: Metadata, g: Graph) {
    forall a, h :: a in g.accesses && h in a.hops ==> FollowsKey(meta, h)
  }

  /** Along a chain that follows keys between tables of the graph the deletion order only goes up. */
  lemma {:induction false} ChainClimbs(meta: Metadata, g: Graph, hops: seq<Hop>, i: nat, h: Hop)
    requires Coherent(g) && DeletionOrdered(meta, g)
    requires i < |g.accesses| && Contiguous(g.accesses[i].table, hops) && h in hops
    requires forall x :: x in hops ==> FollowsKey(meta, x) && InGraph(g, x.target)
    ensures AtOrAfter(g, i, h.target)
    decreases |hops|
  {
    var first := hops[0];
    var order := DeletionOrder(g);
    var a := AccessOf(g, first.target);
    var j :| 0 <= j < |g.accesses| && g.accesses[j] == a;
    assert i <= j by {
      if first.source != first.target {
        var e := (first.source, first.target);
        assert order[i] == e.0 && order[j] == e.1;
        var t := MetaOf(meta, first.source);
        assert KeyConstraint(first.sourceColumns, first.target, first.targetColumns) in t.keys;
        assert IsEdge(meta, TableSet(g), e);
      } else {
        assert g.accesses[i].table == g.accesses[j].table;
      }
    }
    if h == first {
      assert AtOrAfter(g, i, first.target);
    } else {
      assert h in hops[1..];
      ChainClimbs(meta, g, hops[1..], j, h);
      var p :| j <= p < |g.accesses| && g.accesses[p].table == h.target;
      assert AtOrAfter(g, i, h.target);
    }
  }

  /** Every table a chain passes through is in the graph, not before the table it starts from. */
  predicate WellOrdered(g: Graph) {
    forall i, h :: 0 <= i < |g.accesses| && h in g.accesses[i].hops ==> AtOrAfter(g, i, h.target)
  }

  /** A hop-closed graph resolved over foreign keys never deletes a table before one whose chain
      passes through it, and it deletes the subject table last. */
  lemma ResolvedIsWellOrdered(meta: Metadata, g: Graph)
    requires Coherent(g) && FollowsKeys(meta, g) && DeletionOrdered(meta, g) && HopClosed(g)
    ensures WellOrdered(g)
    ensures forall tables: seq<TableEntry> :: DeletesInOrder(g, tables)
    ensures g.accesses[|g.accesses| - 1].table == g.subject
  {
    forall i, h | 0 <= i < |g.accesses| && h in g.accesses[i].hops ensures AtOrAfter(g, i, h.target) {
      assert CoherentAccess(g, g.accesses[i]);
      ChainClimbs(meta, g, g.accesses[i].hops, i, h);
    }
    var last := |g.accesses| - 1;
    var a := g.accesses[last];
    assert CoherentAccess(g, a);
    if a.hops != [] {
      assert a.hops[|a.hops| - 1] in g.accesses[last].hops;
      assert AtOrAfter(g, last, g.subject);
    }
  }
}

/** Resolving over ORM relationships, and the linter that must find a gap exactly when that fails. */
module Reachability {
  import opened Manifest
  import opened Wrappers
  import opened Ordering
  import opened Resolution
  import Planning

  /** One mapped relationship. `source` and `target` are the tables it joins, and `next` is the
      mapper the walk goes on from, by its place in the registry. */
  datatype Relationship = Relationship(secondary: bool, plainTables: bool, source: string, target: string,
                                       pairs: seq<(string, string)>, next: nat)

  datatype Mapper = Mapper(local: TableMeta, plain: bool, relationships: map<string, Relationship>)

  type Registry = seq<Mapper>

  /** Every relationship leads to a mapper of the registry. */
  predicate Linked(mappers: Registry) {
    forall m, n :: m in mappers && n in m.relationships ==> m.relationships[n].next < |mappers|
  }

  /** The mapper of a table: the last one whose local table is a plain table of that name. */
  function MapperFor(mappers: Registry, table: string): (r: Option<nat>)
    ensures r.Some? ==> r.value < |mappers| && mappers[r.value].plain && mappers[r.value].local.name == table
    ensures r.Some? ==> forall k :: r.value < k < |mappers| ==> !(mappers[k].plain && mappers[k].local.name == table)
    ensures r.None? ==> forall k :: 0 <= k < |mappers| ==> !(mappers[k].plain && mappers[k].local.name == table)
  {
    if mappers == [] then None
    else if mappers[|mappers| - 1].plain && mappers[|mappers| - 1].local.name == table then Some(|mappers| - 1)
    else MapperFor(mappers[..|mappers| - 1], table)
  }

  // --- walking one path ------------------------------------------------------------------

  predicate Joinable(r: Relationship) {
    !r.secondary && r.plainTables && r.pairs != []
  }

  function HopOf(r: Relationship): Hop {
    Hop(r.source, seq(|r.pairs|, i requires 0 <= i < |r.pairs| => r.pairs[i].0),
        r.target, seq(|r.pairs|, i requires 0 <= i < |r.pairs| => r.pairs[i].1))
  }

  /** The hops of a path from a mapper, or the first segment that is not one. */
  function Walk(mappers: Registry, name: string, at: nat, path: seq<string>): Path
    requires Linked(mappers) && at < |mappers|
    decreases |path|
  {
    if path == [] then Hops([])
    else if path[0] !in mappers[at].relationships || !Joinable(mappers[at].relationships[path[0]]) then
      Broken(BadSegment(name, path[0]))
    else
      var r := mappers[at].relationships[path[0]];
      assert mappers[at] in mappers;
      var rest := Walk(mappers, name, r.next, path[1..]);
      if rest.Broken? then rest else Hops([HopOf(r)] + rest.hops)
  }

  /** The access path of one entry, or why there is none. */
  function PathOf(e: TableEntry, mappers: Registry, subject: string): Path
    requires Linked(mappers)
  {
    if e.link.None? then Broken(NoLink(e.name))
    else if StrayColumns(e.link.value) then Broken(StrayIdColumns(e.name))
    else
      var at := MapperFor(mappers, e.name);
      if at.None? then Broken(NotMounted(e.name))
      else
        var r := Walk(mappers, e.name, at.value, e.link.value.path);
        if r.Hops? && r.hops != [] && r.hops[|r.hops| - 1].target != subject then Broken(WrongEnd(e.name)) else r
  }

  predicate Routed(e: TableEntry, mappers: Registry, subject: string)
    requires Linked(mappers)
  {
    PathOf(e, mappers, subject).Hops?
  }

  /** The one walk both the resolver and the linter use. */
  method ResolvePath(e: TableEntry, mappers: Registry, subject: string) returns (r: Path)
    requires Linked(mappers)
    ensures r == PathOf(e, mappers, subject)
  {
    if e.link.None? {
      return Broken(NoLink(e.name));
    }
    var link := e.link.value;
    if StrayColumns(link) {
      return Broken(StrayIdColumns(e.name));
    }
    var found := MapperFor(mappers, e.name);
    if found.None? {
      return Broken(NotMounted(e.name));
    }
    var at: nat := found.value;
    var hops: seq<Hop> := [];
    for i := 0 to |link.path|
      invariant 0 <= at < |mappers|
      invariant Walk(mappers, e.name, found.value, link.path) == After(hops, Walk(mappers, e.name, at, link.path[i..]))
    {
      var segment := link.path[i];
      assert link.path[i..][0] == segment && link.path[i..][1..] == link.path[i + 1..];
      if segment !in mappers[at].relationships || !Joinable(mappers[at].relationships[segment]) {
        return Broken(BadSegment(e.name, segment));
      }
      var r := mappers[at].relationships[segment];
      assert mappers[at] in mappers;
      AfterOne(hops, HopOf(r), Walk(mappers, e.name, r.next, link.path[i + 1..]));
      hops := hops + [HopOf(r)];
      at := r.next;
    }
    if hops != [] && hops[|hops| - 1].target != subject {
      return Broken(WrongEnd(e.name));
    }
    r := Hops(hops);
  }

  function After(hops: seq<Hop>, rest: Path): Path {
    if rest.Broken? then rest else Hops(hops + rest.hops)
  }

  lemma AfterOne(hops: seq<Hop>, h: Hop, rest: Path)
    ensures After(hops, if rest.Broken? then rest else Hops([h] + rest.hops)) == After(hops + [h], rest)
  {
    if rest.Hops? { assert hops + ([h] + rest.hops) == hops + [h] + rest.hops; }
  }

  lemma {:induction false} WalkHops(mappers: Registry, name: string, at: nat, path: seq<string>)
    requires Linked(mappers) && at < |mappers|
    ensures var r := Walk(mappers, name, at, path);
            r.Hops? ==> |r.hops| == |path| && forall h :: h in r.hops ==> h.Valid()
    decreases |path|
  {
    if path != [] && path[0] in mappers[at].relationships {
      assert mappers[at] in mappers;
      WalkHops(mappers, name, mappers[at].relationships[path[0]].next, path[1..]);
    }
  }

  /** The mapper has the relationship, and it can be a hop: a direct join of plain tables over column pairs. */
  predicate Takes(m: Mapper, segment: string) {
    && segment in m.relationships
    && !m.relationships[segment].secondary && m.relationships[segment].plainTables
    && m.relationships[segment].pairs != []
  }

  /** The hop joins the relationship's tables on its column pairs, in order. */
  predicate JoinsAs(m: Mapper, segment: string, h: Hop)
    requires Takes(m, segment)
  {
    var r := m.relationships[segment];
    && h.source == r.source && h.target == r.target && |h.sourceColumns| == |h.targetColumns| == |r.pairs|
    && forall k :: 0 <= k < |r.pairs| ==> r.pairs[k] == (h.sourceColumns[k], h.targetColumns[k])
  }

  /** The mappers a walk passes through, each reached by the relationship before it. */
  ghost predicate Passes(mappers: Registry, at: nat, path: seq<string>, ats: seq<nat>) {
    && 0 < |ats| <= |path| + 1 && ats[0] == at
    && (forall i :: 0 <= i < |ats| ==> ats[i] < |mappers|)
    && forall i :: 0 <= i < |ats| - 1 ==> PassesOn(mappers, path, ats, i)
  }

  ghost predicate PassesOn(mappers: Registry, path: seq<string>, ats: seq<nat>, i: nat)
    requires i < |ats| - 1 && i < |path| && ats[i] < |mappers|
  {
    Takes(mappers[ats[i]], path[i]) && ats[i + 1] == mappers[ats[i]].relationships[path[i]].next
  }

  /** A walk takes the path's relationships one after another, each becoming the hop that joins its tables,
      and it stops at the first segment that cannot be taken. */
  lemma {:induction false} WalkTakesRelationships(mappers: Registry, name: string, at: nat, path: seq<string>)
    returns (ats: seq<nat>)
    requires Linked(mappers) && at < |mappers|
    ensures Passes(mappers, at, path, ats)
    ensures var r := Walk(mappers, name, at, path);
            if |ats| == |path| + 1 then
              && r.Hops? && |r.hops| == |path|
              && forall i :: 0 <= i < |path| ==> PassesOn(mappers, path, ats, i)
                                                 && JoinsAs(mappers[ats[i]], path[i], r.hops[i])
            else
              r == Broken(BadSegment(name, path[|ats| - 1])) && !Takes(mappers[ats[|ats| - 1]], path[|ats| - 1])
    decreases |path|
  {
    if path == [] || !Takes(mappers[at], path[0]) {
      ats := [at];
    } else {
      assert mappers[at] in mappers;
      var r := mappers[at].relationships[path[0]];
      var rest := WalkTakesRelationships(mappers, name, r.next, path[1..]);
      ats := [at] + rest;
      forall i | 0 <= i < |ats| - 1 ensures PassesOn(mappers, path, ats, i) {
        assert i > 0 ==> PassesOn(mappers, path[1..], rest, i - 1);
      }
      var walked := Walk(mappers, name, r.next, path[1..]);
      forall i | 0 <= i < |ats| - 1 && |ats| == |path| + 1
        ensures PassesOn(mappers, path, ats, i) && JoinsAs(mappers[ats[i]], path[i], ([HopOf(r)] + walked.hops)[i])
      {
        if i > 0 {
          assert PassesOn(mappers, path[1..], rest, i - 1);
          assert JoinsAs(mappers[rest[i - 1]], path[1..][i - 1], walked.hops[i - 1]);
        }
      }
    }
  }

  /** Why an entry has no path: the first of the checks that fails. */
  lemma PathOfFails(e: TableEntry, mappers: Registry, subject: string)
    requires Linked(mappers) && PathOf(e, mappers, subject).Broken?
    ensures var why := PathOf(e, mappers, subject).why;
            match e.link
            case None => why == NoLink(e.name)
            case Some(link) =>
              if link.path != [] && link.idColumns != ["id"] then why == StrayIdColumns(e.name)
              else if MapperFor(mappers, e.name).None? then why == NotMounted(e.name)
              else
                var at := MapperFor(mappers, e.name).value;
                var r := Walk(mappers, e.name, at, link.path);
                if r.Broken? then why == r.why
                else r.hops != [] && r.hops[|r.hops| - 1].target != subject && why == WrongEnd(e.name)
  {}

  // --- the resolver ------------------------------------------------------------------------

  /** An entry with a path whose hops the access model accepts. */
  predicate Planned(e: TableEntry, mappers: Registry, subject: string)
    requires Linked(mappers)
  {
    Routed(e, mappers, subject) && Contiguous(e.name, PathOf(e, mappers, subject).hops)
  }

  predicate AnchorMapped(tables: seq<TableEntry>, mappers: Registry) {
    && |Anchors(tables)| == 1
    && var subject := Anchors(tables)[0];
       && MapperFor(mappers, subject.name).Some?
       && forall c :: c in subject.link.value.idColumns ==>
            c in mappers[MapperFor(mappers, subject.name).value].local.columns
  }

  /** What relationship resolution asks of a data map. */
  ghost predicate Resolvable(tables: seq<TableEntry>, mappers: Registry, meta: Metadata)
    requires Linked(mappers)
  {
    && AnchorMapped(tables, mappers)
    && (forall e :: e in tables ==> Planned(e, mappers, Anchors(tables)[0].name))
    && !CyclicAmong(meta, NamesOf(tables))
  }

  /** The access an entry's own path and columns call for. */
  predicate FromPath(e: TableEntry, mappers: Registry, subject: string, a: Access)
    requires Linked(mappers)
  {
    && a.table == e.name && Routed(e, mappers, subject)
    && a.hops == PathOf(e, mappers, subject).hops
    && MapperFor(mappers, e.name).Some?
    && a.fullyOwned == FullyOwned(e, mappers[MapperFor(mappers, e.name).value].local)
  }

  predicate Mapped(tables: seq<TableEntry>, mappers: Registry, subject: string, a: Access)
    requires Linked(mappers)
  {
    exists e :: e in tables && FromPath(e, mappers, subject, a)
  }

  /** A graph mapper-based resolution yields: coherent, over the anchor's subject and key, with one
      access per table name, each an entry's own, in deletion order. */
  ghost predicate ResolvesTo(tables: seq<TableEntry>, mappers: Registry, meta: Metadata, g: Graph)
    requires Linked(mappers) && |Anchors(tables)| == 1
  {
    && Coherent(g)
    && g.subject == Anchors(tables)[0].name && g.idColumns == Anchors(tables)[0].link.value.idColumns
    && Distinct(DeletionOrder(g))
    && (forall n :: n in DeletionOrder(g) <==> n in NamesOf(tables))
    && (forall a :: a in g.accesses ==> Mapped(tables, mappers, g.subject, a))
    && DeletionOrdered(meta, g)
  }

  /** In a graph resolved over relationships a table loses its rows exactly when its entry declares the
      whole row of its mapper's table. */
  lemma RowsGoWhenDeclared(tables: seq<TableEntry>, mappers: Registry, meta: Metadata, g: Graph, t: string)
    requires Linked(mappers) && |Anchors(tables)| == 1 && ResolvesTo(tables, mappers, meta, g) && DistinctNames(tables)
    ensures Planning.Deleted(g, tables, t)
            <==> && Declares(tables, t) && MapperFor(mappers, t).Some?
                 && DeclaresWholeRow(EntryOf(tables, t), mappers[MapperFor(mappers, t).value].local)
  {
    hide DeletionOrdered, Coherent, PathOf, Linked;
    if Declares(tables, t) {
      var e := EntryOf(tables, t);
      assert t in NamesOf(tables);
      var i :| 0 <= i < |g.accesses| && DeletionOrder(g)[i] == t;
      assert g.accesses[i] in g.accesses;
      assert Mapped(tables, mappers, g.subject, AccessOf(g, t));
      var f :| f in tables && FromPath(f, mappers, g.subject, AccessOf(g, t));
      EntryIsUnique(tables, f);
      OwnedIffDeclared(e, mappers[MapperFor(mappers, t).value].local);
      forall d | d in tables && d.name == t ensures d == e { EntryIsUnique(tables, d); }
    }
  }

  /** The tables a resolved graph deletes are those whose entries declare the whole row. */
  ghost predicate DeletesAsMapped(tables: seq<TableEntry>, mappers: Registry, g: Graph) {
    forall t :: Planning.Deleted(g, tables, t)
                <==> && Declares(tables, t) && MapperFor(mappers, t).Some?
                     && DeclaresWholeRow(EntryOf(tables, t), mappers[MapperFor(mappers, t).value].local)
  }

  lemma ResolvedDeletesAsMapped(tables: seq<TableEntry>, mappers: Registry, meta: Metadata, g: Graph)
    requires Linked(mappers) && |Anchors(tables)| == 1 && ResolvesTo(tables, mappers, meta, g)
    ensures DistinctNames(tables) ==> DeletesAsMapped(tables, mappers, g)
  {
    hide Planning.Deleted, DeclaresWholeRow, ResolvesTo, MapperFor, Linked;
    if DistinctNames(tables) {
      forall t ensures Planning.Deleted(g, tables, t) <==>
          && Declares(tables, t) && MapperFor(mappers, t).Some?
          && DeclaresWholeRow(EntryOf(tables, t), mappers[MapperFor(mappers, t).value].local)
      {
        RowsGoWhenDeclared(tables, mappers, meta, g, t);
      }
    }
  }

  method PlanEntry(e: TableEntry, mappers: Registry, subject: string) returns (failure: Option<Failure>, access: Access)
    requires Linked(mappers) && (IsAnchor(e) ==> e.name == subject)
    ensures failure.None? <==> Planned(e, mappers, subject)
    ensures failure.Some? ==> FailsWith(e, mappers, subject, failure.value)
    ensures failure.None? ==> FromPath(e, mappers, subject, access) && AccessFits(subject, access)
  {
    var path := ResolvePath(e, mappers, subject);
    if path.Broken? {
      return Some(path.why), Access(e.name, [], false);
    }
    if !Contiguous(e.name, path.hops) {
      return Some(InvalidPlan(e.name)), Access(e.name, [], false);
    }
    var at := MapperFor(mappers, e.name).value;
    WalkHops(mappers, e.name, at, e.link.value.path);
    failure, access := None, Access(e.name, path.hops, FullyOwned(e, mappers[at].local));
  }

  /** Why an entry cannot be planned: its path's failure, or hops the access model refuses. */
  predicate FailsWith(e: TableEntry, mappers: Registry, subject: string, why: Failure)
    requires Linked(mappers)
  {
    match PathOf(e, mappers, subject)
    case Broken(reason) => why == reason
    case Hops(hops) => !Contiguous(e.name, hops) && why == InvalidPlan(e.name)
  }

  predicate FirstFailure(tables: seq<TableEntry>, mappers: Registry, subject: string, why: Failure)
    requires Linked(mappers)
  {
    exists i :: 0 <= i < |tables| && FailsWith(tables[i], mappers, subject, why)
      && forall k :: 0 <= k < i ==> Planned(tables[k], mappers, subject)
  }

  /** Which reason resolution gives: the first check that fails, in the order they are made. */
  ghost predicate Raised(tables: seq<TableEntry>, mappers: Registry, why: Failure)
    requires Linked(mappers)
  {
    var anchors := Anchors(tables);
    if |anchors| != 1 || !AnchorMapped(tables, mappers) then AnchorFails(tables, mappers, why)
    else if forall e :: e in tables ==> Planned(e, mappers, anchors[0].name) then why == KeyCycle
    else FirstFailure(tables, mappers, anchors[0].name, why)
  }

  predicate AnchorFails(tables: seq<TableEntry>, mappers: Registry, why: Failure) {
    var anchors := Anchors(tables);
    if anchors == [] then why == NoAnchor
    else if |anchors| > 1 then why == ManyAnchors
    else if MapperFor(mappers, anchors[0].name).None? then why == NotMounted(anchors[0].name)
    else
      why == MissingIdColumn
      && exists c :: c in anchors[0].link.value.idColumns
           && c !in mappers[MapperFor(mappers, anchors[0].name).value].local.columns
  }

  predicate PlansOf(tables: seq<TableEntry>, mappers: Registry, subject: string, plans: map<string, Access>)
    requires Linked(mappers)
  {
    forall n :: n in plans ==>
      plans[n].table == n && AccessFits(subject, plans[n]) && Mapped(tables, mappers, subject, plans[n])
  }

  lemma NoPlans(mappers: Registry, subject: string)
    requires Linked(mappers)
    ensures PlansOf([], mappers, subject, map[])
  {}

  lemma OneMoreMapped(tables: seq<TableEntry>, i: nat, mappers: Registry, subject: string, plans: map<string, Access>,
                      access: Access)
    requires Linked(mappers) && i < |tables| && PlansOf(tables[..i], mappers, subject, plans)
    requires FromPath(tables[i], mappers, subject, access) && AccessFits(subject, access)
    ensures PlansOf(tables[..i + 1], mappers, subject, plans[tables[i].name := access])
  {
    var e := tables[i];
    assert tables[..i + 1] == tables[..i] + [e];
    assert access.table == e.name && e in tables[..i + 1];
    hide FromPath, AccessFits, Linked;
  }

  /** One access per table name, or the first failure. */
  method PlanPaths(tables: seq<TableEntry>, mappers: Registry, subject: string)
    returns (failure: Option<Failure>, names: seq<string>, plans: map<string, Access>)
    requires Linked(mappers) && forall e :: e in tables && IsAnchor(e) ==> e.name == subject
    ensures failure.None? <==> forall e :: e in tables ==> Planned(e, mappers, subject)
    ensures failure.Some? ==> FirstFailure(tables, mappers, subject, failure.value)
    ensures failure.None? ==>
              && (forall n :: n in names <==> n in plans)
              && plans.Keys == NamesOf(tables)
              && PlansOf(tables, mappers, subject, plans)
  {
    hide Planned, FromPath, AccessFits, Linked, PlansOf, FailsWith;
    NoPlans(mappers, subject);
    assert tables[..0] == [];
    names, plans := [], map[];
    for i := 0 to |tables|
      invariant forall n :: n in names <==> n in plans
      invariant plans.Keys == NamesOf(tables[..i])
      invariant PlansOf(tables[..i], mappers, subject, plans)
      invariant forall k :: 0 <= k < i ==> Planned(tables[k], mappers, subject)
    {
      var e := tables[i];
      var broken, access := PlanEntry(e, mappers, subject);
      if broken.Some? {
        return broken, names, plans;
      }
      assert tables[..i + 1] == tables[..i] + [e];
      OneMoreMapped(tables, i, mappers, subject, plans, access);
      if e.name !in plans {
        names := names + [e.name];
      }
      plans := plans[e.name := access];
    }
    assert tables[..|tables|] == tables;
    failure := None;
  }

  /** The one anchored subject table, mapped and with its key columns present. */
  method FindSubject(tables: seq<TableEntry>, mappers: Registry) returns (failure: Option<Failure>)
    ensures failure.None? <==> AnchorMapped(tables, mappers)
    ensures failure.Some? ==> AnchorFails(tables, mappers, failure.value)
    ensures failure.None? ==>
              && Anchors(tables)[0].name in NamesOf(tables)
              && forall e :: e in tables && IsAnchor(e) ==> e.name == Anchors(tables)[0].name
  {
    var anchors := Anchors(tables);
    if |anchors| != 1 {
      return Some(if anchors == [] then NoAnchor else ManyAnchors);
    }
    var subject := anchors[0];
    forall e ensures e in anchors <==> e in tables && IsAnchor(e) {
      AnchorsMembers(tables, e);
    }
    assert subject in anchors;
    var at := MapperFor(mappers, subject.name);
    if at.None? {
      return Some(NotMounted(subject.name));
    }
    if exists c :: c in subject.link.value.idColumns && c !in mappers[at.value].local.columns {
      return Some(MissingIdColumn);
    }
    failure := None;
  }

  /** Raises on the first thing that stands in the way. */
  method ResolveSubjectGraph(tables: seq<TableEntry>, mappers: Registry, meta: Metadata) returns (r: Resolved)
    requires Linked(mappers)
    requires forall e :: e in tables && e.link.Some? ==> e.link.value.idColumns != []
    ensures r.Resolved? <==> Resolvable(tables, mappers, meta)
    ensures r.Unresolved? ==> Raised(tables, mappers, r.why)
    ensures r.Resolved? ==> ResolvesTo(tables, mappers, meta, r.graph)
    ensures r.Resolved? && DistinctNames(tables) ==> DeletesAsMapped(tables, mappers, r.graph)
  {
    hide DeletesAsMapped, DistinctNames, FirstFailure, AnchorFails, Planned, CyclicAmong, Mapped, DeletionOrdered;
    hide AccessFits, Coherent, Linked;
    var failure := FindSubject(tables, mappers);
    if failure.Some? {
      return Unresolved(failure.value);
    }
    var subject := Anchors(tables)[0];
    KeyOfAnchor(tables);
    hide Anchors, MapperFor;
    var broken, names, plans := PlanPaths(tables, mappers, subject.name);
    if broken.Some? {
      return Unresolved(broken.value);
    }
    r := Assemble(subject.name, subject.link.value.idColumns, names, plans, meta);
    if r.Resolved? { ResolvedDeletesAsMapped(tables, mappers, meta, r.graph); }
  }

  lemma KeyOfAnchor(tables: seq<TableEntry>)
    requires |Anchors(tables)| == 1 && forall e :: e in tables && e.link.Some? ==> e.link.value.idColumns != []
    ensures Anchors(tables)[0].link.value.idColumns != []
  {
    assert Anchors(tables)[0] in Anchors(tables);
    AnchorsMembers(tables, Anchors(tables)[0]);
  }

  // --- the linter ----------------------------------------------------------------------------

  datatype Finding = Finding(table: Option<string>, why: Failure)

  /** The tables the linter probes and can walk: the anchor, and every table not bearing its name
      whose path resolves. */
  function Reached(tables: seq<TableEntry>, mappers: Registry, subject: string): set<string>
    requires Linked(mappers)
  {
    {subject} + set e | e in tables && e.name != subject && Routed(e, mappers, subject) :: e.name
  }

  /** One finding per table it cannot walk, with the failure of its own path, in manifest order. */
  function Unreachable(tables: seq<TableEntry>, mappers: Registry, subject: string): seq<Finding>
    requires Linked(mappers)
  {
    if tables == [] then []
    else
      var before, e := Unreachable(tables[..|tables| - 1], mappers, subject), tables[|tables| - 1];
      if e.name != subject && !Routed(e, mappers, subject) then
        before + [Finding(Some(e.name), PathOf(e, mappers, subject).why)]
      else before
  }

  lemma {:induction false} AllReachable(tables: seq<TableEntry>, mappers: Registry, subject: string)
    requires Linked(mappers)
    ensures Unreachable(tables, mappers, subject) == []
            <==> forall e :: e in tables && e.name != subject ==> Routed(e, mappers, subject)
  {
    if tables != [] {
      AllReachable(tables[..|tables| - 1], mappers, subject);
      assert tables == tables[..|tables| - 1] + [tables[|tables| - 1]];
      hide Routed;
    }
  }

  /** What the linter calls reachable. */
  ghost predicate Clean(tables: seq<TableEntry>, mappers: Registry, meta: Metadata)
    requires Linked(mappers)
  {
    && AnchorMapped(tables, mappers)
    && (forall e :: e in tables && e.name != Anchors(tables)[0].name ==> Routed(e, mappers, Anchors(tables)[0].name))
    && !CyclicAmong(meta, Reached(tables, mappers, Anchors(tables)[0].name))
  }

  /** No anchor is one finding; every anchor after the first is one. */
  function AnchorFindings(anchors: seq<TableEntry>): seq<Finding>
    requires |anchors| != 1
  {
    if anchors == [] then [Finding(None, NoAnchor)]
    else seq(|anchors| - 1, i requires 0 <= i < |anchors| - 1 => Finding(Some(anchors[i + 1].name), ManyAnchors))
  }

  function SubjectFindings(subject: TableEntry, mappers: Registry): seq<Finding>
    requires IsAnchor(subject)
  {
    var at := MapperFor(mappers, subject.name);
    if at.None? then [Finding(Some(subject.name), NotMounted(subject.name))]
    else if exists c :: c in subject.link.value.idColumns && c !in mappers[at.value].local.columns
    then [Finding(Some(subject.name), MissingIdColumn)]
    else []
  }

  /** All findings: the anchors if they are not one, else the anchor's own, then one per unreachable
      table in manifest order, then the cycle. */
  ghost function Findings(tables: seq<TableEntry>, mappers: Registry, meta: Metadata): seq<Finding>
    requires Linked(mappers)
  {
    if |Anchors(tables)| != 1 then AnchorFindings(Anchors(tables))
    else
      var subject := Anchors(tables)[0];
      SubjectFindings(subject, mappers)
      + Unreachable(tables, mappers, subject.name)
      + if CyclicAmong(meta, Reached(tables, mappers, subject.name)) then [Finding(None, KeyCycle)] else []
  }

  lemma SilentMeansClean(tables: seq<TableEntry>, mappers: Registry, meta: Metadata)
    requires Linked(mappers)
    ensures Findings(tables, mappers, meta) == [] <==> Clean(tables, mappers, meta)
  {
    if |Anchors(tables)| == 1 {
      AllReachable(tables, mappers, Anchors(tables)[0].name);
      hide Unreachable, Routed, CyclicAmong, Reached, MapperFor;
    }
  }

  lemma ReachedSnoc(tables: seq<TableEntry>, e: TableEntry, mappers: Registry, subject: string)
    requires Linked(mappers)
    ensures Reached(tables + [e], mappers, subject) ==
            if e.name != subject && Routed(e, mappers, subject) then Reached(tables, mappers, subject) + {e.name}
            else Reached(tables, mappers, subject)
    ensures Unreachable(tables + [e], mappers, subject) ==
            if e.name != subject && !Routed(e, mappers, subject)
            then Unreachable(tables, mappers, subject) + [Finding(Some(e.name), PathOf(e, mappers, subject).why)]
            else Unreachable(tables, mappers, subject)
  {
    assert (tables + [e])[..|tables|] == tables;
    hide PathOf;
  }

  /** Walks one entry's path and keeps only why it failed. */
  method PathFailure(e: TableEntry, mappers: Registry, subject: string) returns (why: Option<Failure>)
    requires Linked(mappers)
    ensures why.None? <==> Routed(e, mappers, subject)
    ensures why.Some? ==> why.value == PathOf(e, mappers, subject).why
  {
    var path := ResolvePath(e, mappers, subject);
    why := if path.Broken? then Some(path.why) else None;
  }

  method ProbeEntries(tables: seq<TableEntry>, mappers: Registry, subject: string)
    returns (reached: seq<string>, findings: seq<Finding>)
    requires Linked(mappers)
    ensures forall n :: n in reached <==> n in Reached(tables, mappers, subject)
    ensures findings == Unreachable(tables, mappers, subject)
  {
    assert Reached(tables[..0], mappers, subject) == {subject};
    assert Unreachable(tables[..0], mappers, subject) == [];
    hide Routed, Unreachable, Reached, PathOf, Linked;
    reached, findings := [subject], [];
    for i := 0 to |tables|
      invariant forall n :: n in reached <==> n in Reached(tables[..i], mappers, subject)
      invariant findings == Unreachable(tables[..i], mappers, subject)
    {
      var e := tables[i];
      assert tables[..i + 1] == tables[..i] + [e];
      ReachedSnoc(tables[..i], e, mappers, subject);
      if e.name != subject {
        var why := PathFailure(e, mappers, subject);
        if why.None? {
          reached := reached + [e.name];
        } else {
          findings := findings + [Finding(Some(e.name), why.value)];
        }
      }
    }
    assert tables[..|tables|] == tables;
  }

  method CycleFindings(meta: Metadata, reached: seq<string>, ghost names: set<string>) returns (findings: seq<Finding>)
    requires forall n :: n in reached <==> n in names
    ensures findings == if CyclicAmong(meta, names) then [Finding(None, KeyCycle)] else []
  {
    var edges := FkEdges(meta, set n | n in reached);
    assert (set n | n in reached) == names;
    CycleOfEdges(meta, names, edges);
    var o := FkSafeDeletionOrder(reached, edges);
    assert forall e :: e in edges ==> !Outside(reached, e);
    findings := if o.CyclicEdges? then [Finding(None, KeyCycle)] else [];
  }

  /** Probes each concern on its own and collects a finding per gap instead of raising. It is
      silent exactly on a clean map. */
  method LintReachability(tables: seq<TableEntry>, mappers: Registry, meta: Metadata) returns (findings: seq<Finding>)
    requires Linked(mappers)
    ensures findings == Findings(tables, mappers, meta)
    ensures findings == [] <==> Clean(tables, mappers, meta)
  {
    SilentMeansClean(tables, mappers, meta);
    hide Clean, Routed, CyclicAmong, Unreachable, Reached, Linked;
    var anchors := Anchors(tables);
    if |anchors| != 1 {
      findings := AnchorFindings(anchors);
      return;
    }
    var subject := anchors[0];
    findings := SubjectFindings(subject, mappers);
    var reached, unreachable := ProbeEntries(tables, mappers, subject.name);
    var cycles := CycleFindings(meta, reached, Reached(tables, mappers, subject.name));
    findings := findings + unreachable + cycles;
  }

  // --- the two agree ---------------------------------------------------------------------------

  /** Each relationship the path takes starts at the table the one before it ended at. */
  predicate WalksOn(mappers: Registry, at: nat, from: string, path: seq<string>)
    requires Linked(mappers) && at < |mappers|
    decreases |path|
  {
    path != [] && path[0] in mappers[at].relationships ==>
      var r := mappers[at].relationships[path[0]];
      assert mappers[at] in mappers;
      r.source == from && WalksOn(mappers, r.next, r.target, path[1..])
  }

  predicate EntryWalksOn(e: TableEntry, mappers: Registry)
    requires Linked(mappers)
  {
    e.link.Some? && MapperFor(mappers, e.name).Some? ==>
      WalksOn(mappers, MapperFor(mappers, e.name).value, e.name, e.link.value.path)
  }

  /** No declared path takes a relationship that starts elsewhere, as an inherited one does. */
  predicate PathsWalkOn(tables: seq<TableEntry>, mappers: Registry)
    requires Linked(mappers)
  {
    forall e :: e in tables ==> EntryWalksOn(e, mappers)
  }

  /** The hops of a walked path link end to end exactly when its relationships do. */
  lemma {:induction false} WalkIsContiguous(mappers: Registry, name: string, at: nat, from: string, path: seq<string>)
    requires Linked(mappers) && at < |mappers|
    ensures var r := Walk(mappers, name, at, path);
            r.Hops? ==> (Contiguous(from, r.hops) <==> WalksOn(mappers, at, from, path))
    decreases |path|
  {
    if path != [] && path[0] in mappers[at].relationships && Joinable(mappers[at].relationships[path[0]]) {
      assert mappers[at] in mappers;
      var r := mappers[at].relationships[path[0]];
      WalkIsContiguous(mappers, name, r.next, r.target, path[1..]);
      var rest := Walk(mappers, name, r.next, path[1..]);
      if rest.Hops? { assert ([HopOf(r)] + rest.hops)[1..] == rest.hops; }
    }
  }

  lemma RoutedIsPlanned(e: TableEntry, mappers: Registry, subject: string)
    requires Linked(mappers) && Routed(e, mappers, subject)
    ensures Planned(e, mappers, subject) <==> EntryWalksOn(e, mappers)
  {
    WalkIsContiguous(mappers, e.name, MapperFor(mappers, e.name).value, e.name, e.link.value.path);
  }

  /** No mapper takes a relationship from another table's: each one starts at its mapper's own table
      and ends at the next mapper's. */
  predicate InheritsNothing(mappers: Registry)
    requires Linked(mappers)
  {
    forall m, n :: m in mappers && n in m.relationships ==>
      && m.relationships[n].source == m.local.name
      && m.relationships[n].target == mappers[m.relationships[n].next].local.name
  }

  /** Then every path walks on. */
  lemma {:induction false} InheritingNothingWalksOn(mappers: Registry, at: nat, path: seq<string>)
    requires Linked(mappers) && InheritsNothing(mappers) && at < |mappers|
    ensures WalksOn(mappers, at, mappers[at].local.name, path)
    decreases |path|
  {
    if path != [] && path[0] in mappers[at].relationships {
      assert mappers[at] in mappers;
      InheritingNothingWalksOn(mappers, mappers[at].relationships[path[0]].next, path[1..]);
    }
  }

  lemma InheritingNothingPathsWalkOn(tables: seq<TableEntry>, mappers: Registry)
    requires Linked(mappers) && InheritsNothing(mappers)
    ensures PathsWalkOn(tables, mappers)
  {
    forall e | e in tables ensures EntryWalksOn(e, mappers) {
      var at := MapperFor(mappers, e.name);
      if e.link.Some? && at.Some? { InheritingNothingWalksOn(mappers, at.value, e.link.value.path); }
    }
  }

  /** Every entry that bears the subject table's name resolves; the linter probes none of them. */
  predicate SubjectEntriesRouted(tables: seq<TableEntry>, mappers: Registry)
    requires Linked(mappers)
  {
    |Anchors(tables)| == 1 ==>
      forall e :: e in tables && e.name == Anchors(tables)[0].name ==> Routed(e, mappers, Anchors(tables)[0].name)
  }

  lemma ReachedIsAll(tables: seq<TableEntry>, mappers: Registry)
    requires Linked(mappers) && |Anchors(tables)| == 1
    requires forall e :: e in tables && e.name != Anchors(tables)[0].name ==>
              Routed(e, mappers, Anchors(tables)[0].name)
    ensures Reached(tables, mappers, Anchors(tables)[0].name) == NamesOf(tables)
  {
    var subject := Anchors(tables)[0];
    assert subject in Anchors(tables);
    AnchorsMembers(tables, subject);
    hide Routed;
    forall n | n in NamesOf(tables) ensures n in Reached(tables, mappers, subject.name) {
      var e :| e in tables && e.name == n;
    }
  }

  /** Resolution never succeeds where the linter finds a gap, and the two are exact inverses if and only
      if in a map the linter passes every entry of the subject's name resolves and every declared path
      walks on from table to table. */
  lemma LintGapIsExact(tables: seq<TableEntry>, mappers: Registry, meta: Metadata)
    requires Linked(mappers)
    ensures Resolvable(tables, mappers, meta) ==> Clean(tables, mappers, meta)
    ensures (Clean(tables, mappers, meta) <==> Resolvable(tables, mappers, meta))
            <==> (Clean(tables, mappers, meta) ==>
                    SubjectEntriesRouted(tables, mappers) && PathsWalkOn(tables, mappers))
  {
    if AnchorMapped(tables, mappers) {
      var subject := Anchors(tables)[0].name;
      forall e | e in tables
        ensures Planned(e, mappers, subject) <==> Routed(e, mappers, subject) && EntryWalksOn(e, mappers)
      {
        if Routed(e, mappers, subject) { RoutedIsPlanned(e, mappers, subject); }
      }
      if forall e :: e in tables && e.name != subject ==> Routed(e, mappers, subject) {
        ReachedIsAll(tables, mappers);
      }
    }
    hide Routed, Planned, CyclicAmong, Reached, EntryWalksOn;
  }

  /** One entry of the name. */
  predicate ListedOnce(tables: seq<TableEntry>, name: string) {
    forall i, j :: 0 <= i < |tables| && 0 <= j < |tables| && tables[i].name == tables[j].name == name ==> i == j
  }

  /** With the subject table listed once, what is left of the condition is the paths alone: the linter
      is the documented inverse if and only if the paths of a map it passes walk on. So it is where no
      relationship is inherited. Other tables may be listed repeatedly. */
  lemma LintIsInverse(tables: seq<TableEntry>, mappers: Registry, meta: Metadata)
    requires Linked(mappers)
    requires |Anchors(tables)| == 1 ==> ListedOnce(tables, Anchors(tables)[0].name)
    ensures (Clean(tables, mappers, meta) <==> Resolvable(tables, mappers, meta))
            <==> (Clean(tables, mappers, meta) ==> PathsWalkOn(tables, mappers))
    ensures InheritsNothing(mappers) ==> (Clean(tables, mappers, meta) <==> Resolvable(tables, mappers, meta))
  {
    LintGapIsExact(tables, mappers, meta);
    if InheritsNothing(mappers) { InheritingNothingPathsWalkOn(tables, mappers); }
    if AnchorMapped(tables, mappers) { SubjectIsRouted(tables, mappers); }
    hide Clean, Resolvable, PathsWalkOn, InheritsNothing;
  }

  lemma SubjectIsRouted(tables: seq<TableEntry>, mappers: Registry)
    requires Linked(mappers) && AnchorMapped(tables, mappers) && ListedOnce(tables, Anchors(tables)[0].name)
    ensures SubjectEntriesRouted(tables, mappers)
  {
    var subject := Anchors(tables)[0];
    assert subject in Anchors(tables);
    AnchorsMembers(tables, subject);
    assert Routed(subject, mappers, subject.name);
    forall e | e in tables && e.name == subject.name ensures Routed(e, mappers, subject.name) {
      var i :| 0 <= i < |tables| && tables[i] == e;
      var j :| 0 <= j < |tables| && tables[j] == subject;
      assert i == j;
    }
  }

  ghost predicate EscapesLint(tables: seq<TableEntry>, mappers: Registry, meta: Metadata)
    requires Linked(mappers)
  {
    Clean(tables, mappers, meta) && !Resolvable(tables, mappers, meta)
  }

  lemma NoKeysNoCycle(names: set<string>)
    ensures !CyclicAmong([], names)
  {
    CycleOfEdges([], names, []);
    assert !HasCycle([]) by {
      forall walk: seq<string> ensures !Cycle(walk, []) {}
    }
  }

  /** A manifest listing the subject table twice escapes the linter: it finds nothing, while the
      resolver refuses the second entry. */
  lemma RepeatedSubjectEscapesLint()
    ensures exists tables: seq<TableEntry>, mappers: Registry, meta: Metadata ::
              Linked(mappers) && InheritsNothing(mappers) && EscapesLint(tables, mappers, meta)
  {
    var subject := TableEntry("users", Some(Link([], ["id"])), []);
    var twin := TableEntry("users", None, []);
    var tables := [subject, twin];
    var mappers: Registry := [Mapper(TableMeta("users", ["id"], ["id"], []), true, map[])];
    assert tables[1..] == [twin] && [twin][1..] == [];
    assert Anchors([twin]) == [] + Anchors([]);
    assert Anchors(tables) == [subject];
    assert MapperFor(mappers, "users") == Some(0);
    NoKeysNoCycle(Reached(tables, mappers, "users"));
    assert Clean(tables, mappers, []);
    assert twin in tables && !Routed(twin, mappers, "users");
    assert EscapesLint(tables, mappers, []);
  }

  function Staff(): TableEntry {
    TableEntry("staff", Some(Link(["owner"], ["id"])), [])
  }

  function Users(): TableEntry {
    TableEntry("users", Some(Link([], ["id"])), [])
  }

  /** The relationship the staff mapper has from the mapper of people. */
  function Inherited(): Relationship {
    Relationship(false, true, "people", "users", [("user_id", "id")], 0)
  }

  function Inheriting(): Registry {
    [Mapper(TableMeta("users", ["id"], ["id"], []), true, map[]),
     Mapper(TableMeta("staff", ["id"], ["id"], []), true, map["owner" := Inherited()])]
  }

  lemma StaffIsRouted()
    ensures Linked(Inheriting()) && MapperFor(Inheriting(), "users") == Some(0)
    ensures PathOf(Users(), Inheriting(), "users") == Hops([])
    ensures PathOf(Staff(), Inheriting(), "users") == Hops([HopOf(Inherited())])
  {
    var mappers := Inheriting();
    assert mappers[..1] == [mappers[0]];
    assert MapperFor(mappers, "users") == Some(0) && MapperFor(mappers, "staff") == Some(1);
    assert ["owner"][1..] == [];
    assert Walk(mappers, "staff", 1, ["owner"]) == Hops([HopOf(Inherited())] + []);
    assert [HopOf(Inherited())] + [] == [HopOf(Inherited())];
  }

  /** A mapper that inherits its parent's relationship escapes it too, with every table listed once:
      the path resolves, but its hop starts at the parent's table and the access model refuses it. */
  lemma InheritedRelationshipEscapesLint()
    ensures exists tables: seq<TableEntry>, mappers: Registry, meta: Metadata ::
              && Linked(mappers) && DistinctNames(tables) && EscapesLint(tables, mappers, meta)
              && !PathsWalkOn(tables, mappers)
  {
    StaffIsRouted();
    var tables := [Users(), Staff()];
    hide PathOf, Inheriting, MapperFor, CyclicAmong;
    assert Inheriting()[0].local.columns == ["id"] by { InheritingUsers(); }
    assert tables[1..] == [Staff()] && [Staff()][1..] == [];
    assert Anchors([Staff()]) == [] + Anchors([]);
    assert Anchors(tables) == [Users()];
    NoKeysNoCycle(Reached(tables, Inheriting(), "users"));
    assert Clean(tables, Inheriting(), []);
    assert Staff() in tables && !Planned(Staff(), Inheriting(), "users");
    RoutedIsPlanned(Staff(), Inheriting(), "users");
    assert !PathsWalkOn(tables, Inheriting());
    assert EscapesLint(tables, Inheriting(), []);
  }

  lemma InheritingUsers()
    ensures |Inheriting()| == 2 && Inheriting()[0].local.columns == ["id"]
  {}
}

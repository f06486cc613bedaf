/** What the linter reports, gap by gap, and that it reports whatever the resolver would raise. */
module LintReports {
  import opened Manifest
  import opened Wrappers
  import opened Resolution
  import opened Reachability

  /** A table other than the subject whose path fails, with the reason. */
  predicate IsUnreachable(tables: seq<TableEntry>, mappers: Registry, subject: string, f: Finding)
    requires Linked(mappers)
  {
    exists e :: e in tables && e.name != subject && f.table == Some(e.name)
      && PathOf(e, mappers, subject) == Broken(f.why)
  }

  lemma {:induction false} UnreachableMembers(tables: seq<TableEntry>, mappers: Registry, subject: string, f: Finding)
    requires Linked(mappers)
    ensures f in Unreachable(tables, mappers, subject) <==> IsUnreachable(tables, mappers, subject, f)
  {
    hide PathOf;
    if tables != [] {
      var before, e := tables[..|tables| - 1], tables[|tables| - 1];
      assert tables == before + [e];
      UnreachableMembers(before, mappers, subject, f);
    }
  }

  /** A gap of the data map, as the linter words it. */
  ghost predicate IsGap(tables: seq<TableEntry>, mappers: Registry, meta: Metadata, f: Finding)
    requires Linked(mappers)
  {
    var anchors := Anchors(tables);
    if anchors == [] then f == Finding(None, NoAnchor)
    else if |anchors| > 1 then exists i :: 0 < i < |anchors| && f == Finding(Some(anchors[i].name), ManyAnchors)
    else
      var subject := anchors[0].name;
      || (f.table == Some(subject) && !AnchorMapped(tables, mappers) && AnchorFails(tables, mappers, f.why))
      || IsUnreachable(tables, mappers, subject, f)
      || (f == Finding(None, KeyCycle) && CyclicAmong(meta, Reached(tables, mappers, subject)))
  }

  lemma AnchorGap(tables: seq<TableEntry>, mappers: Registry, f: Finding)
    requires |Anchors(tables)| == 1
    ensures f in SubjectFindings(Anchors(tables)[0], mappers)
            <==> && f.table == Some(Anchors(tables)[0].name)
                 && !AnchorMapped(tables, mappers) && AnchorFails(tables, mappers, f.why)
  {}

  lemma AnchorGaps(anchors: seq<TableEntry>, f: Finding)
    requires |anchors| > 1
    ensures f in AnchorFindings(anchors)
            <==> exists i :: 0 < i < |anchors| && f == Finding(Some(anchors[i].name), ManyAnchors)
  {
    if i :| 0 < i < |anchors| && f == Finding(Some(anchors[i].name), ManyAnchors) {
      assert AnchorFindings(anchors)[i - 1] == f;
    }
    if f in AnchorFindings(anchors) {
      var k :| 0 <= k < |AnchorFindings(anchors)| && AnchorFindings(anchors)[k] == f;
      assert f == Finding(Some(anchors[k + 1].name), ManyAnchors);
    }
  }

  /** The findings are exactly the gaps. */
  lemma FindingsAreGaps(tables: seq<TableEntry>, mappers: Registry, meta: Metadata, f: Finding)
    requires Linked(mappers)
    ensures f in Findings(tables, mappers, meta) <==> IsGap(tables, mappers, meta, f)
  {
    hide IsUnreachable, CyclicAmong, Reached, Unreachable, Linked, AnchorFails, AnchorMapped, SubjectFindings;
    var anchors := Anchors(tables);
    if |anchors| > 1 {
      AnchorGaps(anchors, f);
    } else if |anchors| == 1 {
      UnreachableMembers(tables, mappers, anchors[0].name, f);
      AnchorGap(tables, mappers, f);
    }
  }

  /** The resolver stops at the first thing in its way, the linter goes on; where paths walk on and every
      entry of the subject's name resolves, what the resolver raises is among what the linter finds. */
  lemma RaisedIsFound(tables: seq<TableEntry>, mappers: Registry, meta: Metadata, why: Failure)
    requires Linked(mappers) && PathsWalkOn(tables, mappers) && SubjectEntriesRouted(tables, mappers)
    requires !Resolvable(tables, mappers, meta) && Raised(tables, mappers, why)
    ensures exists f :: f in Findings(tables, mappers, meta) && f.why == why
  {
    var anchors := Anchors(tables);
    var f: Finding;
    if |anchors| == 0 {
      f := Finding(None, why);
    } else if |anchors| > 1 {
      f := Finding(Some(anchors[1].name), why);
    } else if !AnchorMapped(tables, mappers) {
      f := Finding(Some(anchors[0].name), why);
    } else {
      f := PathOrCycle(tables, mappers, meta, why);
    }
    FindingsAreGaps(tables, mappers, meta, f);
    hide IsUnreachable, CyclicAmong, Reached, Findings, FirstFailure, Planned, PathsWalkOn, Linked;
  }

  lemma PathOrCycle(tables: seq<TableEntry>, mappers: Registry, meta: Metadata, why: Failure) returns (f: Finding)
    requires Linked(mappers) && PathsWalkOn(tables, mappers) && SubjectEntriesRouted(tables, mappers)
    requires AnchorMapped(tables, mappers) && !Resolvable(tables, mappers, meta) && Raised(tables, mappers, why)
    ensures f.why == why && IsGap(tables, mappers, meta, f)
  {
    var subject := Anchors(tables)[0].name;
    forall e | e in tables && Routed(e, mappers, subject) ensures Planned(e, mappers, subject) {
      RoutedIsPlanned(e, mappers, subject);
      assert EntryWalksOn(e, mappers);
    }
    if forall e :: e in tables ==> Planned(e, mappers, subject) {
      ReachedIsAll(tables, mappers);
      f := Finding(None, KeyCycle);
    } else {
      var i :| 0 <= i < |tables| && FailsWith(tables[i], mappers, subject, why)
        && forall k :: 0 <= k < i ==> Planned(tables[k], mappers, subject);
      f := Finding(Some(tables[i].name), why);
      assert tables[i] in tables;
      hide PathOf, EntryWalksOn, CyclicAmong, Reached;
      assert IsUnreachable(tables, mappers, subject, f);
    }
  }
}

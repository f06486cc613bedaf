/** Re-running, after a restore, the erasures the trail says it undid. */
module Replayer {
  import opened Manifest
  import opened Scoping
  import opened Planning
  import opened Store
  import opened Executor
  import opened Erasure
  import opened ErasureRun
  import opened SubjectErasure
  import opened Verifier
  import Identity
  import OutboxStore
  import Routing
  import RP = ReplayPlan

  // --- one more erasure ------------------------------------------------------------------

  /** Each table holds rows it held before, joins intact. */
  ghost predicate OnlyShrunk(g: Graph, now: Db, start: Db) {
    forall t :: Within(g, now, start, t)
  }

  /** An erasure of anyone else never brings a row back into a scope. */
  lemma ErasureShrinks(g: Graph, tables: seq<TableEntry>, key: seq<string>, supply: Surrogates, before: Db, after: Db)
    requires KeepsJoins(g, tables) && Erased(g, tables, key, supply, before, after)
    ensures OnlyShrunk(g, after, before)
  {
    forall t ensures Within(g, after, before, t) {
      ErasedWithin(g, tables, key, supply, before, after, t);
    }
  }

  lemma GoneStays(g: Graph, tables: seq<TableEntry>, key: seq<string>, before: Db, after: Db)
    requires Coherent(g) && OnlyShrunk(g, after, before) && NothingLeft(before, g, tables, key)
    ensures NothingLeft(after, g, tables, key)
  {
    forall t | Deleted(g, tables, t) ensures SubjectRows(after, g, key, t) == {} {
      assert forall u :: Within(g, after, before, u);
      SubjectRowsShrink(g, key, t, after, before);
    }
  }

  lemma ErasedIsGone(g: Graph, tables: seq<TableEntry>, key: seq<string>, supply: Surrogates, before: Db, after: Db)
    requires Coherent(g) && Agree(g, tables) && KeepsJoins(g, tables) && NoConflicts(g, tables)
    requires Erased(g, tables, key, supply, before, after)
    ensures NothingLeft(after, g, tables, key)
  {
    forall t | Deleted(g, tables, t) ensures SubjectRows(after, g, key, t) == {} {
      ScopesAfterErasure(g, tables, key, supply, before, after, t);
    }
  }

  // --- a run of erasures -------------------------------------------------------------------

  function KeyFor(g: Graph, e: RP.Entry): seq<string> {
    Key(g, Identity.Single(e.subject))
  }

  predicate InReplayedScope(g: Graph, entries: seq<RP.Entry>, db: Db, t: string, r: nat) {
    exists e :: e in entries && r in SubjectRows(db, g, KeyFor(g, e), t)
  }

  /** The path goes on, after hop `i`, as the own path of the table it has reached. */
  predicate GoesOn(g: Graph, hops: seq<Hop>, i: nat)
    requires i < |hops|
  {
    InGraph(g, hops[i].target) && AccessOf(g, hops[i].target).hops == hops[i + 1..]
  }

  /** So it is wherever a path reaches a table that loses rows. */
  predicate Nested(g: Graph, tables: seq<TableEntry>, hops: seq<Hop>) {
    forall i :: 0 <= i < |hops| && Deleted(g, tables, hops[i].target) ==> GoesOn(g, hops, i)
  }

  predicate PathsNest(g: Graph, tables: seq<TableEntry>) {
    forall a :: a in g.accesses ==> Nested(g, tables, a.hops)
  }

  /** One table after the replays, against the restored data. Rows outside the replayed scopes are
      untouched; a surviving table keeps every row, with the rewritten columns of each row in scope
      replaced and its other cells kept; a row-deleted table loses rows, and with nested paths all
      those in scope. */
  ghost predicate TableReplayed(g: Graph, tables: seq<TableEntry>, entries: seq<RP.Entry>, supply: Surrogates,
                                start: Db, now: Db, t: string) {
    var T, T' := TableOf(start, t), TableOf(now, t);
    && T'.Keys <= T.Keys
    && (forall r :: r in T && !InReplayedScope(g, entries, start, t, r) ==> r in T' && T'[r] == T[r])
    && (if Deleted(g, tables, t) then
          && (forall r :: r in T' ==> T'[r] == T[r])
          && (PathsNest(g, tables) ==> forall r :: r in T' ==> !InReplayedScope(g, entries, start, t, r))
        else
          && T'.Keys == T.Keys
          && forall r :: r in T' && InReplayedScope(g, entries, start, t, r) ==>
               RowRewritten(T[r], T'[r], Rewritten(g, tables, t), supply))
  }

  /** What replaying the first entries has come to. */
  ghost predicate ReplayedSoFar(g: Graph, tables: seq<TableEntry>, entries: seq<RP.Entry>, supply: Surrogates,
                                start: Db, now: Db) {
    && (forall t :: TableReplayed(g, tables, entries, supply, start, now, t))
    && (forall e :: e in entries ==> NothingLeft(now, g, tables, KeyFor(g, e)))
  }

  lemma NothingReplayed(g: Graph, tables: seq<TableEntry>, supply: Surrogates, start: Db)
    ensures ReplayedSoFar(g, tables, [], supply, start, start)
  {}

  /** Replays only shrink tables, and leave the rows and joins of surviving tables whole. */
  lemma ReplayedWithin(g: Graph, tables: seq<TableEntry>, entries: seq<RP.Entry>, supply: Surrogates, start: Db,
                       now: Db, t: string)
    requires KeepsJoins(g, tables) && TableReplayed(g, tables, entries, supply, start, now, t)
    ensures Within(g, now, start, t)
    ensures !Deleted(g, tables, t) ==> Within(g, start, now, t)
  {
    hide Deleted, PathsNest, Rewritten, InReplayedScope;
    forall r | r in TableOf(now, t) ensures SameJoins(g, t, TableOf(now, t)[r], TableOf(start, t)[r]) {
      if InReplayedScope(g, entries, start, t, r) && !Deleted(g, tables, t) {
        assert RowRewritten(TableOf(start, t)[r], TableOf(now, t)[r], Rewritten(g, tables, t), supply);
      }
    }
  }

  /** A surviving table's scope is, at every point of the run, what it was in the restored data. */
  lemma SurvivorScopeStays(g: Graph, tables: seq<TableEntry>, entries: seq<RP.Entry>, supply: Surrogates, start: Db,
                           now: Db, key: seq<string>, t: string)
    requires Coherent(g) && Agree(g, tables) && KeepsJoins(g, tables) && NoConflicts(g, tables)
    requires !Deleted(g, tables, t)
    requires forall u :: TableReplayed(g, tables, entries, supply, start, now, u)
    ensures SubjectRows(now, g, key, t) == SubjectRows(start, g, key, t)
  {
    forall u: string ensures Within(g, now, start, u) && (!Deleted(g, tables, u) ==> Within(g, start, now, u)) {
      ReplayedWithin(g, tables, entries, supply, start, now, u);
    }
    hide TableReplayed;
    SubjectRowsShrink(g, key, t, now, start);
    if InGraph(g, t) {
      assert !Conflicting(g, tables, EntryOf(tables, AccessOf(g, t).table));
      SubjectRowsShrink(g, key, t, start, now);
    }
  }

  lemma NestedRest(g: Graph, tables: seq<TableEntry>, hops: seq<Hop>)
    requires hops != [] && Nested(g, tables, hops)
    ensures Nested(g, tables, hops[1..])
  {
    forall i | 0 <= i < |hops[1..]| && Deleted(g, tables, hops[1..][i].target) ensures GoesOn(g, hops[1..], i) {
      assert GoesOn(g, hops, i + 1);
      assert hops[1..][i + 1..] == hops[i + 1 + 1..];
    }
  }

  /** A row reached over a nested path from outside the scopes replayed so far is still there. */
  lemma ReachedStays(g: Graph, tables: seq<TableEntry>, entries: seq<RP.Entry>, supply: Surrogates, start: Db, now: Db,
                     hops: seq<Hop>, r: nat)
    requires hops != [] && Nested(g, tables, hops)
    requires TableReplayed(g, tables, entries, supply, start, now, hops[0].target)
    requires r in TableOf(start, hops[0].target)
    requires forall e :: e in entries ==>
               !Holds(start, ScopeOf(g.idColumns, KeyFor(g, e), hops[1..]), TableOf(start, hops[0].target)[r])
    ensures r in TableOf(now, hops[0].target)
  {
    var t := hops[0].target;
    if Deleted(g, tables, t) {
      assert GoesOn(g, hops, 0);
      forall e | e in entries ensures r !in SubjectRows(start, g, KeyFor(g, e), t) {}
      assert !InReplayedScope(g, entries, start, t, r);
    }
  }

  /** With nested paths a chain that starts outside the scopes replayed so far is still whole. */
  lemma {:induction false} ChainStays(g: Graph, tables: seq<TableEntry>, entries: seq<RP.Entry>, supply: Surrogates,
                                      start: Db, now: Db, key: seq<string>, t: string, hops: seq<Hop>, row: Row,
                                      row': Row)
    requires PathFrom(g, t, hops) && Nested(g, tables, hops) && SameJoins(g, t, row', row)
    requires forall u :: TableReplayed(g, tables, entries, supply, start, now, u) && Within(g, now, start, u)
    requires Holds(start, ScopeOf(g.idColumns, key, hops), row)
    requires forall e :: e in entries ==> !Holds(start, ScopeOf(g.idColumns, KeyFor(g, e), hops), row)
    ensures Holds(now, ScopeOf(g.idColumns, key, hops), row')
    decreases |hops|
  {
    hide TableReplayed, Deleted, GoesOn, KeyFor;
    if hops == [] {
      SameProjection(row, row', g.idColumns);
    } else {
      var h := hops[0];
      var S, N := TableOf(start, h.target), TableOf(now, h.target);
      var r :| r in S && Holds(start, ScopeOf(g.idColumns, key, hops[1..]), S[r])
        && SqlEqual(Project(row, h.sourceColumns), Project(S[r], h.targetColumns));
      forall e | e in entries ensures !Holds(start, ScopeOf(g.idColumns, KeyFor(g, e), hops[1..]), S[r]) {
        assert !Holds(start, ScopeOf(g.idColumns, KeyFor(g, e), hops), row);
      }
      assert TableReplayed(g, tables, entries, supply, start, now, h.target);
      ReachedStays(g, tables, entries, supply, start, now, hops, r);
      SameHopCells(g, t, hops, row, row', S[r], N[r]);
      NestedRest(g, tables, hops);
      ChainStays(g, tables, entries, supply, start, now, key, h.target, hops[1..], S[r], N[r]);
    }
  }

  /** The two ends of a hop, with the same join columns, are joined as before. */
  lemma SameHopCells(g: Graph, t: string, hops: seq<Hop>, row: Row, row': Row, next: Row, next': Row)
    requires hops != [] && PathFrom(g, t, hops)
    requires SameJoins(g, t, row', row) && SameJoins(g, hops[0].target, next', next)
    ensures PathFrom(g, hops[0].target, hops[1..])
    ensures Project(row', hops[0].sourceColumns) == Project(row, hops[0].sourceColumns)
    ensures Project(next', hops[0].targetColumns) == Project(next, hops[0].targetColumns)
  {
    var h := hops[0];
    assert GraphHop(g, h);
    forall c | c in h.sourceColumns ensures Get(row', c) == Get(row, c) { HopColumnsJoin(g, h, t, c); }
    forall c | c in h.targetColumns ensures Get(next', c) == Get(next, c) { HopColumnsJoin(g, h, h.target, c); }
    SameProjection(row', row, h.sourceColumns);
    SameProjection(next', next, h.targetColumns);
    forall x | x in hops[1..] ensures GraphHop(g, x) { assert x in hops; }
  }

  /** With nested paths a row outside the scopes replayed so far is still in its own subject's scope. */
  lemma OwnScopeStays(g: Graph, tables: seq<TableEntry>, entries: seq<RP.Entry>, supply: Surrogates, start: Db, now: Db,
                      key: seq<string>, t: string, r: nat)
    requires Coherent(g) && PathsNest(g, tables)
    requires forall u :: TableReplayed(g, tables, entries, supply, start, now, u) && Within(g, now, start, u)
    requires r in SubjectRows(start, g, key, t) && !InReplayedScope(g, entries, start, t, r)
    ensures r in SubjectRows(now, g, key, t)
  {
    var hops := AccessOf(g, t).hops;
    AccessIsPath(g, t);
    assert Nested(g, tables, hops);
    assert TableReplayed(g, tables, entries, supply, start, now, t);
    forall e | e in entries ensures !Holds(start, ScopeOf(g.idColumns, KeyFor(g, e), hops), TableOf(start, t)[r]) {
      assert r !in SubjectRows(start, g, KeyFor(g, e), t);
    }
    hide TableReplayed, Nested, Coherent, InReplayedScope, KeyFor;
    ChainStays(g, tables, entries, supply, start, now, key, t, hops, TableOf(start, t)[r], TableOf(now, t)[r]);
  }

  lemma ScopeSnoc(g: Graph, entries: seq<RP.Entry>, e: RP.Entry, db: Db, t: string, r: nat)
    ensures InReplayedScope(g, entries + [e], db, t, r)
            <==> InReplayedScope(g, entries, db, t, r) || r in SubjectRows(db, g, KeyFor(g, e), t)
  {
    if InReplayedScope(g, entries, db, t, r) {
      var x :| x in entries && r in SubjectRows(db, g, KeyFor(g, x), t);
      assert x in entries + [e];
    }
    if r in SubjectRows(db, g, KeyFor(g, e), t) { assert e in entries + [e]; }
  }

  lemma DeletedCombines(g: Graph, tables: seq<TableEntry>, entries: seq<RP.Entry>, e: RP.Entry, supply: Surrogates,
                        start: Db, now: Db, after: Db, t: string)
    requires Deleted(g, tables, t) && Rewritten(g, tables, t) == []
    requires TableReplayed(g, tables, entries, supply, start, now, t)
    requires TableErased(g, tables, KeyFor(g, e), supply, now, after, t)
    requires SubjectRows(now, g, KeyFor(g, e), t) <= SubjectRows(start, g, KeyFor(g, e), t)
    requires PathsNest(g, tables) ==>
              forall r :: r in SubjectRows(start, g, KeyFor(g, e), t) && !InReplayedScope(g, entries, start, t, r) ==>
                                r in SubjectRows(now, g, KeyFor(g, e), t)
    ensures TableReplayed(g, tables, entries + [e], supply, start, after, t)
  {
    forall r ensures InReplayedScope(g, entries + [e], start, t, r)
        <==> InReplayedScope(g, entries, start, t, r) || r in SubjectRows(start, g, KeyFor(g, e), t)
    {
      ScopeSnoc(g, entries, e, start, t, r);
    }
    hide InReplayedScope, Deleted, SubjectRows, PathsNest, Rewritten, RowRewritten;
  }

  /** One more erasure of a row-deleted table. */
  lemma DeletedReplayed(g: Graph, tables: seq<TableEntry>, entries: seq<RP.Entry>, e: RP.Entry, supply: Surrogates,
                        start: Db, now: Db, after: Db, t: string)
    requires Coherent(g) && OnlyShrunk(g, now, start) && Deleted(g, tables, t)
    requires forall u :: TableReplayed(g, tables, entries, supply, start, now, u)
    requires TableErased(g, tables, KeyFor(g, e), supply, now, after, t)
    ensures TableReplayed(g, tables, entries + [e], supply, start, after, t)
  {
    assert forall u :: Within(g, now, start, u);
    assert Rewritten(g, tables, t) == [];
    hide Coherent, InReplayedScope, Deleted, PathsNest, Within, Rewritten, TableReplayed, TableErased, SubjectRows;
    SubjectRowsShrink(g, KeyFor(g, e), t, now, start);
    if PathsNest(g, tables) {
      forall r | r in SubjectRows(start, g, KeyFor(g, e), t) && !InReplayedScope(g, entries, start, t, r)
        ensures r in SubjectRows(now, g, KeyFor(g, e), t)
      {
        OwnScopeStays(g, tables, entries, supply, start, now, KeyFor(g, e), t, r);
      }
    }
    DeletedCombines(g, tables, entries, e, supply, start, now, after, t);
  }

  /** One more erasure of a surviving table. */
  lemma SurvivorReplayed(g: Graph, tables: seq<TableEntry>, entries: seq<RP.Entry>, e: RP.Entry, supply: Surrogates,
                         start: Db, now: Db, after: Db, t: string)
    requires !Deleted(g, tables, t) && TableReplayed(g, tables, entries, supply, start, now, t)
    requires SubjectRows(now, g, KeyFor(g, e), t) == SubjectRows(start, g, KeyFor(g, e), t)
    requires TableErased(g, tables, KeyFor(g, e), supply, now, after, t)
    ensures TableReplayed(g, tables, entries + [e], supply, start, after, t)
  {
    var T, N, A, columns := TableOf(start, t), TableOf(now, t), TableOf(after, t), Rewritten(g, tables, t);
    forall r ensures InReplayedScope(g, entries + [e], start, t, r)
        <==> InReplayedScope(g, entries, start, t, r) || r in SubjectRows(start, g, KeyFor(g, e), t)
    {
      ScopeSnoc(g, entries, e, start, t, r);
    }
    hide InReplayedScope, Deleted, SubjectRows, PathsNest, Rewritten;
    forall r | r in A && InReplayedScope(g, entries + [e], start, t, r)
      ensures RowRewritten(T[r], A[r], columns, supply)
    {
      if r in SubjectRows(start, g, KeyFor(g, e), t) {
        assert RowRewritten(N[r], A[r], columns, supply);
        if InReplayedScope(g, entries, start, t, r) { assert RowRewritten(T[r], N[r], columns, supply); }
      } else {
        assert RowRewritten(T[r], N[r], columns, supply) && A[r] == N[r];
      }
    }
  }

  lemma OneMoreReplayed(schema: Schema, g: Graph, tables: seq<TableEntry>, entries: seq<RP.Entry>, e: RP.Entry,
                        supply: Surrogates, start: Db, now: Db, after: Db)
    requires Orderly(schema, g, tables) && NoConflicts(g, tables)
    requires ReplayedSoFar(g, tables, entries, supply, start, now)
    requires Erased(g, tables, KeyFor(g, e), supply, now, after)
    ensures ReplayedSoFar(g, tables, entries + [e], supply, start, after)
  {
    assert Coherent(g) && Agree(g, tables) && KeepsJoins(g, tables);
    hide Orderly, Coherent, Agree, KeepsJoins, NoConflicts, TableReplayed, NothingLeft, TableErased, Deleted, Within;
    forall t ensures Within(g, now, start, t) {
      ReplayedWithin(g, tables, entries, supply, start, now, t);
    }
    assert OnlyShrunk(g, now, start);
    ErasureShrinks(g, tables, KeyFor(g, e), supply, now, after);
    ErasedIsGone(g, tables, KeyFor(g, e), supply, now, after);
    forall x | x in entries + [e] ensures NothingLeft(after, g, tables, KeyFor(g, x)) {
      if x in entries { GoneStays(g, tables, KeyFor(g, x), now, after); }
    }
    forall t ensures TableReplayed(g, tables, entries + [e], supply, start, after, t) {
      assert TableErased(g, tables, KeyFor(g, e), supply, now, after, t);
      if Deleted(g, tables, t) {
        DeletedReplayed(g, tables, entries, e, supply, start, now, after, t);
      } else {
        SurvivorScopeStays(g, tables, entries, supply, start, now, KeyFor(g, e), t);
        SurvivorReplayed(g, tables, entries, e, supply, start, now, after, t);
      }
    }
  }

  // --- the replayer ----------------------------------------------------------------------------

  datatype Outcome = Done(results: seq<ErasureResult>) | Stopped(results: seq<ErasureResult>, why: ErasureResult)

  /** The registered resolvers, where a replayed subject's references are found again, and the
      idempotency keys from `first` on. */
  datatype Wiring = Wiring(resolvers: seq<string>, refsFor: string -> seq<Routing.Ref>, first: nat, now: int) {
    /** The first key of the n-th entry: after those of the entries before it. */
    function FirstOf(entries: seq<RP.Entry>, n: nat): nat
      requires n <= |entries|
    {
      if n == 0 then first
      else FirstOf(entries, n - 1) + |Routing.Routed(resolvers, refsFor(entries[n - 1].subject))|
    }

    function At(entries: seq<RP.Entry>, n: nat): External
      requires n < |entries|
    {
      External(resolvers, refsFor(entries[n].subject), FirstOf(entries, n), now)
    }
  }

  /** The records of one replayed subject: the replay notice comes first, before any change; without
      it nothing is tried. */
  predicate ReplayRecords(records: seq<Record>, e: RP.Entry, steps: seq<Step>, ext: External, r: ErasureResult,
                          heard: bool)
  {
    if records == [] then r == ErasureResult.NotRecorded(0)
    else
      && records[0] == Record(e.subject, ErasureRun.Replayed(e.completions))
      && ErasureRecords(records[1..], e.subject, steps, ext, r, heard)
  }

  function Flatten(runs: seq<seq<Record>>): seq<Record> {
    if runs == [] then [] else Flatten(runs[..|runs| - 1]) + runs[|runs| - 1]
  }

  ghost predicate Trailed(runs: seq<seq<Record>>, w: Wiring, entries: seq<RP.Entry>, steps: seq<Step>,
                          results: seq<ErasureResult>)
  {
    |runs| == |results| <= |entries| && forall k :: 0 <= k < |runs| ==> TrailedAt(runs, w, entries, steps, results, k)
  }

  ghost predicate TrailedAt(runs: seq<seq<Record>>, w: Wiring, entries: seq<RP.Entry>, steps: seq<Step>,
                            results: seq<ErasureResult>, k: nat)
    requires k < |runs| && k < |results| && k < |entries|
  {
    results[k].Completed? && ReplayRecords(runs[k], entries[k], steps, w.At(entries, k), results[k], true)
  }

  /** Every replayed subject can be scoped again from the string the trail holds. */
  predicate AllAccepted(g: Graph, entries: seq<RP.Entry>) {
    forall e :: e in entries ==> Accepted(g, Identity.Single(e.subject))
  }

  /** Every reference derived again is of a registered kind. */
  predicate AllMatched(w: Wiring, entries: seq<RP.Entry>) {
    forall k :: 0 <= k < |entries| ==> w.At(entries, k).Matched()
  }

  /** The outbox after the first entries: what it held, and the external work of each of them. */
  ghost predicate QueuedSoFar(w: Wiring, entries: seq<RP.Entry>, before: OutboxStore.Rows, now: OutboxStore.Rows,
                              n: nat)
    requires n <= |entries|
  {
    && (forall id :: id in before ==> id in now && now[id] == before[id])
    && (forall k :: 0 <= k < n ==> QueuedAt(w, entries, now, k))
    && (Below(before, w.first) ==> Below(now, w.FirstOf(entries, n)))
  }

  predicate QueuedAt(w: Wiring, entries: seq<RP.Entry>, now: OutboxStore.Rows, k: nat)
    requires k < |entries|
  {
    Pending(now, w.At(entries, k).Entries(entries[k].subject))
  }

  lemma NothingQueued(w: Wiring, entries: seq<RP.Entry>, rows: OutboxStore.Rows)
    ensures QueuedSoFar(w, entries, rows, rows, 0)
  {}

  lemma OneMoreQueued(w: Wiring, entries: seq<RP.Entry>, before: OutboxStore.Rows, now: OutboxStore.Rows,
                      after: OutboxStore.Rows, n: nat, r: ErasureResult, steps: nat)
    requires n < |entries| && QueuedSoFar(w, entries, before, now, n) && r.Completed?
    requires EnqueuedWhole(now, after, entries[n].subject, w.At(entries, n), r, steps)
    ensures QueuedSoFar(w, entries, before, after, n + 1)
  {
    var ext, subject := w.At(entries, n), entries[n].subject;
    assert w.FirstOf(entries, n + 1) == ext.first + |Routing.Routed(ext.resolvers, ext.refs)|;
    CompletedIsPending(now, after, subject, ext, r, steps);
    assert QueuedAt(w, entries, after, n);
    forall k | 0 <= k < n ensures QueuedAt(w, entries, after, k) {
      PendingStays(w, entries, now, after, k);
    }
    hide EnqueuedWhole, External.Entries, Wiring.At, Wiring.FirstOf, Routing.Routed, QueuedAt, Pending;
    if Below(before, w.first) {
      StaysBelow(now, after, subject, ext, r, steps);
    }
  }

  lemma PendingStays(w: Wiring, entries: seq<RP.Entry>, now: OutboxStore.Rows, after: OutboxStore.Rows, k: nat)
    requires k < |entries| && QueuedAt(w, entries, now, k)
    requires forall id :: id in now ==> id in after && after[id] == now[id]
    ensures QueuedAt(w, entries, after, k)
  {}

  lemma StaysBelow(now: OutboxStore.Rows, after: OutboxStore.Rows, subject: string, ext: External, r: ErasureResult,
                   steps: nat)
    requires Below(now, ext.first) && r.Completed? && EnqueuedWhole(now, after, subject, ext, r, steps)
    ensures Below(after, ext.first + |Routing.Routed(ext.resolvers, ext.refs)|)
  {
    KeysAreFresh(now, Routing.Routed(ext.resolvers, ext.refs), ext.first, subject, ext.now);
  }

  /** Per entry, in plan order: the notice, then the erasure with its references derived again. The
      first failure stops the run. On a manifest whose steps cannot fail the run completes, every
      replayed subject is gone, and nothing outside their scopes has changed. */
  method Replay(session: Session, outbox: OutboxStore.Outbox, sink: AuditSink, g: Graph, tables: seq<TableEntry>,
                plan: RP.Plan, w: Wiring, supply: Surrogates)
    returns (r: Outcome, ghost runs: seq<seq<Record>>, ghost failed: seq<Record>)
    requires session.Valid() && Coherent(g) && Agree(g, tables) && NoConflicts(g, tables)
    modifies session, outbox, sink
    ensures session.Valid()
    ensures Trailed(runs, w, plan.entries, StepsUpTo(g, tables, |g.accesses|), r.results)
    ensures sink.log == old(sink.log) + Flatten(runs) + failed
    ensures r.Done? ==> |r.results| == |plan.entries| && failed == []
    ensures r.Done? ==> QueuedSoFar(w, plan.entries, old(outbox.rows), outbox.rows, |plan.entries|)
    ensures r.Stopped? ==>
              && |r.results| < |plan.entries| && !r.why.Completed?
              && var k := |r.results|;
                 ReplayRecords(failed, plan.entries[k], StepsUpTo(g, tables, |g.accesses|), w.At(plan.entries, k),
                               r.why, sink.Heard())
    ensures r.Done? && AllAccepted(g, plan.entries) && Orderly(session.schema, g, tables) ==>
              ReplayedSoFar(g, tables, plan.entries, supply, old(session.db), session.db)
    ensures Smooth(session.schema, g, tables, w, plan.entries) && sink.NeverDown()
            && Below(old(outbox.rows), w.first)
            ==> r.Done?
  {
    hide *;
    var results: seq<ErasureResult> := [];
    runs, failed := [], [];
    ghost var start, log, rows := session.db, sink.log, outbox.rows;
    ghost var steps := StepsUpTo(g, tables, |g.accesses|);
    ghost var sound := AllAccepted(g, plan.entries) && Orderly(session.schema, g, tables);
    var entries := plan.entries;
    NothingReplayed(g, tables, supply, start);
    NothingTrailed(log, w, entries, steps);
    NothingQueued(w, entries, rows);
    for i := 0 to |entries|
      invariant session.Valid()
      invariant |results| == i && Trailed(runs, w, entries, steps, results)
      invariant sink.log == log + Flatten(runs)
      invariant QueuedSoFar(w, entries, rows, outbox.rows, i)
      invariant sound ==> ReplayedSoFar(g, tables, entries[..i], supply, start, session.db)
    {
      var result;
      ghost var run, queue := [], outbox.rows;
      result, run := ReplayEntry(session, outbox, sink, g, tables, entries, i, w, supply, start);
      NextAccepted(session.schema, g, tables, w, entries, i);
      if !result.Completed? {
        failed := run;
        NextBelow(w, entries, rows, queue, i);
        return Stopped(results, result), runs, failed;
      }
      OneMoreTrailed(log, runs, run, w, entries, steps, results, result, sink.Heard());
      OneMoreQueued(w, entries, rows, queue, outbox.rows, i, result, |steps|);
      runs := runs + [run];
      results := results + [result];
    }
    assert entries[..|entries|] == entries;
    assert sink.log == log + Flatten(runs) + [];
    r := Outcome.Done(results);
  }

  /** Nothing but the sink or a used key can stop the replay. */
  ghost predicate Smooth(schema: Schema, g: Graph, tables: seq<TableEntry>, w: Wiring, entries: seq<RP.Entry>) {
    AllAccepted(g, entries) && AllMatched(w, entries) && Unfailing(schema, g, tables)
  }

  lemma NextBelow(w: Wiring, entries: seq<RP.Entry>, before: OutboxStore.Rows, now: OutboxStore.Rows, i: nat)
    requires i < |entries| && QueuedSoFar(w, entries, before, now, i)
    ensures Below(before, w.first) ==> Below(now, w.At(entries, i).first)
  {}

  lemma NextAccepted(schema: Schema, g: Graph, tables: seq<TableEntry>, w: Wiring, entries: seq<RP.Entry>, i: nat)
    requires i < |entries|
    ensures AllAccepted(g, entries) ==> Accepted(g, Identity.Single(entries[i].subject))
    ensures Smooth(schema, g, tables, w, entries) ==>
              && Accepted(g, Identity.Single(entries[i].subject)) && w.At(entries, i).Matched()
              && Unfailing(schema, g, tables)
  {}

  lemma NothingTrailed(log: seq<Record>, w: Wiring, entries: seq<RP.Entry>, steps: seq<Step>)
    ensures Trailed([], w, entries, steps, []) && log == log + Flatten([])
  {}

  lemma OneMoreTrailed(log: seq<Record>, runs: seq<seq<Record>>, run: seq<Record>, w: Wiring, entries: seq<RP.Entry>,
                       steps: seq<Step>, results: seq<ErasureResult>, result: ErasureResult, heard: bool)
    requires Trailed(runs, w, entries, steps, results) && |results| < |entries| && result.Completed?
    requires ReplayRecords(run, entries[|results|], steps, w.At(entries, |results|), result, heard)
    ensures Trailed(runs + [run], w, entries, steps, results + [result])
    ensures log + Flatten(runs) + run == log + Flatten(runs + [run])
  {
    assert (runs + [run])[..|runs|] == runs;
    assert log + Flatten(runs) + run == log + (Flatten(runs) + run);
    var all, done := runs + [run], results + [result];
    HeardOrNot(run, entries[|results|], steps, w.At(entries, |results|), result, heard);
    assert TrailedAt(all, w, entries, steps, done, |results|);
    hide ReplayRecords, Wiring.At, Flatten;
    forall k | 0 <= k < |all| ensures TrailedAt(all, w, entries, steps, done, k) {
      if k < |results| { assert TrailedAt(runs, w, entries, steps, results, k); }
    }
  }

  /** A completed run's records do not depend on a refused append: there was none. */
  lemma HeardOrNot(run: seq<Record>, e: RP.Entry, steps: seq<Step>, ext: External, r: ErasureResult, heard: bool)
    requires r.Completed? && ReplayRecords(run, e, steps, ext, r, heard)
    ensures ReplayRecords(run, e, steps, ext, r, true)
  {
    hide Opened, Completion, SuccessesOf;
  }

  /** The notice first; if the sink refuses it nothing is tried. */
  method ReplayEntry(session: Session, outbox: OutboxStore.Outbox, sink: AuditSink, g: Graph, tables: seq<TableEntry>,
                     entries: seq<RP.Entry>, i: nat, w: Wiring, supply: Surrogates, ghost start: Db)
    returns (r: ErasureResult, ghost run: seq<Record>)
    requires session.Valid() && Coherent(g) && Agree(g, tables) && NoConflicts(g, tables) && i < |entries|
    modifies session, outbox, sink
    ensures session.Valid()
    ensures sink.log == old(sink.log) + run
    ensures ReplayRecords(run, entries[i], StepsUpTo(g, tables, |g.accesses|), w.At(entries, i), r, sink.Heard())
    ensures r.Completed? ==>
              EnqueuedWhole(old(outbox.rows), outbox.rows, entries[i].subject, w.At(entries, i), r,
                            |StepsUpTo(g, tables, |g.accesses|)|)
    ensures r.Completed? && Accepted(g, Identity.Single(entries[i].subject)) && Orderly(session.schema, g, tables) ==>
              ReplayedSoFar(g, tables, entries[..i], supply, start, old(session.db)) ==>
                ReplayedSoFar(g, tables, entries[..i + 1], supply, start, session.db)
    ensures Accepted(g, Identity.Single(entries[i].subject)) && Unfailing(session.schema, g, tables)
            && w.At(entries, i).Matched() && sink.NeverDown() && Below(old(outbox.rows), w.At(entries, i).first)
            ==> r.Completed?
  {
    hide *;
    var e, ext := entries[i], w.At(entries, i);
    var id := Identity.Single(e.subject);
    ghost var log, before := sink.log, session.db;
    var notice := Record(e.subject, ErasureRun.Replayed(e.completions));
    var ok := sink.Append(notice);
    DownOnce(sink, sink.calls - 1);
    if !ok {
      NoNotice(e, StepsUpTo(g, tables, |g.accesses|), ext, sink.Heard());
      return ErasureResult.NotRecorded(0), [];
    }
    CanonicalSingle(e.subject);
    ghost var records;
    r, records := EraseSubject(session, outbox, sink, g, tables, id, ext, supply);
    run := [notice] + records;
    AppendJoins(log, [notice], records);
    NoticeFirst(notice, records, e, StepsUpTo(g, tables, |g.accesses|), ext, r, sink.Heard());
    ErasedNext(session.schema, g, tables, entries, i, ext, supply, start, before, session.db, records, r);
  }

  lemma CanonicalSingle(subject: string)
    ensures Identity.Canonical(Identity.Single(subject)) == subject
  {}

  lemma NoNotice(e: RP.Entry, steps: seq<Step>, ext: External, heard: bool)
    ensures ReplayRecords([], e, steps, ext, ErasureResult.NotRecorded(0), heard)
  {}

  lemma NoticeFirst(notice: Record, records: seq<Record>, e: RP.Entry, steps: seq<Step>, ext: External,
                    r: ErasureResult, heard: bool)
    requires notice == Record(e.subject, ErasureRun.Replayed(e.completions))
    requires ErasureRecords(records, e.subject, steps, ext, r, heard)
    ensures ReplayRecords([notice] + records, e, steps, ext, r, heard)
  {
    assert ([notice] + records)[1..] == records;
  }

  lemma ErasedNext(schema: Schema, g: Graph, tables: seq<TableEntry>, entries: seq<RP.Entry>, i: nat,
                   ext: External, supply: Surrogates, start: Db, before: Db, after: Db, records: seq<Record>,
                   r: ErasureResult)
    requires Coherent(g) && Agree(g, tables) && NoConflicts(g, tables) && i < |entries|
    requires r.Completed? && Accepted(g, Identity.Single(entries[i].subject)) && Orderly(schema, g, tables) ==>
               Faithful(g, tables, Identity.Single(entries[i].subject), ext, supply, before, after, records, r)
    ensures r.Completed? && Accepted(g, Identity.Single(entries[i].subject)) && Orderly(schema, g, tables) ==>
              ReplayedSoFar(g, tables, entries[..i], supply, start, before) ==>
                ReplayedSoFar(g, tables, entries[..i + 1], supply, start, after)
  {
    hide *;
    assert entries[..i + 1] == entries[..i] + [entries[i]];
    if r.Completed? && Accepted(g, Identity.Single(entries[i].subject)) && Orderly(schema, g, tables)
       && ReplayedSoFar(g, tables, entries[..i], supply, start, before) {
      FaithfulErases(g, tables, entries[i], ext, supply, before, after, records, r);
      OneMoreReplayed(schema, g, tables, entries[..i], entries[i], supply, start, before, after);
    }
  }

  lemma FaithfulErases(g: Graph, tables: seq<TableEntry>, e: RP.Entry, ext: External, supply: Surrogates, before: Db,
                       after: Db, records: seq<Record>, r: ErasureResult)
    requires Agree(g, tables) && r.Completed?
    requires Faithful(g, tables, Identity.Single(e.subject), ext, supply, before, after, records, r)
    ensures Erased(g, tables, KeyFor(g, e), supply, before, after)
  {}

  // --- restore and replay ------------------------------------------------------------------------

  /** One erasure that ran to its completion event, and when its transaction committed, if it did. */
  datatype Attempt = Attempt(id: Identity.Identifier, event: nat, completedAt: int, committed: bool, committedAt: int)

  /** The backup does not hold it. */
  predicate Lost(a: Attempt, cutoff: int) {
    a.committed && a.committedAt >= cutoff
  }

  /** Its completion event is older than the backup, its commit is not. */
  predicate Straddles(a: Attempt, cutoff: int) {
    Lost(a, cutoff) && a.completedAt < cutoff
  }

  function EventOf(a: Attempt): RP.Event
    requires a.id.Composite? ==> Identity.ValidKey(a.id.values)
  {
    RP.Event(a.event, RP.LocalCompleted, Identity.Canonical(a.id), a.completedAt)
  }

  /** The stored string scopes a replay by the key the erasure was scoped by. */
  predicate Replayable(g: Graph, id: Identity.Identifier) {
    && Accepted(g, id)
    && (id.Composite? ==> |g.idColumns| > 1 || Identity.Plain(id.values[0]))
  }

  predicate History(g: Graph, attempts: seq<Attempt>) {
    forall a :: a in attempts ==> Replayable(g, a.id)
  }

  /** The trail's completion events are those of the attempts. */
  ghost predicate Survives(g: Graph, attempts: seq<Attempt>, events: seq<RP.Event>)
    requires History(g, attempts)
  {
    && (forall a :: a in attempts ==> EventOf(a) in events)
    && (forall e :: e in events && e.kind == RP.LocalCompleted ==> exists a :: a in attempts && EventOf(a) == e)
  }

  lemma ReplayKey(g: Graph, id: Identity.Identifier)
    requires Replayable(g, id)
    ensures Accepted(g, Identity.Single(Identity.Canonical(id)))
    ensures Key(g, Identity.Single(Identity.Canonical(id))) == Key(g, id)
  {
    if id.Composite? {
      Identity.StoredKeyScopesAlike(id.values);
    }
  }

  /** Every subject the plan replays can be scoped. */
  lemma PlanIsAccepted(g: Graph, attempts: seq<Attempt>, events: seq<RP.Event>, cutoff: int, plan: RP.Plan)
    requires History(g, attempts) && Survives(g, attempts, events) && RP.Derives(events, cutoff, plan)
    ensures AllAccepted(g, plan.entries)
  {
    forall e | e in plan.entries ensures Accepted(g, Identity.Single(e.subject)) {
      RP.ThreeDisjointGroups(events, cutoff, plan, e.subject);
      assert RP.Replayed(plan, e.subject);
      var x :| x in events && RP.Qualifies(x, cutoff, e.subject) && x.kind == RP.LocalCompleted;
      var a :| a in attempts && EventOf(a) == x;
      ReplayKey(g, a.id);
    }
  }

  predicate LostSubject(g: Graph, attempts: seq<Attempt>, cutoff: int, subject: string)
    requires History(g, attempts)
  {
    exists a :: a in attempts && Lost(a, cutoff) && Identity.Canonical(a.id) == subject
  }

  predicate CompletedAfter(g: Graph, attempts: seq<Attempt>, cutoff: int, subject: string)
    requires History(g, attempts)
  {
    exists a :: a in attempts && a.completedAt >= cutoff && Identity.Canonical(a.id) == subject
  }

  /** The plan replays a subject if and only if some attempt on it completed at or after the cutoff.
      So it is right about the subject except in two cases: every lost erasure of it straddles the
      backup and none completed after, or some completed after and none of them committed. */
  lemma ReplayedExactly(g: Graph, attempts: seq<Attempt>, events: seq<RP.Event>, cutoff: int, plan: RP.Plan,
                        subject: string)
    requires History(g, attempts) && Survives(g, attempts, events) && RP.Derives(events, cutoff, plan)
    ensures RP.Replayed(plan, subject) <==> CompletedAfter(g, attempts, cutoff, subject)
    ensures (RP.Replayed(plan, subject) <==> LostSubject(g, attempts, cutoff, subject))
            <==> (CompletedAfter(g, attempts, cutoff, subject) <==> LostSubject(g, attempts, cutoff, subject))
    ensures LostSubject(g, attempts, cutoff, subject) && !RP.Replayed(plan, subject) ==>
              forall a :: a in attempts && Lost(a, cutoff) && Identity.Canonical(a.id) == subject ==>
                   Straddles(a, cutoff)
    ensures RP.Replayed(plan, subject) && !LostSubject(g, attempts, cutoff, subject) ==>
              exists a :: a in attempts && Identity.Canonical(a.id) == subject
                && a.completedAt >= cutoff && !Lost(a, cutoff)
  {
    RP.ThreeDisjointGroups(events, cutoff, plan, subject);
    if RP.Replayed(plan, subject) {
      var x :| x in events && RP.Qualifies(x, cutoff, subject) && x.kind == RP.LocalCompleted;
      var a :| a in attempts && EventOf(a) == x;
      assert a.completedAt >= cutoff && Identity.Canonical(a.id) == subject;
    }
    if a :| a in attempts && a.completedAt >= cutoff && Identity.Canonical(a.id) == subject {
      assert RP.Qualifies(EventOf(a), cutoff, subject);
    }
  }

  /** No attempt on the subject straddles the cutoff, and none that completed after it rolled back. */
  predicate Clear(g: Graph, attempts: seq<Attempt>, cutoff: int, subject: string)
    requires History(g, attempts)
  {
    forall a :: a in attempts && Identity.Canonical(a.id) == subject ==> (Lost(a, cutoff) <==> a.completedAt >= cutoff)
  }

  /** On a clear history of its own, whatever becomes of other subjects, a subject is replayed exactly
      when the restore lost an erasure of it. */
  lemma ReplayedAreTheLost(g: Graph, attempts: seq<Attempt>, events: seq<RP.Event>, cutoff: int, plan: RP.Plan,
                           subject: string)
    requires History(g, attempts) && Survives(g, attempts, events) && RP.Derives(events, cutoff, plan)
    requires Clear(g, attempts, cutoff, subject)
    ensures RP.Replayed(plan, subject) <==> LostSubject(g, attempts, cutoff, subject)
  {
    ReplayedExactly(g, attempts, events, cutoff, plan, subject);
    if a :| a in attempts && a.completedAt >= cutoff && Identity.Canonical(a.id) == subject {
      assert Lost(a, cutoff);
    }
  }

  /** The subject's data, as the restore brought it back, is erased again: nothing of it can be reached
      in a row-deleted table (and with nested paths no row of it is left), and in a surviving table
      every row of it has its rewritten columns replaced and its other cells kept. */
  ghost predicate ErasedAgain(g: Graph, tables: seq<TableEntry>, key: seq<string>, supply: Surrogates, restored: Db,
                              after: Db) {
    && NothingLeft(after, g, tables, key)
    && forall t, r :: r in SubjectRows(restored, g, key, t) ==> RowErasedAgain(g, tables, supply, restored, after, t, r)
  }

  ghost predicate RowErasedAgain(g: Graph, tables: seq<TableEntry>, supply: Surrogates, restored: Db, after: Db,
                                 t: string, r: nat) {
    if Deleted(g, tables, t) then PathsNest(g, tables) ==> r !in TableOf(after, t)
    else
      && r in TableOf(restored, t) && r in TableOf(after, t)
      && RowRewritten(TableOf(restored, t)[r], TableOf(after, t)[r], Rewritten(g, tables, t), supply)
  }

  /** Restoring the backup and replaying the surviving trail erases again every erasure the restore
      lost, unless it straddles the backup instant. */
  lemma LostErasuresAreGone(g: Graph, tables: seq<TableEntry>, attempts: seq<Attempt>, events: seq<RP.Event>,
                            cutoff: int, plan: RP.Plan, supply: Surrogates, restored: Db, after: Db, a: Attempt)
    requires History(g, attempts) && Survives(g, attempts, events) && RP.Derives(events, cutoff, plan)
    requires ReplayedSoFar(g, tables, plan.entries, supply, restored, after)
    requires a in attempts && Lost(a, cutoff) && !Straddles(a, cutoff)
    ensures ErasedAgain(g, tables, Key(g, a.id), supply, restored, after)
  {
    var subject := Identity.Canonical(a.id);
    ReplayKey(g, a.id);
    ReplayedExactly(g, attempts, events, cutoff, plan, subject);
    var e :| e in plan.entries && e.subject == subject;
    hide History, Survives, RP.Derives, NothingLeft, Deleted, SubjectRows, Rewritten, PathsNest;
    forall t, r | r in SubjectRows(restored, g, Key(g, a.id), t)
      ensures RowErasedAgain(g, tables, supply, restored, after, t, r)
    {
      assert InReplayedScope(g, plan.entries, restored, t, r);
      InScopeIsRow(restored, g, Key(g, a.id), t, r);
      assert TableReplayed(g, tables, plan.entries, supply, restored, after, t);
    }
  }

  lemma InScopeIsRow(db: Db, g: Graph, key: seq<string>, t: string, r: nat)
    requires r in SubjectRows(db, g, key, t)
    ensures r in TableOf(db, t)
  {}

  /** The whole of it: derive the plan from the surviving trail and replay it on the restored data. On
      an orderly manifest a finished run has erased again every lost erasure that does not straddle
      the backup, no row outside the replayed subjects' scopes has changed, and their external work
      is pending again; where no step can fail the run finishes. */
  method RestoreAndReplay(session: Session, outbox: OutboxStore.Outbox, sink: AuditSink, g: Graph,
                          tables: seq<TableEntry>, events: seq<RP.Event>, cutoff: int, w: Wiring, supply: Surrogates,
                          ghost attempts: seq<Attempt>)
    returns (r: Outcome, plan: RP.Plan)
    requires session.Valid() && Coherent(g) && Agree(g, tables) && NoConflicts(g, tables)
    requires History(g, attempts) && Survives(g, attempts, events)
    modifies session, outbox, sink
    ensures session.Valid() && RP.Derives(events, cutoff, plan)
    ensures r.Done? && Orderly(session.schema, g, tables) ==>
              forall a :: a in attempts && Lost(a, cutoff) && !Straddles(a, cutoff) ==>
                ErasedAgain(g, tables, Key(g, a.id), supply, old(session.db), session.db)
    ensures r.Done? && Orderly(session.schema, g, tables) ==>
              ReplayedSoFar(g, tables, plan.entries, supply, old(session.db), session.db)
    ensures r.Done? ==> QueuedSoFar(w, plan.entries, old(outbox.rows), outbox.rows, |plan.entries|)
    ensures Unfailing(session.schema, g, tables) && AllMatched(w, plan.entries) && sink.NeverDown()
            && Below(old(outbox.rows), w.first)
            ==> r.Done?
  {
    hide *;
    ghost var restored := session.db;
    plan := RP.Derive(events, cutoff);
    PlanIsAccepted(g, attempts, events, cutoff, plan);
    SmoothParts(session.schema, g, tables, w, plan.entries);
    ghost var runs;
    ghost var failed;
    r, runs, failed := Replay(session, outbox, sink, g, tables, plan, w, supply);
    if r.Done? && Orderly(session.schema, g, tables) {
      forall a | a in attempts && Lost(a, cutoff) && !Straddles(a, cutoff)
        ensures ErasedAgain(g, tables, Key(g, a.id), supply, restored, session.db)
      {
        LostErasuresAreGone(g, tables, attempts, events, cutoff, plan, supply, restored, session.db, a);
      }
    }
  }

  lemma SmoothParts(schema: Schema, g: Graph, tables: seq<TableEntry>, w: Wiring, entries: seq<RP.Entry>)
    ensures Smooth(schema, g, tables, w, entries)
            <==> AllAccepted(g, entries) && AllMatched(w, entries) && Unfailing(schema, g, tables)
  {}
}

/** Erasing, reading back and erasing again, as one caller does it. */
module Reruns {
  import opened Manifest
  import opened Scoping
  import opened Planning
  import opened Store
  import opened Executor
  import opened Erasure
  import opened ErasureRun
  import opened SubjectErasure
  import opened Verifier
  import Identity
  import OutboxStore
  import Routing

  predicate AllZero(m: map<string, nat>) {
    forall t :: t in m ==> m[t] == 0
  }

  /** The read-back finds nothing left and every surviving row again; a second erasure reports zero for
      the tables that lost rows and, for the rest, what the first one reported. */
  predicate Converged(first: Counts, check: Verdict, second: Counts) {
    match first
    case Counts(deleted, anonymized, retained) =>
      && check.verified && check.residual.Keys == deleted.Keys && AllZero(check.residual)
      && check.surviving == anonymized + retained
      && second.deleted.Keys == deleted.Keys && AllZero(second.deleted)
      && second.anonymized == anonymized && second.retained == retained
  }

  lemma Converge(g: Graph, tables: seq<TableEntry>, key: seq<string>, supply: Surrogates, supply': Surrogates,
                 before: Db, after: Db, again: Db, first: Counts, check: Verdict, second: Counts)
    requires Coherent(g) && Agree(g, tables) && KeepsJoins(g, tables) && NoConflicts(g, tables)
    requires Erased(g, tables, key, supply, before, after) && Erased(g, tables, key, supply', after, again)
    requires var steps := StepsUpTo(g, tables, |g.accesses|);
             && CountsScopes(first, g, key, before, steps, |steps|)
             && CountsScopes(second, g, key, after, steps, |steps|)
    requires ReadsBack(check, after, g, tables, key)
    ensures Converged(first, check, second)
  {
    hide Erased, Coherent, Agree, KeepsJoins, NoConflicts, StepsUpTo, Deleted, Rewritten, Retained, SubjectRows,
      Touched, CountsFor, NothingLeft, ReadsBack, AllZero;
    var steps := StepsUpTo(g, tables, |g.accesses|);
    var n := |steps|;
    SizesAgree(g, tables, key, supply, supply', before, after, again);
    PlanTouchesAll(g, tables);
    ZeroAgain(g, key, before, after, steps, n, first.deleted, second.deleted, DELETE);
    SameAgain(g, key, before, after, steps, n, first.anonymized, second.anonymized, ANONYMIZE);
    SameAgain(g, key, before, after, steps, n, first.retained, second.retained, RETAIN);
    Checked(g, tables, key, before, after, steps, n, first, check);
  }

  lemma SizesAgree(g: Graph, tables: seq<TableEntry>, key: seq<string>, supply: Surrogates, supply': Surrogates,
                   before: Db, after: Db, again: Db)
    requires Coherent(g) && Agree(g, tables) && KeepsJoins(g, tables) && NoConflicts(g, tables)
    requires Erased(g, tables, key, supply, before, after) && Erased(g, tables, key, supply', after, again)
    ensures NothingLeft(after, g, tables, key)
    ensures forall t :: Deleted(g, tables, t) ==> SubjectRows(after, g, key, t) == {}
    ensures forall t :: Rewritten(g, tables, t) != [] || Retained(g, tables, t) != [] ==>
              |SubjectRows(after, g, key, t)| == |SubjectRows(before, g, key, t)|
  {
    EraseVerifyErase(g, tables, key, supply, supply', before, after, again);
  }

  lemma PlanTouchesAll(g: Graph, tables: seq<TableEntry>)
    requires Coherent(g) && Agree(g, tables)
    ensures var steps := StepsUpTo(g, tables, |g.accesses|);
            && (forall t :: Touched(steps, |steps|, t, DELETE) <==> Deleted(g, tables, t))
            && (forall t :: Touched(steps, |steps|, t, ANONYMIZE) <==> Rewritten(g, tables, t) != [])
            && (forall t :: Touched(steps, |steps|, t, RETAIN) <==> Retained(g, tables, t) != [])
  {
    var steps := StepsUpTo(g, tables, |g.accesses|);
    hide *;
    forall t: string
      ensures Touched(steps, |steps|, t, DELETE) <==> Deleted(g, tables, t)
      ensures Touched(steps, |steps|, t, ANONYMIZE) <==> Rewritten(g, tables, t) != []
      ensures Touched(steps, |steps|, t, RETAIN) <==> Retained(g, tables, t) != []
    {
      PlanTouches(g, tables, t);
      PlanRetains(g, tables, t);
    }
  }

  lemma ZeroAgain(g: Graph, key: seq<string>, before: Db, after: Db, steps: seq<Step>, n: nat, m: map<string, nat>,
                  m': map<string, nat>, s: Strategy)
    requires n <= |steps| && CountsFor(m, g, key, before, steps, n, s) && CountsFor(m', g, key, after, steps, n, s)
    requires forall t :: Touched(steps, n, t, s) ==> SubjectRows(after, g, key, t) == {}
    ensures m'.Keys == m.Keys && AllZero(m')
  {
    hide Touched, SubjectRows;
  }

  lemma SameAgain(g: Graph, key: seq<string>, before: Db, after: Db, steps: seq<Step>, n: nat, m: map<string, nat>,
                  m': map<string, nat>, s: Strategy)
    requires n <= |steps| && CountsFor(m, g, key, before, steps, n, s) && CountsFor(m', g, key, after, steps, n, s)
    requires forall t :: Touched(steps, n, t, s) ==> |SubjectRows(after, g, key, t)| == |SubjectRows(before, g, key, t)|
    ensures m' == m
  {
    hide Touched, SubjectRows;
  }

  lemma Checked(g: Graph, tables: seq<TableEntry>, key: seq<string>, before: Db, after: Db, steps: seq<Step>, n: nat,
                c: Counts, check: Verdict)
    requires n <= |steps| && CountsScopes(c, g, key, before, steps, n)
    requires ReadsBack(check, after, g, tables, key)
    requires forall t :: Touched(steps, n, t, DELETE) <==> Deleted(g, tables, t)
    requires forall t :: Touched(steps, n, t, ANONYMIZE) <==> Rewritten(g, tables, t) != []
    requires forall t :: Touched(steps, n, t, RETAIN) <==> Retained(g, tables, t) != []
    requires forall t :: Deleted(g, tables, t) ==> SubjectRows(after, g, key, t) == {}
    requires forall t :: Rewritten(g, tables, t) != [] || Retained(g, tables, t) != [] ==>
               |SubjectRows(after, g, key, t)| == |SubjectRows(before, g, key, t)|
    ensures check.verified && check.residual.Keys == c.deleted.Keys && AllZero(check.residual)
    ensures check.surviving == c.anonymized + c.retained
  {
    hide Touched, SubjectRows, Deleted, Rewritten, Retained;
    assert check.surviving.Keys == (c.anonymized + c.retained).Keys;
  }

  /** One erasure after another that is not the last: their external work is pending side by side. */
  predicate BothPending(rows: OutboxStore.Rows, subject: string, ext: External, again: External) {
    Pending(rows, ext.Entries(subject)) && Pending(rows, again.Entries(subject))
  }

  lemma EnqueuedTwice(r0: OutboxStore.Rows, r1: OutboxStore.Rows, r2: OutboxStore.Rows, subject: string, ext: External,
                      again: External, first: ErasureResult, second: ErasureResult, steps: nat)
    requires first.Completed? && EnqueuedWhole(r0, r1, subject, ext, first, steps)
    requires second.Completed? && EnqueuedWhole(r1, r2, subject, again, second, steps)
    ensures BothPending(r2, subject, ext, again)
  {
    CompletedIsPending(r0, r1, subject, ext, first, steps);
    CompletedIsPending(r1, r2, subject, again, second, steps);
    hide EnqueuedWhole, External.Entries;
  }

  /** The keys of the second erasure come after those of the first. */
  predicate KeysAfter(ext: External, again: External) {
    again.first >= ext.first + |Routing.Routed(ext.resolvers, ext.refs)|
  }

  lemma FreshAgain(r0: OutboxStore.Rows, r1: OutboxStore.Rows, subject: string, ext: External, again: External,
                   first: ErasureResult, steps: nat)
    requires first.Completed? && EnqueuedWhole(r0, r1, subject, ext, first, steps)
    ensures KeysAfter(ext, again) && Below(r0, ext.first) ==> Below(r1, again.first)
  {
    if Below(r0, ext.first) {
      KeysAreFresh(r0, Routing.Routed(ext.resolvers, ext.refs), ext.first, subject, ext.now);
    }
  }

  /** Nothing but a refused event stops the three calls. */
  ghost predicate Unhindered(session: Session, outbox: OutboxStore.Outbox, sink: AuditSink, g: Graph,
                             tables: seq<TableEntry>, id: Identity.Identifier, ext: External, again: External)
    reads outbox
  {
    && Accepted(g, id) && Unfailing(session.schema, g, tables) && sink.NeverDown()
    && ext.Matched() && again.Matched() && KeysAfter(ext, again) && Below(outbox.rows, ext.first)
  }

  /** Erase, verify, erase again. On an orderly manifest the verdict is clean and the numbers of the three
      calls agree; the second erasure enqueues its external work anew, beside the first's. */
  method EraseTwice(session: Session, outbox: OutboxStore.Outbox, sink: AuditSink, g: Graph, tables: seq<TableEntry>,
                    id: Identity.Identifier, ext: External, again: External, supply: Surrogates, supply': Surrogates)
    returns (first: ErasureResult, check: VerifyResult, second: ErasureResult)
    requires session.Valid() && Coherent(g)
    requires id.Composite? ==> Identity.ValidKey(id.values)
    modifies session, outbox, sink
    ensures session.Valid()
    ensures first.Completed? && check.Read? && second.Completed? ==>
              && BothPending(outbox.rows, Identity.Canonical(id), ext, again)
              && (Accepted(g, id) && Orderly(session.schema, g, tables) ==>
                    Converged(first.counts, check.verdict, second.counts))
    ensures old(Unhindered(session, outbox, sink, g, tables, id, ext, again)) ==>
              first.Completed? && check.Read? && second.Completed?
  {
    assert id.Composite? ==> id.values != [];
    ghost var before, rows := session.db, outbox.rows;
    HinderedParts(session, outbox, sink, g, tables, id, ext, again);
    check, second := BadKey, UnmatchedKind;
    hide *;
    ghost var records, more;
    first, records := EraseSubject(session, outbox, sink, g, tables, id, ext, supply);
    if !first.Completed? {
      return;
    }
    ghost var after, rows' := session.db, outbox.rows;
    ghost var steps := |StepsUpTo(g, tables, |g.accesses|)|;
    check := VerifySubjectErased(session, sink, g, tables, id);
    AcceptedReads(g, id);
    if !check.Read? {
      return;
    }
    FreshAgain(rows, rows', Identity.Canonical(id), ext, again, first, steps);
    second, more := EraseSubject(session, outbox, sink, g, tables, id, again, supply');
    if second.Completed? {
      EnqueuedTwice(rows, rows', outbox.rows, Identity.Canonical(id), ext, again, first, second, steps);
      FaithfulConverge(session.schema, g, tables, id, ext, again, supply, supply', before, after, session.db, records,
                       more, first, check.verdict, second);
    }
  }

  lemma AcceptedReads(g: Graph, id: Identity.Identifier)
    ensures Accepted(g, id) ==> Identity.SubjectValues(|g.idColumns|, id).Values?
  {}

  lemma HinderedParts(session: Session, outbox: OutboxStore.Outbox, sink: AuditSink, g: Graph, tables: seq<TableEntry>,
                      id: Identity.Identifier, ext: External, again: External)
    ensures Unhindered(session, outbox, sink, g, tables, id, ext, again) ==>
              && Accepted(g, id) && Unfailing(session.schema, g, tables) && sink.NeverDown()
              && ext.Matched() && again.Matched() && KeysAfter(ext, again) && Below(outbox.rows, ext.first)
  {}

  lemma FaithfulConverge(schema: Schema, g: Graph, tables: seq<TableEntry>, id: Identity.Identifier, ext: External,
                         ext': External, supply: Surrogates, supply': Surrogates, before: Db, after: Db, again: Db,
                         records: seq<Record>, more: seq<Record>, first: ErasureResult, check: Verdict,
                         second: ErasureResult)
    requires Agree(g, tables) && NoConflicts(g, tables) && first.Completed? && second.Completed?
    requires Accepted(g, id) && Orderly(schema, g, tables) ==>
               && Faithful(g, tables, id, ext, supply, before, after, records, first)
               && Faithful(g, tables, id, ext', supply', after, again, more, second)
    requires ReadsBack(check, after, g, tables, Key(g, id))
    ensures Accepted(g, id) && Orderly(schema, g, tables) ==> Converged(first.counts, check, second.counts)
  {
    if Accepted(g, id) && Orderly(schema, g, tables) {
      Converge(g, tables, Key(g, id), supply, supply', before, after, again, first.counts, check, second.counts);
    }
  }
}

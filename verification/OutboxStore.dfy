/** The outbox table: rows of pending external calls, changed one transaction at a time. */
module OutboxStore {
  import opened Wrappers
  import opened Sorting

  datatype Operation = ERASE | RECTIFY

  datatype Status = PENDING | IN_FLIGHT | FAILED | SCHEDULED | SUCCEEDED | ABANDONED

  datatype Correction = Correction(category: string, value: string)

  datatype Entry = Entry(id: nat, subject: string, resolver: string, ref: string, operation: Operation,
                         corrections: seq<Correction>, status: Status, attempts: nat, enqueuedAt: int,
                         lastAttemptAt: Option<int>, nextAttemptAt: Option<int>, lastError: Option<string>)

  datatype Row = Row(subject: string, resolver: string, ref: string, operation: Operation,
                     payload: Option<seq<Correction>>, status: Status, attempts: nat, enqueuedAt: int,
                     lastAttemptAt: Option<int>, nextAttemptAt: Option<int>, lastError: Option<string>)

  type Rows = map<nat, Row>  // by entry id

  /** A trail event. `entry` is the row it is about. */
  datatype Event =
    | StepSucceeded(subject: string, operation: Operation, entry: nat, target: string, attempts: nat, alreadyDone: bool)
    | Completed(subject: string, operation: Operation)
    | ExpiryScheduled(subject: string, entry: nat, target: string, expiresAt: int, priorAttempts: nat)
    | StepAbandoned(subject: string, operation: Operation, entry: nat, target: string, attempts: nat, error: string)
    | Requeued(subject: string, entry: nat, target: string, priorAttempts: nat, priorError: Option<string>)
    | ReadBack(subject: string, entry: nat, target: string, confirmedAbsent: bool)

  // --- rows and entries --------------------------------------------------------------

  function RowOf(e: Entry): Row {
    Row(e.subject, e.resolver, e.ref, e.operation, if e.corrections != [] then Some(e.corrections) else None,
        e.status, e.attempts, e.enqueuedAt, e.lastAttemptAt, e.nextAttemptAt, e.lastError)
  }

  function EntryOf(id: nat, row: Row): Entry {
    Entry(id, row.subject, row.resolver, row.ref, row.operation, if row.payload.Some? then row.payload.value else [],
          row.status, row.attempts, row.enqueuedAt, row.lastAttemptAt, row.nextAttemptAt, row.lastError)
  }

  /** The two mappers are inverse, except that a stored empty payload reads back as none. */
  lemma RowMappingRoundTrips(e: Entry, id: nat, row: Row)
    ensures EntryOf(e.id, RowOf(e)) == e
    ensures RowOf(EntryOf(id, row)) == row <==> row.payload != Some([])
  {}

  /** A claimed entry, built from the row as it was before the claim. */
  function ClaimedEntry(id: nat, row: Row, now: int, lease: int): Entry {
    EntryOf(id, row).(status := IN_FLIGHT, attempts := row.attempts + 1,
                      lastAttemptAt := Some(now), nextAttemptAt := Some(now + lease))
  }

  function RequeuedEntry(id: nat, row: Row): Entry {
    EntryOf(id, row).(status := PENDING, attempts := 0, nextAttemptAt := None, lastError := None)
  }

  function RequeuedEvent(id: nat, row: Row): Event {
    Requeued(row.subject, id, row.resolver, row.attempts, row.lastError)
  }

  // --- what each transaction does to the rows ------------------------------------------

  predicate Terminal(s: Status) {
    s == SUCCEEDED || s == ABANDONED
  }

  predicate Due(row: Row, now: int) {
    !Terminal(row.status) && (row.nextAttemptAt.None? || row.nextAttemptAt.value <= now)
  }

  function ClaimRow(row: Row, now: int, lease: int): Row {
    row.(status := IN_FLIGHT, attempts := row.attempts + 1,
         lastAttemptAt := Some(now), nextAttemptAt := Some(now + lease))
  }

  function Claim(rows: Rows, ids: seq<nat>, now: int, lease: int): Rows {
    map id | id in rows :: if id in ids then ClaimRow(rows[id], now, lease) else rows[id]
  }

  function MarkedSucceeded(rows: Rows, id: nat): Rows {
    if id in rows then rows[id := rows[id].(status := SUCCEEDED, nextAttemptAt := None, lastError := None,
                                            payload := None)]
    else rows
  }

  function MarkedFailed(rows: Rows, id: nat, error: string, at: int): Rows {
    if id in rows then rows[id := rows[id].(status := FAILED, lastError := Some(error), nextAttemptAt := Some(at))]
    else rows
  }

  function MarkedScheduled(rows: Rows, id: nat, resumeAt: int): Rows {
    if id in rows
    then rows[id := rows[id].(status := SCHEDULED, attempts := 0, nextAttemptAt := Some(resumeAt), lastError := None)]
    else rows
  }

  function MarkedAbandoned(rows: Rows, id: nat, error: string): Rows {
    if id in rows
    then rows[id := rows[id].(status := ABANDONED, lastError := Some(error), nextAttemptAt := None, payload := None)]
    else rows
  }

  function RequeueRow(row: Row): Row {
    row.(status := PENDING, attempts := 0, nextAttemptAt := None, lastError := None)
  }

  function RequeuedRows(rows: Rows, ids: seq<nat>): Rows {
    map id | id in rows :: if id in ids then RequeueRow(rows[id]) else rows[id]
  }

  predicate InGroup(row: Row, subject: string, operation: Operation) {
    row.subject == subject && row.operation == operation
  }

  /** Every other row of the entry's subject and operation has succeeded. */
  predicate OthersSucceeded(rows: Rows, id: nat, subject: string, operation: Operation) {
    forall k :: k in rows && k != id && InGroup(rows[k], subject, operation) ==> rows[k].status == SUCCEEDED
  }

  // --- claiming: oldest first, skipping locked rows --------------------------------------

  predicate Claimable(rows: Rows, locked: set<nat>, now: int, id: nat) {
    id in rows && id !in locked && Due(rows[id], now)
  }

  predicate Older(rows: Rows, a: nat, b: nat) {
    && a in rows && b in rows
    && (rows[a].enqueuedAt < rows[b].enqueuedAt || (rows[a].enqueuedAt == rows[b].enqueuedAt && a < b))
  }

  predicate AllOlder(rows: Rows, ids: seq<nat>, id: nat) {
    forall k :: k in ids ==> Older(rows, k, id)
  }

  /** The batch: due, unlocked, in age order, no more than the limit, and nothing older left out. */
  ghost predicate OldestDue(rows: Rows, locked: set<nat>, now: int, limit: nat, ids: seq<nat>) {
    && |ids| <= limit
    && (forall k :: k in ids ==> Claimable(rows, locked, now, k))
    && (forall i, j :: 0 <= i < j < |ids| ==> Older(rows, ids[i], ids[j]))
    && (forall id :: Claimable(rows, locked, now, id) && id !in ids ==> |ids| == limit && AllOlder(rows, ids, id))
  }

  /** The entries handed out for the claimed rows. */
  ghost predicate ClaimedFrom(rows: Rows, batch: seq<Entry>, ids: seq<nat>, now: int, lease: int) {
    && |batch| == |ids|
    && (forall i :: 0 <= i < |ids| ==> ids[i] in rows && batch[i] == ClaimedEntry(ids[i], rows[ids[i]], now, lease))
    && (forall e :: e in batch ==> e.attempts >= 1)
  }

  /** What a batch is, in full: only unlocked rows that are unfinished and whose gate has passed, by the time
      they were enqueued and then by id, with nothing left out but what comes after a full batch. */
  lemma BatchIsOldestDue(rows: Rows, locked: set<nat>, now: int, limit: nat, ids: seq<nat>, id: nat)
    requires OldestDue(rows, locked, now, limit, ids) && id in rows && id !in locked
    ensures forall k :: k in ids ==>
              && k in rows && k !in locked && rows[k].status != SUCCEEDED && rows[k].status != ABANDONED
              && (rows[k].nextAttemptAt.Some? ==> rows[k].nextAttemptAt.value <= now)
    ensures forall i, j :: 0 <= i < j < |ids| ==>
              && rows[ids[i]].enqueuedAt <= rows[ids[j]].enqueuedAt
              && (rows[ids[i]].enqueuedAt == rows[ids[j]].enqueuedAt ==> ids[i] < ids[j])
    ensures id !in ids && rows[id].status != SUCCEEDED && rows[id].status != ABANDONED
            && (rows[id].nextAttemptAt.None? || rows[id].nextAttemptAt.value <= now) ==>
              && |ids| == limit
              && forall k :: k in ids ==> rows[k].enqueuedAt < rows[id].enqueuedAt
                                          || (rows[k].enqueuedAt == rows[id].enqueuedAt && k < id)
  {
    forall i, j | 0 <= i < j < |ids|
      ensures ids[i] in rows && ids[j] in rows && rows[ids[i]].enqueuedAt <= rows[ids[j]].enqueuedAt
      ensures rows[ids[i]].enqueuedAt == rows[ids[j]].enqueuedAt ==> ids[i] < ids[j]
    {
      assert Older(rows, ids[i], ids[j]);
    }
    assert Claimable(rows, locked, now, id) && id !in ids ==> AllOlder(rows, ids, id);
  }

  method PickOldest(rows: Rows, ids: set<nat>) returns (oldest: nat)
    requires ids != {} && forall k :: k in ids ==> k in rows
    ensures oldest in ids && forall k :: k in ids && k != oldest ==> Older(rows, oldest, k)
  {
    oldest :| oldest in ids;
    var left := ids - {oldest};
    while left != {}
      invariant left <= ids && oldest in ids - left
      invariant forall k :: k in ids - left && k != oldest ==> Older(rows, oldest, k)
    {
      var k :| k in left;
      assert forall x :: x in ids - (left - {k}) ==> x in ids - left || x == k;
      assert k in rows && oldest in rows && k != oldest;
      if Older(rows, k, oldest) {
        oldest := k;
      }
      left := left - {k};
    }
  }

  // --- the trail sink ---------------------------------------------------------------------

  /** An append-only sink that accepts `room` more events and then is down. */
  class EventSink {
    var log: seq<Event>
    var room: nat

    constructor (room: nat)
      ensures log == [] && this.room == room
    {
      this.room, log := room, [];
    }

    method Append(e: Event) returns (ok: bool)
      modifies this
      ensures ok <==> old(room) > 0
      ensures ok ==> log == old(log) + [e] && room == old(room) - 1
      ensures !ok ==> log == old(log) && room == old(room)
    {
      ok := room > 0;
      if ok {
        log, room := log + [e], room - 1;
      }
    }
  }

  datatype RequeueResult = Flipped(entries: seq<Entry>) | RectifyRefused | SinkDown

  /** Which ids of a list a transaction locks: those of existing rows, once each, ascending. */
  ghost predicate LockOrder(rows: Rows, ids: seq<nat>, locked: seq<nat>) {
    && (forall k :: k in locked <==> k in ids && k in rows)
    && (forall i, j :: 0 <= i < j < |locked| ==> locked[i] < locked[j])
  }

  function AbandonedAmong(rows: Rows, locked: seq<nat>): (r: seq<nat>)
    requires forall k :: k in locked ==> k in rows
    ensures forall k :: k in r ==> k in rows && rows[k].status == ABANDONED
  {
    if locked == [] then []
    else
      var before, last := AbandonedAmong(rows, locked[..|locked| - 1]), locked[|locked| - 1];
      if rows[last].status == ABANDONED then before + [last] else before
  }

  lemma {:induction false} AbandonedMembers(rows: Rows, locked: seq<nat>, id: nat)
    requires forall k :: k in locked ==> k in rows
    ensures id in AbandonedAmong(rows, locked) <==> id in locked && rows[id].status == ABANDONED
  {
    if locked != [] {
      AbandonedMembers(rows, locked[..|locked| - 1], id);
      assert locked == locked[..|locked| - 1] + [locked[|locked| - 1]];
    }
  }

  /** An abandoned row that was asked for waits again with nothing spent and no error; no other changes. */
  predicate Reopened(before: Row, after: Row, asked: bool) {
    match before.status
    case ABANDONED =>
      after == if asked then before.(status := PENDING, attempts := 0, nextAttemptAt := None, lastError := None)
               else before
    case _ => after == before
  }

  /** The events tell, in lock order, what each row had spent and why it had ended. */
  lemma {:induction false} RequeueTells(rows: Rows, ids: seq<nat>, i: nat)
    requires (forall k :: k in ids ==> k in rows) && i < |ids|
    ensures |RequeuedEvents(rows, ids)| == |ids| && RequeuedEvents(rows, ids)[i].Requeued?
    ensures var row, e := rows[ids[i]], RequeuedEvents(rows, ids)[i];
            && e.entry == ids[i] && e.subject == row.subject && e.target == row.resolver
            && e.priorAttempts == row.attempts && e.priorError == row.lastError
  {}

  function RequeuedEvents(rows: Rows, ids: seq<nat>): seq<Event>
    requires forall k :: k in ids ==> k in rows
  {
    seq(|ids|, i requires 0 <= i < |ids| => RequeuedEvent(ids[i], rows[ids[i]]))
  }

  predicate HasId(entries: seq<Entry>, id: nat) {
    exists e :: e in entries && e.id == id
  }

  /** No id is already in the table or in the list before it. */
  predicate FreshIds(rows: Rows, entries: seq<Entry>) {
    entries == [] ||
    var before, last := entries[..|entries| - 1], entries[|entries| - 1];
    FreshIds(rows, before) && last.id !in rows && !HasId(before, last.id)
  }

  function Inserted(rows: Rows, entries: seq<Entry>): Rows {
    if entries == [] then rows
    else Inserted(rows, entries[..|entries| - 1])[entries[|entries| - 1].id := RowOf(entries[|entries| - 1])]
  }

  lemma {:induction false} InsertedMembers(rows: Rows, entries: seq<Entry>, id: nat)
    ensures id in Inserted(rows, entries) <==> id in rows || HasId(entries, id)
  {
    if entries != [] {
      InsertedMembers(rows, entries[..|entries| - 1], id);
      assert entries == entries[..|entries| - 1] + [entries[|entries| - 1]];
    }
  }

  lemma FreshSnoc(rows: Rows, entries: seq<Entry>, e: Entry)
    ensures FreshIds(rows, entries + [e]) <==> FreshIds(rows, entries) && e.id !in rows && !HasId(entries, e.id)
    ensures Inserted(rows, entries + [e]) == Inserted(rows, entries)[e.id := RowOf(e)]
  {
    assert (entries + [e])[..|entries|] == entries;
  }

  lemma {:induction false} StaleStays(rows: Rows, entries: seq<Entry>, n: nat)
    requires n <= |entries| && !FreshIds(rows, entries[..n])
    ensures !FreshIds(rows, entries)
    decreases |entries|
  {
    if n < |entries| {
      assert entries[..|entries| - 1][..n] == entries[..n];
      StaleStays(rows, entries[..|entries| - 1], n);
    } else {
      assert entries[..n] == entries;
    }
  }

  /** Fresh ids are ids of their own that the table does not hold. */
  lemma {:induction false} FreshExactly(rows: Rows, entries: seq<Entry>)
    ensures FreshIds(rows, entries)
            <==> && (forall i :: 0 <= i < |entries| ==> entries[i].id !in rows)
                 && (forall i, j :: 0 <= i < j < |entries| ==> entries[i].id != entries[j].id)
  {
    if entries != [] {
      var n := |entries| - 1;
      FreshExactly(rows, entries[..n]);
      assert HasId(entries[..n], entries[n].id) <==> exists i :: 0 <= i < n && entries[i].id == entries[n].id by {
        forall i | 0 <= i < n && entries[i].id == entries[n].id ensures HasId(entries[..n], entries[n].id) {
          assert entries[i] in entries[..n];
        }
      }
    }
  }

  /** Enqueued rows are the entries' own, and no other row changes. */
  lemma {:induction false} InsertedHolds(rows: Rows, entries: seq<Entry>)
    requires FreshIds(rows, entries)
    ensures forall e :: e in entries ==> e.id in Inserted(rows, entries) && Inserted(rows, entries)[e.id] == RowOf(e)
    ensures forall id :: id in rows ==> id in Inserted(rows, entries) && Inserted(rows, entries)[id] == rows[id]
    ensures forall id :: id in Inserted(rows, entries) ==> id in rows || HasId(entries, id)
  {
    if entries != [] {
      var before, last := entries[..|entries| - 1], entries[|entries| - 1];
      assert entries == before + [last];
      InsertedHolds(rows, before);
      forall e | e in before ensures e.id != last.id {
        assert HasId(before, e.id);
      }
      forall id | id in Inserted(rows, entries) ensures id in rows || HasId(entries, id) {
        InsertedMembers(rows, entries, id);
      }
    }
  }

  class Outbox {
    var rows: Rows

    constructor ()
      ensures rows == map[]
    {
      rows := map[];
    }

    /** Inserts into the caller's transaction; a repeated id is refused by the primary key. */
    method Enqueue(entries: seq<Entry>) returns (ok: bool)
      modifies this
      ensures ok <==> FreshIds(old(rows), entries)
      ensures rows == if ok then Inserted(old(rows), entries) else old(rows)
    {
      var after := rows;
      for i := 0 to |entries|
        invariant rows == old(rows)
        invariant FreshIds(rows, entries[..i]) && after == Inserted(rows, entries[..i])
      {
        assert entries[..i + 1] == entries[..i] + [entries[i]] && entries[..i + 1][..i] == entries[..i];
        InsertedMembers(rows, entries[..i], entries[i].id);
        FreshSnoc(rows, entries[..i], entries[i]);
        if entries[i].id in after {
          StaleStays(rows, entries, i + 1);
          return false;
        }
        after := after[entries[i].id := RowOf(entries[i])];
      }
      assert entries[..|entries|] == entries;
      ok, rows := true, after;
    }

    /** Claims up to `limit` due rows, oldest first, skipping rows others hold locked; the entries
        returned are the rows as they now stand. */
    method ClaimBatch(limit: nat, lease: int, now: int, locked: set<nat>) returns (batch: seq<Entry>, ids: seq<nat>)
      modifies this
      ensures OldestDue(old(rows), locked, now, limit, ids)
      ensures rows == Claim(old(rows), ids, now, lease)
      ensures ClaimedFrom(old(rows), batch, ids, now, lease)
      ensures forall i :: 0 <= i < |ids| ==> ids[i] in rows && batch[i] == EntryOf(ids[i], rows[ids[i]])
      ensures forall k :: k in old(rows) && k in ids ==>
                rows[k] == old(rows)[k].(status := IN_FLIGHT, attempts := old(rows)[k].attempts + 1,
                                         lastAttemptAt := Some(now), nextAttemptAt := Some(now + lease))
      ensures rows.Keys == old(rows).Keys && forall k :: k in old(rows) && k !in ids ==> rows[k] == old(rows)[k]
    {
      var before := rows;
      var left := set id | id in before && Claimable(before, locked, now, id);
      ids := [];
      while |ids| < limit && left != {}
        invariant |ids| <= limit
        invariant forall k :: k in ids ==> Claimable(before, locked, now, k)
        invariant forall i, j :: 0 <= i < j < |ids| ==> Older(before, ids[i], ids[j])
        invariant forall k :: k in left <==> Claimable(before, locked, now, k) && k !in ids
        invariant forall k :: k in left ==> AllOlder(before, ids, k)
        decreases left
      {
        var k := PickOldest(before, left);
        ids, left := ids + [k], left - {k};
      }
      assert forall i :: 0 <= i < |ids| ==> Claimable(before, locked, now, ids[i]);
      var chosen := ids;
      batch := seq(|chosen|, i requires 0 <= i < |chosen| && chosen[i] in before =>
                     ClaimedEntry(chosen[i], before[chosen[i]], now, lease));
      rows := Claim(before, ids, now, lease);
    }

    /** Marks the entry succeeded and, when that was the last of its subject and operation, has
        the completion appended inside the same transaction: if that fails neither happens. */
    method MarkSucceeded(e: Entry, sink: EventSink, completion: Event) returns (ok: bool)
      modifies this, sink
      ensures var last := OthersSucceeded(old(rows), e.id, e.subject, e.operation);
              && (ok <==> (last ==> old(sink.room) > 0))
              && rows == (if ok then MarkedSucceeded(old(rows), e.id) else old(rows))
              && sink.log == old(sink.log) + (if last && ok then [completion] else [])
              && sink.room == old(sink.room) - (if last && ok then 1 else 0)
    {
      ok := true;
      var before := rows;
      var statuses := map k | k in rows && InGroup(rows[k], e.subject, e.operation) :: rows[k].status;
      if e.id in rows {
        rows := rows[e.id := rows[e.id].(status := SUCCEEDED, nextAttemptAt := None, lastError := None,
                                         payload := None)];
      }
      statuses := statuses[e.id := SUCCEEDED];
      if forall k :: k in statuses ==> statuses[k] == SUCCEEDED {
        forall k | k in before && k != e.id && InGroup(before[k], e.subject, e.operation)
          ensures before[k].status == SUCCEEDED
        {
          assert k in statuses;
        }
        ok := sink.Append(completion);
        if !ok {
          rows := before;
        }
      }
    }

    method MarkFailed(id: nat, error: string, at: int)
      modifies this
      ensures rows == MarkedFailed(old(rows), id, error, at)
    {
      Update(id, FAILED, error, Some(at), false);
    }

    method MarkScheduled(id: nat, resumeAt: int)
      modifies this
      ensures rows == MarkedScheduled(old(rows), id, resumeAt)
    {
      if id in rows {
        rows := rows[id := rows[id].(status := SCHEDULED, attempts := 0, nextAttemptAt := Some(resumeAt),
                                     lastError := None)];
      }
    }

    /** Moves one row to a status; a retryable failure keeps its payload, a terminal one clears it. */
    method Update(id: nat, status: Status, error: string, at: Option<int>, clearPayload: bool)
      modifies this
      ensures rows.Keys == old(rows).Keys
      ensures forall k :: k in rows && k != id ==> rows[k] == old(rows)[k]
      ensures id in rows ==>
                rows[id] == old(rows)[id].(status := status, lastError := Some(error), nextAttemptAt := at,
                                           payload := if clearPayload then None else old(rows)[id].payload)
    {
      if id in rows {
        var row := rows[id].(status := status, lastError := Some(error), nextAttemptAt := at);
        if clearPayload {
          row := row.(payload := None);
        }
        rows := rows[id := row];
      }
    }

    method MarkAbandoned(id: nat, error: string)
      modifies this
      ensures rows == MarkedAbandoned(old(rows), id, error)
    {
      Update(id, ABANDONED, error, None, true);
    }

    /** Returns abandoned erasures to the queue with a fresh budget. Missing and no longer
        abandoned ids are skipped, an abandoned rectification refuses the whole call before any
        event or change, and every event precedes every flip: a sink that fails part way leaves
        events but no flipped row. */
    method Requeue(ids: seq<nat>, sink: EventSink) returns (r: RequeueResult, ghost locked: seq<nat>)
      modifies this, sink
      ensures LockOrder(old(rows), ids, locked)
      ensures var abandoned := AbandonedAmong(old(rows), locked);
              && (r.RectifyRefused? <==> exists id :: id in abandoned && old(rows)[id].operation == RECTIFY)
              && (r.RectifyRefused? ==> rows == old(rows) && sink.log == old(sink.log))
              && (r.SinkDown? ==>
                    && rows == old(rows)
                    && old(sink.room) < |abandoned|
                    && sink.log == old(sink.log) + RequeuedEvents(old(rows), abandoned)[..old(sink.room)])
              && (r.Flipped? ==>
                    && rows == RequeuedRows(old(rows), abandoned)
                    && sink.log == old(sink.log) + RequeuedEvents(old(rows), abandoned)
                    && |r.entries| == |abandoned|
                    && forall i :: 0 <= i < |abandoned| ==> r.entries[i] == EntryOf(abandoned[i], rows[abandoned[i]]))
      ensures r.Flipped? ==>
                && rows.Keys == old(rows).Keys
                && forall k :: k in rows ==> Reopened(old(rows)[k], rows[k], k in ids)
    {
      var before := rows;
      var lockedRows := LockRows(rows, ids);
      locked := lockedRows;
      var abandoned := AbandonedAmong(rows, lockedRows);
      forall id ensures id in abandoned <==> id in lockedRows && rows[id].status == ABANDONED {
        AbandonedMembers(rows, lockedRows, id);
      }
      if exists id :: id in abandoned && rows[id].operation == RECTIFY {
        return RectifyRefused, locked;
      }
      ghost var events := RequeuedEvents(rows, abandoned);
      for i := 0 to |abandoned|
        invariant rows == old(rows)
        invariant sink.log == old(sink.log) + events[..i] && sink.room == old(sink.room) - i
      {
        var ok := sink.Append(RequeuedEvent(abandoned[i], rows[abandoned[i]]));
        if !ok {
          return SinkDown, locked;
        }
        assert events[..i + 1] == events[..i] + [events[i]];
      }
      assert events[..|events|] == events;
      var entries := seq(|abandoned|, i requires 0 <= i < |abandoned| && abandoned[i] in before =>
        RequeuedEntry(abandoned[i], before[abandoned[i]]));
      rows := RequeuedRows(rows, abandoned);
      r := Flipped(entries);
    }
  }

  predicate Ascending(a: nat, b: nat) {
    a <= b
  }

  /** SELECT … WHERE id IN (…) ORDER BY id FOR UPDATE. */
  method LockRows(rows: Rows, ids: seq<nat>) returns (locked: seq<nat>)
    ensures LockOrder(rows, ids, locked)
  {
    var found: seq<nat> := [];
    for i := 0 to |ids|
      invariant NoRepeats(found)
      invariant forall k :: k in found <==> k in ids[..i] && k in rows
    {
      if ids[i] in rows && ids[i] !in found {
        found := found + [ids[i]];
      }
    }
    assert TotalPreorder(Ascending);
    SortSorts(found, Ascending);
    SortKeepsDistinct(found, Ascending);
    locked := Sort(found, Ascending);
  }
}

/** The saga runner: claims a batch, calls each entry's resolver, and books each outcome. */
module Runner {
  import opened Wrappers
  import opened Backoff
  import opened OutboxStore

  // --- dispatch ------------------------------------------------------------------------

  /** What a registered resolver can do besides erase. */
  datatype Capability = Capability(retentionOnly: bool, rectifying: bool, verifying: bool)

  type Registry = map<string, Capability>

  datatype Call = Unknown | CannotRectify | Rectify | Schedule | Erase(verify: bool)

  function CallFor(registry: Registry, resolver: string, operation: Operation): Call {
    if resolver !in registry then Unknown
    else
      var c := registry[resolver];
      if operation == RECTIFY then (if c.rectifying then Rectify else CannotRectify)
      else if c.retentionOnly then Schedule
      else Erase(c.verifying)
  }

  /** How one call ended. `Refused` is the non-retryable error, `Interrupted` a cancellation. */
  datatype Outcome =
    | Erased(alreadyAbsent: bool, verification: Option<bool>)
    | Rectified(alreadyConsistent: bool)
    | Expiry(expiresAt: Option<int>)
    | Refused(error: string)
    | Transient(error: string)
    | Interrupted

  /** The outcomes each call can have. A read-back that itself fails is dropped. */
  predicate Answers(call: Call, o: Outcome) {
    match call
    case Unknown => o.Refused?
    case CannotRectify => o.Refused?
    case Rectify => o.Rectified? || Failed(o)
    case Schedule => o.Expiry? || Failed(o)
    case Erase(verify) => (o.Erased? && (o.verification.Some? ==> verify)) || Failed(o)
  }

  predicate Failed(o: Outcome) {
    o.Refused? || o.Transient? || o.Interrupted?
  }

  /** Which answers an entry can get, by what its resolver can do: an unregistered resolver, or one that
      cannot rectify, only refuses; exactly a retention-only resolver answers with an expiry, and never
      reports an erasure; a read-back comes only from one that can verify. */
  lemma AnswersByCapability(registry: Registry, resolver: string, operation: Operation, o: Outcome)
    ensures var known := resolver in registry;
            Answers(CallFor(registry, resolver, operation), o)
            <==> match o
                 case Erased(_, verification) =>
                   && operation == ERASE && known && !registry[resolver].retentionOnly
                   && (verification.Some? ==> registry[resolver].verifying)
                 case Rectified(_) => operation == RECTIFY && known && registry[resolver].rectifying
                 case Expiry(_) => operation == ERASE && known && registry[resolver].retentionOnly
                 case Refused(_) => true
                 case Transient(_) => known && (operation == RECTIFY ==> registry[resolver].rectifying)
                 case Interrupted => known && (operation == RECTIFY ==> registry[resolver].rectifying)
  {}

  // --- booking -----------------------------------------------------------------------------

  datatype Config = Config(maxAttempts: int, policy: Policy)

  datatype Verdict = Succeed | Park(expiresAt: int) | Abandon(error: string) | Retry(error: string) | Propagate

  function Judge(cfg: Config, attempts: nat, o: Outcome): Verdict {
    match o
    case Erased(_, _) => Succeed
    case Rectified(_) => Succeed
    case Expiry(at) => if at.Some? then Park(at.value) else Succeed
    case Refused(error) => Abandon(error)
    case Transient(error) => if attempts >= cfg.maxAttempts then Abandon(error) else Retry(error)
    case Interrupted => Propagate
  }

  /** The event that must be in the trail before the row's status changes. */
  function StepEvent(e: Entry, v: Verdict, o: Outcome): seq<Event> {
    match v
    case Succeed => [SuccessEvent(e, o)]
    case Park(at) => [ExpiryScheduled(e.subject, e.id, e.resolver, at, e.attempts)]
    case Abandon(error) => [StepAbandoned(e.subject, e.operation, e.id, e.resolver, e.attempts, error)]
    case Retry(_) => []
    case Propagate => []
  }

  /** The operation a success is recorded under follows the kind of the answer. */
  function OperationOf(o: Outcome): Operation {
    if o.Rectified? then RECTIFY else ERASE
  }

  function SuccessEvent(e: Entry, o: Outcome): Event {
    StepSucceeded(e.subject, OperationOf(o), e.id, e.resolver, e.attempts,
                  if o.Rectified? then o.alreadyConsistent else if o.Erased? then o.alreadyAbsent else true)
  }

  function CompletionEvent(e: Entry, o: Outcome): Event {
    Completed(e.subject, OperationOf(o))
  }

  function ResumeAt(cfg: Config, attempts: nat, expiresAt: int, now: int): int
    requires attempts >= 1
  {
    Max(expiresAt, now + cfg.policy.Wait(attempts))
  }

  /** The rows after a verdict is booked. */
  function Mark(cfg: Config, rows: Rows, id: nat, attempts: nat, v: Verdict, now: int): Rows
    requires attempts >= 1
  {
    match v
    case Succeed => MarkedSucceeded(rows, id)
    case Park(at) => MarkedScheduled(rows, id, ResumeAt(cfg, attempts, at, now))
    case Abandon(error) => MarkedAbandoned(rows, id, error)
    case Retry(error) => MarkedFailed(rows, id, error, now + cfg.policy.Wait(attempts))
    case Propagate => rows
  }

  /** The events appended inside the marking transaction. */
  function InTransaction(rows: Rows, e: Entry, v: Verdict, o: Outcome): seq<Event> {
    if v.Succeed? && OthersSucceeded(rows, e.id, e.subject, e.operation) then [CompletionEvent(e, o)] else []
  }

  /** The read-back verdict, noted after the entry is settled and dropped if the sink is down. */
  function AfterEvents(e: Entry, o: Outcome): seq<Event> {
    if o.Erased? && o.verification.Some? then [ReadBack(e.subject, e.id, e.resolver, o.verification.value)] else []
  }

  datatype Books = Books(rows: Rows, log: seq<Event>, room: nat)

  /** One entry booked against a sink with limited room: the row changes only once its event, and
      its completion if it has one, are in the trail. */
  function SettleOne(cfg: Config, b: Books, e: Entry, o: Outcome, now: int): (Books, bool)
    requires e.attempts >= 1
  {
    var v := Judge(cfg, e.attempts, o);
    var first := StepEvent(e, v, o) + InTransaction(b.rows, e, v, o);
    if v.Propagate? then (b, true)
    else if b.room < |first| then (Books(b.rows, b.log + first[..b.room], 0), true)
    else
      var rest := if b.room > |first| then AfterEvents(e, o) else [];
      (Books(Mark(cfg, b.rows, e.id, e.attempts, v, now), b.log + first + rest, b.room - |first| - |rest|), false)
  }

  lemma SettleOther(cfg: Config, b: Books, e: Entry, o: Outcome, now: int)
    requires e.attempts >= 1 && !Judge(cfg, e.attempts, o).Succeed?
    ensures var v := Judge(cfg, e.attempts, o);
            SettleOne(cfg, b, e, o, now) ==
            if v.Propagate? then (b, true)
            else if v.Retry? then (Books(Mark(cfg, b.rows, e.id, e.attempts, v, now), b.log, b.room), false)
            else if b.room == 0 then (b, true)
            else (Books(Mark(cfg, b.rows, e.id, e.attempts, v, now), b.log + StepEvent(e, v, o), b.room - 1), false)
  {
    var v := Judge(cfg, e.attempts, o);
    assert StepEvent(e, v, o) + InTransaction(b.rows, e, v, o) == StepEvent(e, v, o);
    assert StepEvent(e, v, o)[..0] == [];
    assert b.log + [] == b.log;
    assert b.log + StepEvent(e, v, o) + [] == b.log + StepEvent(e, v, o);
  }

  predicate Gated(row: Row, from: int) {
    row.nextAttemptAt.Some? && row.nextAttemptAt.value >= from
  }

  /** What the resolver contract makes of an entry's row: done means succeeded, a horizon parks the entry
      until then with a fresh budget, a refusal ends it, and any other error ends it exactly when the
      budget is spent and otherwise backs it off. */
  predicate RowFits(cfg: Config, e: Entry, o: Outcome, now: int, before: Row, after: Row)
    requires e.attempts >= 1
  {
    match o
    case Erased(_, _) =>
      after == before.(status := SUCCEEDED, nextAttemptAt := None, lastError := None, payload := None)
    case Rectified(_) =>
      after == before.(status := SUCCEEDED, nextAttemptAt := None, lastError := None, payload := None)
    case Expiry(None) =>
      after == before.(status := SUCCEEDED, nextAttemptAt := None, lastError := None, payload := None)
    case Expiry(Some(horizon)) =>
      && after == before.(status := SCHEDULED, attempts := 0, nextAttemptAt := after.nextAttemptAt, lastError := None)
      && Gated(after, horizon) && Gated(after, now + cfg.policy.Wait(e.attempts))
      && after.nextAttemptAt.value in [horizon, now + cfg.policy.Wait(e.attempts)]
    case Refused(error) =>
      after == before.(status := ABANDONED, nextAttemptAt := None, lastError := Some(error), payload := None)
    case Transient(error) =>
      && (after.status == ABANDONED || after.status == FAILED)
      && (after.status == ABANDONED <==> e.attempts >= cfg.maxAttempts)
      && (after.status == ABANDONED ==>
            after == before.(status := ABANDONED, nextAttemptAt := None, lastError := Some(error), payload := None))
      && (after.status == FAILED ==>
            after == before.(status := FAILED, lastError := Some(error), nextAttemptAt := after.nextAttemptAt)
            && after.nextAttemptAt == Some(now + cfg.policy.Wait(e.attempts)))
    case Interrupted => false
  }

  /** And of the trail: the answer is told as it was given, under the operation it completes. A read-back
      is told only if the resolver gave one, with its own verdict. */
  predicate EventsFit(cfg: Config, e: Entry, o: Outcome, added: seq<Event>) {
    match o
    case Erased(absent, verification) =>
      && added != [] && added[0] == StepSucceeded(e.subject, ERASE, e.id, e.resolver, e.attempts, absent)
      && (forall ev :: ev in added && ev.ReadBack? ==>
            verification == Some(ev.confirmedAbsent) && ev == ReadBack(e.subject, e.id, e.resolver, ev.confirmedAbsent))
      && (forall ev :: ev in added && ev.Completed? ==> ev == Completed(e.subject, ERASE))
    case Rectified(consistent) =>
      && added != [] && added[0] == StepSucceeded(e.subject, RECTIFY, e.id, e.resolver, e.attempts, consistent)
      && (forall ev :: ev in added && ev.Completed? ==> ev == Completed(e.subject, RECTIFY))
    case Expiry(None) =>
      && added != [] && added[0] == StepSucceeded(e.subject, ERASE, e.id, e.resolver, e.attempts, true)
      && (forall ev :: ev in added && ev.Completed? ==> ev == Completed(e.subject, ERASE))
    case Expiry(Some(horizon)) => added == [ExpiryScheduled(e.subject, e.id, e.resolver, horizon, e.attempts)]
    case Refused(error) => added == [StepAbandoned(e.subject, e.operation, e.id, e.resolver, e.attempts, error)]
    case Transient(error) =>
      if e.attempts >= cfg.maxAttempts
      then added == [StepAbandoned(e.subject, e.operation, e.id, e.resolver, e.attempts, error)]
      else added == []
    case Interrupted => false
  }

  /** When a booking raises: on a cancelled call, and when the sink has no room for what must be in the trail
      before the row may change, which for the last sibling's success is its completion too. */
  predicate Unbookable(cfg: Config, rows: Rows, room: nat, e: Entry, o: Outcome) {
    match o
    case Interrupted => true
    case Transient(_) => e.attempts >= cfg.maxAttempts && room == 0
    case Refused(_) => room == 0
    case Expiry(Some(_)) => room == 0
    case _ =>
      if forall k :: k in rows && k != e.id && rows[k].subject == e.subject && rows[k].operation == e.operation ==>
           rows[k].status == SUCCEEDED
      then room < 2 else room < 1
  }

  /** An entry that is booked is booked as its resolver answered, and one that is not keeps its row. */
  lemma BookedAsAnswered(cfg: Config, b: Books, e: Entry, o: Outcome, now: int)
    requires e.attempts >= 1
    ensures var (b', raised) := SettleOne(cfg, b, e, o, now);
            (raised <==> Unbookable(cfg, b.rows, b.room, e, o)) && (raised ==> b'.rows == b.rows && b.log <= b'.log)
    ensures var (b', raised) := SettleOne(cfg, b, e, o, now);
            !raised && e.id in b.rows ==>
              && e.id in b'.rows && b.log <= b'.log
              && RowFits(cfg, e, o, now, b.rows[e.id], b'.rows[e.id])
              && EventsFit(cfg, e, o, b'.log[|b.log|..])
    ensures var (b', raised) := SettleOne(cfg, b, e, o, now);
            !raised && o.Erased? && o.verification.Some? && b'.room > 0 ==>
              b'.log != [] && b'.log[|b'.log| - 1].ReadBack?
  {
    hide *;
    SettleRaises(cfg, b, e, o, now);
    SettleTells(cfg, b, e, o, now);
    if !SettleOne(cfg, b, e, o, now).1 && e.id in b.rows { SettleMarks(cfg, b, e, o, now); }
  }

  lemma SettleTells(cfg: Config, b: Books, e: Entry, o: Outcome, now: int)
    requires e.attempts >= 1
    ensures var (b', raised) := SettleOne(cfg, b, e, o, now);
            !raised ==> b.log <= b'.log && EventsFit(cfg, e, o, b'.log[|b.log|..])
    ensures var (b', raised) := SettleOne(cfg, b, e, o, now);
            !raised && o.Erased? && o.verification.Some? && b'.room > 0 ==>
              b'.log != [] && b'.log[|b'.log| - 1].ReadBack?
  {
    hide OthersSucceeded, Mark;
  }

  lemma SettleMarks(cfg: Config, b: Books, e: Entry, o: Outcome, now: int)
    requires e.attempts >= 1 && !SettleOne(cfg, b, e, o, now).1 && e.id in b.rows
    ensures var b' := SettleOne(cfg, b, e, o, now).0;
            e.id in b'.rows && RowFits(cfg, e, o, now, b.rows[e.id], b'.rows[e.id])
  {
    hide StepEvent, InTransaction, AfterEvents;
  }

  lemma SettleRaises(cfg: Config, b: Books, e: Entry, o: Outcome, now: int)
    requires e.attempts >= 1
    ensures var (b', raised) := SettleOne(cfg, b, e, o, now);
            (raised <==> Unbookable(cfg, b.rows, b.room, e, o)) && (raised ==> b'.rows == b.rows && b.log <= b'.log)
  {
    hide AfterEvents, Mark;
  }

  method Settle(outbox: Outbox, sink: EventSink, cfg: Config, e: Entry, o: Outcome, now: int) returns (raised: bool)
    requires cfg.policy.Valid() && e.attempts >= 1
    modifies outbox, sink
    ensures (Books(outbox.rows, sink.log, sink.room), raised)
            == SettleOne(cfg, old(Books(outbox.rows, sink.log, sink.room)), e, o, now)
    ensures raised <==> Unbookable(cfg, old(outbox.rows), old(sink.room), e, o)
    ensures raised ==> outbox.rows == old(outbox.rows) && old(sink.log) <= sink.log
    ensures !raised && e.id in old(outbox.rows) ==>
              && e.id in outbox.rows && old(sink.log) <= sink.log
              && RowFits(cfg, e, o, now, old(outbox.rows)[e.id], outbox.rows[e.id])
              && EventsFit(cfg, e, o, sink.log[|old(sink.log)|..])
    ensures !raised && o.Erased? && o.verification.Some? && sink.room > 0 ==>
              sink.log != [] && sink.log[|sink.log| - 1].ReadBack?
  {
    hide RowFits, EventsFit, Unbookable, InTransaction, AfterEvents, SuccessEvent;
    hide MarkedSucceeded, MarkedScheduled, MarkedAbandoned, MarkedFailed;
    BookedAsAnswered(cfg, Books(outbox.rows, sink.log, sink.room), e, o, now);
    raised := false;
    if !Judge(cfg, e.attempts, o).Succeed? {
      SettleOther(cfg, Books(outbox.rows, sink.log, sink.room), e, o, now);
    }
    match o {
      case Expiry(at) =>
        if at.Some? {
          raised := ParkEntry(outbox, sink, cfg, e, at.value, now);
        } else {
          raised := SucceedEntry(outbox, sink, e, o);
        }
      case Erased(_, _) => raised := SucceedEntry(outbox, sink, e, o);
      case Rectified(_) => raised := SucceedEntry(outbox, sink, e, o);
      case Refused(error) => raised := AbandonEntry(outbox, sink, e, error);
      case Transient(error) =>
        if e.attempts >= cfg.maxAttempts {
          raised := AbandonEntry(outbox, sink, e, error);
        } else {
          var delay, _ := cfg.policy.Delay(e.attempts);
          outbox.MarkFailed(e.id, error, now + delay.value);
        }
      case Interrupted => raised := true;
    }
  }

  method SucceedEntry(outbox: Outbox, sink: EventSink, e: Entry, o: Outcome) returns (raised: bool)
    requires !Failed(o)
    modifies outbox, sink
    ensures var first := [SuccessEvent(e, o)] + InTransaction(old(outbox.rows), e, Succeed, o);
            && (raised <==> old(sink.room) < |first|)
            && outbox.rows == (if raised then old(outbox.rows) else MarkedSucceeded(old(outbox.rows), e.id))
            && (raised ==> sink.log == old(sink.log) + first[..old(sink.room)] && sink.room == 0)
            && (!raised ==>
                  var rest := if old(sink.room) > |first| then AfterEvents(e, o) else [];
                  sink.log == old(sink.log) + first + rest && sink.room == old(sink.room) - |first| - |rest|)
  {
    var ok := sink.Append(SuccessEvent(e, o));
    if !ok {
      return true;
    }
    ok := outbox.MarkSucceeded(e, sink, CompletionEvent(e, o));
    if !ok {
      return true;
    }
    if o.Erased? && o.verification.Some? {
      ok := sink.Append(ReadBack(e.subject, e.id, e.resolver, o.verification.value));
    }
    raised := false;
  }

  method ParkEntry(outbox: Outbox, sink: EventSink, cfg: Config, e: Entry, expiresAt: int, now: int)
    returns (raised: bool)
    requires cfg.policy.Valid() && e.attempts >= 1
    modifies outbox, sink
    ensures raised <==> old(sink.room) == 0
    ensures raised ==> outbox.rows == old(outbox.rows) && sink.log == old(sink.log) && sink.room == 0
    ensures !raised ==>
              && outbox.rows == MarkedScheduled(old(outbox.rows), e.id, ResumeAt(cfg, e.attempts, expiresAt, now))
              && sink.log == old(sink.log) + [ExpiryScheduled(e.subject, e.id, e.resolver, expiresAt, e.attempts)]
              && sink.room == old(sink.room) - 1
  {
    var ok := sink.Append(ExpiryScheduled(e.subject, e.id, e.resolver, expiresAt, e.attempts));
    if !ok {
      return true;
    }
    var delay, _ := cfg.policy.Delay(e.attempts);
    outbox.MarkScheduled(e.id, Max(expiresAt, now + delay.value));
    raised := false;
  }

  method AbandonEntry(outbox: Outbox, sink: EventSink, e: Entry, error: string) returns (raised: bool)
    modifies outbox, sink
    ensures raised <==> old(sink.room) == 0
    ensures raised ==> outbox.rows == old(outbox.rows) && sink.log == old(sink.log) && sink.room == 0
    ensures !raised ==>
              && outbox.rows == MarkedAbandoned(old(outbox.rows), e.id, error)
              && sink.log == old(sink.log)
                             + [StepAbandoned(e.subject, e.operation, e.id, e.resolver, e.attempts, error)]
              && sink.room == old(sink.room) - 1
  {
    var ok := sink.Append(StepAbandoned(e.subject, e.operation, e.id, e.resolver, e.attempts, error));
    if !ok {
      return true;
    }
    outbox.MarkAbandoned(e.id, error);
    raised := false;
  }

  // --- one batch -----------------------------------------------------------------------------

  /** Outcomes booked in batch order; the first that raises leaves the rest unsettled. */
  function SettleAll(cfg: Config, b: Books, batch: seq<Entry>, outcomes: seq<Outcome>, clock: nat -> int, n: nat)
                     : (Books, Option<nat>)
    requires n <= |batch| == |outcomes| && forall e :: e in batch ==> e.attempts >= 1
  {
    if n == 0 then (b, None)
    else
      var before := SettleAll(cfg, b, batch, outcomes, clock, n - 1);
      if before.1.Some? then before
      else
        var now := SettleOne(cfg, before.0, batch[n - 1], outcomes[n - 1], clock(n - 1));
        (now.0, if now.1 then Some(n - 1) else None)
  }

  lemma RaisedStays(cfg: Config, b: Books, batch: seq<Entry>, outcomes: seq<Outcome>, clock: nat -> int, m: nat, n: nat)
    requires m <= n <= |batch| == |outcomes| && forall e :: e in batch ==> e.attempts >= 1
    requires SettleAll(cfg, b, batch, outcomes, clock, m).1.Some?
    ensures SettleAll(cfg, b, batch, outcomes, clock, n) == SettleAll(cfg, b, batch, outcomes, clock, m)
  {
    if m < n { RaisedStays(cfg, b, batch, outcomes, clock, m, n - 1); }
  }

  lemma SettleTouchesOne(cfg: Config, b: Books, e: Entry, o: Outcome, now: int, id: nat)
    requires e.attempts >= 1 && id in b.rows && id != e.id
    ensures id in SettleOne(cfg, b, e, o, now).0.rows && SettleOne(cfg, b, e, o, now).0.rows[id] == b.rows[id]
  {
    hide StepEvent, InTransaction, AfterEvents;
  }

  /** Whatever becomes of the other entries, a claimed entry that was not settled keeps its claim. */
  lemma {:induction false} UnsettledStaysClaimed(cfg: Config, b: Books, batch: seq<Entry>, outcomes: seq<Outcome>,
                                                 clock: nat -> int, n: nat, id: nat)
    requires n <= |batch| == |outcomes| && forall e :: e in batch ==> e.attempts >= 1
    requires id in b.rows && forall i :: 0 <= i < n ==> batch[i].id != id
    ensures id in SettleAll(cfg, b, batch, outcomes, clock, n).0.rows
    ensures SettleAll(cfg, b, batch, outcomes, clock, n).0.rows[id] == b.rows[id]
  {
    if n > 0 {
      UnsettledStaysClaimed(cfg, b, batch, outcomes, clock, n - 1, id);
      var before := SettleAll(cfg, b, batch, outcomes, clock, n - 1).0;
      SettleTouchesOne(cfg, before, batch[n - 1], outcomes[n - 1], clock(n - 1), id);
      hide SettleOne;
    }
  }

  datatype RunResult = Processed(count: nat) | Raised(at: nat)

  function Outcomes(batch: seq<Entry>, answer: Entry -> Outcome): seq<Outcome> {
    seq(|batch|, i requires 0 <= i < |batch| => answer(batch[i]))
  }

  method BookAll(outbox: Outbox, sink: EventSink, cfg: Config, batch: seq<Entry>, outcomes: seq<Outcome>,
                 clock: nat -> int)
    returns (raised: Option<nat>)
    requires cfg.policy.Valid() && |batch| == |outcomes| && forall e :: e in batch ==> e.attempts >= 1
    modifies outbox, sink
    ensures (Books(outbox.rows, sink.log, sink.room), raised)
            == SettleAll(cfg, old(Books(outbox.rows, sink.log, sink.room)), batch, outcomes, clock, |batch|)
  {
    hide SettleOne;
    ghost var b := Books(outbox.rows, sink.log, sink.room);
    for i := 0 to |batch|
      invariant (Books(outbox.rows, sink.log, sink.room), None) == SettleAll(cfg, b, batch, outcomes, clock, i)
    {
      var failed := Settle(outbox, sink, cfg, batch[i], outcomes[i], clock(i));
      if failed {
        RaisedStays(cfg, b, batch, outcomes, clock, i + 1, |batch|);
        return Some(i);
      }
    }
    raised := None;
  }

  /** One batch: claim, then book every outcome the resolvers gave. */
  method RunOnce(outbox: Outbox, sink: EventSink, cfg: Config, limit: nat, answer: Entry -> Outcome, locked: set<nat>,
                 claimedAt: int, clock: nat -> int)
    returns (r: RunResult, ghost ids: seq<nat>, ghost batch: seq<Entry>)
    requires cfg.policy.Valid()
    modifies outbox, sink
    ensures OldestDue(old(outbox.rows), locked, claimedAt, limit, ids)
    ensures ClaimedFrom(old(outbox.rows), batch, ids, claimedAt, cfg.policy.lease)
    ensures var b := Books(Claim(old(outbox.rows), ids, claimedAt, cfg.policy.lease), old(sink.log), old(sink.room));
            (Books(outbox.rows, sink.log, sink.room), if r.Raised? then Some(r.at) else None)
            == SettleAll(cfg, b, batch, Outcomes(batch, answer), clock, |batch|)
    ensures r.Processed? ==> r.count == |batch|
  {
    hide SettleAll, OldestDue, Claim;
    var entries, found := outbox.ClaimBatch(limit, cfg.policy.lease, claimedAt, locked);
    ids, batch := found, entries;
    var raised := BookAll(outbox, sink, cfg, entries, Outcomes(entries, answer), clock);
    r := if raised.Some? then Raised(raised.value) else Processed(|entries|);
  }
}

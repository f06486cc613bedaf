/** What the saga gains when every runner settles before its own lease ends, and what it loses
    when one does not. */
module SagaLeases {
  import opened Wrappers
  import opened Backoff
  import opened OutboxStore
  import opened Runner
  import opened SagaProtocol

  // --- the assumption --------------------------------------------------------------------

  function LeaseEnd(h: Hold): int
    requires h.entry.nextAttemptAt.Some?
  {
    h.entry.nextAttemptAt.value
  }

  predicate Live(s: State, c: nat) {
    c in s.holds && s.holds[c].entry.nextAttemptAt.Some? && s.now < LeaseEnd(s.holds[c])
  }

  /** A runner calls, records and books only while its lease runs. */
  predicate Honoured(s: State, a: Action) {
    match a
    case CallResolver(c, _, _, _) => Live(s, c)
    case Record(c) => Live(s, c)
    case Book(c) => Live(s, c)
    case CompleteThenCrash(c) => Live(s, c)
    case _ => true
  }

  // --- exclusivity ---------------------------------------------------------------------------

  /** The row still stands as the claim left it. */
  ghost predicate Holds(s: State, c: nat)
    requires c in s.holds
  {
    var e := s.holds[c].entry;
    && e.id in s.rows
    && s.rows[e.id].status == IN_FLIGHT
    && s.rows[e.id].nextAttemptAt == e.nextAttemptAt
    && s.rows[e.id].attempts == e.attempts
  }

  /** Each entry has at most one live claim, and it matches the stored row. */
  ghost predicate Exclusive(s: State) {
    && (forall c :: Live(s, c) ==> Holds(s, c))
    && (forall c, d :: Live(s, c) && Live(s, d) && s.holds[c].entry.id == s.holds[d].entry.id ==> c == d)
  }

  /** A live claim after a step was live before it, or was made by the step. */
  lemma LiveBefore(cfg: Config, s: State, a: Action, s': State, c: nat)
    requires Shaped(s) && Moves(cfg, s, a, s') && Live(s', c)
    ensures (a.TakeClaim? && c == s.next && c !in s.holds) || (Live(s, c) && s'.holds[c].entry == s.holds[c].entry)
  {
    WorldMoves(cfg, s, a, s');
    HoldMoves(cfg, s, a, s', c);
    hide Moves, Absent, RowShaped, JudgeHold;
    assert c in s.holds ==> HoldShaped(s, c);
  }

  /** No step but the holder's own changes the row under a live claim. */
  lemma RowUnderClaim(cfg: Config, s: State, a: Action, s': State, c: nat)
    requires Shaped(s) && Exclusive(s) && Moves(cfg, s, a, s') && Honoured(s, a) && Live(s, c)
    requires !(a.Book? && a.c == c)
    ensures s.holds[c].entry.id in s'.rows && s'.rows[s.holds[c].entry.id] == s.rows[s.holds[c].entry.id]
  {
    assert Holds(s, c);
    RowMoves(cfg, s, a, s', s.holds[c].entry.id);
    hide Moves, Shaped, BookedRow;
    if a.Book? { assert Live(s, a.c); }
  }

  lemma StepExclusive(cfg: Config, s: State, a: Action, s': State)
    requires Shaped(s) && Exclusive(s) && Moves(cfg, s, a, s') && Honoured(s, a)
    ensures Exclusive(s')
  {
    hide Moves, Shaped;
    forall c | Live(s', c) ensures Holds(s', c) {
      LiveKeepsRow(cfg, s, a, s', c);
    }
    forall c, d | Live(s', c) && Live(s', d) && s'.holds[c].entry.id == s'.holds[d].entry.id ensures c == d {
      LiveBefore(cfg, s, a, s', c);
      LiveBefore(cfg, s, a, s', d);
      if a.TakeClaim? {
        NewClaimIsAlone(cfg, s, a, s', c);
        NewClaimIsAlone(cfg, s, a, s', d);
      }
    }
  }

  lemma LiveKeepsRow(cfg: Config, s: State, a: Action, s': State, c: nat)
    requires Shaped(s) && Exclusive(s) && Moves(cfg, s, a, s') && Honoured(s, a) && Live(s', c)
    ensures Holds(s', c)
  {
    LiveBefore(cfg, s, a, s', c);
    HoldMoves(cfg, s, a, s', c);
    if a.TakeClaim? && c == s.next {
      RowMoves(cfg, s, a, s', a.id);
    } else {
      RowUnderClaim(cfg, s, a, s', c);
      assert Holds(s, c);
    }
    hide Moves, Shaped, RowMove, JudgeHold;
  }

  /** A row under a live claim is not due, so a new claim is the only one on its entry. */
  lemma NewClaimIsAlone(cfg: Config, s: State, a: Action, s': State, c: nat)
    requires Shaped(s) && Exclusive(s) && Moves(cfg, s, a, s') && a.TakeClaim? && Live(s', c)
    ensures c == s.next || (Live(s, c) && s.holds[c].entry.id != a.id)
    ensures c == s.next ==> s'.holds[c].entry.id == a.id
  {
    LiveBefore(cfg, s, a, s', c);
    HoldMoves(cfg, s, a, s', c);
    RowMoves(cfg, s, a, s', a.id);
    assert a.id in s.rows && Due(s.rows[a.id], s.now);
    hide Moves, RowMove, RowShaped, JudgeHold;
    if Live(s, c) { assert Holds(s, c) && HoldShaped(s, c); }
  }

  // --- terminal rows stay, requeue finds no claim ---------------------------------------------

  /** A succeeded row stays succeeded, an abandoned row leaves only by a requeue, and a requeue
      never takes a row from under a live claim. */
  lemma TerminalIsStable(cfg: Config, s: State, a: Action, s': State, id: nat)
    requires Exclusive(s) && Moves(cfg, s, a, s') && Honoured(s, a) && id in s.rows
    ensures id in s'.rows
    ensures s.rows[id].status == SUCCEEDED ==> s'.rows[id] == s.rows[id]
    ensures s.rows[id].status == ABANDONED && s'.rows[id] != s.rows[id] ==> a.Requeue? && id in a.ids
    ensures a.Requeue? && id in a.ids ==> forall c :: Live(s, c) ==> s.holds[c].entry.id != id
  {
    RowMoves(cfg, s, a, s', id);
    RequeuedWereAbandoned(cfg, s, a, s', id);
    hide Moves, BookedRow;
    if a.Book? { assert Live(s, a.c) && Holds(s, a.c); }
    forall c | Live(s, c) ensures s.rows[s.holds[c].entry.id].status == IN_FLIGHT { assert Holds(s, c); }
  }

  lemma RequeuedWereAbandoned(cfg: Config, s: State, a: Action, s': State, id: nat)
    requires Moves(cfg, s, a, s')
    ensures a.Requeue? && id in a.ids ==> id in s.rows && s.rows[id].status == ABANDONED
  {}

  // --- corrections are kept ----------------------------------------------------------------------

  function Corrections(row: Row): seq<Correction> {
    if row.payload.Some? then row.payload.value else []
  }

  ghost predicate RowKept(s: State, id: nat)
    requires id in s.rows
  {
    id in s.origins && s.rows[id].operation == RECTIFY && !Terminal(s.rows[id].status) ==>
      s.rows[id].payload == s.origins[id].row.payload
  }

  ghost predicate HoldKept(s: State, c: nat)
    requires c in s.holds
  {
    s.holds[c].entry.operation == RECTIFY && s.holds[c].entry.id in s.origins ==>
      s.holds[c].entry.corrections == Corrections(s.origins[s.holds[c].entry.id].row)
  }

  /** An unfinished rectification holds the corrections it was enqueued with, and so does every
      claim on one. */
  ghost predicate Kept(s: State) {
    && (forall id :: id in s.rows ==> RowKept(s, id))
    && (forall c :: c in s.holds ==> HoldKept(s, c))
  }

  lemma StepKept(cfg: Config, s: State, a: Action, s': State)
    requires Shaped(s) && Exclusive(s) && Kept(s) && Moves(cfg, s, a, s') && Honoured(s, a)
    ensures Kept(s')
  {
    hide Moves, Shaped, Exclusive, RowKept, HoldKept;
    forall id | id in s'.rows ensures RowKept(s', id) { StepRowKept(cfg, s, a, s', id); }
    forall c | c in s'.holds ensures HoldKept(s', c) { StepHoldKept(cfg, s, a, s', c); }
  }

  /** A booking keeps the payload or ends the entry. */
  lemma BookedPayload(cfg: Config, row: Row, h: Hold, now: int)
    requires Bookable(cfg, h) && !Terminal(row.status)
    ensures BookedRow(cfg, row, h, now).operation == row.operation
    ensures BookedRow(cfg, row, h, now).payload == row.payload || Terminal(BookedRow(cfg, row, h, now).status)
  {}

  lemma StepRowKept(cfg: Config, s: State, a: Action, s': State, id: nat)
    requires Shaped(s) && Exclusive(s) && Kept(s) && Moves(cfg, s, a, s') && Honoured(s, a) && id in s'.rows
    ensures RowKept(s', id)
  {
    RowMoves(cfg, s, a, s', id);
    TraceMoves(cfg, s, a, s', id);
    hide Moves, CrashCount;
    if id in s.rows {
      assert RowShaped(s, id) && RowKept(s, id);
      if a.Book? {
        assert Live(s, a.c) && Holds(s, a.c);
        if Bookable(cfg, s.holds[a.c]) && !Terminal(s.rows[id].status) {
          BookedPayload(cfg, s.rows[id], s.holds[a.c], s.now);
        }
      }
      hide BookedRow, Bookable;
    }
  }

  lemma StepHoldKept(cfg: Config, s: State, a: Action, s': State, c: nat)
    requires Shaped(s) && Kept(s) && Moves(cfg, s, a, s') && c in s'.holds
    ensures HoldKept(s', c)
  {
    HoldMoves(cfg, s, a, s', c);
    TraceMoves(cfg, s, a, s', s'.holds[c].entry.id);
    hide Moves, CrashCount, JudgeHold;
    if c in s.holds {
      assert HoldShaped(s, c) && HoldKept(s, c) && RowShaped(s, s.holds[c].entry.id);
    } else {
      assert RowShaped(s, a.id) && RowKept(s, a.id);
    }
  }

  // --- parked entries wait for their horizon ------------------------------------------------------

  /** The horizon the latest expiry event of an entry names. */
  function LastHorizon(log: seq<Event>, id: nat): Option<int> {
    if log == [] then None
    else if log[|log| - 1].ExpiryScheduled? && log[|log| - 1].entry == id then Some(log[|log| - 1].expiresAt)
    else LastHorizon(log[..|log| - 1], id)
  }

  predicate NoExpiryOf(events: seq<Event>, id: nat) {
    forall e :: e in events ==> !(e.ExpiryScheduled? && e.entry == id)
  }

  lemma {:induction false} HorizonStays(log: seq<Event>, more: seq<Event>, id: nat)
    requires NoExpiryOf(more, id)
    ensures LastHorizon(log + more, id) == LastHorizon(log, id)
  {
    if more == [] {
      assert log + more == log;
    } else {
      var last := |more| - 1;
      assert (log + more)[..|log + more| - 1] == log + more[..last];
      assert more[last] in more;
      HorizonStays(log, more[..last], id);
    }
  }

  ghost predicate ParkedWaits(s: State, id: nat)
    requires id in s.rows
  {
    s.rows[id].status == SCHEDULED ==>
      && s.rows[id].nextAttemptAt.Some? && LastHorizon(s.log, id).Some?
      && LastHorizon(s.log, id).value <= s.rows[id].nextAttemptAt.value
  }

  ghost predicate ClaimWaited(cfg: Config, s: State, c: nat)
    requires c in s.holds
  {
    var h := s.holds[c];
    && (h.phase.Recorded? && JudgeHold(cfg, h).Park? ==>
          LastHorizon(s.log, h.entry.id) == Some(JudgeHold(cfg, h).expiresAt))
    && (h.phase.Fresh? && h.wasParked ==>
          LastHorizon(s.log, h.entry.id).Some? && LastHorizon(s.log, h.entry.id).value <= s.now)
  }

  ghost predicate Waits(cfg: Config, s: State) {
    && (forall id :: id in s.rows ==> ParkedWaits(s, id))
    && (forall c :: Live(s, c) ==> ClaimWaited(cfg, s, c))
  }

  predicate RecordsFor(s: State, a: Action, id: nat) {
    a.Record? && a.c in s.holds && s.holds[a.c].entry.id == id
  }

  /** A step adds an expiry event only for the entry its own claim is on. */
  lemma ExpiryComesFrom(cfg: Config, s: State, a: Action, id: nat)
    requires Enabled(cfg, s, a)
    ensures RecordsFor(s, a, id) || NoExpiryOf(Appended(cfg, s, a), id)
  {
    hide Contract;
    if a.RequeueCrash? { assert forall e :: e in Appended(cfg, s, a) ==> e in RequeuedEvents(s.rows, a.ids); }
  }

  lemma HorizonAfter(cfg: Config, s: State, a: Action, s': State, id: nat)
    requires Moves(cfg, s, a, s')
    ensures !RecordsFor(s, a, id) ==> LastHorizon(s'.log, id) == LastHorizon(s.log, id)
    ensures RecordsFor(s, a, id) && !s.holds[a.c].phase.Fresh? && JudgeHold(cfg, s.holds[a.c]).Park? ==>
              LastHorizon(s'.log, id) == Some(JudgeHold(cfg, s.holds[a.c]).expiresAt)
  {
    LogGrows(cfg, s, a, s');
    ExpiryComesFrom(cfg, s, a, id);
    hide Contract;
    if NoExpiryOf(Appended(cfg, s, a), id) {
      HorizonStays(s.log, Appended(cfg, s, a), id);
    }
  }

  lemma StepParkedWaits(cfg: Config, s: State, a: Action, s': State, id: nat)
    requires Exclusive(s) && Waits(cfg, s) && Moves(cfg, s, a, s') && Honoured(s, a) && id in s'.rows
    ensures ParkedWaits(s', id)
  {
    HorizonAfter(cfg, s, a, s', id);
    RowMoves(cfg, s, a, s', id);
    hide Moves, LastHorizon;
    assert id in s.rows ==> ParkedWaits(s, id);
    if a.Record? || a.Book? { assert Live(s, a.c) && Holds(s, a.c) && ClaimWaited(cfg, s, a.c); }
  }

  lemma StepClaimWaited(cfg: Config, s: State, a: Action, s': State, c: nat)
    requires Shaped(s) && Exclusive(s) && Waits(cfg, s) && Moves(cfg, s, a, s') && Honoured(s, a) && Live(s', c)
    ensures ClaimWaited(cfg, s', c)
  {
    HorizonAfter(cfg, s, a, s', s'.holds[c].entry.id);
    LiveBefore(cfg, s, a, s', c);
    HoldMoves(cfg, s, a, s', c);
    WorldMoves(cfg, s, a, s');
    if a.Record? { assert Live(s, a.c); }
    if a.TakeClaim? && c == s.next {
      assert ParkedWaits(s, a.id);
      hide *;
      NewClaimWaited(cfg, s, a, s', c);
    } else {
      assert ClaimWaited(cfg, s, c) && Live(s, c);
      assert RecordsFor(s, a, s'.holds[c].entry.id) ==> a.c == c;
      hide *;
      OldClaimWaited(cfg, s, a, s', c);
    }
  }

  lemma NewClaimWaited(cfg: Config, s: State, a: Action, s': State, c: nat)
    requires a.TakeClaim? && c !in s.holds && c in s'.holds && HoldMove(cfg, s, a, c, s'.holds[c]) && s.now <= s'.now
    requires a.id in s.rows && ParkedWaits(s, a.id)
    requires LastHorizon(s'.log, s'.holds[c].entry.id) == LastHorizon(s.log, s'.holds[c].entry.id)
    ensures ClaimWaited(cfg, s', c)
  {
    hide LastHorizon, JudgeHold;
  }

  lemma OldClaimWaited(cfg: Config, s: State, a: Action, s': State, c: nat)
    requires c in s.holds && c in s'.holds && HoldMove(cfg, s, a, c, s'.holds[c]) && s.now <= s'.now
    requires ClaimWaited(cfg, s, c)
    requires s'.holds[c].entry == s.holds[c].entry && !(a.TakeClaim? && c == s.next)
    requires a.Record? && a.c == c ==> s'.holds[c].phase.Recorded?
    requires var id := s.holds[c].entry.id;
             && (RecordsFor(s, a, id) ==> a.c == c)
             && (!RecordsFor(s, a, id) ==> LastHorizon(s'.log, id) == LastHorizon(s.log, id))
             && (RecordsFor(s, a, id) && !s.holds[a.c].phase.Fresh? && JudgeHold(cfg, s.holds[a.c]).Park? ==>
                   LastHorizon(s'.log, id) == Some(JudgeHold(cfg, s.holds[a.c]).expiresAt))
    ensures ClaimWaited(cfg, s', c)
  {
    hide LastHorizon;
  }

  lemma StepWaits(cfg: Config, s: State, a: Action, s': State)
    requires Shaped(s) && Exclusive(s) && Waits(cfg, s) && Moves(cfg, s, a, s') && Honoured(s, a)
    ensures Waits(cfg, s')
  {
    hide Moves, Shaped, Exclusive, ParkedWaits, ClaimWaited;
    forall id | id in s'.rows ensures ParkedWaits(s', id) { StepParkedWaits(cfg, s, a, s', id); }
    forall c | Live(s', c) ensures ClaimWaited(cfg, s', c) { StepClaimWaited(cfg, s, a, s', c); }
  }

  /** A parked entry is not called again before the horizon its latest expiry event names. */
  lemma NoCallBeforeHorizon(cfg: Config, s: State, a: Action)
    requires Waits(cfg, s) && Enabled(cfg, s, a) && Honoured(s, a) && a.CallResolver? && s.holds[a.c].wasParked
    ensures LastHorizon(s.log, s.holds[a.c].entry.id).Some?
    ensures LastHorizon(s.log, s.holds[a.c].entry.id).value <= s.now
  {
    assert Live(s, a.c) && ClaimWaited(cfg, s, a.c);
  }

  // --- the retry budget ------------------------------------------------------------------------------

  /** Attempts within the current budget: a waiting row has spent none, a failed row still has one
      left, and no row has spent more than the budget and its crashed claims. */
  ghost predicate WithinBudget(cfg: Config, s: State, id: nat)
    requires id in s.rows
  {
    var row := s.rows[id];
    && (row.status == PENDING || row.status == SCHEDULED ==> row.attempts == 0)
    && (row.status == FAILED ==> row.attempts < cfg.maxAttempts)
    && id in s.crashes && row.attempts <= Max(1, cfg.maxAttempts) + s.crashes[id]
  }

  ghost predicate Budgeted(cfg: Config, s: State) {
    forall id :: id in s.rows ==> WithinBudget(cfg, s, id)
  }

  lemma RowBudgeted(cfg: Config, s: State, a: Action, s': State, id: nat)
    requires Exclusive(s) && Budgeted(cfg, s) && Moves(cfg, s, a, s') && Honoured(s, a) && id in s'.rows
    ensures WithinBudget(cfg, s', id)
  {
    RowMoves(cfg, s, a, s', id);
    TraceMoves(cfg, s, a, s', id);
    RequeuedWereAbandoned(cfg, s, a, s', id);
    hide Moves;
    assert id in s.rows ==> WithinBudget(cfg, s, id);
    if a.Book? { assert Live(s, a.c) && Holds(s, a.c); }
  }

  lemma StepBudgeted(cfg: Config, s: State, a: Action, s': State)
    requires Exclusive(s) && Budgeted(cfg, s) && Moves(cfg, s, a, s') && Honoured(s, a)
    ensures Budgeted(cfg, s')
  {
    hide Moves, Exclusive, WithinBudget;
    forall id | id in s'.rows ensures WithinBudget(cfg, s', id) { RowBudgeted(cfg, s, a, s', id); }
  }

  // --- attempts are spaced out ---------------------------------------------------------------------------

  /** A failed row waits at least its backoff after its last attempt began, a claimed one out its
      lease. */
  ghost predicate RowSpaced(cfg: Config, s: State, id: nat)
    requires id in s.rows
  {
    var row := s.rows[id];
    && (row.status == FAILED ==>
          && row.attempts >= 1 && row.lastAttemptAt.Some? && row.nextAttemptAt.Some?
          && row.lastAttemptAt.value + cfg.policy.Wait(row.attempts) <= row.nextAttemptAt.value)
    && (row.status == IN_FLIGHT ==>
          && row.lastAttemptAt.Some? && row.nextAttemptAt.Some?
          && row.lastAttemptAt.value <= s.now && row.lastAttemptAt.value < row.nextAttemptAt.value)
  }

  ghost predicate Spaced(cfg: Config, s: State) {
    forall id :: id in s.rows ==> RowSpaced(cfg, s, id)
  }

  lemma StepRowSpaced(cfg: Config, s: State, a: Action, s': State, id: nat)
    requires Exclusive(s) && Spaced(cfg, s) && Moves(cfg, s, a, s') && Honoured(s, a) && id in s'.rows
    ensures RowSpaced(cfg, s', id)
  {
    RowMoves(cfg, s, a, s', id);
    WorldMoves(cfg, s, a, s');
    hide Moves, Absent;
    assert id in s.rows ==> RowSpaced(cfg, s, id);
    if a.Book? { assert Live(s, a.c) && Holds(s, a.c); }
  }

  lemma StepSpaced(cfg: Config, s: State, a: Action, s': State)
    requires Exclusive(s) && Spaced(cfg, s) && Moves(cfg, s, a, s') && Honoured(s, a)
    ensures Spaced(cfg, s')
  {
    hide Moves, Exclusive, RowSpaced;
    forall id | id in s'.rows ensures RowSpaced(cfg, s', id) { StepRowSpaced(cfg, s, a, s', id); }
  }

  /** A failed entry is claimed again only after the backoff of its attempts has passed since the
      last one began, and a claimed entry only once that claim's lease is over. */
  lemma ClaimsAreSpaced(cfg: Config, s: State, a: Action)
    requires Spaced(cfg, s) && Enabled(cfg, s, a) && a.TakeClaim?
    ensures s.rows[a.id].status == FAILED ==>
              s.rows[a.id].attempts >= 1 && s.rows[a.id].lastAttemptAt.Some?
              && s.rows[a.id].lastAttemptAt.value + cfg.policy.Wait(s.rows[a.id].attempts) <= s.now
    ensures s.rows[a.id].status == IN_FLIGHT ==> forall c :: Live(s, c) && Exclusive(s) ==> s.holds[c].entry.id != a.id
  {
    assert RowSpaced(cfg, s, a.id);
    forall c | Live(s, c) && Exclusive(s) ensures s.holds[c].entry.id != a.id { assert Holds(s, c); }
  }

  // --- every honoured run -------------------------------------------------------------------------------

  ghost predicate Disciplined(cfg: Config, s: State) {
    Exclusive(s) && Kept(s) && Waits(cfg, s) && Budgeted(cfg, s) && Spaced(cfg, s)
  }

  ghost predicate HonouredRun(cfg: Config, states: seq<State>, acts: seq<Action>) {
    Run(cfg, states, acts) && forall i :: 0 <= i < |acts| ==> Honoured(states[i], acts[i])
  }

  lemma StepDisciplined(cfg: Config, s: State, a: Action)
    requires Sound(cfg, s) && Disciplined(cfg, s) && Enabled(cfg, s, a) && Honoured(s, a)
    ensures Disciplined(cfg, Apply(cfg, s, a))
  {
    var s' := Apply(cfg, s, a);
    assert Moves(cfg, s, a, s');
    hide Moves, Enabled, Apply, Audited, Cleared, NeverLost, Gone, Exclusive, Kept, Waits, Budgeted, Spaced, Shaped;
    StepExclusive(cfg, s, a, s');
    StepKept(cfg, s, a, s');
    StepWaits(cfg, s, a, s');
    StepBudgeted(cfg, s, a, s');
    StepSpaced(cfg, s, a, s');
  }

  /** When every runner settles within its lease: claims are exclusive, unfinished rectifications
      keep their corrections, parked entries wait out their horizon, budgets hold, and attempts are
      spaced by the backoff. */
  lemma {:induction false} HonouredRunsAreDisciplined(cfg: Config, states: seq<State>, acts: seq<Action>, n: nat)
    requires HonouredRun(cfg, states, acts) && n < |states|
    ensures Sound(cfg, states[n]) && Disciplined(cfg, states[n])
  {
    EveryRunIsSound(cfg, states, acts, n);
    if n == 0 {
      assert Disciplined(cfg, states[0]);
    } else {
      var i := n - 1;
      HonouredRunsAreDisciplined(cfg, states, acts, i);
      assert StepAt(cfg, states, acts, i);
      StepDisciplined(cfg, states[i], acts[i]);
    }
  }
}

/** The saga as a step relation: any number of runners, crashes, expired leases, late enqueues,
    horizons and operator requeues over one outbox, one trail and the external systems. */
module SagaProtocol {
  import opened Wrappers
  import opened OutboxStore
  import opened Runner

  // --- external systems ---------------------------------------------------------------

  /** What a system holds under one reference: data, or data it will drop at a horizon. */
  datatype Holding = Held | Expiring(horizon: int)

  type Place = (string, string)  // resolver and reference

  type World = map<Place, Holding>

  predicate Absent(w: World, now: int, p: Place) {
    p !in w || (w[p].Expiring? && w[p].horizon <= now)
  }

  /** Nothing that is gone comes back. */
  ghost predicate NeverReturns(now: int, w: World, w': World) {
    forall p :: Absent(w, now, p) ==> Absent(w', now, p)
  }

  /** What the resolver contract says of one call: a reported erasure or verified expiry means the
      data is gone, and no call brings data back. A failed call may have done anything else. */
  ghost predicate Contract(now: int, p: Place, o: Outcome, w: World, w': World) {
    && NeverReturns(now, w, w')
    && (o.Erased? || o == Expiry(None) ==> Absent(w', now, p))
  }

  // --- states and steps -----------------------------------------------------------------

  datatype Phase = Fresh | Answered(o: Outcome) | Recorded(o: Outcome)

  /** A claim some runner holds: the entry as it was handed out. */
  datatype Hold = Hold(entry: Entry, phase: Phase, wasParked: bool)

  /** A row as it was enqueued, and how long the trail was then. */
  datatype Origin = Origin(row: Row, mark: nat)

  /** The entry a claim was taken on, and how long the trail was then. */
  datatype Taken = Taken(entry: nat, mark: nat)

  /** The history of claims: what each was taken on, the place of the event each recorded, and which
      claim settled each row last. */
  datatype Ledger = Ledger(taken: map<nat, Taken>, recorded: map<nat, nat>, settler: map<nat, nat>)

  datatype State = State(rows: Rows, log: seq<Event>, now: int, holds: map<nat, Hold>, next: nat, world: World,
                         origins: map<nat, Origin>, crashes: map<nat, nat>, ledger: Ledger)

  datatype Action =
    | Tick(to: int)
    | Enqueue(e: Entry)
    | TakeClaim(id: nat, lease: int)
    | CallResolver(c: nat, registry: Registry, answer: Outcome, after: World)
    | Record(c: nat)
    | Book(c: nat)
    | CompleteThenCrash(c: nat)
    | Crash(c: nat)
    | Requeue(ids: seq<nat>)
    | RequeueCrash(ids: seq<nat>, appended: nat)
    | Outside(after: World)
    | Note(event: Event)

  function PlaceOf(e: Entry): Place {
    (e.resolver, e.ref)
  }

  function PlaceOfRow(row: Row): Place {
    (row.resolver, row.ref)
  }

  function JudgeHold(cfg: Config, h: Hold): Verdict
    requires !h.phase.Fresh?
  {
    Judge(cfg, h.entry.attempts, h.phase.o)
  }

  predicate Requeueable(rows: Rows, ids: seq<nat>) {
    forall id :: id in ids ==> id in rows && rows[id].status == ABANDONED && rows[id].operation == ERASE
  }

  ghost predicate Enabled(cfg: Config, s: State, a: Action) {
    match a
    case Tick(to) => to >= s.now
    case Enqueue(e) => e.id !in s.rows && e.status == PENDING && e.attempts == 0 && e.nextAttemptAt == None
    case TakeClaim(id, lease) => id in s.rows && Due(s.rows[id], s.now) && lease > 0
    case CallResolver(c, registry, answer, after) =>
      && c in s.holds && s.holds[c].phase.Fresh?
      && Answers(CallFor(registry, s.holds[c].entry.resolver, s.holds[c].entry.operation), answer)
      && Contract(s.now, PlaceOf(s.holds[c].entry), answer, s.world, after)
    case Record(c) =>
      && c in s.holds && s.holds[c].phase.Answered?
      && !JudgeHold(cfg, s.holds[c]).Propagate? && !JudgeHold(cfg, s.holds[c]).Retry?
    case Book(c) =>
      && c in s.holds && s.holds[c].entry.attempts >= 1
      && (s.holds[c].phase.Recorded? || (s.holds[c].phase.Answered? && JudgeHold(cfg, s.holds[c]).Retry?))
    case CompleteThenCrash(c) =>
      && c in s.holds && s.holds[c].phase.Recorded?
      && InTransaction(s.rows, s.holds[c].entry, JudgeHold(cfg, s.holds[c]), s.holds[c].phase.o) != []
    case Crash(c) => c in s.holds
    case Requeue(ids) => Requeueable(s.rows, ids)
    case RequeueCrash(ids, appended) => Requeueable(s.rows, ids) && appended <= |ids|
    case Outside(after) => NeverReturns(s.now, s.world, after)
    case Note(event) => event.ReadBack?
  }

  function CrashesOf(s: State, id: nat): nat {
    if id in s.crashes then s.crashes[id] else 0
  }

  /** Whether booking gives the entry a fresh budget. */
  function CrashesAfter(s: State, id: nat, v: Verdict): map<nat, nat> {
    if v.Park? then s.crashes[id := 0] else s.crashes
  }

  function Apply(cfg: Config, s: State, a: Action): State
    requires Enabled(cfg, s, a)
  {
    match a
    case Tick(to) => s.(now := to)
    case Enqueue(e) =>
      s.(rows := s.rows[e.id := RowOf(e)], origins := s.origins[e.id := Origin(RowOf(e), |s.log|)],
         crashes := s.crashes[e.id := 0])
    case TakeClaim(id, lease) =>
      s.(rows := s.rows[id := ClaimRow(s.rows[id], s.now, lease)],
         holds := s.holds[s.next := Hold(ClaimedEntry(id, s.rows[id], s.now, lease), Fresh,
                                         s.rows[id].status == SCHEDULED)],
         next := s.next + 1, ledger := s.ledger.(taken := s.ledger.taken[s.next := Taken(id, |s.log|)]),
         crashes := if s.rows[id].status == IN_FLIGHT then s.crashes[id := CrashesOf(s, id) + 1] else s.crashes)
    case CallResolver(c, _, answer, after) =>
      s.(holds := s.holds[c := s.holds[c].(phase := Answered(answer))], world := after)
    case Record(c) =>
      var h := s.holds[c];
      s.(log := s.log + StepEvent(h.entry, JudgeHold(cfg, h), h.phase.o),
         holds := s.holds[c := h.(phase := Recorded(h.phase.o))],
         ledger := s.ledger.(recorded := s.ledger.recorded[c := |s.log|]))
    case Book(c) =>
      var h, v := s.holds[c], JudgeHold(cfg, s.holds[c]);
      s.(rows := Mark(cfg, s.rows, h.entry.id, h.entry.attempts, v, s.now),
         log := s.log + InTransaction(s.rows, h.entry, v, h.phase.o),
         holds := s.holds - {c},
         crashes := CrashesAfter(s, h.entry.id, v),
         ledger := if v.Retry? then s.ledger else s.ledger.(settler := s.ledger.settler[h.entry.id := c]))
    case CompleteThenCrash(c) =>
      var h := s.holds[c];
      s.(log := s.log + InTransaction(s.rows, h.entry, JudgeHold(cfg, h), h.phase.o), holds := s.holds - {c})
    case Crash(c) => s.(holds := s.holds - {c})
    case Requeue(ids) =>
      s.(rows := RequeuedRows(s.rows, ids), log := s.log + RequeuedEvents(s.rows, ids),
         crashes := map id | id in s.crashes :: if id in ids then 0 else s.crashes[id])
    case RequeueCrash(ids, appended) => s.(log := s.log + RequeuedEvents(s.rows, ids)[..appended])
    case Outside(after) => s.(world := after)
    case Note(event) => s.(log := s.log + [event])
  }

  // --- what a step does, piece by piece ------------------------------------------------------

  ghost predicate Moves(cfg: Config, s: State, a: Action, s': State) {
    Enabled(cfg, s, a) && s' == Apply(cfg, s, a)
  }

  predicate Bookable(cfg: Config, h: Hold) {
    h.entry.attempts >= 1 && (h.phase.Recorded? || (h.phase.Answered? && JudgeHold(cfg, h).Retry?))
  }

  function BookedRow(cfg: Config, row: Row, h: Hold, now: int): Row
    requires Bookable(cfg, h)
  {
    Mark(cfg, map[0 := row], 0, h.entry.attempts, JudgeHold(cfg, h), now)[0]
  }

  /** How a step changes one existing row: not at all, by a claim, by a booking, or by a requeue. */
  predicate RowMove(cfg: Config, s: State, a: Action, id: nat, row: Row)
    requires id in s.rows
  {
    || row == s.rows[id]
    || (a.TakeClaim? && a.id == id && a.lease > 0 && Due(s.rows[id], s.now)
        && row == ClaimRow(s.rows[id], s.now, a.lease))
    || (a.Book? && a.c in s.holds && Bookable(cfg, s.holds[a.c]) && s.holds[a.c].entry.id == id
          && row == BookedRow(cfg, s.rows[id], s.holds[a.c], s.now))
    || (a.Requeue? && id in a.ids && s.rows[id].status == ABANDONED && s.rows[id].operation == ERASE
        && row == RequeueRow(s.rows[id]))
  }

  lemma RowMoves(cfg: Config, s: State, a: Action, s': State, id: nat)
    requires Moves(cfg, s, a, s')
    ensures id in s.rows ==> id in s'.rows && RowMove(cfg, s, a, id, s'.rows[id])
    ensures id in s'.rows && id !in s.rows ==>
              a.Enqueue? && id == a.e.id && s'.rows[id] == RowOf(a.e) && a.e.status == PENDING && a.e.attempts == 0
    ensures a.TakeClaim? && id == a.id ==> id in s.rows && s'.rows[id] == ClaimRow(s.rows[id], s.now, a.lease)
    ensures a.Book? && a.c in s.holds && Bookable(cfg, s.holds[a.c]) && id == s.holds[a.c].entry.id && id in s.rows ==>
              s'.rows[id] == BookedRow(cfg, s.rows[id], s.holds[a.c], s.now)
  {
    hide InTransaction, StepEvent, RequeuedEvents, Contract;
  }

  /** How a step changes one claim, or makes it. */
  predicate HoldMove(cfg: Config, s: State, a: Action, c: nat, h: Hold) {
    || (c in s.holds && h == s.holds[c])
    || (a.CallResolver? && a.c == c && c in s.holds && s.holds[c].phase.Fresh? && Fits(h.entry, a.answer)
          && h == s.holds[c].(phase := Answered(a.answer)))
    || (a.Record? && a.c == c && c in s.holds && Recordable(cfg, s.holds[c])
        && h == s.holds[c].(phase := Recorded(s.holds[c].phase.o)))
    || (a.TakeClaim? && c == s.next && a.id in s.rows && a.lease > 0 && Due(s.rows[a.id], s.now)
          && h == Hold(ClaimedEntry(a.id, s.rows[a.id], s.now, a.lease), Fresh, s.rows[a.id].status == SCHEDULED))
  }

  predicate Recordable(cfg: Config, h: Hold) {
    h.phase.Answered? && !JudgeHold(cfg, h).Propagate? && !JudgeHold(cfg, h).Retry?
  }

  lemma HoldMoves(cfg: Config, s: State, a: Action, s': State, c: nat)
    requires Moves(cfg, s, a, s') && c in s'.holds
    ensures HoldMove(cfg, s, a, c, s'.holds[c])
    ensures a.Book? || a.CompleteThenCrash? ==> c != a.c
    ensures a.Record? && c == a.c ==> s'.holds[c].phase.Recorded?
    ensures a.TakeClaim? ==> s'.next == s.next + 1 && (c == s.next ==> s'.holds[c].phase.Fresh?)
    ensures !a.TakeClaim? ==> s'.next == s.next
  {
    hide InTransaction, StepEvent, RequeuedEvents, Contract, Mark, Claim;
    if a.CallResolver? { AnswerFits(a.registry, s.holds[a.c].entry, a.answer); }
  }

  /** What one step appends. */
  function Appended(cfg: Config, s: State, a: Action): seq<Event>
    requires Enabled(cfg, s, a)
  {
    match a
    case Record(c) => StepEvent(s.holds[c].entry, JudgeHold(cfg, s.holds[c]), s.holds[c].phase.o)
    case Book(c) => InTransaction(s.rows, s.holds[c].entry, JudgeHold(cfg, s.holds[c]), s.holds[c].phase.o)
    case CompleteThenCrash(c) => InTransaction(s.rows, s.holds[c].entry, JudgeHold(cfg, s.holds[c]), s.holds[c].phase.o)
    case Requeue(ids) => RequeuedEvents(s.rows, ids)
    case RequeueCrash(ids, appended) => RequeuedEvents(s.rows, ids)[..appended]
    case Note(event) => [event]
    case _ => []
  }

  lemma LogGrows(cfg: Config, s: State, a: Action, s': State)
    requires Moves(cfg, s, a, s')
    ensures s'.log == s.log + Appended(cfg, s, a)
  {
    hide InTransaction, StepEvent, RequeuedEvents, Contract, Mark;
    assert s.log + [] == s.log;
  }

  /** Crashed claims since the budget began. */
  function CrashCount(cfg: Config, s: State, a: Action, id: nat): nat {
    if a.Requeue? && id in a.ids then 0
    else if a.TakeClaim? && a.id == id && id in s.rows && s.rows[id].status == IN_FLIGHT then CrashesOf(s, id) + 1
    else if a.Book? && a.c in s.holds && s.holds[a.c].entry.id == id && Bookable(cfg, s.holds[a.c])
      && JudgeHold(cfg, s.holds[a.c]).Park? then 0
    else CrashesOf(s, id)
  }

  /** Bookkeeping of origins and crash counts, which no row decision depends on. */
  lemma TraceMoves(cfg: Config, s: State, a: Action, s': State, id: nat)
    requires Moves(cfg, s, a, s')
    ensures id in s.rows && id in s.origins ==> id in s'.origins && s'.origins[id] == s.origins[id]
    ensures id in s'.rows && id !in s.rows ==>
              && id in s'.origins && s'.origins[id] == Origin(s'.rows[id], |s.log|)
              && id in s'.crashes && s'.crashes[id] == 0
    ensures id in s.rows && id in s.crashes ==> id in s'.crashes && s'.crashes[id] == CrashCount(cfg, s, a, id)
  {
    hide InTransaction, StepEvent, RequeuedEvents, Contract;
  }

  lemma LedgerMoves(cfg: Config, s: State, a: Action, s': State)
    requires Moves(cfg, s, a, s')
    ensures s'.ledger.taken == if a.TakeClaim? then s.ledger.taken[s.next := Taken(a.id, |s.log|)] else s.ledger.taken
    ensures s'.ledger.recorded == if a.Record? then s.ledger.recorded[a.c := |s.log|] else s.ledger.recorded
    ensures s'.ledger.settler ==
            if a.Book? && a.c in s.holds && Bookable(cfg, s.holds[a.c]) && !JudgeHold(cfg, s.holds[a.c]).Retry?
            then s.ledger.settler[s.holds[a.c].entry.id := a.c] else s.ledger.settler
    ensures s'.next == s.next + if a.TakeClaim? then 1 else 0
  {
    hide InTransaction, StepEvent, RequeuedEvents, Contract, Mark, Claim;
  }

  lemma WorldMoves(cfg: Config, s: State, a: Action, s': State)
    requires Moves(cfg, s, a, s')
    ensures s.now <= s'.now
    ensures forall p: Place :: Absent(s.world, s.now, p) ==> Absent(s'.world, s'.now, p)
    ensures a.CallResolver? ==> a.c in s.holds
    ensures a.CallResolver? && (a.answer.Erased? || a.answer == Expiry(None)) ==>
              Absent(s'.world, s'.now, PlaceOf(s.holds[a.c].entry))
  {
    hide InTransaction, StepEvent, RequeuedEvents, Mark, Claim;
  }

  // --- what holds in every run, leases honoured or not --------------------------------------

  predicate SameWork(e: Entry, row: Row) {
    e.subject == row.subject && e.resolver == row.resolver && e.ref == row.ref && e.operation == row.operation
  }

  predicate SameRowWork(a: Row, b: Row) {
    a.subject == b.subject && a.resolver == b.resolver && a.ref == b.ref && a.operation == b.operation
  }

  /** A success outcome is of the entry's own operation. */
  predicate Fits(e: Entry, o: Outcome) {
    !Failed(o) ==> OperationOf(o) == e.operation
  }

  ghost predicate HoldShaped(s: State, c: nat)
    requires c in s.holds
  {
    var h := s.holds[c];
    && c < s.next && h.entry.id in s.rows && SameWork(h.entry, s.rows[h.entry.id])
    && h.entry.attempts >= 1 && h.entry.nextAttemptAt.Some?
    && (!h.phase.Fresh? ==> Fits(h.entry, h.phase.o))
  }

  ghost predicate RowShaped(s: State, id: nat)
    requires id in s.rows
  {
    id in s.origins && id in s.crashes && SameRowWork(s.rows[id], s.origins[id].row) && s.origins[id].mark <= |s.log|
  }

  ghost predicate Shaped(s: State) {
    && (forall id :: id in s.rows ==> RowShaped(s, id))
    && (forall c :: c in s.holds ==> HoldShaped(s, c))
  }

  lemma AnswerFits(registry: Registry, e: Entry, o: Outcome)
    requires Answers(CallFor(registry, e.resolver, e.operation), o)
    ensures Fits(e, o)
  {}

  /** A row's work never changes. */
  lemma WorkStays(cfg: Config, s: State, a: Action, s': State, id: nat)
    requires Moves(cfg, s, a, s') && id in s.rows
    ensures id in s'.rows && SameRowWork(s'.rows[id], s.rows[id])
  {
    RowMoves(cfg, s, a, s', id);
    hide Moves;
  }

  lemma StepRowShaped(cfg: Config, s: State, a: Action, s': State, id: nat)
    requires Shaped(s) && Moves(cfg, s, a, s') && id in s'.rows
    ensures RowShaped(s', id)
  {
    LogGrows(cfg, s, a, s');
    RowMoves(cfg, s, a, s', id);
    TraceMoves(cfg, s, a, s', id);
    if id in s.rows { WorkStays(cfg, s, a, s', id); }
    hide Moves, Appended, RowMove, HoldShaped, CrashCount;
    assert id in s.rows ==> RowShaped(s, id);
  }

  lemma StepHoldShaped(cfg: Config, s: State, a: Action, s': State, c: nat)
    requires Shaped(s) && Moves(cfg, s, a, s') && c in s'.holds
    ensures HoldShaped(s', c)
  {
    HoldMoves(cfg, s, a, s', c);
    NewClaimsAreNew(cfg, s, a, s', c);
    hide Moves;
    if c in s.holds {
      assert HoldShaped(s, c);
      hide HoldShaped, RowShaped, HoldMove;
      WorkStays(cfg, s, a, s', s.holds[c].entry.id);
      HoldStaysShaped(cfg, s, a, s', c);
    } else {
      hide HoldShaped, RowShaped, HoldMove;
      WorkStays(cfg, s, a, s', a.id);
      NewHoldShaped(cfg, s, a, s', c);
    }
  }

  lemma NewClaimsAreNew(cfg: Config, s: State, a: Action, s': State, c: nat)
    requires Shaped(s) && c in s'.holds && HoldMove(cfg, s, a, c, s'.holds[c])
    ensures c in s.holds ==> c < s.next
    ensures c !in s.holds ==> a.TakeClaim? && c == s.next && a.id in s.rows
  {
    hide JudgeHold, RowShaped;
    assert c in s.holds ==> HoldShaped(s, c);
  }

  lemma NewHoldShaped(cfg: Config, s: State, a: Action, s': State, c: nat)
    requires c !in s.holds && c in s'.holds && HoldMove(cfg, s, a, c, s'.holds[c]) && s'.next > c
    requires a.TakeClaim? && a.id in s.rows && a.id in s'.rows && SameRowWork(s'.rows[a.id], s.rows[a.id])
    ensures HoldShaped(s', c)
  {
    hide JudgeHold;
  }

  lemma HoldStaysShaped(cfg: Config, s: State, a: Action, s': State, c: nat)
    requires c in s.holds && HoldShaped(s, c) && c in s'.holds && HoldMove(cfg, s, a, c, s'.holds[c])
    requires s'.next >= s.next
    requires s.holds[c].entry.id in s'.rows && SameRowWork(s'.rows[s.holds[c].entry.id], s.rows[s.holds[c].entry.id])
    requires a.TakeClaim? ==> c != s.next
    ensures HoldShaped(s', c)
  {
    hide JudgeHold;
  }

  lemma StepShaped(cfg: Config, s: State, a: Action, s': State)
    requires Shaped(s) && Moves(cfg, s, a, s')
    ensures Shaped(s')
  {
    hide Moves, RowShaped, HoldShaped;
    forall id | id in s'.rows ensures RowShaped(s', id) { StepRowShaped(cfg, s, a, s', id); }
    forall c | c in s'.holds ensures HoldShaped(s', c) { StepHoldShaped(cfg, s, a, s', c); }
  }

  // Audit precedes status.

  predicate EventFits(e: Event, id: nat, status: Status) {
    match status
    case SUCCEEDED => e.StepSucceeded? && e.entry == id
    case ABANDONED => e.StepAbandoned? && e.entry == id
    case SCHEDULED => e.ExpiryScheduled? && e.entry == id
    case _ => false
  }

  predicate Settled(status: Status) {
    status == SUCCEEDED || status == ABANDONED || status == SCHEDULED
  }

  function StatusAfter(v: Verdict): Status {
    match v
    case Succeed => SUCCEEDED
    case Park(_) => SCHEDULED
    case Abandon(_) => ABANDONED
    case Retry(_) => FAILED
    case Propagate => IN_FLIGHT
  }

  /** The claim was on the entry, and it recorded the event of that outcome after it was taken. */
  ghost predicate ClaimLogged(s: State, c: nat, id: nat, status: Status) {
    && c in s.ledger.taken && s.ledger.taken[c].entry == id
    && c in s.ledger.recorded && s.ledger.taken[c].mark <= s.ledger.recorded[c] < |s.log|
    && EventFits(s.log[s.ledger.recorded[c]], id, status)
  }

  ghost predicate RowAudited(s: State, id: nat)
    requires id in s.rows
  {
    Settled(s.rows[id].status) ==> id in s.ledger.settler && ClaimLogged(s, s.ledger.settler[id], id, s.rows[id].status)
  }

  ghost predicate HoldAudited(cfg: Config, s: State, c: nat)
    requires c in s.holds
  {
    var h := s.holds[c];
    && c in s.ledger.taken && s.ledger.taken[c].entry == h.entry.id && s.ledger.taken[c].mark <= |s.log|
    && (if h.phase.Recorded? then
          Settled(StatusAfter(JudgeHold(cfg, h))) && ClaimLogged(s, c, h.entry.id, StatusAfter(JudgeHold(cfg, h)))
        else c !in s.ledger.recorded)
  }

  /** Claims are numbered as they are taken, and no two recorded the same event. */
  ghost predicate LedgerSound(s: State) {
    && (forall c :: c in s.ledger.taken ==> c < s.next)
    && (forall c :: c in s.ledger.recorded ==> c < s.next && s.ledger.recorded[c] < |s.log|)
    && (forall c, d :: c in s.ledger.recorded && d in s.ledger.recorded
                       && s.ledger.recorded[c] == s.ledger.recorded[d] ==>
         c == d)
  }

  ghost predicate Audited(cfg: Config, s: State) {
    && LedgerSound(s)
    && (forall id :: id in s.rows ==> RowAudited(s, id))
    && (forall c :: c in s.holds ==> HoldAudited(cfg, s, c))
  }

  lemma StepLedger(cfg: Config, s: State, a: Action, s': State)
    requires LedgerSound(s) && Moves(cfg, s, a, s') && (a.Record? ==> a.c < s.next && |Appended(cfg, s, a)| > 0)
    ensures LedgerSound(s')
  {
    LogGrows(cfg, s, a, s');
    LedgerMoves(cfg, s, a, s');
    hide Moves, Appended, Bookable, JudgeHold;
  }

  /** What a claim has logged stays logged. */
  lemma LoggedStays(cfg: Config, s: State, a: Action, s': State, c: nat, id: nat, status: Status)
    requires Moves(cfg, s, a, s') && ClaimLogged(s, c, id, status)
    requires a.TakeClaim? ==> c != s.next
    requires a.Record? ==> a.c != c
    ensures ClaimLogged(s', c, id, status)
  {
    LogGrows(cfg, s, a, s');
    LedgerMoves(cfg, s, a, s');
    hide Moves, Appended, Bookable, JudgeHold, EventFits;
  }

  /** The claim that settled a row, as it stood before the step. */
  lemma SettlerLogged(cfg: Config, s: State, a: Action, s': State, id: nat)
    requires Audited(cfg, s) && Moves(cfg, s, a, s') && id in s'.rows && Settled(s'.rows[id].status)
    ensures id in s'.ledger.settler && ClaimLogged(s, s'.ledger.settler[id], id, s'.rows[id].status)
  {
    RowMoves(cfg, s, a, s', id);
    LedgerMoves(cfg, s, a, s');
    if a.Book? { HolderIsKnown(cfg, s, a, s'); }
    assert id in s.rows && RowAudited(s, id);
    hide Moves, ClaimLogged, HoldMove, LedgerSound, Mark;
    if a.Book? && s.holds[a.c].entry.id == id {
      BookedStatus(cfg, s.rows[id], s.holds[a.c], s.now);
    }
    hide BookedRow;
  }

  lemma BookedStatus(cfg: Config, row: Row, h: Hold, now: int)
    requires Bookable(cfg, h)
    ensures !JudgeHold(cfg, h).Propagate? ==> BookedRow(cfg, row, h, now).status == StatusAfter(JudgeHold(cfg, h))
    ensures JudgeHold(cfg, h).Propagate? ==> BookedRow(cfg, row, h, now) == row
  {}

  lemma StepRowAudited(cfg: Config, s: State, a: Action, s': State, id: nat)
    requires Audited(cfg, s) && Moves(cfg, s, a, s') && id in s'.rows
    ensures RowAudited(s', id)
  {
    if Settled(s'.rows[id].status) {
      SettlerLogged(cfg, s, a, s', id);
      var c := s'.ledger.settler[id];
      if a.Record? { HolderIsKnown(cfg, s, a, s'); }
      hide Moves, ClaimLogged, HoldAudited, RowAudited;
      ClaimIsOld(s, c, id, s'.rows[id].status);
      LoggedStays(cfg, s, a, s', c, id, s'.rows[id].status);
      RowIsAudited(s', id);
    }
  }

  lemma RowIsAudited(s: State, id: nat)
    requires id in s.rows && id in s.ledger.settler && ClaimLogged(s, s.ledger.settler[id], id, s.rows[id].status)
    ensures RowAudited(s, id)
  {}

  lemma ClaimIsOld(s: State, c: nat, id: nat, status: Status)
    requires LedgerSound(s) && ClaimLogged(s, c, id, status)
    ensures c < s.next && c in s.ledger.recorded
  {}

  /** The claim a step records or books for. */
  lemma HolderIsKnown(cfg: Config, s: State, a: Action, s': State)
    requires Audited(cfg, s) && Moves(cfg, s, a, s') && (a.Book? || a.Record?)
    ensures a.c in s.holds && HoldAudited(cfg, s, a.c)
    ensures a.Record? ==> a.c !in s.ledger.recorded && Recordable(cfg, s.holds[a.c])
    ensures a.Book? ==> Bookable(cfg, s.holds[a.c])
  {
    hide Contract, InTransaction, StepEvent, RequeuedEvents, LedgerSound, RowAudited;
  }

  lemma StepHoldAudited(cfg: Config, s: State, a: Action, s': State, c: nat)
    requires Shaped(s) && Audited(cfg, s) && Moves(cfg, s, a, s') && c in s'.holds
    ensures HoldAudited(cfg, s', c)
  {
    hide Shaped, Appended, Contract, RequeuedEvents, RowAudited;
    HoldMoves(cfg, s, a, s', c);
    LedgerMoves(cfg, s, a, s');
    LogGrows(cfg, s, a, s');
    NewClaimsAreNew(cfg, s, a, s', c);
    if a.Record? {
      HolderIsKnown(cfg, s, a, s');
      RecordLogs(cfg, s, a);
    }
    if c in s.holds {
      assert HoldAudited(cfg, s, c);
      if s.holds[c].phase.Recorded? {
        LoggedStays(cfg, s, a, s', c, s.holds[c].entry.id, StatusAfter(JudgeHold(cfg, s.holds[c])));
      }
    }
  }

  /** The one event a claim records, of the outcome it will book. */
  lemma RecordLogs(cfg: Config, s: State, a: Action)
    requires Enabled(cfg, s, a) && a.Record?
    ensures a.c in s.holds && Recordable(cfg, s.holds[a.c])
    ensures var h := s.holds[a.c];
            && Settled(StatusAfter(JudgeHold(cfg, h)))
            && |Appended(cfg, s, a)| == 1
            && EventFits(Appended(cfg, s, a)[0], h.entry.id, StatusAfter(JudgeHold(cfg, h)))
  {}

  lemma StepAudited(cfg: Config, s: State, a: Action, s': State)
    requires Shaped(s) && Audited(cfg, s) && Moves(cfg, s, a, s')
    ensures Audited(cfg, s')
  {
    if a.Record? {
      HolderIsKnown(cfg, s, a, s');
      assert HoldShaped(s, a.c);
      RecordLogs(cfg, s, a);
    }
    hide Moves, Shaped, RowAudited, HoldAudited, LedgerSound, Appended;
    StepLedger(cfg, s, a, s');
    forall id | id in s'.rows ensures RowAudited(s', id) { StepRowAudited(cfg, s, a, s', id); }
    forall c | c in s'.holds ensures HoldAudited(cfg, s', c) { StepHoldAudited(cfg, s, a, s', c); }
  }

  // Terminal rows are cleared.

  ghost predicate Cleared(s: State) {
    forall id :: id in s.rows && Terminal(s.rows[id].status) ==>
         s.rows[id].payload == None && s.rows[id].nextAttemptAt == None
  }

  lemma StepCleared(cfg: Config, s: State, a: Action, s': State)
    requires Cleared(s) && Moves(cfg, s, a, s')
    ensures Cleared(s')
  {
    hide Moves;
    forall id | id in s'.rows && Terminal(s'.rows[id].status)
      ensures s'.rows[id].payload == None && s'.rows[id].nextAttemptAt == None
    {
      RowMoves(cfg, s, a, s', id);
    }
  }

  // Completion is never lost.

  ghost predicate AllSucceeded(rows: Rows, subject: string, op: Operation) {
    && (exists id :: id in rows && InGroup(rows[id], subject, op))
    && (forall id :: id in rows && InGroup(rows[id], subject, op) ==> rows[id].status == SUCCEEDED)
  }

  /** The completion event is in the trail, not before any of the group was enqueued. */
  ghost predicate CompletedSince(s: State, subject: string, op: Operation) {
    exists i :: 0 <= i < |s.log| && s.log[i] == Completed(subject, op) && NoneSince(s, subject, op, i)
  }

  ghost predicate NoneSince(s: State, subject: string, op: Operation, i: nat) {
    forall id :: id in s.rows && InGroup(s.rows[id], subject, op) && id in s.origins ==> s.origins[id].mark <= i
  }

  ghost predicate NeverLost(s: State) {
    forall subject, op :: AllSucceeded(s.rows, subject, op) ==> CompletedSince(s, subject, op)
  }

  /** No row of the group enters SUCCEEDED and none is added. */
  ghost predicate GroupOnlyFalls(s: State, s': State, subject: string, op: Operation) {
    && (forall id :: id in s.rows ==> id in s'.rows && SameRowWork(s'.rows[id], s.rows[id]))
    && (forall id :: id in s'.rows && InGroup(s'.rows[id], subject, op) ==> RowOnlyFalls(s, s', id))
  }

  ghost predicate RowOnlyFalls(s: State, s': State, id: nat)
    requires id in s'.rows
  {
    && id in s.rows && id in s.origins && id in s'.origins && s'.origins[id] == s.origins[id]
    && (s'.rows[id].status == SUCCEEDED ==> s.rows[id].status == SUCCEEDED)
  }

  lemma FallingKeeps(s: State, s': State, more: seq<Event>, subject: string, op: Operation)
    requires NeverLost(s) && s'.log == s.log + more && GroupOnlyFalls(s, s', subject, op)
    requires AllSucceeded(s'.rows, subject, op)
    ensures CompletedSince(s', subject, op)
  {
    assert AllSucceeded(s.rows, subject, op) by {
      forall id | id in s.rows && InGroup(s.rows[id], subject, op) ensures s.rows[id].status == SUCCEEDED {
        assert RowOnlyFalls(s, s', id);
      }
    }
    var i :| 0 <= i < |s.log| && s.log[i] == Completed(subject, op) && NoneSince(s, subject, op, i);
    assert s'.log[i] == Completed(subject, op);
    forall id | id in s'.rows && InGroup(s'.rows[id], subject, op) && id in s'.origins
      ensures s'.origins[id].mark <= i
    {
      assert RowOnlyFalls(s, s', id);
    }
    assert NoneSince(s', subject, op, i);
  }

  /** The booking of a success in the group. */
  predicate FinishesIn(cfg: Config, s: State, a: Action, subject: string, op: Operation) {
    && a.Book? && a.c in s.holds && Bookable(cfg, s.holds[a.c]) && JudgeHold(cfg, s.holds[a.c]).Succeed?
    && s.holds[a.c].entry.subject == subject && s.holds[a.c].entry.operation == op
  }

  lemma StepNeverLost(cfg: Config, s: State, a: Action, s': State)
    requires Shaped(s) && NeverLost(s) && Moves(cfg, s, a, s')
    ensures NeverLost(s')
  {
    LogGrows(cfg, s, a, s');
    hide Moves, Appended, Shaped, NeverLost, CompletedSince, GroupOnlyFalls, FinishesIn, AllSucceeded;
    forall subject: string, op: Operation | AllSucceeded(s'.rows, subject, op) ensures CompletedSince(s', subject, op) {
      if FinishesIn(cfg, s, a, subject, op) {
        LastOneCompletes(cfg, s, a, s', subject, op);
      } else {
        StepFalls(cfg, s, a, s', subject, op);
        FallingKeeps(s, s', Appended(cfg, s, a), subject, op);
      }
    }
    NeverLostIntro(s');
  }

  lemma NeverLostIntro(s: State)
    requires forall subject: string, op: Operation :: AllSucceeded(s.rows, subject, op) ==>
              CompletedSince(s, subject, op)
    ensures NeverLost(s)
  {}

  lemma StepFalls(cfg: Config, s: State, a: Action, s': State, subject: string, op: Operation)
    requires Shaped(s) && Moves(cfg, s, a, s') && AllSucceeded(s'.rows, subject, op)
    requires !FinishesIn(cfg, s, a, subject, op)
    ensures GroupOnlyFalls(s, s', subject, op)
  {
    hide Moves, Bookable, JudgeHold;
    forall id | id in s.rows ensures id in s'.rows && SameRowWork(s'.rows[id], s.rows[id]) {
      WorkStays(cfg, s, a, s', id);
    }
    forall id | id in s'.rows && InGroup(s'.rows[id], subject, op) ensures RowOnlyFalls(s, s', id) {
      StepRowFalls(cfg, s, a, s', subject, op, id);
    }
  }

  lemma StepRowFalls(cfg: Config, s: State, a: Action, s': State, subject: string, op: Operation, id: nat)
    requires Shaped(s) && Moves(cfg, s, a, s') && !FinishesIn(cfg, s, a, subject, op)
    requires id in s'.rows && InGroup(s'.rows[id], subject, op) && s'.rows[id].status == SUCCEEDED
    ensures RowOnlyFalls(s, s', id)
  {
    RowMoves(cfg, s, a, s', id);
    TraceMoves(cfg, s, a, s', id);
    hide Moves;
    if id in s.rows {
      assert RowShaped(s, id);
      if a.Book? && a.c in s.holds { assert HoldShaped(s, a.c); }
    }
  }

  lemma LastOneCompletes(cfg: Config, s: State, a: Action, s': State, subject: string, op: Operation)
    requires Shaped(s) && Moves(cfg, s, a, s') && FinishesIn(cfg, s, a, subject, op)
    requires AllSucceeded(s'.rows, subject, op)
    ensures CompletedSince(s', subject, op)
  {
    var h := s.holds[a.c];
    assert HoldShaped(s, a.c);
    LogGrows(cfg, s, a, s');
    assert Appended(cfg, s, a) == InTransaction(s.rows, h.entry, JudgeHold(cfg, h), h.phase.o);
    hide Moves, Appended;
    forall k | k in s.rows && k != h.entry.id && InGroup(s.rows[k], subject, op) ensures s.rows[k].status == SUCCEEDED {
      RowMoves(cfg, s, a, s', k);
    }
    assert OthersSucceeded(s.rows, h.entry.id, subject, op);
    assert s'.log == s.log + [Completed(subject, op)];
    forall id | id in s'.rows && id in s'.origins ensures s'.origins[id].mark <= |s.log| {
      RowMoves(cfg, s, a, s', id);
      TraceMoves(cfg, s, a, s', id);
      assert RowShaped(s, id);
    }
    assert s'.log[|s.log|] == Completed(subject, op) && NoneSince(s', subject, op, |s.log|);
  }

  // Done means gone outside.

  ghost predicate Gone(cfg: Config, s: State) {
    && (forall id :: id in s.rows ==> RowGone(s, id))
    && (forall c :: c in s.holds ==> HoldGone(cfg, s, c))
  }

  ghost predicate RowGone(s: State, id: nat)
    requires id in s.rows
  {
    s.rows[id].status == SUCCEEDED && s.rows[id].operation == ERASE ==> Absent(s.world, s.now, PlaceOfRow(s.rows[id]))
  }

  ghost predicate HoldGone(cfg: Config, s: State, c: nat)
    requires c in s.holds
  {
    var h := s.holds[c];
    h.entry.operation == ERASE && !h.phase.Fresh? && JudgeHold(cfg, h).Succeed? ==>
      Absent(s.world, s.now, PlaceOf(h.entry))
  }

  lemma StepRowGone(cfg: Config, s: State, a: Action, s': State, id: nat)
    requires Shaped(s) && Gone(cfg, s) && Moves(cfg, s, a, s') && id in s'.rows
    ensures RowGone(s', id)
  {
    WorldMoves(cfg, s, a, s');
    RowMoves(cfg, s, a, s', id);
    hide Moves, Absent, RowShaped;
    assert id in s.rows ==> RowGone(s, id);
    if a.Book? && a.c in s.holds { assert HoldShaped(s, a.c) && HoldGone(cfg, s, a.c); }
  }

  lemma StepHoldGone(cfg: Config, s: State, a: Action, s': State, c: nat)
    requires Gone(cfg, s) && Moves(cfg, s, a, s') && c in s'.holds
    ensures HoldGone(cfg, s', c)
  {
    WorldMoves(cfg, s, a, s');
    HoldMoves(cfg, s, a, s', c);
    hide Moves, Absent, RowGone;
    assert c in s.holds ==> HoldGone(cfg, s, c);
  }

  lemma StepGone(cfg: Config, s: State, a: Action, s': State)
    requires Shaped(s) && Gone(cfg, s) && Moves(cfg, s, a, s')
    ensures Gone(cfg, s')
  {
    hide Moves, Shaped, RowGone, HoldGone;
    forall id | id in s'.rows ensures RowGone(s', id) { StepRowGone(cfg, s, a, s', id); }
    forall c | c in s'.holds ensures HoldGone(cfg, s', c) { StepHoldGone(cfg, s, a, s', c); }
  }

  // --- every run ---------------------------------------------------------------------------------

  ghost predicate Sound(cfg: Config, s: State) {
    Shaped(s) && Audited(cfg, s) && Cleared(s) && NeverLost(s) && Gone(cfg, s)
  }

  predicate Initial(s: State) {
    && s.rows == map[] && s.log == [] && s.holds == map[] && s.origins == map[] && s.crashes == map[]
    && s.ledger == Ledger(map[], map[], map[])
  }

  ghost predicate StepAt(cfg: Config, states: seq<State>, acts: seq<Action>, i: nat)
    requires i < |acts| && |states| == |acts| + 1
  {
    Enabled(cfg, states[i], acts[i]) && states[i + 1] == Apply(cfg, states[i], acts[i])
  }

  ghost predicate Run(cfg: Config, states: seq<State>, acts: seq<Action>) {
    && |states| == |acts| + 1 && Initial(states[0])
    && forall i :: 0 <= i < |acts| ==> StepAt(cfg, states, acts, i)
  }

  lemma StepSound(cfg: Config, s: State, a: Action)
    requires Sound(cfg, s) && Enabled(cfg, s, a)
    ensures Sound(cfg, Apply(cfg, s, a))
  {
    var s' := Apply(cfg, s, a);
    assert Moves(cfg, s, a, s');
    hide *;
    SoundParts(cfg, s);
    StepShaped(cfg, s, a, s');
    StepAudited(cfg, s, a, s');
    StepCleared(cfg, s, a, s');
    StepNeverLost(cfg, s, a, s');
    StepGone(cfg, s, a, s');
    SoundParts(cfg, s');
  }

  lemma SoundParts(cfg: Config, s: State)
    ensures Sound(cfg, s) <==> Shaped(s) && Audited(cfg, s) && Cleared(s) && NeverLost(s) && Gone(cfg, s)
  {}

  /** In every state of every run, with any number of runners and any crashes, overruns and
      requeues: settled rows have their event, terminal rows hold no corrections, a wholly
      succeeded group has its completion event, and succeeded erasures are gone outside. */
  lemma {:induction false} EveryRunIsSound(cfg: Config, states: seq<State>, acts: seq<Action>, n: nat)
    requires Run(cfg, states, acts) && n < |states|
    ensures Sound(cfg, states[n])
  {
    if n == 0 {
      assert Sound(cfg, states[0]);
    } else {
      EveryRunIsSound(cfg, states, acts, n - 1);
      var i := n - 1;
      assert StepAt(cfg, states, acts, i);
      StepSound(cfg, states[i], acts[i]);
    }
  }

  /** One event per settled claim, over the whole history: no two claims recorded the same event, and
      the succeeded, abandoned and parked rows map one to one to places in the trail, each the place
      of an event its own settling claim appended after it was taken. */
  lemma SettledClaimsInject(cfg: Config, s: State) returns (f: map<nat, nat>)
    requires Sound(cfg, s)
    ensures forall c, d :: c in s.ledger.recorded && d in s.ledger.recorded
                           && s.ledger.recorded[c] == s.ledger.recorded[d] ==>
              c == d
    ensures forall id :: id in s.rows && Settled(s.rows[id].status) ==> id in f
    ensures forall id :: id in f ==> id in s.rows && f[id] < |s.log| && EventFits(s.log[f[id]], id, s.rows[id].status)
    ensures forall id :: id in f ==>
              && id in s.ledger.settler && s.ledger.settler[id] in s.ledger.taken
              && s.ledger.taken[s.ledger.settler[id]].entry == id && s.ledger.taken[s.ledger.settler[id]].mark <= f[id]
    ensures forall i, j :: i in f && j in f && f[i] == f[j] ==> i == j
  {
    forall id | id in s.rows ensures RowAudited(s, id) {}
    f := map id | id in s.rows && Settled(s.rows[id].status) :: s.ledger.recorded[s.ledger.settler[id]];
  }

  // --- what a completion event says ---------------------------------------------------------------

  predicate Finishes(s: State, a: Action, c: nat) {
    (a == Book(c) || a == CompleteThenCrash(c)) && c in s.holds
  }

  lemma CompletionComesFrom(cfg: Config, s: State, a: Action, subject: string, op: Operation) returns (c: nat)
    requires Enabled(cfg, s, a) && Completed(subject, op) in Appended(cfg, s, a)
    ensures Finishes(s, a, c) && s.holds[c].phase.Recorded?
    ensures InTransaction(s.rows, s.holds[c].entry, JudgeHold(cfg, s.holds[c]), s.holds[c].phase.o)
            == [Completed(subject, op)]
  {
    assert a.Book? || a.CompleteThenCrash?;
    c := a.c;
  }

  lemma FinisherFacts(cfg: Config, s: State, c: nat, subject: string, op: Operation)
    requires Sound(cfg, s) && c in s.holds && s.holds[c].phase.Recorded?
    requires InTransaction(s.rows, s.holds[c].entry, JudgeHold(cfg, s.holds[c]), s.holds[c].phase.o)
             == [Completed(subject, op)]
    ensures s.holds[c].entry.id in s.rows && InGroup(s.rows[s.holds[c].entry.id], subject, op)
    ensures OthersSucceeded(s.rows, s.holds[c].entry.id, subject, op)
    ensures ClaimLogged(s, c, s.holds[c].entry.id, SUCCEEDED)
    ensures op == ERASE ==> Absent(s.world, s.now, PlaceOfRow(s.rows[s.holds[c].entry.id]))
  {
    hide NeverLost, Cleared, LedgerSound, RowAudited, RowShaped, RowGone, ClaimLogged, Absent;
    assert HoldShaped(s, c) && HoldAudited(cfg, s, c) && HoldGone(cfg, s, c);
  }

  lemma SiblingsAbsent(cfg: Config, s: State, id: nat, subject: string)
    requires Gone(cfg, s) && OthersSucceeded(s.rows, id, subject, ERASE)
    ensures forall k :: k in s.rows && k != id && InGroup(s.rows[k], subject, ERASE) ==>
              Absent(s.world, s.now, PlaceOfRow(s.rows[k]))
  {
    hide Absent, HoldGone;
    forall k | k in s.rows && k != id && InGroup(s.rows[k], subject, ERASE)
      ensures Absent(s.world, s.now, PlaceOfRow(s.rows[k]))
    {
      assert RowGone(s, k);
    }
  }

  /** A completion event is appended only by finishing an entry of that subject and operation, when
      every other row of the group has succeeded and the claim's own success is in the trail; for an
      erasure every system of the group's rows is then without the data. */
  lemma CompletionIsSound(cfg: Config, s: State, a: Action, subject: string, op: Operation)
    requires Sound(cfg, s) && Enabled(cfg, s, a)
    requires Completed(subject, op) in Appended(cfg, s, a)
    ensures exists c :: Finishes(s, a, c) && s.holds[c].entry.id in s.rows
              && InGroup(s.rows[s.holds[c].entry.id], subject, op)
              && (forall id :: id in s.rows && id != s.holds[c].entry.id && s.rows[id].subject == subject
                               && s.rows[id].operation == op ==>
                   s.rows[id].status == SUCCEEDED)
              && ClaimLogged(s, c, s.holds[c].entry.id, SUCCEEDED)
    ensures op == ERASE ==>
              forall id :: id in s.rows && InGroup(s.rows[id], subject, op) ==>
                   Absent(s.world, s.now, PlaceOfRow(s.rows[id]))
  {
    var c := CompletionComesFrom(cfg, s, a, subject, op);
    FinisherFacts(cfg, s, c, subject, op);
    if op == ERASE {
      SiblingsAbsent(cfg, s, s.holds[c].entry.id, subject);
    }
    hide Sound, Enabled, Appended, ClaimLogged, Absent;
  }
}

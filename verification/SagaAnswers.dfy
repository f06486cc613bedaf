/** What the rows of the outbox owe to the resolvers: in every run, leases honoured or not, a row that is
    neither waiting nor claimed stands exactly as a resolver's answer for it demands. */
module SagaAnswers {
  import opened Wrappers
  import opened OutboxStore
  import opened Runner
  import opened SagaProtocol

  /** Claim `c` was answered by the call that is step `k`. */
  ghost predicate AnsweredAt(states: seq<State>, acts: seq<Action>, k: nat, c: nat, e: Entry, o: Outcome) {
    && k < |acts| && k < |states| && acts[k].CallResolver? && acts[k].c == c && acts[k].answer == o
    && c in states[k].holds && states[k].holds[c].entry == e
  }

  /** An answer a claim holds was given by a call made on that claim. */
  lemma {:induction false} AnswersComeFromCalls(cfg: Config, states: seq<State>, acts: seq<Action>, n: nat, c: nat)
    returns (k: nat)
    requires Run(cfg, states, acts) && n < |states| && c in states[n].holds && !states[n].holds[c].phase.Fresh?
    ensures k < n && AnsweredAt(states, acts, k, c, states[n].holds[c].entry, states[n].holds[c].phase.o)
  {
    assert n != 0;
    var m := n - 1;
    assert StepAt(cfg, states, acts, m) && Moves(cfg, states[m], acts[m], states[n]);
    HoldMoves(cfg, states[m], acts[m], states[n], c);
    if acts[m].CallResolver? && acts[m].c == c && states[m].holds[c].phase.Fresh? {
      k := m;
    } else {
      k := AnswersComeFromCalls(cfg, states, acts, m, c);
    }
  }

  /** Neither waiting for its first claim nor claimed. */
  predicate IsBooked(row: Row) {
    row.status != PENDING && row.status != IN_FLIGHT
  }

  /** The row stands as step `j` booked it for the answer given at step `k`, to the claim of entry `e`. */
  ghost predicate StandsAsBooked(cfg: Config, states: seq<State>, acts: seq<Action>, n: nat, id: nat, k: nat, j: nat,
                                 e: Entry)
  {
    && k < j < n < |states| == |acts| + 1 && e.id == id && e.attempts >= 1
    && acts[j].Book? && acts[k].CallResolver? && AnsweredAt(states, acts, k, acts[j].c, e, acts[k].answer)
    && id in states[j].rows && id in states[n].rows
    && (forall m :: j < m <= n ==> id in states[m].rows && states[m].rows[id] == states[n].rows[id])
    && RowFits(cfg, e, acts[k].answer, states[j].now, states[j].rows[id], states[n].rows[id])
  }

  lemma BookedRowFits(cfg: Config, row: Row, h: Hold, now: int)
    requires Bookable(cfg, h) && BookedRow(cfg, row, h, now) != row
    ensures RowFits(cfg, h.entry, h.phase.o, now, row, BookedRow(cfg, row, h, now))
  {}

  /** In every state of every run, a booked row is as the answer it was booked for demands: succeeded rows
      rest on a reported end, parked rows wait for the horizon the resolver named, abandoned rows were
      refused or had spent their budget, and failed rows had not. */
  lemma {:induction false} BookedRowsAreAnswered(cfg: Config, states: seq<State>, acts: seq<Action>, n: nat, id: nat)
    returns (k: nat, j: nat, e: Entry)
    requires Run(cfg, states, acts) && n < |states| && id in states[n].rows && IsBooked(states[n].rows[id])
    ensures StandsAsBooked(cfg, states, acts, n, id, k, j, e)
  {
    assert n != 0;
    var m := n - 1;
    assert StepAt(cfg, states, acts, m) && Moves(cfg, states[m], acts[m], states[n]);
    RowMoves(cfg, states[m], acts[m], states[n], id);
    if id in states[m].rows && states[n].rows[id] == states[m].rows[id] {
      k, j, e := BookedRowsAreAnswered(cfg, states, acts, m, id);
    } else {
      j := m;
      var c := acts[m].c;
      e := states[m].holds[c].entry;
      k := AnswersComeFromCalls(cfg, states, acts, m, c);
      BookedRowFits(cfg, states[m].rows[id], states[m].holds[c], states[m].now);
    }
  }

  /** Where a claim came from. */
  lemma {:induction false} ClaimsAreTaken(cfg: Config, states: seq<State>, acts: seq<Action>, n: nat, c: nat)
    returns (m: nat)
    requires Run(cfg, states, acts) && n < |states| && c in states[n].holds
    ensures m < n && acts[m].TakeClaim? && acts[m].id == states[n].holds[c].entry.id
    ensures acts[m].id in states[m].rows && Due(states[m].rows[acts[m].id], states[m].now)
    ensures states[n].holds[c].wasParked <==> states[m].rows[acts[m].id].status == SCHEDULED
    ensures states[m].now <= states[n].now
  {
    assert n != 0;
    var i := n - 1;
    assert StepAt(cfg, states, acts, i) && Moves(cfg, states[i], acts[i], states[n]);
    HoldMoves(cfg, states[i], acts[i], states[n], c);
    WorldMoves(cfg, states[i], acts[i], states[n]);
    if c in states[i].holds && states[i].holds[c].entry == states[n].holds[c].entry
       && states[i].holds[c].wasParked == states[n].holds[c].wasParked
    {
      m := ClaimsAreTaken(cfg, states, acts, i, c);
    } else {
      m := i;
    }
  }

  /** A call on a claim that was taken on a parked entry comes no earlier than the horizon the resolver
      itself answered when the entry was parked. */
  lemma NoCallBeforeAnsweredHorizon(cfg: Config, states: seq<State>, acts: seq<Action>, n: nat)
    returns (m: nat, k: nat, j: nat, e: Entry)
    requires Run(cfg, states, acts) && n < |acts| && acts[n].CallResolver? && acts[n].c in states[n].holds
    requires states[n].holds[acts[n].c].wasParked
    ensures m < n && StandsAsBooked(cfg, states, acts, m, states[n].holds[acts[n].c].entry.id, k, j, e)
    ensures acts[k].answer.Expiry? && acts[k].answer.expiresAt.Some? && acts[k].answer.expiresAt.value <= states[n].now
  {
    m := ClaimsAreTaken(cfg, states, acts, n, acts[n].c);
    k, j, e := BookedRowsAreAnswered(cfg, states, acts, m, acts[m].id);
  }
}

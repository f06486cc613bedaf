/** What can still become of an entry: from any state of a run whose runners honour their leases,
    every entry can be brought to success, except an abandoned rectification. */
module SagaProgress {
  import opened Wrappers
  import opened Backoff
  import opened OutboxStore
  import opened Runner
  import opened SagaProtocol
  import opened SagaLeases
  import opened SagaRuns

  /** A run that goes on from another one. */
  ghost predicate Continues(states: seq<State>, acts: seq<Action>, states': seq<State>, acts': seq<Action>) {
    && |states| <= |states'| && states'[..|states|] == states
    && |acts| <= |acts'| && acts'[..|acts|] == acts
  }

  lemma ContinuesOn(s0: seq<State>, a0: seq<Action>, s1: seq<State>, a1: seq<Action>, s2: seq<State>, a2: seq<Action>)
    requires Continues(s0, a0, s1, a1) && Continues(s1, a1, s2, a2)
    ensures Continues(s0, a0, s2, a2)
  {
    assert s2[..|s0|] == s1[..|s0|] && a2[..|a0|] == a1[..|a0|];
  }

  ghost predicate Succeeded(states: seq<State>, id: nat) {
    && states != [] && id in states[|states| - 1].rows
    && states[|states| - 1].rows[id].status == SUCCEEDED
  }

  /** Some honoured continuation of the run ends with the entry succeeded. */
  ghost predicate CanSucceed(cfg: Config, states: seq<State>, acts: seq<Action>, id: nat) {
    exists states', acts' ::
      HonouredRun(cfg, states', acts') && Continues(states, acts, states', acts') && Succeeded(states', id)
  }

  lemma Next(cfg: Config, states: seq<State>, acts: seq<Action>, a: Action)
    returns (states': seq<State>, acts': seq<Action>)
    requires HonouredRun(cfg, states, acts) && Enabled(cfg, states[|acts|], a) && Honoured(states[|acts|], a)
    ensures HonouredRun(cfg, states', acts') && Continues(states, acts, states', acts')
    ensures |states'| == |acts'| + 1 && states'[|acts'|] == Apply(cfg, states[|acts|], a)
  {
    states', acts' := Then(cfg, states, acts, a);
    hide Enabled, Apply, Honoured, HonouredRun;
  }

  // --- driving one entry to success -------------------------------------------------------------

  /** A runner holds the entry freshly, with its lease running. */
  ghost predicate HeldBy(s: State, id: nat, c: nat) {
    && c in s.holds && s.holds[c].entry.id == id && id in s.rows && Live(s, c)
    && SameWork(s.holds[c].entry, s.rows[id]) && s.holds[c].entry.attempts >= 1
  }

  lemma ClaimWhenDue(cfg: Config, states: seq<State>, acts: seq<Action>, id: nat)
    returns (states': seq<State>, acts': seq<Action>, c: nat)
    requires HonouredRun(cfg, states, acts) && id in states[|acts|].rows && !Terminal(states[|acts|].rows[id].status)
    ensures HonouredRun(cfg, states', acts') && Continues(states, acts, states', acts') && |states'| == |acts'| + 1
    ensures HeldBy(states'[|acts'|], id, c) && states'[|acts'|].holds[c].phase == Fresh
    ensures states'[|acts'|].rows.Keys == states[|acts|].rows.Keys
  {
    var s := states[|acts|];
    var due := if s.rows[id].nextAttemptAt.Some? then Max(s.now, s.rows[id].nextAttemptAt.value) else s.now;
    var s1, a1 := Next(cfg, states, acts, Tick(due));
    states', acts' := Next(cfg, s1, a1, TakeClaim(id, 1));
    c := s.next;
    hide HonouredRun;
    ContinuesOn(states, acts, s1, a1, states', acts');
  }

  function Capable(resolver: string): Registry {
    map[resolver := Capability(false, true, false)]
  }

  function Answer(op: Operation): Outcome {
    if op == ERASE then Erased(false, None) else Rectified(false)
  }

  lemma CapableAnswers(resolver: string, op: Operation)
    ensures Answers(CallFor(Capable(resolver), resolver, op), Answer(op))
  {}

  lemma WithoutPlace(w: World, now: int, p: Place)
    ensures NeverReturns(now, w, w - {p}) && Absent(w - {p}, now, p)
  {}

  lemma AnswerWhileHeld(cfg: Config, states: seq<State>, acts: seq<Action>, id: nat, c: nat)
    returns (states': seq<State>, acts': seq<Action>)
    requires HonouredRun(cfg, states, acts) && HeldBy(states[|acts|], id, c) && states[|acts|].holds[c].phase == Fresh
    ensures HonouredRun(cfg, states', acts') && Continues(states, acts, states', acts') && |states'| == |acts'| + 1
    ensures HeldBy(states'[|acts'|], id, c)
    ensures states'[|acts'|].holds[c].phase == Answered(Answer(states[|acts|].holds[c].entry.operation))
    ensures states'[|acts'|].holds[c].entry == states[|acts|].holds[c].entry
    ensures states'[|acts'|].rows.Keys == states[|acts|].rows.Keys
  {
    var s := states[|acts|];
    var e := s.holds[c].entry;
    CapableAnswers(e.resolver, e.operation);
    WithoutPlace(s.world, s.now, PlaceOf(e));
    var call := CallResolver(c, Capable(e.resolver), Answer(e.operation), s.world - {PlaceOf(e)});
    states', acts' := Next(cfg, states, acts, call);
    hide HonouredRun;
  }

  lemma BookSuccess(cfg: Config, states: seq<State>, acts: seq<Action>, id: nat, c: nat)
    returns (states': seq<State>, acts': seq<Action>)
    requires HonouredRun(cfg, states, acts) && HeldBy(states[|acts|], id, c)
    requires states[|acts|].holds[c].phase == Answered(Answer(states[|acts|].holds[c].entry.operation))
    ensures HonouredRun(cfg, states', acts') && Continues(states, acts, states', acts') && |states'| == |acts'| + 1
    ensures Succeeded(states', id) && states'[|acts'|].rows.Keys == states[|acts|].rows.Keys
  {
    var s1, a1 := Next(cfg, states, acts, Record(c));
    states', acts' := Next(cfg, s1, a1, Book(c));
    hide HonouredRun;
    ContinuesOn(states, acts, s1, a1, states', acts');
  }

  lemma DriveToSuccess(cfg: Config, states: seq<State>, acts: seq<Action>, id: nat)
    returns (states': seq<State>, acts': seq<Action>)
    requires HonouredRun(cfg, states, acts) && id in states[|acts|].rows && !Terminal(states[|acts|].rows[id].status)
    ensures HonouredRun(cfg, states', acts') && Continues(states, acts, states', acts') && |states'| == |acts'| + 1
    ensures Succeeded(states', id) && states'[|acts'|].rows.Keys == states[|acts|].rows.Keys
  {
    hide HonouredRun, Continues, HeldBy, Succeeded;
    var s1, a1, c := ClaimWhenDue(cfg, states, acts, id);
    HeldIsHeld(s1[|a1|], id, c);
    var s2, a2 := AnswerWhileHeld(cfg, s1, a1, id, c);
    HeldIsHeld(s2[|a2|], id, c);
    states', acts' := BookSuccess(cfg, s2, a2, id, c);
    ContinuesOn(states, acts, s1, a1, s2, a2);
    ContinuesOn(states, acts, s2, a2, states', acts');
  }

  lemma HeldIsHeld(s: State, id: nat, c: nat)
    requires HeldBy(s, id, c)
    ensures c in s.holds
  {}

  lemma RequeueAbandoned(cfg: Config, states: seq<State>, acts: seq<Action>, id: nat)
    returns (states': seq<State>, acts': seq<Action>)
    requires HonouredRun(cfg, states, acts) && id in states[|acts|].rows
    requires states[|acts|].rows[id].status == ABANDONED && states[|acts|].rows[id].operation == ERASE
    ensures HonouredRun(cfg, states', acts') && Continues(states, acts, states', acts') && |states'| == |acts'| + 1
    ensures id in states'[|acts'|].rows && !Terminal(states'[|acts'|].rows[id].status)
    ensures states'[|acts'|].rows.Keys == states[|acts|].rows.Keys
  {
    states', acts' := Next(cfg, states, acts, Requeue([id]));
    hide HonouredRun;
  }

  /** An entry that is not an abandoned rectification is brought to success, with no new work. */
  lemma ToSuccess(cfg: Config, states: seq<State>, acts: seq<Action>, id: nat)
    returns (states': seq<State>, acts': seq<Action>)
    requires HonouredRun(cfg, states, acts) && id in states[|acts|].rows
    requires states[|acts|].rows[id].status != ABANDONED || states[|acts|].rows[id].operation == ERASE
    ensures HonouredRun(cfg, states', acts') && Continues(states, acts, states', acts') && |states'| == |acts'| + 1
    ensures Succeeded(states', id) && states'[|acts'|].rows.Keys == states[|acts|].rows.Keys
  {
    var row := states[|acts|].rows[id];
    if row.status == SUCCEEDED {
      states', acts' := states, acts;
    } else if row.status != ABANDONED {
      states', acts' := DriveToSuccess(cfg, states, acts, id);
    } else {
      var s1, a1 := RequeueAbandoned(cfg, states, acts, id);
      states', acts' := DriveToSuccess(cfg, s1, a1, id);
      ContinuesOn(states, acts, s1, a1, states', acts');
    }
  }

  // --- what is lost ---------------------------------------------------------------------------------

  /** An abandoned rectification never changes again. */
  lemma {:induction false} AbandonedRectificationStays(cfg: Config, states: seq<State>, acts: seq<Action>, n: nat,
                                                       m: nat, id: nat)
    requires HonouredRun(cfg, states, acts) && n <= m < |states| && id in states[n].rows
    requires states[n].rows[id].status == ABANDONED && states[n].rows[id].operation == RECTIFY
    ensures id in states[m].rows && states[m].rows[id] == states[n].rows[id]
    decreases m - n
  {
    if n < m {
      var k := m - 1;
      AbandonedRectificationStays(cfg, states, acts, n, k, id);
      HonouredRunsAreDisciplined(cfg, states, acts, k);
      assert StepAt(cfg, states, acts, k);
      assert Moves(cfg, states[k], acts[k], states[k + 1]);
      if acts[k].Requeue? { RequeueIsForErasures(cfg, states[k], acts[k]); }
      hide Sound, Moves, StepAt, Kept, Waits, Budgeted, Spaced, Exclusive;
      TerminalIsStable(cfg, states[k], acts[k], states[k + 1], id);
    }
  }

  lemma RequeueIsForErasures(cfg: Config, s: State, a: Action)
    requires Enabled(cfg, s, a) && a.Requeue?
    ensures forall id :: id in a.ids ==> id in s.rows && s.rows[id].operation == ERASE
  {}

  /** No dead ends but one: from any state of an honoured run an entry can still be brought to success
      if and only if it is not an abandoned rectification. */
  lemma OnlyAbandonedRectificationsAreLost(cfg: Config, states: seq<State>, acts: seq<Action>, id: nat)
    requires HonouredRun(cfg, states, acts) && id in states[|acts|].rows
    ensures CanSucceed(cfg, states, acts, id)
            <==> !(states[|acts|].rows[id].status == ABANDONED && states[|acts|].rows[id].operation == RECTIFY)
  {
    var row := states[|acts|].rows[id];
    if row.status != ABANDONED || row.operation == ERASE {
      var s1, a1 := ToSuccess(cfg, states, acts, id);
    } else {
      forall s', a' | HonouredRun(cfg, s', a') && Continues(states, acts, s', a') ensures !Succeeded(s', id) {
        LostForGood(cfg, states, acts, s', a', id);
      }
    }
  }

  lemma LostForGood(cfg: Config, states: seq<State>, acts: seq<Action>, states': seq<State>, acts': seq<Action>,
                    id: nat)
    requires |states| == |acts| + 1 && HonouredRun(cfg, states', acts') && Continues(states, acts, states', acts')
    requires id in states[|acts|].rows && states[|acts|].rows[id].status == ABANDONED
    requires states[|acts|].rows[id].operation == RECTIFY
    ensures !Succeeded(states', id)
  {
    assert states'[|acts|] == states[|acts|];
    AbandonedRectificationStays(cfg, states', acts', |acts|, |states'| - 1, id);
  }
}

/** When a success can be taken back: exactly while a claim is outstanding that can still book anything
    else over it, whether or not its lease has run out. */
module SagaOverruns {
  import opened OutboxStore
  import opened Runner
  import opened SagaProtocol
  import opened SagaRuns
  import opened SagaProgress

  /** A claim whose booking can end otherwise than in success: not answered yet, or judged so. */
  predicate CanUndo(cfg: Config, h: Hold) {
    h.phase.Fresh? || JudgeHold(cfg, h).Park? || JudgeHold(cfg, h).Abandon? || JudgeHold(cfg, h).Retry?
  }

  /** Such a claim is held on the entry. */
  ghost predicate Outstanding(cfg: Config, s: State, id: nat) {
    exists c :: c in s.holds && s.holds[c].entry.id == id && CanUndo(cfg, s.holds[c])
  }

  /** Some continuation of the run ends with the entry no longer succeeded. */
  ghost predicate CanReopen(cfg: Config, states: seq<State>, acts: seq<Action>, id: nat) {
    exists states', acts' ::
      Run(cfg, states', acts') && Continues(states, acts, states', acts') && !Succeeded(states', id)
  }

  // --- without such a claim it stays ---------------------------------------------------------

  /** One step takes a row out of success exactly when it books a claim on it that did not succeed. */
  lemma OnlyLateBookingsReopen(cfg: Config, s: State, a: Action, s': State, id: nat)
    requires Moves(cfg, s, a, s') && id in s.rows && s.rows[id].status == SUCCEEDED
    ensures id in s'.rows
    ensures s'.rows[id].status != SUCCEEDED
            <==> && a.Book? && a.c in s.holds && s.holds[a.c].entry.id == id && !s.holds[a.c].phase.Fresh?
                 && CanUndo(cfg, s.holds[a.c])
  {
    RowMoves(cfg, s, a, s', id);
    if a.Book? { assert Bookable(cfg, s.holds[a.c]); }
    hide Moves;
  }

  /** No claim on a succeeded row is new, and none that could only succeed turns into one that can undo it. */
  lemma NoneArises(cfg: Config, s: State, a: Action, s': State, id: nat)
    requires Moves(cfg, s, a, s') && id in s.rows && s.rows[id].status == SUCCEEDED && !Outstanding(cfg, s, id)
    ensures !Outstanding(cfg, s', id)
  {
    forall c | c in s'.holds && s'.holds[c].entry.id == id ensures !CanUndo(cfg, s'.holds[c]) {
      HoldMoves(cfg, s, a, s', c);
      hide Moves;
    }
  }

  lemma {:induction false} SuccessStays(cfg: Config, states: seq<State>, acts: seq<Action>, n: nat, m: nat, id: nat)
    requires Run(cfg, states, acts) && n <= m < |states| && id in states[n].rows
    requires states[n].rows[id].status == SUCCEEDED && !Outstanding(cfg, states[n], id)
    ensures id in states[m].rows && states[m].rows[id].status == SUCCEEDED && !Outstanding(cfg, states[m], id)
    decreases m - n
  {
    if n < m {
      var k := m - 1;
      SuccessStays(cfg, states, acts, n, k, id);
      assert StepAt(cfg, states, acts, k);
      assert Moves(cfg, states[k], acts[k], states[m]);
      hide Moves, StepAt, CanUndo;
      OnlyLateBookingsReopen(cfg, states[k], acts[k], states[m], id);
      NoneArises(cfg, states[k], acts[k], states[m], id);
    }
  }

  // --- with one it can be taken back --------------------------------------------------------------

  lemma Onward(cfg: Config, states: seq<State>, acts: seq<Action>, a: Action)
    returns (states': seq<State>, acts': seq<Action>)
    requires Run(cfg, states, acts) && Enabled(cfg, states[|acts|], a)
    ensures Run(cfg, states', acts') && Continues(states, acts, states', acts')
    ensures |states'| == |acts'| + 1 && states'[|acts'|] == Apply(cfg, states[|acts|], a)
  {
    states', acts' := Then(cfg, states, acts, a);
    hide Enabled, Apply, Run;
  }

  /** A claim on the entry is held, whose verdict is one of the three. */
  ghost predicate Undoing(cfg: Config, s: State, id: nat, c: nat) {
    && id in s.rows && c in s.holds && s.holds[c].entry.id == id && s.holds[c].entry.attempts >= 1
    && !s.holds[c].phase.Fresh? && CanUndo(cfg, s.holds[c])
  }

  /** An unanswered claim can be refused. */
  lemma Refuse(cfg: Config, states: seq<State>, acts: seq<Action>, id: nat, c: nat)
    returns (states': seq<State>, acts': seq<Action>)
    requires Run(cfg, states, acts) && id in states[|acts|].rows && c in states[|acts|].holds
    requires var h := states[|acts|].holds[c]; h.phase.Fresh? && h.entry.id == id && h.entry.attempts >= 1
    ensures Run(cfg, states', acts') && Continues(states, acts, states', acts') && |states'| == |acts'| + 1
    ensures Undoing(cfg, states'[|acts'|], id, c)
  {
    states', acts' := Onward(cfg, states, acts, CallResolver(c, map[], Refused("refused"), states[|acts|].world));
    hide Run;
  }

  lemma BookLate(cfg: Config, states: seq<State>, acts: seq<Action>, id: nat, c: nat)
    returns (states': seq<State>, acts': seq<Action>)
    requires Run(cfg, states, acts) && Undoing(cfg, states[|acts|], id, c)
    requires Bookable(cfg, states[|acts|].holds[c])
    ensures Run(cfg, states', acts') && Continues(states, acts, states', acts') && !Succeeded(states', id)
  {
    var s := states[|acts|];
    states', acts' := Onward(cfg, states, acts, Book(c));
    RowMoves(cfg, s, Book(c), states'[|acts'|], id);
    hide Run, Moves;
  }

  lemma Undo(cfg: Config, states: seq<State>, acts: seq<Action>, id: nat, c: nat)
    requires Run(cfg, states, acts) && Undoing(cfg, states[|acts|], id, c)
    ensures CanReopen(cfg, states, acts, id)
  {
    if Bookable(cfg, states[|acts|].holds[c]) {
      var s1, a1 := BookLate(cfg, states, acts, id, c);
    } else {
      var s1, a1 := Onward(cfg, states, acts, Record(c));
      assert Undoing(cfg, s1[|a1|], id, c) && Bookable(cfg, s1[|a1|].holds[c]);
      hide Run, Undoing;
      var s2, a2 := BookLate(cfg, s1, a1, id, c);
      ContinuesOn(states, acts, s1, a1, s2, a2);
    }
  }

  /** A succeeded entry can be taken out of success if and only if a claim on it is outstanding that
      has no answer yet or is about to book a park, an abandonment or a retry. */
  lemma ReopenableExactly(cfg: Config, states: seq<State>, acts: seq<Action>, id: nat)
    requires Run(cfg, states, acts) && Succeeded(states, id)
    ensures CanReopen(cfg, states, acts, id) <==> Outstanding(cfg, states[|acts|], id)
  {
    var s := states[|acts|];
    if c :| c in s.holds && s.holds[c].entry.id == id && CanUndo(cfg, s.holds[c]) {
      EveryRunIsSound(cfg, states, acts, |acts|);
      SoundParts(cfg, s);
      assert HoldShaped(s, c);
      if s.holds[c].phase.Fresh? {
        var s1, a1 := Refuse(cfg, states, acts, id, c);
        UndoOn(cfg, states, acts, s1, a1, id, c);
      } else {
        Undo(cfg, states, acts, id, c);
      }
    } else {
      forall s', a' | Run(cfg, s', a') && Continues(states, acts, s', a') ensures Succeeded(s', id) {
        assert s'[|acts|] == states[|acts|];
        SuccessStays(cfg, s', a', |acts|, |s'| - 1, id);
      }
    }
  }

  lemma UndoOn(cfg: Config, states: seq<State>, acts: seq<Action>, s1: seq<State>, a1: seq<Action>, id: nat, c: nat)
    requires Continues(states, acts, s1, a1) && Run(cfg, s1, a1) && Undoing(cfg, s1[|a1|], id, c)
    ensures CanReopen(cfg, states, acts, id)
  {
    hide Run, Undoing;
    Undo(cfg, s1, a1, id, c);
    var s2, a2 :| Run(cfg, s2, a2) && Continues(s1, a1, s2, a2) && !Succeeded(s2, id);
    ContinuesOn(states, acts, s1, a1, s2, a2);
  }
}

/** How the runner's own code moves through the protocol, and two runs its comments rule out. */
module SagaRuns {
  import opened Wrappers
  import opened Backoff
  import opened OutboxStore
  import opened Runner
  import opened SagaProtocol
  import opened SagaLeases

  ghost predicate AllEnabled(cfg: Config, s: State, acts: seq<Action>)
    decreases |acts|
  {
    acts != [] ==> Enabled(cfg, s, acts[0]) && AllEnabled(cfg, Apply(cfg, s, acts[0]), acts[1..])
  }

  ghost function RunFrom(cfg: Config, s: State, acts: seq<Action>): State
    requires AllEnabled(cfg, s, acts)
    decreases |acts|
  {
    if acts == [] then s else RunFrom(cfg, Apply(cfg, s, acts[0]), acts[1..])
  }

  // --- the runner's code refines the steps ---------------------------------------------------

  /** A run of steps that ends with these books and without the claim. */
  ghost predicate EndsWith(cfg: Config, s: State, c: nat, acts: seq<Action>, b: Books) {
    && AllEnabled(cfg, s, acts)
    && RunFrom(cfg, s, acts).rows == b.rows
    && RunFrom(cfg, s, acts).log == b.log
    && RunFrom(cfg, s, acts).holds == s.holds - {c}
  }

  /** Booking an outcome, against a sink that may be down at any point, is a run of protocol
      steps: nothing the runner does leaves the protocol. */
  lemma SettleRefines(cfg: Config, s: State, c: nat, room: nat)
    requires c in s.holds && s.holds[c].phase.Answered? && s.holds[c].entry.attempts >= 1
    ensures var h := s.holds[c];
            var b := SettleOne(cfg, Books(s.rows, s.log, room), h.entry, h.phase.o, s.now).0;
            exists acts :: EndsWith(cfg, s, c, acts, b)
  {
    var h := s.holds[c];
    var e, o := h.entry, h.phase.o;
    var v := Judge(cfg, e.attempts, o);
    var first := StepEvent(e, v, o) + InTransaction(s.rows, e, v, o);
    var b := SettleOne(cfg, Books(s.rows, s.log, room), e, o, s.now).0;
    if v.Propagate? || (room < |first| && room == 0) {
      assert s.log + first[..0] == s.log;
      OneStep(cfg, s, Crash(c));
      assert EndsWith(cfg, s, c, [Crash(c)], b);
    } else if v.Retry? {
      assert s.log + [] + [] == s.log && s.log + [] == s.log;
      OneStep(cfg, s, Book(c));
      assert EndsWith(cfg, s, c, [Book(c)], b);
    } else {
      RecordedRefines(cfg, s, c, room);
    }
  }

  lemma RecordedRefines(cfg: Config, s: State, c: nat, room: nat)
    requires c in s.holds && s.holds[c].phase.Answered? && s.holds[c].entry.attempts >= 1
    requires var h := s.holds[c];
             var v := Judge(cfg, h.entry.attempts, h.phase.o);
             !v.Propagate? && !v.Retry? && room > 0
    ensures var h := s.holds[c];
            var b := SettleOne(cfg, Books(s.rows, s.log, room), h.entry, h.phase.o, s.now).0;
            exists acts :: EndsWith(cfg, s, c, acts, b)
  {
    var e, o := s.holds[c].entry, s.holds[c].phase.o;
    var v := Judge(cfg, e.attempts, o);
    var first := StepEvent(e, v, o) + InTransaction(s.rows, e, v, o);
    var b := SettleOne(cfg, Books(s.rows, s.log, room), e, o, s.now).0;
    var recorded := Apply(cfg, s, Record(c));
    assert recorded.holds - {c} == s.holds - {c};
    if room < |first| {
      assert first[..1] == StepEvent(e, v, o);
      TwoSteps(cfg, s, Record(c), Crash(c));
      assert EndsWith(cfg, s, c, [Record(c), Crash(c)], b);
    } else {
      assert s.log + first == s.log + StepEvent(e, v, o) + InTransaction(s.rows, e, v, o);
      if room > |first| && AfterEvents(e, o) != [] {
        var note := Note(AfterEvents(e, o)[0]);
        ThreeSteps(cfg, s, Record(c), Book(c), note);
        assert AfterEvents(e, o) == [note.event];
        assert EndsWith(cfg, s, c, [Record(c), Book(c), note], b);
      } else {
        TwoSteps(cfg, s, Record(c), Book(c));
        assert s.log + first + [] == s.log + first;
        assert EndsWith(cfg, s, c, [Record(c), Book(c)], b);
      }
    }
  }

  lemma OneStep(cfg: Config, s: State, a: Action)
    requires Enabled(cfg, s, a)
    ensures AllEnabled(cfg, s, [a]) && RunFrom(cfg, s, [a]) == Apply(cfg, s, a)
  {
    hide Enabled, Apply;
    assert [a][1..] == [];
    assert AllEnabled(cfg, Apply(cfg, s, a), []);
  }

  lemma TwoSteps(cfg: Config, s: State, a: Action, b: Action)
    requires Enabled(cfg, s, a) && Enabled(cfg, Apply(cfg, s, a), b)
    ensures AllEnabled(cfg, s, [a, b]) && RunFrom(cfg, s, [a, b]) == Apply(cfg, Apply(cfg, s, a), b)
  {
    hide Enabled, Apply;
    OneStep(cfg, Apply(cfg, s, a), b);
    assert [a, b][1..] == [b];
  }

  lemma ThreeSteps(cfg: Config, s: State, a: Action, b: Action, c: Action)
    requires Enabled(cfg, s, a) && Enabled(cfg, Apply(cfg, s, a), b) && Enabled(cfg, Apply(cfg, Apply(cfg, s, a), b), c)
    ensures AllEnabled(cfg, s, [a, b, c])
    ensures RunFrom(cfg, s, [a, b, c]) == Apply(cfg, Apply(cfg, Apply(cfg, s, a), b), c)
  {
    hide Enabled, Apply;
    TwoSteps(cfg, Apply(cfg, s, a), b, c);
    assert [a, b, c][1..] == [b, c];
  }

  function TakeClaims(ids: seq<nat>, lease: int): seq<Action> {
    seq(|ids|, i requires 0 <= i < |ids| => TakeClaim(ids[i], lease))
  }

  /** The i-th claim of the batch is held, by the entry handed out for it. */
  ghost predicate HeldFrom(s: State, s': State, ids: seq<nat>, lease: int, i: nat)
    requires i < |ids|
  {
    var c := s.next + i;
    && ids[i] in s.rows && c in s'.holds && s'.holds[c].phase.Fresh?
    && s'.holds[c].entry == ClaimedEntry(ids[i], s.rows[ids[i]], s.now, lease)
  }

  ghost predicate BatchHeld(s: State, s': State, ids: seq<nat>, lease: int) {
    && s'.next == s.next + |ids| && s'.log == s.log && s'.rows == Claim(s.rows, ids, s.now, lease)
    && (forall i :: 0 <= i < |ids| ==> HeldFrom(s, s', ids, lease, i))
    && (forall c :: c in s.holds && c < s.next ==> c in s'.holds && s'.holds[c] == s.holds[c])
  }

  /** A batch claim is its claims one after another, and each hold is the entry handed out. */
  lemma {:induction false} ClaimRefines(cfg: Config, s: State, ids: seq<nat>, lease: int)
    requires lease > 0 && (forall i, j :: 0 <= i < j < |ids| ==> ids[i] != ids[j])
    requires forall id :: id in ids ==> id in s.rows && Due(s.rows[id], s.now)
    ensures AllEnabled(cfg, s, TakeClaims(ids, lease))
    ensures BatchHeld(s, RunFrom(cfg, s, TakeClaims(ids, lease)), ids, lease)
    decreases |ids|
  {
    if ids == [] {
      assert Claim(s.rows, ids, s.now, lease) == s.rows;
    } else {
      var s1, rest := Apply(cfg, s, TakeClaim(ids[0], lease)), ids[1..];
      assert TakeClaims(ids, lease)[0] == TakeClaim(ids[0], lease);
      assert TakeClaims(ids, lease)[1..] == TakeClaims(rest, lease);
      assert forall id :: id in rest ==> id != ids[0] && id in ids;
      ClaimRefines(cfg, s1, rest, lease);
      BatchCons(cfg, s, RunFrom(cfg, s1, TakeClaims(rest, lease)), ids, lease);
    }
  }

  lemma BatchCons(cfg: Config, s: State, s': State, ids: seq<nat>, lease: int)
    requires lease > 0 && ids != [] && (forall id :: id in ids ==> id in s.rows) && Due(s.rows[ids[0]], s.now)
    requires ids[0] !in ids[1..]
    requires BatchHeld(Apply(cfg, s, TakeClaim(ids[0], lease)), s', ids[1..], lease)
    ensures BatchHeld(s, s', ids, lease)
  {
    var s1, rest := Apply(cfg, s, TakeClaim(ids[0], lease)), ids[1..];
    assert ids == [ids[0]] + rest;
    assert s'.rows == Claim(s.rows, ids, s.now, lease);
    assert s'.holds[s.next] == s1.holds[s.next];
    forall i | 0 <= i < |ids| ensures HeldFrom(s, s', ids, lease, i) {
      if i > 0 {
        var k := i - 1;
        assert HeldFrom(s1, s', rest, lease, k) && rest[k] == ids[i];
      }
    }
  }

  /** A requeue call is one step, also when the sink fails part way: the ids it flips are those
      the protocol lets it flip. */
  lemma RequeueRefines(cfg: Config, s: State, ids: seq<nat>, locked: seq<nat>, room: nat)
    requires LockOrder(s.rows, ids, locked)
    requires forall id :: id in AbandonedAmong(s.rows, locked) ==> s.rows[id].operation == ERASE
    ensures var abandoned := AbandonedAmong(s.rows, locked);
            && Enabled(cfg, s, Requeue(abandoned))
            && Apply(cfg, s, Requeue(abandoned)).rows == RequeuedRows(s.rows, abandoned)
            && Apply(cfg, s, Requeue(abandoned)).log == s.log + RequeuedEvents(s.rows, abandoned)
            && (room < |abandoned| ==>
                  && Enabled(cfg, s, RequeueCrash(abandoned, room))
                  && Apply(cfg, s, RequeueCrash(abandoned, room)).rows == s.rows
                  && Apply(cfg, s, RequeueCrash(abandoned, room)).log
                     == s.log + RequeuedEvents(s.rows, abandoned)[..room])
    ensures forall id :: id in ids && id in s.rows && s.rows[id].status == ABANDONED ==>
              id in AbandonedAmong(s.rows, locked)
  {
    forall id | id in locked ensures id in AbandonedAmong(s.rows, locked) <==> s.rows[id].status == ABANDONED {
      AbandonedMembers(s.rows, locked, id);
    }
  }

  // --- building runs ------------------------------------------------------------------------------

  lemma Extend(cfg: Config, states: seq<State>, acts: seq<Action>, a: Action)
    requires Run(cfg, states, acts) && Enabled(cfg, states[|acts|], a)
    ensures Run(cfg, states + [Apply(cfg, states[|acts|], a)], acts + [a])
    ensures HonouredRun(cfg, states, acts) && Honoured(states[|acts|], a) ==>
              HonouredRun(cfg, states + [Apply(cfg, states[|acts|], a)], acts + [a])
  {
    hide Enabled, Apply, Honoured;
    var states', acts' := states + [Apply(cfg, states[|acts|], a)], acts + [a];
    forall i | 0 <= i < |acts'| ensures StepAt(cfg, states', acts', i) {
      if i < |acts| { assert StepAt(cfg, states, acts, i); }
    }
  }

  lemma Begin(cfg: Config, s: State)
    requires Initial(s)
    ensures HonouredRun(cfg, [s], [])
  {}

  function NewEntry(): Entry {
    Entry(0, "subject", "crm", "ref", ERASE, [], PENDING, 0, 0, None, None, None)
  }

  function Empty(): State {
    State(map[], [], 0, map[], 0, map[], map[], map[], Ledger(map[], map[], map[]))
  }

  // --- a crash loop never ends -------------------------------------------------------------------------

  ghost predicate Looping(cfg: Config, states: seq<State>, acts: seq<Action>, n: nat) {
    && HonouredRun(cfg, states, acts)
    && var s := states[|acts|];
       && 0 in s.rows && s.rows[0].status == IN_FLIGHT && s.rows[0].attempts == n
       && s.rows[0].nextAttemptAt.Some? && s.rows[0].nextAttemptAt.value >= s.now
       && s.next > 0 && s.next - 1 in s.holds && s.log == []
  }

  /** Against the claim that a crashing entry converges to abandonment: whatever the budget, an
      entry whose runner crashes after every claim is claimed any number of times, is still in
      flight, and has left nothing in the trail. */
  lemma {:induction false} CrashLoopIsEndless(cfg: Config, n: nat) returns (states: seq<State>, acts: seq<Action>)
    requires n >= 1
    ensures Looping(cfg, states, acts, n)
  {
    if n == 1 {
      states, acts := [Empty()], [];
      Begin(cfg, Empty());
      states, acts := Then(cfg, states, acts, Enqueue(NewEntry()));
      states, acts := Then(cfg, states, acts, TakeClaim(0, 1));
    } else {
      states, acts := CrashLoopIsEndless(cfg, n - 1);
      var s := states[|acts|];
      states, acts := Then(cfg, states, acts, Crash(s.next - 1));
      states, acts := Then(cfg, states, acts, Tick(s.rows[0].nextAttemptAt.value));
      states, acts := Then(cfg, states, acts, TakeClaim(0, 1));
    }
  }

  /** And exactly such claims pass the ceiling: in a run that honours its leases a claim takes an entry
      over its budget if and only if it is taken on one whose last claim spent the budget and ended
      without being booked. */
  lemma CeilingIsPassedByCrashesOnly(cfg: Config, states: seq<State>, acts: seq<Action>, id: nat, lease: int)
    requires HonouredRun(cfg, states, acts) && Enabled(cfg, states[|acts|], TakeClaim(id, lease))
    ensures id in states[|acts|].rows
    ensures var row := states[|acts|].rows[id];
            Apply(cfg, states[|acts|], TakeClaim(id, lease)).rows[id].attempts > Max(1, cfg.maxAttempts)
            <==> row.status == IN_FLIGHT && row.attempts >= Max(1, cfg.maxAttempts)
  {
    HonouredRunsAreDisciplined(cfg, states, acts, |acts|);
    assert WithinBudget(cfg, states[|acts|], id);
  }

  lemma Then(cfg: Config, states: seq<State>, acts: seq<Action>, a: Action)
    returns (states': seq<State>, acts': seq<Action>)
    requires Run(cfg, states, acts) && Enabled(cfg, states[|acts|], a)
    ensures Run(cfg, states', acts') && |acts'| == |acts| + 1
    ensures states'[|acts'|] == Apply(cfg, states[|acts|], a) && states'[..|acts'|] == states && acts'[..|acts|] == acts
    ensures HonouredRun(cfg, states, acts) && Honoured(states[|acts|], a) ==> HonouredRun(cfg, states', acts')
  {
    states', acts' := states + [Apply(cfg, states[|acts|], a)], acts + [a];
    Extend(cfg, states, acts, a);
    hide Enabled, Apply;
  }

  // --- an overrun reopens a finished entry ----------------------------------------------------------------

  ghost predicate Reopens(cfg: Config, states: seq<State>, acts: seq<Action>) {
    && Run(cfg, states, acts) && |acts| > 0
    && 0 in states[|acts| - 1].rows && states[|acts| - 1].rows[0].status == SUCCEEDED
    && 0 in states[|acts|].rows && states[|acts|].rows[0].status == FAILED
  }

  /** The lease assumption is needed: a runner that overran its lease books a late failure over
      another runner's success, because the marks match on the entry id alone. */
  lemma OverrunReopens(cfg: Config) returns (states: seq<State>, acts: seq<Action>)
    requires cfg.maxAttempts > 1
    ensures Reopens(cfg, states, acts)
  {
    var registry: Registry := map["crm" := Capability(false, false, false)];
    states, acts := OverrunToSuccess(cfg, registry);
    states, acts := Then(cfg, states, acts, Book(0));
  }

  ghost predicate Claimed(s: State, c: nat, phase: Phase) {
    && c in s.holds && s.holds[c].phase == phase
    && s.holds[c].entry
       == NewEntry().(status := IN_FLIGHT, attempts := c + 1, lastAttemptAt := Some(c), nextAttemptAt := Some(c + 1))
  }

  /** The lease of the first claim has run out and a second runner has claimed the entry. */
  lemma ClaimedTwice(cfg: Config) returns (states: seq<State>, acts: seq<Action>)
    ensures Run(cfg, states, acts)
    ensures var s := states[|acts|];
            && s.rows.Keys == {0} && SameWork(NewEntry(), s.rows[0]) && s.rows[0].status == IN_FLIGHT
            && Claimed(s, 0, Fresh) && Claimed(s, 1, Fresh)
  {
    states, acts := [Empty()], [];
    Begin(cfg, Empty());
    states, acts := Then(cfg, states, acts, Enqueue(NewEntry()));
    states, acts := Then(cfg, states, acts, TakeClaim(0, 1));
    states, acts := Then(cfg, states, acts, Tick(1));
    states, acts := Then(cfg, states, acts, TakeClaim(0, 1));
  }

  lemma BothAnswered(cfg: Config, registry: Registry) returns (states: seq<State>, acts: seq<Action>)
    requires registry == map["crm" := Capability(false, false, false)]
    ensures Run(cfg, states, acts)
    ensures var s := states[|acts|];
            && s.rows.Keys == {0} && SameWork(NewEntry(), s.rows[0]) && s.rows[0].status == IN_FLIGHT
            && Claimed(s, 0, Answered(Transient("Timeout"))) && Claimed(s, 1, Answered(Erased(false, None)))
  {
    states, acts := ClaimedTwice(cfg);
    var w: World := map[];
    assert forall p: Place :: Absent(w, states[|acts|].now, p);
    states, acts := Then(cfg, states, acts, CallResolver(0, registry, Transient("Timeout"), w));
    states, acts := Then(cfg, states, acts, CallResolver(1, registry, Erased(false, None), w));
  }

  /** The later claim has succeeded; the earlier one is about to book a late failure. */
  lemma OverrunToSuccess(cfg: Config, registry: Registry) returns (states: seq<State>, acts: seq<Action>)
    requires cfg.maxAttempts > 1 && registry == map["crm" := Capability(false, false, false)]
    ensures Run(cfg, states, acts)
    ensures var s := states[|acts|];
            0 in s.rows && s.rows[0].status == SUCCEEDED && Claimed(s, 0, Answered(Transient("Timeout")))
  {
    states, acts := BothAnswered(cfg, registry);
    states, acts := Then(cfg, states, acts, Record(1));
    states, acts := Then(cfg, states, acts, Book(1));
  }
}

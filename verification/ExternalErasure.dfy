/** From a completed erasure to its end outside: the rows it inserts are steps of the saga, and from
    there every reference can still be erased. */
module ExternalErasure {
  import opened Wrappers
  import opened OutboxStore
  import opened SagaProtocol
  import opened SagaLeases
  import opened SagaProgress
  import Routing
  import Runner
  import SubjectErasure

  // --- the insert, entry by entry ------------------------------------------------------------

  /** Entries no runner has touched. */
  predicate Untouched(entries: seq<Entry>) {
    forall e :: e in entries ==> e.status == PENDING && e.attempts == 0 && e.nextAttemptAt == None
  }

  /** The enqueued rows trace back to a trail no shorter than `mark`. */
  ghost predicate EnqueuedSince(s: State, entries: seq<Entry>, mark: nat) {
    forall e :: e in entries ==> e.id in s.rows && e.id in s.origins && s.origins[e.id].mark >= mark
  }

  /** One insert of untouched entries with ids of their own is a run of enqueue steps. */
  lemma {:induction false} InsertRefines(cfg: Runner.Config, states: seq<State>, acts: seq<Action>, entries: seq<Entry>)
    returns (states': seq<State>, acts': seq<Action>)
    requires HonouredRun(cfg, states, acts) && Untouched(entries) && FreshIds(states[|acts|].rows, entries)
    ensures HonouredRun(cfg, states', acts') && Continues(states, acts, states', acts') && |states'| == |acts'| + 1
    ensures states'[|acts'|].rows == Inserted(states[|acts|].rows, entries)
    ensures states'[|acts'|].log == states[|acts|].log
    ensures EnqueuedSince(states'[|acts'|], entries, |states[|acts|].log|)
    decreases |entries|
  {
    if entries == [] {
      states', acts' := states, acts;
    } else {
      var before, last := entries[..|entries| - 1], entries[|entries| - 1];
      assert entries == before + [last];
      FreshSnoc(states[|acts|].rows, before, last);
      hide FreshIds, Inserted, HonouredRun, Continues, EnqueuedSince;
      var s1, a1 := InsertRefines(cfg, states, acts, before);
      InsertedMembers(states[|acts|].rows, before, last.id);
      EnqueueStep(cfg, s1[|a1|], before, last, |states[|acts|].log|);
      hide Enabled, Apply;
      states', acts' := Next(cfg, s1, a1, Enqueue(last));
      ContinuesOn(states, acts, s1, a1, states', acts');
    }
  }

  lemma EnqueueStep(cfg: Runner.Config, s: State, before: seq<Entry>, last: Entry, mark: nat)
    requires Untouched(before + [last]) && last.id !in s.rows && EnqueuedSince(s, before, mark) && mark <= |s.log|
    ensures Enabled(cfg, s, Enqueue(last)) && Honoured(s, Enqueue(last))
    ensures Apply(cfg, s, Enqueue(last)).rows == s.rows[last.id := RowOf(last)]
    ensures Apply(cfg, s, Enqueue(last)).log == s.log
    ensures EnqueuedSince(Apply(cfg, s, Enqueue(last)), before + [last], mark)
  {
    assert last in before + [last];
  }

  // --- bringing all entries to success ----------------------------------------------------------

  /** Over an honoured run, work and origins stay and success is final. */
  lemma {:induction false} RowsEndure(cfg: Runner.Config, states: seq<State>, acts: seq<Action>, n: nat, m: nat,
                                      id: nat)
    requires HonouredRun(cfg, states, acts) && n <= m < |states| && id in states[n].rows
    ensures id in states[m].rows && SameRowWork(states[m].rows[id], states[n].rows[id])
    ensures states[n].rows[id].status == SUCCEEDED ==> states[m].rows[id].status == SUCCEEDED
    ensures id in states[n].origins ==> id in states[m].origins && states[m].origins[id] == states[n].origins[id]
    decreases m - n
  {
    if n < m {
      var k := m - 1;
      RowsEndure(cfg, states, acts, n, k, id);
      HonouredRunsAreDisciplined(cfg, states, acts, k);
      assert StepAt(cfg, states, acts, k);
      assert Moves(cfg, states[k], acts[k], states[k + 1]);
      hide Sound, Moves, StepAt, Kept, Waits, Budgeted, Spaced, Exclusive, Run;
      WorkStays(cfg, states[k], acts[k], states[k + 1], id);
      TraceMoves(cfg, states[k], acts[k], states[k + 1], id);
      TerminalIsStable(cfg, states[k], acts[k], states[k + 1], id);
    }
  }

  ghost predicate Erasures(s: State, ids: set<nat>) {
    forall id :: id in ids ==> id in s.rows && s.rows[id].operation == ERASE
  }

  ghost predicate AllDone(s: State, ids: set<nat>) {
    forall id :: id in ids ==> id in s.rows && s.rows[id].status == SUCCEEDED
  }

  /** Any number of erasures can be brought to success in one run, with no new work. */
  lemma {:induction false} AllToSuccess(cfg: Runner.Config, states: seq<State>, acts: seq<Action>, ids: set<nat>)
    returns (states': seq<State>, acts': seq<Action>)
    requires HonouredRun(cfg, states, acts) && |states| == |acts| + 1 && Erasures(states[|acts|], ids)
    ensures HonouredRun(cfg, states', acts') && Continues(states, acts, states', acts') && |states'| == |acts'| + 1
    ensures states'[|acts'|].rows.Keys == states[|acts|].rows.Keys && AllDone(states'[|acts'|], ids)
    decreases |ids|
  {
    if ids == {} {
      states', acts' := states, acts;
    } else {
      var id :| id in ids;
      var s1, a1 := AllToSuccess(cfg, states, acts, ids - {id});
      assert s1[|acts|] == states[|acts|];
      RowsEndure(cfg, s1, a1, |acts|, |a1|, id);
      states', acts' := ToSuccess(cfg, s1, a1, id);
      ContinuesOn(states, acts, s1, a1, states', acts');
      assert states'[|a1|] == s1[|a1|];
      hide HonouredRun, Succeeded, Continues;
      SucceededIsDone(states', acts', id);
      forall k | k in ids - {id} ensures k in states'[|acts'|].rows && states'[|acts'|].rows[k].status == SUCCEEDED {
        RowsEndure(cfg, states', acts', |a1|, |acts'|, k);
      }
    }
  }

  lemma SucceededIsDone(states: seq<State>, acts: seq<Action>, id: nat)
    requires |states| == |acts| + 1 && Succeeded(states, id)
    ensures id in states[|acts|].rows && states[|acts|].rows[id].status == SUCCEEDED
  {}

  // --- the end of an erasure outside ----------------------------------------------------------------

  /** Every reference is gone outside and, when there was any, the completion event of this very
      erasure is in the trail: it comes after the erasure was enqueued. */
  ghost predicate ErasedOutside(s: State, subject: string, refs: seq<Routing.Ref>, mark: nat) {
    && (forall ref :: ref in refs ==> Absent(s.world, s.now, (ref.kind, ref.value)))
    && (refs != [] ==> exists i :: mark <= i < |s.log| && s.log[i] == Completed(subject, ERASE))
  }

  /** What a completed erasure inserts can be claimed at once, and is a run of enqueue steps from
      wherever the saga stands. */
  lemma CompletedIsQueued(cfg: Runner.Config, states: seq<State>, acts: seq<Action>, after: Rows, subject: string,
                          ext: SubjectErasure.External, r: SubjectErasure.ErasureResult, steps: nat, now: int)
    returns (states': seq<State>, acts': seq<Action>)
    requires HonouredRun(cfg, states, acts) && r.Completed? && ext.Matched()
    requires SubjectErasure.EnqueuedWhole(states[|acts|].rows, after, subject, ext, r, steps)
    ensures SubjectErasure.Pending(after, ext.Entries(subject))
    ensures forall e :: e in ext.Entries(subject) ==> Claimable(after, {}, now, e.id)
    ensures HonouredRun(cfg, states', acts') && Continues(states, acts, states', acts') && |states'| == |acts'| + 1
    ensures states'[|acts'|].rows == after
    ensures EnqueuedSince(states'[|acts'|], ext.Entries(subject), |states[|acts|].log|)
  {
    var entries := ext.Entries(subject);
    Routing.EntriesAddress(ext.resolvers, ext.refs, ext.first, subject, ext.now);
    SubjectErasure.CompletedIsPending(states[|acts|].rows, after, subject, ext, r, steps);
    states', acts' := InsertRefines(cfg, states, acts, entries);
    hide HonouredRun, Continues, EnqueuedSince, Inserted, FreshIds;
  }

  /** From erase_subject to the outside: wherever the saga stands when an erasure completes, an honoured
      run goes on from its outbox to a state where no system holds any of the subject's references and
      the completion of this erasure is in the trail. */
  lemma ErasureCanFinish(cfg: Runner.Config, states: seq<State>, acts: seq<Action>, after: Rows, subject: string,
                         ext: SubjectErasure.External, r: SubjectErasure.ErasureResult, steps: nat)
    returns (queued: nat, states': seq<State>, acts': seq<Action>)
    requires HonouredRun(cfg, states, acts) && r.Completed? && ext.Matched()
    requires SubjectErasure.EnqueuedWhole(states[|acts|].rows, after, subject, ext, r, steps)
    ensures HonouredRun(cfg, states', acts') && Continues(states, acts, states', acts') && |states'| == |acts'| + 1
    ensures queued <= |acts'| && states'[queued].rows == after
    ensures ErasedOutside(states'[|acts'|], subject, ext.refs, |states[|acts|].log|)
  {
    var s1, a1 := CompletedIsQueued(cfg, states, acts, after, subject, ext, r, steps, 0);
    queued := |a1|;
    var ids := set id | id in after && InGroup(after[id], subject, ERASE);
    var entries, mark := ext.Entries(subject), |states[|acts|].log|;
    hide HonouredRun, SubjectErasure.Pending, EnqueuedSince, SubjectErasure.EnqueuedWhole;
    states', acts' := AllToSuccess(cfg, s1, a1, ids);
    assert states'[queued] == s1[queued];
    ContinuesOn(states, acts, s1, a1, states', acts');
    hide Continues;
    GroupIsDone(cfg, states', acts', queued, subject, ids);
    EntriesAreDone(cfg, states', acts', queued, entries, mark);
    HonouredRunsAreDisciplined(cfg, states', acts', |acts'|);
    DoneIsErased(cfg, states'[|acts'|], subject, ext, mark);
  }

  /** The group's rows at the end are those it had when the erasure was enqueued, all succeeded. */
  lemma GroupIsDone(cfg: Runner.Config, states: seq<State>, acts: seq<Action>, n: nat, subject: string, ids: set<nat>)
    requires HonouredRun(cfg, states, acts) && |states| == |acts| + 1 && n <= |acts|
    requires states[|acts|].rows.Keys == states[n].rows.Keys && AllDone(states[|acts|], ids)
    requires ids == set id | id in states[n].rows && InGroup(states[n].rows[id], subject, ERASE)
    ensures forall id :: id in states[|acts|].rows && InGroup(states[|acts|].rows[id], subject, ERASE) ==>
              states[|acts|].rows[id].status == SUCCEEDED
  {
    forall id | id in states[|acts|].rows && InGroup(states[|acts|].rows[id], subject, ERASE)
      ensures states[|acts|].rows[id].status == SUCCEEDED
    {
      RowsEndure(cfg, states, acts, n, |acts|, id);
    }
  }

  lemma EntriesAreDone(cfg: Runner.Config, states: seq<State>, acts: seq<Action>, n: nat, entries: seq<Entry>,
                       mark: nat)
    requires HonouredRun(cfg, states, acts) && |states| == |acts| + 1 && n <= |acts|
    requires SubjectErasure.Pending(states[n].rows, entries) && EnqueuedSince(states[n], entries, mark)
    ensures Routing.Enqueued(states[|acts|], entries) && EnqueuedSince(states[|acts|], entries, mark)
  {
    SubjectErasure.PendingIsEnqueued(states[n], entries);
    Routing.EnqueuedStays(cfg, states, acts, n, |acts|, entries);
    forall e | e in entries
      ensures e.id in states[|acts|].rows && e.id in states[|acts|].origins && states[|acts|].origins[e.id].mark >= mark
    {
      RowsEndure(cfg, states, acts, n, |acts|, e.id);
    }
  }

  lemma DoneIsErased(cfg: Runner.Config, s: State, subject: string, ext: SubjectErasure.External, mark: nat)
    requires Sound(cfg, s) && ext.Matched()
    requires Routing.Enqueued(s, ext.Entries(subject)) && EnqueuedSince(s, ext.Entries(subject), mark)
    requires forall id :: id in s.rows && InGroup(s.rows[id], subject, ERASE) ==> s.rows[id].status == SUCCEEDED
    ensures ErasedOutside(s, subject, ext.refs, mark)
  {
    hide Audited, Cleared, Shaped, NeverLost, Absent, Routing.Enqueued, EnqueuedSince, AllSucceeded, CompletedSince;
    forall ref | ref in ext.refs ensures Absent(s.world, s.now, (ref.kind, ref.value)) {
      var id := Routing.RefIsEnqueued(s, ext.resolvers, ext.refs, subject, ext.first, ext.now, ref);
      assert RowGone(s, id);
    }
    if ext.refs != [] {
      var id := Routing.RefIsEnqueued(s, ext.resolvers, ext.refs, subject, ext.first, ext.now, ext.refs[0]);
      CompletedAfterMark(cfg, s, subject, ext, mark, id);
    }
  }

  lemma CompletedAfterMark(cfg: Runner.Config, s: State, subject: string, ext: SubjectErasure.External, mark: nat,
                           id: nat)
    requires Sound(cfg, s) && id in s.rows && InGroup(s.rows[id], subject, ERASE)
    requires EnqueuedSince(s, ext.Entries(subject), mark) && HasId(ext.Entries(subject), id)
    requires forall id :: id in s.rows && InGroup(s.rows[id], subject, ERASE) ==> s.rows[id].status == SUCCEEDED
    ensures exists i :: mark <= i < |s.log| && s.log[i] == Completed(subject, ERASE)
  {
    hide Audited, Cleared, Shaped, Gone;
    assert AllSucceeded(s.rows, subject, ERASE);
    var i :| 0 <= i < |s.log| && s.log[i] == Completed(subject, ERASE) && NoneSince(s, subject, ERASE, i);
  }
}

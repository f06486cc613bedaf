/** The outbox's row locks: no set of its transactions can wait for each other in a circle. */
module RowLocks {
  import Ordering

  /** `mark_succeeded` and `requeue` take a list of rows one at a time; the other marks take one row;
      `claim_batch` skips rows that are locked and so never waits. */
  datatype Kind = Waiting | Skipping

  /** A transaction and the rows it has still to lock, in the order it asks for them. */
  datatype Transaction = Transaction(kind: Kind, wants: seq<nat>)

  datatype Locks = Locks(open: map<nat, Transaction>, holder: map<nat, nat>)  // row -> transaction

  predicate AscendingRows(rows: seq<nat>) {
    forall i, j :: 0 <= i < j < |rows| ==> rows[i] < rows[j]
  }

  datatype Action =
    | Begin(t: nat, tx: Transaction)
    | Acquire(t: nat)
    | Skip(t: nat)
    | End(t: nat)  // commit or rollback

  predicate Enabled(s: Locks, a: Action) {
    match a
    case Begin(t, tx) => t !in s.open && (tx.kind == Waiting ==> AscendingRows(tx.wants))
    case Acquire(t) => t in s.open && s.open[t].wants != [] && s.open[t].wants[0] !in s.holder
    case Skip(t) => t in s.open && s.open[t].kind == Skipping && s.open[t].wants != [] && s.open[t].wants[0] in s.holder
    case End(t) => t in s.open
  }

  function Apply(s: Locks, a: Action): Locks
    requires Enabled(s, a)
  {
    match a
    case Begin(t, tx) => s.(open := s.open[t := tx])
    case Acquire(t) => Locks(s.open[t := s.open[t].(wants := s.open[t].wants[1..])], s.holder[s.open[t].wants[0] := t])
    case Skip(t) => s.(open := s.open[t := s.open[t].(wants := s.open[t].wants[1..])])
    case End(t) => Locks(s.open - {t}, map r | r in s.holder && s.holder[r] != t :: s.holder[r])
  }

  ghost predicate StepAt(states: seq<Locks>, acts: seq<Action>, i: nat)
    requires i < |acts| && |states| == |acts| + 1
  {
    Enabled(states[i], acts[i]) && states[i + 1] == Apply(states[i], acts[i])
  }

  ghost predicate Run(states: seq<Locks>, acts: seq<Action>) {
    && |states| == |acts| + 1 && states[0] == Locks(map[], map[])
    && forall i :: 0 <= i < |acts| ==> StepAt(states, acts, i)
  }

  /** A waiting transaction asks only for rows above those it holds, in ascending order. */
  predicate Ordered(s: Locks, t: nat)
    requires t in s.open
  {
    s.open[t].kind == Waiting ==>
      && AscendingRows(s.open[t].wants)
      && forall r :: r in s.holder && s.holder[r] == t && s.open[t].wants != [] ==> r < s.open[t].wants[0]
  }

  predicate Valid(s: Locks) {
    && (forall t :: t in s.open ==> Ordered(s, t))
    && (forall r :: r in s.holder ==> s.holder[r] in s.open)
  }

  /** The transaction cannot go on until another ends. */
  predicate Blocked(s: Locks, t: nat) {
    t in s.open && s.open[t].kind == Waiting && s.open[t].wants != [] && s.open[t].wants[0] in s.holder
  }

  predicate WaitsFor(s: Locks, t: nat, u: nat) {
    Blocked(s, t) && s.holder[s.open[t].wants[0]] == u
  }

  lemma StepValid(s: Locks, a: Action)
    requires Valid(s) && Enabled(s, a)
    ensures Valid(Apply(s, a))
  {
    var s' := Apply(s, a);
    forall t | t in s'.open ensures Ordered(s', t) {
      if t in s.open { assert Ordered(s, t); }
    }
  }

  lemma {:induction false} EveryStateIsValid(states: seq<Locks>, acts: seq<Action>, n: nat)
    requires Run(states, acts) && n < |states|
    ensures Valid(states[n])
  {
    if n > 0 {
      var i := n - 1;
      EveryStateIsValid(states, acts, i);
      assert StepAt(states, acts, i);
      StepValid(states[i], acts[i]);
    }
  }

  /** Waiting climbs: whoever holds the row a transaction waits for waits, if at all, for a higher
      one. */
  lemma WaitingClimbs(s: Locks, t: nat, u: nat)
    requires Valid(s) && WaitsFor(s, t, u) && Blocked(s, u)
    ensures s.open[t].wants[0] < s.open[u].wants[0]
  {
    assert Ordered(s, u);
  }

  predicate WaitsAt(s: Locks, circle: seq<nat>, i: nat)
    requires i + 1 < |circle|
  {
    WaitsFor(s, circle[i], circle[i + 1])
  }

  lemma {:induction false} ClimbAlong(s: Locks, circle: seq<nat>, n: nat)
    requires Valid(s) && 0 < n < |circle| && forall i :: 0 <= i < |circle| - 1 ==> WaitsAt(s, circle, i)
    requires Blocked(s, circle[n])
    ensures Blocked(s, circle[0]) && s.open[circle[0]].wants[0] < s.open[circle[n]].wants[0]
  {
    var k := n - 1;
    assert WaitsAt(s, circle, k);
    WaitingClimbs(s, circle[k], circle[n]);
    if k > 0 { ClimbAlong(s, circle, k); }
  }

  /** No reachable state has a circle of transactions waiting for each other. */
  lemma NoDeadlock(states: seq<Locks>, acts: seq<Action>, n: nat, circle: seq<nat>)
    requires Run(states, acts) && n < |states|
    requires |circle| > 1 && forall i :: 0 <= i < |circle| - 1 ==> WaitsAt(states[n], circle, i)
    ensures circle[0] != circle[|circle| - 1]
  {
    EveryStateIsValid(states, acts, n);
    var s, last := states[n], |circle| - 1;
    if Blocked(s, circle[last]) {
      ClimbAlong(s, circle, last);
    } else {
      assert WaitsAt(s, circle, 0);
    }
  }

  /** So at every moment, from any open transaction, the chain of waits ends in one that can go on. */
  lemma SomeoneCanGoOn(states: seq<Locks>, acts: seq<Action>, n: nat, t: nat) returns (u: nat)
    requires Run(states, acts) && n < |states| && t in states[n].open
    ensures u in states[n].open && !Blocked(states[n], u)
  {
    EveryStateIsValid(states, acts, n);
    u := EndOfWaits(states[n], t);
  }

  /** The blocked transactions waiting for a row above the one `t` waits for. */
  ghost function Above(s: Locks, t: nat): set<nat>
    requires Blocked(s, t)
  {
    set x | x in s.open && Blocked(s, x) && s.open[t].wants[0] < s.open[x].wants[0]
  }

  lemma {:induction false} EndOfWaits(s: Locks, t: nat) returns (u: nat)
    requires Valid(s) && t in s.open
    ensures u in s.open && !Blocked(s, u)
    decreases if Blocked(s, t) then 1 + |Above(s, t)| else 0
  {
    if !Blocked(s, t) {
      u := t;
    } else {
      var v := s.holder[s.open[t].wants[0]];
      assert WaitsFor(s, t, v);
      if Blocked(s, v) {
        WaitingClimbs(s, t, v);
        assert v in Above(s, t) && v !in Above(s, v);
        Ordering.CardinalitySmaller(Above(s, v), Above(s, t), v);
      }
      u := EndOfWaits(s, v);
    }
  }
}

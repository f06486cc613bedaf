/** From an erasure's external references to outbox entries, and what their completion means. */
module Routing {
  import opened Wrappers
  import opened Sorting
  import opened OutboxStore
  import opened Runner
  import opened SagaProtocol

  datatype Ref = Ref(kind: string, value: string)

  function OfKind(refs: seq<Ref>, kind: string): seq<Ref> {
    if refs == [] then []
    else
      var before, last := OfKind(refs[..|refs| - 1], kind), refs[|refs| - 1];
      if last.kind == kind then before + [last] else before
  }

  /** The references in the order they are routed: resolver by resolver. */
  function Routed(resolvers: seq<string>, refs: seq<Ref>): seq<Ref> {
    if resolvers == [] then []
    else Routed(resolvers[..|resolvers| - 1], refs) + OfKind(refs, resolvers[|resolvers| - 1])
  }

  function EntryFor(ref: Ref, id: nat, subject: string, now: int): Entry {
    Entry(id, subject, ref.kind, ref.value, ERASE, [], PENDING, 0, now, None, None, None)
  }

  function EntriesFor(refs: seq<Ref>, first: nat, subject: string, now: int): seq<Entry> {
    seq(|refs|, i requires 0 <= i < |refs| => EntryFor(refs[i], first + i, subject, now))
  }

  datatype Entries = Entries(entries: seq<Entry>) | UnmatchedKind

  /** One pending entry per matched resolver and reference. A kind no resolver is registered for
      refuses the erasure instead of dropping the system from it. */
  method OutboxEntries(resolvers: seq<string>, refs: seq<Ref>, subject: string, first: nat, now: int)
    returns (r: Entries)
    ensures r.UnmatchedKind? <==> exists ref :: ref in refs && ref.kind !in resolvers
    ensures r.Entries? ==> r.entries == EntriesFor(Routed(resolvers, refs), first, subject, now)
    ensures r.Entries? ==> forall e :: e in r.entries ==>
              && e.operation == ERASE && e.status == PENDING && e.attempts == 0 && e.nextAttemptAt == None
              && e.subject == subject && e.corrections == [] && e.enqueuedAt == now
    ensures r.Entries? ==> forall i :: 0 <= i < |r.entries| ==> r.entries[i].id == first + i
    ensures r.Entries? && NoRepeats(resolvers) ==> multiset(Targets(r.entries)) == multiset(refs)
  {
    if exists ref :: ref in refs && ref.kind !in resolvers {
      return UnmatchedKind;
    }
    var entries: seq<Entry> := [];
    for i := 0 to |resolvers|
      invariant entries == EntriesFor(Routed(resolvers[..i], refs), first, subject, now)
    {
      ghost var before := Routed(resolvers[..i], refs);
      for j := 0 to |refs|
        invariant entries == EntriesFor(before + OfKind(refs[..j], resolvers[i]), first, subject, now)
      {
        assert refs[..j + 1][..j] == refs[..j];
        if refs[j].kind == resolvers[i] {
          entries := entries + [EntryFor(refs[j], first + |entries|, subject, now)];
        }
      }
      assert refs[..|refs|] == refs && resolvers[..i + 1][..i] == resolvers[..i];
    }
    assert resolvers[..|resolvers|] == resolvers;
    r := Entries(entries);
    EntriesAddress(resolvers, refs, first, subject, now);
    hide EntriesFor, Routed, Targets, NoRepeats;
  }

  /** The references a list of entries is addressed to. */
  function Targets(entries: seq<Entry>): seq<Ref> {
    seq(|entries|, i requires 0 <= i < |entries| => Ref(entries[i].resolver, entries[i].ref))
  }

  lemma EntriesTarget(refs: seq<Ref>, first: nat, subject: string, now: int)
    ensures Targets(EntriesFor(refs, first, subject, now)) == refs
  {}

  lemma EntriesAddress(resolvers: seq<string>, refs: seq<Ref>, first: nat, subject: string, now: int)
    requires forall ref :: ref in refs ==> ref.kind in resolvers
    ensures var entries := EntriesFor(Routed(resolvers, refs), first, subject, now);
            && (forall i :: 0 <= i < |entries| ==> entries[i].id == first + i)
            && (forall e :: e in entries ==>
                  && e.operation == ERASE && e.status == PENDING && e.attempts == 0 && e.nextAttemptAt == None
                  && e.subject == subject && e.corrections == [] && e.enqueuedAt == now)
            && (NoRepeats(resolvers) ==> multiset(Targets(entries)) == multiset(refs))
  {
    hide Routed, Targets;
    EntriesTarget(Routed(resolvers, refs), first, subject, now);
    if NoRepeats(resolvers) {
      hide NoRepeats, EntriesFor;
      EveryRefRoutedOnce(resolvers, refs);
    }
  }

  lemma {:induction false} OfKindMembers(refs: seq<Ref>, kind: string, x: Ref)
    ensures x in OfKind(refs, kind) <==> x in refs && x.kind == kind
  {
    if refs != [] {
      var rest := refs[..|refs| - 1];
      OfKindMembers(rest, kind, x);
      assert refs == rest + [refs[|refs| - 1]];
    }
  }

  lemma {:induction false} RoutedMembers(resolvers: seq<string>, refs: seq<Ref>, x: Ref)
    ensures x in Routed(resolvers, refs) <==> x in refs && x.kind in resolvers
  {
    if resolvers != [] {
      var rest, last := resolvers[..|resolvers| - 1], resolvers[|resolvers| - 1];
      assert resolvers == rest + [last];
      RoutedMembers(rest, refs, x);
      OfKindMembers(refs, last, x);
    }
  }

  lemma {:induction false} OfKindCounts(refs: seq<Ref>, kind: string, x: Ref)
    ensures multiset(OfKind(refs, kind))[x] == if x.kind == kind then multiset(refs)[x] else 0
  {
    if refs != [] {
      var rest := refs[..|refs| - 1];
      OfKindCounts(rest, kind, x);
      assert refs == rest + [refs[|refs| - 1]];
    }
  }

  lemma {:induction false} RoutedCounts(resolvers: seq<string>, refs: seq<Ref>, x: Ref)
    requires NoRepeats(resolvers)
    ensures multiset(Routed(resolvers, refs))[x] == if x.kind in resolvers then multiset(refs)[x] else 0
  {
    if resolvers != [] {
      var rest, last := resolvers[..|resolvers| - 1], resolvers[|resolvers| - 1];
      assert resolvers == rest + [last];
      RoutedCounts(rest, refs, x);
      OfKindCounts(refs, last, x);
      assert x.kind in rest ==> x.kind != last by {
        forall i | 0 <= i < |rest| ensures rest[i] != last { assert rest[i] == resolvers[i]; }
      }
    }
  }

  /** With each resolver registered once and every kind matched, routing neither drops, repeats
      nor invents a reference. */
  lemma EveryRefRoutedOnce(resolvers: seq<string>, refs: seq<Ref>)
    requires NoRepeats(resolvers) && forall ref :: ref in refs ==> ref.kind in resolvers
    ensures multiset(Routed(resolvers, refs)) == multiset(refs)
  {
    forall x ensures multiset(Routed(resolvers, refs))[x] == multiset(refs)[x] {
      RoutedCounts(resolvers, refs, x);
      if x.kind !in resolvers { assert x !in refs; }
    }
  }

  ghost predicate Enqueued(s: State, entries: seq<Entry>) {
    forall e :: e in entries ==> e.id in s.rows && SameWork(e, s.rows[e.id])
  }

  lemma RefIsEnqueued(s: State, resolvers: seq<string>, refs: seq<Ref>, subject: string, first: nat, now: int, ref: Ref)
    returns (id: nat)
    requires (forall x :: x in refs ==> x.kind in resolvers) && ref in refs
    requires Enqueued(s, EntriesFor(Routed(resolvers, refs), first, subject, now))
    ensures id in s.rows && InGroup(s.rows[id], subject, ERASE) && PlaceOfRow(s.rows[id]) == (ref.kind, ref.value)
    ensures HasId(EntriesFor(Routed(resolvers, refs), first, subject, now), id)
  {
    RoutedMembers(resolvers, refs, ref);
    var routed := Routed(resolvers, refs);
    hide Routed;
    var i :| 0 <= i < |routed| && routed[i] == ref;
    var entries := EntriesFor(routed, first, subject, now);
    assert entries[i] in entries;
    id := entries[i].id;
  }

  /** When the completion event of a subject's erasure is appended, in any run, no system the
      erasure's references were routed to still holds them. */
  lemma CompletionReachesEverySystem(cfg: Config, s: State, a: Action, resolvers: seq<string>, refs: seq<Ref>,
                                     subject: string, first: nat, now: int, ref: Ref)
    requires Sound(cfg, s) && Enabled(cfg, s, a) && Completed(subject, ERASE) in SagaProtocol.Appended(cfg, s, a)
    requires (forall x :: x in refs ==> x.kind in resolvers) && ref in refs
    requires Enqueued(s, EntriesFor(Routed(resolvers, refs), first, subject, now))
    ensures Absent(s.world, s.now, (ref.kind, ref.value))
  {
    hide Sound, Enabled, SagaProtocol.Appended, Absent, Routed, Enqueued, EntriesFor;
    CompletionIsSound(cfg, s, a, subject, ERASE);
    var id := RefIsEnqueued(s, resolvers, refs, subject, first, now, ref);
  }

  /** Enqueued work stays in the outbox, whatever happens to it there. */
  lemma {:induction false} EnqueuedStays(cfg: Config, states: seq<State>, acts: seq<Action>, i: nat, n: nat,
                                         entries: seq<Entry>)
    requires Run(cfg, states, acts) && i <= n < |states| && Enqueued(states[i], entries)
    ensures Enqueued(states[n], entries)
    decreases n
  {
    if i < n {
      var m := n - 1;
      EnqueuedStays(cfg, states, acts, i, m, entries);
      assert StepAt(cfg, states, acts, m);
      assert Moves(cfg, states[m], acts[m], states[n]);
      hide Moves, Run;
      forall e | e in entries ensures e.id in states[n].rows && SameWork(e, states[n].rows[e.id]) {
        WorkStays(cfg, states[m], acts[m], states[n], e.id);
      }
    }
  }
}

/** Which committed erasures a restore undid, read off a surviving audit trail. */
module ReplayPlan {
  import opened Sorting

  datatype Kind = Requested | StepFailed | LocalCompleted | Other

  /** A trail event; ids are compared when times tie. */
  datatype Event = Event(id: nat, kind: Kind, subject: string, at: int)

  datatype Entry = Entry(subject: string, completions: nat, lastAt: int, source: nat)

  datatype Plan = Plan(entries: seq<Entry>, indeterminate: seq<string>, failedOnly: seq<string>)

  // --- what a trail says of one subject ----------------------------------------------

  predicate Qualifies(e: Event, cutoff: int, subject: string) {
    e.at >= cutoff && e.subject == subject
  }

  /** The subject's events at or after the cutoff, in trail order. */
  function WindowOf(events: seq<Event>, cutoff: int, subject: string): seq<Event> {
    if events == [] then []
    else
      var before, e := WindowOf(events[..|events| - 1], cutoff, subject), events[|events| - 1];
      if Qualifies(e, cutoff, subject) then before + [e] else before
  }

  function Completions(events: seq<Event>): seq<Event> {
    if events == [] then []
    else
      var before, e := Completions(events[..|events| - 1]), events[|events| - 1];
      if e.kind == LocalCompleted then before + [e] else before
  }

  function CompletionsIn(events: seq<Event>, cutoff: int, subject: string): seq<Event> {
    Completions(WindowOf(events, cutoff, subject))
  }

  predicate Holds(events: seq<Event>, kind: Kind) {
    exists e :: e in events && e.kind == kind
  }

  /** By time, and by id when times tie. */
  predicate NotAfter(a: Event, b: Event) {
    a.at < b.at || (a.at == b.at && a.id <= b.id)
  }

  function Latest(events: seq<Event>): (e: Event)
    requires events != []
    ensures e in events && forall x :: x in events ==> NotAfter(x, e)
  {
    if |events| == 1 then events[0]
    else
      var rest := Latest(events[1..]);
      assert forall x :: x in events ==> x == events[0] || x in events[1..];
      if NotAfter(rest, events[0]) then events[0] else rest
  }

  /** The entry is evidence: how many completions qualify, and the latest of them. */
  predicate IsEntry(events: seq<Event>, cutoff: int, e: Entry) {
    var completions := CompletionsIn(events, cutoff, e.subject);
    && completions != []
    && e.completions == |completions|
    && exists x :: x in completions && x.at == e.lastAt && x.id == e.source
         && forall y :: y in completions ==> NotAfter(y, x)
  }

  predicate FailedOnly(events: seq<Event>, cutoff: int, subject: string) {
    CompletionsIn(events, cutoff, subject) == [] && Holds(WindowOf(events, cutoff, subject), StepFailed)
  }

  predicate Indeterminate(events: seq<Event>, cutoff: int, subject: string) {
    && CompletionsIn(events, cutoff, subject) == []
    && !Holds(WindowOf(events, cutoff, subject), StepFailed)
    && Holds(WindowOf(events, cutoff, subject), Requested)
  }

  predicate EntryLeq(a: Entry, b: Entry) {
    a.lastAt < b.lastAt || (a.lastAt == b.lastAt && StringLeq(a.subject, b.subject))
  }

  lemma OrdersAreTotal()
    ensures TotalPreorder(StringLeq) && TotalPreorder(EntryLeq)
  {
    forall a: string, b: string ensures StringLeq(a, b) || StringLeq(b, a) { StringTotal(a, b); }
    forall a: string, b: string, c: string | StringLeq(a, b) && StringLeq(b, c) ensures StringLeq(a, c) {
      StringTransitive(a, b, c);
    }
    forall a: Entry, b: Entry ensures EntryLeq(a, b) || EntryLeq(b, a) { StringTotal(a.subject, b.subject); }
    forall a: Entry, b: Entry, c: Entry | EntryLeq(a, b) && EntryLeq(b, c) ensures EntryLeq(a, c) {
      if a.lastAt == b.lastAt == c.lastAt { StringTransitive(a.subject, b.subject, c.subject); }
    }
  }

  // --- what a plan says of the trail ----------------------------------------------------

  /** The trail holds an event of that kind for the subject at or after the cutoff. */
  predicate Seen(events: seq<Event>, cutoff: int, subject: string, kind: Kind) {
    exists e :: e in events && e.subject == subject && e.at >= cutoff && e.kind == kind
  }

  lemma SeenIsHeld(events: seq<Event>, cutoff: int, subject: string, kind: Kind)
    ensures Seen(events, cutoff, subject, kind) <==> Holds(WindowOf(events, cutoff, subject), kind)
    ensures CompletionsIn(events, cutoff, subject) == [] <==> !Seen(events, cutoff, subject, LocalCompleted)
  {
    var window, completions := WindowOf(events, cutoff, subject), CompletionsIn(events, cutoff, subject);
    forall e ensures e in window <==> e in events && Qualifies(e, cutoff, subject) {
      WindowMembers(events, cutoff, subject, e);
    }
    forall e ensures e in completions <==> e in window && e.kind == LocalCompleted {
      CompletionsMembers(window, e);
    }
    hide WindowOf, Completions;
    assert completions != [] ==> completions[0] in completions;
  }

  /** A subject is replayed if its erasure completed in the window, reported as failed if it only failed
      there, and as indeterminate if it was only requested there. */
  lemma PlanReadsTrail(events: seq<Event>, cutoff: int, p: Plan, subject: string)
    requires Derives(events, cutoff, p)
    ensures (exists e :: e in p.entries && e.subject == subject) <==> Seen(events, cutoff, subject, LocalCompleted)
    ensures subject in p.failedOnly
            <==> !Seen(events, cutoff, subject, LocalCompleted) && Seen(events, cutoff, subject, StepFailed)
    ensures subject in p.indeterminate
            <==> && !Seen(events, cutoff, subject, LocalCompleted) && !Seen(events, cutoff, subject, StepFailed)
                 && Seen(events, cutoff, subject, Requested)
  {
    SeenIsHeld(events, cutoff, subject, StepFailed);
    SeenIsHeld(events, cutoff, subject, Requested);
    hide Seen, Holds, WindowOf, Completions;
    var completions := CompletionsIn(events, cutoff, subject);
    if completions != [] {
      var latest := Latest(completions);
      assert IsEntry(events, cutoff, Entry(subject, |completions|, latest.at, latest.id));
    }
  }

  /** The places of a subject's completions in the window. */
  function CompletedAt(events: seq<Event>, cutoff: int, subject: string): set<nat> {
    set i: nat | i < |events| && events[i].subject == subject && events[i].at >= cutoff
                 && events[i].kind == LocalCompleted
  }

  lemma {:induction false} CompletionsCounted(events: seq<Event>, cutoff: int, subject: string)
    ensures |CompletionsIn(events, cutoff, subject)| == |CompletedAt(events, cutoff, subject)|
  {
    if events == [] {
      assert CompletedAt(events, cutoff, subject) == {};
    } else {
      var n := |events| - 1;
      CompletionsCounted(events[..n], cutoff, subject);
      assert events == events[..n] + [events[n]];
      CompletionsSnoc(events[..n], cutoff, events[n], subject);
      hide CompletionsIn, CompletedAt;
    }
  }

  lemma CompletionsSnoc(events: seq<Event>, cutoff: int, e: Event, subject: string)
    ensures var more := if Qualifies(e, cutoff, subject) && e.kind == LocalCompleted then 1 else 0;
            && |CompletionsIn(events + [e], cutoff, subject)| == |CompletionsIn(events, cutoff, subject)| + more
            && |CompletedAt(events + [e], cutoff, subject)| == |CompletedAt(events, cutoff, subject)| + more
  {
    WindowSnoc(events, cutoff, e, subject);
    var window := WindowOf(events, cutoff, subject);
    assert (window + [e])[..|window|] == window;
    hide WindowOf;
    var before, after := CompletedAt(events, cutoff, subject), CompletedAt(events + [e], cutoff, subject);
    if Qualifies(e, cutoff, subject) && e.kind == LocalCompleted {
      assert after == before + {|events|};
    } else {
      assert after == before;
    }
  }

  /** An entry counts its subject's completions in the window and cites the latest of them, by time and then
      by id; the entries come in the order of what they cite, and then by subject. */
  lemma EntryCitesLatest(events: seq<Event>, cutoff: int, p: Plan, k: nat)
    requires Derives(events, cutoff, p) && k < |p.entries|
    ensures p.entries[k].completions == |CompletedAt(events, cutoff, p.entries[k].subject)|
    ensures exists i :: i in CompletedAt(events, cutoff, p.entries[k].subject)
              && events[i].at == p.entries[k].lastAt && events[i].id == p.entries[k].source
    ensures forall i :: i in CompletedAt(events, cutoff, p.entries[k].subject) ==>
              events[i].at < p.entries[k].lastAt
              || (events[i].at == p.entries[k].lastAt && events[i].id <= p.entries[k].source)
    ensures forall j :: k < j < |p.entries| ==>
              p.entries[k].lastAt < p.entries[j].lastAt
              || (p.entries[k].lastAt == p.entries[j].lastAt && StringLeq(p.entries[k].subject, p.entries[j].subject))
  {
    var e := p.entries[k];
    CompletionsCounted(events, cutoff, e.subject);
    assert IsEntry(events, cutoff, e);
    forall x ensures x in CompletionsIn(events, cutoff, e.subject) <==>
        x in events && x.subject == e.subject && x.at >= cutoff && x.kind == LocalCompleted
    {
      WindowMembers(events, cutoff, e.subject, x);
      CompletionsMembers(WindowOf(events, cutoff, e.subject), x);
    }
    hide CompletionsIn;
    forall j | k < j < |p.entries| ensures EntryLeq(e, p.entries[j]) {}
  }

  // --- deriving the plan --------------------------------------------------------------

  /** Each list is sorted, without repeats, and holds exactly the subjects it is for. */
  ghost predicate Derives(events: seq<Event>, cutoff: int, p: Plan) {
    && SortedBy(p.entries, EntryLeq) && NoRepeats(p.entries)
    && (forall e :: e in p.entries <==> IsEntry(events, cutoff, e))
    && SortedBy(p.failedOnly, StringLeq) && NoRepeats(p.failedOnly)
    && (forall s :: s in p.failedOnly <==> FailedOnly(events, cutoff, s))
    && SortedBy(p.indeterminate, StringLeq) && NoRepeats(p.indeterminate)
    && (forall s :: s in p.indeterminate <==> Indeterminate(events, cutoff, s))
  }

  /** The subjects seen, each with its events, in the order they first appear. */
  ghost predicate Grouped(events: seq<Event>, cutoff: int, order: seq<string>, window: map<string, seq<Event>>) {
    && NoRepeats(order)
    && (forall s :: s in order <==> s in window)
    && (forall s :: s in window ==> window[s] == WindowOf(events, cutoff, s) && window[s] != [])
    && (forall e :: e in events && e.at >= cutoff ==> e.subject in window)
  }

  method GroupBySubject(events: seq<Event>, cutoff: int) returns (order: seq<string>, window: map<string, seq<Event>>)
    ensures Grouped(events, cutoff, order, window)
  {
    order, window := [], map[];
    for i := 0 to |events|
      invariant Grouped(events[..i], cutoff, order, window)
    {
      var e := events[i];
      GroupOne(events[..i], cutoff, order, window, e);
      assert events[..i + 1] == events[..i] + [e];
      if e.at >= cutoff {
        if e.subject !in window {
          order := order + [e.subject];
          window := window[e.subject := [e]];
        } else {
          window := window[e.subject := window[e.subject] + [e]];
        }
      }
    }
    assert events[..|events|] == events;
  }

  lemma {:induction false} WindowMembers(events: seq<Event>, cutoff: int, subject: string, e: Event)
    ensures e in WindowOf(events, cutoff, subject) <==> e in events && Qualifies(e, cutoff, subject)
  {
    if events != [] {
      WindowMembers(events[..|events| - 1], cutoff, subject, e);
      assert events == events[..|events| - 1] + [events[|events| - 1]];
    }
  }

  lemma {:induction false} EmptyWindow(events: seq<Event>, cutoff: int, subject: string)
    ensures WindowOf(events, cutoff, subject) == [] <==> forall e :: e in events ==> !Qualifies(e, cutoff, subject)
  {
    if events != [] {
      EmptyWindow(events[..|events| - 1], cutoff, subject);
      assert events == events[..|events| - 1] + [events[|events| - 1]];
    }
  }

  lemma {:induction false} CompletionsMembers(events: seq<Event>, e: Event)
    ensures e in Completions(events) <==> e in events && e.kind == LocalCompleted
  {
    if events != [] {
      CompletionsMembers(events[..|events| - 1], e);
      assert events == events[..|events| - 1] + [events[|events| - 1]];
    }
  }

  lemma WindowSnoc(events: seq<Event>, cutoff: int, e: Event, s: string)
    ensures WindowOf(events + [e], cutoff, s) ==
            if Qualifies(e, cutoff, s) then WindowOf(events, cutoff, s) + [e] else WindowOf(events, cutoff, s)
  {
    assert (events + [e])[..|events|] == events;
  }

  lemma GroupOne(events: seq<Event>, cutoff: int, order: seq<string>, window: map<string, seq<Event>>, e: Event)
    requires Grouped(events, cutoff, order, window)
    ensures e.at < cutoff ==> Grouped(events + [e], cutoff, order, window)
    ensures e.at >= cutoff && e.subject in window ==>
              Grouped(events + [e], cutoff, order, window[e.subject := window[e.subject] + [e]])
    ensures e.at >= cutoff && e.subject !in window ==>
              Grouped(events + [e], cutoff, order + [e.subject], window[e.subject := [e]])
  {
    hide WindowOf;
    forall s ensures WindowOf(events + [e], cutoff, s) ==
        if Qualifies(e, cutoff, s) then WindowOf(events, cutoff, s) + [e] else WindowOf(events, cutoff, s)
    {
      WindowSnoc(events, cutoff, e, s);
    }
    if e.at >= cutoff && e.subject !in window { GroupNew(events, cutoff, order, window, e); }
  }

  lemma GroupNew(events: seq<Event>, cutoff: int, order: seq<string>, window: map<string, seq<Event>>, e: Event)
    requires Grouped(events, cutoff, order, window) && e.at >= cutoff && e.subject !in window
    ensures Grouped(events + [e], cutoff, order + [e.subject], window[e.subject := [e]])
  {
    hide WindowOf;
    EmptyWindow(events, cutoff, e.subject);
    assert [] + [e] == [e];
    forall s | s in window[e.subject := [e]]
      ensures WindowOf(events + [e], cutoff, s) == window[e.subject := [e]][s] && window[e.subject := [e]][s] != []
    {
      WindowSnoc(events, cutoff, e, s);
    }
  }

  lemma UngroupedIsEmpty(events: seq<Event>, cutoff: int, order: seq<string>, window: map<string, seq<Event>>,
                         s: string)
    requires Grouped(events, cutoff, order, window) && s !in window
    ensures WindowOf(events, cutoff, s) == []
  {
    EmptyWindow(events, cutoff, s);
  }

  /** What has been classified after the first subjects of the order. */
  ghost predicate Classified(events: seq<Event>, cutoff: int, seen: seq<string>, p: Plan) {
    && NoRepeats(p.entries) && NoRepeats(p.failedOnly) && NoRepeats(p.indeterminate)
    && (forall e :: e in p.entries <==> e.subject in seen && IsEntry(events, cutoff, e))
    && (forall s :: s in p.failedOnly <==> s in seen && FailedOnly(events, cutoff, s))
    && (forall s :: s in p.indeterminate <==> s in seen && Indeterminate(events, cutoff, s))
  }

  lemma EntryIsUnique(events: seq<Event>, cutoff: int, a: Entry, b: Entry)
    requires IsEntry(events, cutoff, a) && IsEntry(events, cutoff, b) && a.subject == b.subject
    ensures a == b
  {}

  /** One subject's place in the plan. */
  function Classify(p: Plan, subject: string, events: seq<Event>): Plan {
    var completions := Completions(events);
    if completions != [] then
      var latest := Latest(completions);
      p.(entries := p.entries + [Entry(subject, |completions|, latest.at, latest.id)])
    else if Holds(events, StepFailed) then p.(failedOnly := p.failedOnly + [subject])
    else if Holds(events, Requested) then p.(indeterminate := p.indeterminate + [subject])
    else p
  }

  lemma ClassifyOne(events: seq<Event>, cutoff: int, seen: seq<string>, p: Plan, s: string)
    requires Classified(events, cutoff, seen, p) && s !in seen
    ensures Classified(events, cutoff, seen + [s], Classify(p, s, WindowOf(events, cutoff, s)))
  {
    var mine := WindowOf(events, cutoff, s);
    var completions := Completions(mine);
    hide Holds, WindowOf, Completions;
    if completions != [] {
      var latest := Latest(completions);
      var e := Entry(s, |completions|, latest.at, latest.id);
      assert IsEntry(events, cutoff, e);
      forall x ensures x in p.entries + [e] <==> x.subject in seen + [s] && IsEntry(events, cutoff, x) {
        if x.subject == s && IsEntry(events, cutoff, x) { EntryIsUnique(events, cutoff, x, e); }
      }
    }
  }

  lemma AllClassified(events: seq<Event>, cutoff: int, order: seq<string>, window: map<string, seq<Event>>, p: Plan)
    requires Grouped(events, cutoff, order, window) && Classified(events, cutoff, order, p)
    ensures forall e :: e in p.entries <==> IsEntry(events, cutoff, e)
    ensures forall s :: s in p.failedOnly <==> FailedOnly(events, cutoff, s)
    ensures forall s :: s in p.indeterminate <==> Indeterminate(events, cutoff, s)
  {
    forall s | s !in order ensures WindowOf(events, cutoff, s) == [] && CompletionsIn(events, cutoff, s) == [] {
      UngroupedIsEmpty(events, cutoff, order, window, s);
    }
  }

  /** Groups the window by subject, classifies each subject, and sorts. */
  method Derive(events: seq<Event>, cutoff: int) returns (p: Plan)
    ensures Derives(events, cutoff, p)
  {
    var order, window := GroupBySubject(events, cutoff);
    p := Plan([], [], []);
    for i := 0 to |order|
      invariant Classified(events, cutoff, order[..i], p)
    {
      assert order[i] !in order[..i];
      assert order[..i + 1] == order[..i] + [order[i]];
      ClassifyOne(events, cutoff, order[..i], p, order[i]);
      p := Classify(p, order[i], window[order[i]]);
    }
    assert order[..|order|] == order;
    AllClassified(events, cutoff, order, window, p);
    p := SortPlan(events, cutoff, order, p);
  }

  method SortPlan(events: seq<Event>, cutoff: int, order: seq<string>, p: Plan) returns (q: Plan)
    requires Classified(events, cutoff, order, p)
    requires forall e :: e in p.entries <==> IsEntry(events, cutoff, e)
    requires forall s :: s in p.failedOnly <==> FailedOnly(events, cutoff, s)
    requires forall s :: s in p.indeterminate <==> Indeterminate(events, cutoff, s)
    ensures Derives(events, cutoff, q)
  {
    hide IsEntry, FailedOnly, Indeterminate, Sort;
    OrdersAreTotal();
    SortSorts(p.entries, EntryLeq);
    SortKeepsDistinct(p.entries, EntryLeq);
    SortSorts(p.indeterminate, StringLeq);
    SortKeepsDistinct(p.indeterminate, StringLeq);
    SortSorts(p.failedOnly, StringLeq);
    SortKeepsDistinct(p.failedOnly, StringLeq);
    q := Plan(Sort(p.entries, EntryLeq), Sort(p.indeterminate, StringLeq), Sort(p.failedOnly, StringLeq));
  }

  // --- order independence and disjointness ----------------------------------------------

  lemma {:induction false} WindowCounts(events: seq<Event>, cutoff: int, subject: string, e: Event)
    ensures multiset(WindowOf(events, cutoff, subject))[e]
            == if Qualifies(e, cutoff, subject) then multiset(events)[e] else 0
  {
    if events != [] {
      var rest, last := events[..|events| - 1], events[|events| - 1];
      WindowCounts(rest, cutoff, subject, e);
      assert events == rest + [last];
    }
  }

  lemma {:induction false} CompletionsCounts(events: seq<Event>, e: Event)
    ensures multiset(Completions(events))[e] == if e.kind == LocalCompleted then multiset(events)[e] else 0
  {
    if events != [] {
      var rest, last := events[..|events| - 1], events[|events| - 1];
      CompletionsCounts(rest, e);
      assert events == rest + [last];
    }
  }

  lemma SameWindows(a: seq<Event>, b: seq<Event>, cutoff: int, s: string)
    requires multiset(a) == multiset(b)
    ensures multiset(WindowOf(a, cutoff, s)) == multiset(WindowOf(b, cutoff, s))
    ensures multiset(CompletionsIn(a, cutoff, s)) == multiset(CompletionsIn(b, cutoff, s))
    ensures |CompletionsIn(a, cutoff, s)| == |CompletionsIn(b, cutoff, s)|
    ensures forall e :: e in WindowOf(a, cutoff, s) <==> e in WindowOf(b, cutoff, s)
    ensures forall e :: e in CompletionsIn(a, cutoff, s) <==> e in CompletionsIn(b, cutoff, s)
  {
    var wa, wb := WindowOf(a, cutoff, s), WindowOf(b, cutoff, s);
    forall e ensures multiset(wa)[e] == multiset(wb)[e] {
      WindowCounts(a, cutoff, s, e);
      WindowCounts(b, cutoff, s, e);
    }
    var ca, cb := Completions(wa), Completions(wb);
    forall e ensures multiset(ca)[e] == multiset(cb)[e] {
      CompletionsCounts(wa, e);
      CompletionsCounts(wb, e);
    }
    assert |multiset(ca)| == |ca| && |multiset(cb)| == |cb|;
    forall e ensures (e in wa <==> e in wb) && (e in ca <==> e in cb) {
      assert e in wa <==> e in multiset(wa);
      assert e in wb <==> e in multiset(wb);
      assert e in ca <==> e in multiset(ca);
      assert e in cb <==> e in multiset(cb);
    }
  }

  /** Any order of the same events yields an equal plan, lists and all. */
  lemma OrderIndependent(a: seq<Event>, b: seq<Event>, cutoff: int, p: Plan, q: Plan)
    requires multiset(a) == multiset(b) && Derives(a, cutoff, p) && Derives(b, cutoff, q)
    ensures p == q
  {
    forall s
      ensures FailedOnly(a, cutoff, s) == FailedOnly(b, cutoff, s)
      ensures Indeterminate(a, cutoff, s) == Indeterminate(b, cutoff, s)
    {
      SameWindows(a, b, cutoff, s);
    }
    forall e ensures IsEntry(a, cutoff, e) == IsEntry(b, cutoff, e) {
      SameWindows(a, b, cutoff, e.subject);
    }
    forall s: string, t: string | StringLeq(s, t) && StringLeq(t, s) ensures s == t {
      StringTotal(s, t);
    }
    forall x, y | x in p.entries && y in p.entries && EntryLeq(x, y) && EntryLeq(y, x) ensures x == y {
      StringTotal(x.subject, y.subject);
      EntryIsUnique(a, cutoff, x, y);
    }
    SamePlans(a, b, cutoff, p, q);
  }

  lemma SamePlans(a: seq<Event>, b: seq<Event>, cutoff: int, p: Plan, q: Plan)
    requires Derives(a, cutoff, p) && Derives(b, cutoff, q)
    requires forall e :: IsEntry(a, cutoff, e) == IsEntry(b, cutoff, e)
    requires forall s :: FailedOnly(a, cutoff, s) == FailedOnly(b, cutoff, s)
    requires forall s :: Indeterminate(a, cutoff, s) == Indeterminate(b, cutoff, s)
    requires forall s: string, t: string :: StringLeq(s, t) && StringLeq(t, s) ==> s == t
    requires forall x, y :: x in p.entries && y in p.entries && EntryLeq(x, y) && EntryLeq(y, x) ==> x == y
    ensures p == q
  {
    hide IsEntry, FailedOnly, Indeterminate, StringLeq, EntryLeq;
    SortedUnique(p.entries, q.entries, EntryLeq);
    SortedUnique(p.failedOnly, q.failedOnly, StringLeq);
    SortedUnique(p.indeterminate, q.indeterminate, StringLeq);
  }

  predicate Replayed(p: Plan, subject: string) {
    exists e :: e in p.entries && e.subject == subject
  }

  predicate Decisive(e: Event, cutoff: int) {
    e.at >= cutoff && !e.kind.Other?
  }

  /** The three lists are disjoint and together hold every subject with an erasure event in the
      window, and no other. */
  lemma ThreeDisjointGroups(events: seq<Event>, cutoff: int, p: Plan, subject: string)
    requires Derives(events, cutoff, p)
    ensures !(Replayed(p, subject) && subject in p.failedOnly)
    ensures !(Replayed(p, subject) && subject in p.indeterminate)
    ensures !(subject in p.failedOnly && subject in p.indeterminate)
    ensures Replayed(p, subject) || subject in p.failedOnly || subject in p.indeterminate
            <==> exists e :: e in events && e.subject == subject && Decisive(e, cutoff)
    ensures Replayed(p, subject)
            <==> exists e :: e in events && Qualifies(e, cutoff, subject) && e.kind == LocalCompleted
  {
    var window, completions := WindowOf(events, cutoff, subject), CompletionsIn(events, cutoff, subject);
    forall e ensures e in window <==> e in events && Qualifies(e, cutoff, subject) {
      WindowMembers(events, cutoff, subject, e);
    }
    forall e ensures e in completions <==> e in window && e.kind == LocalCompleted {
      CompletionsMembers(window, e);
    }
    assert completions != [] ==> completions[0] in completions;
    if completions != [] {
      var latest := Latest(completions);
      assert IsEntry(events, cutoff, Entry(subject, |completions|, latest.at, latest.id));
    }
    assert Replayed(p, subject) <==> completions != [];
    if e :| e in events && e.subject == subject && Decisive(e, cutoff) {
      assert e in window;
    }
  }
}

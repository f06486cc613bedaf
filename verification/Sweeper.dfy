/** The retention sweep: a join over every hop chain attributes each lapsed row to its subject. */
module Sweeper {
  import opened Manifest
  import opened Scoping
  import opened Store
  import Identity
  import Ordering

  // --- the statement -----------------------------------------------------------

  /** A column of one table in the FROM list: alias 0 is the swept table, alias i the i-th joined. */
  datatype Ref = Ref(alias: nat, column: string)

  datatype Statement = Statement(from: string, aliases: seq<string>, conditions: seq<(Ref, Ref)>, selected: seq<Ref>)

  function Targets(hops: seq<Hop>): seq<string> {
    seq(|hops|, i requires 0 <= i < |hops| => hops[i].target)
  }

  function HopConditions(h: Hop, outer: nat): seq<(Ref, Ref)>
    requires h.Valid()
  {
    seq(|h.sourceColumns|, k requires 0 <= k < |h.sourceColumns| =>
          (Ref(outer, h.sourceColumns[k]), Ref(outer + 1, h.targetColumns[k])))
  }

  function Conditions(hops: seq<Hop>, n: nat): seq<(Ref, Ref)>
    requires n <= |hops| && forall h :: h in hops ==> h.Valid()
  {
    if n == 0 then [] else Conditions(hops, n - 1) + HopConditions(hops[n - 1], n - 1)
  }

  function Columns(alias: nat, names: seq<string>): seq<Ref> {
    seq(|names|, i requires 0 <= i < |names| => Ref(alias, names[i]))
  }

  method AttributionStatement(g: Graph, name: string) returns (s: Statement)
    requires Coherent(g) && InGraph(g, name)
    ensures var hops := AccessOf(g, name).hops;
            && (forall h :: h in hops ==> h.Valid())
            && s == Statement(name, Targets(hops), Conditions(hops, |hops|), Columns(|hops|, g.idColumns))
  {
    var hops := AccessOf(g, name).hops;
    assert CoherentAccess(g, AccessOf(g, name));
    if hops == [] {
      return Statement(name, [], [], Columns(0, g.idColumns));
    }
    var aliases: seq<string>, conditions: seq<(Ref, Ref)>, outer := [], [], 0;
    for i := 0 to |hops|
      invariant outer == |aliases| == i
      invariant forall k :: 0 <= k < i ==> aliases[k] == hops[k].target
      invariant conditions == Conditions(hops, i)
    {
      conditions := conditions + HopConditions(hops[i], outer);
      aliases := aliases + [hops[i].target];
      outer := i + 1;
    }
    s := Statement(name, aliases, conditions, Columns(outer, g.idColumns));
  }

  // --- what it selects -----------------------------------------------------------

  /** The row an alias stands for. */
  function AliasRow(db: Db, aliases: seq<string>, row: Row, chain: seq<nat>, i: nat): Row {
    if i == 0 then row
    else if i <= |aliases| && i <= |chain| && chain[i - 1] in TableOf(db, aliases[i - 1])
    then TableOf(db, aliases[i - 1])[chain[i - 1]]
    else map[]
  }

  function CellOf(db: Db, s: Statement, row: Row, chain: seq<nat>, ref: Ref): Cell {
    Get(AliasRow(db, s.aliases, row, chain, ref.alias), ref.column)
  }

  predicate Meets(db: Db, s: Statement, row: Row, chain: seq<nat>, c: (Ref, Ref)) {
    CellOf(db, s, row, chain, c.0) != Null && CellOf(db, s, row, chain, c.0) == CellOf(db, s, row, chain, c.1)
  }

  /** Every way to take one row of each table: the cross product of the FROM list. */
  function Assignments(db: Db, aliases: seq<string>): set<seq<nat>> {
    if aliases == [] then {[]}
    else set r, c | r in TableOf(db, aliases[0]) && c in Assignments(db, aliases[1..]) :: [r] + c
  }

  predicate Assigns(db: Db, aliases: seq<string>, chain: seq<nat>) {
    |chain| == |aliases| && forall i :: 0 <= i < |chain| ==> chain[i] in TableOf(db, aliases[i])
  }

  lemma {:induction false} AssignmentsMembers(db: Db, aliases: seq<string>, chain: seq<nat>)
    ensures chain in Assignments(db, aliases) <==> Assigns(db, aliases, chain)
  {
    if aliases != [] && chain != [] {
      AssignmentsMembers(db, aliases[1..], chain[1..]);
      assert chain == [chain[0]] + chain[1..];
      if chain in Assignments(db, aliases) {
        var r, c :| r in TableOf(db, aliases[0]) && c in Assignments(db, aliases[1..]) && chain == [r] + c;
        assert c == chain[1..];
        forall i | 0 <= i < |chain| ensures chain[i] in TableOf(db, aliases[i]) {
          if i > 0 { assert chain[i] == chain[1..][i - 1] && aliases[i] == aliases[1..][i - 1]; }
        }
      }
      if Assigns(db, aliases, chain) {
        assert Assigns(db, aliases[1..], chain[1..]);
      }
    }
  }

  predicate Satisfies(db: Db, s: Statement, row: Row, chain: seq<nat>) {
    forall c :: c in s.conditions ==> Meets(db, s, row, chain, c)
  }

  /** The anchor holds a time at or before the cutoff; a NULL anchor never does. */
  predicate Lapsed(row: Row, anchor: string, due: string -> bool) {
    Get(row, anchor).Val? && due(Get(row, anchor).text)
  }

  /** The statement's result rows, each with the rows it was joined from. */
  function Answers(db: Db, s: Statement, anchor: string, due: string -> bool): set<(nat, seq<nat>)> {
    set r, c | r in TableOf(db, s.from) && c in Assignments(db, s.aliases)
      && Lapsed(TableOf(db, s.from)[r], anchor, due) && Satisfies(db, s, TableOf(db, s.from)[r], c) :: (r, c)
  }

  // --- counting per subject -------------------------------------------------------

  /** A value as the report prints it. */
  function Text(c: Cell): string {
    if c.Val? then c.text else "None"
  }

  function Texts(cells: seq<Cell>): seq<string> {
    seq(|cells|, i requires 0 <= i < |cells| => Text(cells[i]))
  }

  function RefKey(values: seq<string>): string
    requires values != []
  {
    if |values| == 1 then Identity.Canonical(Identity.Single(values[0]))
    else Identity.Canonical(Identity.Composite(values))
  }

  function SelectedCells(db: Db, s: Statement, a: (nat, seq<nat>)): seq<Cell>
    requires a.0 in TableOf(db, s.from)
  {
    seq(|s.selected|, i requires 0 <= i < |s.selected| => CellOf(db, s, TableOf(db, s.from)[a.0], a.1, s.selected[i]))
  }

  predicate Attributed(db: Db, s: Statement, a: (nat, seq<nat>), subject: string) {
    s.selected != [] && a.0 in TableOf(db, s.from) && RefKey(Texts(SelectedCells(db, s, a))) == subject
  }

  function AnswersFor(db: Db, s: Statement, answers: set<(nat, seq<nat>)>, subject: string): set<(nat, seq<nat>)> {
    set a | a in answers && Attributed(db, s, a, subject)
  }

  datatype Swept = Entry(expired: map<string, nat>, indeterminate: nat) | InvalidKey

  ghost predicate Tallied(expired: map<string, nat>, db: Db, s: Statement, answers: set<(nat, seq<nat>)>) {
    && (forall k :: k in expired ==> expired[k] == |AnswersFor(db, s, answers, k)| && expired[k] > 0)
    && (forall a, k :: a in answers && Attributed(db, s, a, k) ==> k in expired)
  }

  lemma AttributedOnce(db: Db, s: Statement, a: (nat, seq<nat>), k: string)
    requires Attributed(db, s, a, k)
    ensures forall n :: Attributed(db, s, a, n) ==> n == k
  {}

  lemma AnswersForGrow(db: Db, s: Statement, answers: set<(nat, seq<nat>)>, a: (nat, seq<nat>), n: string)
    requires a !in answers
    ensures Attributed(db, s, a, n) ==> |AnswersFor(db, s, answers + {a}, n)| == |AnswersFor(db, s, answers, n)| + 1
    ensures !Attributed(db, s, a, n) ==> AnswersFor(db, s, answers + {a}, n) == AnswersFor(db, s, answers, n)
  {
    hide Attributed;
    if Attributed(db, s, a, n) {
      assert AnswersFor(db, s, answers + {a}, n) == AnswersFor(db, s, answers, n) + {a};
    } else {
      assert AnswersFor(db, s, answers + {a}, n) == AnswersFor(db, s, answers, n);
    }
  }

  lemma NotYetCounted(expired: map<string, nat>, db: Db, s: Statement, answers: set<(nat, seq<nat>)>, k: string)
    requires Tallied(expired, db, s, answers) && k !in expired
    ensures AnswersFor(db, s, answers, k) == {}
  {
    hide Attributed;
  }

  lemma TallyOne(expired: map<string, nat>, db: Db, s: Statement, answers: set<(nat, seq<nat>)>, a: (nat, seq<nat>),
                 k: string)
    requires Tallied(expired, db, s, answers) && a !in answers && Attributed(db, s, a, k)
    ensures Tallied(expired[k := (if k in expired then expired[k] else 0) + 1], db, s, answers + {a})
  {
    AttributedOnce(db, s, a, k);
    if k !in expired { NotYetCounted(expired, db, s, answers, k); }
    hide Attributed, AnswersFor;
    var expired' := expired[k := (if k in expired then expired[k] else 0) + 1];
    forall n | n in expired' ensures expired'[n] == |AnswersFor(db, s, answers + {a}, n)| && expired'[n] > 0 {
      AnswersForGrow(db, s, answers, a, n);
    }
  }

  /** Matches a column's rows against the cutoff and counts them per owning subject, and apart
      from those the rows with no anchor. The sweep refuses when some matched row's composite key
      has an empty element. */
  method SweptEntry(session: Session, g: Graph, name: string, anchor: string, due: string -> bool)
    returns (r: Swept, ghost s: Statement)
    requires Coherent(g) && InGraph(g, name)
    ensures StatementFor(g, name, s)
    ensures r.Entry? ==> Tallied(r.expired, session.db, s, Answers(session.db, s, anchor, due))
    ensures r.Entry? ==>
              r.indeterminate
              == |set q | q in TableOf(session.db, name) && Get(TableOf(session.db, name)[q], anchor) == Null|
    ensures r.InvalidKey? <==>
              && |g.idColumns| > 1
              && exists a :: a in Answers(session.db, s, anchor, due)
                   && !Identity.ValidKey(Texts(SelectedCells(session.db, s, a)))
  {
    var statement := AttributionStatement(g, name);
    s := statement;
    var db := session.db;
    var answers := Answers(db, statement, anchor, due);
    var expired: map<string, nat> := map[];
    var left := answers;
    while left != {}
      invariant left <= answers
      invariant Tallied(expired, db, statement, answers - left)
      invariant |g.idColumns| > 1 ==> forall a :: a in answers - left ==>
                Identity.ValidKey(Texts(SelectedCells(db, s, a)))
    {
      var a :| a in left;
      var values := Texts(SelectedCells(db, statement, a));
      if |values| > 1 && !Identity.ValidKey(values) {
        return InvalidKey, s;
      }
      var k := RefKey(values);
      TallyOne(expired, db, statement, answers - left, a, k);
      assert answers - (left - {a}) == (answers - left) + {a};
      expired := expired[k := (if k in expired then expired[k] else 0) + 1];
      left := left - {a};
    }
    assert answers - left == answers;
    r := Entry(expired, |set q | q in TableOf(db, name) && Get(TableOf(db, name)[q], anchor) == Null|);
  }

  // --- the join is the nested predicate ---------------------------------------------

  lemma AliasIsChainRow(db: Db, hops: seq<Hop>, row: Row, chain: seq<nat>, i: nat)
    requires |chain| == |hops| && i <= |hops|
    ensures AliasRow(db, Targets(hops), row, chain, i) == RowAt(db, hops, row, chain, i)
  {}

  lemma HopMeets(db: Db, s: Statement, hops: seq<Hop>, row: Row, chain: seq<nat>, i: nat)
    requires i < |hops| == |chain| && hops[i].Valid() && s.aliases == Targets(hops)
    ensures (forall c :: c in HopConditions(hops[i], i) ==> Meets(db, s, row, chain, c))
            <==> SqlEqual(Project(RowAt(db, hops, row, chain, i), hops[i].sourceColumns),
                          Project(RowAt(db, hops, row, chain, i + 1), hops[i].targetColumns))
  {
    var h := hops[i];
    AliasIsChainRow(db, hops, row, chain, i);
    AliasIsChainRow(db, hops, row, chain, i + 1);
    var here := Project(RowAt(db, hops, row, chain, i), h.sourceColumns);
    var there := Project(RowAt(db, hops, row, chain, i + 1), h.targetColumns);
    forall k | 0 <= k < |h.sourceColumns|
      ensures Meets(db, s, row, chain, HopConditions(h, i)[k]) <==> here[k] != Null && here[k] == there[k]
    {}
    if SqlEqual(here, there) {
      forall c | c in HopConditions(h, i) ensures Meets(db, s, row, chain, c) {
        var k :| 0 <= k < |HopConditions(h, i)| && HopConditions(h, i)[k] == c;
      }
    }
    if forall c :: c in HopConditions(h, i) ==> Meets(db, s, row, chain, c) {
      forall k | 0 <= k < |here| ensures here[k] != Null && here[k] == there[k] {
        assert HopConditions(h, i)[k] in HopConditions(h, i);
      }
    }
  }

  lemma {:induction false} ConditionsAreJoins(db: Db, s: Statement, hops: seq<Hop>, row: Row, chain: seq<nat>, n: nat)
    requires n <= |hops| == |chain| && s.aliases == Targets(hops) && forall h :: h in hops ==> h.Valid()
    requires Assigns(db, Targets(hops), chain)
    ensures (forall c :: c in Conditions(hops, n) ==> Meets(db, s, row, chain, c))
            <==> forall i :: 0 <= i < n ==> Joined(db, hops, row, chain, i)
  {
    hide Meets, Joined, HopConditions, Assigns, Targets;
    if n > 0 {
      var m := n - 1;
      ConditionsAreJoins(db, s, hops, row, chain, m);
      HopIsJoin(db, s, hops, row, chain, m);
      assert forall c :: c in Conditions(hops, n) <==> c in Conditions(hops, m) || c in HopConditions(hops[m], m);
    }
  }

  lemma HopIsJoin(db: Db, s: Statement, hops: seq<Hop>, row: Row, chain: seq<nat>, i: nat)
    requires i < |hops| == |chain| && hops[i].Valid() && s.aliases == Targets(hops)
    requires Assigns(db, Targets(hops), chain)
    ensures (forall c :: c in HopConditions(hops[i], i) ==> Meets(db, s, row, chain, c))
            <==> Joined(db, hops, row, chain, i)
  {
    hide Meets, HopConditions;
    HopMeets(db, s, hops, row, chain, i);
    assert chain[i] in TableOf(db, Targets(hops)[i]);
  }

  /** The sweeper's join and the planner's chains are the same: an assignment of rows answers the
      statement exactly when it is a chain of joined rows. */
  lemma JoinIsChain(db: Db, s: Statement, hops: seq<Hop>, row: Row, chain: seq<nat>)
    requires s.aliases == Targets(hops) && (forall h :: h in hops ==> h.Valid())
    requires s.conditions == Conditions(hops, |hops|)
    ensures chain in Assignments(db, s.aliases) && Satisfies(db, s, row, chain) <==> IsChain(db, hops, row, chain)
  {
    AssignmentsMembers(db, s.aliases, chain);
    if Assigns(db, s.aliases, chain) {
      ConditionsAreJoins(db, s, hops, row, chain, |hops|);
    }
    if IsChain(db, hops, row, chain) {
      forall i | 0 <= i < |chain| ensures chain[i] in TableOf(db, s.aliases[i]) {
        assert Joined(db, hops, row, chain, i);
      }
    }
  }

  // --- each lapsed row is counted once, for its subject --------------------------------

  /** The statement the sweeper builds for a table. */
  predicate StatementFor(g: Graph, name: string, s: Statement)
    requires InGraph(g, name)
  {
    var hops := AccessOf(g, name).hops;
    && s.from == name && s.aliases == Targets(hops) && s.selected == Columns(|hops|, g.idColumns)
    && (forall h :: h in hops ==> h.Valid()) && s.conditions == Conditions(hops, |hops|)
  }

  predicate NoNull(cells: seq<Cell>) {
    forall i :: 0 <= i < |cells| ==> cells[i] != Null
  }

  /** No matched row is attributed over a NULL key cell. */
  predicate NullFree(db: Db, s: Statement, anchor: string, due: string -> bool) {
    forall a :: a in Answers(db, s, anchor, due) ==> NoNull(SelectedCells(db, s, a))
  }

  function LapsedScope(db: Db, g: Graph, key: seq<string>, name: string, anchor: string, due: string -> bool): set<nat>
    requires InGraph(g, name)
  {
    set r | r in Matching(db, name, ScopeOf(g.idColumns, key, AccessOf(g, name).hops))
            && Get(TableOf(db, name)[r], anchor).Val? && due(Get(TableOf(db, name)[r], anchor).text)
  }

  function CountedRows(db: Db, s: Statement, anchor: string, due: string -> bool, subject: string): set<nat> {
    set a | a in AnswersFor(db, s, Answers(db, s, anchor, due), subject) :: a.0
  }

  lemma {:induction false} ProjectionSize(answers: set<(nat, seq<nat>)>)
    requires forall a, b :: a in answers && b in answers && a.0 == b.0 ==> a == b
    ensures |set a | a in answers :: a.0| == |answers|
  {
    if answers != {} {
      var x :| x in answers;
      var rest := answers - {x};
      ProjectionSize(rest);
      assert (set a | a in answers :: a.0) == (set a | a in rest :: a.0) + {x.0};
    }
  }

  /** Over unique hop targets no row is counted twice. */
  lemma CountedOnce(db: Db, g: Graph, s: Statement, name: string, anchor: string, due: string -> bool, subject: string)
    requires InGraph(g, name) && StatementFor(g, name, s) && UniqueTargets(db, AccessOf(g, name).hops)
    ensures |AnswersFor(db, s, Answers(db, s, anchor, due), subject)| == |CountedRows(db, s, anchor, due, subject)|
  {
    var hops, T := AccessOf(g, name).hops, TableOf(db, name);
    var counted := AnswersFor(db, s, Answers(db, s, anchor, due), subject);
    forall a, b | a in counted && b in counted && a.0 == b.0 ensures a == b {
      JoinIsChain(db, s, hops, T[a.0], a.1);
      JoinIsChain(db, s, hops, T[b.0], b.1);
      ChainIsUnique(db, hops, T[a.0], a.1, b.1);
    }
    ProjectionSize(counted);
  }

  lemma RefKeyInjective(a: seq<string>, b: seq<string>)
    requires |a| == |b| > 0
    ensures RefKey(a) == RefKey(b) <==> a == b
  {
    if |a| > 1 {
      Identity.CompositeInjective(a, b);
    } else {
      assert a == [a[0]] && b == [b[0]];
    }
  }

  /** What the report prints for a key is an identifier of that key: an erasure given it scopes by the key. */
  lemma ReportedReferenceScopes(key: seq<string>)
    requires Identity.ValidKey(key)
    ensures Identity.SubjectValues(|key|, Identity.Single(RefKey(key))) == Identity.Values(key)
  {
    if |key| > 1 {
      Identity.RoundTrip(key);
    } else {
      assert key == [key[0]];
    }
  }

  /** An answer whose chain ends at a key is attributed to it, and the other way round unless its key
      cells hold a NULL. */
  lemma AttributionIsEnd(db: Db, g: Graph, s: Statement, name: string, key: seq<string>, r: nat, chain: seq<nat>)
    requires Coherent(g) && InGraph(g, name) && StatementFor(g, name, s) && r in TableOf(db, name)
    requires |key| == |g.idColumns|
    requires IsChain(db, AccessOf(g, name).hops, TableOf(db, name)[r], chain)
    ensures EndsAt(db, AccessOf(g, name).hops, TableOf(db, name)[r], chain, g.idColumns, key)
            <==> Attributed(db, s, (r, chain), RefKey(key)) && NoNull(SelectedCells(db, s, (r, chain)))
  {
    var hops, row := AccessOf(g, name).hops, TableOf(db, name)[r];
    AliasIsChainRow(db, hops, row, chain, |hops|);
    var end := Project(RowAt(db, hops, row, chain, |hops|), g.idColumns);
    assert SelectedCells(db, s, (r, chain)) == end;
    RefKeyInjective(Texts(end), key);
    TextsAreKey(end, key);
  }

  lemma TextsAreKey(cells: seq<Cell>, key: seq<string>)
    requires |cells| == |key|
    ensures SqlEqual(cells, Cells(key)) <==> NoNull(cells) && Texts(cells) == key
  {
    if SqlEqual(cells, Cells(key)) {
      forall i | 0 <= i < |cells| ensures cells[i] != Null && Texts(cells)[i] == key[i] {
        assert cells[i] == Cells(key)[i];
      }
    }
  }

  /** A row in a key's lapsed scope is counted for that key. */
  lemma ScopeIsCounted(db: Db, g: Graph, s: Statement, name: string, key: seq<string>, anchor: string,
                       due: string -> bool, r: nat)
    requires Coherent(g) && InGraph(g, name) && StatementFor(g, name, s) && |key| == |g.idColumns|
    requires r in LapsedScope(db, g, key, name, anchor, due)
    ensures r in CountedRows(db, s, anchor, due, RefKey(key))
  {
    var hops, T := AccessOf(g, name).hops, TableOf(db, name);
    ScopeIsChain(db, g.idColumns, key, hops, T[r]);
    var chain :| IsChain(db, hops, T[r], chain) && EndsAt(db, hops, T[r], chain, g.idColumns, key);
    JoinIsChain(db, s, hops, T[r], chain);
    AttributionIsEnd(db, g, s, name, key, r, chain);
    assert (r, chain) in AnswersFor(db, s, Answers(db, s, anchor, due), RefKey(key));
  }

  /** A counted row whose key cells hold no NULL is in the key's lapsed scope. */
  lemma CountedIsScope(db: Db, g: Graph, s: Statement, name: string, key: seq<string>, anchor: string,
                       due: string -> bool, a: (nat, seq<nat>))
    requires Coherent(g) && InGraph(g, name) && StatementFor(g, name, s) && |key| == |g.idColumns|
    requires a in AnswersFor(db, s, Answers(db, s, anchor, due), RefKey(key)) && NoNull(SelectedCells(db, s, a))
    ensures a.0 in LapsedScope(db, g, key, name, anchor, due)
  {
    var hops, T := AccessOf(g, name).hops, TableOf(db, name);
    JoinIsChain(db, s, hops, T[a.0], a.1);
    AttributionIsEnd(db, g, s, name, key, a.0, a.1);
    ScopeIsChain(db, g.idColumns, key, hops, T[a.0]);
  }

  /** The count reported for a key is the number of lapsed rows in that key's erasure scope. */
  ghost predicate CountIsRight(db: Db, g: Graph, s: Statement, name: string, key: seq<string>, anchor: string,
                               due: string -> bool)
    requires InGraph(g, name) && key != []
  {
    |AnswersFor(db, s, Answers(db, s, anchor, due), RefKey(key))| == |LapsedScope(db, g, key, name, anchor, due)|
  }

  /** Over unique hop targets, counts that attribute no row over a NULL are right: the join neither
      splits, merges nor repeats rows. */
  lemma SweepCountsScope(db: Db, g: Graph, s: Statement, name: string, key: seq<string>, anchor: string,
                         due: string -> bool)
    requires Coherent(g) && InGraph(g, name) && StatementFor(g, name, s) && |key| == |g.idColumns|
    requires UniqueTargets(db, AccessOf(g, name).hops) && NullFree(db, s, anchor, due)
    ensures CountIsRight(db, g, s, name, key, anchor, due)
  {
    CountedOnce(db, g, s, name, anchor, due, RefKey(key));
    var rows, scope := CountedRows(db, s, anchor, due, RefKey(key)), LapsedScope(db, g, key, name, anchor, due);
    forall r ensures r in rows <==> r in scope {
      if r in rows {
        var a :| a in AnswersFor(db, s, Answers(db, s, anchor, due), RefKey(key)) && a.0 == r;
        CountedIsScope(db, g, s, name, key, anchor, due, a);
      }
      if r in scope {
        ScopeIsCounted(db, g, s, name, key, anchor, due, r);
      }
    }
    assert rows == scope;
  }

  /** A row attributed over a NULL is counted for a key whose scope does not hold it. */
  lemma NullIsMiscounted(db: Db, g: Graph, s: Statement, name: string, anchor: string, due: string -> bool,
                         a: (nat, seq<nat>))
    requires Coherent(g) && InGraph(g, name) && StatementFor(g, name, s) && UniqueTargets(db, AccessOf(g, name).hops)
    requires a in Answers(db, s, anchor, due) && !NoNull(SelectedCells(db, s, a))
    ensures |Texts(SelectedCells(db, s, a))| == |g.idColumns|
    ensures !CountIsRight(db, g, s, name, Texts(SelectedCells(db, s, a)), anchor, due)
  {
    var key := Texts(SelectedCells(db, s, a));
    CountedOnce(db, g, s, name, anchor, due, RefKey(key));
    var rows, scope := CountedRows(db, s, anchor, due, RefKey(key)), LapsedScope(db, g, key, name, anchor, due);
    forall r | r in scope ensures r in rows { ScopeIsCounted(db, g, s, name, key, anchor, due, r); }
    NullIsOutside(db, g, s, name, key, anchor, due, a);
    assert a in AnswersFor(db, s, Answers(db, s, anchor, due), RefKey(key));
    assert a.0 in rows && a.0 !in scope;
    Ordering.CardinalitySmaller(scope, rows, a.0);
  }

  lemma NullIsOutside(db: Db, g: Graph, s: Statement, name: string, key: seq<string>, anchor: string,
                      due: string -> bool, a: (nat, seq<nat>))
    requires Coherent(g) && InGraph(g, name) && StatementFor(g, name, s) && UniqueTargets(db, AccessOf(g, name).hops)
    requires |key| == |g.idColumns| && a in Answers(db, s, anchor, due) && !NoNull(SelectedCells(db, s, a))
    ensures a.0 !in LapsedScope(db, g, key, name, anchor, due)
  {
    var hops, T := AccessOf(g, name).hops, TableOf(db, name);
    JoinIsChain(db, s, hops, T[a.0], a.1);
    ScopeIsChain(db, g.idColumns, key, hops, T[a.0]);
    forall chain | IsChain(db, hops, T[a.0], chain) ensures !EndsAt(db, hops, T[a.0], chain, g.idColumns, key) {
      ChainIsUnique(db, hops, T[a.0], chain, a.1);
      AttributionIsEnd(db, g, s, name, key, a.0, chain);
    }
  }

  /** Over unique hop targets every key's count is right if and only if no matched row is attributed
      over a NULL key cell. */
  lemma CountsAreRightExactly(db: Db, g: Graph, s: Statement, name: string, anchor: string, due: string -> bool)
    requires Coherent(g) && InGraph(g, name) && StatementFor(g, name, s) && UniqueTargets(db, AccessOf(g, name).hops)
    ensures (forall key: seq<string> :: |key| == |g.idColumns| ==> CountIsRight(db, g, s, name, key, anchor, due))
            <==> NullFree(db, s, anchor, due)
  {
    if NullFree(db, s, anchor, due) {
      forall key: seq<string> | |key| == |g.idColumns| ensures CountIsRight(db, g, s, name, key, anchor, due) {
        SweepCountsScope(db, g, s, name, key, anchor, due);
      }
    } else {
      var a :| a in Answers(db, s, anchor, due) && !NoNull(SelectedCells(db, s, a));
      NullIsMiscounted(db, g, s, name, anchor, due, a);
    }
  }

  ghost predicate Misreports(db: Db, g: Graph, s: Statement, due: string -> bool) {
    && Coherent(g) && InGraph(g, "users") && AccessOf(g, "users").hops == []
    && s == Statement("users", [], [], Columns(0, g.idColumns))
    && |AnswersFor(db, s, Answers(db, s, "at", due), RefKey(["None"]))| == 1
    && LapsedScope(db, g, ["None"], "users", "at", due) == {}
  }

  /** Keyed subject rows are needed: a row with a NULL key is reported under the text of NULL, a
      subject whose scope does not hold it. */
  lemma NullKeyIsMisreported()
    ensures exists db: Db, g: Graph, s: Statement, due: string -> bool :: Misreports(db, g, s, due)
  {
    var row: Row := map["at" := Val("then")];
    var db: Db := map["users" := map[0 := row]];
    var a := Access("users", [], true);
    var g := Graph("users", ["id"], [a]);
    var s := Statement("users", [], [], Columns(0, ["id"]));
    var due: string -> bool := t => true;
    assert a in g.accesses;
    assert SelectedCells(db, s, (0, [])) == [Null];
    assert Texts([Null]) == ["None"];
    assert Attributed(db, s, (0, []), RefKey(["None"]));
    assert AnswersFor(db, s, Answers(db, s, "at", due), RefKey(["None"])) == {(0, [])};
    assert Project(row, ["id"])[0] == Null;
    assert Misreports(db, g, s, due);
  }
}

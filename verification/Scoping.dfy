/** A relational store and the predicate that scopes a table's rows to one subject. */
module Scoping {
  import opened Manifest
  import Identity

  // --- the store -------------------------------------------------------------

  /** A cell. NULL equals nothing, not even itself. */
  datatype Cell = Null | Val(text: string)

  type Row = map<string, Cell>
  type Table = map<nat, Row>  // rows by storage identity
  type Db = map<string, Table>

  function Get(row: Row, column: string): Cell {
    if column in row then row[column] else Null
  }

  function TableOf(db: Db, name: string): Table {
    if name in db then db[name] else map[]
  }

  function Project(row: Row, columns: seq<string>): seq<Cell> {
    seq(|columns|, i requires 0 <= i < |columns| => Get(row, columns[i]))
  }

  /** SQL equality of two column tuples being true: every pair equal, none NULL. */
  predicate SqlEqual(a: seq<Cell>, b: seq<Cell>) {
    |a| == |b| && forall i :: 0 <= i < |a| ==> a[i] != Null && a[i] == b[i]
  }

  function Cells(key: seq<string>): seq<Cell> {
    seq(|key|, i requires 0 <= i < |key| => Val(key[i]))
  }

  // --- the nested predicate ----------------------------------------------------

  /** The innermost equality on the subject key, or membership of a column tuple in a subquery. */
  datatype Scope =
    | Anchor(columns: seq<string>, key: seq<string>)
    | In(columns: seq<string>, table: string, selected: seq<string>, filter: Scope)

  /** Whether a row passes the WHERE clause, that is, whether the predicate is true of it. */
  predicate Holds(db: Db, p: Scope, row: Row) {
    match p
    case Anchor(columns, key) => SqlEqual(Project(row, columns), Cells(key))
    case In(columns, table, selected, filter) =>
      exists r :: r in TableOf(db, table) && Holds(db, filter, TableOf(db, table)[r])
        && SqlEqual(Project(row, columns), Project(TableOf(db, table)[r], selected))
  }

  /** The rows of a table that pass the predicate. */
  function Matching(db: Db, table: string, p: Scope): set<nat> {
    set r | r in TableOf(db, table) && Holds(db, p, TableOf(db, table)[r])
  }

  /** The nested predicate of a hop chain, read from the table outwards. */
  function ScopeOf(idColumns: seq<string>, key: seq<string>, hops: seq<Hop>): Scope {
    if hops == [] then Anchor(idColumns, key)
    else In(hops[0].sourceColumns, hops[0].target, hops[0].targetColumns, ScopeOf(idColumns, key, hops[1..]))
  }

  datatype ScopeResult = Predicate(where: Scope) | UnknownTable | Refused(why: Identity.KeyResult)

  /** Builds the predicate from the subject outwards, over the reversed hops. */
  method SubjectScope(g: Graph, name: string, id: Identity.Identifier) returns (r: ScopeResult)
    requires Coherent(g)
    ensures r.Refused? <==> !Identity.SubjectValues(|g.idColumns|, id).Values?
    ensures r.UnknownTable? <==> Identity.SubjectValues(|g.idColumns|, id).Values? && !InGraph(g, name)
    ensures r.Predicate? ==>
              r.where == ScopeOf(g.idColumns, Identity.SubjectValues(|g.idColumns|, id).values, AccessOf(g, name).hops)
  {
    var key := Identity.SubjectValues(|g.idColumns|, id);
    if !key.Values? {
      return Refused(key);
    }
    if !InGraph(g, name) {
      return UnknownTable;
    }
    var hops := AccessOf(g, name).hops;
    var inner, where := g.subject, Anchor(g.idColumns, key.values);
    var i := |hops|;
    while i > 0
      invariant 0 <= i <= |hops|
      invariant where == ScopeOf(g.idColumns, key.values, hops[i..])
      invariant i > 0 ==> inner == hops[i - 1].target
    {
      i := i - 1;
      assert hops[i..][1..] == hops[i + 1..];
      where := In(hops[i].sourceColumns, inner, hops[i].targetColumns, where);
      inner := hops[i].source;
      if i > 0 { ContiguousAt(name, hops, i); }
    }
    assert hops[0..] == hops;
    r := Predicate(where);
  }

  lemma ContiguousAt(table: string, hops: seq<Hop>, i: nat)
    requires Contiguous(table, hops) && 0 < i < |hops|
    ensures hops[i].source == hops[i - 1].target
    decreases |hops|
  {
    if i > 1 { ContiguousAt(hops[0].target, hops[1..], i - 1); }
  }

  // --- what the predicate means: a chain of joined rows ending at the key --------

  /** The i-th row along a chain; row 0 is the scoped row itself. */
  function RowAt(db: Db, hops: seq<Hop>, row: Row, chain: seq<nat>, i: nat): Row
    requires |chain| == |hops| && i <= |hops|
  {
    if i == 0 then row
    else if chain[i - 1] in TableOf(db, hops[i - 1].target) then TableOf(db, hops[i - 1].target)[chain[i - 1]]
    else map[]
  }

  predicate Joined(db: Db, hops: seq<Hop>, row: Row, chain: seq<nat>, i: nat)
    requires |chain| == |hops| && i < |hops|
  {
    && chain[i] in TableOf(db, hops[i].target)
    && SqlEqual(Project(RowAt(db, hops, row, chain, i), hops[i].sourceColumns),
                Project(RowAt(db, hops, row, chain, i + 1), hops[i].targetColumns))
  }

  /** One row of each hop's target table, each joined to the one before it. */
  predicate IsChain(db: Db, hops: seq<Hop>, row: Row, chain: seq<nat>) {
    |chain| == |hops| && forall i :: 0 <= i < |hops| ==> Joined(db, hops, row, chain, i)
  }

  predicate EndsAt(db: Db, hops: seq<Hop>, row: Row, chain: seq<nat>, idColumns: seq<string>, key: seq<string>)
    requires |chain| == |hops|
  {
    SqlEqual(Project(RowAt(db, hops, row, chain, |hops|), idColumns), Cells(key))
  }

  lemma ChainCons(db: Db, hops: seq<Hop>, row: Row, chain: seq<nat>)
    requires hops != [] && |chain| == |hops|
    ensures IsChain(db, hops, row, chain) <==>
              && Joined(db, hops, row, chain, 0)
              && IsChain(db, hops[1..], RowAt(db, hops, row, chain, 1), chain[1..])
    ensures chain[0] in TableOf(db, hops[0].target) ==>
              RowAt(db, hops, row, chain, |hops|)
              == RowAt(db, hops[1..], RowAt(db, hops, row, chain, 1), chain[1..], |hops| - 1)
  {
    var next, tail, rest := RowAt(db, hops, row, chain, 1), hops[1..], chain[1..];
    forall i | 0 < i < |hops|
      ensures Joined(db, hops, row, chain, i) == Joined(db, tail, next, rest, i - 1)
    {
      assert tail[i - 1] == hops[i] && rest[i - 1] == chain[i];
    }
    forall i | 0 <= i < |tail| ensures Joined(db, tail, next, rest, i) == Joined(db, hops, row, chain, i + 1) {}
  }

  /** The nested IN is true of a row exactly when some chain of joined rows, of any length and
      over any composite or self-referential hops, leads from it to the subject's key. */
  lemma {:induction false} ScopeIsChain(db: Db, idColumns: seq<string>, key: seq<string>, hops: seq<Hop>, row: Row)
    ensures Holds(db, ScopeOf(idColumns, key, hops), row)
            <==> exists chain :: IsChain(db, hops, row, chain) && EndsAt(db, hops, row, chain, idColumns, key)
  {
    if hops == [] {
      assert IsChain(db, hops, row, []);
      if Holds(db, ScopeOf(idColumns, key, hops), row) {
        assert EndsAt(db, hops, row, [], idColumns, key);
      }
    } else {
      var target := TableOf(db, hops[0].target);
      if Holds(db, ScopeOf(idColumns, key, hops), row) {
        var r :| r in target && Holds(db, ScopeOf(idColumns, key, hops[1..]), target[r])
          && SqlEqual(Project(row, hops[0].sourceColumns), Project(target[r], hops[0].targetColumns));
        ScopeIsChain(db, idColumns, key, hops[1..], target[r]);
        var rest :| IsChain(db, hops[1..], target[r], rest) && EndsAt(db, hops[1..], target[r], rest, idColumns, key);
        var chain := [r] + rest;
        assert chain[1..] == rest;
        ChainCons(db, hops, row, chain);
        assert IsChain(db, hops, row, chain) && EndsAt(db, hops, row, chain, idColumns, key);
      }
      if chain :| IsChain(db, hops, row, chain) && EndsAt(db, hops, row, chain, idColumns, key) {
        assert Joined(db, hops, row, chain, 0);
        ChainCons(db, hops, row, chain);
        ScopeIsChain(db, idColumns, key, hops[1..], target[chain[0]]);
        assert EndsAt(db, hops[1..], target[chain[0]], chain[1..], idColumns, key);
      }
    }
  }

  // --- unique hop targets: subjects do not overlap ---------------------------------

  /** No two rows of the target table agree on the referenced columns. */
  ghost predicate UniqueTarget(db: Db, h: Hop) {
    forall r, s :: r in TableOf(db, h.target) && s in TableOf(db, h.target)
      && SqlEqual(Project(TableOf(db, h.target)[r], h.targetColumns),
                  Project(TableOf(db, h.target)[s], h.targetColumns))
      ==> r == s
  }

  ghost predicate UniqueTargets(db: Db, hops: seq<Hop>) {
    forall h :: h in hops ==> UniqueTarget(db, h)
  }

  lemma SqlEqualMeet(a: seq<Cell>, b: seq<Cell>, c: seq<Cell>)
    requires SqlEqual(a, b) && SqlEqual(a, c)
    ensures SqlEqual(b, c)
  {}

  /** A row has at most one chain when every hop's target is unique. */
  lemma {:induction false} ChainIsUnique(db: Db, hops: seq<Hop>, row: Row, c: seq<nat>, d: seq<nat>)
    requires UniqueTargets(db, hops) && IsChain(db, hops, row, c) && IsChain(db, hops, row, d)
    ensures c == d
    decreases |hops|
  {
    if hops != [] {
      assert Joined(db, hops, row, c, 0) && Joined(db, hops, row, d, 0);
      SqlEqualMeet(Project(row, hops[0].sourceColumns), Project(RowAt(db, hops, row, c, 1), hops[0].targetColumns),
                   Project(RowAt(db, hops, row, d, 1), hops[0].targetColumns));
      assert UniqueTarget(db, hops[0]);
      assert c[0] == d[0];
      ChainCons(db, hops, row, c);
      ChainCons(db, hops, row, d);
      ChainIsUnique(db, hops[1..], RowAt(db, hops, row, c, 1), c[1..], d[1..]);
      assert c == [c[0]] + c[1..] && d == [d[0]] + d[1..];
    }
  }

  /** No bleed: with unique hop targets no row is in the scope of two different subjects, even
      when their composite keys share elements. */
  lemma ScopesAreDisjoint(db: Db, idColumns: seq<string>, hops: seq<Hop>, row: Row, key: seq<string>,
                          other: seq<string>)
    requires UniqueTargets(db, hops)
    requires Holds(db, ScopeOf(idColumns, key, hops), row) && Holds(db, ScopeOf(idColumns, other, hops), row)
    ensures key == other
  {
    ScopeIsChain(db, idColumns, key, hops, row);
    ScopeIsChain(db, idColumns, other, hops, row);
    var c :| IsChain(db, hops, row, c) && EndsAt(db, hops, row, c, idColumns, key);
    var d :| IsChain(db, hops, row, d) && EndsAt(db, hops, row, d, idColumns, other);
    ChainIsUnique(db, hops, row, c, d);
    SqlEqualMeet(Project(RowAt(db, hops, row, c, |hops|), idColumns), Cells(key), Cells(other));
    forall i | 0 <= i < |key| ensures key[i] == other[i] {
      assert Cells(key)[i] == Cells(other)[i];
    }
  }
}

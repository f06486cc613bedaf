/** One local step: the rows in the subject's scope are deleted, rewritten or counted. */
module Executor {
  import opened Manifest
  import opened Scoping
  import opened Planning
  import opened Store
  import Identity

  /** Replacement values; the n-th call yields the n-th of them. */
  type Surrogates = nat -> string

  datatype StepResult = Rows(rows: nat) | IntegrityError | NoPrimaryKey | UnknownTarget | BadIdentifier

  /** The rows of a table that belong to the subject. */
  function SubjectRows(db: Db, g: Graph, key: seq<string>, table: string): set<nat> {
    if InGraph(g, table) then Matching(db, table, ScopeOf(g.idColumns, key, AccessOf(g, table).hops)) else {}
  }

  /** Every listed cell holds some replacement value; every other cell is what it was. */
  ghost predicate RowRewritten(before: Row, after: Row, columns: seq<string>, supply: Surrogates) {
    && (forall c :: c in columns ==> Replaced(Get(after, c), supply))
    && (forall c :: c !in columns ==> Get(after, c) == Get(before, c))
  }

  ghost predicate Replaced(cell: Cell, supply: Surrogates) {
    exists n :: cell == Val(supply(n))
  }

  /** The cell holds a value of one of the calls from `start` up to `next`. */
  ghost predicate DrawnFrom(cell: Cell, supply: Surrogates, start: nat, next: nat) {
    exists n :: start <= n < next && cell == Val(supply(n))
  }

  ghost predicate NeverRepeats(supply: Surrogates) {
    forall m, n :: supply(m) == supply(n) ==> m == n
  }

  function CellAt(db: Db, table: string, r: nat, c: string): Cell {
    if r in TableOf(db, table) then Get(TableOf(db, table)[r], c) else Null
  }

  /** Every rewritten cell comes from the calls of this run, and no two come from the same call. */
  ghost predicate FreshCells(db: Db, table: string, rows: set<nat>, columns: seq<string>, supply: Surrogates,
                             start: nat, next: nat) {
    && (forall r, c :: r in rows && c in columns ==> DrawnFrom(CellAt(db, table, r, c), supply, start, next))
    && (NeverRepeats(supply) ==> CellsApart(db, table, rows, columns))
  }

  ghost predicate CellsApart(db: Db, table: string, rows: set<nat>, columns: seq<string>) {
    forall r, c, s, d ::
      r in rows && c in columns && s in rows && d in columns && CellAt(db, table, r, c) == CellAt(db, table, s, d)
      ==> r == s && c == d
  }

  /** Part of the rows rewritten, each with values of its own. */
  ghost predicate Anonymized(before: Db, db: Db, table: string, rows: set<nat>, columns: seq<string>,
                             supply: Surrogates, start: nat, next: nat) {
    RowsRewritten(before, db, table, rows, columns, supply) && FreshCells(db, table, rows, columns, supply, start, next)
  }

  ghost predicate OtherTablesKept(before: Db, after: Db, table: string) {
    forall t :: t != table ==> TableOf(after, t) == TableOf(before, t)
  }

  ghost predicate RowsRewritten(before: Db, after: Db, table: string, rows: set<nat>, columns: seq<string>,
                                supply: Surrogates) {
    var T, T' := TableOf(before, table), TableOf(after, table);
    && OtherTablesKept(before, after, table)
    && T'.Keys == T.Keys
    && (forall r :: r in T && r !in rows ==> T'[r] == T[r])
    && (forall r :: r in T && r in rows ==> RowRewritten(T[r], T'[r], columns, supply))
  }

  ghost predicate StepEffect(before: Db, after: Db, s: Step, rows: set<nat>, supply: Surrogates) {
    match s.strategy
    case DELETE =>
      OtherTablesKept(before, after, s.target) && TableOf(after, s.target) == TableOf(before, s.target) - rows
    case ANONYMIZE => RowsRewritten(before, after, s.target, rows, s.columns, supply)
    case RETAIN => after == before
  }

  /** A column some primary or foreign key of the schema is built on. */
  predicate KeyColumn(schema: Schema, table: string, column: string) {
    || (table in schema.primaryKeys && column in schema.primaryKeys[table])
    || exists f :: f in schema.foreignKeys &&
         ((f.child == table && column in f.childColumns) || (f.parent == table && column in f.parentColumns))
  }

  predicate FreeOfKeys(schema: Schema, table: string, columns: seq<string>) {
    forall c :: c in columns ==> !KeyColumn(schema, table, c)
  }

  predicate FreeOfPrimaryKey(schema: Schema, table: string, columns: seq<string>) {
    table in schema.primaryKeys ==> forall c :: c in columns ==> c !in schema.primaryKeys[table]
  }

  /** Rewrites the matched rows one at a time, addressing each by its primary key. */
  method Anonymize(session: Session, table: string, columns: seq<string>, where: Scope, supply: Surrogates, start: nat)
    returns (r: StepResult, next: nat)
    requires session.Valid()
    modifies session
    ensures session.Valid()
    ensures r.NoPrimaryKey? <==> table !in session.schema.primaryKeys
    ensures r.Rows? || r.NoPrimaryKey? || r.IntegrityError?
    ensures r.NoPrimaryKey? ==> session.db == old(session.db)
    ensures r.Rows? ==> r.rows == |old(Matching(session.db, table, where))|
    ensures r.Rows? && FreeOfPrimaryKey(session.schema, table, columns) ==>
              var rows := old(Matching(session.db, table, where));
              Anonymized(old(session.db), session.db, table, rows, columns, supply, start, next)
    ensures start <= next
    ensures FreeOfKeys(session.schema, table, columns) ==> !r.IntegrityError?
  {
    if table !in session.schema.primaryKeys {
      return NoPrimaryKey, start;
    }
    var rows := Matching(session.db, table, where);
    var ok;
    ok, next := RewriteRows(session, table, columns, rows, supply, start);
    r := if ok then Rows(|rows|) else IntegrityError;
  }

  method RewriteRows(session: Session, table: string, columns: seq<string>, rows: set<nat>, supply: Surrogates,
                     start: nat)
    returns (ok: bool, next: nat)
    requires session.Valid() && table in session.schema.primaryKeys
    requires forall x :: x in rows ==> x in TableOf(session.db, table)
    modifies session
    ensures session.Valid()
    ensures ok && FreeOfPrimaryKey(session.schema, table, columns) ==>
              Anonymized(old(session.db), session.db, table, rows, columns, supply, start, next)
    ensures start <= next
    ensures FreeOfKeys(session.schema, table, columns) ==> ok
  {
    next := start;
    ghost var before := session.db;
    var key := session.schema.primaryKeys[table];
    var addresses := map x | x in rows :: Project(TableOf(session.db, table)[x], key);
    var todo := rows;
    ghost var done: set<nat> := {};
    assert Anonymized(before, session.db, table, done, columns, supply, start, next);
    hide *;
    while todo != {}
      invariant session.Valid()
      invariant forall x :: x in rows <==> x in todo || x in done
      invariant forall x :: x in todo ==> x !in done
      invariant FreeOfPrimaryKey(session.schema, table, columns) ==>
                  Anonymized(before, session.db, table, done, columns, supply, start, next)
      invariant start <= next
      decreases todo
    {
      var x :| x in todo;
      ghost var current, values, from := session.db, map[], next;
      ok, next, values := UpdateFresh(session, table, columns, key, addresses[x], supply, next);
      ghost var after :=
        AddressedUpdate(session.schema, before, current, table, done, x, columns, values, supply, start, from);
      if !ok {
        return;
      }
      todo, done := todo - {x}, done + {x};
    }
    assert done == rows;
    ok := true;
  }

  lemma AddressedUpdate(schema: Schema, before: Db, current: Db, table: string, done: set<nat>, x: nat,
                        columns: seq<string>, values: Row, supply: Surrogates, first: nat, start: nat)
    returns (after: Db)
    requires schema.Consistent(current) && table in schema.primaryKeys && first <= start
    requires x in TableOf(before, table) && x !in done && FreshRow(values, columns, supply, start)
    ensures var key := schema.primaryKeys[table];
            var hit := KeyMatches(current, table, key, Project(TableOf(before, table)[x], key));
            after == WithValues(current, table, hit, values)
    ensures FreeOfKeys(schema, table, columns) ==> schema.Consistent(after)
    ensures FreeOfPrimaryKey(schema, table, columns) ==>
              Anonymized(before, current, table, done, columns, supply, first, start) ==>
                Anonymized(before, after, table, done + {x}, columns, supply, first, start + |columns|)
  {
    hide *;
    var key := schema.primaryKeys[table];
    var cells := Project(TableOf(before, table)[x], key);
    after := WithValues(current, table, KeyMatches(current, table, key, cells), values);
    FreeValuesKeepConsistent(schema, current, table, key, cells, columns, values, supply, start);
    OneMoreAnonymized(schema, before, current, table, key, done, x, columns, values, supply, first, start);
  }

  /** One UPDATE: a fresh value for every column, on the row carrying the given primary key. */
  method UpdateFresh(session: Session, table: string, columns: seq<string>, key: seq<string>, cells: seq<Cell>,
                     supply: Surrogates, start: nat)
    returns (ok: bool, next: nat, ghost values: Row)
    requires session.Valid()
    modifies session
    ensures session.Valid()
    ensures next == start + |columns| && FreshRow(values, columns, supply, start)
    ensures ok
            <==> var hit := old(KeyMatches(session.db, table, key, cells));
                 session.schema.Consistent(WithValues(old(session.db), table, hit, values))
    ensures ok ==>
              session.db == WithValues(old(session.db), table, old(KeyMatches(session.db, table, key, cells)), values)
  {
    hide *;
    var row: Row;
    row, next := FreshValues(columns, supply, start);
    values := row;
    ok := session.UpdateByKey(table, key, cells, row);
  }

  /** A value per column, each from a call of its own. */
  ghost predicate FreshRow(values: Row, columns: seq<string>, supply: Surrogates, start: nat) {
    && (forall c :: c in values <==> c in columns)
    && (forall c :: c in values ==>
         Replaced(values[c], supply) && DrawnFrom(values[c], supply, start, start + |columns|))
    && (NeverRepeats(supply) ==> forall c, d :: c in values && d in values && values[c] == values[d] ==> c == d)
  }

  lemma FreeValuesKeepConsistent(schema: Schema, db: Db, table: string, key: seq<string>, cells: seq<Cell>,
                                 columns: seq<string>, values: Row, supply: Surrogates, start: nat)
    requires schema.Consistent(db) && FreshRow(values, columns, supply, start)
    ensures FreeOfKeys(schema, table, columns) ==>
              schema.Consistent(WithValues(db, table, KeyMatches(db, table, key, cells), values))
  {
    if FreeOfKeys(schema, table, columns) {
      var hit := KeyMatches(db, table, key, cells);
      ValuesKeepKeys(schema, db, table, hit, values);
      SameKeysKeepConsistent(schema, db, WithValues(db, table, hit, values));
    }
  }

  method FreshValues(columns: seq<string>, supply: Surrogates, start: nat) returns (values: Row, next: nat)
    ensures next == start + |columns| && FreshRow(values, columns, supply, start)
  {
    next := start;
    values := map[];
    for i := 0 to |columns|
      invariant next == start + i && FreshRow(values, columns[..i], supply, start)
    {
      assert columns[..i + 1] == columns[..i] + [columns[i]];
      NextValue(values, columns[..i], columns[i], supply, start);
      values := values[columns[i] := Val(supply(next))];
      next := next + 1;
    }
    assert columns[..|columns|] == columns;
  }

  lemma NextValue(values: Row, columns: seq<string>, c: string, supply: Surrogates, start: nat)
    requires FreshRow(values, columns, supply, start)
    ensures FreshRow(values[c := Val(supply(start + |columns|))], columns + [c], supply, start)
  {
    var next := start + |columns|;
    assert DrawnFrom(Val(supply(next)), supply, start, next + 1) && Replaced(Val(supply(next)), supply);
    forall d | d in values ensures DrawnFrom(values[d], supply, start, next + 1) {
      DrawnLater(values[d], supply, start, start, next, next + 1);
    }
    forall d | d in values ensures NeverRepeats(supply) ==> values[d] != Val(supply(next)) {
      DrawnApart(values[d], Val(supply(next)), supply, start, next, next + 1);
    }
  }

  lemma DrawnLater(cell: Cell, supply: Surrogates, first: nat, start: nat, next: nat, last: nat)
    requires first <= start && next <= last
    ensures DrawnFrom(cell, supply, start, next) ==> DrawnFrom(cell, supply, first, last)
  {}

  lemma DrawnApart(cell: Cell, cell': Cell, supply: Surrogates, first: nat, start: nat, next: nat)
    requires DrawnFrom(cell, supply, first, start) && DrawnFrom(cell', supply, start, next)
    ensures NeverRepeats(supply) ==> cell != cell'
  {}

  lemma OneMoreDrawn(db: Db, table: string, done: set<nat>, x: nat, columns: seq<string>, values: Row,
                     supply: Surrogates, first: nat, start: nat)
    requires FreshCells(db, table, done, columns, supply, first, start) && first <= start
    requires x in TableOf(db, table) && x !in done && FreshRow(values, columns, supply, start)
    ensures FreshCells(WithValues(db, table, {x}, values), table, done + {x}, columns, supply, first, start + |columns|)
  {
    hide WithValues, TableOf, CellAt, DrawnFrom, CellsApart, CellsUpdated, NeverRepeats;
    UpdatedCells(db, table, done, x, columns, values);
    MoreDrawn(db, WithValues(db, table, {x}, values), table, done, x, columns, values, supply, first, start);
    MoreApart(db, WithValues(db, table, {x}, values), table, done, x, columns, values, supply, first, start);
  }

  lemma UpdatedCells(db: Db, table: string, done: set<nat>, x: nat, columns: seq<string>, values: Row)
    requires x in TableOf(db, table) && x !in done && forall c :: c in values <==> c in columns
    ensures CellsUpdated(db, WithValues(db, table, {x}, values), table, done, x, values)
  {
    var after := WithValues(db, table, {x}, values);
    assert TableOf(after, table)[x] == TableOf(db, table)[x] + values;
  }

  ghost predicate CellsUpdated(db: Db, after: Db, table: string, done: set<nat>, x: nat, values: Row) {
    && (forall c :: c in values ==> CellAt(after, table, x, c) == values[c])
    && (forall r, c :: r in done ==> CellAt(after, table, r, c) == CellAt(db, table, r, c))
  }

  lemma MoreDrawn(db: Db, after: Db, table: string, done: set<nat>, x: nat, columns: seq<string>, values: Row,
                  supply: Surrogates, first: nat, start: nat)
    requires FreshCells(db, table, done, columns, supply, first, start) && first <= start
    requires FreshRow(values, columns, supply, start) && CellsUpdated(db, after, table, done, x, values)
    ensures forall r, c :: r in done + {x} && c in columns ==>
              DrawnFrom(CellAt(after, table, r, c), supply, first, start + |columns|)
  {
    hide CellAt, DrawnFrom, CellsApart;
    forall r, c | r in done + {x} && c in columns
      ensures DrawnFrom(CellAt(after, table, r, c), supply, first, start + |columns|)
    {
      if r == x {
        DrawnLater(values[c], supply, first, start, start + |columns|, start + |columns|);
      } else {
        DrawnLater(CellAt(db, table, r, c), supply, first, first, start, start + |columns|);
      }
    }
  }

  lemma MoreApart(db: Db, after: Db, table: string, done: set<nat>, x: nat, columns: seq<string>, values: Row,
                  supply: Surrogates, first: nat, start: nat)
    requires FreshCells(db, table, done, columns, supply, first, start) && first <= start
    requires FreshRow(values, columns, supply, start) && CellsUpdated(db, after, table, done, x, values)
    ensures NeverRepeats(supply) ==> CellsApart(after, table, done + {x}, columns)
  {
    hide CellAt, DrawnFrom, NeverRepeats;
    if NeverRepeats(supply) {
      forall r, c, d | r in done && c in columns && d in columns ensures CellAt(db, table, r, c) != values[d] {
        DrawnApart(CellAt(db, table, r, c), values[d], supply, first, start, start + |columns|);
      }
    }
  }

  lemma OneMoreAnonymized(schema: Schema, before: Db, current: Db, table: string, key: seq<string>, done: set<nat>,
                          x: nat, columns: seq<string>, values: Row, supply: Surrogates, first: nat, start: nat)
    requires table in schema.primaryKeys && schema.primaryKeys[table] == key
    requires schema.Consistent(current) && first <= start && x in TableOf(before, table) && x !in done
    requires FreshRow(values, columns, supply, start)
    ensures var hit := KeyMatches(current, table, key, Project(TableOf(before, table)[x], key));
            var after, next := WithValues(current, table, hit, values), start + |columns|;
            FreeOfPrimaryKey(schema, table, columns) ==>
              Anonymized(before, current, table, done, columns, supply, first, start) ==>
                Anonymized(before, after, table, done + {x}, columns, supply, first, next)
  {
    if FreeOfPrimaryKey(schema, table, columns)
       && Anonymized(before, current, table, done, columns, supply, first, start) {
      AddressedRowRewritten(schema, before, current, table, key, done, x, columns, values, supply);
      AddressHitsOneRow(schema, before, current, table, key, done, columns, supply, x);
      assert x in TableOf(current, table);
      hide RowsRewritten, FreshCells, WithValues, KeyMatches, FreeOfPrimaryKey, FreshRow;
      OneMoreDrawn(current, table, done, x, columns, values, supply, first, start);
    }
  }

  lemma AddressHitsOneRow(schema: Schema, before: Db, current: Db, table: string, key: seq<string>, done: set<nat>,
                          columns: seq<string>, supply: Surrogates, x: nat)
    requires table in schema.primaryKeys && schema.primaryKeys[table] == key
    requires FreeOfPrimaryKey(schema, table, columns) && schema.Consistent(current)
    requires RowsRewritten(before, current, table, done, columns, supply) && x in TableOf(before, table)
    ensures KeyMatches(current, table, key, Project(TableOf(before, table)[x], key)) == {x}
  {
    var T := TableOf(current, table);
    assert Project(T[x], key) == Project(TableOf(before, table)[x], key);
    assert KeyUnique(current, table, key);
    forall s | s in T ensures s in KeyMatches(current, table, key, Project(T[x], key)) <==> s == x {
      assert SqlEqual(Project(T[s], key), Project(T[x], key)) <==> s == x;
    }
  }

  lemma OneMoreRewritten(before: Db, current: Db, table: string, done: set<nat>, x: nat, columns: seq<string>,
                         values: Row, supply: Surrogates)
    requires RowsRewritten(before, current, table, done, columns, supply)
    requires x in TableOf(before, table) && x !in done
    requires (forall c :: c in values <==> c in columns) && forall c :: c in values ==> Replaced(values[c], supply)
    ensures RowsRewritten(before, WithValues(current, table, {x}, values), table, done + {x}, columns, supply)
  {
    var T := TableOf(before, table);
    var T' := TableOf(WithValues(current, table, {x}, values), table);
    assert T'[x] == T[x] + values;
    forall c | c in columns ensures Replaced(Get(T'[x], c), supply) {
      assert Get(T'[x], c) == values[c];
    }
  }

  lemma AddressedRowRewritten(schema: Schema, before: Db, current: Db, table: string, key: seq<string>, done: set<nat>,
                              x: nat, columns: seq<string>, values: Row, supply: Surrogates)
    requires table in schema.primaryKeys && schema.primaryKeys[table] == key
    requires FreeOfPrimaryKey(schema, table, columns) && schema.Consistent(current)
    requires RowsRewritten(before, current, table, done, columns, supply)
    requires x in TableOf(before, table) && x !in done
    requires (forall c :: c in values <==> c in columns) && forall c :: c in values ==> Replaced(values[c], supply)
    ensures var hit := KeyMatches(current, table, key, Project(TableOf(before, table)[x], key));
            RowsRewritten(before, WithValues(current, table, hit, values), table, done + {x}, columns, supply)
  {
    AddressHitsOneRow(schema, before, current, table, key, done, columns, supply, x);
    OneMoreRewritten(before, current, table, done, x, columns, values, supply);
  }

  /** Same rows, and the same cell in every key column. */
  ghost predicate SameKeys(schema: Schema, before: Db, after: Db) {
    forall t :: SameKeysAt(schema, before, after, t)
  }

  ghost predicate SameKeysAt(schema: Schema, before: Db, after: Db, t: string) {
    && TableOf(after, t).Keys == TableOf(before, t).Keys
    && forall r, c :: r in TableOf(before, t) && KeyColumn(schema, t, c)
         ==> Get(TableOf(after, t)[r], c) == Get(TableOf(before, t)[r], c)
  }

  lemma ValuesKeepKeys(schema: Schema, db: Db, table: string, hit: set<nat>, values: Row)
    requires forall c :: c in values ==> !KeyColumn(schema, table, c)
    ensures SameKeys(schema, db, WithValues(db, table, hit, values))
  {
    forall t ensures SameKeysAt(schema, db, WithValues(db, table, hit, values), t) {}
  }

  lemma SameProjection(row: Row, row': Row, columns: seq<string>)
    requires forall c :: c in columns ==> Get(row, c) == Get(row', c)
    ensures Project(row, columns) == Project(row', columns)
  {}

  lemma SameKeysKeepConsistent(schema: Schema, before: Db, after: Db)
    requires schema.Consistent(before) && SameKeys(schema, before, after)
    ensures schema.Consistent(after)
  {
    forall f | f in schema.foreignKeys ensures KeyHolds(after, f) {
      assert KeyHolds(before, f);
      assert SameKeysAt(schema, before, after, f.child) && SameKeysAt(schema, before, after, f.parent);
      forall r | r in TableOf(after, f.child) ensures References(after, f, TableOf(after, f.child)[r]) {
        KeptReference(schema, before, after, f, r);
      }
    }
    forall t | t in schema.primaryKeys ensures KeyUnique(after, t, schema.primaryKeys[t]) {
      KeptUnique(schema, before, after, t);
    }
  }

  lemma KeptUnique(schema: Schema, before: Db, after: Db, t: string)
    requires t in schema.primaryKeys && SameKeysAt(schema, before, after, t)
    requires KeyUnique(before, t, schema.primaryKeys[t])
    ensures KeyUnique(after, t, schema.primaryKeys[t])
  {
    var key := schema.primaryKeys[t];
    forall r | r in TableOf(after, t)
      ensures Project(TableOf(after, t)[r], key) == Project(TableOf(before, t)[r], key)
    {
      forall c | c in key ensures Get(TableOf(after, t)[r], c) == Get(TableOf(before, t)[r], c) {
        assert KeyColumn(schema, t, c);
      }
      SameProjection(TableOf(after, t)[r], TableOf(before, t)[r], key);
    }
  }

  lemma KeptReference(schema: Schema, before: Db, after: Db, f: ForeignKey, r: nat)
    requires f in schema.foreignKeys && SameKeysAt(schema, before, after, f.child)
    requires SameKeysAt(schema, before, after, f.parent)
    requires r in TableOf(before, f.child) && References(before, f, TableOf(before, f.child)[r])
    ensures References(after, f, TableOf(after, f.child)[r])
  {
    var row, row' := TableOf(before, f.child)[r], TableOf(after, f.child)[r];
    forall c | c in f.childColumns ensures Get(row, c) == Get(row', c) {
      assert KeyColumn(schema, f.child, c);
    }
    SameProjection(row, row', f.childColumns);
    if !exists i :: 0 <= i < |f.childColumns| && Get(row, f.childColumns[i]) == Null {
      var p :| p in TableOf(before, f.parent)
        && SqlEqual(Project(row, f.childColumns), Project(TableOf(before, f.parent)[p], f.parentColumns));
      forall c | c in f.parentColumns
        ensures Get(TableOf(before, f.parent)[p], c) == Get(TableOf(after, f.parent)[p], c)
      {
        assert KeyColumn(schema, f.parent, c);
      }
      SameProjection(TableOf(before, f.parent)[p], TableOf(after, f.parent)[p], f.parentColumns);
      assert p in TableOf(after, f.parent);
    }
  }

  /** Runs one step scoped to one subject. */
  method Execute(session: Session, g: Graph, s: Step, id: Identity.Identifier, supply: Surrogates, start: nat)
    returns (r: StepResult, next: nat)
    requires session.Valid() && Coherent(g)
    modifies session
    ensures session.Valid() && start <= next
    ensures r.BadIdentifier? <==> !Identity.SubjectValues(|g.idColumns|, id).Values?
    ensures !r.BadIdentifier? ==>
              var key := Identity.SubjectValues(|g.idColumns|, id).values;
              var rows := old(SubjectRows(session.db, g, key, s.target));
              && (r.UnknownTarget? <==> !InGraph(g, s.target))
              && (r.Rows? ==> r.rows == |rows|)
              && (r.Rows? && (s.strategy == ANONYMIZE ==> FreeOfPrimaryKey(session.schema, s.target, s.columns)) ==>
                    StepEffect(old(session.db), session.db, s, rows, supply))
              && (r.Rows? && s.strategy == ANONYMIZE && FreeOfPrimaryKey(session.schema, s.target, s.columns) ==>
                    FreshCells(session.db, s.target, rows, s.columns, supply, start, next))
              && (r.NoPrimaryKey?
                  <==> InGraph(g, s.target) && s.strategy == ANONYMIZE && s.target !in session.schema.primaryKeys)
              && (r.IntegrityError? && s.strategy == DELETE ==>
                    !session.schema.Consistent(WithoutRows(old(session.db), s.target, rows)))
              && (r.IntegrityError? && s.strategy == ANONYMIZE ==> !FreeOfKeys(session.schema, s.target, s.columns))
              && (r.IntegrityError? ==> s.strategy != RETAIN)
  {
    next := start;
    var scope := SubjectScope(g, s.target, id);
    if scope.Refused? {
      return BadIdentifier, next;
    }
    if scope.UnknownTable? {
      return UnknownTarget, next;
    }
    if s.strategy == DELETE {
      var ok, n := session.Delete(s.target, scope.where);
      return if ok then Rows(n) else IntegrityError, next;
    }
    if s.strategy == ANONYMIZE {
      r, next := Anonymize(session, s.target, s.columns, scope.where, supply, next);
      return;
    }
    var n := session.Count(s.target, scope.where);
    r := Rows(n);
  }
}

/** The session: a database with keys and foreign keys, changed one statement at a time. */
module Store {
  import opened Scoping

  datatype ForeignKey = ForeignKey(child: string, childColumns: seq<string>, parent: string, parentColumns: seq<string>)

  /** The child row references nothing (some key column NULL) or an existing parent row. */
  predicate References(db: Db, f: ForeignKey, row: Row) {
    || (exists i :: 0 <= i < |f.childColumns| && Get(row, f.childColumns[i]) == Null)
    || exists p :: p in TableOf(db, f.parent)
         && SqlEqual(Project(row, f.childColumns), Project(TableOf(db, f.parent)[p], f.parentColumns))
  }

  predicate KeyHolds(db: Db, f: ForeignKey) {
    forall r :: r in TableOf(db, f.child) ==> References(db, f, TableOf(db, f.child)[r])
  }

  /** A primary key identifies its row. */
  predicate KeyUnique(db: Db, table: string, key: seq<string>) {
    forall r, s :: r in TableOf(db, table) && s in TableOf(db, table)
      ==> (SqlEqual(Project(TableOf(db, table)[r], key), Project(TableOf(db, table)[s], key)) <==> r == s)
  }

  datatype Schema = Schema(primaryKeys: map<string, seq<string>>, foreignKeys: seq<ForeignKey>) {
    predicate Consistent(db: Db) {
      && (forall f :: f in foreignKeys ==> KeyHolds(db, f))
      && (forall t :: t in primaryKeys ==> KeyUnique(db, t, primaryKeys[t]))
    }
  }

  function WithoutRows(db: Db, table: string, gone: set<nat>): Db {
    db[table := TableOf(db, table) - gone]
  }

  /** The table after SET values on the rows in `hit`. */
  function WithValues(db: Db, table: string, hit: set<nat>, values: Row): Db {
    var T := TableOf(db, table);
    db[table := map r | r in T :: if r in hit then T[r] + values else T[r]]
  }

  function KeyMatches(db: Db, table: string, key: seq<string>, cells: seq<Cell>): set<nat> {
    set r | r in TableOf(db, table) && SqlEqual(Project(TableOf(db, table)[r], key), cells)
  }

  /** Statements run in the caller's transaction; one that would leave an unmatched reference or a
      repeated key is refused by the database and changes nothing. */
  class Session {
    const schema: Schema
    var db: Db

    ghost predicate Valid()
      reads this
    {
      schema.Consistent(db)
    }

    constructor (schema: Schema, db: Db)
      requires schema.Consistent(db)
      ensures this.schema == schema && this.db == db && Valid()
    {
      this.schema := schema;
      this.db := db;
    }

    method Count(table: string, where: Scope) returns (n: nat)
      ensures n == |Matching(db, table, where)|
    {
      n := |Matching(db, table, where)|;
    }

    method Delete(table: string, where: Scope) returns (ok: bool, n: nat)
      requires Valid()
      modifies this
      ensures Valid()
      ensures ok <==> schema.Consistent(WithoutRows(old(db), table, old(Matching(db, table, where))))
      ensures ok ==> db == WithoutRows(old(db), table, old(Matching(db, table, where)))
      ensures ok ==> n == |old(Matching(db, table, where))|
      ensures !ok ==> db == old(db)
    {
      var gone := Matching(db, table, where);
      var after := WithoutRows(db, table, gone);
      ok, n := schema.Consistent(after), |gone|;
      if ok {
        db := after;
      }
    }

    method UpdateByKey(table: string, key: seq<string>, cells: seq<Cell>, values: Row) returns (ok: bool)
      requires Valid()
      modifies this
      ensures Valid()
      ensures ok <==> schema.Consistent(WithValues(old(db), table, old(KeyMatches(db, table, key, cells)), values))
      ensures ok ==> db == WithValues(old(db), table, old(KeyMatches(db, table, key, cells)), values)
      ensures !ok ==> db == old(db)
    {
      var after := WithValues(db, table, KeyMatches(db, table, key, cells), values);
      ok := schema.Consistent(after);
      if ok {
        db := after;
      }
    }
  }
}

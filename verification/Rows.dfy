/** Database contents and rows as the SQL layer hands them out. */
module Rows {
  import opened Options

  /** A column value; Params is the bindings map a template sees under "_params". */
  datatype Value =
    | Null
    | Integer(i: int)
    | Float(r: real)
    | Text(s: string)
    | Blob(b: seq<bv8>)
    | Params(m: map<string, string>)

  type Row = map<string, Value>

  datatype Table = Table(rows: seq<Row>)

  /** Table contents by name. */
  type Database = map<string, Table>

  datatype Error = Error(message: string)

  /** The rows a statement delivers, then an optional prepare or step error. */
  datatype Reading = Reading(rows: seq<Row>, failure: Option<Error>)

  /** A write replaces the contents of one table, or removes the table; another process may change anything. */
  datatype Change = Change(table: string, contents: Option<Table>) | Foreign(next: Database)

  function WithChange(db: Database, change: Option<Change>): Database {
    match change
    case None => db
    case Some(Foreign(next)) => next
    case Some(Change(table, contents)) => if contents.Some? then db[table := contents.value] else db - {table}
  }

  /** The database after the first n of some events, of which some are writes; caches have no part in it. */
  function DbAfter<E>(db: Database, changeOf: E -> Option<Change>, events: seq<E>, n: nat): Database
    requires n <= |events|
  {
    if n == 0 then db else WithChange(DbAfter(db, changeOf, events, n - 1), changeOf(events[n - 1]))
  }

  ghost predicate SameTable(a: Database, b: Database, t: string) {
    (t in a <==> t in b) && (t in a ==> a[t] == b[t])
  }

  ghost predicate SameTables(a: Database, b: Database, tables: seq<string>) {
    forall i :: 0 <= i < |tables| ==> SameTable(a, b, tables[i])
  }

  /** The rows of each of these statements depend only on the tables extracted for it. */
  ghost predicate Attributed(attribute: string -> Option<seq<string>>, run: (Database, string) -> Reading, asked: iset<string>) {
    forall a: Database, b: Database, sql: string ::
      sql in asked && attribute(sql).Some? && SameTables(a, b, attribute(sql).value) ==> run(a, sql) == run(b, sql)
  }

  /** The part of a database that some tables make up. */
  function Restricted(db: Database, tables: seq<string>): Database {
    map t | t in db && t in tables :: db[t]
  }

  /** Statements that read only the tables extracted for them meet the assumption. */
  lemma {:induction false} ReadersAreAttributed(attribute: string -> Option<seq<string>>, read: (string, Database) -> Reading,
    run: (Database, string) -> Reading, asked: iset<string>)
    requires forall db: Database, sql: string :: sql in asked && attribute(sql).Some? ==>
               run(db, sql) == read(sql, Restricted(db, attribute(sql).value))
    ensures Attributed(attribute, run, asked)
  {
    forall a: Database, b: Database, sql: string
      | sql in asked && attribute(sql).Some? && SameTables(a, b, attribute(sql).value)
      ensures run(a, sql) == run(b, sql)
    {
      SameRestricted(a, b, attribute(sql).value);
    }
  }

  /** Databases agree on some tables exactly when they have the same part there. */
  lemma {:induction false} SameRestricted(a: Database, b: Database, tables: seq<string>)
    ensures SameTables(a, b, tables) <==> Restricted(a, tables) == Restricted(b, tables)
  {
    if Restricted(a, tables) == Restricted(b, tables) {
      forall i | 0 <= i < |tables| ensures SameTable(a, b, tables[i]) {
        assert tables[i] in a <==> tables[i] in Restricted(a, tables);
        assert tables[i] in b <==> tables[i] in Restricted(b, tables);
      }
    }
    if SameTables(a, b, tables) {
      forall t | t in tables ensures SameTable(a, b, t) {
        var i :| 0 <= i < |tables| && tables[i] == t;
      }
    }
  }
}

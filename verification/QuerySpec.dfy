/**
 Cache-aware queries on values: the row cache as a list of items plus write
 statistics, one query against it, and the direct query it must agree with.
 */
module QuerySpec {
  import opened Options
  import opened LruItems
  import opened Rows
  import opened WriteRate

  /** What a visitor does with one row: its own state afterwards, the row as it leaves it, an optional error. */
  datatype Visit<S> = Visit(state: S, row: Row, err: Option<Error>)

  /** What the caller of QueryEach observes. */
  datatype Outcome<S> = Outcome(n: nat, err: Option<Error>, state: S)

  datatype SqlRows = SqlRows(sql: string, rows: seq<Row>)

  /** Visit rows until one visit fails. */
  function VisitRows<S>(rows: seq<Row>, visit: (S, Row) -> Visit<S>, s: S): Outcome<S> {
    if rows == [] then Outcome(0, None, s)
    else
      var v := visit(s, rows[0]);
      if v.err.Some? then Outcome(0, v.err, v.state)
      else
        var rest := VisitRows(rows[1..], visit, v.state);
        rest.(n := rest.n + 1)
  }

  /** The rows as the visits leave them; rows after a failed visit are untouched. */
  function RowsLeft<S>(rows: seq<Row>, visit: (S, Row) -> Visit<S>, s: S): (left: seq<Row>)
    ensures |left| == |rows|
  {
    if rows == [] then []
    else
      var v := visit(s, rows[0]);
      if v.err.Some? then [v.row] + rows[1..] else [v.row] + RowsLeft(rows[1..], visit, v.state)
  }

  /** queryDirect: every delivered row is visited, then the statement's own error surfaces. */
  function Direct<S>(reading: Reading, visit: (S, Row) -> Visit<S>, s: S): Outcome<S> {
    var o := VisitRows(reading.rows, visit, s);
    if o.err.Some? then o else o.(err := reading.failure)
  }

  /** The visitor's state after k visits. */
  function StateAfter<S>(rows: seq<Row>, visit: (S, Row) -> Visit<S>, s: S, k: nat): S
    requires k <= |rows|
  {
    if k == 0 then s else visit(StateAfter(rows, visit, s, k - 1), rows[k - 1]).state
  }

  lemma {:induction false} StateOfRest<S>(rows: seq<Row>, visit: (S, Row) -> Visit<S>, s: S, k: nat)
    requires 0 < k <= |rows|
    ensures StateAfter(rows, visit, s, k) == StateAfter(rows[1..], visit, visit(s, rows[0]).state, k - 1)
  {
    if k > 1 {
      StateOfRest(rows, visit, s, k - 1);
      assert rows[1..][k - 2] == rows[k - 1];
    }
  }

  /**
   What visiting does: row after row in order, each once, up to the first
   visit that fails; that one's error and state are the outcome and it is not
   counted; every row visited is left as its visit leaves it.
   */
  lemma {:induction false} VisitsAre<S>(rows: seq<Row>, visit: (S, Row) -> Visit<S>, s: S)
    ensures var o := VisitRows(rows, visit, s);
            && o.n <= |rows|
            && (forall i :: 0 <= i < o.n ==> visit(StateAfter(rows, visit, s, i), rows[i]).err.None?)
            && (o.n == |rows| ==> o.err == None && o.state == StateAfter(rows, visit, s, |rows|))
            && (o.n < |rows| ==>
                  var v := visit(StateAfter(rows, visit, s, o.n), rows[o.n]);
                  v.err.Some? && o.err == v.err && o.state == v.state)
    ensures var o, left := VisitRows(rows, visit, s), RowsLeft(rows, visit, s);
            forall i :: 0 <= i < |rows| ==>
              left[i] == if i <= o.n then visit(StateAfter(rows, visit, s, i), rows[i]).row else rows[i]
  {
    if rows != [] {
      var v := visit(s, rows[0]);
      if v.err.None? {
        var rest := rows[1..];
        VisitsAre(rest, visit, v.state);
        forall k | 0 < k <= |rows| ensures StateAfter(rows, visit, s, k) == StateAfter(rest, visit, v.state, k - 1) {
          StateOfRest(rows, visit, s, k);
        }
        assert forall i :: 0 < i < |rows| ==> rows[i] == rest[i - 1];
      }
    }
  }

  /** A failed visit's error comes before the statement's own, which comes when all rows were visited. */
  lemma {:induction false} DirectIs<S>(reading: Reading, visit: (S, Row) -> Visit<S>, s: S)
    ensures var o, d := VisitRows(reading.rows, visit, s), Direct(reading, visit, s);
            && d.n == o.n && d.state == o.state
            && (d.n < |reading.rows| ==> d.err == o.err && d.err.Some?)
            && (d.n == |reading.rows| ==> d.err == reading.failure)
  {
    VisitsAre(reading.rows, visit, s);
  }

  /** The row cache: its items in recency order and the write statistics. */
  datatype CacheState = CacheState(items: seq<Item<nat, SqlRows>>, stats: map<string, Stats>)

  /** Fixed parameters: caps, bypass limits, the SQL hash, the row sizer, and table extraction. */
  datatype Setup = Setup(
    maxEntries: nat,
    maxBytes: nat,
    limits: Limits,
    hash: string -> nat,
    size: (string, seq<Row>) -> nat,
    attribute: string -> Option<seq<string>>)

  /** The position a key has in the list, if any. */
  ghost function Find<K, V>(items: seq<Item<K, V>>, key: K): Option<nat> {
    if exists i: nat :: i < |items| && items[i].key == key
    then var i: nat :| i < |items| && items[i].key == key; Some(i)
    else None
  }

  /** A hit needs no bypassed table, the hashed key present, and the very same SQL text under it. */
  ghost function Hit(c: Setup, st: CacheState, sql: string, tables: seq<string>, now: nat): Option<nat> {
    var at := Find(st.items, c.hash(sql));
    if AnyBypassed(st.stats, tables, now) then None
    else if at.Some? && st.items[at.value].val.sql == sql then at
    else None
  }

  /** A hit at position i, with the rows as the visitor left them. */
  ghost function AfterHit(st: CacheState, i: nat, left: seq<Row>): CacheState
    requires i < |st.items|
  {
    var item := st.items[i];
    st.(items := Promote(st.items, i)[0 := item.(val := item.val.(rows := left))])
  }

  ghost function AfterPut(c: Setup, st: CacheState, sql: string, tables: seq<string>, rows: seq<Row>, now: nat): CacheState {
    if AnyBypassed(st.stats, tables, now) then st
    else
      var item := Item(c.hash(sql), SqlRows(sql, rows), tables, c.size(sql, rows));
      st.(items := Trim([item] + DropKeys(st.items, {item.key}), c.maxEntries, c.maxBytes))
  }

  ghost function AfterInvalidate(c: Setup, st: CacheState, table: string, now: nat): CacheState {
    CacheState(DropReaders(st.items, table), AfterWrite(st.stats, table, now, c.limits))
  }

  ghost function AfterFlush(st: CacheState): CacheState {
    st.(items := [])
  }

  /** One QueryEach: what the caller sees and what the cache becomes. The clock is read at lookup and at store. */
  ghost function QueryStep<S>(c: Setup, st: CacheState, reading: Reading, sql: string,
    visit: (S, Row) -> Visit<S>, s: S, now: nat, later: nat): (Outcome<S>, CacheState)
  {
    match c.attribute(sql)
    case None => (Direct(reading, visit, s), st)
    case Some(tables) =>
      match Hit(c, st, sql, tables, now)
      case Some(i) =>
        var rows := st.items[i].val.rows;
        (VisitRows(rows, visit, s), AfterHit(st, i, RowsLeft(rows, visit, s)))
      case None =>
        var o := Direct(reading, visit, s);
        (o, if o.err.Some? then st else AfterPut(c, st, sql, tables, RowsLeft(reading.rows, visit, s), later))
  }

  /** What is not stored: the answers of failed queries and of statements that cannot be attributed. */
  lemma {:induction false} NotStored<S>(c: Setup, st: CacheState, reading: Reading, sql: string, visit: (S, Row) -> Visit<S>, s: S, now: nat, later: nat)
    requires c.attribute(sql).None?
             || (Hit(c, st, sql, c.attribute(sql).value, now).None? && Direct(reading, visit, s).err.Some?)
    ensures QueryStep(c, st, reading, sql, visit, s, now, later) == (Direct(reading, visit, s), st)
  {
    hide Hit;
  }

  /** A hit does not look at the database. */
  lemma {:induction false} HitIgnoresDatabase<S>(c: Setup, st: CacheState, a: Reading, b: Reading, sql: string, visit: (S, Row) -> Visit<S>, s: S, now: nat, later: nat)
    requires c.attribute(sql).Some? && Hit(c, st, sql, c.attribute(sql).value, now).Some?
    ensures QueryStep(c, st, a, sql, visit, s, now, later) == QueryStep(c, st, b, sql, visit, s, now, later)
  {
  }

  /** After a query answered without error an entry that fits is there for the next one, whatever was in the cache. */
  lemma {:induction false} StoredThenHit<S>(c: Setup, st: CacheState, reading: Reading, sql: string, visit: (S, Row) -> Visit<S>, s: S, now: nat, later: nat)
    requires c.attribute(sql).Some? && Hit(c, st, sql, c.attribute(sql).value, now).None? && Direct(reading, visit, s).err.None?
    requires !AnyBypassed(st.stats, c.attribute(sql).value, later)
    requires c.maxEntries >= 1 && c.size(sql, RowsLeft(reading.rows, visit, s)) <= c.maxBytes
    ensures var st' := QueryStep(c, st, reading, sql, visit, s, now, later).1;
            Hit(c, st', sql, c.attribute(sql).value, later) == Some(0)
            && st'.items[0].val == SqlRows(sql, RowsLeft(reading.rows, visit, s))
  {
    hide Direct, AnyBypassed, Trim, DropKeys;
    var tables, rows := c.attribute(sql).value, RowsLeft(reading.rows, visit, s);
    var item := Item(c.hash(sql), SqlRows(sql, rows), tables, c.size(sql, rows));
    NewestStays(item, st.items, c.maxEntries, c.maxBytes);
  }

  /** An entry that fits stands in front after its store, alone under its key. */
  lemma {:induction false} NewestStays<K, V>(item: Item<K, V>, items: seq<Item<K, V>>, maxEntries: nat, maxBytes: nat)
    requires maxEntries >= 1 && item.bytes <= maxBytes
    ensures var all := Trim([item] + DropKeys(items, {item.key}), maxEntries, maxBytes);
            all != [] && all[0] == item && Find(all, item.key) == Some(0)
  {
    hide Trim, DropKeys;
    var rest := DropKeys(items, {item.key});
    var all := [item] + rest;
    TrimIsLongestFit(all, maxEntries, maxBytes);
    var none: seq<Item<K, V>> := [];
    assert all[..1] == [item] && [item][1..] == none && TotalBytes([item]) == item.bytes;
    assert Fits(all[..1], maxEntries, maxBytes);
    forall i | 0 <= i < |rest| ensures rest[i].key != item.key {
      DropKeysKeeps(items, {item.key}, rest[i]);
    }
    assert forall i :: 0 < i < |all| ==> all[i] == rest[i - 1];
  }

  /* ---- transparency ---- */

  /** A row without the column name under which templates see URL bindings. */
  predicate Plain(row: Row) {
    "_params" !in row
  }

  ghost predicate AllPlain(rows: seq<Row>) {
    forall i :: 0 <= i < |rows| ==> Plain(rows[i])
  }

  /** Visiting these rows leaves every one of them as it was. */
  predicate Undisturbed<S(==)>(rows: seq<Row>, visit: (S, Row) -> Visit<S>, s: S) {
    RowsLeft(rows, visit, s) == rows
  }

  /** The visitor hands back each of these rows as it received it. */
  ghost predicate Leaves<S(!new)>(visit: (S, Row) -> Visit<S>, rows: seq<Row>) {
    forall s: S, i :: 0 <= i < |rows| ==> visit(s, rows[i]).row == rows[i]
  }

  lemma {:induction false} LeavesUndisturbed<S(!new)>(rows: seq<Row>, visit: (S, Row) -> Visit<S>, s: S)
    requires Leaves(visit, rows)
    ensures Undisturbed(rows, visit, s)
  {
    if rows != [] {
      var v := visit(s, rows[0]);
      assert forall i :: 0 <= i < |rows[1..]| ==> rows[1..][i] == rows[i + 1];
      LeavesUndisturbed(rows[1..], visit, v.state);
      assert rows == [rows[0]] + rows[1..];
    }
  }

  /** An entry that a direct query would answer the same way now; its statement is one of those asked. */
  ghost predicate Fresh(c: Setup, run: (Database, string) -> Reading, asked: iset<string>, db: Database, item: Item<nat, SqlRows>) {
    && item.val.sql in asked
    && c.attribute(item.val.sql) == Some(item.tables)
    && run(db, item.val.sql) == Reading(item.val.rows, None)
  }

  ghost predicate Coherent(c: Setup, run: (Database, string) -> Reading, asked: iset<string>, db: Database, items: seq<Item<nat, SqlRows>>) {
    forall i :: 0 <= i < |items| ==> Fresh(c, run, asked, db, items[i])
  }

  /** A query through the cache that leaves its rows alone answers like a direct one on the current database, and keeps the cache coherent. */
  lemma {:induction false} QueryTransparent<S>(c: Setup, run: (Database, string) -> Reading, asked: iset<string>, db: Database,
    st: CacheState, sql: string, visit: (S, Row) -> Visit<S>, s: S, now: nat, later: nat)
    requires Coherent(c, run, asked, db, st.items) && sql in asked
    requires Undisturbed(run(db, sql).rows, visit, s)
    ensures var (o, st') := QueryStep(c, st, run(db, sql), sql, visit, s, now, later);
            o == Direct(run(db, sql), visit, s) && Coherent(c, run, asked, db, st'.items) && st'.stats == st.stats
  {
    var reading := run(db, sql);
    if c.attribute(sql).Some? {
      var tables := c.attribute(sql).value;
      var hit := Hit(c, st, sql, tables, now);
      if hit.Some? {
        var item := st.items[hit.value];
        assert Fresh(c, run, asked, db, item);
        PromoteMembers(st.items, hit.value);
      } else if Direct(reading, visit, s).err.None? && !AnyBypassed(st.stats, tables, later) {
        PutCoherent(c, run, asked, db, st.items, sql, tables, reading.rows);
      }
    }
  }

  lemma {:induction false} PromoteMembers<T>(s: seq<T>, k: nat)
    requires k < |s|
    ensures |Promote(s, k)| == |s| && Promote(s, k)[0] == s[k]
    ensures forall i :: 0 <= i < |s| ==> Promote(s, k)[i] in s
  {
  }

  lemma {:induction false} PutCoherent(c: Setup, run: (Database, string) -> Reading, asked: iset<string>, db: Database,
    items: seq<Item<nat, SqlRows>>, sql: string, tables: seq<string>, rows: seq<Row>)
    requires Coherent(c, run, asked, db, items)
    requires sql in asked && c.attribute(sql) == Some(tables) && run(db, sql) == Reading(rows, None)
    ensures var item := Item(c.hash(sql), SqlRows(sql, rows), tables, c.size(sql, rows));
            Coherent(c, run, asked, db, Trim([item] + DropKeys(items, {item.key}), c.maxEntries, c.maxBytes))
  {
    var item := Item(c.hash(sql), SqlRows(sql, rows), tables, c.size(sql, rows));
    var kept := DropKeys(items, {item.key});
    forall i | 0 <= i < |kept| ensures kept[i] in items {
      DropKeysKeeps(items, {item.key}, kept[i]);
    }
    var all := [item] + kept;
    assert Coherent(c, run, asked, db, all);
    TrimIsLongestFit(all, c.maxEntries, c.maxBytes);
  }

  /** After a write and its invalidation every surviving entry is fresh for the new database. */
  lemma {:induction false} WriteKeepsCoherent(c: Setup, run: (Database, string) -> Reading, asked: iset<string>, db: Database, db': Database,
    st: CacheState, table: string, now: nat)
    requires Attributed(c.attribute, run, asked) && Coherent(c, run, asked, db, st.items)
    requires forall t :: t != table ==> SameTable(db, db', t)
    ensures Coherent(c, run, asked, db', AfterInvalidate(c, st, table, now).items)
  {
    var kept := DropReaders(st.items, table);
    forall i | 0 <= i < |kept| ensures Fresh(c, run, asked, db', kept[i]) {
      DropReadersKeeps(st.items, table, kept[i]);
      assert Fresh(c, run, asked, db, kept[i]);
      assert SameTables(db, db', kept[i].tables);
    }
  }
}

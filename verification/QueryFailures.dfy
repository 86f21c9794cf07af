/**
 Where the assumptions of the row cache's transparency are needed: exactly when
 a stored answer is wrong for the next query.
 */
module QueryFailures {
  import opened LruItems
  import opened Options
  import opened Rows
  import opened WriteRate
  import opened QuerySpec
  import opened QueryRuns

  /** A visitor that notes the rows it is handed and leaves them alone. */
  function Recorder(): (seq<Row>, Row) -> Visit<seq<Row>> {
    (seen: seq<Row>, row: Row) => Visit(seen + [row], row, None)
  }

  lemma {:induction false} RecorderSees(rows: seq<Row>, seen: seq<Row>)
    ensures VisitRows(rows, Recorder(), seen) == Outcome(|rows|, None, seen + rows)
  {
    if rows == [] {
      assert seen + rows == seen;
    } else {
      RecorderSees(rows[1..], seen + [rows[0]]);
      assert (seen + [rows[0]]) + rows[1..] == seen + rows;
    }
  }

  lemma {:induction false} RecorderLeaves(rows: seq<Row>, seen: seq<Row>)
    ensures RowsLeft(rows, Recorder(), seen) == rows
  {
    assert Leaves(Recorder(), rows);
    LeavesUndisturbed(rows, Recorder(), seen);
  }

  /** A statement whose answer an empty cache stores. */
  ghost predicate Storable(c: Setup, sql: string, rows: seq<Row>) {
    c.attribute(sql).Some? && c.maxEntries >= 1 && c.size(sql, rows) <= c.maxBytes
  }

  ghost function OnlyItem(c: Setup, sql: string, rows: seq<Row>): Item<nat, SqlRows>
    requires Storable(c, sql, rows)
  {
    Item(c.hash(sql), SqlRows(sql, rows), c.attribute(sql).value, c.size(sql, rows))
  }

  lemma {:induction false} FirstStores<S>(c: Setup, reading: Reading, sql: string, visit: (S, Row) -> Visit<S>, s: S, now: nat, later: nat)
    requires Direct(reading, visit, s).err.None? && Storable(c, sql, RowsLeft(reading.rows, visit, s))
    ensures QueryStep(c, CacheState([], map[]), reading, sql, visit, s, now, later).1 ==
            CacheState([OnlyItem(c, sql, RowsLeft(reading.rows, visit, s))], map[])
  {
    var item := OnlyItem(c, sql, RowsLeft(reading.rows, visit, s));
    var none: seq<Item<nat, SqlRows>> := [];
    assert [item][1..] == none && TotalBytes([item]) == item.bytes;
    assert Trim([item] + DropKeys(none, {item.key}), c.maxEntries, c.maxBytes) == [item];
  }

  lemma {:induction false} NextHits<S>(c: Setup, stats: map<string, Stats>, rows: seq<Row>, reading: Reading, sql: string,
    visit: (S, Row) -> Visit<S>, s: S, now: nat, later: nat)
    requires Storable(c, sql, rows) && !AnyBypassed(stats, c.attribute(sql).value, now)
    ensures QueryStep(c, CacheState([OnlyItem(c, sql, rows)], stats), reading, sql, visit, s, now, later).0 == VisitRows(rows, visit, s)
  {
    var items := [OnlyItem(c, sql, rows)];
    assert items[0].key == c.hash(sql);
  }

  /**
   A visitor that disturbs the rows it leaves in the cache: the next query for
   the same statement is answered as a direct one exactly when it did not.
   */
  lemma {:induction false} DisturbedIff<S>(c: Setup, reading: Reading, sql: string, visit: (S, Row) -> Visit<S>, s: S, now: nat, later: nat, next: nat)
    requires Direct(reading, visit, s).err.None? && Storable(c, sql, RowsLeft(reading.rows, visit, s))
    ensures var st := QueryStep(c, CacheState([], map[]), reading, sql, visit, s, now, later).1;
            QueryStep(c, st, reading, sql, Recorder(), [], next, next).0 == Direct(reading, Recorder(), []) <==>
              Undisturbed(reading.rows, visit, s)
  {
    var left := RowsLeft(reading.rows, visit, s);
    FirstStores(c, reading, sql, visit, s, now, later);
    NextHits(c, map[], left, reading, sql, Recorder(), [], next, next);
    RecorderSees(left, []);
    RecorderSees(reading.rows, []);
    assert [] + left == left && [] + reading.rows == reading.rows;
  }

  /** Ask a statement, write a table, ask again. */
  function AskWriteAsk(sql: string, table: string, contents: Option<Table>, t0: nat, t1: nat, t2: nat): seq<Step<seq<Row>>> {
    [Query(sql, Recorder(), [], t0, t0), Write(table, contents, t1), Query(sql, Recorder(), [], t2, t2)]
  }

  /**
   A write to a table that is not among those extracted for a cached statement:
   the statement is answered rightly afterwards exactly when the write left its
   rows unchanged.
   */
  lemma {:induction false} StaleIff(c: Setup, run: (Database, string) -> Reading, db: Database, sql: string,
    table: string, contents: Option<Table>, t0: nat, t1: nat, t2: nat)
    requires run(db, sql).failure.None? && Storable(c, sql, run(db, sql).rows) && table !in c.attribute(sql).value
    ensures var steps := AskWriteAsk(sql, table, contents, t0, t1, t2);
            AnswerAt(c, run, db, steps, 2) == Direct(run(DbAfter(db, ChangeOf, steps, 2), sql), Recorder(), []) <==>
              run(DbAfter(db, ChangeOf, steps, 2), sql) == run(db, sql)
  {
    var steps := AskWriteAsk(sql, table, contents, t0, t1, t2);
    var rows := run(db, sql).rows;
    RecorderSees(rows, []);
    RecorderLeaves(rows, []);
    FirstStores(c, run(db, sql), sql, Recorder(), [], t0, t0);
    OneQuery(c, run, db, steps);
    var item := OnlyItem(c, sql, rows);
    var none: seq<Item<nat, SqlRows>> := [];
    assert [item][1..] == none && DropReaders([item], table) == [item];
    var stats := AfterWrite(map[], table, t1, c.limits);
    assert CacheAfter(c, run, db, steps, 2) == CacheState([item], stats);
    NextHits(c, stats, rows, run(DbAfter(db, ChangeOf, steps, 2), sql), sql, Recorder(), [], t2, t2);
    RecorderSees(run(DbAfter(db, ChangeOf, steps, 2), sql).rows, []);
    assert [] + rows == rows && [] + run(DbAfter(db, ChangeOf, steps, 2), sql).rows == run(DbAfter(db, ChangeOf, steps, 2), sql).rows;
  }

  lemma {:induction false} OneQuery<S>(c: Setup, run: (Database, string) -> Reading, db: Database, steps: seq<Step<S>>)
    requires |steps| > 0 && steps[0].Query?
    ensures var q := steps[0];
            CacheAfter(c, run, db, steps, 1) ==
            QueryStep(c, CacheState([], map[]), run(db, q.sql), q.sql, q.visit, q.init, q.now, q.later).1
  {
    hide QueryStep;
    assert CacheAfter(c, run, db, steps, 0) == CacheState([], map[]) && DbAfter(db, ChangeOf, steps, 0) == db;
  }

  /** Ask a statement, let another process write, ask again, with no flush between. */
  function AskForeignAsk(sql: string, changed: Database, t0: nat, t1: nat, t2: nat): seq<Step<seq<Row>>> {
    [Query(sql, Recorder(), [], t0, t0), ForeignWrite(changed, t1), Query(sql, Recorder(), [], t2, t2)]
  }

  /**
   Until the watcher flushes, what another process wrote is not seen: a cached
   statement is answered rightly exactly when its rows did not change.
   */
  lemma {:induction false} UnsettledIff(c: Setup, run: (Database, string) -> Reading, db: Database, sql: string,
    changed: Database, t0: nat, t1: nat, t2: nat)
    requires run(db, sql).failure.None? && Storable(c, sql, run(db, sql).rows)
    ensures AnswerAt(c, run, db, AskForeignAsk(sql, changed, t0, t1, t2), 2) == Direct(run(changed, sql), Recorder(), []) <==>
              run(changed, sql) == run(db, sql)
  {
    hide CacheStep, QueryStep;
    var steps := AskForeignAsk(sql, changed, t0, t1, t2);
    var rows := run(db, sql).rows;
    RecorderSees(rows, []);
    RecorderLeaves(rows, []);
    FirstStores(c, run(db, sql), sql, Recorder(), [], t0, t0);
    OneQuery(c, run, db, steps);
    NothingNoticed(c, run, db, steps);
    NextHits(c, map[], rows, run(changed, sql), sql, Recorder(), [], t2, t2);
    RecorderSees(run(changed, sql).rows, []);
    assert [] + rows == rows && [] + run(changed, sql).rows == run(changed, sql).rows;
  }

  lemma {:induction false} NothingNoticed<S>(c: Setup, run: (Database, string) -> Reading, db: Database, steps: seq<Step<S>>)
    requires |steps| > 1 && steps[1].ForeignWrite?
    ensures CacheAfter(c, run, db, steps, 2) == CacheAfter(c, run, db, steps, 1) && DbAfter(db, ChangeOf, steps, 2) == steps[1].changed
  {
    hide QueryStep;
  }
}

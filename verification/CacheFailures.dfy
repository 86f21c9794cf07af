/**
 Runs that break the transparency of the row cache when one of its assumptions
 does not hold.
 */
module CacheFailures {
  import opened Options
  import opened PageSpec
  import opened PageSplice
  import opened QueryFailures
  import opened QueryRuns
  import opened QuerySpec
  import opened Rows
  import opened SqlTables
  import opened SqlWords
  import Routes = RoutePatterns

  /**
   A column called "_params", rendered once with bindings: the cached row has
   lost it, and the next query for the statement is answered without it.
   */
  lemma {:induction false} RenderedRowLosesColumn(c: Setup, render: (HttpBytes.bytes, Row) -> Rendering, template: HttpBytes.bytes,
    sql: string, value: Value, now: nat, next: nat)
    requires forall row :: render(template, row).err.None?
    requires Storable(c, sql, [map[]])
    ensures var v := Visitor(render, template, [Routes.Param("id", "1")]);
            var reading := Reading([map["_params" := value]], None);
            var st := QueryStep(c, CacheState([], map[]), reading, sql, v, [], now, now).1;
            && QueryStep(c, st, reading, sql, Recorder(), [], next, next).0.state == [map[]]
            && Direct(reading, Recorder(), []).state == [map["_params" := value]]
            && QueryStep(c, st, reading, sql, Recorder(), [], next, next).0 != Direct(reading, Recorder(), [])
  {
    hide QueryStep;
    var v := Visitor(render, template, [Routes.Param("id", "1")]);
    var row: Row := map["_params" := value];
    var reading := Reading([row], None);
    assert v([], row).row == row - {"_params"} == map[];
    var none: seq<Row> := [];
    assert [row][1..] == none;
    assert render(template, Context([Routes.Param("id", "1")], row)).err.None?;
    assert RowsLeft([row], v, []) == [map[]] && VisitRows([row], v, []).err.None?;
    var st := QueryStep(c, CacheState([], map[]), reading, sql, v, [], now, now).1;
    FirstStores(c, reading, sql, v, [], now, now);
    NextHits(c, map[], [map[]], reading, sql, Recorder(), [], next, next);
    RecorderSees([map[]], []);
    RecorderSees([row], []);
    assert none + [map[]] == [map[]] && none + [row] == [row];
    assert "_params" in row && [map[]][0] != [row][0];
  }

  /** What SQLite delivers for one column of the table news, however its name is spelled in the statement. */
  function NewsRows(db: Database, sql: string): Reading {
    Reading(if "news" in db then db["news"].rows else [], None)
  }

  /** A statement over news that is attributed to another name stays cached through a write to news. */
  lemma {:induction false} OtherNameIsStale(c: Setup, sql: string, name: string, rows: seq<Row>, t0: nat, t1: nat, t2: nat)
    requires c.attribute(sql) == Some([name]) && name != "news" && Storable(c, sql, []) && rows != []
    ensures var db: Database := map["news" := Table([])];
            var steps := AskWriteAsk(sql, "news", Some(Table(rows)), t0, t1, t2);
            AnswerAt(c, NewsRows, db, steps, 2) != Direct(NewsRows(DbAfter(db, ChangeOf, steps, 2), sql), Recorder(), [])
  {
    hide QueryStep;
    var db: Database := map["news" := Table([])];
    var steps := AskWriteAsk(sql, "news", Some(Table(rows)), t0, t1, t2);
    assert DbAfter(db, ChangeOf, steps, 0) == db;
    assert DbAfter(db, ChangeOf, steps, 1) == db;
    assert DbAfter(db, ChangeOf, steps, 2) == db["news" := Table(rows)];
    StaleIff(c, NewsRows, db, sql, "news", Some(Table(rows)), t0, t1, t2);
  }

  /** The table spelled in another case than its schema does: names are compared as written. */
  lemma {:induction false} OtherCaseIsStale(c: Setup, rows: seq<Row>, t0: nat, t1: nat, t2: nat)
    requires (forall sql :: c.attribute(sql) == Tables(sql)) && c.maxEntries >= 1
    requires c.size("select a from News", []) <= c.maxBytes && rows != []
    ensures var db: Database := map["news" := Table([])];
            var steps := AskWriteAsk("select a from News", "news", Some(Table(rows)), t0, t1, t2);
            AnswerAt(c, NewsRows, db, steps, 2) != Direct(NewsRows(DbAfter(db, ChangeOf, steps, 2), "select a from News"), Recorder(), [])
  {
    hide Tables, AnswerAt, DbAfter, Direct;
    NamesNews();
    assert "News"[0] != "news"[0];
    OtherNameIsStale(c, "select a from News", "News", rows, t0, t1, t2);
  }

  lemma {:induction false} NamesNews()
    ensures Tables("select a from News") == Some(["News"])
  {
    hide Tables;
    PlainlyTables("a", "News", "", "");
    assert "select " + "a" + " from " + "News" + "" + "" == "select a from News";
  }

  lemma {:induction false} NewsIsNoKeyword()
    ensures !IsKeyword("news")
  {
    assert ToLower("news")[0] == 'n';
  }

  lemma {:induction false} NamesMain()
    ensures Tables("select a from main.news") == Some(["main"])
  {
    hide Tables, ToLower;
    NewsIsNoKeyword();
    SchemaNotStripped("a", "main", "news");
    assert "select " + "a" + " from " + "main" + "." + "news" == "select a from main.news";
  }

  /** The table named with its schema. */
  lemma {:induction false} QualifiedIsStale(c: Setup, rows: seq<Row>, t0: nat, t1: nat, t2: nat)
    requires (forall sql :: c.attribute(sql) == Tables(sql)) && c.maxEntries >= 1
    requires c.size("select a from main.news", []) <= c.maxBytes && rows != []
    ensures var db: Database := map["news" := Table([])];
            var steps := AskWriteAsk("select a from main.news", "news", Some(Table(rows)), t0, t1, t2);
            AnswerAt(c, NewsRows, db, steps, 2) != Direct(NewsRows(DbAfter(db, ChangeOf, steps, 2), "select a from main.news"), Recorder(), [])
  {
    hide Tables, AnswerAt, DbAfter, Direct;
    NamesMain();
    assert "main"[0] != "news"[0];
    OtherNameIsStale(c, "select a from main.news", "main", rows, t0, t1, t2);
  }
}

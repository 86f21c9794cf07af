/**
 Whole runs of the SQL row cache: atomic queries, hooked writes and flushes in
 any order, starting from an empty cache.
 */
module QueryRuns {
  import opened Options
  import opened LruItems
  import opened Rows
  import opened WriteRate
  import opened QuerySpec
  import opened Sequences

  /**
   A hooked write replaces or removes one table's contents and fires
   invalidateTable. What another process changes is noticed only by the watcher,
   which then flushes.
   */
  datatype Step<!S> =
    | Query(sql: string, visit: (S, Row) -> Visit<S>, init: S, now: nat, later: nat)
    | Write(table: string, contents: Option<Table>, now: nat)
    | ForeignWrite(changed: Database, now: nat)
    | Flush(now: nat)

  function StepTime<S>(step: Step<S>): nat {
    if step.Query? then step.later else step.now
  }

  /** Clock readings never go back along a run. */
  ghost predicate Clocked<S>(steps: seq<Step<S>>) {
    && (forall i :: 0 <= i < |steps| && steps[i].Query? ==> steps[i].now <= steps[i].later)
    && (forall i, j :: 0 <= i < j < |steps| ==> StepTime(steps[i]) <= steps[j].now)
  }

  /** What a step does to the database. */
  function ChangeOf<S>(step: Step<S>): Option<Change> {
    match step
    case Write(table, contents, _) => Some(Change(table, contents))
    case ForeignWrite(next, _) => Some(Foreign(next))
    case _ => None
  }

  /** Every foreign write among the first n steps was followed by a flush. */
  predicate Settled<S>(steps: seq<Step<S>>, n: nat)
    requires n <= |steps|
  {
    n == 0 || steps[n - 1].Flush? || (!steps[n - 1].ForeignWrite? && Settled(steps, n - 1))
  }

  ghost function CacheStep<S>(c: Setup, run: (Database, string) -> Reading, db: Database, st: CacheState, step: Step<S>): CacheState {
    match step
    case Query(sql, visit, init, now, later) => QueryStep(c, st, run(db, sql), sql, visit, init, now, later).1
    case Write(table, _, now) => AfterInvalidate(c, st, table, now)
    case ForeignWrite(_, _) => st
    case Flush(_) => AfterFlush(st)
  }

  ghost function CacheAfter<S>(c: Setup, run: (Database, string) -> Reading, db: Database, steps: seq<Step<S>>, n: nat): CacheState
    requires n <= |steps|
  {
    if n == 0 then CacheState([], map[])
    else CacheStep(c, run, DbAfter(db, ChangeOf, steps, n - 1), CacheAfter(c, run, db, steps, n - 1), steps[n - 1])
  }

  /** What the caller of query k sees when served through the cache. */
  ghost function AnswerAt<S>(c: Setup, run: (Database, string) -> Reading, db: Database, steps: seq<Step<S>>, k: nat): Outcome<S>
    requires k < |steps| && steps[k].Query?
  {
    var q := steps[k];
    QueryStep(c, CacheAfter(c, run, db, steps, k), run(DbAfter(db, ChangeOf, steps, k), q.sql), q.sql, q.visit, q.init, q.now, q.later).0
  }

  /** The statements a run asks. */
  ghost function Statements<S>(steps: seq<Step<S>>): iset<string> {
    iset k | 0 <= k < |steps| && steps[k].Query? :: steps[k].sql
  }

  /** Each query leaves the rows that the database of its moment delivers as they are. */
  ghost predicate Undisturbing<S>(run: (Database, string) -> Reading, db: Database, steps: seq<Step<S>>) {
    forall k :: 0 <= k < |steps| && steps[k].Query? ==>
      Undisturbed(run(DbAfter(db, ChangeOf, steps, k), steps[k].sql).rows, steps[k].visit, steps[k].init)
  }

  lemma {:induction false} CacheStaysCoherent<S>(c: Setup, run: (Database, string) -> Reading, db: Database, steps: seq<Step<S>>, n: nat)
    requires n <= |steps| && Attributed(c.attribute, run, Statements(steps)) && Undisturbing(run, db, steps)
    requires Settled(steps, n)
    ensures Coherent(c, run, Statements(steps), DbAfter(db, ChangeOf, steps, n), CacheAfter(c, run, db, steps, n).items)
  {
    hide Coherent, Attributed, Undisturbed, QueryStep, AfterInvalidate;
    var asked := Statements(steps);
    if n == 0 {
      EmptyCoherent(c, run, asked, db);
    } else if steps[n - 1].Flush? {
      EmptyCoherent(c, run, asked, DbAfter(db, ChangeOf, steps, n - 1));
    } else {
      CacheStaysCoherent(c, run, db, steps, n - 1);
      var before, st := DbAfter(db, ChangeOf, steps, n - 1), CacheAfter(c, run, db, steps, n - 1);
      match steps[n - 1] {
        case Query(sql, visit, init, now, later) =>
          assert steps[n - 1].sql in asked;
          QueryTransparent(c, run, asked, before, st, sql, visit, init, now, later);
        case Write(table, contents, now) =>
          WriteKeepsCoherent(c, run, asked, before, WithChange(before, ChangeOf(steps[n - 1])), st, table, now);
        case _ =>
      }
    }
  }

  lemma {:induction false} EmptyCoherent(c: Setup, run: (Database, string) -> Reading, asked: iset<string>, db: Database)
    ensures Coherent(c, run, asked, db, [])
  {
  }

  /**
   Over every run, each query visits the same rows and returns the same count
   and error as a direct query on the database of that moment, whatever the
   caps, the hash and the bypass do, unless another process wrote and the
   watcher has not flushed since.
   */
  lemma {:induction false} CacheIsInvisible<S>(c: Setup, run: (Database, string) -> Reading, db: Database, steps: seq<Step<S>>, k: nat)
    requires k < |steps| && steps[k].Query? && Settled(steps, k)
    requires Attributed(c.attribute, run, Statements(steps)) && Undisturbing(run, db, steps)
    ensures AnswerAt(c, run, db, steps, k) == Direct(run(DbAfter(db, ChangeOf, steps, k), steps[k].sql), steps[k].visit, steps[k].init)
  {
    hide Coherent, QueryStep, Undisturbed;
    CacheStaysCoherent(c, run, db, steps, k);
    var q := steps[k];
    assert q.sql in Statements(steps);
    QueryTransparent(c, run, Statements(steps), DbAfter(db, ChangeOf, steps, k), CacheAfter(c, run, db, steps, k), q.sql, q.visit, q.init, q.now, q.later);
  }

  /* ---- bypass ---- */

  /** No cached entry reads a table that is bypassed. */
  ghost predicate BypassClean(st: CacheState, now: nat) {
    forall i, t :: 0 <= i < |st.items| && t in st.items[i].tables ==> !Bypassed(st.stats, t, now)
  }

  lemma {:induction false} CleanLater(st: CacheState, now: nat, later: nat)
    requires BypassClean(st, now) && now <= later
    ensures BypassClean(st, later)
  {
    forall i, t | 0 <= i < |st.items| && t in st.items[i].tables ensures !Bypassed(st.stats, t, later) {
      assert !Bypassed(st.stats, t, now);
    }
  }

  lemma {:induction false} PutClean(c: Setup, st: CacheState, sql: string, tables: seq<string>, rows: seq<Row>, now: nat)
    requires BypassClean(st, now)
    ensures BypassClean(AfterPut(c, st, sql, tables, rows, now), now)
  {
    if !AnyBypassed(st.stats, tables, now) {
      var item := Item(c.hash(sql), SqlRows(sql, rows), tables, c.size(sql, rows));
      var kept := DropKeys(st.items, {item.key});
      var all := [item] + kept;
      forall i, t | 0 <= i < |all| && t in all[i].tables ensures !Bypassed(st.stats, t, now) {
        if i > 0 {
          assert all[i] == kept[i - 1];
          DropKeysKeeps(st.items, {item.key}, all[i]);
        }
      }
      TrimIsLongestFit(all, c.maxEntries, c.maxBytes);
    }
  }

  lemma {:induction false} InvalidateClean(c: Setup, st: CacheState, table: string, now: nat)
    requires BypassClean(st, now)
    ensures BypassClean(AfterInvalidate(c, st, table, now), now)
  {
    var kept := DropReaders(st.items, table);
    forall i, t | 0 <= i < |kept| && t in kept[i].tables
      ensures !Bypassed(AfterWrite(st.stats, table, now, c.limits), t, now)
    {
      DropReadersKeeps(st.items, table, kept[i]);
      assert t != table && !Bypassed(st.stats, t, now);
    }
  }

  lemma {:induction false} StepClean<S>(c: Setup, run: (Database, string) -> Reading, db: Database, st: CacheState, step: Step<S>)
    requires BypassClean(st, step.now) && (step.Query? ==> step.now <= step.later)
    ensures BypassClean(CacheStep(c, run, db, st, step), StepTime(step))
  {
    match step {
      case Query(sql, visit, init, now, later) =>
        CleanLater(st, now, later);
        if c.attribute(sql).Some? {
          var tables := c.attribute(sql).value;
          var hit := Hit(c, st, sql, tables, now);
          if hit.Some? {
          } else {
            PutClean(c, st, sql, tables, RowsLeft(run(db, sql).rows, visit, init), later);
          }
        }
      case Write(table, _, now) =>
        InvalidateClean(c, st, table, now);
      case ForeignWrite(_, _) =>
      case Flush(_) =>
    }
  }

  /** While a table is bypassed no cached entry reads it, at every point of every run. */
  lemma {:induction false} NoEntryReadsBypassed<S>(c: Setup, run: (Database, string) -> Reading, db: Database, steps: seq<Step<S>>, n: nat, now: nat)
    requires n <= |steps| && Clocked(steps)
    requires n > 0 ==> StepTime(steps[n - 1]) <= now
    ensures BypassClean(CacheAfter(c, run, db, steps, n), now)
  {
    hide CacheStep, BypassClean;
    if n == 0 {
      EmptyClean(now);
    } else {
      NoEntryReadsBypassed(c, run, db, steps, n - 1, steps[n - 1].now);
      StepClean(c, run, DbAfter(db, ChangeOf, steps, n - 1), CacheAfter(c, run, db, steps, n - 1), steps[n - 1]);
      CleanLater(CacheAfter(c, run, db, steps, n), StepTime(steps[n - 1]), now);
    }
  }

  lemma {:induction false} EmptyClean(now: nat)
    ensures BypassClean(CacheState([], map[]), now)
  {
  }

  /** When the run wrote to a table. */
  function WriteTimes<S>(steps: seq<Step<S>>, n: nat, table: string): seq<nat>
    requires n <= |steps|
  {
    if n == 0 then []
    else
      var last := steps[n - 1];
      WriteTimes(steps, n - 1, table) + (if last.Write? && last.table == table then [last.now] else [])
  }

  lemma {:induction false} TimesInOrder<S>(steps: seq<Step<S>>, n: nat, table: string)
    requires n <= |steps| && Clocked(steps)
    ensures NonDecreasing(WriteTimes(steps, n, table))
    ensures forall i, j :: 0 <= i < |WriteTimes(steps, n, table)| && n <= j < |steps| ==> WriteTimes(steps, n, table)[i] <= steps[j].now
  {
    if n > 0 {
      TimesInOrder(steps, n - 1, table);
    }
  }

  /** Only a write to a table touches its statistics. */
  lemma {:induction false} StepStats<S>(c: Setup, run: (Database, string) -> Reading, db: Database, st: CacheState, step: Step<S>, table: string)
    ensures var stats := CacheStep(c, run, db, st, step).stats;
            StatsOf(stats, table) ==
            if step.Write? && step.table == table then Some(Record(StatsOf(st.stats, table), step.now, c.limits))
            else StatsOf(st.stats, table)
  {
    hide Record, Hit, DropKeys, Trim, Promote, VisitRows, RowsLeft, Direct;
  }

  function StatsOf(stats: map<string, Stats>, table: string): Option<Stats> {
    if table in stats then Some(stats[table]) else None
  }

  /** A table's statistics depend on the times of its own writes alone. */
  lemma {:induction false} StatsAreWrites<S>(c: Setup, run: (Database, string) -> Reading, db: Database, steps: seq<Step<S>>, n: nat, table: string)
    requires n <= |steps|
    ensures StatsOf(CacheAfter(c, run, db, steps, n).stats, table) == AfterWrites(WriteTimes(steps, n, table), c.limits)
  {
    hide CacheStep, StatsOf, Record;
    if n == 0 {
      NoStats(table);
    } else {
      StatsAreWrites(c, run, db, steps, n - 1, table);
      StepStats(c, run, DbAfter(db, ChangeOf, steps, n - 1), CacheAfter(c, run, db, steps, n - 1), steps[n - 1], table);
      var before := WriteTimes(steps, n - 1, table);
      if steps[n - 1].Write? && steps[n - 1].table == table {
        assert (before + [steps[n - 1].now])[..|before|] == before;
      } else {
        assert WriteTimes(steps, n, table) == before;
      }
    }
  }

  lemma {:induction false} NoStats(table: string)
    ensures StatsOf(map[], table) == None
  {
  }

  /** In every run, a bypassed table had a burst of more writes than the threshold, ending within the cool-down. */
  lemma {:induction false} BypassedMeansBurst<S>(c: Setup, run: (Database, string) -> Reading, db: Database, steps: seq<Step<S>>, n: nat, table: string, now: nat)
    requires n <= |steps| && Clocked(steps)
    requires Bypassed(CacheAfter(c, run, db, steps, n).stats, table, now)
    ensures var times := WriteTimes(steps, n, table);
            exists first: nat, last: nat :: Burst(times, first, last, c.limits) && now < times[last] + c.limits.cooldown
  {
    StatsAreWrites(c, run, db, steps, n, table);
    TimesInOrder(steps, n, table);
    BypassNeedsBurst(WriteTimes(steps, n, table), now, c.limits);
  }

  /** The step of write k to a table. */
  lemma {:induction false} WriteStep<S>(steps: seq<Step<S>>, n: nat, table: string, k: nat) returns (m: nat)
    requires n <= |steps| && k < |WriteTimes(steps, n, table)|
    ensures 0 < m <= n && steps[m - 1].Write? && steps[m - 1].table == table
    ensures WriteTimes(steps, m, table) == WriteTimes(steps, n, table)[..k + 1] && steps[m - 1].now == WriteTimes(steps, n, table)[k]
  {
    var before := WriteTimes(steps, n - 1, table);
    if k < |before| {
      m := WriteStep(steps, n - 1, table, k);
      assert WriteTimes(steps, n, table)[..k + 1] == before[..k + 1];
    } else {
      m := n;
      assert WriteTimes(steps, n, table)[..k + 1] == WriteTimes(steps, n, table);
    }
  }

  /** In every run, twice the threshold of writes to a table inside one window's span start a bypass of it. */
  lemma {:induction false} BurstMeansBypass<S>(c: Setup, run: (Database, string) -> Reading, db: Database, steps: seq<Step<S>>, n: nat, table: string, first: nat, last: nat)
    returns (m: nat)
    requires n <= |steps| && Clocked(steps) && c.limits.cooldown > 0
    requires var times := WriteTimes(steps, n, table);
             first <= last < |times| && times[last] - times[first] <= c.limits.window && last - first + 1 >= 2 * c.limits.threshold
    ensures 0 < m <= n && steps[m - 1].Write? && steps[m - 1].table == table
    ensures Bypassed(CacheAfter(c, run, db, steps, m).stats, table, steps[m - 1].now)
  {
    hide CacheStep, AfterWrites, Record;
    var times := WriteTimes(steps, n, table);
    TimesInOrder(steps, n, table);
    var k := BurstStartsBypass(times, first, last, c.limits);
    m := WriteStep(steps, n, table, k);
    StatsAreWrites(c, run, db, steps, m, table);
    SomeStats(times[..k + 1], c.limits);
  }

  lemma {:induction false} SomeStats(times: seq<nat>, limits: Limits)
    requires times != []
    ensures AfterWrites(times, limits).Some?
  {
  }
}

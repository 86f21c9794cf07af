/** A whole run against the pool object itself, answer by answer. */
module QueryReplay {
  import opened Options
  import opened LruItems
  import opened Lru
  import opened Rows
  import opened QuerySpec
  import opened QueryRuns
  import opened QueryCache

  /**
   Drive a fresh pool through any run of queries, writes and flushes: every
   query is answered as a direct query on the database of that moment, unless
   another process wrote and no flush came since.
   */
  method Replay<S>(setup: Setup, run: (Database, string) -> Reading, db: Database, steps: seq<Step<S>>)
    returns (answers: seq<Option<Outcome<S>>>)
    requires Attributed(setup.attribute, run, Statements(steps)) && Undisturbing(run, db, steps)
    requires forall sql :: setup.attribute(sql) != Some([])
    ensures |answers| == |steps|
    ensures forall k :: 0 <= k < |steps| && Settled(steps, k) ==> answers[k] == DirectAnswer(run, db, steps, k)
  {
    hide Attributed, Undisturbing, Coherent, QueryStep, AfterInvalidate, Direct;
    hide Linked, Holds, Mapped, Indexed, DistinctKeys, TotalBytes;
    var pool := new Pool(setup, run, db);
    answers := [];
    for k := 0 to |steps|
      invariant fresh(pool) && fresh(pool.cache) && fresh(pool.cache.lru)
      invariant forall i :: 0 <= i < |pool.cache.lru.order| ==> fresh(pool.cache.lru.order[i])
      invariant pool.cache.Valid() && pool.run == run && pool.cache.setup == setup
      invariant pool.db == DbAfter(db, ChangeOf, steps, k)
      invariant pool.cache.State() == CacheAfter(setup, run, db, steps, k)
      invariant |answers| == k
      invariant forall j :: 0 <= j < k && Settled(steps, j) ==> answers[j] == DirectAnswer(run, db, steps, j)
    {
      var answer: Option<Outcome<S>> := None;
      match steps[k] {
        case Query(sql, visit, init, now, later) =>
          var n, err, state := pool.QueryEach(sql, visit, init, now, later);
          if Settled(steps, k) {
            CacheIsInvisible(setup, run, db, steps, k);
          }
          answer := Some(Outcome(n, err, state));
        case Write(table, contents, now) =>
          pool.HookedWrite(table, contents, now);
        case ForeignWrite(next, now) =>
          pool.ForeignWrite(next);
        case Flush(now) =>
          pool.cache.FlushAll();
      }
      answers := answers + [answer];
    }
  }

  /** What step k of the run answers without any cache; writes and flushes answer nothing. */
  function DirectAnswer<S>(run: (Database, string) -> Reading, db: Database, steps: seq<Step<S>>, k: nat): Option<Outcome<S>>
    requires k < |steps|
  {
    match steps[k]
    case Query(sql, visit, init, _, _) => Some(Direct(run(DbAfter(db, ChangeOf, steps, k), sql), visit, init))
    case _ => None
  }
}

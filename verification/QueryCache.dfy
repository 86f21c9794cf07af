/**
 The SQL row cache and the cache-aware query of the pool, updating their
 structures in place; each method is proved against its value-level meaning in
 QuerySpec.dfy.
 */
module QueryCache {
  import opened Options
  import opened LruItems
  import opened Lru
  import opened Rows
  import opened WriteRate
  import opened QuerySpec

  class Cache {
    const setup: Setup
    const lru: Lru<nat, SqlRows>
    var tables: map<string, Stats>
    var sqlTables: map<string, seq<string>>
    var hits: nat
    var misses: nat

    ghost predicate Valid()
      reads this, lru, lru.order
    {
      && lru.Valid()
      && lru.maxEntries == setup.maxEntries && lru.maxBytes == setup.maxBytes
      && (forall sql :: sql in sqlTables ==> Memoised(setup, sql, sqlTables[sql]))
    }

    ghost function State(): CacheState
      reads this, lru
    {
      CacheState(lru.items, tables)
    }

    constructor (setup: Setup)
      ensures Valid() && State() == CacheState([], map[]) && this.setup == setup
      ensures fresh(lru) && lru.order == []
    {
      this.setup := setup;
      lru := new Lru(setup.maxEntries, setup.maxBytes);
      tables, sqlTables, hits, misses := map[], map[], 0, 0;
    }

    /** Table extraction, memoised; an empty list stands for "do not cache". */
    method TablesFor(sql: string) returns (t: Option<seq<string>>)
      requires Valid() && setup.attribute(sql) != Some([])
      modifies `sqlTables
      ensures Valid() && t == setup.attribute(sql)
    {
      if sql in sqlTables {
        return if sqlTables[sql] == [] then None else Some(sqlTables[sql]);
      }
      t := setup.attribute(sql);
      sqlTables := sqlTables[sql := if t.None? then [] else t.value];
    }

    method IsBypassed(names: seq<string>, now: nat) returns (b: bool)
      ensures b == AnyBypassed(tables, names, now)
    {
      for i := 0 to |names|
        invariant forall j :: 0 <= j < i ==> !Bypassed(tables, names[j], now)
      {
        if names[i] in tables && now < tables[names[i]].bypassedUntil {
          return true;
        }
      }
      return false;
    }

    /** The entry on a hit, promoted to the front; null on a miss or bypass. */
    method Get(sql: string, names: seq<string>, now: nat) returns (e: Node?<nat, SqlRows>)
      requires Valid()
      modifies `hits, `misses, lru, lru.order`prev, lru.order`next
      ensures Valid()
      ensures match Hit(setup, old(State()), sql, names, now)
              case None => e == null && State() == old(State())
              case Some(i) =>
                && e != null && i < |old(lru.items)| && lru.items == Promote(old(lru.items), i)
                && lru.order != [] && lru.order[0] == e && e in old(lru.order)
                && e.val == old(lru.items)[i].val
      ensures forall i :: 0 <= i < |lru.order| ==> lru.order[i] in old(lru.order)
    {
      hide Linked, Holds, Mapped, Indexed, DistinctKeys, TotalBytes, Promote, Find, AnyBypassed, Memoised;
      var bypass := IsBypassed(names, now);
      if bypass {
        return null;
      }
      var key := setup.hash(sql);
      MappedKeys(lru.order, lru.items, lru.entries);
      if key !in lru.entries {
        FindNothing(lru.items, key);
        misses := misses + 1;
        return null;
      }
      ghost var k := Position(lru.order, lru.items, lru.entries, key);
      FindIsPosition(lru.items, k);
      HoldsAt(lru.order, lru.items, k);
      e := lru.entries[key];
      if e.val.sql != sql {
        misses := misses + 1;
        return null;
      }
      PromoteMembers(lru.order, k);
      lru.Touch(e, k);
      hits := hits + 1;
    }

    method Put(sql: string, names: seq<string>, rows: seq<Row>, now: nat)
      requires Valid()
      modifies lru, lru.order`prev, lru.order`next
      ensures Valid()
      ensures State() == AfterPut(setup, old(State()), sql, names, rows, now)
      ensures forall i :: 0 <= i < |lru.order| ==> fresh(lru.order[i]) || lru.order[i] in old(lru.order)
    {
      hide Linked, Holds, Mapped, Indexed, DistinctKeys, TotalBytes, DropKeys, Trim, AnyBypassed, Memoised;
      var bypass := IsBypassed(names, now);
      if bypass {
        return;
      }
      var e := new Node(setup.hash(sql), SqlRows(sql, rows), names, setup.size(sql, rows));
      lru.PutLocked(e);
    }

    /** Called for every row change: count the write, perhaps start a bypass, drop the table's readers. */
    method InvalidateTable(table: string, now: nat)
      requires Valid()
      modifies `tables, lru, lru.order`prev, lru.order`next
      ensures Valid()
      ensures State() == AfterInvalidate(setup, old(State()), table, now)
      ensures forall i :: 0 <= i < |lru.order| ==> lru.order[i] in old(lru.order)
    {
      hide AfterWrite, DropReaders;
      CountWrite(table, now);
      lru.InvalidateLocked(table);
    }

    method CountWrite(table: string, now: nat)
      modifies `tables
      ensures tables == AfterWrite(old(tables), table, now, setup.limits)
    {
      var st := if table in tables then tables[table] else Stats(now, 0, 0);
      if now - st.windowStart > setup.limits.window {
        st := st.(windowStart := now, writes := 1);
      } else {
        st := st.(writes := st.writes + 1);
      }
      if st.writes > setup.limits.threshold && !(now < st.bypassedUntil) {
        st := st.(bypassedUntil := now + setup.limits.cooldown);
      }
      tables := tables[table := st];
    }

    method FlushAll()
      requires Valid()
      modifies lru
      ensures Valid() && State() == AfterFlush(old(State())) && lru.order == []
    {
      lru.FlushLocked();
    }
  }

  /** The part of the connection pool that queries go through. */
  class Pool {
    const cache: Cache
    /** queryDirect's reading of a statement, as a function of the database. */
    const run: (Database, string) -> Reading
    var db: Database

    constructor (setup: Setup, run: (Database, string) -> Reading, db: Database)
      ensures cache.Valid() && cache.State() == CacheState([], map[]) && cache.setup == setup
      ensures this.run == run && this.db == db && fresh(cache) && fresh(cache.lru) && cache.lru.order == []
    {
      this.cache := new Cache(setup);
      this.run, this.db := run, db;
    }

    /** Step through the statement, visiting each row; `collected` are the visited snapshots. */
    method QueryDirect<S>(query: string, visit: (S, Row) -> Visit<S>, init: S)
      returns (n: nat, err: Option<Error>, state: S, collected: seq<Row>)
      ensures Outcome(n, err, state) == Direct(run(db, query), visit, init)
      ensures err.None? ==> collected == RowsLeft(run(db, query).rows, visit, init)
    {
      hide VisitRows, RowsLeft;
      var reading := run(db, query);
      n, state, collected := 0, init, [];
      assert reading.rows[0..] == reading.rows;
      while n < |reading.rows|
        invariant n <= |reading.rows|
        invariant VisitRows(reading.rows, visit, init) == Later(n, VisitRows(reading.rows[n..], visit, state))
        invariant RowsLeft(reading.rows, visit, init) == collected + RowsLeft(reading.rows[n..], visit, state)
      {
        NextVisit(reading.rows, n, visit, state);
        var v := visit(state, reading.rows[n]);
        collected, state := collected + [v.row], v.state;
        if v.err.Some? {
          return n, v.err, state, collected;
        }
        n := n + 1;
      }
      NoVisits(reading.rows, visit, state);
      err := reading.failure;
    }

    /**
     Serve from the cache when possible, else query and store. Cached rows are
     handed to the visitor itself, so what it leaves in them stays in the cache.
     */
    method QueryEach<S>(query: string, visit: (S, Row) -> Visit<S>, init: S, now: nat, later: nat)
      returns (n: nat, err: Option<Error>, state: S)
      requires cache.Valid() && cache.setup.attribute(query) != Some([])
      modifies cache, cache.lru, cache.lru.order
      ensures cache.Valid()
      ensures (Outcome(n, err, state), cache.State()) ==
              QueryStep(cache.setup, old(cache.State()), run(db, query), query, visit, init, now, later)
      ensures forall i :: 0 <= i < |cache.lru.order| ==> fresh(cache.lru.order[i]) || cache.lru.order[i] in old(cache.lru.order)
    {
      hide Linked, Holds, Mapped, Indexed, DistinctKeys, TotalBytes, Promote, AfterPut, Hit;
      var tables := cache.TablesFor(query);
      var collected;
      if tables.None? {
        n, err, state, collected := QueryDirect(query, visit, init);
        return;
      }
      ghost var was := cache.lru.items;
      ghost var hit := Hit(cache.setup, cache.State(), query, tables.value, now);
      var e := cache.Get(query, tables.value, now);
      if e != null {
        PromoteMembers(was, hit.value);
        var rows: seq<Row>;
        n, err, state, rows := VisitCached(e.val.rows, visit, init);
        cache.lru.SetFront(e, SqlRows(e.val.sql, rows));
        return;
      }
      n, err, state, collected := QueryDirect(query, visit, init);
      if err.None? {
        cache.Put(query, tables.value, collected, later);
      }
    }

    /** Visit cached rows in place. */
    method VisitCached<S>(rows: seq<Row>, visit: (S, Row) -> Visit<S>, init: S)
      returns (n: nat, err: Option<Error>, state: S, left: seq<Row>)
      ensures Outcome(n, err, state) == VisitRows(rows, visit, init)
      ensures left == RowsLeft(rows, visit, init)
    {
      hide VisitRows, RowsLeft;
      n, state, left := 0, init, rows;
      assert rows[0..] == rows;
      while n < |rows|
        invariant n <= |rows| == |left|
        invariant left[n..] == rows[n..]
        invariant VisitRows(rows, visit, init) == Later(n, VisitRows(rows[n..], visit, state))
        invariant RowsLeft(rows, visit, init) == left[..n] + RowsLeft(rows[n..], visit, state)
      {
        NextVisit(rows, n, visit, state);
        assert left[n] == left[n..][0] == rows[n];
        var v := visit(state, left[n]);
        ghost var was := left;
        left, state := left[n := v.row], v.state;
        if v.err.Some? {
          return n, v.err, state, left;
        }
        n := n + 1;
      }
      NoVisits(rows, visit, state);
      assert left[..|left|] == left;
      return n, None, state, left;
    }

    /** A row change through a hooked connection: the table changes, then the cache forgets its readers. */
    method HookedWrite(table: string, contents: Option<Table>, now: nat)
      requires cache.Valid()
      modifies this, cache, cache.lru, cache.lru.order
      ensures cache.Valid()
      ensures db == WithChange(old(db), Some(Change(table, contents)))
      ensures cache.State() == AfterInvalidate(cache.setup, old(cache.State()), table, now)
      ensures forall i :: 0 <= i < |cache.lru.order| ==> cache.lru.order[i] in old(cache.lru.order)
    {
      db := if contents.Some? then db[table := contents.value] else db - {table};
      cache.InvalidateTable(table, now);
    }

    /** Another process changes the database; nothing here notices. */
    method ForeignWrite(next: Database)
      modifies `db
      ensures db == next
    {
      db := next;
    }
  }

  /** The outcome of visits that began after n earlier rows. */
  function Later<S>(n: nat, o: Outcome<S>): Outcome<S> {
    o.(n := o.n + n)
  }

  /** One visit, and the visits of the rows behind it. */
  lemma {:induction false} NextVisit<S>(rows: seq<Row>, n: nat, visit: (S, Row) -> Visit<S>, s: S)
    requires n < |rows|
    ensures var v := visit(s, rows[n]);
            if v.err.Some? then
              && VisitRows(rows[n..], visit, s) == Outcome(0, v.err, v.state)
              && RowsLeft(rows[n..], visit, s) == [v.row] + rows[n + 1..]
            else
              && VisitRows(rows[n..], visit, s) == Later(1, VisitRows(rows[n + 1..], visit, v.state))
              && RowsLeft(rows[n..], visit, s) == [v.row] + RowsLeft(rows[n + 1..], visit, v.state)
  {
    assert rows[n..][0] == rows[n] && rows[n..][1..] == rows[n + 1..];
  }

  /** Nothing is left to visit behind the last row. */
  lemma {:induction false} NoVisits<S>(rows: seq<Row>, visit: (S, Row) -> Visit<S>, s: S)
    ensures rows[|rows|..] == [] && VisitRows(rows[|rows|..], visit, s) == Outcome(0, None, s) && RowsLeft(rows[|rows|..], visit, s) == []
  {
  }

  ghost predicate Memoised(setup: Setup, sql: string, found: seq<string>) {
    setup.attribute(sql) == if found == [] then None else Some(found)
  }

  lemma {:induction false} FindNothing<K, V>(items: seq<Item<K, V>>, key: K)
    requires key !in KeySet(items)
    ensures Find(items, key) == None
  {
  }

  /** Keys being distinct, looking a key up finds its one position. */
  lemma {:induction false} FindIsPosition<K, V>(items: seq<Item<K, V>>, k: nat)
    requires DistinctKeys(items) && k < |items|
    ensures Find(items, items[k].key) == Some(k)
  {
  }
}

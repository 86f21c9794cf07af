/**
 The page cache and the application state that serves hole pages through it,
 updating both cache layers in place.
 */
module PageCache {
  import opened HttpBytes
  import opened HttpGrammar
  import opened AcceptedEncodings
  import opened LruItems
  import opened Lru
  import opened Options
  import opened PageSplice
  import opened PageSpec
  import opened Rows
  import opened QuerySpec
  import opened BindingText
  import opened QueryCache
  import opened TableNames
  import Routes = RoutePatterns

  class OutputCache {
    const lru: Lru<PageKey, Variants>
    var hits: nat
    var misses: nat

    ghost predicate Valid()
      reads this, lru, lru.order
    {
      lru.Valid()
    }

    constructor (maxEntries: nat, maxBytes: nat)
      ensures Valid() && lru.items == [] && lru.order == [] && fresh(lru)
      ensures lru.maxEntries == maxEntries && lru.maxBytes == maxBytes
    {
      lru := new Lru(maxEntries, maxBytes);
      hits, misses := 0, 0;
    }

    /** The entry under a key, promoted to the front; null on a miss. */
    method Get(key: PageKey) returns (e: Node?<PageKey, Variants>)
      requires Valid()
      modifies `hits, `misses, lru, lru.order`prev, lru.order`next
      ensures Valid()
      ensures match Find(old(lru.items), key)
              case None => e == null && lru.items == old(lru.items) && lru.order == old(lru.order)
              case Some(i) => e != null && e.val == old(lru.items)[i].val && lru.items == Promote(old(lru.items), i)
      ensures forall i :: 0 <= i < |lru.order| ==> lru.order[i] in old(lru.order)
    {
      hide Linked, Holds, Mapped, Indexed, DistinctKeys, TotalBytes, Promote, Find;
      MappedKeys(lru.order, lru.items, lru.entries);
      if key !in lru.entries {
        FindNothing(lru.items, key);
        misses := misses + 1;
        return null;
      }
      ghost var k := Position(lru.order, lru.items, lru.entries, key);
      FindIsPosition(lru.items, k);
      HoldsAt(lru.order, lru.items, k);
      e := lru.entries[key];
      PromoteMembers(lru.order, k);
      lru.Touch(e, k);
      hits := hits + 1;
    }

    /** Store finished variants under their tables; without a table list this does nothing. */
    method Put(key: PageKey, v: Variants, tables: Option<seq<string>>)
      requires Valid()
      modifies lru, lru.order`prev, lru.order`next
      ensures Valid()
      ensures lru.items ==
              if tables.None? then old(lru.items)
              else Trim([Item(key, v, tables.value, EntrySize(v, tables.value))] + DropKeys(old(lru.items), {key}),
                        lru.maxEntries, lru.maxBytes)
      ensures forall i :: 0 <= i < |lru.order| ==> fresh(lru.order[i]) || lru.order[i] in old(lru.order)
    {
      hide Linked, Holds, Mapped, Indexed, DistinctKeys, TotalBytes, DropKeys, Trim, EntrySize;
      if tables.None? {
        return;
      }
      var size := MeasureEntry(v, tables.value);
      var e := new Node(key, v, tables.value, size);
      lru.PutLocked(e);
    }

    method MeasureEntry(v: Variants, tables: seq<string>) returns (n: nat)
      ensures n == EntrySize(v, tables)
    {
      n := |v.identity.body| + |v.gzip.body| + |v.brotli.body|;
      for i := 0 to |tables|
        invariant n == EntrySize(v, tables[..i])
      {
        assert tables[..i + 1][..i] == tables[..i];
        n := n + |tables[i]|;
      }
      assert tables[..|tables|] == tables;
    }

    /** Drop the readers of a table; the empty name stands for every table. */
    method Invalidate(table: string)
      requires Valid()
      modifies lru, lru.order`prev, lru.order`next
      ensures Valid() && lru.items == AfterPageInvalidate(old(lru.items), table)
      ensures forall i :: 0 <= i < |lru.order| ==> lru.order[i] in old(lru.order)
    {
      if table == "" {
        lru.FlushLocked();
      } else {
        lru.InvalidateLocked(table);
      }
    }
  }

  /** The union of the holes' tables in order of first use; None when some hole has none to name. */
  method UnionTables(holes: seq<Holes.Hole>) returns (tables: Option<seq<string>>)
    ensures tables == PageTables(holes)
  {
    for i := 0 to |holes|
      invariant Attributable(holes[..i])
    {
      if holes[i].tables.None? {
        return None;
      }
    }
    var out: seq<string> := [];
    var seen: set<string> := {};
    assert holes[0..] == holes;
    for i := 0 to |holes|
      invariant seen == Names(out)
      invariant Attributable(holes[i..]) && UnionFrom([], holes) == UnionFrom(out, holes[i..])
    {
      assert holes[i..][0] == holes[i] && holes[i..][1..] == holes[i + 1..];
      var named := holes[i].tables.value;
      ghost var before := out;
      assert named[0..] == named;
      for j := 0 to |named|
        invariant seen == Names(out)
        invariant AddNew(before, named) == AddNew(out, named[j..])
      {
        var t := named[j];
        assert named[j..][0] == t && named[j..][1..] == named[j + 1..];
        if t !in seen {
          assert Names(out + [t]) == Names(out) + {t} by {
            assert forall k :: 0 <= k < |out| ==> (out + [t])[k] == out[k];
            assert (out + [t])[|out|] == t;
          }
          seen := seen + {t};
          out := out + [t];
        }
      }
      assert named[|named|..] == [];
    }
    return Some(out);
  }

  function Names(names: seq<string>): set<string> {
    set i | 0 <= i < |names| :: names[i]
  }

  class App {
    const engine: Engine
    const pool: Pool
    var site: Site
    var outputCache: OutputCache

    ghost predicate Valid()
      reads this, pool, pool.cache, pool.cache.lru, pool.cache.lru.order
      reads outputCache, outputCache.lru, outputCache.lru.order
    {
      && pool.cache.Valid() && outputCache.Valid()
      && pool.run == engine.run && pool.cache.setup == engine.query
      && outputCache.lru.maxEntries == engine.maxEntries && outputCache.lru.maxBytes == engine.maxBytes
      && forall sql :: engine.query.attribute(sql) != Some([])
    }

    constructor (engine: Engine, db: Database, site: Site)
      requires forall sql :: engine.query.attribute(sql) != Some([])
      ensures Valid() && this.engine == engine && this.site == site && pool.db == db
      ensures pool.cache.State() == CacheState([], map[]) && outputCache.lru.items == []
      ensures fresh(pool) && fresh(pool.cache) && fresh(pool.cache.lru) && pool.cache.lru.order == []
      ensures fresh(outputCache) && fresh(outputCache.lru) && outputCache.lru.order == []
    {
      this.engine, this.site := engine, site;
      pool := new Pool(engine.query, engine.run, db);
      outputCache := new OutputCache(engine.maxEntries, engine.maxBytes);
    }

    /** The parsed holes of a route; HolesUnreadable and Panicked stand for an unreadable blob and offset. */
    method HolesFor(a: Ask) returns (holes: Option<Holes.Read>)
      ensures holes == HolesOf(engine, site, a)
    {
      var key := (a.manifest.id, a.entry.holeOffset);
      if key in site.holeCache {
        return Some(Holes.Holes(site.holeCache[key]));
      }
      if a.entry.holeOffset > |a.manifest.holeBlobs| {
        return None;
      }
      var read := Holes.ReadHoles(a.manifest.holeBlobs[a.entry.holeOffset..], engine.parses, engine.query.attribute);
      return Some(read);
    }

    /** Run one hole's SQL and render its rows; a hole without SQL is rendered once. */
    method FillHole(h: Holes.Hole, bindings: seq<Routes.Param>, params: map<string, string>, tick: nat -> nat, i: nat, buf: bytes) returns (written: bytes, err: Option<Error>)
      requires Valid() && params == ParamsMap(bindings)
      modifies pool.cache, pool.cache.lru, pool.cache.lru.order
      ensures pool.cache.Valid()
      ensures (written, err, pool.cache.State()) == HoleStep(engine, old(pool.cache.State()), pool.db, h, bindings, tick, i, buf)
      ensures forall j :: 0 <= j < |pool.cache.lru.order| ==>
                fresh(pool.cache.lru.order[j]) || pool.cache.lru.order[j] in old(pool.cache.lru.order)
    {
      hide Linked, Holds, Mapped, Indexed, DistinctKeys, TotalBytes, QueryStep, Memoised, Visitor;
      if h.sql == "" {
        var context: Row := map[];
        if |bindings| > 0 {
          context := context["_params" := Params(params)];
        }
        var r := engine.render(h.template, context);
        return buf + r.out, r.err;
      }
      var visit := Visitor(engine.render, h.template, bindings);
      var rows;
      rows, err, written := pool.QueryEach(h.sql, visit, buf, tick(2 * i), tick(2 * i + 1));
    }

    /** Splice each hole's rendering into the body. */
    method ComposeHoleBody(a: Ask, tick: nat -> nat) returns (c: Composed)
      requires Valid()
      modifies pool.cache, pool.cache.lru, pool.cache.lru.order
      ensures pool.cache.Valid()
      ensures (c, pool.cache.State()) == ComposeStep(engine, site, old(pool.cache.State()), pool.db, a, tick)
      ensures forall i :: 0 <= i < |pool.cache.lru.order| ==>
                fresh(pool.cache.lru.order[i]) || pool.cache.lru.order[i] in old(pool.cache.lru.order)
    {
      hide Linked, Holds, Mapped, Indexed, DistinctKeys, TotalBytes, Memoised, HoleStep, BodySlice, HolesOf, Cache.Valid;
      var slice := BodySlice(a.manifest, a.entry);
      if slice.None? {
        return Panicked;
      }
      var memory, len := slice.value.0, slice.value.1;
      var found := HolesFor(a);
      if found.None? {
        return Panicked;
      }
      if !found.value.Holes? {
        return HolesUnreadable;
      }
      var holes := found.value.holes;
      var params := CollectParams(a.bindings);
      var buf: bytes := [];
      var cursor: nat := 0;
      for i := 0 to |holes|
        invariant Valid() && cursor <= |memory|
        invariant ComposeFrom(engine, old(pool.cache.State()), pool.db, memory, len, holes, a.bindings, tick, 0, 0, []) ==
                  ComposeFrom(engine, pool.cache.State(), pool.db, memory, len, holes, a.bindings, tick, i, cursor, buf)
        invariant forall j :: 0 <= j < |pool.cache.lru.order| ==>
                    fresh(pool.cache.lru.order[j]) || pool.cache.lru.order[j] in old(pool.cache.lru.order)
      {
        var h := holes[i];
        if !(cursor <= h.position <= |memory|) {
          return Panicked;
        }
        buf := buf + memory[cursor..h.position];
        var err;
        buf, err := FillHole(h, a.bindings, params, tick, i, buf);
        if err.Some? {
          return RenderFailed(err.value);
        }
        cursor := h.position;
      }
      if cursor > len {
        return Panicked;
      }
      return Page(buf + memory[cursor..len]);
    }

    /** Serve a hole page: from the page cache, or composed and then stored when its tables are known. */
    method ComposeHoleBodyCached(a: Ask, headers: seq<Header>, tick: nat -> nat) returns (r: Response)
      requires Valid()
      modifies pool.cache, pool.cache.lru, pool.cache.lru.order
      modifies outputCache, outputCache.lru, outputCache.lru.order
      ensures Valid()
      ensures (r, pool.cache.State(), outputCache.lru.items) ==
              ServeStep(engine, site, old(pool.cache.State()), old(outputCache.lru.items), pool.db, a, AcceptOf(headers), tick)
      ensures forall i :: 0 <= i < |pool.cache.lru.order| ==>
                fresh(pool.cache.lru.order[i]) || pool.cache.lru.order[i] in old(pool.cache.lru.order)
      ensures forall i :: 0 <= i < |outputCache.lru.order| ==>
                fresh(outputCache.lru.order[i]) || outputCache.lru.order[i] in old(outputCache.lru.order)
    {
      hide Linked, Holds, Mapped, Indexed, DistinctKeys, TotalBytes, Memoised, CachedTables;
      hide ComposeStep, AcceptOf, Promote, Trim, DropKeys, EntrySize, Find, Pick, VariantsOf, PageTables, Cache.Valid, OutputCache.Valid;
      var params := HashBindings(engine.hash, a.bindings);
      var key := PageKey(a.manifest.id, a.entry.holeOffset, params);
      var e := outputCache.Get(key);
      if e != null {
        var v := PickHoleVariant(e.val, headers);
        return Served(v);
      }
      var composed := ComposeHoleBody(a, tick);
      if !composed.Page? {
        return Response.Failed(composed);
      }
      r := StorePage(a, key, composed.body, headers);
    }

    /** Serve a page just composed, first storing it when its tables are known. */
    method StorePage(a: Ask, key: PageKey, body: bytes, headers: seq<Header>) returns (r: Response)
      requires Valid()
      modifies outputCache.lru, outputCache.lru.order
      ensures Valid()
      ensures outputCache.lru.items ==
              AfterPagePut(engine, old(outputCache.lru.items), key, VariantsOf(engine, site, body, a.entry.head), CachedTables(site, a))
      ensures r == Served(if CachedTables(site, a).Some? then Pick(VariantsOf(engine, site, body, a.entry.head), AcceptOf(headers))
                          else Body(body, a.entry.head))
      ensures forall i :: 0 <= i < |outputCache.lru.order| ==>
                fresh(outputCache.lru.order[i]) || outputCache.lru.order[i] in old(outputCache.lru.order)
    {
      hide Linked, Holds, Mapped, Indexed, DistinctKeys, TotalBytes, Memoised;
      hide AcceptOf, Trim, DropKeys, EntrySize, PageTables, Pick, VariantsOf, Cache.Valid;
      var at := (a.manifest.id, a.entry.holeOffset);
      if at !in site.holeCache {
        return Served(Body(body, a.entry.head));
      }
      var tables := UnionTables(site.holeCache[at]);
      if tables.None? {
        return Served(Body(body, a.entry.head));
      }
      var v := VariantsOf(engine, site, body, a.entry.head);
      outputCache.Put(key, v, tables);
      var chosen := PickHoleVariant(v, headers);
      return Served(chosen);
    }

    /** A row change: the table, then the row cache, then the live page cache through its subscription. */
    method Write(table: string, contents: Option<Table>, now: nat)
      requires Valid()
      modifies pool, pool.cache, pool.cache.lru, pool.cache.lru.order
      modifies outputCache, outputCache.lru, outputCache.lru.order
      ensures Valid()
      ensures pool.db == WithChange(old(pool.db), Some(Change(table, contents)))
      ensures pool.cache.State() == AfterInvalidate(engine.query, old(pool.cache.State()), table, now)
      ensures outputCache.lru.items == AfterPageInvalidate(old(outputCache.lru.items), table)
      ensures forall i :: 0 <= i < |pool.cache.lru.order| ==> pool.cache.lru.order[i] in old(pool.cache.lru.order)
      ensures forall i :: 0 <= i < |outputCache.lru.order| ==> outputCache.lru.order[i] in old(outputCache.lru.order)
    {
      hide Linked, Holds, Mapped, Indexed, DistinctKeys, TotalBytes, Memoised, AfterInvalidate, AfterPageInvalidate;
      pool.HookedWrite(table, contents, now);
      outputCache.Invalidate(table);
    }

    /** Another process changes the database; the caches stay as they are until the watcher sees it. */
    method ForeignWrite(next: Database)
      requires Valid()
      modifies pool`db
      ensures Valid() && pool.db == next
    {
      pool.ForeignWrite(next);
    }

    /** The data_version watcher saw a foreign change: both layers are emptied. */
    method Flush()
      requires Valid()
      modifies pool.cache, pool.cache.lru, outputCache.lru, outputCache.lru.order
      ensures Valid()
      ensures pool.cache.State() == AfterFlush(old(pool.cache.State())) && outputCache.lru.items == []
      ensures pool.cache.lru.order == []
      ensures forall i :: 0 <= i < |outputCache.lru.order| ==> outputCache.lru.order[i] in old(outputCache.lru.order)
    {
      hide Linked, Holds, Mapped, Indexed, DistinctKeys, TotalBytes, Memoised;
      pool.cache.FlushAll();
      outputCache.Invalidate("");
    }

    /** A reload: another site with an empty page cache; the pool and its row cache stay. */
    method Reload(next: Site)
      requires Valid()
      modifies this
      ensures Valid() && site == next && outputCache.lru.items == []
      ensures fresh(outputCache) && fresh(outputCache.lru) && outputCache.lru.order == []
    {
      hide Linked, Holds, Mapped, Indexed, DistinctKeys, TotalBytes, Memoised;
      var empty := new OutputCache(engine.maxEntries, engine.maxBytes);
      site, outputCache := next, empty;
    }
  }

  /** The bindings as a map, later ones over earlier ones. */
  method CollectParams(bindings: seq<Routes.Param>) returns (params: map<string, string>)
    ensures params == ParamsMap(bindings)
    ensures forall name :: name in params <==> name in Routes.NamesOf(bindings)
  {
    params := map[];
    for i := 0 to |bindings|
      invariant params == ParamsMap(bindings[..i])
    {
      assert bindings[..i + 1][..i] == bindings[..i];
      params := params[bindings[i].name := bindings[i].value];
    }
    assert bindings[..|bindings|] == bindings;
    ParamsMapIs(bindings);
  }
}

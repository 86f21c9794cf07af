/**
 Whole runs of the server's two stacked caches: page requests, hooked writes,
 flushes and reloads in any order.
 */
module PageRuns {
  import opened HttpGrammar
  import opened AcceptedEncodings
  import opened Options
  import opened PageSpec
  import opened PageCache
  import opened Rows
  import opened QuerySpec

  /** Only a request is answered. A flush is the data_version watcher's, a reload swaps the site. */
  datatype Event =
    | Request(ask: Ask, headers: seq<Header>, tick: nat -> nat)
    | Write(table: string, contents: Option<Table>, now: nat)
    | ForeignWrite(changed: Database)
    | Flush
    | Reload(next: Site)

  /** What an event does to the database. */
  function ChangeOf(ev: Event): Option<Change> {
    match ev
    case Write(table, contents, _) => Some(Change(table, contents))
    case ForeignWrite(next) => Some(Foreign(next))
    case _ => None
  }

  /** Every foreign write among the first n events was followed by a flush. */
  predicate Settled(events: seq<Event>, n: nat)
    requires n <= |events|
  {
    n == 0 || events[n - 1].Flush? || (!events[n - 1].ForeignWrite? && Settled(events, n - 1))
  }

  function SiteAfter(site: Site, events: seq<Event>, n: nat): Site
    requires n <= |events|
  {
    if n == 0 then site
    else if events[n - 1].Reload? then events[n - 1].next
    else SiteAfter(site, events, n - 1)
  }

  /** Both cache layers after one event. */
  ghost function CachesStep(e: Engine, site: Site, db: Database, caches: (CacheState, Pages), ev: Event): (CacheState, Pages) {
    var (st, pages) := caches;
    match ev
    case Request(a, headers, tick) =>
      var (_, st', pages') := ServeStep(e, site, st, pages, db, a, AcceptOf(headers), tick);
      (st', pages')
    case Write(table, _, now) => (AfterInvalidate(e.query, st, table, now), AfterPageInvalidate(pages, table))
    case ForeignWrite(_) => (st, pages)
    case Flush => (AfterFlush(st), [])
    case Reload(_) => (st, [])
  }

  ghost function CachesAfter(e: Engine, site: Site, db: Database, events: seq<Event>, n: nat): (CacheState, Pages)
    requires n <= |events|
  {
    if n == 0 then (CacheState([], map[]), [])
    else
      CachesStep(e, SiteAfter(site, events, n - 1), DbAfter(db, ChangeOf, events, n - 1), CachesAfter(e, site, db, events, n - 1), events[n - 1])
  }

  /** What an event is answered through both caches; only requests are. */
  ghost function AnswerOf(e: Engine, site: Site, db: Database, caches: (CacheState, Pages), ev: Event): Option<Response> {
    match ev
    case Request(a, headers, tick) => Some(ServeStep(e, site, caches.0, caches.1, db, a, AcceptOf(headers), tick).0)
    case _ => None
  }

  ghost function AnswerAt(e: Engine, site: Site, db: Database, events: seq<Event>, k: nat): Option<Response>
    requires k < |events|
  {
    AnswerOf(e, SiteAfter(site, events, k), DbAfter(db, ChangeOf, events, k), CachesAfter(e, site, db, events, k), events[k])
  }

  /** What request k is due on the database and site of that moment, no cache involved. */
  function DueAt(e: Engine, site: Site, db: Database, events: seq<Event>, k: nat): Option<Response>
    requires k < |events|
  {
    match events[k]
    case Request(a, headers, _) => Some(ServeNow(e, SiteAfter(site, events, k), DbAfter(db, ChangeOf, events, k), a, AcceptOf(headers)))
    case _ => None
  }

  ghost function Asked(events: seq<Event>): iset<Ask> {
    iset i | 0 <= i < |events| && events[i].Request? :: events[i].ask
  }

  /** The statements that the requests of a run render. */
  ghost function Statements(e: Engine, site: Site, events: seq<Event>): iset<string> {
    iset k: nat, i: nat | k < |events| && i < |HolesAt(e, site, events, k)| && HolesAt(e, site, events, k)[i].sql != ""
      :: HolesAt(e, site, events, k)[i].sql
  }

  function HolesAt(e: Engine, site: Site, events: seq<Event>, k: nat): seq<Holes.Hole>
    requires k < |events|
  {
    if events[k].Request? then HoleList(e, SiteAfter(site, events, k), events[k].ask) else []
  }

  /** No request with bindings is rendered from rows with a "_params" column at its moment. */
  ghost predicate NoneClobbered(e: Engine, site: Site, db: Database, events: seq<Event>) {
    forall k :: 0 <= k < |events| && events[k].Request? && events[k].ask.bindings != [] ==>
      forall i :: 0 <= i < |HolesAt(e, site, events, k)| && HolesAt(e, site, events, k)[i].sql != "" ==>
        AllPlain(e.run(DbAfter(db, ChangeOf, events, k), HolesAt(e, site, events, k)[i].sql).rows)
  }

  /** The assumptions on a run; see the README for where each comes from. */
  ghost predicate Assumed(e: Engine, site: Site, db: Database, events: seq<Event>) {
    && Attributed(e.query.attribute, e.run, Statements(e, site, events)) && NoneClobbered(e, site, db, events)
    && ToldApart(e, Asked(events))
    && forall n :: 0 <= n <= |events| ==> HolesAttributed(e, SiteAfter(site, events, n))
  }

  lemma {:induction false} RequestOk(e: Engine, site: Site, db: Database, events: seq<Event>, k: nat)
    requires k < |events| && events[k].Request? && NoneClobbered(e, site, db, events)
    ensures var a := events[k].ask;
            HolesOk(e, DbAfter(db, ChangeOf, events, k), Statements(e, site, events), HoleList(e, SiteAfter(site, events, k), a), a.bindings)
  {
    var holes := HolesAt(e, site, events, k);
    forall i | 0 <= i < |holes|
      ensures HoleOk(e, DbAfter(db, ChangeOf, events, k), Statements(e, site, events), holes[i], events[k].ask.bindings)
    {
      assert holes[i].sql != "" ==> HolesAt(e, site, events, k)[i].sql in Statements(e, site, events);
    }
  }

  ghost predicate BothFresh(e: Engine, site: Site, db: Database, asked: iset<Ask>, sqls: iset<string>, caches: (CacheState, Pages)) {
    Coherent(e.query, e.run, sqls, db, caches.0.items) && FreshPages(e, site, db, asked, sqls, caches.1)
  }

  lemma {:induction false} CachesStayFresh(e: Engine, site: Site, db: Database, events: seq<Event>, n: nat)
    requires n <= |events| && Assumed(e, site, db, events) && Settled(events, n)
    ensures BothFresh(e, SiteAfter(site, events, n), DbAfter(db, ChangeOf, events, n), Asked(events), Statements(e, site, events), CachesAfter(e, site, db, events, n))
  {
    hide Coherent, FreshPages, Attributed, NoneClobbered, Statements, HolesOk, HoleList, ToldApart, HolesAttributed, ServeStep, AfterInvalidate, AfterPageInvalidate, AcceptOf;
    var asked, sqls := Asked(events), Statements(e, site, events);
    if n == 0 {
      NothingStale(e, site, db, asked, sqls);
    } else if events[n - 1].Flush? {
      NothingStale(e, SiteAfter(site, events, n), DbAfter(db, ChangeOf, events, n), asked, sqls);
    } else {
      CachesStayFresh(e, site, db, events, n - 1);
      var before, was := DbAfter(db, ChangeOf, events, n - 1), SiteAfter(site, events, n - 1);
      var (st, pages) := CachesAfter(e, site, db, events, n - 1);
      assert HolesAttributed(e, was);
      match events[n - 1] {
        case Request(a, headers, tick) =>
          assert a in asked;
          RequestOk(e, site, db, events, n - 1);
          ServeTransparent(e, was, st, pages, before, asked, sqls, a, AcceptOf(headers), tick);
        case Write(table, contents, now) =>
          var after := DbAfter(db, ChangeOf, events, n);
          WriteKeepsCoherent(e.query, e.run, sqls, before, after, st, table, now);
          WriteKeepsFresh(e, was, before, after, asked, sqls, pages, table);
        case Reload(next) =>
          NothingStale(e, next, before, asked, sqls);
        case _ =>
      }
    }
  }

  lemma {:induction false} NothingStale(e: Engine, site: Site, db: Database, asked: iset<Ask>, sqls: iset<string>)
    ensures Coherent(e.query, e.run, sqls, db, []) && FreshPages(e, site, db, asked, sqls, [])
  {
  }

  /**
   Both cache layers are invisible: over every run, each request is answered
   with the body and head that the database of that moment, its bindings and
   its accepted encodings call for, unless another process wrote and the
   watcher has not flushed since.
   */
  lemma {:induction false} CachesAreInvisible(e: Engine, site: Site, db: Database, events: seq<Event>, k: nat)
    requires k < |events| && Assumed(e, site, db, events) && Settled(events, k)
    ensures AnswerAt(e, site, db, events, k) == DueAt(e, site, db, events, k)
  {
    hide Coherent, FreshPages, Attributed, NoneClobbered, Statements, HolesOk, HoleList, ToldApart, HolesAttributed, ServeStep, ServeNow, AcceptOf;
    CachesStayFresh(e, site, db, events, k);
    var (st, pages) := CachesAfter(e, site, db, events, k);
    var ev := events[k];
    if ev.Request? {
      assert ev.ask in Asked(events);
      RequestOk(e, site, db, events, k);
      ServeTransparent(e, SiteAfter(site, events, k), st, pages, DbAfter(db, ChangeOf, events, k), Asked(events), Statements(e, site, events), ev.ask, AcceptOf(ev.headers), ev.tick);
    }
  }

  /** One event on the application object. */
  method Handle(app: App, ev: Event) returns (answer: Option<Response>)
    requires app.Valid()
    modifies app, app.pool, app.pool.cache, app.pool.cache.lru, app.pool.cache.lru.order
    modifies app.outputCache, app.outputCache.lru, app.outputCache.lru.order
    ensures app.Valid()
    ensures app.site == (if ev.Reload? then ev.next else old(app.site)) && app.pool.db == WithChange(old(app.pool.db), ChangeOf(ev))
    ensures var caches := old((app.pool.cache.State(), app.outputCache.lru.items));
            && (app.pool.cache.State(), app.outputCache.lru.items) == CachesStep(app.engine, old(app.site), old(app.pool.db), caches, ev)
            && answer == AnswerOf(app.engine, old(app.site), old(app.pool.db), caches, ev)
    ensures forall i :: 0 <= i < |app.pool.cache.lru.order| ==>
              fresh(app.pool.cache.lru.order[i]) || app.pool.cache.lru.order[i] in old(app.pool.cache.lru.order)
    ensures forall i :: 0 <= i < |app.outputCache.lru.order| ==>
              fresh(app.outputCache.lru.order[i]) || app.outputCache.lru.order[i] in old(app.outputCache.lru.order)
    ensures app.outputCache == old(app.outputCache) || (fresh(app.outputCache) && fresh(app.outputCache.lru))
  {
    hide ServeStep, AfterInvalidate, AfterPageInvalidate, AcceptOf, App.Valid;
    match ev {
      case Request(a, headers, tick) =>
        var r := app.ComposeHoleBodyCached(a, headers, tick);
        return Some(r);
      case Write(table, contents, now) =>
        app.Write(table, contents, now);
      case ForeignWrite(next) =>
        app.ForeignWrite(next);
      case Flush =>
        app.Flush();
      case Reload(next) =>
        app.Reload(next);
    }
    return None;
  }

  /** The application object driven through any such run answers every request as it is due. */
  method Replay(e: Engine, site: Site, db: Database, events: seq<Event>) returns (answers: seq<Option<Response>>)
    requires Assumed(e, site, db, events) && forall sql :: e.query.attribute(sql) != Some([])
    ensures |answers| == |events|
    ensures forall k :: 0 <= k < |events| && Settled(events, k) ==> answers[k] == DueAt(e, site, db, events, k)
  {
    hide Assumed, CachesStep, AnswerOf, DueAt, App.Valid;
    var app := new App(e, db, site);
    answers := [];
    for k := 0 to |events|
      invariant fresh(app) && fresh(app.pool) && fresh(app.pool.cache) && fresh(app.pool.cache.lru)
      invariant fresh(app.outputCache) && fresh(app.outputCache.lru)
      invariant forall i :: 0 <= i < |app.pool.cache.lru.order| ==> fresh(app.pool.cache.lru.order[i])
      invariant forall i :: 0 <= i < |app.outputCache.lru.order| ==> fresh(app.outputCache.lru.order[i])
      invariant app.Valid() && app.engine == e
      invariant app.site == SiteAfter(site, events, k) && app.pool.db == DbAfter(db, ChangeOf, events, k)
      invariant (app.pool.cache.State(), app.outputCache.lru.items) == CachesAfter(e, site, db, events, k)
      invariant |answers| == k
      invariant forall j :: 0 <= j < k && Settled(events, j) ==> answers[j] == DueAt(e, site, db, events, j)
    {
      var answer := Handle(app, events[k]);
      if Settled(events, k) {
        CachesAreInvisible(e, site, db, events, k);
      }
      answers := answers + [answer];
    }
  }
}

/**
 Loading the holes of a site, and a run of the application over a loaded site
 with the table extraction the server uses.
 */
module PageLoad {
  import opened Options
  import opened PageSpec
  import opened PageRuns
  import opened Rows
  import opened SqlTables
  import opened SqlWords

  /** A static route of a manifest; hole offset 0 stands for "no holes". */
  datatype Route = Route(manifest: Manifest, entry: Entry)

  type HoleCache = map<(nat, nat), seq<Holes.Hole>>

  /** The hole lists of the first n routes; unreadable blobs are skipped, an offset past the section panics. */
  function LoadedHoles(e: Engine, routes: seq<Route>, n: nat): Option<HoleCache>
    requires n <= |routes|
  {
    if n == 0 then Some(map[])
    else
      var before := LoadedHoles(e, routes, n - 1);
      var Route(m, entry) := routes[n - 1];
      if before.None? || entry.holeOffset == 0 then before
      else if entry.holeOffset > |m.holeBlobs| then None
      else
        match Holes.ReadBlob(m.holeBlobs[entry.holeOffset..], e.parses, e.query.attribute)
        case Holes(holes) => Some(before.value[(m.id, entry.holeOffset) := holes])
        case _ => before
  }

  /** The pre-parsing loop of loading a state. */
  method LoadHoles(e: Engine, routes: seq<Route>) returns (cache: Option<HoleCache>)
    ensures cache == LoadedHoles(e, routes, |routes|)
  {
    var holeCache: HoleCache := map[];
    for i := 0 to |routes|
      invariant LoadedHoles(e, routes, i) == Some(holeCache)
    {
      var Route(m, entry) := routes[i];
      if entry.holeOffset == 0 {
        assert LoadedHoles(e, routes, i + 1) == Some(holeCache);
        continue;
      }
      if entry.holeOffset > |m.holeBlobs| {
        NoneStays(e, routes, i + 1, |routes|);
        return None;
      }
      var read := Holes.ReadHoles(m.holeBlobs[entry.holeOffset..], e.parses, e.query.attribute);
      if read.Holes? {
        holeCache := holeCache[(m.id, entry.holeOffset) := read.holes];
      }
    }
    return Some(holeCache);
  }

  lemma {:induction false} NoneStays(e: Engine, routes: seq<Route>, n: nat, m: nat)
    requires n <= m <= |routes| && LoadedHoles(e, routes, n).None?
    ensures LoadedHoles(e, routes, m).None?
    decreases m
  {
    if n < m {
      NoneStays(e, routes, n, m - 1);
    }
  }

  /** Loading panics exactly when some route's offset lies past its section. */
  lemma {:induction false} LoadPanicsIff(e: Engine, routes: seq<Route>, n: nat)
    requires n <= |routes|
    ensures LoadedHoles(e, routes, n).None? <==> exists i :: 0 <= i < n && routes[i].entry.holeOffset > |routes[i].manifest.holeBlobs|
  {
    hide Holes.ReadBlob;
    if n > 0 {
      LoadPanicsIff(e, routes, n - 1);
    }
  }

  /** What the blob of a route with holes reads as. */
  function ReadRoute(e: Engine, r: Route): Holes.Read
    requires r.entry.holeOffset <= |r.manifest.holeBlobs|
  {
    Holes.ReadBlob(r.manifest.holeBlobs[r.entry.holeOffset..], e.parses, e.query.attribute)
  }

  /** A route with holes, under this key, whose blob can be read. */
  predicate Readable(e: Engine, r: Route, key: (nat, nat)) {
    && key == (r.manifest.id, r.entry.holeOffset) && 0 < r.entry.holeOffset <= |r.manifest.holeBlobs|
    && ReadRoute(e, r).Holes?
  }

  /** What is loaded is exactly the readable routes, each key with the holes of the last one under it. */
  lemma {:induction false} LoadedIs(e: Engine, routes: seq<Route>, n: nat, key: (nat, nat))
    requires n <= |routes| && LoadedHoles(e, routes, n).Some?
    ensures var cache := LoadedHoles(e, routes, n).value;
            && (key in cache <==> exists i :: 0 <= i < n && Readable(e, routes[i], key))
            && (forall i :: 0 <= i < n && Readable(e, routes[i], key) && (forall j :: i < j < n ==> !Readable(e, routes[j], key))
                  ==> key in cache && cache[key] == ReadRoute(e, routes[i]).holes)
  {
    hide Holes.ReadBlob;
    if n > 0 {
      LoadedIs(e, routes, n - 1, key);
    }
  }

  /** A loaded site's holes carry the tables extracted from their SQL. */
  lemma {:induction false} LoadedAttributed(e: Engine, routes: seq<Route>, n: nat, headGzip: nat, headBrotli: nat)
    requires n <= |routes| && LoadedHoles(e, routes, n).Some?
    ensures HolesAttributed(e, Site(LoadedHoles(e, routes, n).value, headGzip, headBrotli))
  {
    hide ListAttributed, Holes.ReadFrom;
    if n > 0 {
      LoadedAttributed(e, routes, n - 1, headGzip, headBrotli);
      var Route(m, entry) := routes[n - 1];
      if 0 < entry.holeOffset <= |m.holeBlobs| {
        BlobAttributed(e, m.holeBlobs[entry.holeOffset..]);
      }
    }
  }

  lemma {:induction false} BlobAttributed(e: Engine, blob: HttpBytes.bytes)
    ensures var r := Holes.ReadBlob(blob, e.parses, e.query.attribute);
            r.Holes? ==> ListAttributed(e, r.holes)
  {
    if |blob| >= 2 {
      ReadAttributes(e, blob, 2, Holes.Get16(blob, 0));
    }
  }

  /**
   The application over a freshly loaded site, attributing statements by the
   scan for FROM and JOIN: every request of the run is answered as it is due.
   What is left to assume is said about the run's own statements and requests.
   */
  method ReplayLoaded(e: Engine, routes: seq<Route>, headGzip: nat, headBrotli: nat, db: Database, events: seq<Event>)
    returns (answers: Option<seq<Option<Response>>>)
    requires forall sql :: e.query.attribute(sql) == Tables(sql)
    requires forall i :: 0 <= i < |events| && events[i].Reload? ==> HolesAttributed(e, events[i].next)
    requires LoadedHoles(e, routes, |routes|).Some? ==>
               var site := Site(LoadedHoles(e, routes, |routes|).value, headGzip, headBrotli);
               && Attributed(e.query.attribute, e.run, Statements(e, site, events))
               && NoneClobbered(e, site, db, events)
    requires ToldApart(e, Asked(events))
    ensures answers.None? <==> LoadedHoles(e, routes, |routes|).None?
    ensures answers.Some? ==>
              var site := Site(LoadedHoles(e, routes, |routes|).value, headGzip, headBrotli);
              |answers.value| == |events| && forall k :: 0 <= k < |events| && Settled(events, k) ==> answers.value[k] == DueAt(e, site, db, events, k)
  {
    hide Tables, LoadedHoles, HolesAttributed, Attributed, NoneClobbered, ToldApart, DueAt;
    var cache := LoadHoles(e, routes);
    if cache.None? {
      return None;
    }
    var site := Site(cache.value, headGzip, headBrotli);
    LoadedAttributed(e, routes, |routes|, headGzip, headBrotli);
    forall n | 0 <= n <= |events| ensures HolesAttributed(e, SiteAfter(site, events, n)) {
      SitesAttributed(e, site, events, n);
    }
    forall sql ensures e.query.attribute(sql) != Some([]) {
      TablesNeverEmpty(sql);
    }
    var all := Replay(e, site, db, events);
    return Some(all);
  }

  lemma {:induction false} SitesAttributed(e: Engine, site: Site, events: seq<Event>, n: nat)
    requires n <= |events| && HolesAttributed(e, site)
    requires forall i :: 0 <= i < |events| && events[i].Reload? ==> HolesAttributed(e, events[i].next)
    ensures HolesAttributed(e, SiteAfter(site, events, n))
  {
    hide HolesAttributed;
    if n > 0 {
      SitesAttributed(e, site, events, n - 1);
    }
  }
}

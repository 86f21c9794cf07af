/**
 Hole pages on values: composing a page through the SQL row cache, and serving
 it through the page cache on top.
 */
module PageSpec {
  import opened HttpBytes
  import opened LruItems
  import opened Options
  import opened PageSplice
  import opened Rows
  import opened QuerySpec
  import opened TableNames
  import Paths = RoutePaths
  import opened RoutePatterns
  import opened BindingText
  import opened Sequences
  import Holes = HoleBlobs

  /** Everything fixed outside the caches: the SQL layer, templates and compression. */
  datatype Engine = Engine(
    query: Setup,
    run: (Database, string) -> Reading,
    parses: bytes -> bool,
    render: (bytes, Row) -> Rendering,
    gzip: bytes -> bytes,
    brotli: bytes -> bytes,
    hash: string -> nat,
    maxEntries: nat,
    maxBytes: nat)

  /** A loaded manifest: identity, the mapping from the payloads on, and the hole section. */
  datatype Manifest = Manifest(id: nat, mapped: bytes, holeBlobs: bytes)

  /** The identity variant of a static route with holes. */
  datatype Entry = Entry(holeOffset: nat, dataOffset: nat, dataLen: nat, head: nat)

  /** What a request asks for, once routed. */
  datatype Ask = Ask(manifest: Manifest, entry: Entry, bindings: seq<Param>)

  /** The application state a reload replaces. */
  datatype Site = Site(holeCache: map<(nat, nat), seq<Holes.Hole>>, headGzip: nat, headBrotli: nat)

  /* ---- composing ---- */

  /** The captured bindings as templates see them; a repeated name keeps its last value. */
  function ParamsMap(bindings: seq<Param>): map<string, string> {
    if bindings == [] then map[]
    else
      var last := bindings[|bindings| - 1];
      ParamsMap(bindings[..|bindings| - 1])[last.name := last.value]
  }

  /** Under each captured name the value captured last, and no other name. */
  lemma {:induction false} ParamsMapIs(bindings: seq<Param>)
    ensures forall name :: name in ParamsMap(bindings) <==> name in NamesOf(bindings)
    ensures forall i :: 0 <= i < |bindings| && bindings[i].name !in NamesOf(bindings)[i + 1..] ==>
              bindings[i].name in NamesOf(bindings) && ParamsMap(bindings)[bindings[i].name] == bindings[i].value
  {
    if bindings != [] {
      var k := |bindings| - 1;
      var before := bindings[..k];
      ParamsMapIs(before);
      LastName(bindings);
      forall i | 0 <= i < |bindings| && bindings[i].name !in NamesOf(bindings)[i + 1..]
        ensures ParamsMap(bindings)[bindings[i].name] == bindings[i].value
      {
        hide NamesOf;
        if i < k {
          assert before[i] == bindings[i];
        }
      }
    }
  }

  lemma {:induction false} LastName(bindings: seq<Param>)
    requires bindings != []
    ensures NamesOf(bindings) == NamesOf(bindings[..|bindings| - 1]) + [bindings[|bindings| - 1].name]
  {
  }

  /** With distinct names every capture is found under its name. */
  lemma {:induction false} EachParam(bindings: seq<Param>, i: nat)
    requires i < |bindings| && Distinct(NamesOf(bindings))
    ensures bindings[i].name in ParamsMap(bindings) && ParamsMap(bindings)[bindings[i].name] == bindings[i].value
  {
    ParamsMapIs(bindings);
    var names := NamesOf(bindings);
    assert names[i] == bindings[i].name;
    var later := names[i + 1..];
    assert forall j :: 0 <= j < |later| ==> later[j] == names[i + 1 + j];
  }

  /** What a template finds for a segment of the matched pattern: the path's segment, or for a catch-all the rest. */
  lemma {:induction false} ParamOfSegment(p: Pattern, segs: seq<string>, i: nat)
    requires Matches(p, segs) && Distinct(CaptureNames(p)) && i < |p| && !p[i].Lit?
    ensures i <= |segs| && (p[i].Par? ==> i < |segs|)
    ensures var params := ParamsMap(Bindings(p, segs));
            p[i].name in params && params[p[i].name] == if p[i].Par? then segs[i] else Paths.Join(segs[i..])
  {
    BindingNames(p, segs);
    var k := BindingAt(p, segs, i);
    EachParam(Bindings(p, segs), k);
  }

  function Context(bindings: seq<Param>, row: Row): Row {
    if bindings == [] then row else row["_params" := Params(ParamsMap(bindings))]
  }

  /** A template sees the row's columns, and with bindings the captures under "_params". */
  lemma {:induction false} ContextIs(bindings: seq<Param>, row: Row)
    ensures bindings == [] ==> Context(bindings, row) == row
    ensures bindings != [] ==>
              var seen := Context(bindings, row);
              && seen.Keys == row.Keys + {"_params"} && seen["_params"] == Params(ParamsMap(bindings))
              && forall column :: column in row && column != "_params" ==> seen[column] == row[column]
  {
  }

  /** Render one row into the buffer, with "_params" set before and deleted after. */
  function Visitor(render: (bytes, Row) -> Rendering, template: bytes, bindings: seq<Param>): (bytes, Row) -> Visit<bytes> {
    (buf: bytes, row: Row) =>
      var r := render(template, Context(bindings, row));
      Visit(buf + r.out, if bindings == [] then row else row - {"_params"}, r.err)
  }

  /**
   Setting and deleting "_params" gives the row back exactly when there are no
   bindings or the row has no column of that name.
   */
  lemma {:induction false} RestoresIff(render: (bytes, Row) -> Rendering, template: bytes, bindings: seq<Param>, buf: bytes, row: Row)
    ensures Visitor(render, template, bindings)(buf, row).row == row <==> bindings == [] || Plain(row)
  {
  }

  /**
   Rendering rows without error leaves them as they were exactly when there are
   no bindings or no row has a column of that name.
   */
  lemma {:induction false} UndisturbedIff(rows: seq<Row>, render: (bytes, Row) -> Rendering, template: bytes, bindings: seq<Param>, buf: bytes)
    ensures bindings == [] || AllPlain(rows) ==> Undisturbed(rows, Visitor(render, template, bindings), buf)
    ensures VisitRows(rows, Visitor(render, template, bindings), buf).err.None? ==>
              (Undisturbed(rows, Visitor(render, template, bindings), buf) <==> bindings == [] || AllPlain(rows))
  {
    var v := Visitor(render, template, bindings);
    if rows != [] {
      var first := v(buf, rows[0]);
      RestoresIff(render, template, bindings, buf, rows[0]);
      UndisturbedIff(rows[1..], render, template, bindings, first.state);
      assert rows == [rows[0]] + rows[1..];
      assert AllPlain(rows) <==> Plain(rows[0]) && AllPlain(rows[1..]) by {
        assert forall i :: 0 < i < |rows| ==> rows[i] == rows[1..][i - 1];
      }
      var rest := RowsLeft(rows[1..], v, first.state);
      assert ([first.row] + rest)[0] == first.row && ([first.row] + rest)[1..] == rest;
    }
  }

  /** The statement of a hole is one of those asked, and rendering leaves the rows it delivers now as they are. */
  ghost predicate HoleOk(e: Engine, db: Database, asked: iset<string>, h: Holes.Hole, bindings: seq<Param>) {
    h.sql != "" ==> h.sql in asked && (bindings == [] || AllPlain(e.run(db, h.sql).rows))
  }

  ghost predicate HolesOk(e: Engine, db: Database, asked: iset<string>, holes: seq<Holes.Hole>, bindings: seq<Param>) {
    forall i :: 0 <= i < |holes| ==> HoleOk(e, db, asked, holes[i], bindings)
  }

  /** What a hole renders on the current database, with no cache and no buffer of its own. */
  function RenderHole(e: Engine, db: Database, h: Holes.Hole, bindings: seq<Param>): Rendering {
    if h.sql == "" then e.render(h.template, Context(bindings, map[]))
    else
      var o := Direct(e.run(db, h.sql), Visitor(e.render, h.template, bindings), []);
      Rendering(o.state, o.err)
  }

  function Renderings(e: Engine, db: Database, holes: seq<Holes.Hole>, bindings: seq<Param>): (rs: seq<Rendering>)
    ensures |rs| == |holes|
  {
    seq(|holes|, i requires 0 <= i < |holes| => RenderHole(e, db, holes[i], bindings))
  }

  function Positions(holes: seq<Holes.Hole>): (ps: seq<nat>)
    ensures |ps| == |holes|
  {
    seq(|holes|, i requires 0 <= i < |holes| => holes[i].position)
  }

  /** The body's slice of the mapping, bounds in 32-bit arithmetic; None where slicing panics. */
  function BodySlice(m: Manifest, entry: Entry): (s: Option<(bytes, nat)>)
    ensures s.Some? ==> s.value.1 <= |s.value.0|
  {
    var hi := (entry.dataOffset + entry.dataLen) % Holes.U32;
    if entry.dataOffset <= hi <= |m.mapped| then Some((m.mapped[entry.dataOffset..], hi - entry.dataOffset)) else None
  }

  /** Offsets and lengths of 32 bits: the bytes there, and a panic when they end past the mapping or past 32 bits. */
  lemma {:induction false} BodySliceIs(m: Manifest, entry: Entry)
    requires entry.dataOffset < Holes.U32 && entry.dataLen < Holes.U32
    ensures var end := entry.dataOffset + entry.dataLen; var s := BodySlice(m, entry);
            && (s.Some? <==> end < Holes.U32 && end <= |m.mapped|)
            && (s.Some? ==> s.value.1 == entry.dataLen && s.value.0[..s.value.1] == m.mapped[entry.dataOffset..end]
                            && s.value.0 == m.mapped[entry.dataOffset..])
  {
  }

  /** The holes of a route: parsed at load, or read from the blob when loading left them out. */
  function HolesOf(e: Engine, site: Site, a: Ask): Option<Holes.Read> {
    var key := (a.manifest.id, a.entry.holeOffset);
    if key in site.holeCache then Some(Holes.Holes(site.holeCache[key]))
    else if a.entry.holeOffset > |a.manifest.holeBlobs| then None
    else Some(Holes.ReadBlob(a.manifest.holeBlobs[a.entry.holeOffset..], e.parses, e.query.attribute))
  }

  /** The page a request asks for, as a function of the database alone. */
  function ComposeNow(e: Engine, site: Site, db: Database, a: Ask): Composed {
    match BodySlice(a.manifest, a.entry)
    case None => Panicked
    case Some((memory, len)) =>
      match HolesOf(e, site, a)
      case None => Panicked
      case Some(Holes(holes)) => Assemble(memory, len, Positions(holes), Renderings(e, db, holes, a.bindings), 0, 0, [])
      case Some(_) => HolesUnreadable
  }

  /**
   From blob to page: the holes written for a route, read back and rendered
   without error, give the static body with each rendering inserted at its
   position, and cutting the renderings out gives the body back; positions that
   go back or leave the body panic instead.
   */
  lemma {:induction false} BlobToPage(e: Engine, site: Site, db: Database, a: Ask, raws: seq<Holes.RawHole>, rest: bytes, memory: bytes, len: nat)
    requires BodySlice(a.manifest, a.entry) == Some((memory, len))
    requires a.entry.holeOffset <= |a.manifest.holeBlobs| && a.manifest.holeBlobs[a.entry.holeOffset..] == Holes.Blob(raws) + rest
    requires Holes.FitsFields(raws) && Holes.LastFits(raws, rest) && forall i :: 0 <= i < |raws| ==> e.parses(raws[i].template)
    requires (a.manifest.id, a.entry.holeOffset) !in site.holeCache
    requires AllRendered(Renderings(e, db, Holes.ParsedAll(raws, e.query.attribute), a.bindings))
    ensures var holes := Holes.ParsedAll(raws, e.query.attribute);
            var ps, outs, body := Positions(holes), Outs(Renderings(e, db, holes, a.bindings)), memory[..len];
            if NonDecreasing(ps) && Inside(ps, len) then
              && ComposeNow(e, site, db, a) == Page(Insert(body, ps, outs))
              && CutOut(Insert(body, ps, outs), ps, Lengths(outs)) == body
            else ComposeNow(e, site, db, a) == Panicked
  {
    hide BodySlice, Assemble, Insert, CutOut, Lengths, Outs, Renderings, Positions, NonDecreasing, Inside;
    hide Holes.ReadBlob, Holes.ParsedAll, Holes.Blob;
    var holes := Holes.ParsedAll(raws, e.query.attribute);
    Holes.BlobRoundTrip(raws, rest, e.parses, e.query.attribute);
    var ps, rs := Positions(holes), Renderings(e, db, holes, a.bindings);
    AssembleInserts(memory, len, ps, rs);
    if NonDecreasing(ps) && Inside(ps, len) {
      BodyLength(memory, len);
      CutUndoesInsert(memory[..len], ps, Outs(rs));
    }
  }

  lemma {:induction false} BodyLength(memory: bytes, len: nat)
    requires len <= |memory|
    ensures |memory[..len]| == len
  {
  }

  /** composeHoleBody's loop from hole i on, its queries going through the row cache; tick reads the clock. */
  ghost function ComposeFrom(e: Engine, st: CacheState, db: Database, memory: bytes, len: nat,
    holes: seq<Holes.Hole>, bindings: seq<Param>, tick: nat -> nat, i: nat, cursor: nat, buf: bytes): (Composed, CacheState)
    requires i <= |holes| && cursor <= |memory| && len <= |memory|
    decreases |holes| - i
  {
    if i == |holes| then (if cursor > len then Panicked else Page(buf + memory[cursor..len]), st)
    else
      var h := holes[i];
      if !(cursor <= h.position <= |memory|) then (Panicked, st)
      else
        var (written, err, st') := HoleStep(e, st, db, h, bindings, tick, i, buf + memory[cursor..h.position]);
        if err.Some? then (RenderFailed(err.value), st')
        else ComposeFrom(e, st', db, memory, len, holes, bindings, tick, i + 1, h.position, written)
  }

  /** One hole rendered into the buffer through the row cache. */
  ghost function HoleStep(e: Engine, st: CacheState, db: Database, h: Holes.Hole, bindings: seq<Param>,
    tick: nat -> nat, i: nat, buf: bytes): (bytes, Option<Error>, CacheState)
  {
    if h.sql == "" then
      var r := e.render(h.template, Context(bindings, map[]));
      (buf + r.out, r.err, st)
    else
      var (o, st') := QueryStep(e.query, st, e.run(db, h.sql), h.sql,
                                Visitor(e.render, h.template, bindings), buf, tick(2 * i), tick(2 * i + 1));
      (o.state, o.err, st')
  }

  ghost function ComposeStep(e: Engine, site: Site, st: CacheState, db: Database, a: Ask, tick: nat -> nat): (Composed, CacheState) {
    match BodySlice(a.manifest, a.entry)
    case None => (Panicked, st)
    case Some((memory, len)) =>
      match HolesOf(e, site, a)
      case None => (Panicked, st)
      case Some(Holes(holes)) => ComposeFrom(e, st, db, memory, len, holes, a.bindings, tick, 0, 0, [])
      case Some(_) => (HolesUnreadable, st)
  }

  lemma {:induction false} VisitorAppends(rows: seq<Row>, render: (bytes, Row) -> Rendering, template: bytes, bindings: seq<Param>, buf: bytes)
    ensures var v := Visitor(render, template, bindings);
            VisitRows(rows, v, buf) == VisitRows(rows, v, []).(state := buf + VisitRows(rows, v, []).state)
  {
    var v := Visitor(render, template, bindings);
    if rows != [] {
      var out := render(template, Context(bindings, rows[0])).out;
      assert v([], rows[0]).state == out && v(buf, rows[0]).state == buf + out by {
        assert [] + out == out;
      }
      VisitorAppends(rows[1..], render, template, bindings, buf + out);
      VisitorAppends(rows[1..], render, template, bindings, out);
      var rest := VisitRows(rows[1..], v, []).state;
      assert (buf + out) + rest == buf + (out + rest);
    } else {
      assert buf + [] == buf;
    }
  }

  /** The holes a request renders; none when they cannot be read. */
  function HoleList(e: Engine, site: Site, a: Ask): seq<Holes.Hole> {
    match HolesOf(e, site, a)
    case Some(Holes(holes)) => holes
    case _ => []
  }

  /** Through a coherent row cache a hole writes what it renders now. */
  lemma {:induction false} HoleTransparent(e: Engine, asked: iset<string>, st: CacheState, db: Database, h: Holes.Hole, bindings: seq<Param>, tick: nat -> nat, i: nat, buf: bytes)
    requires Coherent(e.query, e.run, asked, db, st.items) && HoleOk(e, db, asked, h, bindings)
    ensures var (written, err, st') := HoleStep(e, st, db, h, bindings, tick, i, buf);
            && written == buf + RenderHole(e, db, h, bindings).out && err == RenderHole(e, db, h, bindings).err
            && Coherent(e.query, e.run, asked, db, st'.items) && st'.stats == st.stats
  {
    hide Coherent, AllPlain, QueryStep, Undisturbed;
    if h.sql != "" {
      var v := Visitor(e.render, h.template, bindings);
      UndisturbedIff(e.run(db, h.sql).rows, e.render, h.template, bindings, buf);
      QueryTransparent(e.query, e.run, asked, db, st, h.sql, v, buf, tick(2 * i), tick(2 * i + 1));
      VisitorAppends(e.run(db, h.sql).rows, e.render, h.template, bindings, buf);
    }
  }

  lemma {:induction false} ComposeFromTransparent(e: Engine, asked: iset<string>, st: CacheState, db: Database, memory: bytes, len: nat,
    holes: seq<Holes.Hole>, bindings: seq<Param>, tick: nat -> nat, i: nat, cursor: nat, buf: bytes)
    requires i <= |holes| && cursor <= |memory| && len <= |memory|
    requires Coherent(e.query, e.run, asked, db, st.items) && HolesOk(e, db, asked, holes, bindings)
    ensures var (composed, st') := ComposeFrom(e, st, db, memory, len, holes, bindings, tick, i, cursor, buf);
            && composed == Assemble(memory, len, Positions(holes), Renderings(e, db, holes, bindings), i, cursor, buf)
            && Coherent(e.query, e.run, asked, db, st'.items) && st'.stats == st.stats
    decreases |holes| - i
  {
    hide Coherent, HoleOk, HoleStep, RenderHole;
    if i < |holes| && cursor <= holes[i].position <= |memory| {
      var h := holes[i];
      var before := buf + memory[cursor..h.position];
      HoleTransparent(e, asked, st, db, h, bindings, tick, i, before);
      var (written, err, st') := HoleStep(e, st, db, h, bindings, tick, i, before);
      if err.None? {
        ComposeFromTransparent(e, asked, st', db, memory, len, holes, bindings, tick, i + 1, h.position, written);
      }
    }
  }

  /** Through a coherent row cache a page comes out as the current database makes it. */
  lemma {:induction false} ComposeTransparent(e: Engine, site: Site, asked: iset<string>, st: CacheState, db: Database, a: Ask, tick: nat -> nat)
    requires Coherent(e.query, e.run, asked, db, st.items) && HolesOk(e, db, asked, HoleList(e, site, a), a.bindings)
    ensures var (composed, st') := ComposeStep(e, site, st, db, a, tick);
            composed == ComposeNow(e, site, db, a) && Coherent(e.query, e.run, asked, db, st'.items) && st'.stats == st.stats
  {
    hide Coherent, HolesOk, ComposeFrom, Assemble;
    var slice, holes := BodySlice(a.manifest, a.entry), HolesOf(e, site, a);
    if slice.Some? && holes.Some? && holes.value.Holes? {
      ComposeFromTransparent(e, asked, st, db, slice.value.0, slice.value.1, holes.value.holes, a.bindings, tick, 0, 0, []);
    }
  }

  /* ---- the page cache ---- */

  datatype PageKey = PageKey(manifest: nat, off: nat, params: nat)

  datatype Body = Body(body: bytes, head: nat)

  datatype Variants = Variants(identity: Body, gzip: Body, brotli: Body)

  /** Which compressed encodings the client accepts. */
  datatype Accept = Accept(br: bool, gz: bool)

  datatype Response = Served(served: Body) | Failed(why: Composed)

  type Pages = seq<Item<PageKey, Variants>>

  function KeyOf(e: Engine, a: Ask): PageKey {
    PageKey(a.manifest.id, a.entry.holeOffset, BindingsHash(e.hash, a.bindings))
  }

  function VariantsOf(e: Engine, site: Site, body: bytes, head: nat): Variants {
    Variants(Body(body, head), Body(e.gzip(body), site.headGzip), Body(e.brotli(body), site.headBrotli))
  }

  /** Brotli before gzip before identity; an empty compressed body is not offered. */
  function Pick(v: Variants, accept: Accept): Body {
    if accept.br && |v.brotli.body| > 0 then v.brotli
    else if accept.gz && |v.gzip.body| > 0 then v.gzip
    else v.identity
  }

  /** A representation of a page, and whether the client takes it. */
  datatype Offer = Offer(taken: bool, body: Body)

  /** Brotli, gzip and identity in the order of preference; the page as it is can always be taken. */
  function Offers(e: Engine, site: Site, page: bytes, head: nat, accept: Accept): seq<Offer> {
    [Offer(accept.br && e.brotli(page) != [], Body(e.brotli(page), site.headBrotli)),
     Offer(accept.gz && e.gzip(page) != [], Body(e.gzip(page), site.headGzip)),
     Offer(true, Body(page, head))]
  }

  ghost predicate FirstTaken(offers: seq<Offer>, body: Body) {
    exists i :: 0 <= i < |offers| && offers[i] == Offer(true, body) && forall j :: 0 <= j < i ==> !offers[j].taken
  }

  /** A request is served the first representation that the client takes and that is not empty, with its own head. */
  lemma {:induction false} ServedFirstTaken(e: Engine, site: Site, page: bytes, head: nat, accept: Accept)
    ensures FirstTaken(Offers(e, site, page, head, accept), Pick(VariantsOf(e, site, page, head), accept))
  {
    var offers := Offers(e, site, page, head, accept);
    var i := if offers[0].taken then 0 else if offers[1].taken then 1 else 2;
    assert offers[i] == Offer(true, Pick(VariantsOf(e, site, page, head), accept));
  }

  function TextBytes(tables: seq<string>): nat {
    if tables == [] then 0 else TextBytes(tables[..|tables| - 1]) + |tables[|tables| - 1]|
  }

  function EntrySize(v: Variants, tables: seq<string>): nat {
    |v.identity.body| + |v.gzip.body| + |v.brotli.body| + TextBytes(tables)
  }

  function Joined(tables: seq<string>): string {
    if tables == [] then "" else tables[0] + Joined(tables[1..])
  }

  /** An entry weighs its three bodies and its table names together. */
  lemma {:induction false} EntrySizeIs(v: Variants, tables: seq<string>)
    ensures EntrySize(v, tables) == |v.identity.body + v.gzip.body + v.brotli.body| + |Joined(tables)|
  {
    JoinedSize(tables);
  }

  lemma {:induction false} JoinedSize(tables: seq<string>)
    ensures TextBytes(tables) == |Joined(tables)|
  {
    if tables != [] {
      JoinedSize(tables[1..]);
      FirstText(tables);
    }
  }

  lemma {:induction false} FirstText(tables: seq<string>)
    requires tables != []
    ensures TextBytes(tables) == |tables[0]| + TextBytes(tables[1..])
  {
    var k := |tables| - 1;
    if k > 0 {
      FirstText(tables[..k]);
      assert tables[..k][1..] == tables[1..][..k - 1];
    }
  }

  predicate Attributable(holes: seq<Holes.Hole>) {
    forall i :: 0 <= i < |holes| ==> holes[i].tables.Some?
  }

  function UnionFrom(seen: seq<string>, holes: seq<Holes.Hole>): seq<string>
    requires Attributable(holes)
    decreases |holes|
  {
    if holes == [] then seen else UnionFrom(AddNew(seen, holes[0].tables.value), holes[1..])
  }

  /** The tables of a page, None when some hole's SQL could not be attributed. */
  function PageTables(holes: seq<Holes.Hole>): Option<seq<string>> {
    if Attributable(holes) then Some(UnionFrom([], holes)) else None
  }

  ghost function AfterPagePut(e: Engine, pages: Pages, key: PageKey, v: Variants, tables: Option<seq<string>>): Pages {
    if tables.None? then pages
    else
      var item := Item(key, v, tables.value, EntrySize(v, tables.value));
      Trim([item] + DropKeys(pages, {key}), e.maxEntries, e.maxBytes)
  }

  ghost function AfterPageInvalidate(pages: Pages, table: string): Pages {
    if table == "" then [] else DropReaders(pages, table)
  }

  /** composeHoleBodyCached: the response, the row cache and the page cache afterwards. */
  ghost function ServeStep(e: Engine, site: Site, st: CacheState, pages: Pages, db: Database,
    a: Ask, accept: Accept, tick: nat -> nat): (Response, CacheState, Pages)
  {
    var key := KeyOf(e, a);
    var at := Find(pages, key);
    if at.Some? then (Served(Pick(pages[at.value].val, accept)), st, Promote(pages, at.value))
    else
      var (composed, st') := ComposeStep(e, site, st, db, a, tick);
      if !composed.Page? then (Failed(composed), st', pages)
      else
        match CachedTables(site, a)
        case None => (Served(Body(composed.body, a.entry.head)), st', pages)
        case Some(tables) =>
          var v := VariantsOf(e, site, composed.body, a.entry.head);
          (Served(Pick(v, accept)), st', AfterPagePut(e, pages, key, v, Some(tables)))
  }

  /** The tables a request's page would be cached under, None when it is not cached. */
  function CachedTables(site: Site, a: Ask): Option<seq<string>> {
    var at := (a.manifest.id, a.entry.holeOffset);
    if at in site.holeCache then PageTables(site.holeCache[at]) else None
  }

  /** What a request is due: a function of the database, the request, and nothing cached. */
  function ServeNow(e: Engine, site: Site, db: Database, a: Ask, accept: Accept): Response {
    match ComposeNow(e, site, db, a)
    case Page(body) =>
      if CachedTables(site, a).Some? then Served(Pick(VariantsOf(e, site, body, a.entry.head), accept))
      else Served(Body(body, a.entry.head))
    case failed => Failed(failed)
  }

  /* ---- the union of tables ---- */

  /** The union has every table of every hole, and no other, once. */
  lemma {:induction false} UnionIs(seen: seq<string>, holes: seq<Holes.Hole>)
    requires Attributable(holes) && Distinct(seen)
    ensures var all := UnionFrom(seen, holes);
            && seen <= all && Distinct(all)
            && forall t :: t in all <==> t in seen || exists i :: 0 <= i < |holes| && t in holes[i].tables.value
    decreases |holes|
  {
    if holes != [] {
      var more := AddNew(seen, holes[0].tables.value);
      AddNewIs(seen, holes[0].tables.value);
      UnionIs(more, holes[1..]);
      forall t ensures t in UnionFrom(seen, holes) <==> t in seen || exists i :: 0 <= i < |holes| && t in holes[i].tables.value {
        if i :| 0 <= i < |holes| && t in holes[i].tables.value {
          if i > 0 {
            assert holes[1..][i - 1] == holes[i];
          }
        }
        if i :| 0 <= i < |holes[1..]| && t in holes[1..][i].tables.value {
          assert holes[i + 1] == holes[1..][i];
        }
      }
    }
  }

  /** The table lists of all holes, one after the other. */
  function AllTables(holes: seq<Holes.Hole>): seq<string>
    requires Attributable(holes)
    decreases |holes|
  {
    if holes == [] then [] else holes[0].tables.value + AllTables(holes[1..])
  }

  /** The union keeps the first use of every name, in order. */
  lemma {:induction false} UnionInOrder(seen: seq<string>, holes: seq<Holes.Hole>)
    requires Attributable(holes)
    ensures UnionFrom(seen, holes) == AddNew(seen, AllTables(holes))
    decreases |holes|
  {
    if holes != [] {
      UnionInOrder(AddNew(seen, holes[0].tables.value), holes[1..]);
      AddNewAppend(seen, holes[0].tables.value, AllTables(holes[1..]));
    }
  }

  /* ---- transparency ---- */

  /** Holes as loading stores them: tables are those attributed to the SQL. */
  ghost predicate HolesAttributed(e: Engine, site: Site) {
    forall k :: k in site.holeCache ==> ListAttributed(e, site.holeCache[k])
  }

  ghost predicate ListAttributed(e: Engine, holes: seq<Holes.Hole>) {
    forall i :: 0 <= i < |holes| ==>
      holes[i].tables == if holes[i].sql == "" then Some([]) else e.query.attribute(holes[i].sql)
  }

  /** Reading a blob attributes its holes so. */
  lemma {:induction false} ReadAttributes(e: Engine, blob: bytes, pos: nat, n: nat)
    ensures var r := Holes.ReadFrom(blob, pos, n, e.parses, e.query.attribute);
            r.Holes? ==> ListAttributed(e, r.holes)
    decreases n
  {
    if n > 0 && Holes.RecordAt(blob, pos).Some? {
      var (raw, next) := Holes.RecordAt(blob, pos).value;
      ReadAttributes(e, blob, next, n - 1);
      assert raw.sql != [] ==> |Holes.Text(raw.sql)| > 0;
    }
  }

  /** One hole offset belongs to one route of a manifest. */
  ghost predicate OneRoute(asks: iset<Ask>) {
    forall a, b :: a in asks && b in asks && SameRoute(a, b) ==> a.manifest == b.manifest && a.entry == b.entry
  }

  predicate SameRoute(a: Ask, b: Ask) {
    a.manifest.id == b.manifest.id && a.entry.holeOffset == b.entry.holeOffset
  }

  /** Requests that share a cache key ask for the same page: the hash tells the bindings of one route apart. */
  ghost predicate ToldApart(e: Engine, asks: iset<Ask>) {
    && OneRoute(asks)
    && (forall a, b :: a in asks && b in asks && SameRoute(a, b) && BindingsHash(e.hash, a.bindings) == BindingsHash(e.hash, b.bindings)
          ==> a.bindings == b.bindings)
  }

  /** The requests of a route capture the same names, and no value holds the byte that ends a binding. */
  ghost predicate PlainAsks(asks: iset<Ask>) {
    && (forall a, b :: a in asks && b in asks && SameRoute(a, b) ==> NamesOf(a.bindings) == NamesOf(b.bindings))
    && (forall a :: a in asks ==> PlainValues(a.bindings))
  }

  /** The hash is injective on the texts written for these requests. */
  ghost predicate HashTells(e: Engine, asks: iset<Ask>) {
    forall a, b :: a in asks && b in asks && e.hash(HashedText(a.bindings)) == e.hash(HashedText(b.bindings))
      ==> HashedText(a.bindings) == HashedText(b.bindings)
  }

  lemma {:induction false} InjectiveHashTells(e: Engine, asks: iset<Ask>)
    requires forall s, t :: e.hash(s) == e.hash(t) ==> s == t
    ensures HashTells(e, asks)
  {
    hide HashedText;
  }

  /** A hash without collisions tells requests apart whose values lack the terminator. */
  lemma {:induction false} PlainAsksToldApart(e: Engine, asks: iset<Ask>)
    requires OneRoute(asks) && PlainAsks(asks) && HashTells(e, asks)
    ensures ToldApart(e, asks)
  {
    hide HashedText, NamesOf, PlainValues;
    forall a, b | a in asks && b in asks && SameRoute(a, b) && BindingsHash(e.hash, a.bindings) == BindingsHash(e.hash, b.bindings)
      ensures a.bindings == b.bindings
    {
      assert |NamesOf(a.bindings)| == |a.bindings| && |NamesOf(b.bindings)| == |b.bindings|;
      if a.bindings != [] {
        PlainTextsDiffer(a.bindings, b.bindings);
      }
    }
  }

  /** A request routed by a pattern, over a path without the byte 0. */
  ghost predicate RoutedBy(p: Pattern, a: Ask) {
    exists segs: seq<string> :: Matches(p, segs) && a.bindings == Bindings(p, segs) && NoNul(segs)
  }

  ghost predicate NoNul(segs: seq<string>) {
    forall i :: 0 <= i < |segs| ==> '\0' !in segs[i]
  }

  /** What the routing table says of a key. */
  datatype RouteInfo = RouteInfo(manifest: Manifest, entry: Entry, pattern: Pattern)

  /**
   Requests that a table of routes gives their manifest, entry and pattern,
   over such paths, are told apart by a hash without collisions.
   */
  lemma {:induction false} RoutedAsksToldApart(e: Engine, asks: iset<Ask>, routeOf: (nat, nat) -> RouteInfo)
    requires HashTells(e, asks)
    requires forall a :: a in asks ==>
               var info := routeOf(a.manifest.id, a.entry.holeOffset);
               a.manifest == info.manifest && a.entry == info.entry && RoutedBy(info.pattern, a)
    ensures ToldApart(e, asks)
  {
    hide PlainValues, NamesOf, HashTells;
    forall a | a in asks
      ensures NamesOf(a.bindings) == CaptureNames(routeOf(a.manifest.id, a.entry.holeOffset).pattern) && PlainValues(a.bindings)
    {
      var p := routeOf(a.manifest.id, a.entry.holeOffset).pattern;
      var segs: seq<string> :| Matches(p, segs) && a.bindings == Bindings(p, segs) && NoNul(segs);
      BindingNames(p, segs);
      PlainCaptures(p, segs);
    }
    PlainAsksToldApart(e, asks);
  }

  /** Captures of a path without the byte 0 lack it. */
  lemma {:induction false} PlainCaptures(p: Pattern, segs: seq<string>)
    requires Matches(p, segs) && NoNul(segs)
    ensures PlainValues(Bindings(p, segs))
  {
    if p != [] {
      if p[0].Rest? {
        JoinPlain(segs);
      } else {
        PlainCaptures(p[1..], segs[1..]);
      }
    }
  }

  lemma {:induction false} JoinPlain(segs: seq<string>)
    requires NoNul(segs)
    ensures '\0' !in Paths.Join(segs)
  {
    if |segs| > 1 {
      JoinPlain(segs[1..]);
    }
  }

  /** No hash does when one value may: on the route ":a/:b" these two requests share their key. */
  lemma {:induction false} NulSharesKey(e: Engine, m: Manifest, entry: Entry)
    ensures var p, s, t := [Par("a"), Par("b")], Paths.SplitPath("/x\0b=y/z"), Paths.SplitPath("/x/y\0b=z");
            && Matches(p, s) && Matches(p, t)
            && var a, b := Ask(m, entry, Bindings(p, s)), Ask(m, entry, Bindings(p, t));
               && a != b && KeyOf(e, a) == KeyOf(e, b)
               && forall asks :: a in asks && b in asks ==> !ToldApart(e, asks)
  {
    hide HashedText, Paths.SplitPath;
    TwoPathsOneText();
    var a, b := Ask(m, entry, [Param("a", "x\0b=y"), Param("b", "z")]), Ask(m, entry, [Param("a", "x"), Param("b", "y\0b=z")]);
    assert |a.bindings[0].value| > |b.bindings[0].value|;
    assert KeyOf(e, a) == KeyOf(e, b);
  }

  /** The statements of a request's parsed holes are among these. */
  ghost predicate Stated(site: Site, a: Ask, sqls: iset<string>) {
    var at := (a.manifest.id, a.entry.holeOffset);
    at in site.holeCache ==>
      var holes := site.holeCache[at];
      forall i :: 0 <= i < |holes| && holes[i].sql != "" ==> holes[i].sql in sqls
  }

  lemma {:induction false} OkIsStated(e: Engine, site: Site, db: Database, a: Ask, sqls: iset<string>)
    requires HolesOk(e, db, sqls, HoleList(e, site, a), a.bindings)
    ensures Stated(site, a, sqls)
  {
    var at := (a.manifest.id, a.entry.holeOffset);
    if at in site.holeCache {
      assert HoleList(e, site, a) == site.holeCache[at];
      forall i | 0 <= i < |site.holeCache[at]| && site.holeCache[at][i].sql != "" ensures site.holeCache[at][i].sql in sqls {
        assert HoleOk(e, db, sqls, site.holeCache[at][i], a.bindings);
      }
    }
  }

  /** A cached page that every request under its key would be served from scratch now. */
  ghost predicate FreshPage(e: Engine, site: Site, db: Database, asks: iset<Ask>, sqls: iset<string>, item: Item<PageKey, Variants>) {
    forall a :: a in asks && KeyOf(e, a) == item.key ==>
      && CachedTables(site, a) == Some(item.tables)
      && Stated(site, a, sqls)
      && ComposeNow(e, site, db, a).Page?
      && item.val == VariantsOf(e, site, ComposeNow(e, site, db, a).body, a.entry.head)
  }

  ghost predicate FreshPages(e: Engine, site: Site, db: Database, asks: iset<Ask>, sqls: iset<string>, pages: Pages) {
    forall i :: 0 <= i < |pages| ==> FreshPage(e, site, db, asks, sqls, pages[i])
  }

  lemma {:induction false} FreshSubset(e: Engine, site: Site, db: Database, asks: iset<Ask>, sqls: iset<string>, pages: Pages, fewer: Pages)
    requires FreshPages(e, site, db, asks, sqls, pages)
    requires forall i :: 0 <= i < |fewer| ==> fewer[i] in pages
    ensures FreshPages(e, site, db, asks, sqls, fewer)
  {
  }

  lemma {:induction false} SameKeySameAsk(e: Engine, asks: iset<Ask>, a: Ask, b: Ask)
    requires ToldApart(e, asks) && a in asks && b in asks && KeyOf(e, a) == KeyOf(e, b)
    ensures a == b
  {
  }

  lemma {:induction false} PutKeepsFresh(e: Engine, site: Site, db: Database, asks: iset<Ask>, sqls: iset<string>, pages: Pages, a: Ask)
    requires FreshPages(e, site, db, asks, sqls, pages) && ToldApart(e, asks) && a in asks
    requires CachedTables(site, a).Some? && ComposeNow(e, site, db, a).Page? && Stated(site, a, sqls)
    ensures var v := VariantsOf(e, site, ComposeNow(e, site, db, a).body, a.entry.head);
            FreshPages(e, site, db, asks, sqls, AfterPagePut(e, pages, KeyOf(e, a), v, CachedTables(site, a)))
  {
    hide ToldApart, ComposeNow, CachedTables, VariantsOf, Stated;
    var key, tables := KeyOf(e, a), CachedTables(site, a).value;
    var v := VariantsOf(e, site, ComposeNow(e, site, db, a).body, a.entry.head);
    var item := Item(key, v, tables, EntrySize(v, tables));
    forall b | b in asks && KeyOf(e, b) == key ensures b == a {
      SameKeySameAsk(e, asks, a, b);
    }
    assert FreshPage(e, site, db, asks, sqls, item);
    var kept := DropKeys(pages, {key});
    forall i | 0 <= i < |kept| ensures kept[i] in pages {
      DropKeysKeeps(pages, {key}, kept[i]);
    }
    FreshSubset(e, site, db, asks, sqls, pages, kept);
    var all := [item] + kept;
    TrimIsLongestFit(all, e.maxEntries, e.maxBytes);
    FreshSubset(e, site, db, asks, sqls, all, Trim(all, e.maxEntries, e.maxBytes));
  }

  /**
   A request through both caches is served what the current database, its
   bindings and its accepted encodings call for, and both caches stay fresh.
   */
  lemma {:induction false} ServeTransparent(e: Engine, site: Site, st: CacheState, pages: Pages, db: Database, asks: iset<Ask>, sqls: iset<string>,
    a: Ask, accept: Accept, tick: nat -> nat)
    requires Coherent(e.query, e.run, sqls, db, st.items) && HolesOk(e, db, sqls, HoleList(e, site, a), a.bindings)
    requires FreshPages(e, site, db, asks, sqls, pages) && ToldApart(e, asks) && a in asks
    ensures var (r, st', pages') := ServeStep(e, site, st, pages, db, a, accept, tick);
            && r == ServeNow(e, site, db, a, accept)
            && Coherent(e.query, e.run, sqls, db, st'.items) && FreshPages(e, site, db, asks, sqls, pages')
  {
    hide Coherent, HolesOk, ToldApart, FreshPages, ComposeStep, ComposeNow, CachedTables, Promote, AfterPagePut, HoleList, Stated;
    ComposeTransparent(e, site, sqls, st, db, a, tick);
    OkIsStated(e, site, db, a, sqls);
    var at := Find(pages, KeyOf(e, a));
    if at.Some? {
      HitIsFresh(e, site, db, asks, sqls, pages, at.value);
      PromoteMembers(pages, at.value);
      FreshSubset(e, site, db, asks, sqls, pages, Promote(pages, at.value));
    } else if CachedTables(site, a).Some? && ComposeNow(e, site, db, a).Page? {
      PutKeepsFresh(e, site, db, asks, sqls, pages, a);
    }
  }

  lemma {:induction false} HitIsFresh(e: Engine, site: Site, db: Database, asks: iset<Ask>, sqls: iset<string>, pages: Pages, i: nat)
    requires FreshPages(e, site, db, asks, sqls, pages) && i < |pages|
    ensures FreshPage(e, site, db, asks, sqls, pages[i])
  {
  }

  /** A page that does not read a table does not change when that table alone does. */
  lemma {:induction false} UnreadTable(e: Engine, site: Site, db: Database, db': Database, a: Ask, sqls: iset<string>, table: string)
    requires Attributed(e.query.attribute, e.run, sqls) && HolesAttributed(e, site) && Stated(site, a, sqls)
    requires CachedTables(site, a).Some? && table !in CachedTables(site, a).value
    requires forall t :: t != table ==> SameTable(db, db', t)
    ensures ComposeNow(e, site, db, a) == ComposeNow(e, site, db', a)
  {
    hide Assemble, BodySlice;
    var holes := site.holeCache[(a.manifest.id, a.entry.holeOffset)];
    UnionIs([], holes);
    assert ListAttributed(e, holes);
    forall i | 0 <= i < |holes|
      ensures RenderHole(e, db, holes[i], a.bindings) == RenderHole(e, db', holes[i], a.bindings)
    {
      if holes[i].sql != "" {
        assert holes[i].tables == e.query.attribute(holes[i].sql);
        assert SameTables(db, db', holes[i].tables.value);
      }
    }
    assert Renderings(e, db, holes, a.bindings) == Renderings(e, db', holes, a.bindings);
  }

  /** After a write and its notification the surviving pages are fresh for the new database. */
  lemma {:induction false} WriteKeepsFresh(e: Engine, site: Site, db: Database, db': Database, asks: iset<Ask>, sqls: iset<string>, pages: Pages, table: string)
    requires Attributed(e.query.attribute, e.run, sqls) && HolesAttributed(e, site)
    requires FreshPages(e, site, db, asks, sqls, pages)
    requires forall t :: t != table ==> SameTable(db, db', t)
    ensures FreshPages(e, site, db', asks, sqls, AfterPageInvalidate(pages, table))
  {
    hide Attributed, HolesAttributed, ComposeNow, CachedTables, SameTable, VariantsOf, Stated;
    if table != "" {
      var kept := DropReaders(pages, table);
      forall i | 0 <= i < |kept| ensures FreshPage(e, site, db', asks, sqls, kept[i]) {
        DropReadersKeeps(pages, table, kept[i]);
        assert FreshPage(e, site, db, asks, sqls, kept[i]);
        forall a | a in asks && KeyOf(e, a) == kept[i].key
          ensures ComposeNow(e, site, db', a) == ComposeNow(e, site, db, a)
        {
          UnreadTable(e, site, db, db', a, sqls, table);
        }
      }
    }
  }

  /* ---- where the assumptions are needed ---- */

  /**
   A shared key serves the first page to both: once a's page is stored, any
   request b under the same key is given it, so b is served rightly exactly
   when a's page is what b is due.
   */
  lemma {:induction false} SharedKeyServesFirst(e: Engine, site: Site, sqls: iset<string>, st: CacheState, before: Pages, db: Database, a: Ask, b: Ask, accept: Accept, tick: nat -> nat)
    requires Coherent(e.query, e.run, sqls, db, st.items) && HolesOk(e, db, sqls, HoleList(e, site, a), a.bindings)
    requires Find(before, KeyOf(e, a)).None?
    requires KeyOf(e, a) == KeyOf(e, b) && CachedTables(site, a).Some? && ComposeNow(e, site, db, a).Page?
    requires var v := VariantsOf(e, site, ComposeNow(e, site, db, a).body, a.entry.head);
             e.maxEntries >= 1 && EntrySize(v, CachedTables(site, a).value) <= e.maxBytes
    ensures var (_, st', pages) := ServeStep(e, site, st, before, db, a, accept, tick);
            ServeStep(e, site, st', pages, db, b, accept, tick).0 == ServeNow(e, site, db, a, accept)
  {
    hide Coherent, HolesOk, ComposeStep, ComposeNow, CachedTables, HoleList, Trim, DropKeys, EntrySize, VariantsOf, KeyOf, Find;
    ComposeTransparent(e, site, sqls, st, db, a, tick);
    var v := VariantsOf(e, site, ComposeNow(e, site, db, a).body, a.entry.head);
    var tables := CachedTables(site, a).value;
    NewestStays(Item(KeyOf(e, a), v, tables, EntrySize(v, tables)), before, e.maxEntries, e.maxBytes);
  }
}

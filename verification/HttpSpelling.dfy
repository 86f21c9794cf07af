/**
 The request heads a parser accepts, byte for byte: a buffer parses to a request
 exactly when it starts with one of the spellings of that request. Line ends,
 the blanks around header values and nothing else may vary.
 */
module HttpSpelling {
  import opened Options
  import opened HttpBytes
  import opened HttpGrammar
  import opened HttpFraming
  import opened HttpPrinting

  /** A line and what ends it. */
  datatype RawLine = RawLine(text: bytes, eol: bytes)

  /** The first line, the header lines, and the empty line's end. */
  datatype RawHead = RawHead(first: RawLine, fields: seq<RawLine>, end: bytes)

  /** CRLF, or a bare LF where no CR stands before it. */
  predicate Ended(l: RawLine) {
    Lacks(l.text, LF) && (l.eol == CRLF || (l.eol == [LF] && (l.text == [] || l.text[|l.text| - 1] != CR)))
  }

  function AllLines(lines: seq<RawLine>): bytes {
    if lines == [] then [] else lines[0].text + lines[0].eol + AllLines(lines[1..])
  }

  function HeadBytes(h: RawHead): bytes {
    h.first.text + h.first.eol + (AllLines(h.fields) + h.end)
  }

  ghost predicate SpellsHeaders(fields: seq<RawLine>, headers: seq<Header>) {
    |fields| == |headers| && forall i :: 0 <= i < |fields| ==> Ended(fields[i]) && SpellsHeader(fields[i].text, headers[i])
  }

  ghost predicate Spells(h: RawHead, r: Request) {
    && r.major < 10 && r.minor < 10 && h.first.text == PrintRequestLine(r) && Ended(h.first)
    && SpellsHeaders(h.fields, r.headers)
    && (h.end == CRLF || h.end == [LF])
  }

  ghost predicate InLimits(h: RawHead) {
    |h.first.text| <= 8192 && |h.fields| <= 32 && |AllLines(h.fields)| <= 65536
  }

  /* ---- one line ---- */

  lemma {:induction false} EolOfLine(l: RawLine, rest: bytes)
    requires Ended(l)
    ensures FindEol(l.text + l.eol + rest) == Eol(|l.text|, |l.eol|)
  {
    if l.eol == CRLF {
      FindEolOfLine(l.text, rest);
    } else {
      var b := l.text + l.eol + rest;
      assert b[|l.text|] == LF;
      assert forall j :: 0 <= j < |l.text| ==> b[j] == l.text[j];
    }
  }

  /** The line at the front of a buffer, as the parser cuts it. */
  lemma {:induction false} LineCut(b: bytes) returns (l: RawLine)
    requires FindEol(b).Eol?
    ensures Ended(l) && l.text == b[..FindEol(b).at] && |l.eol| == FindEol(b).skip
    ensures FindEol(b).at + FindEol(b).skip <= |b| && l.text + l.eol == b[..FindEol(b).at + FindEol(b).skip]
  {
    hide FindEol;
    var e := FindEol(b);
    l := RawLine(b[..e.at], b[e.at..e.at + e.skip]);
    assert e.skip == 2 ==> l.eol == CRLF;
    assert e.skip == 1 ==> l.eol == [LF];
  }

  lemma {:induction false} BlankEnds(b: bytes)
    requires AllBlank(b) && b != []
    ensures IsBlank(b[0]) && AllBlank(b[1..]) && IsBlank(b[|b| - 1]) && AllBlank(b[..|b| - 1])
  {
  }

  lemma {:induction false} TrimsLeft(left: bytes, rest: bytes)
    requires AllBlank(left) && (rest != [] ==> !IsBlank(rest[0]))
    ensures TrimLeft(left + rest) == rest
  {
    hide AllBlank, IsBlank, TrimLeft, TrimRight;
    if left == [] {
      assert left + rest == rest;
    } else {
      BlankEnds(left);
      TrimsLeft(left[1..], rest);
      JoinedFront(left, rest);
    }
  }

  lemma {:induction false} TrimsRight(rest: bytes, right: bytes)
    requires AllBlank(right) && (rest != [] ==> !IsBlank(rest[|rest| - 1]))
    ensures TrimRight(rest + right) == rest
  {
    hide AllBlank, IsBlank, TrimLeft, TrimRight;
    if right == [] {
      assert rest + right == rest;
    } else {
      BlankEnds(right);
      TrimsRight(rest, right[..|right| - 1]);
      JoinedEnds(rest, right);
    }
  }

  lemma {:induction false} JoinedEnds(a: bytes, b: bytes)
    requires b != []
    ensures a + b != [] && (a + b)[|a + b| - 1] == b[|b| - 1] && (a + b)[..|a + b| - 1] == a + b[..|b| - 1]
  {
  }

  lemma {:induction false} JoinedFront(a: bytes, b: bytes)
    requires a != []
    ensures a + b != [] && (a + b)[0] == a[0] && (a + b)[1..] == a[1..] + b
  {
  }

  lemma {:induction false} TrimsToValue(left: bytes, value: bytes, right: bytes)
    requires AllBlank(left) && AllBlank(right)
    requires value != [] ==> !IsBlank(value[0]) && !IsBlank(value[|value| - 1])
    ensures TrimRight(TrimLeft(left + value + right)) == value
  {
    if value == [] {
      var none: bytes := [];
      assert left + value + right == (left + right) + none;
      TrimsLeft(left + right, none);
    } else {
      assert left + value + right == left + (value + right);
      TrimsLeft(left, value + right);
      TrimsRight(value, right);
    }
  }

  /** The name of a header line ends at its first colon. */
  lemma {:induction false} ColonSplits(name: bytes, after: bytes)
    requires IsName(name)
    ensures var line := name + [COLON] + after;
            IndexByte(line, COLON) == |name| && line[..|name|] == name && line[|name| + 1..] == after
  {
    var line := name + [COLON] + after;
    assert line[|name|] == COLON;
    forall j | 0 <= j < |name| ensures line[j] != COLON {
      assert line[j] == name[j] && IsToken(name[j]);
    }
  }

  lemma {:induction false} HeaderParses(text: bytes, h: Header, st: HeadState)
    requires HeaderOk(h) && SpellsHeader(text, h)
    ensures ParseHeader(text, st) == AddHeader(st, h)
  {
    hide AddHeader, TrimLeft, TrimRight, IndexByte;
    var left, right :| AllBlank(left) && AllBlank(right) && text == h.name + [COLON] + (left + h.value + right);
    ColonSplits(h.name, left + h.value + right);
    TrimsToValue(left, h.value, right);
  }

  lemma {:induction false} HeaderIsLine(text: bytes, h: Header)
    requires HeaderOk(h) && SpellsHeader(text, h)
    ensures text != [] && text[0] != CR && text[0] != LF && !IsBlank(text[0])
  {
    assert text[0] == h.name[0] && IsToken(h.name[0]);
  }

  /* ---- spelled heads parse ---- */

  /** A spelled header line is one turn of the header loop. */
  lemma {:induction false} LineTurn(buf: bytes, start: nat, pos: nat, st: HeadState, l: RawLine, h: Header, tail: bytes)
    requires start <= pos <= |buf| && pos - start <= MAX_HEADER_BYTES
    requires Ended(l) && HeaderOk(h) && SpellsHeader(l.text, h) && |st.req.headers| < MAX_HEADERS
    requires buf[pos..] == l.text + l.eol + tail
    ensures TurnAt(buf, start, pos, st) == Line(l.text, pos + |l.text| + |l.eol|)
    ensures buf[pos + |l.text| + |l.eol|..] == tail
  {
    hide HeaderOk, FindEol, SpellsHeader;
    HeaderIsLine(l.text, h);
    EolOfLine(l, tail);
    var b := buf[pos..];
    assert buf[pos] == b[0] == l.text[0];
    assert buf[pos..pos + |l.text|] == b[..|l.text|] == l.text;
    assert buf[pos + |l.text| + |l.eol|..] == b[|l.text| + |l.eol|..] == tail;
  }

  /** The empty line ends the head. */
  lemma {:induction false} EndTurn(buf: bytes, start: nat, pos: nat, st: HeadState, end: bytes, tail: bytes)
    requires start <= pos <= |buf| && pos - start <= MAX_HEADER_BYTES
    requires buf[pos..] == end + tail && (end == CRLF || end == [LF])
    ensures TurnAt(buf, start, pos, st) == Stop(Finish(st, pos + |end|))
  {
    assert buf[pos] == buf[pos..][0];
    assert end == CRLF ==> buf[pos + 1] == buf[pos..][1];
  }

  lemma {:induction false} LinesUnfold(fields: seq<RawLine>, end: bytes, tail: bytes)
    ensures fields == [] ==> AllLines(fields) == [] && AllLines(fields) + end + tail == end + tail
    ensures fields != [] ==>
              && AllLines(fields) + end + tail == fields[0].text + fields[0].eol + (AllLines(fields[1..]) + end + tail)
              && |AllLines(fields)| == |fields[0].text| + |fields[0].eol| + |AllLines(fields[1..])|
  {
  }

  lemma {:induction false} SpelledRest(fields: seq<RawLine>, hs: seq<Header>)
    requires SpellsHeaders(fields, hs) && HeadersOk(hs) && fields != []
    ensures SpellsHeaders(fields[1..], hs[1..]) && HeadersOk(hs[1..])
    ensures Ended(fields[0]) && SpellsHeader(fields[0].text, hs[0]) && HeaderOk(hs[0])
  {
    hide Ended, SpellsHeader, HeaderOk;
  }

  /** Spelled headers are read back one by one, as long as the whole list is legal. */
  lemma {:induction false} FieldsParse(buf: bytes, start: nat, pos: nat, st: HeadState, fields: seq<RawLine>, hs: seq<Header>, end: bytes, tail: bytes)
    requires start <= pos <= |buf| && pos - start + |AllLines(fields)| <= MAX_HEADER_BYTES
    requires buf[pos..] == AllLines(fields) + end + tail && (end == CRLF || end == [LF])
    requires SpellsHeaders(fields, hs) && HeadersOk(hs) && |st.req.headers| + |hs| <= MAX_HEADERS
    requires Faithful(st) && FramingOf(st.req.headers + hs).Some?
    ensures var p := ParseHeaders(buf, start, pos, st);
            p.Done? && p.n == pos + |AllLines(fields)| + |end| && p.req.headers == st.req.headers + hs
    decreases |fields|
  {
    hide Faithful, FramingOf, FramingLegal, AddHeader, TurnAt, HeaderOk, ParseHeader, AllLines, Ended, SpellsHeader, HeadersOk;
    LinesUnfold(fields, end, tail);
    if fields == [] {
      assert st.req.headers + hs == st.req.headers;
      EndTurn(buf, start, pos, st, end, tail);
      LegalEnd(st);
    } else {
      hide SpellsHeaders;
      var l, h, rest := fields[0], hs[0], hs[1..];
      SpelledRest(fields, hs);
      LineTurn(buf, start, pos, st, l, h, AllLines(fields[1..]) + end + tail);
      HeaderParses(l.text, h, st);
      assert st.req.headers + hs == (st.req.headers + [h]) + rest;
      LegalPrefix(st.req.headers + [h], rest);
      AddHeaderFaithful(st, h);
      FieldsParse(buf, start, pos + |l.text| + |l.eol|, AddHeader(st, h).value, fields[1..], rest, end, tail);
    }
  }

  lemma {:induction false} LegalEnd(st: HeadState)
    requires Faithful(st) && FramingOf(st.req.headers).Some?
    ensures !(st.hasCL && st.hasTE)
  {
  }

  lemma {:induction false} ValuesPrefix(hs: seq<Header>, more: seq<Header>, name: bytes)
    ensures Values(hs, name) <= Values(hs + more, name)
  {
    if more == [] {
      assert hs + more == hs;
    } else {
      var n := |more| - 1;
      ValuesPrefix(hs, more[..n], name);
      assert (hs + more)[..|hs| + n] == hs + more[..n];
    }
  }

  /** Legal framing of a list is legal framing of its prefixes. */
  lemma {:induction false} LegalPrefix(hs: seq<Header>, more: seq<Header>)
    requires FramingOf(hs + more).Some?
    ensures FramingLegal(hs)
  {
    hide Values, EqFold, Decimal;
    ValuesPrefix(hs, more, CONTENT_LENGTH);
    ValuesPrefix(hs, more, TRANSFER_ENCODING);
  }

  lemma {:induction false} AsMany(fields: seq<RawLine>, hs: seq<Header>)
    requires SpellsHeaders(fields, hs)
    ensures |fields| == |hs|
  {
  }

  lemma {:induction false} SpelledParses(h: RawHead, r: Request, rest: bytes)
    requires WellFormed(r) && Spells(h, r) && InLimits(h)
    ensures Parse(HeadBytes(h) + rest) == Done(|HeadBytes(h)|, r)
  {
    hide ParseRequestLine, PrintRequestLine, ParseHeaders, AllLines, FindEol, TargetOk, HeadersOk, FramingOf, HostOf, KeepAliveOf, Faithful, SpellsHeaders, Ended;
    var line, after := h.first.text, AllLines(h.fields) + h.end + rest;
    var buf := HeadBytes(h) + rest;
    var pos := |line| + |h.first.eol|;
    assert buf == line + h.first.eol + after;
    AsMany(h.fields, r.headers);
    RequestLineParses(r);
    EolOfLine(h.first, after);
    assert buf[..|line|] == line && buf[pos..] == after;
    var st := HeadState(ParseRequestLine(line).value, false, false);
    RequestLineFaithful(line);
    assert [] + r.headers == r.headers;
    FieldsParse(buf, pos, pos, st, h.fields, r.headers, h.end, rest);
    HeadersFaithful(buf, pos, pos, st);
  }

  /* ---- accepted heads are spelled ---- */

  lemma {:induction false} EndCut(buf: bytes, start: nat, pos: nat, st: HeadState) returns (end: bytes)
    requires start <= pos <= |buf| && TurnAt(buf, start, pos, st).Stop? && TurnAt(buf, start, pos, st).result.Done?
    ensures var p := TurnAt(buf, start, pos, st).result;
            && pos - start <= MAX_HEADER_BYTES && (end == CRLF || end == [LF]) && pos <= p.n <= |buf| && buf[pos..p.n] == end
            && p.req == st.req
  {
    end := buf[pos..TurnAt(buf, start, pos, st).result.n];
  }

  lemma {:induction false} TurnCut(buf: bytes, start: nat, pos: nat, st: HeadState) returns (l: RawLine)
    requires start <= pos <= |buf| && TurnAt(buf, start, pos, st).Line?
    ensures Ended(l) && l.text == TurnAt(buf, start, pos, st).line && |st.req.headers| < MAX_HEADERS
    ensures var after := TurnAt(buf, start, pos, st).after;
            after == pos + |l.text| + |l.eol| && after <= |buf| && buf[pos..after] == l.text + l.eol
  {
    hide Ended, FindEol;
    var b := buf[pos..];
    l := LineCut(b);
    assert buf[pos..pos + |l.text|] == b[..|l.text|];
    assert buf[pos..pos + |l.text| + |l.eol|] == b[..|l.text| + |l.eol|];
  }

  /** Header lines in front of a head that goes on. */
  lemma {:induction false} SpelledCons(l: RawLine, h: Header, fields: seq<RawLine>, hs: seq<Header>)
    requires Ended(l) && SpellsHeader(l.text, h) && SpellsHeaders(fields, hs)
    ensures SpellsHeaders([l] + fields, [h] + hs)
    ensures AllLines([l] + fields) == l.text + l.eol + AllLines(fields)
  {
    hide Ended, SpellsHeader;
  }

  lemma {:induction false} FieldsSpelled(buf: bytes, start: nat, pos: nat, st: HeadState) returns (fields: seq<RawLine>, hs: seq<Header>, end: bytes)
    requires start <= pos <= |buf| && ParseHeaders(buf, start, pos, st).Done?
    ensures var p := ParseHeaders(buf, start, pos, st);
            && pos <= p.n <= |buf| && buf[pos..p.n] == AllLines(fields) + end && (end == CRLF || end == [LF])
            && p.req.headers == st.req.headers + hs && SpellsHeaders(fields, hs)
            && pos - start + |AllLines(fields)| <= MAX_HEADER_BYTES
            && (|fields| > 0 ==> |st.req.headers| + |fields| <= MAX_HEADERS)
    decreases |buf| - pos
  {
    hide TurnAt, ParseHeader, Ended, SpellsHeader, AllLines, SpellsHeaders;
    var t := TurnAt(buf, start, pos, st);
    if t.Stop? {
      end := EndCut(buf, start, pos, st);
      fields, hs := [], [];
      NoLines();
      assert AllLines(fields) + end == end && st.req.headers + hs == st.req.headers;
    } else {
      var l := TurnCut(buf, start, pos, st);
      LineIsLine(l);
      HeaderAccepted(l.text, st);
      var next := ParseHeader(l.text, st).value;
      var h := next.req.headers[|next.req.headers| - 1];
      var more, rest;
      more, rest, end := FieldsSpelled(buf, start, t.after, next);
      fields, hs := [l] + more, [h] + rest;
      SpelledCons(l, h, more, rest);
      assert next.req.headers == st.req.headers + [h];
      assert st.req.headers + hs == next.req.headers + rest;
      JoinCut(buf, pos, t.after, ParseHeaders(buf, start, pos, st).n, l.text + l.eol, AllLines(more), end);
    }
  }

  lemma {:induction false} NoLines()
    ensures AllLines([]) == [] && SpellsHeaders([], [])
  {
  }

  lemma {:induction false} LineIsLine(l: RawLine)
    requires Ended(l)
    ensures Lacks(l.text, LF)
  {
  }

  lemma {:induction false} JoinCut(buf: bytes, lo: nat, mid: nat, hi: nat, a: bytes, b: bytes, c: bytes)
    requires lo <= mid <= hi <= |buf| && buf[lo..mid] == a && buf[mid..hi] == b + c
    ensures buf[lo..hi] == (a + b) + c && |a| == mid - lo
  {
    assert buf[lo..hi] == buf[lo..mid] + buf[mid..hi];
  }

  lemma {:induction false} SameLine(r: Request, s: Request)
    requires r.(headers := [], contentLength := -1, host := None, keepAlive := false) ==
             s.(headers := [], contentLength := -1, host := None, keepAlive := false)
    requires r.major < 10 && r.minor < 10
    ensures s.major < 10 && s.minor < 10 && PrintRequestLine(s) == PrintRequestLine(r)
  {
  }

  lemma {:induction false} ParsedIsSpelled(b: bytes) returns (h: RawHead)
    requires Parse(b).Done?
    ensures Parse(b).n <= |b| && HeadBytes(h) == b[..Parse(b).n] && Spells(h, Parse(b).req) && InLimits(h)
  {
    hide ParseRequestLine, ParseHeaders, FindEol, PrintRequestLine, Faithful, FramingOf, HostOf, KeepAliveOf, SpellsHeaders, AllLines, Ended;
    var e := FindEol(b);
    var first := LineCut(b);
    var req := ParseRequestLine(first.text).value;
    var pos, st := e.at + e.skip, HeadState(req, false, false);
    LineSpelled(first.text);
    RequestLineFaithful(first.text);
    HeadersFaithful(b, pos, pos, st);
    SameLine(req, Parse(b).req);
    var fields, hs, end := FieldsSpelled(b, pos, pos, st);
    NoHeadersYet(first.text);
    assert [] + hs == hs;
    h := RawHead(first, fields, end);
    JoinCut(b, 0, pos, Parse(b).n, first.text + first.eol, AllLines(fields), end);
    assert b[0..Parse(b).n] == b[..Parse(b).n];
    assert HeadBytes(h) == (first.text + first.eol + AllLines(fields)) + end;
  }

  lemma {:induction false} NoHeadersYet(line: bytes)
    requires ParseRequestLine(line).Ok?
    ensures ParseRequestLine(line).value.headers == []
  {
    hide IndexByte, MethodOf, VersionOk;
  }

  /**
   Exactly what is accepted: a buffer parses to a request and a length if and
   only if the request is well formed and that many first bytes are one of its
   spellings within the limits.
   */
  lemma {:induction false} ParsedIffSpelled(b: bytes, n: nat, r: Request)
    ensures Parse(b) == Done(n, r) <==>
              n <= |b| && WellFormed(r) && exists h :: Spells(h, r) && InLimits(h) && HeadBytes(h) == b[..n]
  {
    hide Parse, WellFormed, Spells, InLimits, HeadBytes;
    if Parse(b) == Done(n, r) {
      AcceptedIsWellFormed(b);
      var h := ParsedIsSpelled(b);
    }
    if n <= |b| && WellFormed(r) {
      if h :| Spells(h, r) && InLimits(h) && HeadBytes(h) == b[..n] {
        SpelledParses(h, r, b[n..]);
        assert b == b[..n] + b[n..];
      }
    }
  }
}

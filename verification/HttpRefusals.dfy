/**
 Which heads are refused, and with which status: request lines that are no
 request line, header lines that are no header line, lists of headers whose
 framing is illegal, and heads over the limits.
 */
module HttpRefusals {
  import opened HttpBytes
  import opened HttpGrammar
  import opened HttpFraming
  import opened HttpPrinting
  import opened HttpSpelling
  import opened HttpDecoder

  /** A header line is malformed exactly when it spells no header. */
  lemma {:induction false} HeaderMalformedIff(line: bytes, st: HeadState)
    requires Lacks(line, LF)
    ensures ParseHeader(line, st) == Err(Malformed) <==> !exists h :: HeaderOk(h) && SpellsHeader(line, h)
  {
    hide IndexByte, AddHeader, TrimLeft, TrimRight, HeaderOk, SpellsHeader, IsName;
    if h :| HeaderOk(h) && SpellsHeader(line, h) {
      HeaderParses(line, h, st);
      NotMalformed(st, h);
    }
    var colon := IndexByte(line, COLON);
    if colon > 0 && IsName(line[..colon]) {
      var raw := line[colon + 1..];
      var h := Header(line[..colon], TrimRight(TrimLeft(raw)));
      assert line == h.name + [COLON] + raw;
      Padded(h, raw);
      ValueTrimmed(raw);
      TrimmedOk(h);
      NotMalformed(st, h);
    }
  }

  lemma {:induction false} TrimmedOk(h: Header)
    requires IsName(h.name) && Lacks(h.value, LF)
    requires h.value != [] ==> !IsBlank(h.value[0]) && !IsBlank(h.value[|h.value| - 1])
    ensures HeaderOk(h)
  {
  }

  lemma {:induction false} NotMalformed(st: HeadState, h: Header)
    ensures AddHeader(st, h).Err? ==> AddHeader(st, h).error != Malformed && StatusFor(AddHeader(st, h).error) == 400
  {
    hide EqFold, Decimal;
  }

  /** What is neither within nor over the limit by its bytes is over it by its lines. */
  lemma {:induction false} CrowdedTurn(buf: bytes, start: nat, pos: nat, st: HeadState, l: RawLine, h: Header, tail: bytes)
    requires start <= pos <= |buf| && pos - start <= MAX_HEADER_BYTES
    requires Ended(l) && HeaderOk(h) && SpellsHeader(l.text, h) && |st.req.headers| >= MAX_HEADERS
    requires buf[pos..] == l.text + l.eol + tail
    ensures TurnAt(buf, start, pos, st) == Stop(Failed(TooManyHeaders, true))
  {
    hide HeaderOk, FindEol, SpellsHeader;
    HeaderIsLine(l.text, h);
    EolOfLine(l, tail);
    assert buf[pos] == buf[pos..][0] == l.text[0];
  }

  lemma {:induction false} TooLongTurn(buf: bytes, start: nat, pos: nat, st: HeadState)
    requires start <= pos <= |buf| && pos - start > MAX_HEADER_BYTES
    ensures TurnAt(buf, start, pos, st) == Stop(Failed(HeadersTooLong, true))
  {
  }

  lemma {:induction false} IllegalEnd(st: HeadState, n: nat)
    requires Faithful(st) && FramingOf(st.req.headers).None?
    ensures Finish(st, n) == Failed(Smuggling, true)
  {
  }

  ghost predicate RefusedAs(p: Parsed, status: nat) {
    p.Failed? && p.complete && StatusFor(p.error) == status
  }

  /** Spelled headers that are not all read: 400 for illegal framing, 431 over the limits. */
  lemma {:induction false} FieldsRefused(buf: bytes, start: nat, pos: nat, st: HeadState, fields: seq<RawLine>, hs: seq<Header>, end: bytes, tail: bytes)
    requires start <= pos <= |buf| && buf[pos..] == AllLines(fields) + end + tail && (end == CRLF || end == [LF])
    requires SpellsHeaders(fields, hs) && HeadersOk(hs) && |st.req.headers| <= MAX_HEADERS && Faithful(st)
    ensures var p := ParseHeaders(buf, start, pos, st);
            var within := pos - start + |AllLines(fields)| <= MAX_HEADER_BYTES && |st.req.headers| + |hs| <= MAX_HEADERS;
            var legal := FramingOf(st.req.headers + hs).Some?;
            (within && !legal ==> RefusedAs(p, 400)) && (!within && legal ==> RefusedAs(p, 431))
    decreases |fields|
  {
    hide Faithful, FramingOf, FramingLegal, AddHeader, TurnAt, HeaderOk, ParseHeader, AllLines, Ended, SpellsHeader, HeadersOk;
    LinesUnfold(fields, end, tail);
    if pos - start > MAX_HEADER_BYTES {
      TooLongTurn(buf, start, pos, st);
    } else if fields == [] {
      assert st.req.headers + hs == st.req.headers;
      EndTurn(buf, start, pos, st, end, tail);
      if FramingOf(st.req.headers).None? {
        IllegalEnd(st, pos + |end|);
      }
    } else {
      hide SpellsHeaders;
      var l, h, rest := fields[0], hs[0], hs[1..];
      AsMany(fields, hs);
      SpelledRest(fields, hs);
      var behind := AllLines(fields[1..]) + end + tail;
      if |st.req.headers| >= MAX_HEADERS {
        CrowdedTurn(buf, start, pos, st, l, h, behind);
      } else {
        LineTurn(buf, start, pos, st, l, h, behind);
        HeaderParses(l.text, h, st);
        NotMalformed(st, h);
        assert st.req.headers + hs == (st.req.headers + [h]) + rest;
        AddHeaderFaithful(st, h);
        if AddHeader(st, h).Ok? {
          FieldsRefused(buf, start, pos + |l.text| + |l.eol|, AddHeader(st, h).value, fields[1..], rest, end, tail);
        } else if FramingOf((st.req.headers + [h]) + rest).Some? {
          LegalPrefix(st.req.headers + [h], rest);
        }
      }
    }
  }

  /** The request line of a spelled head is accepted, and the headers are well formed one by one. */
  ghost predicate SpelledLines(h: RawHead, r: Request) {
    && Spells(h, r) && r.verb != Unknown && TargetOk(r) && HeadersOk(r.headers) && |h.first.text| <= MAX_REQUEST_LINE
  }

  /**
   The verdict on a spelled head whatever follows: accepted within the limits
   with legal framing, 400 when only the framing is illegal, 431 when only
   the limits are passed.
   */
  lemma {:induction false} SpelledVerdict(h: RawHead, r: Request, rest: bytes)
    requires SpelledLines(h, r)
    ensures var p, legal := Parse(HeadBytes(h) + rest), FramingOf(r.headers).Some?;
            && (InLimits(h) && legal ==> p.Done? && p.n == |HeadBytes(h)|)
            && (InLimits(h) && !legal ==> RefusedAs(p, 400))
            && (!InLimits(h) && legal ==> RefusedAs(p, 431))
  {
    hide ParseRequestLine, PrintRequestLine, ParseHeaders, AllLines, FindEol, TargetOk, HeadersOk, FramingOf, HostOf, KeepAliveOf, Faithful, SpellsHeaders, Ended, RefusedAs;
    var line, after := h.first.text, AllLines(h.fields) + h.end + rest;
    var buf := HeadBytes(h) + rest;
    var pos := |line| + |h.first.eol|;
    assert buf == line + h.first.eol + after;
    AsMany(h.fields, r.headers);
    RequestLineParses(r);
    EolOfLine(h.first, after);
    assert buf[..|line|] == line && buf[pos..] == after;
    var st := HeadState(ParseRequestLine(line).value, false, false);
    RequestLineFaithful(line);
    assert [] + r.headers == r.headers;
    if InLimits(h) && FramingOf(r.headers).Some? {
      FieldsParse(buf, pos, pos, st, h.fields, r.headers, h.end, rest);
    } else {
      FieldsRefused(buf, pos, pos, st, h.fields, r.headers, h.end, rest);
    }
  }

  /** A request line that is none is refused with 400 as soon as it is complete. */
  lemma {:induction false} BadLineRefused(b: bytes)
    requires FindEol(b).Eol? && FindEol(b).at <= MAX_REQUEST_LINE
    requires var line := b[..FindEol(b).at];
             !exists verb, target, version :: InThree(line, verb, target, version) && IsMethod(verb) && IsVersion(version)
    ensures RefusedWith(b, 400)
  {
    hide FindEol, ParseRequestLine, InThree, IsMethod, IsVersion;
    var line := b[..FindEol(b).at];
    LineMalformed(line);
    if verb, target, version :| InThree(line, verb, target, version) {
      LineVerdict(line, verb, target, version);
    }
  }

  /** A chunked request is refused with 400 and no other status, whatever follows its head. */
  lemma {:induction false} ChunkedRefused(h: RawHead, r: Request, rest: bytes, status: nat)
    requires WellFormed(r) && Spells(h, r) && InLimits(h) && r.contentLength == -2
    ensures RefusedWith(HeadBytes(h) + rest, status) <==> status == 400
  {
    hide Parse, WellFormed, Spells, InLimits, HeadBytes;
    SpelledParses(h, r, rest);
  }

  /** What is refused is refused with one status. */
  lemma {:induction false} OneStatus(stream: bytes, s: nat, t: nat)
    requires RefusedWith(stream, s) && RefusedWith(stream, t)
    ensures s == t && s in {400, 414, 431}
  {
    hide Parse;
  }
}

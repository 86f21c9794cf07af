/**
 What the derived fields of an accepted request mean: body framing, host and
 connection persistence as functions of its header list (section 3.3.3 of RFC
 7230 for the framing).
 */
module HttpFraming {
  import opened Options
  import opened HttpBytes
  import opened HttpGrammar

  /** The values of all headers with a name, in order. */
  function Values(headers: seq<Header>, name: bytes): seq<bytes> {
    if headers == [] then []
    else
      var last := headers[|headers| - 1];
      Values(headers[..|headers| - 1], name) + if EqFold(last.name, name) then [last.value] else []
  }

  ghost predicate AllChunked(values: seq<bytes>) {
    forall i :: 0 <= i < |values| ==> EqFold(values[i], CHUNKED)
  }

  /** Framing headers that are each acceptable; both kinds together are a separate matter. */
  ghost predicate FramingLegal(headers: seq<Header>) {
    var lengths, codings := Values(headers, CONTENT_LENGTH), Values(headers, TRANSFER_ENCODING);
    && |lengths| <= 1
    && (lengths != [] ==> Decimal(lengths[0]).Some?)
    && AllChunked(codings)
  }

  /** The body length the headers announce: -1 for none, -2 for chunked, no value when they are refused. */
  ghost function FramingOf(headers: seq<Header>): Option<int> {
    var lengths, codings := Values(headers, CONTENT_LENGTH), Values(headers, TRANSFER_ENCODING);
    if !FramingLegal(headers) || (lengths != [] && codings != []) then None
    else if lengths != [] then Some(Decimal(lengths[0]).value)
    else if codings != [] then Some(-2)
    else Some(-1)
  }

  /** The last Host header wins. */
  function HostOf(headers: seq<Header>): Option<bytes> {
    if headers == [] then None
    else
      var last := headers[|headers| - 1];
      if EqFold(last.name, HOST) then Some(last.value) else HostOf(headers[..|headers| - 1])
  }

  /** The last Connection header that says close or keep-alive wins over the version's default. */
  function KeepAliveOf(byVersion: bool, headers: seq<Header>): bool {
    if headers == [] then byVersion
    else
      var last := headers[|headers| - 1];
      if EqFold(last.name, CONNECTION) && EqFold(last.value, CLOSE) then false
      else if EqFold(last.name, CONNECTION) && EqFold(last.value, KEEP_ALIVE) then true
      else KeepAliveOf(byVersion, headers[..|headers| - 1])
  }

  /** The value of the last Host header, by its place. */
  lemma {:induction false} HostIs(headers: seq<Header>, i: int)
    requires -1 <= i < |headers| && forall j :: i < j < |headers| ==> !EqFold(headers[j].name, Ascii("Host"))
    ensures i == -1 ==> HostOf(headers) == None
    ensures i >= 0 && EqFold(headers[i].name, Ascii("Host")) ==> HostOf(headers) == Some(headers[i].value)
  {
    NamesSpelled();
    if i + 1 < |headers| {
      HostIs(headers[..|headers| - 1], i);
    }
  }

  /** A header that decides persistence. */
  predicate Decides(h: Header) {
    EqFold(h.name, Ascii("Connection")) && (EqFold(h.value, Ascii("close")) || EqFold(h.value, Ascii("keep-alive")))
  }

  /** The last such header decides, by its place; without one the version does. */
  lemma {:induction false} KeepAliveIs(byVersion: bool, headers: seq<Header>, i: int)
    requires -1 <= i < |headers| && forall j :: i < j < |headers| ==> !Decides(headers[j])
    ensures i == -1 ==> KeepAliveOf(byVersion, headers) == byVersion
    ensures i >= 0 && Decides(headers[i]) ==> KeepAliveOf(byVersion, headers) == EqFold(headers[i].value, Ascii("keep-alive"))
  {
    NamesSpelled();
    if i + 1 < |headers| {
      KeepAliveIs(byVersion, headers[..|headers| - 1], i);
    } else if i >= 0 && EqFold(headers[i].value, CLOSE) {
      assert |headers[i].value| == 5;
    }
  }

  function PersistentByVersion(major: nat, minor: nat): bool {
    major == 1 && minor >= 1
  }

  /** The decoder's state says what its header list means. */
  ghost predicate Faithful(st: HeadState) {
    var hs := st.req.headers;
    var lengths, codings := Values(hs, CONTENT_LENGTH), Values(hs, TRANSFER_ENCODING);
    && FramingLegal(hs)
    && st.hasCL == (lengths != []) && st.hasTE == (codings != [])
    && (!st.hasCL && !st.hasTE ==> st.req.contentLength == -1)
    && (st.hasCL && !st.hasTE ==> st.req.contentLength == Decimal(lengths[0]).value)
    && (st.hasTE && !st.hasCL ==> st.req.contentLength == -2)
    && st.req.host == HostOf(hs)
    && st.req.keepAlive == KeepAliveOf(PersistentByVersion(st.req.major, st.req.minor), hs)
  }

  /** What a header list says after one more header. */
  lemma {:induction false} OneMore(hs: seq<Header>, h: Header, name: bytes)
    ensures Values(hs + [h], name) == Values(hs, name) + if EqFold(h.name, name) then [h.value] else []
    ensures HostOf(hs + [h]) == if EqFold(h.name, HOST) then Some(h.value) else HostOf(hs)
    ensures forall v :: KeepAliveOf(v, hs + [h]) ==
              if EqFold(h.name, CONNECTION) && EqFold(h.value, CLOSE) then false
              else if EqFold(h.name, CONNECTION) && EqFold(h.value, KEEP_ALIVE) then true
              else KeepAliveOf(v, hs)
  {
  }

  /** Adding a header keeps the state faithful, and is refused exactly when the framing headers become illegal. */
  lemma {:induction false} AddHeaderFaithful(st: HeadState, h: Header)
    requires Faithful(st)
    ensures AddHeader(st, h).Ok? <==> FramingLegal(st.req.headers + [h])
    ensures AddHeader(st, h).Ok? ==>
              && Faithful(AddHeader(st, h).value)
              && AddHeader(st, h).value.req.headers == st.req.headers + [h]
  {
    hide EqFold, Decimal, Values, HostOf, KeepAliveOf;
    LengthsApart(h.name);
    OneMore(st.req.headers, h, CONTENT_LENGTH);
    OneMore(st.req.headers, h, TRANSFER_ENCODING);
    var codings := Values(st.req.headers, TRANSFER_ENCODING);
    assert (codings + [h.value])[|codings|] == h.value;
    assert forall i :: 0 <= i < |codings| ==> (codings + [h.value])[i] == codings[i];
  }

  /** The decoder's state stays faithful along the header lines. */
  lemma {:induction false} HeadersFaithful(b: bytes, start: nat, pos: nat, st: HeadState)
    requires start <= pos <= |b| && Faithful(st)
    requires ParseHeaders(b, start, pos, st).Done?
    ensures var req := ParseHeaders(b, start, pos, st).req;
            && FramingOf(req.headers) == Some(req.contentLength)
            && req.host == HostOf(req.headers)
            && req.keepAlive == KeepAliveOf(PersistentByVersion(req.major, req.minor), req.headers)
            && req.(headers := [], contentLength := -1, host := None, keepAlive := false) ==
               st.req.(headers := [], contentLength := -1, host := None, keepAlive := false)
    decreases |b| - pos
  {
    hide AddHeader, Values, Decimal, FramingLegal, HostOf, KeepAliveOf, FindEol, IndexByte;
    var t := TurnAt(b, start, pos, st);
    if t.Line? {
      var next := ParseHeader(t.line, st).value;
      HeaderKeepsLine(t.line, st);
      HeadersFaithful(b, start, t.after, next);
    }
  }

  lemma {:induction false} HeaderKeepsLine(line: bytes, st: HeadState)
    requires Faithful(st)
    ensures ParseHeader(line, st).Ok? ==>
              var next := ParseHeader(line, st).value;
              && Faithful(next)
              && next.req.(headers := [], contentLength := -1, host := None, keepAlive := false) ==
                 st.req.(headers := [], contentLength := -1, host := None, keepAlive := false)
  {
    hide Faithful, AddHeader, FramingLegal, IndexByte, TrimLeft, TrimRight, IsName;
    if ParseHeader(line, st).Ok? {
      var colon := IndexByte(line, COLON);
      var h := Header(line[..colon], TrimRight(TrimLeft(line[colon + 1..])));
      AddHeaderFaithful(st, h);
      AddHeaderKeepsLine(st, h);
    }
  }

  lemma {:induction false} AddHeaderKeepsLine(st: HeadState, h: Header)
    requires AddHeader(st, h).Ok?
    ensures AddHeader(st, h).value.req.(headers := [], contentLength := -1, host := None, keepAlive := false) ==
            st.req.(headers := [], contentLength := -1, host := None, keepAlive := false)
  {
    hide EqFold, Decimal;
  }

  /**
   On every accepted request: the length is -1 exactly when no framing header
   is present, the value of the single Content-Length header exactly when that
   header is alone, and -2 exactly when only chunked Transfer-Encoding headers
   are present; host and persistence are what the headers and version say.
   */
  lemma {:induction false} AcceptedFraming(b: bytes)
    requires Parse(b).Done?
    ensures var req := Parse(b).req;
            var lengths, codings := Values(req.headers, CONTENT_LENGTH), Values(req.headers, TRANSFER_ENCODING);
            && (req.contentLength == -1 <==> lengths == [] && codings == [])
            && (req.contentLength >= 0 <==> |lengths| == 1 && codings == [])
            && (req.contentLength >= 0 ==>
                  lengths[0] != [] && AllDigits(lengths[0])
                  && req.contentLength == Value(lengths[0]) < 0x4000_0000_0000_0000)
            && (req.contentLength == -2 <==> lengths == [] && codings != [])
            && AllChunked(codings)
    ensures var req := Parse(b).req;
            && FramingOf(req.headers) == Some(req.contentLength)
            && req.host == HostOf(req.headers)
            && req.keepAlive == KeepAliveOf(PersistentByVersion(req.major, req.minor), req.headers)
  {
    hide ParseRequestLine, ParseHeaders, FindEol, Faithful;
    var e := FindEol(b);
    RequestLineFaithful(b[..e.at]);
    HeadersFaithful(b, e.at + e.skip, e.at + e.skip, HeadState(ParseRequestLine(b[..e.at]).value, false, false));
  }

  lemma {:induction false} RequestLineFaithful(line: bytes)
    requires ParseRequestLine(line).Ok?
    ensures Faithful(HeadState(ParseRequestLine(line).value, false, false))
  {
    hide IndexByte, MethodOf;
  }

}

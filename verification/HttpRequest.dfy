/**
 The request object and the parser that fills it in place: every byte string
 of a request is a slice of the buffer it was parsed from.
 */
module HttpRequest {
  import opened Options
  import opened HttpBytes
  import opened HttpGrammar

  /** A Go byte slice: a stretch of an array; nil when arr is null. */
  datatype Slice = Slice(arr: array?<byte>, lo: nat, hi: nat)

  const NIL := Slice(null, 0, 0)

  datatype HeaderSlot = HeaderSlot(name: Slice, value: Slice)

  /** The slice lies inside the first n bytes of buf. */
  ghost predicate Within(s: Slice, buf: array<byte>, n: nat) {
    s.arr == buf && s.lo <= s.hi <= n
  }

  ghost predicate NilOrWithin(s: Slice, buf: array<byte>, n: nat) {
    s.arr == null || Within(s, buf, n)
  }

  /** The bytes of a slice, given what its array holds from the start; nil has none. */
  ghost function BytesOf(s: Slice, content: bytes): bytes
    requires s.arr != null ==> s.lo <= s.hi <= |content|
  {
    if s.arr == null then [] else content[s.lo..s.hi]
  }

  ghost function OptionOf(s: Slice, content: bytes): Option<bytes>
    requires s.arr != null ==> s.lo <= s.hi <= |content|
  {
    if s.arr == null then None else Some(content[s.lo..s.hi])
  }

  ghost predicate SlotsWithin(slots: seq<HeaderSlot>, buf: array<byte>, n: nat) {
    forall i :: 0 <= i < |slots| ==> Within(slots[i].name, buf, n) && Within(slots[i].value, buf, n)
  }

  ghost function HeaderOf(slot: HeaderSlot, content: bytes): Header
    requires slot.name.lo <= slot.name.hi <= |content| && slot.value.lo <= slot.value.hi <= |content|
  {
    Header(content[slot.name.lo..slot.name.hi], content[slot.value.lo..slot.value.hi])
  }

  ghost function HeadersOf(slots: seq<HeaderSlot>, buf: array<byte>, content: bytes): (hs: seq<Header>)
    requires SlotsWithin(slots, buf, |content|)
    ensures |hs| == |slots|
  {
    if slots == [] then []
    else
      var n := |slots| - 1;
      HeadersOf(slots[..n], buf, content) + [HeaderOf(slots[n], content)]
  }

  class Req {
    var verb: Method
    var path: Slice
    var query: Slice
    var major: nat
    var minor: nat
    const headers: array<HeaderSlot>
    var nHeaders: nat
    var contentLength: int
    var keepAlive: bool
    var host: Slice
    var body: Slice

    constructor ()
      ensures headers.Length == MAX_HEADERS && fresh(headers)
    {
      headers := new HeaderSlot[MAX_HEADERS](_ => HeaderSlot(NIL, NIL));
      verb, path, query, major, minor, nHeaders := Unknown, NIL, NIL, 0, 0, 0;
      contentLength, keepAlive, host, body := -1, false, NIL, NIL;
    }

    /** Every slice of the head points into the first n bytes of buf. */
    ghost predicate Over(buf: array<byte>, n: nat)
      reads this, headers
    {
      && headers.Length == MAX_HEADERS && nHeaders <= MAX_HEADERS
      && NilOrWithin(path, buf, n) && NilOrWithin(query, buf, n) && NilOrWithin(host, buf, n)
      && SlotsWithin(headers[..nHeaders], buf, n)
    }

    /** The request head as a handler reads it through the slices, buf beginning with content. */
    ghost function Head(buf: array<byte>, content: bytes): Request
      requires Over(buf, |content|)
      reads this, headers
    {
      Request(verb, BytesOf(path, content), OptionOf(query, content), major, minor,
              HeadersOf(headers[..nHeaders], buf, content), contentLength, keepAlive, OptionOf(host, content), [])
    }

    ghost predicate BodyOk()
      reads this
    {
      body.arr == null || body.lo <= body.hi <= body.arr.Length
    }

    /** The head read through the slices is r, and there is no body yet. */
    ghost predicate Holds(buf: array<byte>, content: bytes, r: Request)
      reads this, headers
    {
      Over(buf, |content|) && Head(buf, content) == r && body == NIL
    }

    method Reset()
      modifies this
      ensures verb == Unknown && path == query == host == body == NIL && major == minor == nHeaders == 0
      ensures contentLength == -1 && !keepAlive
    {
      verb, path, query, major, minor, nHeaders := Unknown, NIL, NIL, 0, 0, 0;
      contentLength, keepAlive, host, body := -1, false, NIL, NIL;
    }
  }

  /** The next line terminator; -1 when there is none. */
  method FindEolIn(b: bytes) returns (at: int, skip: nat)
    ensures match FindEol(b) case NoEol => at == -1 case Eol(a, s) => at == a && skip == s
  {
    for i := 0 to |b|
      invariant forall j :: 0 <= j < i ==> b[j] != LF
    {
      if b[i] == LF {
        if i > 0 && b[i - 1] == CR {
          return i - 1, 2;
        }
        return i, 1;
      }
    }
    return -1, 0;
  }

  /** ASCII case-fold comparison byte by byte. */
  method EqFoldAscii(a: bytes, b: bytes) returns (same: bool)
    ensures same == EqFold(a, b)
  {
    if |a| != |b| {
      return false;
    }
    for i := 0 to |a|
      invariant forall j :: 0 <= j < i ==> Lower(a[j]) == Lower(b[j])
    {
      var ca := if 65 <= a[i] <= 90 then a[i] + 32 else a[i];
      var cb := if 65 <= b[i] <= 90 then b[i] + 32 else b[i];
      if ca != cb {
        assert Lower(a[i]) != Lower(b[i]);
        return false;
      }
    }
    return true;
  }

  function PathPart(target: bytes): bytes {
    var q := IndexByte(target, QUESTION);
    if q >= 0 then target[..q] else target
  }

  function QueryPart(target: bytes): Option<bytes> {
    var q := IndexByte(target, QUESTION);
    if q >= 0 then Some(target[q + 1..]) else None
  }

  /** Cut the target content[lo..hi] at its first question mark. */
  method SetTarget(buf: array<byte>, content: bytes, target: bytes, lo: nat, hi: nat, req: Req)
    requires lo <= hi <= |content| && target == content[lo..hi] && req.query == NIL
    modifies req`path, req`query
    ensures Within(req.path, buf, hi) && NilOrWithin(req.query, buf, hi)
    ensures BytesOf(req.path, content) == PathPart(target) && OptionOf(req.query, content) == QueryPart(target)
  {
    hide IndexByte;
    var q := IndexByte(target, QUESTION);
    if q >= 0 {
      req.path := Slice(buf, lo, lo + q);
      req.query := Slice(buf, lo + q + 1, hi);
    } else {
      req.path := Slice(buf, lo, hi);
    }
  }

  /** Fill in the request line content[..eol] of a freshly reset request. */
  method ParseRequestLineInto(buf: array<byte>, content: bytes, eol: nat, req: Req) returns (err: Option<ParseError>)
    requires eol <= |content| && req.headers.Length == MAX_HEADERS
    requires req.path == req.query == req.host == req.body == NIL && req.nHeaders == 0
    requires req.contentLength == -1 && !req.keepAlive
    modifies req
    ensures match ParseRequestLine(content[..eol])
            case Err(e) => err == Some(e)
            case Ok(r) => err == None && req.Holds(buf, content, r.(keepAlive := false))
                          && r.keepAlive == (req.major == 1 && req.minor >= 1)
  {
    hide ParseRequestLine, BytesOf, OptionOf, PathPart, QueryPart;
    var lo, hi;
    err, req.verb, lo, hi, req.major, req.minor := CutRequestLine(content, eol);
    if err.None? {
      ghost var r := ParseRequestLine(content[..eol]).value;
      SetTarget(buf, content, content[lo..hi], lo, hi, req);
      LineHeld(buf, content, req, r);
    }
  }

  /** Find the parts of the request line content[..eol]; the target is content[lo..hi]. */
  method CutRequestLine(content: bytes, eol: nat)
    returns (err: Option<ParseError>, verb: Method, lo: nat, hi: nat, major: nat, minor: nat)
    requires eol <= |content|
    ensures match ParseRequestLine(content[..eol])
            case Err(e) => err == Some(e)
            case Ok(r) =>
              && err == None && lo <= hi <= eol
              && r == Request(verb, PathPart(content[lo..hi]), QueryPart(content[lo..hi]), major, minor, [], -1, r.keepAlive, None, [])
              && r.keepAlive == (major == 1 && minor >= 1)
  {
    hide IndexByte, MethodOf, ParseRequestLine, RequestOf, PathPart, QueryPart;
    verb, lo, hi, major, minor := Unknown, 0, 0, 0, 0;
    var line := content[..eol];
    LineParts(line);
    var sp1 := IndexByte(line, SP);
    if sp1 <= 0 {
      return Some(Malformed), verb, lo, hi, major, minor;
    }
    var rest := line[sp1 + 1..];
    var sp2 := IndexByte(rest, SP);
    if sp2 <= 0 {
      return Some(Malformed), verb, lo, hi, major, minor;
    }
    var target, version := rest[..sp2], rest[sp2 + 1..];
    verb := MethodOf(line[..sp1]);
    if verb == Unknown {
      return Some(BadMethod), verb, lo, hi, major, minor;
    }
    if !VersionOk(version) {
      return Some(BadVersion), verb, lo, hi, major, minor;
    }
    lo, hi := sp1 + 1, sp1 + 1 + sp2;
    assert content[lo..hi] == target;
    PartsAre(verb, target, version);
    return None, verb, lo, hi, version[5] - 48, version[7] - 48;
  }

  lemma {:induction false} LineHeld(buf: array<byte>, content: bytes, req: Req, r: Request)
    requires req.headers.Length == MAX_HEADERS && req.nHeaders == 0 && req.host == req.body == NIL
    requires NilOrWithin(req.path, buf, |content|) && NilOrWithin(req.query, buf, |content|)
    requires r == Request(req.verb, BytesOf(req.path, content), OptionOf(req.query, content), req.major, req.minor, [],
                          req.contentLength, r.keepAlive, None, [])
    requires !req.keepAlive
    ensures req.Holds(buf, content, r.(keepAlive := false))
  {
  }

  lemma {:induction false} PartsAre(verb: Method, target: bytes, version: bytes)
    requires VersionOk(version)
    ensures var r := RequestOf(verb, target, version);
            r == Request(verb, PathPart(target), QueryPart(target), version[5] - 48, version[7] - 48, [], -1, r.keepAlive, None, [])
            && r.keepAlive == (version[5] - 48 == 1 && version[7] - 48 >= 1)
  {
  }

  lemma {:induction false} LineParts(line: bytes)
    ensures ParseRequestLine(line) ==
            var sp1 := IndexByte(line, SP);
            if sp1 <= 0 then Err(Malformed)
            else
              var rest := line[sp1 + 1..];
              var sp2 := IndexByte(rest, SP);
              if sp2 <= 0 then Err(Malformed)
              else if MethodOf(line[..sp1]) == Unknown then Err(BadMethod)
              else if !VersionOk(rest[sp2 + 1..]) then Err(BadVersion)
              else Ok(RequestOf(MethodOf(line[..sp1]), rest[..sp2], rest[sp2 + 1..]))
  {
    hide IndexByte, MethodOf, RequestOf;
  }

  /** Move both ends of a header value inward over blanks. */
  method TrimIn(raw: bytes) returns (a: nat, b: nat)
    ensures a <= b <= |raw| && raw[a..b] == TrimRight(TrimLeft(raw))
  {
    hide TrimLeft, TrimRight;
    a := TrimStart(raw);
    var n := TrimEnd(raw[a..]);
    b := a + n;
    assert raw[a..][..n] == raw[a..b];
  }

  method TrimStart(raw: bytes) returns (a: nat)
    ensures a <= |raw| && raw[a..] == TrimLeft(raw)
  {
    a := 0;
    assert raw[0..] == raw;
    while a < |raw| && (raw[a] == SP || raw[a] == TAB)
      invariant a <= |raw| && TrimLeft(raw[a..]) == TrimLeft(raw)
    {
      assert raw[a..][1..] == raw[a + 1..];
      a := a + 1;
    }
  }

  method TrimEnd(raw: bytes) returns (b: nat)
    ensures b <= |raw| && raw[..b] == TrimRight(raw)
  {
    b := |raw|;
    assert raw[..b] == raw;
    while b > 0 && (raw[b - 1] == SP || raw[b - 1] == TAB)
      invariant b <= |raw| && TrimRight(raw[..b]) == TrimRight(raw)
    {
      assert raw[..b][..b - 1] == raw[..b - 1];
      b := b - 1;
    }
  }

  method CheckName(name: bytes) returns (ok: bool)
    requires name != []
    ensures ok == IsName(name)
  {
    for i := 0 to |name|
      invariant forall j :: 0 <= j < i ==> IsToken(name[j])
    {
      if !IsToken(name[i]) {
        return false;
      }
    }
    return true;
  }

  /** The framing-relevant headers change their fields; all others are only stored. */
  method Interpret(req: Req, name: bytes, value: bytes, slice: Slice, hasCL: bool, hasTE: bool, ghost st: HeadState, ghost content: bytes)
    returns (err: Option<ParseError>, cl: bool, te: bool)
    requires st.hasCL == hasCL && st.hasTE == hasTE
    requires slice.arr != null && slice.lo <= slice.hi <= |content| && content[slice.lo..slice.hi] == value
    requires req.keepAlive == st.req.keepAlive && req.contentLength == st.req.contentLength
    requires req.host.arr != null ==> req.host.lo <= req.host.hi <= |content|
    requires OptionOf(req.host, content) == st.req.host
    modifies req`host, req`keepAlive, req`contentLength
    ensures match AddHeader(st, Header(name, value))
            case Err(e) => err == Some(e)
            case Ok(next) =>
              && err == None && cl == next.hasCL && te == next.hasTE
              && req.keepAlive == next.req.keepAlive && req.contentLength == next.req.contentLength
              && (req.host == slice || req.host == old(req.host)) && OptionOf(req.host, content) == next.req.host
              && next.req == st.req.(headers := st.req.headers + [Header(name, value)], keepAlive := req.keepAlive,
                                     contentLength := req.contentLength, host := next.req.host)
  {
    hide EqFold, Decimal;
    DispatchLengths(name);
    cl, te := hasCL, hasTE;
    match |name| {
      case 4 =>
        var isHost := EqFoldAscii(name, HOST);
        if isHost {
          req.host := slice;
        }
      case 10 =>
        var isConnection := EqFoldAscii(name, CONNECTION);
        if isConnection {
          var closes := EqFoldAscii(value, CLOSE);
          var keeps := EqFoldAscii(value, KEEP_ALIVE);
          if closes {
            req.keepAlive := false;
          } else if keeps {
            req.keepAlive := true;
          }
        }
      case 14 =>
        var isLength := EqFoldAscii(name, CONTENT_LENGTH);
        if isLength {
          if hasCL {
            return Some(Smuggling), cl, te;
          }
          cl := true;
          var n, ok := ParseDecimal(value);
          if !ok {
            return Some(BadContentLength), cl, te;
          }
          req.contentLength := n;
        }
      case 17 =>
        var isCoding := EqFoldAscii(name, TRANSFER_ENCODING);
        if isCoding {
          te := true;
          var chunked := EqFoldAscii(value, CHUNKED);
          if !chunked {
            return Some(UnsupportedTransferEncoding), cl, te;
          }
          req.contentLength := -2;
        }
      case _ =>
    }
    return None, cl, te;
  }

  /** Each dispatched name has its own length. */
  lemma {:induction false} DispatchLengths(name: bytes)
    ensures EqFold(name, HOST) ==> |name| == 4
    ensures EqFold(name, CONNECTION) ==> |name| == 10
    ensures EqFold(name, CONTENT_LENGTH) ==> |name| == 14
    ensures EqFold(name, TRANSFER_ENCODING) ==> |name| == 17
  {
  }

  /** Interpret one header and store it in the next free slot. */
  method AddHeaderInto(buf: array<byte>, content: bytes, slot: HeaderSlot, req: Req, hasCL: bool, hasTE: bool, ghost st: HeadState)
    returns (err: Option<ParseError>, cl: bool, te: bool)
    requires Within(slot.name, buf, |content|) && Within(slot.value, buf, |content|) && req.nHeaders < MAX_HEADERS
    requires req.Holds(buf, content, st.req) && st.hasCL == hasCL && st.hasTE == hasTE
    modifies req, req.headers
    ensures match AddHeader(st, HeaderOf(slot, content))
            case Err(e) => err == Some(e)
            case Ok(next) => err == None && cl == next.hasCL && te == next.hasTE && req.Holds(buf, content, next.req)
  {
    hide AddHeader, EqFold, HeadersOf;
    var name, value := content[slot.name.lo..slot.name.hi], content[slot.value.lo..slot.value.hi];
    err, cl, te := Interpret(req, name, value, slot.value, hasCL, hasTE, st, content);
    if err.None? {
      Store(buf, content, req, slot, st.req);
    }
  }

  /** Decode the header line content[lo..hi]. */
  method ParseHeaderInto(buf: array<byte>, content: bytes, lo: nat, hi: nat, req: Req, hasCL: bool, hasTE: bool, ghost st: HeadState)
    returns (err: Option<ParseError>, cl: bool, te: bool)
    requires lo <= hi <= |content| && req.nHeaders < MAX_HEADERS
    requires req.Holds(buf, content, st.req) && st.hasCL == hasCL && st.hasTE == hasTE
    modifies req, req.headers
    ensures match ParseHeader(content[lo..hi], st)
            case Err(e) => err == Some(e)
            case Ok(next) => err == None && cl == next.hasCL && te == next.hasTE && req.Holds(buf, content, next.req)
  {
    hide AddHeader, ParseHeader, CutLine, HeadersOf, HeaderOf;
    cl, te := hasCL, hasTE;
    CutLineMeans(content[lo..hi], st);
    var slot := CutHeader(buf, content, lo, hi);
    if slot.None? {
      return Some(Malformed), cl, te;
    }
    err, cl, te := AddHeaderInto(buf, content, slot.value, req, hasCL, hasTE, st);
  }

  function NamePart(line: bytes): bytes
    requires IndexByte(line, COLON) >= 0
  {
    line[..IndexByte(line, COLON)]
  }

  function RawPart(line: bytes): (raw: bytes)
    requires IndexByte(line, COLON) >= 0
    ensures |raw| == |line| - IndexByte(line, COLON) - 1
  {
    line[IndexByte(line, COLON) + 1..]
  }

  /** Name and trimmed value of a header line, if it has a well-formed name. */
  ghost function CutLine(line: bytes): Option<Header> {
    if IndexByte(line, COLON) <= 0 || !IsName(NamePart(line)) then None
    else Some(Header(NamePart(line), TrimRight(TrimLeft(RawPart(line)))))
  }

  lemma {:induction false} CutLineMeans(line: bytes, st: HeadState)
    ensures ParseHeader(line, st) ==
            match CutLine(line) case None => Err(Malformed) case Some(h) => AddHeader(st, h)
  {
  }

  /** The slices of the header line content[lo..hi]. */
  method CutHeader(buf: array<byte>, content: bytes, lo: nat, hi: nat) returns (slot: Option<HeaderSlot>)
    requires lo <= hi <= |content|
    ensures match CutLine(content[lo..hi])
            case None => slot == None
            case Some(h) =>
              && slot.Some? && Within(slot.value.name, buf, |content|) && Within(slot.value.value, buf, |content|)
              && HeaderOf(slot.value, content) == h
  {
    hide IndexByte, TrimLeft, TrimRight, IsName, HeaderOf, NamePart, RawPart;
    var line := content[lo..hi];
    var colon := IndexByte(line, COLON);
    if colon <= 0 {
      return None;
    }
    NameLength(line);
    var ok := CheckName(NamePart(line));
    if !ok {
      return None;
    }
    var a, b := TrimIn(RawPart(line));
    slot := Some(HeaderSlot(Slice(buf, lo, lo + colon), Slice(buf, lo + colon + 1 + a, lo + colon + 1 + b)));
    SlotIsHeader(content, lo, hi, a, b, slot.value);
  }

  lemma {:induction false} NameLength(line: bytes)
    requires IndexByte(line, COLON) > 0
    ensures NamePart(line) != []
  {
  }

  method Store(buf: array<byte>, content: bytes, req: Req, slot: HeaderSlot, ghost was: Request)
    requires req.nHeaders < MAX_HEADERS && req.Over(buf, |content|) && req.body == NIL
    requires Within(slot.name, buf, |content|) && Within(slot.value, buf, |content|)
    modifies req`nHeaders, req.headers
    ensures req.Over(buf, |content|) && req.body == NIL
    ensures req.Head(buf, content) == Stored(old(req.Head(buf, content)), HeaderOf(slot, content))
  {
    ghost var slots := req.headers[..req.nHeaders];
    req.headers[req.nHeaders] := slot;
    req.nHeaders := req.nHeaders + 1;
    assert req.headers[..req.nHeaders] == slots + [slot];
  }

  lemma {:induction false} SlotIsHeader(content: bytes, lo: nat, hi: nat, a: nat, b: nat, slot: HeaderSlot)
    requires lo <= hi <= |content| && IndexByte(content[lo..hi], COLON) >= 0
    requires a <= b <= |RawPart(content[lo..hi])|
    requires slot.name.lo == lo && slot.name.hi == lo + IndexByte(content[lo..hi], COLON)
    requires slot.value.lo == slot.name.hi + 1 + a && slot.value.hi == slot.name.hi + 1 + b
    ensures HeaderOf(slot, content) == Header(NamePart(content[lo..hi]), RawPart(content[lo..hi])[a..b])
  {
    hide IndexByte;
    ValueSlice(content, lo, hi, IndexByte(content[lo..hi], COLON), a, b);
  }

  lemma {:induction false} ValueSlice(content: bytes, lo: nat, hi: nat, colon: nat, a: nat, b: nat)
    requires lo <= hi <= |content| && colon < hi - lo && a <= b <= hi - lo - colon - 1
    ensures content[lo..lo + colon] == content[lo..hi][..colon]
    ensures content[lo + colon + 1 + a..lo + colon + 1 + b] == content[lo..hi][colon + 1..][a..b]
  {
    var from := lo + colon + 1;
    assert content[lo..hi][colon + 1..] == content[from..hi];
    forall i | 0 <= i < b - a ensures content[from..hi][a..b][i] == content[from + a..from + b][i] {
    }
  }

  /**
   Decode one request head from buf[..end] into req. The result is the pure
   decoder's, and a finished head is read back through slices of buf.
   */
  method ParseInto(buf: array<byte>, end: nat, req: Req) returns (n: nat, complete: bool, err: Option<ParseError>)
    requires end <= buf.Length && req.headers.Length == MAX_HEADERS
    modifies req, req.headers
    ensures var p := Parse(buf[..end]);
            Reports(p, n, complete, err) && (p.Done? ==> req.Holds(buf, buf[..end], p.req))
  {
    hide FindEol, ParseRequestLine, ParseHeader, ParseHeaders, TurnAt, Req.Holds;
    var content := buf[..end];
    req.Reset();
    var eol, skip := FindEolIn(content);
    if eol < 0 {
      if |content| > MAX_REQUEST_LINE {
        return 0, false, Some(LineTooLong);
      }
      return 0, false, None;
    }
    if eol > MAX_REQUEST_LINE {
      return 0, false, Some(LineTooLong);
    }
    err := StartLineInto(buf, content, eol, req);
    if err.Some? {
      return 0, true, err;
    }
    n, complete, err := ParseHeadersInto(buf, content, eol + skip, req, ParseRequestLine(content[..eol]).value);
  }

  /** The request line, then the version's default for persistence. */
  method StartLineInto(buf: array<byte>, content: bytes, eol: nat, req: Req) returns (err: Option<ParseError>)
    requires eol <= |content| && req.headers.Length == MAX_HEADERS
    requires req.path == req.query == req.host == req.body == NIL && req.nHeaders == 0
    requires req.contentLength == -1 && !req.keepAlive
    modifies req
    ensures match ParseRequestLine(content[..eol])
            case Err(e) => err == Some(e)
            case Ok(r) => err == None && req.Holds(buf, content, r)
  {
    hide ParseRequestLine;
    err := ParseRequestLineInto(buf, content, eol, req);
    if err.None? {
      req.keepAlive := req.major == 1 && req.minor >= 1;
    }
  }

  lemma {:induction false} HeaderCount(buf: array<byte>, content: bytes, req: Req, r: Request)
    requires req.Holds(buf, content, r)
    ensures |r.headers| == req.nHeaders && req.headers.Length == MAX_HEADERS
  {
  }

  /** The three results that report p. */
  ghost predicate Reports(p: Parsed, n: nat, complete: bool, err: Option<ParseError>) {
    match p
    case Incomplete => n == 0 && !complete && err == None
    case Failed(e, c) => n == 0 && complete == c && err == Some(e)
    case Done(m, _) => n == m && complete && err == None
  }

  /** The checks before a header line: limits, end of input, the empty line, folding. */
  method BeforeLine(content: bytes, start: nat, pos: nat, hasCL: bool, hasTE: bool, ghost st: HeadState)
    returns (stop: bool, n: nat, complete: bool, err: Option<ParseError>)
    requires start <= pos <= |content| && st.hasCL == hasCL && st.hasTE == hasTE
    ensures stop ==> TurnAt(content, start, pos, st).Stop? && Reports(TurnAt(content, start, pos, st).result, n, complete, err)
    ensures stop && err.None? && complete ==> TurnAt(content, start, pos, st).result.req == st.req
    ensures !stop ==> pos < |content| && pos - start <= MAX_HEADER_BYTES
    ensures !stop ==> content[pos] != CR && content[pos] != LF && !IsBlank(content[pos])
  {
    hide FindEol;
    if pos - start > MAX_HEADER_BYTES {
      return true, 0, true, Some(HeadersTooLong);
    }
    if pos >= |content| {
      return true, 0, false, None;
    }
    if content[pos] == CR {
      if pos + 1 >= |content| {
        return true, 0, false, None;
      }
      if content[pos + 1] == LF {
        if hasCL && hasTE {
          return true, 0, true, Some(Smuggling);
        }
        return true, pos + 2, true, None;
      }
      return true, 0, true, Some(Malformed);
    }
    if content[pos] == LF {
      if hasCL && hasTE {
        return true, 0, true, Some(Smuggling);
      }
      return true, pos + 1, true, None;
    }
    if content[pos] == SP || content[pos] == TAB {
      return true, 0, true, Some(ObsFold);
    }
    return false, 0, false, None;
  }

  /** One unfolding of the header decoder. */
  lemma {:induction false} HeadersTurn(buf: bytes, start: nat, pos: nat, st: HeadState)
    requires start <= pos <= |buf|
    ensures ParseHeaders(buf, start, pos, st) ==
            match TurnAt(buf, start, pos, st)
            case Stop(result) => result
            case Line(line, after) =>
              match ParseHeader(line, st)
              case Err(error) => Failed(error, true)
              case Ok(next) => ParseHeaders(buf, start, after, next)
  {
  }

  lemma {:induction false} LineTurnAt(buf: bytes, start: nat, pos: nat, st: HeadState)
    requires start <= pos < |buf| && pos - start <= MAX_HEADER_BYTES
    requires buf[pos] != CR && buf[pos] != LF && !IsBlank(buf[pos])
    ensures TurnAt(buf, start, pos, st) ==
            match FindEol(buf[pos..])
            case NoEol => Stop(Incomplete)
            case Eol(at, skip) =>
              if |st.req.headers| >= MAX_HEADERS then Stop(Failed(TooManyHeaders, true))
              else Line(buf[pos..pos + at], pos + at + skip)
  {
  }

  /** The header loop. */
  method ParseHeadersInto(buf: array<byte>, content: bytes, start: nat, req: Req, ghost first: Request)
    returns (n: nat, complete: bool, err: Option<ParseError>)
    requires start <= |content| && req.Holds(buf, content, first)
    modifies req, req.headers
    ensures var p := ParseHeaders(content, start, start, HeadState(first, false, false));
            Reports(p, n, complete, err) && (p.Done? ==> req.Holds(buf, content, p.req))
  {
    hide FindEol, ParseHeader, Req.Holds, TurnAt, ParseHeaders;
    var pos, hasCL, hasTE := start, false, false;
    ghost var st := HeadState(first, false, false);
    while true
      invariant start <= pos <= |content|
      invariant req.Holds(buf, content, st.req) && st.hasCL == hasCL && st.hasTE == hasTE
      invariant ParseHeaders(content, start, pos, st) == ParseHeaders(content, start, start, HeadState(first, false, false))
      decreases |content| - pos
    {
      var stop;
      stop, n, complete, err := BeforeLine(content, start, pos, hasCL, hasTE, st);
      HeadersTurn(content, start, pos, st);
      if stop {
        return;
      }
      LineTurnAt(content, start, pos, st);
      var eol, skip := FindEolIn(content[pos..]);
      if eol < 0 {
        return 0, false, None;
      }
      HeaderCount(buf, content, req, st.req);
      if req.nHeaders >= MAX_HEADERS {
        return 0, true, Some(TooManyHeaders);
      }
      err, hasCL, hasTE := ParseHeaderInto(buf, content, pos, pos + eol, req, hasCL, hasTE, st);
      if err.Some? {
        return 0, true, err;
      }
      st := ParseHeader(content[pos..pos + eol], st).value;
      pos := pos + eol + skip;
    }
  }

}

/**
 The request head decoder as a pure function of the bytes received so far, and
 what it guarantees about every request it accepts (sections 3 and 3.3.3 of
 RFC 7230).
 */
module HttpGrammar {
  import opened Options
  import opened HttpBytes

  const MAX_HEADERS := 32
  const MAX_REQUEST_LINE := 8 * 1024
  const MAX_HEADER_BYTES := 64 * 1024

  datatype Method = Unknown | Get | Head | Post | Put | Delete | Options | Patch | Connect | Trace

  /** The method token a request line spells. */
  function Spelling(m: Method): bytes {
    match m
    case Unknown => []
    case Get => [71, 69, 84]
    case Head => [72, 69, 65, 68]
    case Post => [80, 79, 83, 84]
    case Put => [80, 85, 84]
    case Delete => [68, 69, 76, 69, 84, 69]
    case Options => [79, 80, 84, 73, 79, 78, 83]
    case Patch => [80, 65, 84, 67, 72]
    case Connect => [67, 79, 78, 78, 69, 67, 84]
    case Trace => [84, 82, 65, 67, 69]
  }

  lemma {:induction false} MethodsSpelled()
    ensures Spelling(Get) == Ascii("GET") && Spelling(Head) == Ascii("HEAD") && Spelling(Post) == Ascii("POST")
    ensures Spelling(Put) == Ascii("PUT") && Spelling(Delete) == Ascii("DELETE") && Spelling(Options) == Ascii("OPTIONS")
    ensures Spelling(Patch) == Ascii("PATCH") && Spelling(Connect) == Ascii("CONNECT") && Spelling(Trace) == Ascii("TRACE")
  {
  }

  function MethodOf(b: bytes): Method {
    match |b|
    case 3 => if b == Spelling(Get) then Get else if b == Spelling(Put) then Put else Unknown
    case 4 => if b == Spelling(Post) then Post else if b == Spelling(Head) then Head else Unknown
    case 5 => if b == Spelling(Patch) then Patch else if b == Spelling(Trace) then Trace else Unknown
    case 6 => if b == Spelling(Delete) then Delete else Unknown
    case 7 => if b == Spelling(Options) then Options else if b == Spelling(Connect) then Connect else Unknown
    case _ => Unknown
  }

  datatype Header = Header(name: bytes, value: bytes)

  /** What a handler reads from a parsed request. */
  datatype Request = Request(
    verb: Method,
    path: bytes,
    query: Option<bytes>,
    major: nat,
    minor: nat,
    headers: seq<Header>,
    contentLength: int,
    keepAlive: bool,
    host: Option<bytes>,
    body: bytes)

  datatype ParseError =
    | Malformed | TooManyHeaders | LineTooLong | HeadersTooLong | Smuggling
    | BadMethod | BadVersion | ObsFold | BadContentLength | UnsupportedTransferEncoding

  datatype Result<T> = Ok(value: T) | Err(error: ParseError)

  /** Failed keeps whether the parser called the head complete. */
  datatype Parsed =
    | Incomplete
    | Failed(error: ParseError, complete: bool)
    | Done(n: nat, req: Request)

  const BLANK := Request(Unknown, [], None, 0, 0, [], -1, false, None, [])

  function ParseRequestLine(line: bytes): Result<Request> {
    var sp1 := IndexByte(line, SP);
    if sp1 <= 0 then Err(Malformed)
    else
      var rest := line[sp1 + 1..];
      var sp2 := IndexByte(rest, SP);
      if sp2 <= 0 then Err(Malformed)
      else
        var target, version := rest[..sp2], rest[sp2 + 1..];
        var verb := MethodOf(line[..sp1]);
        if verb == Unknown then Err(BadMethod)
        else if !VersionOk(version) then Err(BadVersion)
        else Ok(RequestOf(verb, target, version))
  }

  function RequestOf(verb: Method, target: bytes, version: bytes): Request
    requires VersionOk(version)
  {
    var q := IndexByte(target, QUESTION);
    BLANK.(
    verb := verb,
    path := if q >= 0 then target[..q] else target,
    query := if q >= 0 then Some(target[q + 1..]) else None,
    major := version[5] - 48,
    minor := version[7] - 48,
    keepAlive := version[5] == 49 && version[7] >= 49)
  }

  /** "HTTP/" digit "." digit. */
  predicate VersionOk(v: bytes) {
    && |v| == 8
    && v[..5] == [72, 84, 84, 80, SLASH] && v[6] == DOT
    && IsDigit(v[5]) && IsDigit(v[7])
  }

  predicate IsName(name: bytes) {
    name != [] && forall i :: 0 <= i < |name| ==> IsToken(name[i])
  }

  /** The head decoded so far: the request and which framing headers were seen. */
  datatype HeadState = HeadState(req: Request, hasCL: bool, hasTE: bool)

  ghost function ParseHeader(line: bytes, st: HeadState): Result<HeadState> {
    var colon := IndexByte(line, COLON);
    if colon <= 0 || !IsName(line[..colon]) then Err(Malformed)
    else
      AddHeader(st, Header(line[..colon], TrimRight(TrimLeft(line[colon + 1..]))))
  }

  /** The effect of one well-formed header on the request. */
  ghost function AddHeader(st: HeadState, h: Header): Result<HeadState> {
    if EqFold(h.name, CONTENT_LENGTH) then
      if st.hasCL then Err(Smuggling)
      else if Decimal(h.value).None? then Err(BadContentLength)
      else Ok(st.(req := Stored(st.req, h).(contentLength := Decimal(h.value).value), hasCL := true))
    else if EqFold(h.name, TRANSFER_ENCODING) then
      if !EqFold(h.value, CHUNKED) then Err(UnsupportedTransferEncoding)
      else Ok(st.(req := Stored(st.req, h).(contentLength := -2), hasTE := true))
    else if EqFold(h.name, HOST) then
      Ok(st.(req := Stored(st.req, h).(host := Some(h.value))))
    else if EqFold(h.name, CONNECTION) then
      Ok(st.(req := Stored(st.req, h).(keepAlive :=
        if EqFold(h.value, CLOSE) then false
        else if EqFold(h.value, KEEP_ALIVE) then true
        else st.req.keepAlive)))
    else Ok(st.(req := Stored(st.req, h)))
  }

  /** No name is two of the dispatched names at once. */
  lemma {:induction false} LengthsApart(name: bytes)
    ensures EqFold(name, CONTENT_LENGTH) ==> !EqFold(name, TRANSFER_ENCODING) && !EqFold(name, HOST) && !EqFold(name, CONNECTION)
    ensures EqFold(name, TRANSFER_ENCODING) ==> !EqFold(name, HOST) && !EqFold(name, CONNECTION)
    ensures EqFold(name, HOST) ==> !EqFold(name, CONNECTION)
  {
  }

  function Stored(req: Request, h: Header): Request {
    req.(headers := req.headers + [h])
  }

  /** One turn of the header loop: stop with a result, or go on with a line. */
  datatype Turn = Stop(result: Parsed) | Line(line: bytes, after: nat)

  function TurnAt(buf: bytes, start: nat, pos: nat, st: HeadState): (t: Turn)
    requires start <= pos <= |buf|
    ensures t.Line? ==> pos < t.after <= |buf|
  {
    if pos - start > MAX_HEADER_BYTES then Stop(Failed(HeadersTooLong, true))
    else if pos == |buf| then Stop(Incomplete)
    else if buf[pos] == CR then
      if pos + 1 == |buf| then Stop(Incomplete)
      else if buf[pos + 1] == LF then Stop(Finish(st, pos + 2))
      else Stop(Failed(Malformed, true))
    else if buf[pos] == LF then Stop(Finish(st, pos + 1))
    else if IsBlank(buf[pos]) then Stop(Failed(ObsFold, true))
    else
      var e := FindEol(buf[pos..]);
      if e.NoEol? then Stop(Incomplete)
      else if |st.req.headers| >= MAX_HEADERS then Stop(Failed(TooManyHeaders, true))
      else Line(buf[pos..pos + e.at], pos + e.at + e.skip)
  }

  /** Decode header lines from pos on; they began at start. */
  ghost function ParseHeaders(buf: bytes, start: nat, pos: nat, st: HeadState): Parsed
    requires start <= pos <= |buf|
    decreases |buf| - pos
  {
    match TurnAt(buf, start, pos, st)
    case Stop(result) => result
    case Line(line, after) =>
      match ParseHeader(line, st)
      case Err(error) => Failed(error, true)
      case Ok(next) => ParseHeaders(buf, start, after, next)
  }

  function Finish(st: HeadState, n: nat): Parsed {
    if st.hasCL && st.hasTE then Failed(Smuggling, true) else Done(n, st.req)
  }

  /** One request head from the front of buf. */
  ghost function Parse(buf: bytes): Parsed {
    var e := FindEol(buf);
    if e.NoEol? then
      if |buf| > MAX_REQUEST_LINE then Failed(LineTooLong, false) else Incomplete
    else if e.at > MAX_REQUEST_LINE then Failed(LineTooLong, false)
    else
      match ParseRequestLine(buf[..e.at])
      case Err(error) => Failed(error, true)
      case Ok(req) => ParseHeaders(buf, e.at + e.skip, e.at + e.skip, HeadState(req, false, false))
  }

  predicate IsComplete(p: Parsed) {
    p.Done? || (p.Failed? && p.complete)
  }

  /* ---- stability: more bytes never change a complete result ---- */

  /** A turn depends only on the bytes it reaches. */
  lemma {:induction false} TurnStable(b: bytes, c: bytes, n: nat, start: nat, pos: nat, st: HeadState)
    requires start <= pos <= n <= |b| && n <= |c| && b[..n] == c[..n]
    requires match TurnAt(b, start, pos, st)
             case Stop(Done(end, _)) => end <= n
             case Stop(r) => IsComplete(r) && n == |b|
             case Line(_, after) => after <= n
    ensures TurnAt(c, start, pos, st) == TurnAt(b, start, pos, st)
  {
    hide FindEol;
    assert pos < n ==> b[pos] == b[..n][pos] && c[pos] == c[..n][pos];
    assert pos + 1 < n ==> b[pos + 1] == b[..n][pos + 1] && c[pos + 1] == c[..n][pos + 1];
    if pos < n && FindEol(b[pos..]).Eol? && pos + FindEol(b[pos..]).at + FindEol(b[pos..]).skip <= n {
      SameLine(b, c, n, pos);
    }
  }

  lemma {:induction false} SameLine(b: bytes, c: bytes, n: nat, pos: nat)
    requires pos <= n <= |b| && n <= |c| && b[..n] == c[..n]
    requires FindEol(b[pos..]).Eol? && pos + FindEol(b[pos..]).at + FindEol(b[pos..]).skip <= n
    ensures FindEol(c[pos..]) == FindEol(b[pos..])
    ensures b[pos..pos + FindEol(b[pos..]).at] == c[pos..pos + FindEol(b[pos..]).at]
  {
    hide FindEol;
    var e := FindEol(b[pos..]);
    SameSlice(b, c, n, pos, n);
    SameSlice(b, c, n, pos, pos + e.at);
    assert b[pos..][..n - pos] == b[pos..n] && c[pos..][..n - pos] == c[pos..n];
    FindEolExtends(b[pos..], c[pos..], n - pos);
  }

  lemma {:induction false} SameSlice(b: bytes, c: bytes, n: nat, lo: nat, hi: nat)
    requires lo <= hi <= n <= |b| && n <= |c| && b[..n] == c[..n]
    ensures b[lo..hi] == c[lo..hi]
  {
  }

  lemma {:induction false} HeadersStable(b: bytes, c: bytes, n: nat, start: nat, pos: nat, st: HeadState)
    requires start <= pos <= n <= |b| && n <= |c| && b[..n] == c[..n]
    requires IsComplete(ParseHeaders(b, start, pos, st))
    requires ParseHeaders(b, start, pos, st).Done? ==> ParseHeaders(b, start, pos, st).n <= n
    requires ParseHeaders(b, start, pos, st).Failed? ==> n == |b|
    ensures ParseHeaders(c, start, pos, st) == ParseHeaders(b, start, pos, st)
    decreases |b| - pos
  {
    hide TurnAt, ParseHeader;
    HeadersMoveOn(b, start, pos, st);
    TurnStable(b, c, n, start, pos, st);
    var t := TurnAt(b, start, pos, st);
    if t.Line? && ParseHeader(t.line, st).Ok? {
      HeadersStable(b, c, n, start, t.after, ParseHeader(t.line, st).value);
    }
  }

  /** A finished head lies past every line it was read from. */
  lemma {:induction false} HeadersMoveOn(b: bytes, start: nat, pos: nat, st: HeadState)
    requires start <= pos <= |b|
    ensures var p := ParseHeaders(b, start, pos, st);
            p.Done? ==>
              && pos < p.n <= |b|
              && (TurnAt(b, start, pos, st).Line? ==> TurnAt(b, start, pos, st).after < p.n)
    decreases |b| - pos
  {
    hide ParseHeader, FindEol;
    var t := TurnAt(b, start, pos, st);
    if t.Line? && ParseHeader(t.line, st).Ok? {
      HeadersMoveOn(b, start, t.after, ParseHeader(t.line, st).value);
    }
  }

  lemma {:induction false} ParseMovesOn(b: bytes)
    ensures Parse(b).Done? ==> 0 < Parse(b).n <= |b|
    ensures Parse(b).Done? ==> FindEol(b).Eol? && FindEol(b).at + FindEol(b).skip < Parse(b).n
  {
    hide ParseHeader, FindEol, ParseRequestLine, ParseHeaders;
    var e := FindEol(b);
    if e.Eol? && ParseRequestLine(b[..e.at]).Ok? {
      HeadersMoveOn(b, e.at + e.skip, e.at + e.skip, HeadState(ParseRequestLine(b[..e.at]).value, false, false));
    }
  }

  /** Two buffers that share the bytes a complete result used give the same result. */
  lemma {:induction false} ParseStable(b: bytes, c: bytes, n: nat)
    requires n <= |b| && n <= |c| && b[..n] == c[..n] && IsComplete(Parse(b))
    requires Parse(b).Done? ==> Parse(b).n <= n
    requires Parse(b).Failed? ==> n == |b|
    ensures Parse(c) == Parse(b)
  {
    hide ParseHeader, FindEol, ParseRequestLine, ParseHeaders;
    var e := FindEol(b);
    ParseMovesOn(b);
    FindEolExtends(b, c, n);
    SameSlice(b, c, n, 0, e.at);
    if ParseRequestLine(b[..e.at]).Ok? {
      HeadersStable(b, c, n, e.at + e.skip, e.at + e.skip, HeadState(ParseRequestLine(b[..e.at]).value, false, false));
    }
  }

  /** A complete result, success or error, is the same on every extension of the buffer. */
  lemma {:induction false} ParseExtends(b: bytes, more: bytes)
    requires IsComplete(Parse(b))
    ensures Parse(b + more) == Parse(b)
  {
    hide Parse;
    ParseMovesOn(b);
    assert (b + more)[..|b|] == b == b[..|b|];
    ParseStable(b, b + more, |b|);
  }

  /** A request is recognised on exactly the bytes it consumes, and on no shorter prefix is anything complete. */
  lemma {:induction false} ParseMinimal(b: bytes, k: nat)
    requires Parse(b).Done? && k <= Parse(b).n <= |b|
    ensures k == Parse(b).n ==> Parse(b[..k]) == Parse(b)
    ensures k < Parse(b).n ==> !IsComplete(Parse(b[..k]))
  {
    hide Parse;
    assert b[..k] + b[k..] == b;
    if k == Parse(b).n {
      ParseStable(b, b[..k], k);
    } else if IsComplete(Parse(b[..k])) {
      ParseMovesOn(b[..k]);
      ParseExtends(b[..k], b[k..]);
    }
  }
}

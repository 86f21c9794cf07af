/**
 Printing requests and parsing them back (message grammar of section 3 of RFC
 7230).
 */
module HttpPrinting {
  import opened Options
  import opened HttpBytes
  import opened HttpGrammar
  import opened HttpFraming

  const CRLF: bytes := [CR, LF]

  function Digit(d: nat): byte
    requires d < 10
  {
    48 + d
  }

  function PrintTarget(r: Request): bytes {
    r.path + if r.query.Some? then [QUESTION] + r.query.value else []
  }

  function PrintVersion(r: Request): bytes
    requires r.major < 10 && r.minor < 10
  {
    [72, 84, 84, 80, SLASH, Digit(r.major), DOT, Digit(r.minor)]
  }

  function PrintRequestLine(r: Request): bytes
    requires r.major < 10 && r.minor < 10
  {
    Spelling(r.verb) + [SP] + PrintTarget(r) + [SP] + PrintVersion(r)
  }

  function PrintHeader(h: Header): bytes {
    h.name + [COLON, SP] + h.value
  }

  function PrintHeaders(hs: seq<Header>): bytes {
    if hs == [] then [] else PrintHeader(hs[0]) + CRLF + PrintHeaders(hs[1..])
  }

  function Print(r: Request): bytes
    requires r.major < 10 && r.minor < 10
  {
    PrintRequestLine(r) + CRLF + (PrintHeaders(r.headers) + CRLF)
  }

  ghost predicate TargetOk(r: Request) {
    && Lacks(r.path, SP) && Lacks(r.path, LF) && Lacks(r.path, QUESTION)
    && (r.query.Some? ==> Lacks(r.query.value, SP) && Lacks(r.query.value, LF))
    && (r.path != [] || r.query.Some?)
  }

  /** A token name and a value without line breaks or outer blanks. */
  ghost predicate HeaderOk(h: Header) {
    && IsName(h.name)
    && Lacks(h.value, LF)
    && (h.value != [] ==> !IsBlank(h.value[0]) && !IsBlank(h.value[|h.value| - 1]))
  }

  predicate AllBlank(b: bytes) {
    forall i :: 0 <= i < |b| ==> b[i] == SP || b[i] == TAB
  }

  /** Name, colon, blanks, value, blanks. */
  ghost predicate SpellsHeader(text: bytes, h: Header) {
    exists left, right :: AllBlank(left) && AllBlank(right) && text == h.name + [COLON] + (left + h.value + right)
  }

  ghost predicate HeadersOk(hs: seq<Header>) {
    forall i :: 0 <= i < |hs| ==> HeaderOk(hs[i])
  }

  /** The fields of r are consistent with one another and printable. */
  ghost predicate WellFormed(r: Request) {
    && r.verb != Unknown && r.major < 10 && r.minor < 10
    && TargetOk(r) && HeadersOk(r.headers)
    && FramingOf(r.headers) == Some(r.contentLength)
    && r.host == HostOf(r.headers)
    && r.keepAlive == KeepAliveOf(PersistentByVersion(r.major, r.minor), r.headers)
    && r.body == []
  }

  ghost predicate WithinLimits(r: Request)
    requires r.major < 10 && r.minor < 10
  {
    && |PrintRequestLine(r)| <= MAX_REQUEST_LINE
    && |r.headers| <= MAX_HEADERS
    && |PrintHeaders(r.headers)| <= MAX_HEADER_BYTES
  }

  lemma {:induction false} VersionsSpelled()
    ensures forall r: Request :: r.major == 1 && r.minor == 1 ==> PrintVersion(r) == Ascii("HTTP/1.1")
    ensures forall r: Request :: r.major == 1 && r.minor == 0 ==> PrintVersion(r) == Ascii("HTTP/1.0")
    ensures CRLF == Ascii("\r\n")
  {
  }

  /* ---- the request line ---- */

  lemma {:induction false} SpellingInvertible(m: Method)
    requires m != Unknown
    ensures MethodOf(Spelling(m)) == m && Spelling(m) != []
    ensures Lacks(Spelling(m), SP) && Lacks(Spelling(m), LF)
  {
    match m
    case Get => assert Spelling(Get)[0] != Spelling(Put)[0];
    case Put => assert Spelling(Get)[0] != Spelling(Put)[0];
    case Head => assert Spelling(Head)[0] != Spelling(Post)[0];
    case Post =>
    case Patch =>
    case Trace => assert Spelling(Trace)[0] != Spelling(Patch)[0];
    case Delete =>
    case Options =>
    case Connect => assert Spelling(Connect)[0] != Spelling(Options)[0];
  }

  /** The target's query starts at its first question mark. */
  lemma {:induction false} TargetSplits(r: Request)
    requires TargetOk(r)
    ensures var target := PrintTarget(r);
            var q := IndexByte(target, QUESTION);
            && target != [] && Lacks(target, SP) && Lacks(target, LF)
            && (q >= 0 <==> r.query.Some?)
            && r.path == (if q >= 0 then target[..q] else target)
            && (q >= 0 ==> r.query.value == target[q + 1..])
  {
    var target := PrintTarget(r);
    if r.query.Some? {
      assert target[|r.path|] == QUESTION;
      assert forall j :: 0 <= j < |r.path| ==> target[j] == r.path[j];
    } else {
      assert target == r.path;
    }
  }

  /** Splitting at the first space of a + SP + b gives a and b back. */
  lemma {:induction false} SplitAtSpace(a: bytes, b: bytes)
    requires Lacks(a, SP)
    ensures var s := a + [SP] + b;
            IndexByte(s, SP) == |a| && s[..|a|] == a && s[|a| + 1..] == b
  {
    var s := a + [SP] + b;
    assert s[|a|] == SP;
    assert forall j :: 0 <= j < |a| ==> s[j] == a[j];
  }

  lemma {:induction false} RequestLineParses(r: Request)
    requires r.verb != Unknown && r.major < 10 && r.minor < 10 && TargetOk(r)
    ensures ParseRequestLine(PrintRequestLine(r)) ==
            Ok(r.(headers := [], contentLength := -1, host := None, body := [], keepAlive := PersistentByVersion(r.major, r.minor)))
  {
    var verb, target, version := Spelling(r.verb), PrintTarget(r), PrintVersion(r);
    SpellingInvertible(r.verb);
    VersionParses(r);
    TargetSplits(r);
    ThreeParts(verb, target, version);
    Reassociate(r);
    PartsAreRequest(r, target, version);
  }

  lemma {:induction false} Reassociate(r: Request)
    requires r.major < 10 && r.minor < 10
    ensures PrintRequestLine(r) == Spelling(r.verb) + [SP] + (PrintTarget(r) + [SP] + PrintVersion(r))
  {
  }

  lemma {:induction false} PartsAreRequest(r: Request, target: bytes, version: bytes)
    requires VersionOk(version) && version[5] == 48 + r.major && version[7] == 48 + r.minor
    requires var q := IndexByte(target, QUESTION);
             && (q >= 0 <==> r.query.Some?)
             && r.path == (if q >= 0 then target[..q] else target)
             && (q >= 0 ==> r.query.value == target[q + 1..])
    ensures RequestOf(r.verb, target, version) ==
            r.(headers := [], contentLength := -1, host := None, body := [], keepAlive := PersistentByVersion(r.major, r.minor))
  {
    hide IndexByte;
  }

  lemma {:induction false} ThreeParts(verb: bytes, target: bytes, version: bytes)
    requires Lacks(verb, SP) && Lacks(target, SP) && verb != [] && target != []
    requires MethodOf(verb) != Unknown && VersionOk(version)
    ensures ParseRequestLine(verb + [SP] + (target + [SP] + version)) == Ok(RequestOf(MethodOf(verb), target, version))
  {
    hide IndexByte, MethodOf, VersionOk, RequestOf;
    SplitAtSpace(verb, target + [SP] + version);
    SplitAtSpace(target, version);
  }

  lemma {:induction false} RequestLineIsLine(r: Request)
    requires r.verb != Unknown && r.major < 10 && r.minor < 10 && TargetOk(r)
    ensures Lacks(PrintRequestLine(r), LF)
  {
    assert Lacks([SP], LF);
    hide Spelling, PrintTarget, PrintVersion, TargetOk, Lacks;
    SpellingInvertible(r.verb);
    TargetSplits(r);
    VersionParses(r);
    var verb, target, version := Spelling(r.verb), PrintTarget(r), PrintVersion(r);
  }

  lemma {:induction false} VersionParses(r: Request)
    requires r.major < 10 && r.minor < 10
    ensures VersionOk(PrintVersion(r)) && Lacks(PrintVersion(r), LF)
    ensures PrintVersion(r)[5] == 48 + r.major && PrintVersion(r)[7] == 48 + r.minor
  {
  }

  /* ---- the other direction: what an accepted request line was ---- */

  /** Only the exact spelling is taken for a method. */
  lemma {:induction false} MethodSpelled(b: bytes)
    ensures MethodOf(b) != Unknown ==> b == Spelling(MethodOf(b))
  {
  }

  lemma {:induction false} VersionSpelled(v: bytes)
    requires VersionOk(v)
    ensures v[5] - 48 < 10 && v[7] - 48 < 10
    ensures v == [72, 84, 84, 80, SLASH, Digit(v[5] - 48), DOT, Digit(v[7] - 48)]
  {
    assert v[0] == v[..5][0] && v[1] == v[..5][1] && v[2] == v[..5][2] && v[3] == v[..5][3] && v[4] == v[..5][4];
  }

  lemma {:induction false} TargetSpelled(verb: Method, target: bytes, version: bytes)
    requires VersionOk(version)
    ensures PrintTarget(RequestOf(verb, target, version)) == target
  {
    var q := IndexByte(target, QUESTION);
    if q >= 0 {
      assert target == target[..q] + ([QUESTION] + target[q + 1..]);
    } else {
      assert target + [] == target;
    }
  }

  /** Three parts with single spaces before the second and the third. */
  ghost predicate InThree(line: bytes, verb: bytes, target: bytes, version: bytes) {
    && line == verb + [SP] + (target + [SP] + version)
    && verb != [] && target != [] && Lacks(verb, SP) && Lacks(target, SP)
  }

  /** The parts the parser cuts are such parts. */
  lemma {:induction false} CutsInThree(line: bytes)
    requires IndexByte(line, SP) > 0 && IndexByte(line[IndexByte(line, SP) + 1..], SP) > 0
    ensures var sp1 := IndexByte(line, SP);
            var rest := line[sp1 + 1..];
            var sp2 := IndexByte(rest, SP);
            InThree(line, line[..sp1], rest[..sp2], rest[sp2 + 1..])
  {
    hide IndexByte, Lacks;
    var rest := line[IndexByte(line, SP) + 1..];
    FirstPart(line, SP);
    FirstPart(rest, SP);
  }

  /** An accepted request line is, byte for byte, the printed line of the request it yields. */
  lemma {:induction false} LineSpelled(line: bytes)
    requires ParseRequestLine(line).Ok?
    ensures var r := ParseRequestLine(line).value;
            r.major < 10 && r.minor < 10 && line == PrintRequestLine(r)
  {
    hide MethodOf, Spelling, PrintTarget, VersionOk, PrintVersion, IndexByte, RequestOf, Lacks;
    var sp1 := IndexByte(line, SP);
    var rest := line[sp1 + 1..];
    var sp2 := IndexByte(rest, SP);
    var verb, target, version := line[..sp1], rest[..sp2], rest[sp2 + 1..];
    CutsInThree(line);
    MethodSpelled(verb);
    TargetSpelled(MethodOf(verb), target, version);
    VersionPrinted(MethodOf(verb), target, version);
    Reassociate(ParseRequestLine(line).value);
  }

  lemma {:induction false} VersionPrinted(verb: Method, target: bytes, version: bytes)
    requires VersionOk(version)
    ensures var r := RequestOf(verb, target, version);
            r.verb == verb && r.major < 10 && r.minor < 10 && PrintVersion(r) == version
  {
    VersionSpelled(version);
  }

  ghost predicate IsMethod(verb: bytes) {
    exists m: Method :: m != Unknown && verb == Spelling(m)
  }

  ghost predicate IsVersion(version: bytes) {
    exists major: nat, minor: nat :: major < 10 && minor < 10 && version == [72, 84, 84, 80, SLASH, Digit(major), DOT, Digit(minor)]
  }

  /** Which error a request line gets, and when none: its parts decide, from the left. */
  lemma {:induction false} LineVerdict(line: bytes, verb: bytes, target: bytes, version: bytes)
    requires InThree(line, verb, target, version)
    ensures ParseRequestLine(line) == Err(BadMethod) <==> !IsMethod(verb)
    ensures ParseRequestLine(line) == Err(BadVersion) <==> IsMethod(verb) && !IsVersion(version)
    ensures ParseRequestLine(line).Ok? <==> IsMethod(verb) && IsVersion(version)
  {
    hide MethodOf, VersionOk, RequestOf, Spelling;
    SplitAtSpace(verb, target + [SP] + version);
    SplitAtSpace(target, version);
    MethodIff(verb);
    VersionIff(version);
  }

  lemma {:induction false} MethodIff(verb: bytes)
    ensures IsMethod(verb) <==> MethodOf(verb) != Unknown
  {
    hide MethodOf, Spelling;
    MethodSpelled(verb);
    if IsMethod(verb) {
      var m: Method :| m != Unknown && verb == Spelling(m);
      SpellingInvertible(m);
    }
  }

  lemma {:induction false} VersionIff(version: bytes)
    ensures IsVersion(version) <==> VersionOk(version)
  {
    if VersionOk(version) {
      VersionSpelled(version);
    }
  }

  /** Without such parts, and only then, it is malformed. */
  lemma {:induction false} LineMalformed(line: bytes)
    ensures ParseRequestLine(line) == Err(Malformed) <==> !exists verb, target, version :: InThree(line, verb, target, version)
  {
    hide MethodOf, VersionOk, RequestOf, IndexByte, InThree, IsMethod, IsVersion;
    if verb, target, version :| InThree(line, verb, target, version) {
      LineVerdict(line, verb, target, version);
    }
    var sp1 := IndexByte(line, SP);
    if sp1 > 0 && IndexByte(line[sp1 + 1..], SP) > 0 {
      CutsInThree(line);
    }
  }

  /* ---- the other direction: everything accepted is well formed ---- */

  lemma {:induction false} TargetAccepted(line: bytes)
    requires Lacks(line, LF) && ParseRequestLine(line).Ok?
    ensures var r := ParseRequestLine(line).value;
            r.verb != Unknown && r.major < 10 && r.minor < 10 && TargetOk(r) && r.headers == [] && r.body == []
  {
    hide IndexByte, MethodOf, RequestOf, TargetOk;
    var sp1 := IndexByte(line, SP);
    var rest := line[sp1 + 1..];
    var sp2 := IndexByte(rest, SP);
    FirstPart(rest, SP);
    RequestOfTarget(MethodOf(line[..sp1]), rest[..sp2], rest[sp2 + 1..]);
  }

  /** What lies before the first occurrence of a byte lacks it. */
  lemma {:induction false} FirstPart(b: bytes, c: byte)
    requires IndexByte(b, c) >= 0
    ensures Lacks(b[..IndexByte(b, c)], c)
  {
  }

  lemma {:induction false} RequestOfTarget(verb: Method, target: bytes, version: bytes)
    requires VersionOk(version) && target != [] && Lacks(target, SP) && Lacks(target, LF)
    ensures var r := RequestOf(verb, target, version);
            r.verb == verb && r.major < 10 && r.minor < 10 && TargetOk(r) && r.headers == [] && r.body == []
  {
  }

  /** What an accepted header line is: a well-formed header, spelled. */
  lemma {:induction false} HeaderAccepted(line: bytes, st: HeadState)
    requires Lacks(line, LF) && ParseHeader(line, st).Ok?
    ensures ParseHeader(line, st).value.req.headers != []
    ensures var hs := ParseHeader(line, st).value.req.headers;
            hs[..|hs| - 1] == st.req.headers && HeaderOk(hs[|hs| - 1]) && SpellsHeader(line, hs[|hs| - 1])
  {
    hide IndexByte, TrimLeft, TrimRight, AddHeader, IsName, SpellsHeader;
    var colon := IndexByte(line, COLON);
    var raw := line[colon + 1..];
    var h := Header(line[..colon], TrimRight(TrimLeft(raw)));
    AddedLast(st, h);
    LacksPart(line, colon + 1, |line|, LF);
    ValueTrimmed(raw);
    assert (st.req.headers + [h])[..|st.req.headers|] == st.req.headers;
    assert line == h.name + [COLON] + raw;
    Padded(h, raw);
  }

  lemma {:induction false} Padded(h: Header, raw: bytes)
    requires h.value == TrimRight(TrimLeft(raw))
    ensures SpellsHeader(h.name + [COLON] + raw, h)
  {
    hide TrimLeft, TrimRight, AllBlank, SpellsHeader;
    var part := TrimLeft(raw);
    var left, right := raw[..|raw| - |part|], part[|h.value|..];
    Blanks(raw, part, h.value);
    InPieces(left, h.value, right);
    PiecesSpell(h, left, right);
  }

  lemma {:induction false} InPieces(a: bytes, b: bytes, c: bytes)
    ensures a + (b + c) == a + b + c
  {
  }

  lemma {:induction false} PiecesSpell(h: Header, left: bytes, right: bytes)
    requires AllBlank(left) && AllBlank(right)
    ensures SpellsHeader(h.name + [COLON] + (left + h.value + right), h)
  {
    hide AllBlank;
  }

  lemma {:induction false} Blanks(raw: bytes, part: bytes, value: bytes)
    requires part == TrimLeft(raw) && value == TrimRight(part)
    ensures |value| <= |part| <= |raw|
    ensures AllBlank(raw[..|raw| - |part|]) && AllBlank(part[|value|..])
    ensures raw == raw[..|raw| - |part|] + part && part == value + part[|value|..]
  {
    hide TrimLeft, TrimRight;
  }

  lemma {:induction false} AddedLast(st: HeadState, h: Header)
    requires AddHeader(st, h).Ok?
    ensures AddHeader(st, h).value.req.headers == st.req.headers + [h]
  {
    hide EqFold, Decimal;
  }

  lemma {:induction false} ValueTrimmed(raw: bytes)
    requires Lacks(raw, LF)
    ensures var v := TrimRight(TrimLeft(raw));
            Lacks(v, LF) && (v != [] ==> !IsBlank(v[0]) && !IsBlank(v[|v| - 1]))
  {
  }

  lemma {:induction false} HeadersAccepted(b: bytes, start: nat, pos: nat, st: HeadState)
    requires start <= pos <= |b| && HeadersOk(st.req.headers) && ParseHeaders(b, start, pos, st).Done?
    ensures HeadersOk(ParseHeaders(b, start, pos, st).req.headers)
    decreases |b| - pos
  {
    hide ParseHeader, FindEol, HeaderOk;
    var t := TurnAt(b, start, pos, st);
    if t.Line? {
      HeaderAccepted(t.line, st);
      HeadersAccepted(b, start, t.after, ParseHeader(t.line, st).value);
    }
  }

  /**
   The parser accepts only well-formed requests: whatever spelling a request
   arrived in, its printed form, when within the limits, parses to it again.
   */
  lemma {:induction false} AcceptedIsWellFormed(b: bytes)
    requires Parse(b).Done?
    ensures WellFormed(Parse(b).req)
  {
    hide ParseRequestLine, ParseHeaders, FindEol, TargetOk, HeadersOk, FramingOf, HostOf, KeepAliveOf, Faithful;
    var e := FindEol(b);
    AcceptedFraming(b);
    TargetAccepted(b[..e.at]);
    NoHeadersOk();
    var st := HeadState(ParseRequestLine(b[..e.at]).value, false, false);
    HeadersAccepted(b, e.at + e.skip, e.at + e.skip, st);
    RequestLineFaithful(b[..e.at]);
    HeadersFaithful(b, e.at + e.skip, e.at + e.skip, st);
    SameTarget(st.req, Parse(b).req);
  }

  lemma {:induction false} NoHeadersOk()
    ensures HeadersOk([])
  {
  }

  lemma {:induction false} SameTarget(r: Request, s: Request)
    requires TargetOk(r) && r.path == s.path && r.query == s.query
    ensures TargetOk(s)
  {
  }
}

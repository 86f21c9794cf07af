/** Byte strings and the small scanners the request parser is built from. */
module HttpBytes {
  import opened Options

  type byte = x: int | 0 <= x < 0x100
  type bytes = seq<byte>

  const TAB: byte := 9
  const LF: byte := 10
  const CR: byte := 13
  const SP: byte := 32
  const DOT: byte := 46
  const SLASH: byte := 47
  const COLON: byte := 58
  const QUESTION: byte := 63

  const HOST: bytes := [72, 111, 115, 116]
  const CONNECTION: bytes := [67, 111, 110, 110, 101, 99, 116, 105, 111, 110]
  const CONTENT_LENGTH: bytes := [67, 111, 110, 116, 101, 110, 116, 45, 76, 101, 110, 103, 116, 104]
  const TRANSFER_ENCODING: bytes := [84, 114, 97, 110, 115, 102, 101, 114, 45, 69, 110, 99, 111, 100, 105, 110, 103]
  const CLOSE: bytes := [99, 108, 111, 115, 101]
  const KEEP_ALIVE: bytes := [107, 101, 101, 112, 45, 97, 108, 105, 118, 101]
  const CHUNKED: bytes := [99, 104, 117, 110, 107, 101, 100]

  predicate IsAscii(s: string) {
    forall i :: 0 <= i < |s| ==> s[i] < 128 as char
  }

  /** The bytes of a text. */
  function Ascii(s: string): bytes
    requires IsAscii(s)
  {
    seq(|s|, i requires 0 <= i < |s| => s[i] as int)
  }

  lemma {:induction false} NamesSpelled()
    ensures HOST == Ascii("Host") && CONNECTION == Ascii("Connection")
    ensures CONTENT_LENGTH == Ascii("Content-Length") && TRANSFER_ENCODING == Ascii("Transfer-Encoding")
    ensures CLOSE == Ascii("close") && KEEP_ALIVE == Ascii("keep-alive") && CHUNKED == Ascii("chunked")
    ensures [TAB, LF, CR, SP, DOT, SLASH, COLON, QUESTION] == Ascii("\t\n\r ./:?")
  {
  }

  /** bytes.IndexByte: the first position of c, -1 when absent. */
  function IndexByte(b: bytes, c: byte): (i: int)
    ensures -1 <= i < |b|
    ensures i >= 0 ==> b[i] == c && forall j :: 0 <= j < i ==> b[j] != c
    ensures i == -1 ==> c !in b
  {
    if b == [] then -1
    else if b[0] == c then 0
    else
      var rest := IndexByte(b[1..], c);
      if rest < 0 then -1 else rest + 1
  }

  /** No occurrence of c. */
  predicate Lacks(b: bytes, c: byte) {
    c !in b
  }

  /** A line end: CRLF counts as one terminator, bare LF is accepted. */
  datatype Eol = NoEol | Eol(at: nat, skip: nat)

  function FindEol(b: bytes): (e: Eol)
    ensures e.Eol? ==>
      && 1 <= e.skip <= 2 && e.at + e.skip <= |b|
      && b[e.at + e.skip - 1] == LF && LF !in b[..e.at]
      && (e.skip == 2 ==> b[e.at] == CR)
      && (e.skip == 1 && e.at > 0 ==> b[e.at - 1] != CR)
    ensures e.NoEol? ==> LF !in b
  {
    var i := IndexByte(b, LF);
    if i < 0 then NoEol
    else if i > 0 && b[i - 1] == CR then Eol(i - 1, 2)
    else Eol(i, 1)
  }

  /** The terminator of line + CRLF + rest comes right after the line. */
  lemma {:induction false} FindEolOfLine(line: bytes, rest: bytes)
    requires LF !in line
    ensures FindEol(line + [CR, LF] + rest) == Eol(|line|, 2)
  {
    var b := line + [CR, LF] + rest;
    assert b[|line|] == CR && b[|line| + 1] == LF;
    assert forall j :: 0 <= j < |line| ==> b[j] == line[j];
  }

  /** Bytes after a terminator do not move it, and none before its end can be missing. */
  lemma {:induction false} FindEolExtends(b: bytes, c: bytes, n: nat)
    requires n <= |b| && n <= |c| && b[..n] == c[..n]
    requires FindEol(b).Eol? && FindEol(b).at + FindEol(b).skip <= n
    ensures FindEol(c) == FindEol(b)
  {
    var i := IndexByte(b, LF);
    assert forall j :: 0 <= j < n ==> b[j] == b[..n][j] && c[j] == c[..n][j];
  }

  lemma {:induction false} LacksPart(b: bytes, lo: nat, hi: nat, c: byte)
    requires lo <= hi <= |b| && Lacks(b, c)
    ensures Lacks(b[lo..hi], c)
  {
  }

  function Lower(c: byte): byte {
    if 65 <= c <= 90 then c + 32 else c
  }

  /** ASCII case-insensitive equality. */
  predicate EqFold(a: bytes, b: bytes) {
    |a| == |b| && forall i :: 0 <= i < |a| ==> Lower(a[i]) == Lower(b[i])
  }

  /** Two bytes fold alike when they are equal or the two cases of one letter. */
  lemma {:induction false} FoldIff(a: byte, b: byte)
    ensures Lower(a) == Lower(b) <==> a == b || (65 <= a <= 90 && b == a + 32) || (65 <= b <= 90 && a == b + 32)
  {
  }

  function LowerAll(b: bytes): bytes {
    if b == [] then [] else LowerAll(b[..|b| - 1]) + [Lower(b[|b| - 1])]
  }

  lemma {:induction false} LowerAllIs(b: bytes)
    ensures |LowerAll(b)| == |b| && forall i :: 0 <= i < |b| ==> LowerAll(b)[i] == Lower(b[i])
  {
    if b != [] {
      LowerAllIs(b[..|b| - 1]);
    }
  }

  /** Names fold alike exactly when they are the same in lower case. */
  lemma {:induction false} EqFoldIff(a: bytes, b: bytes)
    ensures EqFold(a, b) <==> LowerAll(a) == LowerAll(b)
  {
    LowerAllIs(a);
    LowerAllIs(b);
  }

  predicate IsBlank(c: byte) {
    c == SP || c == TAB
  }

  function TrimLeft(b: bytes): (r: bytes)
    ensures |r| <= |b| && r == b[|b| - |r|..]
    ensures r != [] ==> !IsBlank(r[0])
    ensures forall i :: 0 <= i < |b| - |r| ==> IsBlank(b[i])
  {
    if b != [] && IsBlank(b[0]) then TrimLeft(b[1..]) else b
  }

  function TrimRight(b: bytes): (r: bytes)
    ensures |r| <= |b| && r == b[..|r|]
    ensures r != [] ==> !IsBlank(r[|r| - 1])
    ensures forall i :: |r| <= i < |b| ==> IsBlank(b[i])
  {
    if b != [] && IsBlank(b[|b| - 1]) then TrimRight(b[..|b| - 1]) else b
  }

  predicate IsDigit(c: byte) {
    48 <= c <= 57
  }

  predicate IsToken(c: byte) {
    || 97 <= c <= 122 || 65 <= c <= 90 || IsDigit(c)
    || c == 33 || 35 <= c <= 39 || c == 42 || c == 43 || c == 45 || c == 46 || 94 <= c <= 96 || c == 124 || c == 126
  }

  /** The token bytes of section 3.2.6 of RFC 7230: visible bytes other than the delimiters. */
  lemma {:induction false} TokenIff(c: byte)
    ensures IsToken(c) <==> 33 <= c <= 126 && c !in Ascii("\"(),/:;<=>?@[\\]{}")
  {
    var d := Ascii("\"(),/:;<=>?@[\\]{}");
    assert d == [34, 40, 41, 44, 47, 58, 59, 60, 61, 62, 63, 64, 91, 92, 93, 123, 125];
  }

  ghost predicate AllDigits(b: bytes) {
    forall i :: 0 <= i < |b| ==> IsDigit(b[i])
  }

  /** The number a digit string denotes. */
  ghost function Value(b: bytes): nat
    requires AllDigits(b)
  {
    if b == [] then 0 else 10 * Value(b[..|b| - 1]) + (b[|b| - 1] - 48)
  }

  /** A nonempty digit string denoting less than 2^62 is its value, anything else is refused. */
  ghost function Decimal(b: bytes): Option<nat> {
    if b != [] && AllDigits(b) && Value(b) < 0x4000_0000_0000_0000 then Some(Value(b)) else None
  }

  lemma {:induction false} ValueGrows(b: bytes, n: nat)
    requires AllDigits(b) && n <= |b|
    ensures Value(b[..n]) <= Value(b)
  {
    if n == |b| {
      assert b[..n] == b;
    } else {
      ValueGrows(b[..|b| - 1], n);
      assert b[..|b| - 1][..n] == b[..n];
    }
  }

  /** The overflow guard on a running int64 value refuses exactly the numbers from 2^62 up. */
  method ParseDecimal(b: bytes) returns (n: int, ok: bool)
    ensures ok == Decimal(b).Some?
    ensures ok ==> n == Decimal(b).value
  {
    if |b| == 0 {
      return 0, false;
    }
    n := 0;
    for i := 0 to |b|
      invariant AllDigits(b[..i]) && n == Value(b[..i]) < 0x4000_0000_0000_0000
    {
      var c := b[i];
      assert b[..i + 1][..i] == b[..i];
      if c < 48 || c > 57 {
        return 0, false;
      }
      var d: int := c - 48;
      assert Value(b[..i + 1]) == 10 * n + d;
      if n > (0x4000_0000_0000_0000 - 1 - d) / 10 {
        if AllDigits(b) {
          ValueGrows(b, i + 1);
        }
        return 0, false;
      }
      n := n * 10 + d;
    }
    assert b[..|b|] == b;
    return n, true;
  }
}

/** Which stored variant of a page a request's headers choose. */
module AcceptedEncodings {
  import opened HttpBytes
  import opened HttpGrammar
  import opened PageSpec

  const COMMA: byte := 44
  const SEMICOLON: byte := 59
  const ACCEPT_ENCODING: bytes := [65, 99, 99, 101, 112, 116, 45, 69, 110, 99, 111, 100, 105, 110, 103]
  const BR: bytes := [98, 114]
  const GZIP: bytes := [103, 122, 105, 112]

  /** tok stands at i as a whole list element: a separator or the end on both sides. */
  predicate TokenAt(v: bytes, tok: bytes, i: nat) {
    && i + |tok| <= |v|
    && v[i..i + |tok|] == tok
    && (i > 0 ==> v[i - 1] == COMMA || v[i - 1] == SP || v[i - 1] == TAB)
    && (i + |tok| < |v| ==>
          var next := v[i + |tok|];
          next == COMMA || next == SP || next == TAB || next == SEMICOLON)
  }

  predicate HasToken(v: bytes, tok: bytes) {
    exists i: nat :: i <= |v| && TokenAt(v, tok, i)
  }

  lemma {:induction false} CodingsSpelled()
    ensures ACCEPT_ENCODING == Ascii("Accept-Encoding") && BR == Ascii("br") && GZIP == Ascii("gzip")
    ensures [COMMA, SEMICOLON] == Ascii(",;")
  {
  }

  /** One element of a list of codings: a token, parameters from a semicolon on, and what separates it from the next. */
  datatype Coding = Coding(token: bytes, params: bytes, sep: bytes)

  predicate Separates(c: byte) {
    c == 44 || c == 32 || c == 9
  }

  ghost predicate Listable(c: Coding) {
    && IsName(c.token)
    && (c.params != [] ==> c.params[0] == SEMICOLON)
    && (forall i :: 0 <= i < |c.params| ==> !Separates(c.params[i]))
    && (forall i :: 0 <= i < |c.sep| ==> Separates(c.sep[i]))
  }

  function Element(c: Coding): bytes {
    c.token + c.params + c.sep
  }

  /** Elements one behind the other, separated. */
  ghost predicate ListOk(codings: seq<Coding>) {
    forall i :: 0 <= i < |codings| ==> Listable(codings[i]) && (i < |codings| - 1 ==> codings[i].sep != [])
  }

  function Listed(codings: seq<Coding>): bytes {
    if codings == [] then [] else Element(codings[0]) + Listed(codings[1..])
  }

  lemma {:induction false} PartAt(c: Coding, v: bytes, i: nat)
    requires Element(c) <= v && i < |Element(c)|
    ensures v[i] == if i < |c.token| then c.token[i]
                    else if i < |c.token| + |c.params| then c.params[i - |c.token|]
                    else c.sep[i - |c.token| - |c.params|]
  {
    assert v[i] == Element(c)[i];
  }

  /** The first token of a list is that of its first element. */
  lemma {:induction false} FirstToken(v: bytes, c: Coding, tok: bytes)
    requires Listable(c) && IsName(tok) && Element(c) <= v && (c.sep == [] ==> v == Element(c))
    ensures TokenAt(v, tok, 0) <==> tok == c.token
  {
    hide Element;
    var n := |c.token|;
    assert |Element(c)| == n + |c.params| + |c.sep| by { Lengths(c); }
    forall j | 0 <= j < n ensures v[j] == c.token[j] {
      PartAt(c, v, j);
    }
    if n < |v| {
      PartAt(c, v, n);
    }
    if TokenAt(v, tok, 0) {
      assert forall j :: 0 <= j < |tok| ==> v[j] == v[0..|tok|][j] == tok[j];
      assert |tok| == n;
    }
    assert v[0..n] == c.token;
  }

  lemma {:induction false} Lengths(c: Coding)
    ensures |Element(c)| == |c.token| + |c.params| + |c.sep|
  {
  }

  /** No token stands anywhere else in the first element. */
  lemma {:induction false} NoneInside(v: bytes, c: Coding, tok: bytes, i: nat)
    requires Listable(c) && IsName(tok) && Element(c) <= v && 0 < i < |Element(c)|
    ensures !TokenAt(v, tok, i)
  {
    hide Element;
    Lengths(c);
    PartAt(c, v, i - 1);
    PartAt(c, v, i);
    assert i + |tok| <= |v| ==> v[i..i + |tok|][0] == v[i];
  }

  lemma {:induction false} Shifted(v: bytes, front: bytes, w: bytes, tok: bytes, i: nat)
    requires v == front + w && front != [] && Separates(front[|front| - 1])
    ensures TokenAt(v, tok, |front| + i) <==> TokenAt(w, tok, i)
  {
    var k := |front| + i;
    assert i + |tok| <= |w| ==> v[k..k + |tok|] == w[i..i + |tok|];
    assert i > 0 && i <= |w| ==> v[k - 1] == w[i - 1];
  }

  /** In a list of codings a token is found exactly when it is one of the list's, whatever its parameters say. */
  lemma {:induction false} FoundIffListed(codings: seq<Coding>, tok: bytes)
    requires IsName(tok) && ListOk(codings)
    ensures HasToken(Listed(codings), tok) <==> exists i :: 0 <= i < |codings| && codings[i].token == tok
  {
    hide TokenAt, Listable, Element, IsName;
    var v := Listed(codings);
    NothingListed(tok);
    if codings != [] {
      var c, a := codings[0], Element(codings[0]);
      var w := Listed(codings[1..]);
      FoundIffListed(codings[1..], tok);
      Lengths(c);
      assert a <= v && (|codings| == 1 ==> v == a);
      if |codings| > 1 {
        EndsSeparated(c);
        forall i: nat ensures TokenAt(w, tok, i) <==> TokenAt(v, tok, |a| + i) {
          Shifted(v, a, w, tok, i);
        }
      }
      FirstToken(v, c, tok);
      forall i: nat | 0 < i < |a| ensures !TokenAt(v, tok, i) {
        NoneInside(v, c, tok, i);
      }
      FoundBehind(v, tok, |a|, w, |codings| > 1);
      assert forall i :: 0 < i < |codings| ==> codings[i] == codings[1..][i - 1];
    }
  }

  lemma {:induction false} EndsSeparated(c: Coding)
    requires Listable(c) && c.sep != []
    ensures Element(c) != [] && Separates(Element(c)[|Element(c)| - 1])
  {
  }

  lemma {:induction false} NothingListed(tok: bytes)
    requires IsName(tok)
    ensures !HasToken([], tok)
    ensures forall v, i: nat :: i >= |v| ==> !TokenAt(v, tok, i)
  {
  }

  lemma {:induction false} FoundBehind(v: bytes, tok: bytes, n: nat, w: bytes, more: bool)
    requires (forall i: nat :: 0 < i < n ==> !TokenAt(v, tok, i)) && (forall i: nat :: i >= |v| ==> !TokenAt(v, tok, i))
    requires if more then |v| == n + |w| && forall i: nat :: TokenAt(w, tok, i) <==> TokenAt(v, tok, n + i) else |v| == n
    ensures HasToken(v, tok) <==> TokenAt(v, tok, 0) || (more && HasToken(w, tok))
  {
    hide TokenAt;
    if i: nat :| 0 < i <= |v| && TokenAt(v, tok, i) {
      assert n <= i && n + (i - n) == i;
      assert TokenAt(w, tok, i - n);
    }
    if more && HasToken(w, tok) {
      var i: nat :| i <= |w| && TokenAt(w, tok, i);
      assert TokenAt(v, tok, n + i);
    }
  }

  /** The first Accept-Encoding header decides; without one nothing compressed is accepted. */
  function AcceptOf(headers: seq<Header>): Accept {
    if headers == [] then Accept(false, false)
    else if EqFold(headers[0].name, ACCEPT_ENCODING) then Accept(HasToken(headers[0].value, BR), HasToken(headers[0].value, GZIP))
    else AcceptOf(headers[1..])
  }

  /** Which header decides, by its place; a list of codings is accepted for the codings it lists. */
  lemma {:induction false} AcceptIs(headers: seq<Header>, i: nat)
    requires i <= |headers| && forall j :: 0 <= j < i ==> !EqFold(headers[j].name, Ascii("Accept-Encoding"))
    ensures i == |headers| ==> AcceptOf(headers) == Accept(false, false)
    ensures i < |headers| && EqFold(headers[i].name, Ascii("Accept-Encoding")) ==>
              AcceptOf(headers) == Accept(HasToken(headers[i].value, Ascii("br")), HasToken(headers[i].value, Ascii("gzip")))
  {
    CodingsSpelled();
    if i > 0 {
      assert forall j :: 0 <= j < i - 1 ==> headers[1..][j] == headers[j + 1];
      AcceptIs(headers[1..], i - 1);
    }
  }

  method HeaderNameEqual(a: bytes, b: bytes) returns (same: bool)
    ensures same == EqFold(a, b)
  {
    if |a| != |b| {
      return false;
    }
    for i := 0 to |a|
      invariant forall j :: 0 <= j < i ==> Lower(a[j]) == Lower(b[j])
    {
      var ca: int, cb: int := a[i], b[i];
      if 65 <= ca <= 90 {
        ca := ca + 32;
      }
      if 65 <= cb <= 90 {
        cb := cb + 32;
      }
      if ca != cb {
        return false;
      }
    }
    return true;
  }

  method ContainsToken(v: bytes, tok: bytes) returns (found: bool)
    ensures found == HasToken(v, tok)
  {
    var n := |tok|;
    var i := 0;
    while i + n <= |v|
      invariant forall k: nat :: k < i ==> !TokenAt(v, tok, k)
    {
      var same := true;
      var j := 0;
      while j < n && same
        invariant j <= n
        invariant same ==> v[i..i + j] == tok[..j]
        invariant !same ==> v[i..i + n] != tok
        decreases n - j, same
      {
        if v[i + j] != tok[j] {
          assert v[i..i + n][j] != tok[j];
          same := false;
        } else {
          assert v[i..i + j + 1] == v[i..i + j] + [v[i + j]] && tok[..j + 1] == tok[..j] + [tok[j]];
          j := j + 1;
        }
      }
      assert same ==> tok[..n] == tok;
      if same {
        var opens := i == 0 || v[i - 1] == COMMA || v[i - 1] == SP || v[i - 1] == TAB;
        var closes := i + n == |v| || v[i + n] == COMMA || v[i + n] == SP || v[i + n] == TAB || v[i + n] == SEMICOLON;
        if opens && closes {
          assert TokenAt(v, tok, i);
          return true;
        }
      }
      assert !TokenAt(v, tok, i);
      i := i + 1;
    }
    return false;
  }

  method AcceptsCompressedEncodings(headers: seq<Header>) returns (br: bool, gz: bool)
    ensures Accept(br, gz) == AcceptOf(headers)
  {
    assert headers[0..] == headers;
    for i := 0 to |headers|
      invariant AcceptOf(headers) == AcceptOf(headers[i..])
    {
      assert headers[i..][0] == headers[i] && headers[i..][1..] == headers[i + 1..];
      var named := HeaderNameEqual(headers[i].name, ACCEPT_ENCODING);
      if named {
        br := ContainsToken(headers[i].value, BR);
        gz := ContainsToken(headers[i].value, GZIP);
        return;
      }
    }
    return false, false;
  }

  method PickHoleVariant(v: Variants, headers: seq<Header>) returns (body: Body)
    ensures body == Pick(v, AcceptOf(headers))
  {
    var br, gz := AcceptsCompressedEncodings(headers);
    if br && |v.brotli.body| > 0 {
      return v.brotli;
    }
    if gz && |v.gzip.body| > 0 {
      return v.gzip;
    }
    return v.identity;
  }
}

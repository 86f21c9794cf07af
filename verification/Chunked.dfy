/**
 Streamed responses: the writer that turns each write into one chunk, and a
 decoder for section 4.1 of RFC 7230 (no extensions, no trailer fields).
 */
module Chunked {
  import opened HttpBytes

  const CRLF: bytes := [CR, LF]
  const TRAILER: bytes := [48, 13, 10, 13, 10]

  lemma {:induction false} TrailerSpelled()
    ensures TRAILER == Ascii("0\r\n\r\n") && CRLF == Ascii("\r\n")
  {
  }

  /* ---- sizes in hexadecimal ---- */

  function HexDigit(n: nat): byte
    requires n < 16
  {
    if n < 10 then 48 + n else 87 + n
  }

  /** Sizes are written with lower-case digits and read with either. */
  lemma {:induction false} DigitsSpelled(n: nat)
    requires n < 16
    ensures HexDigit(n) == Ascii("0123456789abcdef")[n]
    ensures IsHex(Ascii("0123456789ABCDEF")[n]) && HexDigitValue(Ascii("0123456789ABCDEF")[n]) == n
  {
    assert Ascii("0123456789abcdef") == [48, 49, 50, 51, 52, 53, 54, 55, 56, 57, 97, 98, 99, 100, 101, 102];
    assert Ascii("0123456789ABCDEF") == [48, 49, 50, 51, 52, 53, 54, 55, 56, 57, 65, 66, 67, 68, 69, 70];
  }

  /** No size starts with a zero digit, except zero itself. */
  lemma {:induction false} NoLeadingZero(n: nat)
    requires n > 0
    ensures Hex(n)[0] != 48
    decreases n
  {
    if n >= 16 {
      NoLeadingZero(n / 16);
    }
  }

  predicate IsHex(c: byte) {
    48 <= c <= 57 || 65 <= c <= 70 || 97 <= c <= 102
  }

  function HexDigitValue(c: byte): (v: nat)
    requires IsHex(c)
    ensures v < 16
  {
    if c <= 57 then c - 48 else if c <= 70 then c - 55 else c - 87
  }

  /** strconv.AppendUint in base 16: lower case, no leading zero. */
  function Hex(n: nat): (h: bytes)
    ensures |h| > 0
    decreases n
  {
    if n < 16 then [HexDigit(n)] else Hex(n / 16) + [HexDigit(n % 16)]
  }

  predicate AllHex(b: bytes) {
    forall i :: 0 <= i < |b| ==> IsHex(b[i])
  }

  function HexValue(b: bytes): nat
    requires AllHex(b)
  {
    if b == [] then 0 else 16 * HexValue(b[..|b| - 1]) + HexDigitValue(b[|b| - 1])
  }

  lemma {:induction false} HexRoundTrip(n: nat)
    ensures AllHex(Hex(n)) && HexValue(Hex(n)) == n
    decreases n
  {
    var d := [HexDigit(n % 16)];
    if n < 16 {
      assert Hex(n) == d && d[..0] == [];
    } else {
      HexRoundTrip(n / 16);
      assert (Hex(n / 16) + d)[..|Hex(n / 16)|] == Hex(n / 16);
    }
  }

  /** How many leading bytes are hexadecimal digits. */
  function HexRun(b: bytes): (k: nat)
    ensures k <= |b| && AllHex(b[..k]) && (k < |b| ==> !IsHex(b[k]))
  {
    if b != [] && IsHex(b[0]) then 1 + HexRun(b[1..]) else 0
  }

  /* ---- the decoder ---- */

  datatype Size = NoSize | Size(size: nat, at: nat)

  datatype Body = Incomplete | Body(data: bytes, n: nat)

  predicate EolAt(s: bytes, i: nat) {
    i + 2 <= |s| && s[i] == CR && s[i + 1] == LF
  }

  /** The size line at the start: the size and where the data begins. */
  function SizeLine(s: bytes): (r: Size)
    ensures r.Size? ==> 2 < r.at <= |s|
  {
    var k := HexRun(s);
    if k == 0 || !EolAt(s, k) then NoSize
    else Size(HexValue(s[..k]), k + 2)
  }

  /** The body a chunked message starts with, and how many bytes it takes up. */
  function Decode(s: bytes): Body
    decreases |s|
  {
    match SizeLine(s)
    case NoSize => Incomplete
    case Size(size, at) =>
      var end := at + size;
      if !EolAt(s, end) then Incomplete
      else if size == 0 then Body([], end + 2)
      else Behind(s[at..end], end + 2, Decode(s[end + 2..]))
  }

  /** A body whose first chunk, data and framing, comes before another body. */
  function Behind(data: bytes, framed: nat, rest: Body): Body {
    if rest.Body? then Body(data + rest.data, framed + rest.n) else Incomplete
  }

  /* ---- the writer ---- */

  function Chunk(b: bytes): bytes {
    if b == [] then [] else Hex(|b|) + CRLF + b + CRLF
  }

  function Encode(ws: seq<bytes>): bytes {
    if ws == [] then [] else Encode(ws[..|ws| - 1]) + Chunk(ws[|ws| - 1])
  }

  function Concat(ws: seq<bytes>): bytes {
    if ws == [] then [] else Concat(ws[..|ws| - 1]) + ws[|ws| - 1]
  }

  /** The fate of one write on the connection: it may fail after a part of its bytes. */
  datatype Fate = Delivered | CutAfter(n: nat)

  class Wire {
    var sent: bytes
    var fates: seq<Fate>

    constructor (fates: seq<Fate>)
      ensures sent == [] && this.fates == fates
    {
      this.sent, this.fates := [], fates;
    }

    method Send(data: bytes) returns (ok: bool)
      modifies this
      ensures ok == Delivers(old(fates)) && fates == Later(old(fates))
      ensures sent == old(sent) + Arrived(old(fates), data)
    {
      if fates == [] || fates[0].Delivered? {
        sent := sent + data;
        fates := Later(fates);
        return true;
      }
      var n := if fates[0].n < |data| then fates[0].n else |data|;
      sent := sent + data[..n];
      fates := fates[1..];
      return false;
    }
  }

  /** Writes beyond the listed fates succeed. */
  predicate Delivers(fates: seq<Fate>) {
    fates == [] || fates[0].Delivered?
  }

  predicate AllDelivered(fates: seq<Fate>) {
    forall i :: 0 <= i < |fates| ==> fates[i].Delivered?
  }

  function Later(fates: seq<Fate>): seq<Fate> {
    if fates == [] then [] else fates[1..]
  }

  /** The part of one write that reaches the wire. */
  function Arrived(fates: seq<Fate>, data: bytes): (part: bytes)
    ensures part <= data
  {
    if Delivers(fates) || fates[0].n >= |data| then data else data[..fates[0].n]
  }

  class ChunkedWriter {
    const conn: Wire
    var failed: bool

    constructor (conn: Wire)
      ensures this.conn == conn && !failed
    {
      this.conn, failed := conn, false;
    }

    /** One chunk; an empty write is skipped, and after a failure nothing is written any more. */
    method Write(b: bytes) returns (n: nat, ok: bool)
      modifies this, conn
      ensures if old(failed) || b == [] then
                failed == old(failed) && conn.sent == old(conn.sent) && conn.fates == old(conn.fates)
              else
                && failed == !Delivers(old(conn.fates)) && conn.fates == Later(old(conn.fates))
                && conn.sent == old(conn.sent) + Arrived(old(conn.fates), Chunk(b))
      ensures ok <==> !failed
      ensures n == if ok then |b| else 0
    {
      if failed {
        return 0, false;
      }
      if |b| == 0 {
        return 0, true;
      }
      var sent := conn.Send(Hex(|b|) + CRLF + b + CRLF);
      if !sent {
        failed := true;
        return 0, false;
      }
      return |b|, true;
    }

    method WriteTrailer() returns (ok: bool)
      modifies conn
      ensures failed ==> !ok && conn.sent == old(conn.sent)
      ensures !failed ==> ok == Delivers(old(conn.fates)) && conn.sent == old(conn.sent) + Arrived(old(conn.fates), TRAILER)
    {
      if failed {
        return false;
      }
      ok := conn.Send(TRAILER);
    }

    /** A handler's writes in order, whatever each of them returned. */
    method WriteAll(ws: seq<bytes>)
      modifies this, conn
      ensures old(failed) ==> failed && conn.sent == old(conn.sent)
      ensures old(conn.sent) <= conn.sent <= old(conn.sent) + Encode(ws)
      ensures !failed ==> !old(failed) && conn.sent == old(conn.sent) + Encode(ws)
      ensures AllDelivered(old(conn.fates)) ==> failed == old(failed) && AllDelivered(conn.fates)
    {
      hide Encode, Chunk;
      NoWrites(ws);
      for i := 0 to |ws|
        invariant old(failed) ==> failed && conn.sent == old(conn.sent)
        invariant old(conn.sent) <= conn.sent <= old(conn.sent) + Encode(ws[..i])
        invariant !failed ==> !old(failed) && conn.sent == old(conn.sent) + Encode(ws[..i])
        invariant AllDelivered(old(conn.fates)) ==> failed == old(failed) && AllDelivered(conn.fates)
      {
        OneMoreWrite(ws, i);
        ghost var before := old(conn.sent);
        assert (before + Encode(ws[..i])) + Chunk(ws[i]) == before + Encode(ws[..i + 1]);
        EmptyChunk();
        var _, _ := Write(ws[i]);
      }
      assert ws[..|ws|] == ws;
    }
  }

  lemma {:induction false} NoWrites(ws: seq<bytes>)
    ensures Encode(ws[..0]) == []
  {
  }

  lemma {:induction false} OneMoreWrite(ws: seq<bytes>, i: nat)
    requires i < |ws|
    ensures Encode(ws[..i + 1]) == Encode(ws[..i]) + Chunk(ws[i])
  {
    assert ws[..i + 1][..i] == ws[..i];
  }

  /**
   A whole streamed response. It succeeds only with everything on the wire; a
   failure leaves a prefix, and a failing handler leaves no trailer.
   */
  method WriteStream(conn: Wire, head: bytes, ws: seq<bytes>, handlerFails: bool) returns (ok: bool)
    modifies conn
    ensures ok ==> !handlerFails && conn.sent == old(conn.sent) + head + Encode(ws) + TRAILER
    ensures old(conn.sent) <= conn.sent <= old(conn.sent) + head + Encode(ws) + TRAILER
    ensures handlerFails ==> conn.sent <= old(conn.sent) + head + Encode(ws)
    ensures AllDelivered(old(conn.fates)) ==>
              && ok == !handlerFails
              && conn.sent == old(conn.sent) + head + Encode(ws) + if handlerFails then [] else TRAILER
  {
    ok := conn.Send(head);
    if !ok {
      return false;
    }
    var cw := new ChunkedWriter(conn);
    cw.WriteAll(ws);
    if handlerFails {
      return false;
    }
    ok := cw.WriteTrailer();
  }

  /* ---- decoding what was written ---- */

  lemma {:induction false} FirstChunk(s: bytes, size: nat, at: nat)
    requires SizeLine(s) == Size(size, at)
    ensures at <= |s| && (EolAt(s, at + size) ==> at + size + 2 <= |s|)
    ensures !EolAt(s, at + size) ==> Decode(s) == Incomplete
    ensures EolAt(s, at + size) && size == 0 ==> Decode(s) == Body([], at + 2)
    ensures EolAt(s, at + size) && size > 0 ==>
              Decode(s) == Behind(s[at..at + size], at + size + 2, Decode(s[at + size + 2..]))
  {
    hide SizeLine, Behind;
  }

  lemma {:induction false} NoChunk(s: bytes)
    requires SizeLine(s).NoSize?
    ensures Decode(s) == Incomplete
  {
    hide SizeLine;
  }

  lemma {:induction false} SizeLineOf(n: nat, rest: bytes)
    ensures SizeLine(Hex(n) + CRLF + rest) == Size(n, |Hex(n)| + 2)
  {
    hide Hex, HexValue, HexRun;
    HexRoundTrip(n);
    var h, s := Hex(n), Hex(n) + CRLF + rest;
    assert s[..|h|] == h && s[|h|] == 13;
  }

  lemma {:induction false} ChunkDecodes(b: bytes, rest: bytes)
    requires b != []
    ensures Decode(Chunk(b) + rest) == Behind(b, |Chunk(b)|, Decode(rest))
  {
    hide SizeLine, Hex, Decode, Behind;
    var h := Hex(|b|);
    SizeLineOf(|b|, b + CRLF + rest);
    Pieces(h, b, rest);
    FirstChunk(Chunk(b) + rest, |b|, |h| + 2);
  }

  /** A chunk and what follows, piece by piece. */
  lemma {:induction false} Pieces(size: bytes, data: bytes, rest: bytes)
    ensures var s := size + CRLF + data + CRLF + rest; var at := |size| + 2; var end := at + |data|;
            && s == size + CRLF + (data + CRLF + rest)
            && EolAt(s, end) && s[at..end] == data && s[end + 2..] == rest
  {
  }

  lemma {:induction false} TrailerDecodes(rest: bytes)
    ensures Decode(TRAILER + rest) == Body([], |TRAILER|)
  {
    hide SizeLine;
    SizeLineOf(0, CRLF + rest);
    assert Hex(0) == [48];
    assert TRAILER + rest == Hex(0) + CRLF + (CRLF + rest);
  }

  /**
   What the writer and the trailer emit decodes to the concatenation of the
   writes, and ends exactly at the trailer whatever follows.
   */
  lemma {:induction false} DecodeUndoesEncode(ws: seq<bytes>, rest: bytes, n: nat, body: bytes)
    requires Decode(rest) == Body(body, n)
    ensures Decode(Encode(ws) + rest) == Body(Concat(ws) + body, |Encode(ws)| + n)
  {
    hide Decode, Chunk;
    if ws == [] {
      assert Encode(ws) + rest == rest && Concat(ws) + body == body;
    } else {
      var k := |ws| - 1;
      var b := ws[k];
      if b == [] {
        EmptyChunk();
        assert Encode(ws) == Encode(ws[..k]) && Concat(ws) == Concat(ws[..k]);
        DecodeUndoesEncode(ws[..k], rest, n, body);
      } else {
        ChunkDecodes(b, rest);
        DecodeUndoesEncode(ws[..k], Chunk(b) + rest, |Chunk(b)| + n, b + body);
        assert Encode(ws) + rest == Encode(ws[..k]) + (Chunk(b) + rest);
        assert Concat(ws) + body == Concat(ws[..k]) + (b + body);
      }
    }
  }

  lemma {:induction false} EmptyChunk()
    ensures Chunk([]) == []
  {
  }

  lemma {:induction false} StreamDecodes(ws: seq<bytes>, rest: bytes)
    ensures Decode(Encode(ws) + TRAILER + rest) == Body(Concat(ws), |Encode(ws) + TRAILER|)
  {
    hide Decode, Encode;
    TrailerDecodes(rest);
    DecodeUndoesEncode(ws, TRAILER + rest, |TRAILER|, []);
    assert Encode(ws) + TRAILER + rest == Encode(ws) + (TRAILER + rest);
    assert Concat(ws) + [] == Concat(ws);
  }

  /** A body that decodes does so whatever follows it. */
  lemma {:induction false} DecodeStable(s: bytes, more: bytes)
    requires Decode(s).Body?
    ensures Decode(s + more) == Decode(s) && Decode(s).n <= |s|
    decreases |s|
  {
    hide SizeLine, Decode;
    if SizeLine(s).NoSize? {
      NoChunk(s);
    }
    var Size(size, at) := SizeLine(s);
    SizeLineStable(s, more);
    FirstChunk(s, size, at);
    FirstChunk(s + more, size, at);
    var end := at + size;
    Front(s, more, at, end);
    assert EolAt(s + more, end);
    Front(s, more, end + 2, end + 2);
    if size > 0 {
      DecodeStable(s[end + 2..], more);
    }
  }

  lemma {:induction false} Front(s: bytes, more: bytes, lo: nat, hi: nat)
    requires lo <= hi <= |s|
    ensures (s + more)[lo..hi] == s[lo..hi] && (s + more)[hi..] == s[hi..] + more
  {
  }

  lemma {:induction false} SizeLineStable(s: bytes, more: bytes)
    requires SizeLine(s).Size?
    ensures SizeLine(s + more) == SizeLine(s)
  {
    hide HexValue, HexRun;
    var k := HexRun(s);
    assert (s + more)[..k] == s[..k] && (s + more)[k] == s[k];
  }

  /** A stream cut anywhere before its end is not taken for a complete body. */
  lemma {:induction false} CutIsNoticed(ws: seq<bytes>, m: nat)
    requires m < |Encode(ws) + TRAILER|
    ensures Decode((Encode(ws) + TRAILER)[..m]) == Incomplete
  {
    hide Decode, Encode;
    var full := Encode(ws) + TRAILER;
    StreamDecodes(ws, []);
    assert full + [] == full && full == full[..m] + full[m..];
    if Decode(full[..m]).Body? {
      DecodeStable(full[..m], full[m..]);
    }
  }
}

/**
 The pure decoder of a byte stream, and the limits a server may stop it at.
 */
module HttpDecoder {
  import opened HttpBytes
  import opened HttpGrammar

  /* ---- the pure decoder of a byte stream ---- */

  datatype Decoded = Nothing | One(req: Request, n: nat)

  function BodyLength(r: Request): nat {
    if r.contentLength > 0 then r.contentLength else 0
  }

  /** The first complete request of a stream, body included, and its length. */
  ghost function DecodeOne(stream: bytes): Decoded {
    match Parse(stream)
    case Done(n, r) =>
      var len := BodyLength(r);
      if r.contentLength == -2 || n > |stream| || n + len > |stream| then Nothing
      else One(r.(body := stream[n..n + len]), n + len)
    case _ => Nothing
  }

  /** All requests of a stream: decode one, then the rest unless it asked to close. */
  ghost function DecodeAll(stream: bytes): seq<Request>
    decreases |stream|
  {
    match DecodeOne(stream)
    case Nothing => []
    case One(req, n) =>
      DecodeShrinks(stream);
      [req] + if req.keepAlive then DecodeAll(stream[n..]) else []
  }

  lemma {:induction false} DecodeShrinks(stream: bytes)
    ensures DecodeOne(stream).One? ==> 0 < DecodeOne(stream).n <= |stream|
  {
    ParseMovesOn(stream);
  }

  /** The decoder's first step. */
  lemma {:induction false} DecodeUnfolds(stream: bytes)
    ensures DecodeOne(stream).Nothing? ==> DecodeAll(stream) == []
    ensures DecodeOne(stream).One? ==>
              var d := DecodeOne(stream);
              && 0 < d.n <= |stream|
              && DecodeAll(stream) == [d.req] + if d.req.keepAlive then DecodeAll(stream[d.n..]) else []
  {
    hide DecodeOne;
    DecodeShrinks(stream);
  }

  /** What is left of a stream after its first k requests. */
  ghost function StreamAfter(whole: bytes, k: nat): bytes {
    if k == 0 then whole
    else
      var before := StreamAfter(whole, k - 1);
      match DecodeOne(before)
      case Nothing => []
      case One(_, n) =>
        DecodeShrinks(before);
        before[n..]
  }

  lemma {:induction false} DecodeStep(whole: bytes, before: seq<Request>, stream: bytes)
    requires DecodeAll(whole) == before + DecodeAll(stream)
    ensures before <= DecodeAll(whole)
    ensures DecodeOne(stream).Nothing? ==> before == DecodeAll(whole)
    ensures DecodeOne(stream).One? ==>
              var d := DecodeOne(stream);
              && 0 < d.n <= |stream|
              && before + [d.req] <= DecodeAll(whole)
              && DecodeAll(whole) == (before + [d.req]) + if d.req.keepAlive then DecodeAll(stream[d.n..]) else []
  {
    hide DecodeOne, DecodeAll;
    DecodeUnfolds(stream);
    if DecodeOne(stream).One? {
      var req := DecodeOne(stream).req;
      var rest := if req.keepAlive then DecodeAll(stream[DecodeOne(stream).n..]) else [];
      assert before + ([req] + rest) == (before + [req]) + rest;
    }
  }

  /* ---- limits ---- */

  function StatusFor(e: ParseError): nat {
    match e
    case LineTooLong => 414
    case HeadersTooLong => 431
    case TooManyHeaders => 431
    case _ => 400
  }

  /** The line does not end within the longest request line allowed and one byte more. */
  ghost predicate LongLine(stream: bytes) {
    |stream| > MAX_REQUEST_LINE && Lacks(stream[..MAX_REQUEST_LINE + 1], LF)
  }

  /** The head is not complete in some prefix as long as the read buffer may get. */
  ghost predicate LongHead(stream: bytes, maxReadBuf: int) {
    exists k: nat :: maxReadBuf <= k <= |stream| && Parse(stream[..k]) == Incomplete
  }

  /** The announced body is over the body limit, or does not fit the read buffer behind its head. */
  ghost predicate LongBody(stream: bytes, maxBodyBytes: int, maxReadBuf: int) {
    && Parse(stream).Done? && Parse(stream).req.contentLength != -2
    && var len := BodyLength(Parse(stream).req);
       len > maxBodyBytes || (len > 0 && Parse(stream).n + len > maxReadBuf)
  }

  /** The limit behind each status. */
  ghost predicate LimitHit(stream: bytes, status: nat, maxBodyBytes: int, maxReadBuf: int) {
    || (status == 414 && LongLine(stream))
    || (status == 431 && LongHead(stream, maxReadBuf))
    || (status == 413 && LongBody(stream, maxBodyBytes, maxReadBuf))
  }

  lemma {:induction false} LimitIs(stream: bytes, maxBodyBytes: int, maxReadBuf: int)
    ensures LimitHit(stream, 414, maxBodyBytes, maxReadBuf) <==> LongLine(stream)
    ensures LimitHit(stream, 431, maxBodyBytes, maxReadBuf) <==> LongHead(stream, maxReadBuf)
    ensures LimitHit(stream, 413, maxBodyBytes, maxReadBuf) <==> LongBody(stream, maxBodyBytes, maxReadBuf)
    ensures forall s :: LimitHit(stream, s, maxBodyBytes, maxReadBuf) ==> s in {413, 414, 431}
  {
    hide LongLine, LongHead, LongBody;
  }

  /** The stream starts with what the parser rejects, or with a chunked request. */
  ghost predicate RefusedWith(stream: bytes, status: nat) {
    match Parse(stream)
    case Failed(e, complete) => complete && status == StatusFor(e)
    case Done(_, req) => req.contentLength == -2 && status == 400
    case Incomplete => false
  }

  lemma {:induction false} RefusedIsNothing(stream: bytes, status: nat)
    requires RefusedWith(stream, status)
    ensures DecodeOne(stream) == Nothing
  {
    hide Parse;
  }

  /** The first request of the stream is within the limits. */
  ghost predicate Taken(stream: bytes, maxBodyBytes: int, maxReadBuf: int)
    requires DecodeOne(stream).One?
  {
    !LongLine(stream) && DecodeOne(stream).n <= maxReadBuf && |DecodeOne(stream).req.body| <= maxBodyBytes
  }

  /** Every request of the stream is. */
  ghost predicate AllTaken(stream: bytes, maxBodyBytes: int, maxReadBuf: int)
    decreases |stream|
  {
    match DecodeOne(stream)
    case Nothing => true
    case One(req, n) =>
      DecodeShrinks(stream);
      Taken(stream, maxBodyBytes, maxReadBuf) && (req.keepAlive ==> AllTaken(stream[n..], maxBodyBytes, maxReadBuf))
  }

  lemma {:induction false} AllTakenUnfolds(stream: bytes, maxBodyBytes: int, maxReadBuf: int)
    requires AllTaken(stream, maxBodyBytes, maxReadBuf) && DecodeOne(stream).One?
    ensures var d := DecodeOne(stream);
            && 0 < d.n <= |stream| && Taken(stream, maxBodyBytes, maxReadBuf)
            && (d.req.keepAlive ==> AllTaken(stream[d.n..], maxBodyBytes, maxReadBuf))
  {
    hide DecodeOne, Taken;
    DecodeShrinks(stream);
  }

  /** No limit stops a request within the limits. */
  lemma {:induction false} TakenIsNotLimited(stream: bytes, status: nat, maxBodyBytes: int, maxReadBuf: int)
    requires DecodeOne(stream).One? && Taken(stream, maxBodyBytes, maxReadBuf)
    ensures !LimitHit(stream, status, maxBodyBytes, maxReadBuf)
  {
    hide Parse, LongLine;
    var n := Parse(stream).n;
    ParseMovesOn(stream);
    forall k: nat | maxReadBuf <= k <= |stream| ensures Parse(stream[..k]) != Incomplete {
      assert stream[..k][..n] == stream[..n];
      ParseStable(stream, stream[..k], n);
    }
  }

  /** The one error reported before a head is complete is a long line, of the buffer and of any stream behind it. */
  lemma {:induction false} EarlyErrorIsLongLine(filled: bytes, more: bytes)
    requires Parse(filled).Failed? && !Parse(filled).complete
    ensures StatusFor(Parse(filled).error) == 414 && LongLine(filled + more)
  {
    hide FindEol, ParseRequestLine, ParseHeaders;
    var e := FindEol(filled);
    assert |filled| > MAX_REQUEST_LINE ==> (filled + more)[..MAX_REQUEST_LINE + 1] == filled[..MAX_REQUEST_LINE + 1];
    if e.Eol? && e.at <= MAX_REQUEST_LINE {
      HeadersFailLate(filled, e.at + e.skip, e.at + e.skip, HeadState(ParseRequestLine(filled[..e.at]).value, false, false));
    }
  }

  /** A request whose head is within the limit on request lines has no long line. */
  lemma {:induction false} ShortLine(stream: bytes)
    requires Parse(stream).Done? && Parse(stream).n <= MAX_REQUEST_LINE
    ensures !LongLine(stream)
  {
    hide ParseRequestLine, ParseHeaders;
    var e := FindEol(stream);
    ParseMovesOn(stream);
    assert stream[e.at + e.skip - 1] == LF;
    if |stream| > MAX_REQUEST_LINE {
      assert stream[..MAX_REQUEST_LINE + 1][e.at + e.skip - 1] == LF;
    }
  }

  /**
   When the way a request line arrives decides its fate: a buffer that stops
   before its end may be refused although the whole line is taken exactly when
   the line has the longest length allowed and ends in CRLF.
   */
  lemma {:induction false} SplitLineRefusedIff(stream: bytes)
    ensures LongLine(stream) && Parse(stream) != Failed(LineTooLong, false) <==> FindEol(stream) == Eol(MAX_REQUEST_LINE, 2)
  {
    hide FindEol, ParseRequestLine, ParseHeaders;
    var e, n := FindEol(stream), MAX_REQUEST_LINE;
    if e.Eol? && e.at <= n && ParseRequestLine(stream[..e.at]).Ok? {
      HeadersFailLate(stream, e.at + e.skip, e.at + e.skip, HeadState(ParseRequestLine(stream[..e.at]).value, false, false));
    }
  }

  lemma {:induction false} HeadersFailLate(buf: bytes, start: nat, pos: nat, st: HeadState)
    requires start <= pos <= |buf|
    ensures ParseHeaders(buf, start, pos, st).Failed? ==> ParseHeaders(buf, start, pos, st).complete
    decreases |buf| - pos
  {
    hide ParseHeader, FindEol;
    var t := TurnAt(buf, start, pos, st);
    if t.Line? && ParseHeader(t.line, st).Ok? {
      HeadersFailLate(buf, start, t.after, ParseHeader(t.line, st).value);
    }
  }

  /** The buffer length a body of which `needed` bytes must fit leads to. */
  function LengthFor(length: nat, needed: nat): nat {
    if needed <= length then length else if 2 * length < needed then needed else 2 * length
  }

  /**
   When growing keeps the documented bound: exactly when the buffer need not
   grow, or twice its length is still within the bound. In any case it stays
   within twice the bound or its own length.
   */
  lemma {:induction false} BoundKeptIff(length: nat, needed: nat, max: nat)
    requires length <= max && needed <= max
    ensures LengthFor(length, needed) <= max <==> needed <= length || 2 * length <= max
    ensures LengthFor(length, needed) <= 2 * max
  {
  }

  /** From the initial 4096 bytes, a request of 40000 bytes and one of 50000 lead past the default bound of 65536. */
  lemma {:induction false} BoundPassed()
    ensures LengthFor(4096, 40000) == 40000 && LengthFor(40000, 50000) == 80000 > 65536
  {
  }
}

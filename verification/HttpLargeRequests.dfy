/**
 The read buffer passes its configured bound: two concrete pipelined requests,
 each within every limit of a server with the default configuration.
 */
module HttpLargeRequests {
  import opened Options
  import opened HttpBytes
  import opened HttpGrammar
  import opened HttpFraming
  import opened HttpPrinting
  import opened HttpPipelines
  import opened HttpDecoder
  import opened HttpServer

  const FIRST: bytes := [51, 57, 57, 53, 56]
  const SECOND: bytes := [52, 57, 57, 53, 56]

  /** "POST / HTTP/1.1" with a Content-Length header. */
  function PostOf(digits: bytes, n: nat): Request {
    Request(Post, [SLASH], None, 1, 1, [Header(CONTENT_LENGTH, digits)], n, true, None, [])
  }

  function Filler(n: nat): (b: bytes)
    ensures |b| == n
  {
    seq(n, i => 120)
  }

  function Large(digits: bytes, n: nat): Request {
    PostOf(digits, n).(body := Filler(n))
  }

  function LargeStream(): bytes {
    Message(Large(FIRST, 39958)) + Message(Large(SECOND, 49958))
  }

  /** Five decimal digits denoting n. */
  ghost predicate Announces(digits: bytes, n: nat) {
    |digits| == 5 && AllDigits(digits) && Value(digits) == n
  }

  lemma {:induction false} FirstAnnounces()
    ensures Announces(FIRST, 39958)
  {
    assert FIRST[..4] == [51, 57, 57, 53];
    assert [51, 57, 57, 53][..3] == [51, 57, 57];
    assert [51, 57, 57][..2] == [51, 57];
    assert [51, 57][..1] == [51];
    assert [51][..0] == [];
  }

  lemma {:induction false} SecondAnnounces()
    ensures Announces(SECOND, 49958)
  {
    assert SECOND[..4] == [52, 57, 57, 53];
    assert [52, 57, 57, 53][..3] == [52, 57, 57];
    assert [52, 57, 57][..2] == [52, 57];
    assert [52, 57][..1] == [52];
    assert [52][..0] == [];
  }

  lemma {:induction false} PostIsWellFormed(digits: bytes, n: nat)
    requires Announces(digits, n) && n < 0x4000_0000_0000_0000
    ensures WellFormed(PostOf(digits, n)) && WithinLimits(PostOf(digits, n)) && |Print(PostOf(digits, n))| == 42
  {
    hide Value;
    var r := PostOf(digits, n);
    var h := r.headers[0];
    assert r.headers == [] + [h];
    LengthsApart(CONTENT_LENGTH);
    OneMore([], h, CONTENT_LENGTH);
    OneMore([], h, TRANSFER_ENCODING);
    PostPrints(digits, n);
  }

  lemma {:induction false} PostPrints(digits: bytes, n: nat)
    requires |digits| == 5
    ensures |PrintRequestLine(PostOf(digits, n))| == 15 && |PrintHeaders(PostOf(digits, n).headers)| == 23
  {
  }

  lemma {:induction false} LargeDecodes(digits: bytes, n: nat, tail: bytes)
    requires Announces(digits, n) && 0 < n < 0x4000_0000_0000_0000
    ensures var stream := Message(Large(digits, n)) + tail;
            && LargeRequest(stream, n + 42) && stream[n + 42..] == tail && DecodeOne(stream).req == Large(digits, n)
  {
    hide Parse, Print, WellFormed, WithinLimits, Announces, Filler;
    var r := Large(digits, n);
    assert r.(body := []) == PostOf(digits, n);
    PostIsWellFormed(digits, n);
    MessageDecodes(r, tail);
  }

  lemma {:induction false} LargeStreamDecodes()
    ensures var stream := LargeStream();
            && LargeRequest(stream, 40000) && DecodeOne(stream).req.keepAlive
            && LargeRequest(stream[40000..], 50000)
  {
    hide Message, Filler, LargeRequest, DecodeOne, Announces;
    FirstAnnounces();
    SecondAnnounces();
    var second := Message(Large(SECOND, 49958));
    LargeDecodes(FIRST, 39958, second);
    LargeDecodes(SECOND, 49958, []);
    assert second + [] == second;
  }

  /**
   The connection: from a buffer of 4096 bytes, with the default limits, the
   bytes of the two requests arriving in any positive pieces, the buffer ends
   with 80000 bytes where the bound is 65536.
   */
  method PassTheBound(pieces: seq<nat>) returns (length: nat)
    requires |pieces| >= |LargeStream()| && forall i :: 0 <= i < |pieces| ==> pieces[i] > 0
    ensures length == 80000
  {
    hide LargeStream, LargeRequest, DecodeOne;
    var schedule := seq(|pieces|, i requires 0 <= i < |pieces| => Arrival(pieces[i], false));
    var c := new Conn(LargeStream(), schedule, []);
    var cs := new ConnState(4096);
    var server := new Server(1048576, 65536);
    LargeStreamDecodes();
    assert cs.Stream(c) == LargeStream();
    TwoLargeRequests(server, c, cs, LargeStream());
    length := cs.rbuf.Length;
  }
}

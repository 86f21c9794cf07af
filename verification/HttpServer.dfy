/**
 The connection loop: a growing, reallocated and compacted read buffer is
 parsed again after every partial read, the handler sees slices of it, and
 pipelined bytes move down for the next request.
 */
module HttpServer {
  import opened Options
  import opened HttpBytes
  import opened HttpGrammar
  import opened HttpDecoder
  import opened HttpRequest

  /* ---- connection, buffer, server ---- */

  /** One network read: it may carry up to n bytes, and may report an error as well. */
  datatype Arrival = Arrival(n: nat, failed: bool)

  /** What the handler's response came to: a hijacked connection, and whether writing succeeded. */
  datatype Reply = Reply(hijack: bool, written: bool)

  /** Some read still to come reports an error. */
  ghost predicate Failing(schedule: seq<Arrival>) {
    exists i :: 0 <= i < |schedule| && schedule[i].failed
  }

  /** Every read brings something, none fails, and there are enough of them for the bytes to come. */
  ghost predicate Prompt(schedule: seq<Arrival>, incoming: bytes) {
    |schedule| >= |incoming| && forall i :: 0 <= i < |schedule| ==> schedule[i].n > 0 && !schedule[i].failed
  }

  /** Why bytes of the peer were never read: an error in some read, or the reads ended too early. */
  ghost predicate BrokenOff(was: seq<Arrival>, schedule: seq<Arrival>, incoming: bytes) {
    Failing(was) || (schedule == [] && incoming != [])
  }

  /** What reading does to the reads still to come. */
  ghost predicate ReadOn(was: seq<Arrival>, wasIncoming: bytes, schedule: seq<Arrival>, incoming: bytes) {
    && |schedule| <= |was|
    && (Failing(schedule) ==> Failing(was))
    && (Prompt(was, wasIncoming) ==> Prompt(schedule, incoming))
  }

  lemma {:induction false} PromptIsWhole(was: seq<Arrival>, wasIncoming: bytes, schedule: seq<Arrival>, incoming: bytes)
    requires Prompt(was, wasIncoming) && ReadOn(was, wasIncoming, schedule, incoming)
    ensures !BrokenOff(was, schedule, incoming)
  {
  }

  /** The response is written and leaves the connection with the server. */
  predicate Keeps(reply: Reply) {
    reply.written && !reply.hijack
  }

  ghost predicate Clean(replies: seq<Reply>) {
    forall i :: 0 <= i < |replies| ==> Keeps(replies[i])
  }

  /** What the handler does on its call number i; calls past the given replies are answered and keep the connection. */
  function ReplyAt(replies: seq<Reply>, i: nat): Reply {
    if i < |replies| then replies[i] else Reply(false, true)
  }

  /** The replies to come after k calls. */
  function RepliesAfter(replies: seq<Reply>, k: nat): seq<Reply> {
    if k <= |replies| then replies[k..] else []
  }

  lemma {:induction false} NextReply(replies: seq<Reply>, k: nat)
    ensures ReplyAt(RepliesAfter(replies, k), 0) == ReplyAt(replies, k)
    ensures RepliesAfter(RepliesAfter(replies, k), 1) == RepliesAfter(replies, k + 1)
    ensures RepliesAfter(replies, 0) == replies
    ensures Clean(replies) ==> Keeps(ReplyAt(replies, k))
  {
  }

  /** n of `total` requests are served: up to the first reply that takes or breaks the connection, all when none does. */
  ghost predicate ServedUpTo(replies: seq<Reply>, n: nat, total: nat) {
    && n <= total
    && (forall i: nat :: i + 1 < n ==> Keeps(ReplyAt(replies, i)))
    && (n < total ==> n > 0 && !Keeps(ReplyAt(replies, n - 1)))
  }

  /** That fixes their number. */
  lemma {:induction false} ServedIsFixed(replies: seq<Reply>, n: nat, m: nat, total: nat)
    requires ServedUpTo(replies, n, total) && ServedUpTo(replies, m, total)
    ensures n == m
  {
  }

  lemma {:induction false} CleanServesAll(replies: seq<Reply>, n: nat, total: nat)
    requires ServedUpTo(replies, n, total) && Clean(replies)
    ensures n == total
  {
    if n > 0 {
      NextReply(replies, n - 1);
    }
  }

  class Conn {
    /** Bytes of the peer not yet read, how they will arrive, and the handler's replies to come. */
    var incoming: bytes
    var schedule: seq<Arrival>
    var replies: seq<Reply>
    /** Statuses of the protocol error pages written. */
    var pages: seq<nat>
    /** Requests as the handler read them when it was called. */
    ghost var dispatched: seq<Request>

    constructor (incoming: bytes, schedule: seq<Arrival>, replies: seq<Reply>)
      ensures this.incoming == incoming && this.schedule == schedule && this.replies == replies
      ensures pages == [] && dispatched == []
    {
      this.incoming, this.schedule, this.replies, this.pages, this.dispatched := incoming, schedule, replies, [], [];
    }

    method WritePage(status: nat)
      modifies `pages
      ensures pages == old(pages) + [status]
    {
      pages := pages + [status];
    }

    /** Fill buf from `from` on with the next bytes of the stream. */
    method Read(buf: array<byte>, from: nat) returns (nr: nat, failed: bool)
      requires from < buf.Length
      modifies `incoming, `schedule, buf
      ensures from + nr <= buf.Length && nr <= |old(incoming)|
      ensures buf[..from] == old(buf[..from]) && buf[from..from + nr] == old(incoming)[..nr]
      ensures incoming == old(incoming)[nr..]
      ensures ReadOn(old(schedule), old(incoming), schedule, incoming) && (failed || |schedule| < |old(schedule)|)
      ensures failed && !(nr == 0 && incoming == []) ==> BrokenOff(old(schedule), schedule, incoming)
    {
      if schedule == [] || incoming == [] {
        return 0, true;
      }
      nr := schedule[0].n;
      if nr > |incoming| { nr := |incoming|; }
      if nr > buf.Length - from { nr := buf.Length - from; }
      forall i | 0 <= i < nr { buf[from + i] := incoming[i]; }
      failed := schedule[0].failed;
      schedule, incoming := schedule[1..], incoming[nr..];
    }

    /** Call the handler on the request and take its reply. */
    method Dispatch(req: Req, ghost buf: array<byte>) returns (reply: Reply)
      requires req.Over(buf, buf.Length) && req.BodyOk()
      modifies `dispatched, `replies
      ensures dispatched == old(dispatched) + [Seen(req, buf)]
      ensures reply == ReplyAt(old(replies), 0) && replies == RepliesAfter(old(replies), 1)
    {
      dispatched := dispatched + [Seen(req, buf)];
      if replies == [] {
        return Reply(false, true);
      }
      reply := replies[0];
      replies := replies[1..];
    }
  }

  /** What a handler reads now through the slices of a request whose head lies in buf. */
  ghost function Seen(req: Req, buf: array<byte>): Request
    requires req.Over(buf, buf.Length) && req.BodyOk()
    reads req, req.headers, buf, req.body.arr
  {
    req.Head(buf, buf[..]).(body := if req.body.arr == null then [] else req.body.arr[req.body.lo..req.body.hi])
  }

  class ConnState {
    const req: Req
    var rbuf: array<byte>
    var rend: nat

    constructor (size: nat)
      requires size > 0
      ensures Ready() && rend == 0 && rbuf.Length == size && fresh(rbuf) && fresh(req) && fresh(req.headers)
    {
      req := new Req();
      rbuf := new byte[size](_ => 0);
      rend := 0;
    }

    ghost predicate Ready()
      reads this
    {
      0 < rbuf.Length && rend <= rbuf.Length && req.headers.Length == MAX_HEADERS
    }

    /** The bytes of the connection that no request has consumed: buffered, then still to come. */
    ghost function Stream(c: Conn): bytes
      requires Ready()
      reads this, rbuf, c
    {
      rbuf[..rend] + c.incoming
    }

    /** A larger buffer takes over the filled part; slices keep the old one. */
    method Grow(size: nat)
      requires Ready() && size >= rbuf.Length
      modifies `rbuf
      ensures Ready() && fresh(rbuf) && rbuf.Length == size && rbuf[..rend] == old(rbuf[..rend])
    {
      var grown := new byte[size](_ => 0);
      forall i | 0 <= i < rend { grown[i] := rbuf[i]; }
      rbuf := grown;
    }

    /** Read more of the stream behind the filled part. */
    method Fill(c: Conn) returns (nr: nat, failed: bool)
      requires Ready() && rend < rbuf.Length
      modifies `rend, rbuf, c`incoming, c`schedule
      ensures Ready() && rend == old(rend) + nr && nr <= |old(c.incoming)|
      ensures rbuf[..old(rend)] == old(rbuf[..rend])
      ensures Stream(c) == old(Stream(c))
      ensures ReadOn(old(c.schedule), old(c.incoming), c.schedule, c.incoming) && (failed || |c.schedule| < |old(c.schedule)|)
      ensures failed && !(nr == 0 && c.incoming == []) ==> BrokenOff(old(c.schedule), c.schedule, c.incoming)
    {
      ghost var before, more := rbuf[..rend], c.incoming;
      nr, failed := c.Read(rbuf, rend);
      assert rbuf[..rend + nr] == before + more[..nr];
      assert more == more[..nr] + more[nr..];
      rend := rend + nr;
    }

    /** Drop what a request consumed and move the rest of the filled part to the front. */
    method Compact(consumed: nat)
      requires Ready() && consumed <= rend
      modifies `rend, rbuf
      ensures Ready() && rend == old(rend) - consumed && rbuf[..rend] == old(rbuf[consumed..rend])
    {
      if consumed < rend {
        forall i | 0 <= i < rend - consumed { rbuf[i] := rbuf[consumed + i]; }
        rend := rend - consumed;
      } else {
        rend := 0;
      }
    }
  }

  /** How one turn of the connection loop ended. */
  datatype Ending =
    | Served(reply: Reply)
    | Quiet                              // the peer closed and nothing complete was left
    | Refused(status: nat)               // the stream does not hold a request the server takes
    | Limited(status: nat)               // a size limit of this server
    | Lost                               // a read failed, or reading ended, before all bytes were read

  /** The protocol error page an ending writes. */
  function PageOf(ending: Ending): (page: seq<nat>)
    ensures ending.Refused? || ending.Limited? ==> page == [ending.status]
    ensures ending.Quiet? || ending.Lost? || ending.Served? ==> page == []
  {
    match ending
    case Refused(status) => [status]
    case Limited(status) => [status]
    case _ => []
  }

  class Server {
    const maxBodyBytes: int
    const maxReadBuf: int

    /** What an ending without a request says about the stream it ended on. */
    ghost predicate Accounts(ending: Ending, stream: bytes) {
      match ending
      case Served(_) => false
      case Quiet => DecodeOne(stream) == Nothing
      case Refused(status) => RefusedWith(stream, status)
      case Limited(status) => LimitHit(stream, status, maxBodyBytes, maxReadBuf)
      case Lost => true
    }

    /** The buffer is no longer than it was, or shorter than twice the configured bound. */
    ghost predicate Bounded(length: nat, was: nat) {
      length <= was || length < 2 * maxReadBuf
    }

    constructor (maxBodyBytes: int, maxReadBuf: int)
      ensures this.maxBodyBytes == maxBodyBytes && this.maxReadBuf == maxReadBuf
    {
      this.maxBodyBytes, this.maxReadBuf := maxBodyBytes, maxReadBuf;
    }

    /** Parse, and read more while the head is incomplete. None means the head is there. */
    method ReadHead(c: Conn, cs: ConnState, ghost stream: bytes) returns (stop: Option<Ending>, n: nat)
      requires cs.Ready() && cs.Stream(c) == stream
      modifies c`incoming, c`schedule, cs`rbuf, cs`rend, cs.rbuf, cs.req, cs.req.headers
      ensures cs.Ready() && cs.Stream(c) == stream
      ensures cs.rbuf == old(cs.rbuf) || fresh(cs.rbuf)
      ensures ReadOn(old(c.schedule), old(c.incoming), c.schedule, c.incoming)
      ensures stop.Some? ==> Accounts(stop.value, stream)
      ensures stop == Some(Lost) ==> BrokenOff(old(c.schedule), c.schedule, c.incoming)
      ensures old(cs.rbuf.Length) <= cs.rbuf.Length && (cs.rbuf.Length <= old(cs.rbuf.Length) || cs.rbuf.Length <= maxReadBuf)
      ensures stop.None? && n <= old(cs.rbuf.Length) ==> cs.rbuf.Length == old(cs.rbuf.Length)
      ensures stop.None? ==>
                && Parse(stream).Done? && Parse(stream).n == n <= cs.rend
                && cs.req.Holds(cs.rbuf, cs.rbuf[..cs.rend], Parse(stream).req)
    {
      hide Parse, Req.Holds, DecodeOne, Prompt, LongLine, RefusedWith;
      while true
        invariant cs.Ready() && cs.Stream(c) == stream
        invariant cs.rbuf == old(cs.rbuf) || fresh(cs.rbuf)
        invariant ReadOn(old(c.schedule), old(c.incoming), c.schedule, c.incoming)
        invariant old(cs.rbuf.Length) <= cs.rbuf.Length && (cs.rbuf.Length <= old(cs.rbuf.Length) || cs.rbuf.Length <= maxReadBuf)
        invariant cs.rbuf.Length > old(cs.rbuf.Length) ==> NotYet(stream, old(cs.rbuf.Length))
        decreases |c.schedule|
      {
        var complete, err;
        n, complete, err := ParseInto(cs.rbuf, cs.rend, cs.req);
        ghost var filled := cs.rbuf[..cs.rend];
        if err.Some? {
          if complete {
            ParseExtends(filled, c.incoming);
            RejectedIsRefused(stream);
            return Some(Refused(StatusFor(err.value))), 0;
          }
          EarlyErrorIsLongLine(filled, c.incoming);
          return Some(Limited(StatusFor(err.value))), 0;
        }
        if complete {
          ParseExtends(filled, c.incoming);
          ParseMovesOn(filled);
          FoundAfter(stream, n, old(cs.rbuf.Length));
          return None, n;
        }
        assert Parse(filled) == Incomplete;
        if cs.rend == cs.rbuf.Length {
          assert stream[..cs.rend] == filled;
          if cs.rbuf.Length >= maxReadBuf {
            return Some(Limited(431)), 0;
          }
          var size := cs.rbuf.Length * 2;
          if size > maxReadBuf {
            size := maxReadBuf;
          }
          cs.Grow(size);
        }
        var nr, failed := cs.Fill(c);
        if failed {
          if nr == 0 && c.incoming == [] {
            assert stream == filled;
            IncompleteIsNothing(stream);
            return Some(Quiet), 0;
          }
          return Some(Lost), 0;
        }
      }
    }

    /** Read until the body is complete; the head stays readable through its slices. */
    method ReadBody(c: Conn, cs: ConnState, needed: nat, ghost stream: bytes, ghost buf0: array<byte>, ghost content0: bytes)
      returns (stop: Option<Ending>)
      requires cs.Ready() && cs.Stream(c) == stream
      requires cs.rbuf == buf0 && |content0| == cs.rend && buf0[..cs.rend] == content0
      modifies c`incoming, c`schedule, cs`rbuf, cs`rend, cs.rbuf
      ensures cs.Ready() && cs.Stream(c) == stream
      ensures ReadOn(old(c.schedule), old(c.incoming), c.schedule, c.incoming)
      ensures cs.rbuf == old(cs.rbuf) || fresh(cs.rbuf)
      ensures |content0| <= buf0.Length && buf0[..|content0|] == content0
      ensures stop.None? ==> needed <= cs.rend
      ensures cs.rbuf.Length == old(cs.rbuf.Length) || (needed <= maxReadBuf && cs.rbuf.Length == LengthFor(old(cs.rbuf.Length), needed))
      ensures stop.None? ==> cs.rbuf.Length == LengthFor(old(cs.rbuf.Length), needed)
      ensures stop.Some? ==> stop.value == Quiet || stop.value == Limited(413) || stop.value == Lost
      ensures stop == Some(Quiet) ==> |stream| < needed
      ensures stop == Some(Limited(413)) ==> needed > maxReadBuf
      ensures stop == Some(Lost) ==> BrokenOff(old(c.schedule), c.schedule, c.incoming)
    {
      hide Prompt;
      while cs.rend < needed
        invariant cs.Ready() && cs.Stream(c) == stream
        invariant ReadOn(old(c.schedule), old(c.incoming), c.schedule, c.incoming)
        invariant (cs.rbuf == buf0 && cs.rbuf.Length == old(cs.rbuf.Length)) || (fresh(cs.rbuf) && needed <= cs.rbuf.Length)
        invariant |content0| <= cs.rend && |content0| <= buf0.Length && buf0[..|content0|] == content0
        invariant cs.rbuf != buf0 ==> old(cs.rbuf.Length) < needed <= maxReadBuf && cs.rbuf.Length == LengthFor(old(cs.rbuf.Length), needed)
        decreases if cs.rend < needed then |c.schedule| + 1 else 0
      {
        if needed > cs.rbuf.Length {
          if needed > maxReadBuf {
            return Some(Limited(413));
          }
          var size := cs.rbuf.Length * 2;
          if size < needed {
            size := needed;
          }
          cs.Grow(size);
        }
        ghost var start := cs.rend;
        ghost var filled := cs.rbuf[..start];
        var nr, failed := cs.Fill(c);
        assert cs.rbuf == buf0 ==> buf0[..|content0|] == filled[..|content0|];
        if failed && cs.rend < needed {
          if c.incoming == [] {
            return Some(Quiet);
          }
          return Some(Lost);
        }
      }
      return None;
    }

    /** Read one whole request; `end` is where it ends in the buffer. */
    method ReadRequest(c: Conn, cs: ConnState, ghost stream: bytes) returns (stop: Option<Ending>, end: nat, ghost buf0: array<byte>)
      requires cs.Ready() && cs.Stream(c) == stream
      modifies c`incoming, c`schedule, cs`rbuf, cs`rend, cs.rbuf, cs.req, cs.req.headers
      ensures cs.Ready() && cs.Stream(c) == stream && (cs.rbuf == old(cs.rbuf) || fresh(cs.rbuf))
      ensures ReadOn(old(c.schedule), old(c.incoming), c.schedule, c.incoming)
      ensures Bounded(cs.rbuf.Length, old(cs.rbuf.Length))
      ensures stop.Some? ==> Accounts(stop.value, stream)
      ensures stop == Some(Lost) ==> BrokenOff(old(c.schedule), c.schedule, c.incoming)
      ensures stop.None? ==>
                && cs.req.Over(buf0, buf0.Length) && cs.req.BodyOk() && end <= cs.rend
                && Parse(stream).Done? && DecodeOne(stream) == One(Seen(cs.req, buf0), end)
                && cs.req.keepAlive == DecodeOne(stream).req.keepAlive
                && (Parse(stream).n <= old(cs.rbuf.Length) ==> cs.rbuf.Length == LengthFor(old(cs.rbuf.Length), end))
    {
      hide Parse, Req.Holds, Req.Over, Req.Head, Seen, Prompt, ReadOn, BrokenOff, DecodeOne, Accounts, LengthFor;
      buf0 := cs.rbuf;
      var n;
      stop, n := ReadHead(c, cs, stream);
      ghost var schedule, incoming := c.schedule, c.incoming;
      end := n;
      if stop.Some? {
        return;
      }
      buf0 := cs.rbuf;
      ghost var head, content0 := Parse(stream).req, cs.rbuf[..cs.rend];
      HeldFields(buf0, content0, cs.req, head);
      var bodyLen := 0;
      if cs.req.contentLength > 0 {
        bodyLen := cs.req.contentLength;
      } else if cs.req.contentLength == -2 {
        ChunkedIsRefused(this, stream);
        return Some(Refused(400)), n, buf0;
      }
      if bodyLen > maxBodyBytes {
        BodyStops(this, stream, Limited(413));
        return Some(Limited(413)), n, buf0;
      }
      end := n + bodyLen;
      if bodyLen > 0 {
        stop := ReadBody(c, cs, end, stream, buf0, content0);
        ReadOnTwice(old(c.schedule), old(c.incoming), schedule, incoming, c.schedule, c.incoming);
        if stop.Some? {
          BoundedByBody(this, old(cs.rbuf.Length), buf0.Length, end, cs.rbuf.Length);
          BodyStops(this, stream, stop.value);
          return;
        }
      }
      WholeRequest(stream, end);
      BoundedByBody(this, old(cs.rbuf.Length), buf0.Length, end, cs.rbuf.Length);
      SetBody(cs.req, buf0, content0, head, cs.rbuf, n, end, stream);
    }

    /** One request: read, parse, dispatch, and keep what was pipelined behind it. */
    method ServeOne(c: Conn, cs: ConnState, ghost stream: bytes) returns (keepGoing: bool, ghost ending: Ending)
      requires cs.Ready() && cs.Stream(c) == stream
      modifies c, cs`rbuf, cs`rend, cs.rbuf, cs.req, cs.req.headers
      ensures cs.Ready() && (cs.rbuf == old(cs.rbuf) || fresh(cs.rbuf))
      ensures match ending
              case Served(reply) =>
                && Parse(stream).Done? && DecodeOne(stream).One?
                && c.dispatched == old(c.dispatched) + [DecodeOne(stream).req] && c.pages == old(c.pages)
                && keepGoing == (reply.written && !reply.hijack && DecodeOne(stream).req.keepAlive)
                && (keepGoing ==> cs.Stream(c) == stream[DecodeOne(stream).n..])
                && reply == ReplyAt(old(c.replies), 0) && c.replies == RepliesAfter(old(c.replies), 1)
                && (Parse(stream).n <= old(cs.rbuf.Length) ==>
                      cs.rbuf.Length == LengthFor(old(cs.rbuf.Length), DecodeOne(stream).n))
              case _ =>
                && !keepGoing && c.dispatched == old(c.dispatched) && c.replies == old(c.replies)
                && c.pages == old(c.pages) + PageOf(ending) && Accounts(ending, stream)
      ensures ReadOn(old(c.schedule), old(c.incoming), c.schedule, c.incoming)
      ensures ending == Lost ==> BrokenOff(old(c.schedule), c.schedule, c.incoming)
      ensures Bounded(cs.rbuf.Length, old(cs.rbuf.Length))
    {
      hide DecodeOne, Parse, Req.Over, Seen, ReadOn, BrokenOff, RefusedWith, LimitHit, LengthFor, ReplyAt, RepliesAfter;
      var stop, end;
      ghost var buf0;
      stop, end, buf0 := ReadRequest(c, cs, stream);
      if stop.Some? {
        if stop.value.Refused? || stop.value.Limited? {
          c.WritePage(stop.value.status);
        }
        return false, stop.value;
      }
      var reply := c.Dispatch(cs.req, buf0);
      var closeConn := !cs.req.keepAlive;
      if !reply.written || reply.hijack {
        return false, Served(reply);
      }
      cs.Compact(end);
      return !closeConn, Served(reply);
    }
  }

  method SetBody(req: Req, ghost buf0: array<byte>, ghost content0: bytes, ghost head: Request, rbuf: array<byte>, n: nat, end: nat, ghost stream: bytes)
    requires req.Over(buf0, |content0|) && req.Head(buf0, content0) == head && req.body == NIL
    requires |content0| <= buf0.Length && buf0[..|content0|] == content0
    requires n <= end <= rbuf.Length && end <= |stream| && rbuf[..end] == stream[..end]
    modifies req`body
    ensures req.Over(buf0, buf0.Length) && req.BodyOk()
    ensures Seen(req, buf0) == head.(body := stream[n..end])
  {
    HeadPrefix(req, buf0, content0, buf0[..]);
    if n < end {
      req.body := Slice(rbuf, n, end);
      assert rbuf[n..end] == rbuf[..end][n..];
      assert stream[n..end] == stream[..end][n..];
    }
  }

  /** More of the buffer behind the head does not change what its slices read. */
  lemma {:induction false} HeadPrefix(req: Req, buf: array<byte>, short: bytes, long: bytes)
    requires req.Over(buf, |short|) && short <= long
    ensures req.Over(buf, |long|) && req.Head(buf, long) == req.Head(buf, short)
  {
    SlotsPrefix(req.headers[..req.nHeaders], buf, short, long);
    if req.path.arr != null { PrefixSlice(short, long, req.path.lo, req.path.hi); }
    if req.query.arr != null { PrefixSlice(short, long, req.query.lo, req.query.hi); }
    if req.host.arr != null { PrefixSlice(short, long, req.host.lo, req.host.hi); }
  }

  lemma {:induction false} PrefixSlice(short: bytes, long: bytes, lo: nat, hi: nat)
    requires short <= long && lo <= hi <= |short|
    ensures short[lo..hi] == long[lo..hi]
  {
  }

  lemma {:induction false} SlotsPrefix(slots: seq<HeaderSlot>, buf: array<byte>, short: bytes, long: bytes)
    requires SlotsWithin(slots, buf, |short|) && short <= long
    ensures SlotsWithin(slots, buf, |long|) && HeadersOf(slots, buf, long) == HeadersOf(slots, buf, short)
  {
    if slots != [] {
      var last := slots[|slots| - 1];
      SlotsPrefix(slots[..|slots| - 1], buf, short, long);
      PrefixSlice(short, long, last.name.lo, last.name.hi);
      PrefixSlice(short, long, last.value.lo, last.value.hi);
    }
  }

  lemma {:induction false} HeldFields(buf: array<byte>, content: bytes, req: Req, r: Request)
    requires req.Holds(buf, content, r)
    ensures req.contentLength == r.contentLength && req.keepAlive == r.keepAlive && req.body == NIL
    ensures req.Over(buf, |content|) && req.Head(buf, content) == r
  {
  }

  /* ---- what parse results say about the decoder and the limits ---- */

  lemma {:induction false} RejectedIsRefused(stream: bytes)
    requires Parse(stream).Failed? && Parse(stream).complete
    ensures RefusedWith(stream, StatusFor(Parse(stream).error))
  {
  }

  lemma {:induction false} IncompleteIsNothing(stream: bytes)
    requires Parse(stream) == Incomplete
    ensures DecodeOne(stream) == Nothing
  {
  }

  lemma {:induction false} ChunkedIsRefused(server: Server, stream: bytes)
    requires Parse(stream).Done? && Parse(stream).req.contentLength == -2
    ensures server.Accounts(Refused(400), stream)
  {
  }

  /** The ways reading a body stops. */
  lemma {:induction false} BodyStops(server: Server, stream: bytes, stop: Ending)
    requires Parse(stream).Done? && Parse(stream).req.contentLength != -2
    requires var len := BodyLength(Parse(stream).req);
             || stop == Lost
             || (stop == Quiet && |stream| < Parse(stream).n + len)
             || (stop == Limited(413) && (len > server.maxBodyBytes || (len > 0 && Parse(stream).n + len > server.maxReadBuf)))
    ensures server.Accounts(stop, stream)
  {
    hide Parse;
  }

  lemma {:induction false} WholeRequest(stream: bytes, end: nat)
    requires Parse(stream).Done? && Parse(stream).req.contentLength != -2
    requires end == Parse(stream).n + BodyLength(Parse(stream).req) <= |stream|
    ensures Parse(stream).n <= end && DecodeOne(stream) == One(Parse(stream).req.(body := stream[Parse(stream).n..end]), end)
  {
    hide Parse;
  }

  /** The buffer grew for the head within the bound, and then perhaps once for the body. */
  lemma {:induction false} BoundedByBody(server: Server, was: nat, forHead: nat, needed: nat, now: nat)
    requires forHead <= was || forHead <= server.maxReadBuf
    requires now == forHead || (needed <= server.maxReadBuf && now == LengthFor(forHead, needed))
    ensures server.Bounded(now, was)
    ensures needed <= forHead ==> LengthFor(forHead, needed) == forHead
  {
  }

  /** The first k bytes do not hold the head. */
  ghost predicate NotYet(stream: bytes, k: nat) {
    k <= |stream| && Parse(stream[..k]) == Incomplete
  }

  lemma {:induction false} FoundAfter(stream: bytes, n: nat, k: nat)
    requires Parse(stream).Done? && Parse(stream).n == n
    ensures NotYet(stream, k) ==> k < n
  {
    hide Parse;
    if NotYet(stream, k) && n <= k {
      ParseMovesOn(stream);
      assert stream[..k][..n] == stream[..n];
      ParseStable(stream, stream[..k], n);
    }
  }

  /** The connection did not end because of a limit, a broken read, or the handler's response. */
  predicate RanOut(ending: Ending) {
    ending.Quiet? || ending.Refused? || (ending.Served? && Keeps(ending.reply))
  }

  /** Nothing that the peer, the network or a limit does stands in the way. */
  ghost predicate Unhindered(server: Server, incoming: bytes, schedule: seq<Arrival>) {
    Prompt(schedule, incoming) && AllTaken(incoming, server.maxBodyBytes, server.maxReadBuf)
  }

  lemma {:induction false} NextStream(whole: bytes, k: nat)
    requires DecodeOne(StreamAfter(whole, k)).One?
    ensures DecodeOne(StreamAfter(whole, k)).n <= |StreamAfter(whole, k)|
    ensures StreamAfter(whole, k + 1) == StreamAfter(whole, k)[DecodeOne(StreamAfter(whole, k)).n..]
  {
    hide DecodeOne;
    DecodeShrinks(StreamAfter(whole, k));
  }

  lemma {:induction false} EndedOnNothing(server: Server, ending: Ending, stream: bytes)
    requires ending.Served? || server.Accounts(ending, stream)
    ensures ending.Quiet? || ending.Refused? ==> DecodeOne(stream) == Nothing
  {
    hide DecodeOne, RefusedWith;
    if ending.Refused? {
      RefusedIsNothing(stream, ending.status);
    }
  }

  /** With a request within the limits in front, a turn that loses no bytes serves it. */
  lemma {:induction false} TakenIsServed(server: Server, ending: Ending, stream: bytes)
    requires ending.Served? || server.Accounts(ending, stream)
    requires DecodeOne(stream).One? && Taken(stream, server.maxBodyBytes, server.maxReadBuf)
    ensures ending.Served? || ending.Lost?
  {
    hide DecodeOne, Taken, LimitHit, RefusedWith, Parse;
    match ending {
      case Refused(status) => RefusedIsNothing(stream, status);
      case Limited(status) => TakenIsNotLimited(stream, status, server.maxBodyBytes, server.maxReadBuf);
      case _ =>
    }
  }

  /** When every request is within the limits, an ending without a request comes only where no request is left. */
  lemma {:induction false} NoneLeft(server: Server, ending: Ending, stream: bytes)
    requires server.Accounts(ending, stream) && !ending.Lost?
    requires AllTaken(stream, server.maxBodyBytes, server.maxReadBuf)
    ensures DecodeOne(stream) == Nothing
  {
    hide DecodeOne, Taken, LimitHit, RefusedWith, Parse, AllTaken;
    if DecodeOne(stream).One? {
      AllTakenUnfolds(stream, server.maxBodyBytes, server.maxReadBuf);
      TakenIsServed(server, ending, stream);
    }
  }

  /**
   A whole connection: however the bytes are cut into reads, the handler sees a
   prefix of the requests the pure decoder finds in the byte stream. It sees
   all of them when the connection ends because the peer closed at a quiet
   point, because the stream is refused, or because a request asked to close.
   When every read brings bytes and every request is within the limits, it
   sees those up to the first reply that takes or breaks the connection.
   `rest` is the stream at the last turn: what the ending says of it, of the
   replies and of the reads is what stopped the connection.
   */
  method ServeConn(server: Server, c: Conn, cs: ConnState) returns (ghost ending: Ending, ghost rest: bytes)
    requires cs.Ready() && cs.rend == 0 && c.dispatched == []
    modifies c, cs, cs.rbuf, cs.req, cs.req.headers
    ensures c.dispatched <= DecodeAll(old(c.incoming))
    ensures RanOut(ending) ==> c.dispatched == DecodeAll(old(c.incoming))
    ensures Unhindered(server, old(c.incoming), old(c.schedule)) ==>
              ServedUpTo(old(c.replies), |c.dispatched|, |DecodeAll(old(c.incoming))|)
    ensures Unhindered(server, old(c.incoming), old(c.schedule)) && Clean(old(c.replies)) ==>
              c.dispatched == DecodeAll(old(c.incoming))
    ensures forall i: nat :: i + 1 < |c.dispatched| ==> Keeps(ReplyAt(old(c.replies), i))
    ensures c.replies == RepliesAfter(old(c.replies), |c.dispatched|)
    ensures match ending
            case Served(reply) =>
              && c.dispatched != [] && rest == StreamAfter(old(c.incoming), |c.dispatched| - 1) && DecodeOne(rest).One?
              && reply == ReplyAt(old(c.replies), |c.dispatched| - 1)
              && (Keeps(reply) ==> !DecodeOne(rest).req.keepAlive)
            case _ => rest == StreamAfter(old(c.incoming), |c.dispatched|) && server.Accounts(ending, rest)
    ensures ending == Lost ==> BrokenOff(old(c.schedule), c.schedule, c.incoming)
    ensures c.pages == old(c.pages) + PageOf(ending)
    ensures server.Bounded(cs.rbuf.Length, old(cs.rbuf.Length))
  {
    hide DecodeOne, DecodeAll, Parse, Prompt, ReadOn, Clean, ReplyAt, RepliesAfter, AllTaken, StreamAfter, Server.Accounts, LengthFor, BrokenOff;
    ghost var whole, stream, replies := c.incoming, c.incoming, c.replies;
    ghost var good := Unhindered(server, c.incoming, c.schedule);
    WholeFirst(whole);
    NextReply(replies, 0);
    NoReadsYet(c.schedule, c.incoming);
    assert cs.Stream(c) == stream;
    var keepGoing := true;
    ending, rest := Lost, stream;
    while keepGoing
      invariant cs.Ready() && (cs.rbuf == old(cs.rbuf) || fresh(cs.rbuf))
      invariant keepGoing ==> cs.Stream(c) == stream && DecodeAll(whole) == c.dispatched + DecodeAll(stream)
      invariant keepGoing ==> stream == StreamAfter(whole, |c.dispatched|) && c.pages == old(c.pages)
      invariant keepGoing && good ==> AllTaken(stream, server.maxBodyBytes, server.maxReadBuf)
      invariant c.replies == RepliesAfter(replies, |c.dispatched|)
      invariant forall i: nat :: i + (if keepGoing then 0 else 1) < |c.dispatched| ==> Keeps(ReplyAt(replies, i))
      invariant ReadOn(old(c.schedule), old(c.incoming), c.schedule, c.incoming)
      invariant server.Bounded(cs.rbuf.Length, old(cs.rbuf.Length))
      invariant !keepGoing ==> c.dispatched <= DecodeAll(whole)
      invariant !keepGoing && (RanOut(ending) || (good && !ending.Served?)) ==> c.dispatched == DecodeAll(whole)
      invariant !keepGoing ==> c.pages == old(c.pages) + PageOf(ending)
      invariant !keepGoing && ending == Lost ==> BrokenOff(old(c.schedule), c.schedule, c.incoming)
      invariant !keepGoing ==>
                  match ending
                  case Served(reply) =>
                    && c.dispatched != [] && rest == StreamAfter(whole, |c.dispatched| - 1) && DecodeOne(rest).One?
                    && reply == ReplyAt(replies, |c.dispatched| - 1)
                    && (Keeps(reply) ==> !DecodeOne(rest).req.keepAlive)
                  case _ => rest == StreamAfter(whole, |c.dispatched|) && server.Accounts(ending, rest)
      decreases keepGoing, |stream|
    {
      rest := stream;
      DecodeStep(whole, c.dispatched, stream);
      ghost var schedule, incoming, served := c.schedule, c.incoming, |c.dispatched|;
      keepGoing, ending := server.ServeOne(c, cs, stream);
      ReadOnTwice(old(c.schedule), old(c.incoming), schedule, incoming, c.schedule, c.incoming);
      EndedOnNothing(server, ending, stream);
      if ending.Served? {
        NextReply(replies, served);
        NextStream(whole, served);
        if good {
          AllTakenUnfolds(stream, server.maxBodyBytes, server.maxReadBuf);
        }
      } else if good {
        StillPrompt(old(c.schedule), old(c.incoming), schedule, incoming, c.schedule, c.incoming);
        NoneLeft(server, ending, stream);
      }
      if keepGoing {
        stream := stream[DecodeOne(stream).n..];
      }
    }
    if good && Clean(replies) {
      CleanServesAll(replies, |c.dispatched|, |DecodeAll(whole)|);
    }
  }

  /**
   A connection that passes the configured bound: with the initial 4096 bytes
   and a bound of 65536, a request of 40000 bytes followed by one of 50000,
   each with a short head and within every limit, leaves a read buffer of
   80000 bytes.
   */
  method TwoLargeRequests(server: Server, c: Conn, cs: ConnState, ghost stream: bytes)
    requires server.maxReadBuf == 65536 && server.maxBodyBytes >= 50000
    requires cs.Ready() && cs.rbuf.Length == 4096 && cs.Stream(c) == stream
    requires Prompt(c.schedule, c.incoming) && Clean(c.replies)
    requires LargeRequest(stream, 40000) && DecodeOne(stream).req.keepAlive && LargeRequest(stream[40000..], 50000)
    modifies c, cs`rbuf, cs`rend, cs.rbuf, cs.req, cs.req.headers
    ensures cs.rbuf.Length == 80000 > server.maxReadBuf
    ensures c.dispatched == old(c.dispatched) + [DecodeOne(stream).req, DecodeOne(stream[40000..]).req]
  {
    hide Parse, DecodeOne, Server.Accounts, ReadOn, BrokenOff, LengthFor, Prompt, Clean, Keeps, ReplyAt, RepliesAfter, LongLine;
    ghost var replies, schedule, incoming := c.replies, c.schedule, c.incoming;
    NextReply(replies, 0);
    LargeIsTaken(stream, 40000, server.maxBodyBytes, server.maxReadBuf);
    LargeIsTaken(stream[40000..], 50000, server.maxBodyBytes, server.maxReadBuf);
    BoundPassed();
    ghost var ending;
    var keepGoing;
    keepGoing, ending := server.ServeOne(c, cs, stream);
    PromptIsWhole(schedule, incoming, c.schedule, c.incoming);
    TakenIsServed(server, ending, stream);
    assert keepGoing;
    ghost var schedule1, incoming1 := c.schedule, c.incoming;
    NextReply(replies, 1);
    keepGoing, ending := server.ServeOne(c, cs, stream[40000..]);
    StillPrompt(schedule, incoming, schedule1, incoming1, c.schedule, c.incoming);
    TakenIsServed(server, ending, stream[40000..]);
  }

  /** The stream starts with a whole request of n bytes whose head is within the initial buffer. */
  ghost predicate LargeRequest(stream: bytes, n: nat) {
    && Parse(stream).Done? && Parse(stream).n <= 4096
    && DecodeOne(stream).One? && DecodeOne(stream).n == n <= |stream|
  }

  lemma {:induction false} LargeIsTaken(stream: bytes, n: nat, maxBodyBytes: int, maxReadBuf: int)
    requires LargeRequest(stream, n) && n <= maxBodyBytes && n <= maxReadBuf
    ensures Taken(stream, maxBodyBytes, maxReadBuf)
  {
    hide Parse, FindEol;
    ParseMovesOn(stream);
    ShortLine(stream);
  }

  lemma {:induction false} WholeFirst(whole: bytes)
    ensures StreamAfter(whole, 0) == whole
  {
  }

  lemma {:induction false} NoReadsYet(schedule: seq<Arrival>, incoming: bytes)
    ensures ReadOn(schedule, incoming, schedule, incoming)
  {
  }

  /** Reads of a turn, after the reads before it. */
  lemma {:induction false} ReadOnTwice(was: seq<Arrival>, wasIncoming: bytes, schedule: seq<Arrival>, incoming: bytes, now: seq<Arrival>, nowIncoming: bytes)
    requires ReadOn(was, wasIncoming, schedule, incoming) && ReadOn(schedule, incoming, now, nowIncoming)
    ensures ReadOn(was, wasIncoming, now, nowIncoming)
    ensures BrokenOff(schedule, now, nowIncoming) ==> BrokenOff(was, now, nowIncoming)
  {
  }

  lemma {:induction false} StillPrompt(was: seq<Arrival>, wasIncoming: bytes, schedule: seq<Arrival>, incoming: bytes, now: seq<Arrival>, nowIncoming: bytes)
    requires ReadOn(was, wasIncoming, schedule, incoming) && ReadOn(schedule, incoming, now, nowIncoming) && Prompt(was, wasIncoming)
    ensures !BrokenOff(schedule, now, nowIncoming)
  {
    PromptIsWhole(schedule, incoming, now, nowIncoming);
  }
}

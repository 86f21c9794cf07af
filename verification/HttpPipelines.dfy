/**
 Printed heads parse back, and whole messages on the wire, one behind the other,
 decode to themselves.
 */
module HttpPipelines {
  import opened HttpBytes
  import opened HttpGrammar
  import opened HttpFraming
  import opened HttpPrinting
  import opened HttpSpelling
  import opened HttpDecoder

  /* ---- printing is one spelling ---- */

  function PrintedFields(hs: seq<Header>): seq<RawLine> {
    if hs == [] then [] else [RawLine(PrintHeader(hs[0]), CRLF)] + PrintedFields(hs[1..])
  }

  lemma {:induction false} PrintedSpells(hs: seq<Header>)
    requires HeadersOk(hs)
    ensures SpellsHeaders(PrintedFields(hs), hs) && AllLines(PrintedFields(hs)) == PrintHeaders(hs)
  {
    hide PrintHeader, HeaderOk, Ended, SpellsHeader;
    if hs != [] {
      PrintedSpells(hs[1..]);
      NameIsLine(hs[0]);
      PrintedLine(hs[0]);
      SpelledCons(RawLine(PrintHeader(hs[0]), CRLF), hs[0], PrintedFields(hs[1..]), hs[1..]);
      assert hs == [hs[0]] + hs[1..];
    } else {
      NoLines();
    }
  }

  lemma {:induction false} NameIsLine(h: Header)
    requires HeaderOk(h)
    ensures Lacks(h.value, LF) && Lacks(h.name, LF)
  {
  }

  lemma {:induction false} PrintedLine(h: Header)
    requires Lacks(h.value, LF) && Lacks(h.name, LF)
    ensures SpellsHeader(PrintHeader(h), h) && Ended(RawLine(PrintHeader(h), CRLF))
  {
    var left, right: bytes := [SP], [];
    assert AllBlank(left) && AllBlank(right);
    assert PrintHeader(h) == h.name + [COLON] + (left + h.value + right);
  }

  /**
   Parsing undoes printing: whatever bytes follow, the parser consumes exactly
   the printed form and recovers every field of the request.
   */
  lemma {:induction false} ParseUndoesPrint(r: Request, rest: bytes)
    requires WellFormed(r) && WithinLimits(r)
    ensures Parse(Print(r) + rest) == Done(|Print(r)|, r)
  {
    hide Parse, PrintRequestLine, PrintHeaders, TargetOk, FramingOf, HostOf, KeepAliveOf;
    var h := RawHead(RawLine(PrintRequestLine(r), CRLF), PrintedFields(r.headers), CRLF);
    PrintedSpells(r.headers);
    RequestLineIsLine(r);
    assert HeadBytes(h) == Print(r);
    SpelledParses(h, r, rest);
  }

  /* ---- messages ---- */

  /** A printable head with a body of the length it announces. */
  ghost predicate Sendable(r: Request) {
    && r.major < 10 && r.minor < 10 && WellFormed(r.(body := [])) && WithinLimits(r.(body := []))
    && r.contentLength != -2 && |r.body| == BodyLength(r)
  }

  function Message(r: Request): bytes
    requires r.major < 10 && r.minor < 10
  {
    Print(r.(body := [])) + r.body
  }

  ghost predicate AllSendable(rs: seq<Request>) {
    forall i :: 0 <= i < |rs| ==> Sendable(rs[i])
  }

  ghost function Messages(rs: seq<Request>): bytes
    requires AllSendable(rs)
  {
    if rs == [] then [] else Message(rs[0]) + Messages(rs[1..])
  }

  /** The requests up to the first that asks to close, that one included. */
  function UpToClose(rs: seq<Request>): seq<Request> {
    if rs == [] then [] else [rs[0]] + if rs[0].keepAlive then UpToClose(rs[1..]) else []
  }

  predicate NoneCloses(rs: seq<Request>) {
    forall i :: 0 <= i < |rs| ==> rs[i].keepAlive
  }

  /** A message is the first request of every stream it starts, body included. */
  lemma {:induction false} MessageDecodes(r: Request, tail: bytes)
    requires Sendable(r)
    ensures r.major < 10 && r.minor < 10 && DecodeOne(Message(r) + tail) == One(r, |Message(r)|)
    ensures Parse(Message(r) + tail) == Done(|Print(r.(body := []))|, r.(body := []))
  {
    hide Parse, Print, WellFormed, WithinLimits;
    var head := r.(body := []);
    var stream, n := Message(r) + tail, |Print(head)|;
    ParseUndoesPrint(head, r.body + tail);
    assert stream == Print(head) + (r.body + tail);
    assert stream[n..n + |r.body|] == r.body;
    assert head.(body := r.body) == r;
  }

  lemma {:induction false} FirstMessage(rs: seq<Request>, rest: bytes)
    requires AllSendable(rs) && rs != []
    ensures AllSendable(rs[1..])
    ensures var tail := Messages(rs[1..]) + rest;
            DecodeAll(Messages(rs) + rest) == [rs[0]] + if rs[0].keepAlive then DecodeAll(tail) else []
  {
    hide DecodeOne, DecodeAll, Sendable, Message;
    var r, tail := rs[0], Messages(rs[1..]) + rest;
    MessageDecodes(r, tail);
    DecodeUnfolds(Message(r) + tail);
    InFront(Message(r), Messages(rs[1..]), rest);
  }

  lemma {:induction false} InFront(a: bytes, b: bytes, c: bytes)
    ensures (a + b) + c == a + (b + c) && (a + (b + c))[|a|..] == b + c
  {
  }

  /** Pipelined messages decode to exactly themselves, up to the first that asks to close. */
  lemma {:induction false} PipelineDecodes(rs: seq<Request>, rest: bytes)
    requires AllSendable(rs)
    ensures DecodeAll(Messages(rs) + rest) == UpToClose(rs) + if NoneCloses(rs) then DecodeAll(rest) else []
  {
    hide DecodeOne, DecodeAll, AllSendable, Message;
    if rs == [] {
      assert Messages(rs) + rest == rest;
      assert UpToClose(rs) + DecodeAll(rest) == DecodeAll(rest);
    } else {
      hide Messages;
      FirstMessage(rs, rest);
      if rs[0].keepAlive {
        PipelineDecodes(rs[1..], rest);
      }
    }
  }

}

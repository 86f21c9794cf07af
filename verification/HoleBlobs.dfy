/**
 The per-route hole blob: the build appends it to one shared byte section, the
 server reads it back from the route's offset to the end of that section.
 */
module HoleBlobs {
  import opened Options
  import opened HttpBytes

  /** One hole as the build records it. */
  datatype RawHole = RawHole(position: nat, sql: bytes, template: bytes)

  /** One hole as the server uses it; tables None means its SQL could not be attributed. */
  datatype Hole = Hole(position: nat, sql: string, template: bytes, tables: Option<seq<string>>)

  datatype Read = Holes(holes: seq<Hole>) | InvalidBlob | BadTemplate

  const U16: nat := 0x1_0000
  const U32: nat := 0x1_0000_0000

  /** Bytes as a Go string holds them, one element a byte. */
  function Text(b: bytes): string {
    seq(|b|, i requires 0 <= i < |b| => b[i] as char)
  }

  function Low(n: nat): byte {
    n % 0x100
  }

  function LE16(n: nat): bytes {
    var w := n % U16;
    [Low(w), Low(w / 0x100)]
  }

  function LE32(n: nat): bytes {
    var w := n % U32;
    [Low(w), Low(w / 0x100), Low(w / 0x1_0000), Low(w / 0x100_0000)]
  }

  function Get16(b: bytes, i: nat): nat
    requires i + 2 <= |b|
  {
    b[i] as int + 0x100 * b[i + 1] as int
  }

  function Get32(b: bytes, i: nat): nat
    requires i + 4 <= |b|
  {
    b[i] as int + 0x100 * b[i + 1] as int + 0x1_0000 * b[i + 2] as int + 0x100_0000 * b[i + 3] as int
  }

  /* ---- writing ---- */

  function Record(h: RawHole): bytes {
    LE32(h.position) + LE16(|h.sql|) + h.sql + LE16(|h.template|) + h.template
  }

  function Records(holes: seq<RawHole>): bytes {
    if holes == [] then [] else Record(holes[0]) + Records(holes[1..])
  }

  function Blob(holes: seq<RawHole>): bytes {
    LE16(|holes|) + Records(holes)
  }

  /** Every length and position fits the width its field has. */
  predicate FitsFields(holes: seq<RawHole>) {
    && |holes| < U16
    && forall i :: 0 <= i < |holes| ==>
         holes[i].position < U32 && |holes[i].sql| < U16 && |holes[i].template| < U16
  }

  class Compiler {
    var holeBlobs: bytes

    constructor ()
      ensures holeBlobs == []
    {
      holeBlobs := [];
    }

    /** Append one route's blob; offset 0 stays reserved for "no holes", and offsets have 32 bits. */
    method AppendHoleBlob(holes: seq<RawHole>) returns (off: nat)
      modifies this
      ensures off == (if |old(holeBlobs)| == 0 then 1 else |old(holeBlobs)|) % U32
      ensures holeBlobs == (if old(holeBlobs) == [] then [0] else old(holeBlobs)) + Blob(holes)
      ensures |old(holeBlobs)| < U32 ==> 0 < off <= |holeBlobs| && holeBlobs[off..] == Blob(holes)
    {
      if |holeBlobs| == 0 {
        holeBlobs := holeBlobs + [0];
      }
      off := |holeBlobs| % U32;
      ghost var was := holeBlobs;
      holeBlobs := holeBlobs + LE16(|holes|);
      hide Records, Record, LE16;
      assert holes[0..] == holes;
      Regroup(was, LE16(|holes|), Records(holes));
      for i := 0 to |holes|
        invariant was + Blob(holes) == holeBlobs + Records(holes[i..])
      {
        FirstRecord(holes, i);
        Regroup(holeBlobs, Record(holes[i]), Records(holes[i + 1..]));
        AppendRecord(holes[i]);
      }
      NoRecords(holes);
      assert holeBlobs + [] == holeBlobs;
      BehindAll(was, Blob(holes));
    }

    method AppendRecord(h: RawHole)
      modifies this
      ensures holeBlobs == old(holeBlobs) + Record(h)
    {
      hide LE16, LE32;
      holeBlobs := holeBlobs + LE32(h.position);
      holeBlobs := holeBlobs + LE16(|h.sql|);
      holeBlobs := holeBlobs + h.sql;
      holeBlobs := holeBlobs + LE16(|h.template|);
      holeBlobs := holeBlobs + h.template;
    }
  }

  lemma {:induction false} FirstRecord(holes: seq<RawHole>, i: nat)
    requires i < |holes|
    ensures Records(holes[i..]) == Record(holes[i]) + Records(holes[i + 1..])
  {
  }

  lemma {:induction false} NoRecords(holes: seq<RawHole>)
    ensures Records(holes[|holes|..]) == []
  {
  }

  /** What was appended starts where everything before ends, which is also its 32-bit offset while it has one. */
  lemma {:induction false} BehindAll(was: bytes, blob: bytes)
    ensures (was + blob)[|was|..] == blob && (|was| < U32 ==> |was| % U32 == |was|)
  {
  }

  lemma {:induction false} Regroup(a: bytes, b: bytes, c: bytes)
    ensures a + (b + c) == (a + b) + c
  {
  }

  /* ---- reading ---- */

  /** The record at a position and where the next one starts. */
  function RecordAt(blob: bytes, pos: nat): (r: Option<(RawHole, nat)>)
    ensures r.Some? ==> pos < r.value.1 <= |blob|
  {
    if pos + 10 > |blob| then None
    else
      var sqlLen := Get16(blob, pos + 4);
      var sqlAt := pos + 6;
      if sqlAt + sqlLen + 2 > |blob| then None
      else
        var tplLen := Get16(blob, sqlAt + sqlLen);
        var tplAt := sqlAt + sqlLen + 2;
        if tplAt + tplLen > |blob| then None
        else Some((RawHole(Get32(blob, pos), blob[sqlAt..sqlAt + sqlLen], blob[tplAt..tplAt + tplLen]), tplAt + tplLen))
  }

  /** An empty statement reads no table; any other is attributed by table extraction. */
  function Parsed(raw: RawHole, attribute: string -> Option<seq<string>>): Hole {
    Hole(raw.position, Text(raw.sql), raw.template,
         if raw.sql == [] then Some([]) else attribute(Text(raw.sql)))
  }

  function ReadFrom(blob: bytes, pos: nat, n: nat, parses: bytes -> bool, attribute: string -> Option<seq<string>>): Read
    decreases n
  {
    if n == 0 then Holes([])
    else
      match RecordAt(blob, pos)
      case None => InvalidBlob
      case Some((raw, next)) =>
        if !parses(raw.template) then BadTemplate
        else
          Before([Parsed(raw, attribute)], ReadFrom(blob, next, n - 1, parses, attribute))
  }

  /** What reading a blob means. */
  function ReadBlob(blob: bytes, parses: bytes -> bool, attribute: string -> Option<seq<string>>): Read {
    if |blob| < 2 then Holes([]) else ReadFrom(blob, 2, Get16(blob, 0), parses, attribute)
  }

  /** readHoles: a cursor over the blob, with the bounds checks the server makes. */
  method ReadHoles(blob: bytes, parses: bytes -> bool, attribute: string -> Option<seq<string>>) returns (r: Read)
    ensures r == ReadBlob(blob, parses, attribute)
  {
    hide Get16, Get32, Text;
    if |blob| < 2 {
      return Holes([]);
    }
    var n := Get16(blob, 0);
    var out: seq<Hole> := [];
    var pos := 2;
    for i := 0 to n
      invariant 0 <= pos <= |blob|
      invariant ReadBlob(blob, parses, attribute) == Before(out, ReadFrom(blob, pos, n - i, parses, attribute))
    {
      ghost var start := pos;
      if pos + 10 > |blob| {
        return InvalidBlob;
      }
      var hPos := Get32(blob, pos);
      pos := pos + 4;
      var sqlLen := Get16(blob, pos);
      pos := pos + 2;
      if pos + sqlLen + 2 > |blob| {
        return InvalidBlob;
      }
      var sql := blob[pos..pos + sqlLen];
      pos := pos + sqlLen;
      var tplLen := Get16(blob, pos);
      pos := pos + 2;
      if pos + tplLen > |blob| {
        return InvalidBlob;
      }
      var tpl := blob[pos..pos + tplLen];
      pos := pos + tplLen;
      assert RecordAt(blob, start) == Some((RawHole(hPos, sql, tpl), pos));
      if !parses(tpl) {
        return BadTemplate;
      }
      var tables := if sql == [] then Some([]) else attribute(Text(sql));
      Regrouped(out, Hole(hPos, Text(sql), tpl, tables), ReadFrom(blob, pos, n - i - 1, parses, attribute));
      out := out + [Hole(hPos, Text(sql), tpl, tables)];
    }
    return Holes(out);
  }

  lemma {:induction false} Regrouped(out: seq<Hole>, h: Hole, rest: Read)
    ensures Before(out + [h], rest) == Before(out, Before([h], rest))
  {
  }

  /** A reading of the rest, put behind the holes already read. */
  function Before(out: seq<Hole>, rest: Read): Read {
    if rest.Holes? then Holes(out + rest.holes) else rest
  }

  /* ---- the round trip ---- */

  lemma {:induction false} RecordLength(h: RawHole)
    ensures |Record(h)| == 8 + |h.sql| + |h.template|
  {
  }

  lemma {:induction false} RecordsLength(holes: seq<RawHole>)
    ensures |Records(holes)| >= 8 * |holes|
  {
    if holes != [] {
      RecordsLength(holes[1..]);
    }
  }

  lemma {:induction false} Get16At(pre: bytes, n: nat, post: bytes)
    requires n < U16
    ensures |LE16(n)| == 2 && Get16(pre + LE16(n) + post, |pre|) == n
  {
  }

  lemma {:induction false} Get32At(n: nat, post: bytes)
    requires n < U32
    ensures |LE32(n)| == 4 && Get32(LE32(n) + post, 0) == n
  {
    hide LE32, Get32;
    DigitsOf(n);
    FourBytes(LE32(n), post);
  }

  lemma {:induction false} FourBytes(w: bytes, post: bytes)
    requires |w| == 4
    ensures Get32(w + post, 0) == w[0] as int + 0x100 * w[1] as int + 0x1_0000 * w[2] as int + 0x100_0000 * w[3] as int
  {
  }

  lemma {:induction false} DigitsOf(n: nat)
    requires n < U32
    ensures var w := LE32(n);
            |w| == 4 && n == w[0] as int + 0x100 * w[1] as int + 0x1_0000 * w[2] as int + 0x100_0000 * w[3] as int
  {
    Digits(n);
  }

  /** Base-256 digits make up the number. */
  lemma {:induction false} Digits(n: nat)
    requires n < U32
    ensures n == n % 0x100 + 0x100 * (n / 0x100 % 0x100) + 0x1_0000 * (n / 0x1_0000 % 0x100) + 0x100_0000 * (n / 0x100_0000 % 0x100)
  {
    var a := n / 0x100;
    var b := a / 0x100;
    assert b == n / 0x1_0000 && b / 0x100 == n / 0x100_0000;
  }

  /** The field between two others, cut out again. */
  lemma {:induction false} FieldAt(pre: bytes, field: bytes, post: bytes)
    ensures (pre + field + post)[|pre|..|pre| + |field|] == field
  {
  }

  /** Reading at a position is reading the suffix from its start. */
  lemma {:induction false} RecordAtSuffix(blob: bytes, pos: nat)
    requires pos <= |blob|
    ensures RecordAt(blob, pos) ==
            match RecordAt(blob[pos..], 0) case Some((h, next)) => Some((h, pos + next)) case None => None
  {
    var tail := blob[pos..];
    if pos + 10 <= |blob| {
      var sqlLen := Get16(tail, 4);
      assert sqlLen == Get16(blob, pos + 4) && Get32(blob, pos) == Get32(tail, 0);
      if pos + 6 + sqlLen + 2 <= |blob| {
        var tplLen := Get16(tail, 6 + sqlLen);
        assert tplLen == Get16(blob, pos + 6 + sqlLen);
        SuffixSlice(blob, pos, 6, sqlLen);
        if pos + 8 + sqlLen + tplLen <= |blob| {
          SuffixSlice(blob, pos, 8 + sqlLen, tplLen);
        }
      }
    }
  }

  lemma {:induction false} SuffixSlice(blob: bytes, pos: nat, at: nat, len: nat)
    requires pos + at + len <= |blob|
    ensures blob[pos..][at..at + len] == blob[pos + at..pos + at + len]
  {
  }

  /** The printed record, cut before each of its fields. */
  lemma {:induction false} Cuts(p: bytes, s: bytes, sql: bytes, t: bytes, tpl: bytes, rest: bytes)
    ensures var b := p + s + sql + t + tpl + rest;
            && b == p + (s + sql + t + tpl + rest)
            && b == p + s + (sql + t + tpl + rest)
            && b == (p + s) + sql + (t + tpl + rest)
            && b == (p + s + sql) + t + (tpl + rest)
            && b == (p + s + sql + t) + tpl + rest
  {
  }

  /**
   A record is read back exactly when ten bytes are there to look at: one whose
   SQL and template together have fewer than two bytes needs bytes after it.
   */
  lemma {:induction false} RecordRoundTrip(h: RawHole, rest: bytes)
    requires h.position < U32 && |h.sql| < U16 && |h.template| < U16
    ensures RecordAt(Record(h) + rest, 0) ==
            if |Record(h)| + |rest| >= 10 then Some((h, |Record(h)|)) else None
  {
    hide LE16, LE32, Get16, Get32;
    var p, s, t := LE32(h.position), LE16(|h.sql|), LE16(|h.template|);
    Cuts(p, s, h.sql, t, h.template, rest);
    Get32At(h.position, s + h.sql + t + h.template + rest);
    Get16At(p, |h.sql|, h.sql + t + h.template + rest);
    Get16At(p + s + h.sql, |h.template|, h.template + rest);
    FieldAt(p + s, h.sql, t + h.template + rest);
    FieldAt(p + s + h.sql + t, h.template, rest);
  }

  /** The holes of these records as the server parses them. */
  function ParsedAll(holes: seq<RawHole>, attribute: string -> Option<seq<string>>): (parsed: seq<Hole>)
    ensures |parsed| == |holes|
  {
    seq(|holes|, i requires 0 <= i < |holes| => Parsed(holes[i], attribute))
  }

  /** The last record has ten bytes from its start to the end of the section. */
  predicate LastFits(holes: seq<RawHole>, rest: bytes) {
    holes == [] || (var last := holes[|holes| - 1]; |last.sql| + |last.template| + |rest| >= 2)
  }

  /** The templates of the first n holes parse. */
  predicate Parse(holes: seq<RawHole>, n: int, parses: bytes -> bool) {
    forall i :: 0 <= i < n && i < |holes| ==> parses(holes[i].template)
  }

  /** What written holes read as: records are looked at in order, each for its bytes and then for its template. */
  function ReadingOf(holes: seq<RawHole>, rest: bytes, parses: bytes -> bool, attribute: string -> Option<seq<string>>): Read {
    if !Parse(holes, |holes| - 1, parses) then BadTemplate
    else if !LastFits(holes, rest) then InvalidBlob
    else if !Parse(holes, |holes|, parses) then BadTemplate
    else Holes(ParsedAll(holes, attribute))
  }

  lemma {:induction false} ReadingCons(h: RawHole, others: seq<RawHole>, rest: bytes, parses: bytes -> bool, attribute: string -> Option<seq<string>>)
    ensures ReadingOf([h] + others, rest, parses, attribute) ==
            if others == [] && !LastFits([h], rest) then InvalidBlob
            else if !parses(h.template) then BadTemplate
            else Before([Parsed(h, attribute)], ReadingOf(others, rest, parses, attribute))
  {
    hide Parsed, LastFits, ParsedAll, Parse;
    ParseCons(h, others, |others|, parses);
    ParseCons(h, others, |others| - 1, parses);
    ParsedCons(h, others, attribute);
    LastOfCons(h, others, rest);
    NoneToRead(rest, parses, attribute);
  }

  lemma {:induction false} ParseCons(h: RawHole, others: seq<RawHole>, n: int, parses: bytes -> bool)
    ensures n >= 0 ==> (Parse([h] + others, n + 1, parses) <==> parses(h.template) && Parse(others, n, parses))
    ensures n < 0 ==> Parse([h] + others, n + 1, parses)
  {
    var holes := [h] + others;
    assert holes[0] == h && forall i :: 0 < i < |holes| ==> holes[i] == others[i - 1];
    assert forall i :: 0 <= i < |others| ==> others[i] == holes[i + 1];
  }

  lemma {:induction false} ParsedCons(h: RawHole, others: seq<RawHole>, attribute: string -> Option<seq<string>>)
    ensures ParsedAll([h] + others, attribute) == [Parsed(h, attribute)] + ParsedAll(others, attribute)
  {
    hide Parsed;
  }

  lemma {:induction false} LastOfCons(h: RawHole, others: seq<RawHole>, rest: bytes)
    ensures others != [] ==> LastFits([h] + others, rest) == LastFits(others, rest)
    ensures others == [] ==> [h] + others == [h]
  {
  }

  lemma {:induction false} ReadFromRecords(blob: bytes, pos: nat, holes: seq<RawHole>, rest: bytes,
    parses: bytes -> bool, attribute: string -> Option<seq<string>>)
    requires pos <= |blob| && blob[pos..] == Records(holes) + rest && FitsFields(holes)
    ensures ReadFrom(blob, pos, |holes|, parses, attribute) == ReadingOf(holes, rest, parses, attribute)
    decreases |holes|
  {
    hide Record, RecordAt, Parsed, ReadingOf, LastFits;
    NoneToRead(rest, parses, attribute);
    if holes != [] {
      var h, others := holes[0], holes[1..];
      var after := Records(others) + rest;
      assert Records(holes) + rest == Record(h) + after;
      RecordRoundTrip(h, after);
      RecordAtSuffix(blob, pos);
      RecordLength(h);
      RecordsLength(others);
      assert blob[pos + |Record(h)|..] == blob[pos..][|Record(h)|..] == after;
      assert holes == [h] + others;
      ReadingCons(h, others, rest, parses, attribute);
      Fits(h, others, rest);
      ReadFromRecords(blob, pos + |Record(h)|, others, rest, parses, attribute);
    }
  }

  lemma {:induction false} NoneToRead(rest: bytes, parses: bytes -> bool, attribute: string -> Option<seq<string>>)
    ensures ReadingOf([], rest, parses, attribute) == Holes([])
  {
  }

  lemma {:induction false} Fits(h: RawHole, others: seq<RawHole>, rest: bytes)
    ensures |Record(h)| + |Records(others) + rest| >= 10 <==> others != [] || LastFits([h], rest)
  {
    hide Record;
    RecordLength(h);
    RecordsLength(others);
  }

  /**
   Reading undoes writing, except that the server looks for ten bytes where the
   smallest record has eight: a blob whose last record has fewer than two bytes
   of SQL and template up to the end of the section is refused, and only that
   and templates that do not parse.
   */
  lemma {:induction false} BlobRoundTrip(holes: seq<RawHole>, rest: bytes, parses: bytes -> bool, attribute: string -> Option<seq<string>>)
    requires FitsFields(holes)
    ensures ReadBlob(Blob(holes) + rest, parses, attribute) == ReadingOf(holes, rest, parses, attribute)
  {
    hide ReadFrom, ReadingOf;
    var blob := Blob(holes) + rest;
    Get16At([], |holes|, Records(holes) + rest);
    assert blob == [] + LE16(|holes|) + (Records(holes) + rest);
    assert blob[2..] == Records(holes) + rest;
    ReadFromRecords(blob, 2, holes, rest, parses, attribute);
  }

  /** What is cut off inside a record does not read as that record. */
  lemma {:induction false} CutRecord(h: RawHole, m: nat)
    requires h.position < U32 && |h.sql| < U16 && |h.template| < U16 && m < |Record(h)|
    ensures RecordAt(Record(h)[..m], 0) == None
  {
    hide LE16, LE32, Get16, Get32;
    var p, s, t := LE32(h.position), LE16(|h.sql|), LE16(|h.template|);
    var whole, cut := Record(h), Record(h)[..m];
    RecordLength(h);
    Cuts(p, s, h.sql, t, h.template, []);
    assert whole + [] == whole && p + s + h.sql + t + h.template + [] == whole;
    Get32At(h.position, []);
    Get16At(p, |h.sql|, h.sql + t + h.template + []);
    Get16At(p + s + h.sql, |h.template|, h.template + []);
    if m >= 6 {
      SameNumber(whole, m, 4);
    }
    if m >= 8 + |h.sql| {
      SameNumber(whole, m, 6 + |h.sql|);
    }
  }

  lemma {:induction false} SameNumber(b: bytes, m: nat, i: nat)
    requires i + 2 <= m <= |b|
    ensures Get16(b[..m], i) == Get16(b, i)
  {
  }

  lemma {:induction false} CutRecords(blob: bytes, pos: nat, holes: seq<RawHole>, m: nat, parses: bytes -> bool, attribute: string -> Option<seq<string>>)
    requires pos <= |blob| && m < |Records(holes)| && blob[pos..] == Records(holes)[..m]
    requires FitsFields(holes) && Parse(holes, |holes|, parses)
    ensures ReadFrom(blob, pos, |holes|, parses, attribute) == InvalidBlob
    decreases |holes|
  {
    hide Record, RecordAt, Parsed;
    var h, others := holes[0], holes[1..];
    var first := Record(h);
    RecordAtSuffix(blob, pos);
    if m < |first| {
      assert Records(holes)[..m] == first[..m];
      CutRecord(h, m);
    } else {
      var rest := Records(others)[..m - |first|];
      assert blob[pos..] == first + rest;
      RecordRoundTrip(h, rest);
      RecordLength(h);
      assert blob[pos + |first|..] == blob[pos..][|first|..] == rest;
      if |first| + |rest| >= 10 {
        CutRecords(blob, pos + |first|, others, m - |first|, parses, attribute);
      }
    }
  }

  /** A blob cut anywhere behind its count is refused; one without its count has no holes. */
  lemma {:induction false} CutBlobRefused(holes: seq<RawHole>, m: nat, parses: bytes -> bool, attribute: string -> Option<seq<string>>)
    requires FitsFields(holes) && Parse(holes, |holes|, parses) && m < |Blob(holes)|
    ensures ReadBlob(Blob(holes)[..m], parses, attribute) == if m < 2 then Holes([]) else InvalidBlob
  {
    hide ReadFrom, Records;
    if m >= 2 {
      var blob := Blob(holes)[..m];
      Get16At([], |holes|, Records(holes));
      assert Blob(holes) == [] + LE16(|holes|) + Records(holes);
      SameNumber(Blob(holes), m, 0);
      assert blob[2..] == Records(holes)[..m - 2];
      CutRecords(blob, 2, holes, m - 2, parses, attribute);
    }
  }

  /** The smallest refused blob: one param-only hole with a one-byte template, last in its section. */
  lemma {:induction false} ShortRecordRefused(parses: bytes -> bool, attribute: string -> Option<seq<string>>)
    requires parses([120])
    ensures ReadBlob(Blob([RawHole(0, [], [120])]), parses, attribute) == InvalidBlob
  {
  }

  /** The layout byte by byte: count, then position, SQL and template of each hole, numbers low byte first. */
  lemma {:induction false} LayoutExample()
    ensures Blob([RawHole(0x04030201, [115, 113], [120]), RawHole(0x102, [], [121])]) ==
            [2, 0,  1, 2, 3, 4,  2, 0, 115, 113,  1, 0, 120,  2, 1, 0, 0,  0, 0,  1, 0, 121]
  {
    hide Record, LE16;
    var a, b := RawHole(0x04030201, [115, 113], [120]), RawHole(0x102, [], [121]);
    RecordExamples();
    TwoRecords(a, b);
    var x, y: bytes := [1, 2, 3, 4, 2, 0, 115, 113, 1, 0, 120], [2, 1, 0, 0, 0, 0, 1, 0, 121];
    assert [2, 0] + (x + y) == [2, 0, 1, 2, 3, 4, 2, 0, 115, 113, 1, 0, 120, 2, 1, 0, 0, 0, 0, 1, 0, 121];
  }

  lemma {:induction false} RecordExamples()
    ensures LE16(2) == [2, 0]
    ensures Record(RawHole(0x04030201, [115, 113], [120])) == [1, 2, 3, 4, 2, 0, 115, 113, 1, 0, 120]
    ensures Record(RawHole(0x102, [], [121])) == [2, 1, 0, 0, 0, 0, 1, 0, 121]
  {
    assert LE32(0x04030201) == [1, 2, 3, 4] && LE32(0x102) == [2, 1, 0, 0];
    assert LE16(2) == [2, 0] && LE16(1) == [1, 0] && LE16(0) == [0, 0];
  }

  lemma {:induction false} TwoRecords(a: RawHole, b: RawHole)
    ensures Records([a, b]) == Record(a) + Record(b)
  {
    assert [a, b][1..] == [b];
    assert [b][1..] == [];
    assert Records([b]) == Record(b);
  }

  /** Whatever is appended later, a route's holes stay readable from the offset it was given. */
  method WriteThenRead(compiler: Compiler, holes: seq<RawHole>, more: seq<RawHole>,
    parses: bytes -> bool, attribute: string -> Option<seq<string>>) returns (r: Read)
    requires FitsFields(holes) && forall i :: 0 <= i < |holes| ==> parses(holes[i].template)
    modifies compiler
    ensures |old(compiler.holeBlobs)| < U32 ==> r == Holes(ParsedAll(holes, attribute))
  {
    ghost var fits := |compiler.holeBlobs| < U32;
    var off := compiler.AppendHoleBlob(holes);
    ghost var section := compiler.holeBlobs;
    var _ := compiler.AppendHoleBlob(more);
    if off > |compiler.holeBlobs| {
      return InvalidBlob;
    }
    if fits {
      assert section != [] && compiler.holeBlobs == section + Blob(more);
      assert compiler.holeBlobs[off..] == section[off..] + Blob(more);
      BlobRoundTrip(holes, Blob(more), parses, attribute);
    }
    r := ReadHoles(compiler.holeBlobs[off..], parses, attribute);
  }
}

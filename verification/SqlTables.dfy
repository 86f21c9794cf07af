/**
 Table extraction: a scan of the lower-cased statement for the words after FROM
 and JOIN. Strings are bytes, one element each, and lower-casing is ASCII.
 */
module SqlTables {
  import opened Options

  predicate IsIdent(c: char) {
    c == '_' || 'a' <= c <= 'z' || 'A' <= c <= 'Z' || '0' <= c <= '9'
  }

  predicate IsSpace(c: char) {
    c == ' ' || c == '\t' || c == '\n' || c == '\r'
  }

  /** A parenthesis or quote where a table name should start makes the statement too complex. */
  predicate TooComplex(c: char) {
    c == '(' || c == '"' || c == '[' || c == '`'
  }

  function LowerChar(c: char): char {
    if 'A' <= c <= 'Z' then (c as int + 32) as char else c
  }

  const UPPER := "ABCDEFGHIJKLMNOPQRSTUVWXYZ"
  const LOWER := "abcdefghijklmnopqrstuvwxyz"
  const DIGITS := "0123456789"

  lemma {:induction false} Alphabets()
    ensures |UPPER| == |LOWER| == 26 && |DIGITS| == 10
    ensures forall i :: 0 <= i < 26 ==> UPPER[i] == ('A' as int + i) as char && LOWER[i] == ('a' as int + i) as char
    ensures forall i :: 0 <= i < 10 ==> DIGITS[i] == ('0' as int + i) as char
  {
  }

  lemma {:induction false} InRun(s: string, first: char, c: char)
    requires first as int + |s| <= 128 && forall i :: 0 <= i < |s| ==> s[i] == (first as int + i) as char
    ensures c in s <==> first as int <= c as int < first as int + |s|
  {
    if first as int <= c as int < first as int + |s| {
      assert s[c as int - first as int] == c;
    }
  }

  /** The bytes of names and of blanks, and what lower-casing does to a byte. */
  lemma {:induction false} BytesSpelled(c: char)
    ensures IsIdent(c) <==> c in LOWER || c in UPPER || c in DIGITS || c == '_'
    ensures IsSpace(c) <==> c in " \t\n\r"
    ensures c !in UPPER ==> LowerChar(c) == c
    ensures forall i :: 0 <= i < |UPPER| && c == UPPER[i] ==> |LOWER| == |UPPER| && LowerChar(c) == LOWER[i]
  {
    hide UPPER, LOWER, DIGITS;
    Alphabets();
    InRun(UPPER, 'A', c);
    InRun(LOWER, 'a', c);
    InRun(DIGITS, '0', c);
  }

  function ToLower(s: string): (t: string)
    ensures |t| == |s| && forall i :: 0 <= i < |s| ==> t[i] == LowerChar(s[i])
  {
    seq(|s|, i requires 0 <= i < |s| => LowerChar(s[i]))
  }

  /* ---- the scan ---- */

  predicate OccursAt(s: string, k: nat, word: string) {
    k + |word| <= |s| && s[k..k + |word|] == word
  }

  /** word stands at k with no identifier byte touching it on either side. */
  predicate StandsAt(s: string, k: nat, word: string) {
    && OccursAt(s, k, word)
    && (k > 0 ==> !IsIdent(s[k - 1]))
    && (k + |word| < |s| ==> !IsIdent(s[k + |word|]))
  }

  /** The least position from off on where word stands alone, -1 when there is none. */
  function KeywordFrom(s: string, off: nat, word: string): (k: int)
    ensures k == -1 || (off <= k && StandsAt(s, k, word))
    ensures forall j: nat :: off <= j && StandsAt(s, j, word) ==> 0 <= k <= j
    decreases |s| - off
  {
    if off + |word| > |s| then -1
    else if StandsAt(s, off, word) then off
    else if off == |s| then -1
    else KeywordFrom(s, off + 1, word)
  }

  /** strings.Index from a position on: the least occurrence, -1 when there is none. */
  function IndexFrom(s: string, i: nat, word: string): (k: int)
    ensures k == -1 || (i <= k && OccursAt(s, k, word))
    ensures forall j: nat :: i <= j && OccursAt(s, j, word) ==> 0 <= k <= j
    decreases |s| - i
  {
    if i + |word| > |s| then -1
    else if OccursAt(s, i, word) then i
    else if i == |s| then -1
    else IndexFrom(s, i + 1, word)
  }

  method NextKeyword(s: string, off: nat, word: string) returns (k: int)
    requires word != ""
    ensures k == KeywordFrom(s, off, word)
  {
    var n := |word|;
    var i := off;
    while i <= |s| - n
      invariant off <= i
      invariant forall j: nat :: off <= j < i ==> !StandsAt(s, j, word)
    {
      k := IndexFrom(s, i, word);
      if k < 0 {
        return -1;
      }
      if k > 0 && IsIdent(s[k - 1]) {
        i := k + 1;
        continue;
      }
      if k + n < |s| && IsIdent(s[k + n]) {
        i := k + 1;
        continue;
      }
      assert StandsAt(s, k, word);
      return k;
    }
    return -1;
  }

  const FROM := "from"
  const JOIN := "join"

  /** The nearer of the next FROM and the next JOIN; both words have four bytes. */
  function FromOrJoin(s: string, off: nat): (k: int)
    ensures k == -1 || (off <= k && (StandsAt(s, k, FROM) || StandsAt(s, k, JOIN)))
    ensures forall j: nat :: off <= j && (StandsAt(s, j, FROM) || StandsAt(s, j, JOIN)) ==> 0 <= k <= j
  {
    var a, b := KeywordFrom(s, off, FROM), KeywordFrom(s, off, JOIN);
    if a < 0 && b < 0 then -1
    else if a < 0 then b
    else if b < 0 then a
    else if a < b then a
    else b
  }

  method FindFromOrJoin(s: string, off: nat) returns (k: int)
    ensures k == FromOrJoin(s, off)
    ensures k == -1 || (off <= k && (StandsAt(s, k, FROM) || StandsAt(s, k, JOIN)))
    ensures forall j: nat :: off <= j && (StandsAt(s, j, FROM) || StandsAt(s, j, JOIN)) ==> 0 <= k <= j
  {
    var a := NextKeyword(s, off, FROM);
    var b := NextKeyword(s, off, JOIN);
    if a < 0 && b < 0 {
      return -1;
    } else if a < 0 {
      return b;
    } else if b < 0 {
      return a;
    } else if a < b {
      return a;
    } else {
      return b;
    }
  }

  function SkipSpaces(s: string, i: nat): (j: nat)
    requires i <= |s|
    ensures i <= j <= |s| && (forall k :: i <= k < j ==> IsSpace(s[k])) && (j < |s| ==> !IsSpace(s[j]))
    decreases |s| - i
  {
    if i < |s| && IsSpace(s[i]) then SkipSpaces(s, i + 1) else i
  }

  function SkipIdent(s: string, i: nat): (j: nat)
    requires i <= |s|
    ensures i <= j <= |s| && (forall k :: i <= k < j ==> IsIdent(s[k])) && (j < |s| ==> !IsIdent(s[j]))
    decreases |s| - i
  {
    if i < |s| && IsIdent(s[i]) then SkipIdent(s, i + 1) else i
  }

  /** A nil slice, and so "do not cache", when no name was appended. */
  function Finish(out: seq<string>): Option<seq<string>> {
    if out == [] then None else Some(out)
  }

  /** The scan from position i on, with the names found so far. */
  function Scan(sql: string, i: nat, out: seq<string>): Option<seq<string>>
    requires i <= |sql|
    decreases |sql| - i
  {
    var s := ToLower(sql);
    var k := FromOrJoin(s, i);
    if k < 0 then Finish(out)
    else
      var start := SkipSpaces(s, k + 4);
      if start >= |s| then Finish(out)
      else if TooComplex(s[start]) then None
      else
        var end := SkipIdent(s, start);
        Scan(sql, end, if end == start || sql[start..end] in out then out else out + [sql[start..end]])
  }

  /** WITH in any case, and one blank. */
  predicate OpensWith(cut: string) {
    var s := ToLower(cut);
    |s| >= 5 && (s[..5] == "with " || s[..5] == "with\t" || s[..5] == "with\n")
  }

  /** The statement starts with a common table expression. */
  predicate ContainsCte(sql: string) {
    OpensWith(sql[SkipSpaces(sql, 0)..])
  }

  /** What table extraction means. */
  function Tables(sql: string): Option<seq<string>> {
    if ContainsCte(sql) then None else Scan(sql, 0, [])
  }

  method PassSpaces(s: string, from: nat) returns (i: nat)
    requires from <= |s|
    ensures i == SkipSpaces(s, from)
  {
    i := from;
    while i < |s| && IsSpace(s[i])
      invariant i <= |s| && SkipSpaces(s, from) == SkipSpaces(s, i)
    {
      i := i + 1;
    }
  }

  method PassIdent(s: string, from: nat) returns (i: nat)
    requires from <= |s|
    ensures i == SkipIdent(s, from)
  {
    i := from;
    while i < |s| && IsIdent(s[i])
      invariant i <= |s| && SkipIdent(s, from) == SkipIdent(s, i)
    {
      i := i + 1;
    }
  }

  method ExtractTables(sql: string) returns (tables: Option<seq<string>>)
    ensures tables == Tables(sql)
  {
    hide KeywordFrom, FromOrJoin, ContainsCte, LowerChar, ToLower, AfterDot, SkipSpaces, SkipIdent;
    if ContainsCte(sql) {
      return None;
    }
    var s := ToLower(sql);
    var out: seq<string> := [];
    var i: nat := 0;
    while i < |s|
      invariant i <= |s| == |sql|
      invariant Tables(sql) == Scan(sql, i, out)
      decreases |s| - i
    {
      var idx := FindFromOrJoin(s, i);
      FoundAhead(s, i);
      if idx < 0 {
        break;
      }
      i := PassSpaces(s, idx + 4);
      if i >= |s| {
        break;
      }
      if s[i] == '(' {
        return None;
      }
      if s[i] == '"' || s[i] == '[' || s[i] == '`' {
        return None;
      }
      var start := i;
      i := PassIdent(s, i);
      if i == start {
        continue;
      }
      var name := sql[start..i];
      NameHasNoDot(sql, start, i);
      name := AfterDot(name);
      if name != "" && name !in out {
        out := out + [name];
      }
    }
    NothingAhead(s, |s|);
    return Finish(out);
  }

  lemma {:induction false} FoundAhead(s: string, off: nat)
    ensures FromOrJoin(s, off) >= 0 ==> off <= FromOrJoin(s, off) && FromOrJoin(s, off) + 4 <= |s|
    ensures FromOrJoin(s, off) >= -1
  {
  }

  lemma {:induction false} NothingAhead(s: string, off: nat)
    requires off >= |s|
    ensures FromOrJoin(s, off) == -1
  {
  }

  /** A name without its schema prefix, as the scan would cut it. */
  function AfterDot(name: string): string {
    var dot := IndexFrom(name, 0, ".");
    if dot >= 0 then name[dot + 1..] else name
  }

  /** A name is cut from identifier bytes alone, and '.' is none: a schema prefix is never stripped. */
  lemma {:induction false} NameHasNoDot(sql: string, start: nat, end: nat)
    requires start <= |sql| && end == SkipIdent(ToLower(sql), start)
    ensures AfterDot(sql[start..end]) == sql[start..end]
  {
    IdentLowered(sql);
    var name := sql[start..end];
    forall k: nat ensures !OccursAt(name, k, ".") {
      if k < |name| {
        assert IsIdent(name[k]);
        assert name[k..k + 1][0] == name[k];
      }
    }
  }

  /** Lower-casing keeps identifier bytes, blanks and the bytes that stop the scan. */
  lemma {:induction false} IdentLowered(sql: string)
    ensures forall i :: 0 <= i < |sql| ==>
              (IsIdent(ToLower(sql)[i]) <==> IsIdent(sql[i])) && (IsSpace(ToLower(sql)[i]) <==> IsSpace(sql[i]))
              && (TooComplex(ToLower(sql)[i]) <==> TooComplex(sql[i]))
  {
  }
}

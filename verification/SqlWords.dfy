/**
 Table extraction seen word by word: a statement is a list of maximal
 identifier runs with separators between them, and the byte scan of
 SqlTables.dfy is what one reads off that list.
 */
module SqlWords {
  import opened Options
  import opened SqlTables
  import opened TableNames

  /** One identifier run and what separates it from the next. */
  datatype Word = Word(run: string, sep: string)

  predicate AllIdent(s: string) {
    forall i :: 0 <= i < |s| ==> IsIdent(s[i])
  }

  predicate NoIdent(s: string) {
    forall i :: 0 <= i < |s| ==> !IsIdent(s[i])
  }

  predicate AllSpace(s: string) {
    forall i :: 0 <= i < |s| ==> IsSpace(s[i])
  }

  predicate Proper(words: seq<Word>) {
    forall i :: 0 <= i < |words| ==>
      && words[i].run != "" && AllIdent(words[i].run) && NoIdent(words[i].sep)
      && (i < |words| - 1 ==> words[i].sep != "")
  }

  function Text(words: seq<Word>): string {
    if words == [] then "" else words[0].run + (words[0].sep + Text(words[1..]))
  }

  predicate IsKeyword(run: string) {
    ToLower(run) == FROM || ToLower(run) == JOIN
  }

  /** FROM and JOIN in any case. */
  lemma {:induction false} KeywordIff(run: string)
    ensures IsKeyword(run) <==>
              |run| == 4 && ((run[0] in "fF" && run[1] in "rR" && run[2] in "oO" && run[3] in "mM")
                             || (run[0] in "jJ" && run[1] in "oO" && run[2] in "iI" && run[3] in "nN"))
  {
    if |run| == 4 {
      assert ToLower(run) == [LowerChar(run[0]), LowerChar(run[1]), LowerChar(run[2]), LowerChar(run[3])];
    }
  }

  /**
   The names a list of words mentions: after FROM or JOIN and blanks the next
   word is a table, whatever it is; a parenthesis or quote there gives up; any
   other byte there names nothing.
   */
  function WordTables(words: seq<Word>, out: seq<string>): Option<seq<string>>
    decreases |words|
  {
    if words == [] then Finish(out)
    else if !IsKeyword(words[0].run) then WordTables(words[1..], out)
    else
      var sep := words[0].sep;
      var m := SkipSpaces(sep, 0);
      if m < |sep| then if TooComplex(sep[m]) then None else WordTables(words[1..], out)
      else if |words| == 1 then Finish(out)
      else WordTables(words[2..], AddNew(out, [words[1].run]))
  }

  /* ---- the scan follows the words ---- */

  /** A keyword's least position is determined by what it says. */
  lemma {:induction false} LeastIs(s: string, off: nat, word: string, k: nat)
    requires off <= k && StandsAt(s, k, word)
    requires forall j: nat :: off <= j < k ==> !StandsAt(s, j, word)
    ensures KeywordFrom(s, off, word) == k
  {
  }

  /** s[i..p] is a separator, s[p..q] a whole identifier run. */
  predicate RunAt(s: string, i: nat, p: nat, q: nat) {
    && i <= p < q <= |s|
    && (forall k :: i <= k < p ==> !IsIdent(s[k]))
    && (p > 0 ==> !IsIdent(s[p - 1]))
    && (forall k :: p <= k < q ==> IsIdent(s[k]))
    && (q < |s| ==> !IsIdent(s[q]))
  }

  /** Up to the end of a run the only place a keyword can stand is the run itself. */
  lemma {:induction false} StandsOnlyAtRun(s: string, i: nat, p: nat, q: nat, word: string, j: nat)
    requires RunAt(s, i, p, q) && word != "" && AllIdent(word) && i <= j < q
    ensures StandsAt(s, j, word) <==> j == p && s[p..q] == word
  {
    if StandsAt(s, j, word) {
      var e := j + |word|;
      assert forall k :: j <= k < e ==> s[k] == s[j..e][k - j];
      assert IsIdent(s[j]);
      assert j == p;
      assert e <= q && e >= q;
    }
  }

  /** The next FROM or JOIN is the run if it is one of them, and otherwise lies beyond it. */
  lemma {:induction false} NextOverRun(s: string, i: nat, p: nat, q: nat)
    requires RunAt(s, i, p, q)
    ensures FromOrJoin(s, i) == if s[p..q] == FROM || s[p..q] == JOIN then p else FromOrJoin(s, q)
  {
    hide KeywordFrom, StandsAt, RunAt;
    RunOrder(s, i, p, q);
    forall j: nat | i <= j < q
      ensures StandsAt(s, j, FROM) <==> j == p && s[p..q] == FROM
      ensures StandsAt(s, j, JOIN) <==> j == p && s[p..q] == JOIN
    {
      StandsOnlyAtRun(s, i, p, q, FROM, j);
      StandsOnlyAtRun(s, i, p, q, JOIN, j);
    }
    NextOne(s, i, p, q, FROM);
    NextOne(s, i, p, q, JOIN);
    assert s[p..q] == FROM ==> s[p..q] != JOIN by {
      assert FROM[0] != JOIN[0];
    }
  }

  lemma {:induction false} RunOrder(s: string, i: nat, p: nat, q: nat)
    requires RunAt(s, i, p, q)
    ensures i <= p < q <= |s|
  {
  }

  lemma {:induction false} NextOne(s: string, i: nat, p: nat, q: nat, word: string)
    requires i <= p < q <= |s|
    requires forall j: nat :: i <= j < q ==> (StandsAt(s, j, word) <==> j == p && s[p..q] == word)
    ensures s[p..q] == word ==> KeywordFrom(s, i, word) == p
    ensures s[p..q] != word ==> KeywordFrom(s, i, word) == KeywordFrom(s, q, word)
    ensures KeywordFrom(s, q, word) == -1 || KeywordFrom(s, q, word) >= q
  {
    hide StandsAt;
    if s[p..q] == word {
      LeastIs(s, i, word, p);
    } else {
    }
  }

  /** Where the scan stands: a separator, then proper words to the end. */
  predicate Stands(sql: string, i: nat, lead: string, words: seq<Word>) {
    && i <= |sql| && sql[i..] == lead + Text(words)
    && NoIdent(lead) && Proper(words)
    && (lead == "" && words != [] ==> i == 0 || !IsIdent(sql[i - 1]))
  }

  lemma {:induction false} TextNoIdentStart(words: seq<Word>)
    requires Proper(words)
    ensures words != [] ==> |Text(words)| > 0 && IsIdent(Text(words)[0])
    ensures words == [] ==> Text(words) == ""
  {
  }

  lemma {:induction false} NoWordsLeft(sql: string, i: nat, lead: string)
    requires Stands(sql, i, lead, [])
    ensures FromOrJoin(ToLower(sql), i) == -1
  {
    hide KeywordFrom;
    var s := ToLower(sql);
    assert sql[i..] == lead;
    assert forall k :: i <= k < |s| ==> sql[k] == lead[k - i];
    forall j: nat | i <= j
      ensures !StandsAt(s, j, FROM) && !StandsAt(s, j, JOIN)
    {
      if j < |s| {
        assert !IsIdent(s[j]);
        assert j + 4 <= |s| ==> s[j..j + 4][0] == s[j];
      }
    }
  }

  /** A suffix made of two parts, part by part. */
  lemma {:induction false} Parts(sql: string, i: nat, a: string, b: string)
    requires i <= |sql| && sql[i..] == a + b
    ensures i + |a| + |b| == |sql| && sql[i..i + |a|] == a && sql[i + |a|..] == b
    ensures forall k :: i <= k < i + |a| ==> sql[k] == a[k - i]
    ensures b != "" ==> sql[i + |a|] == b[0]
  {
  }

  /** Past the first word the rest of the words stands. */
  lemma {:induction false} PastFirst(sql: string, i: nat, lead: string, words: seq<Word>)
    requires Stands(sql, i, lead, words) && words != []
    ensures var p := i + |lead|; var q := p + |words[0].run|;
            && RunAt(sql, i, p, q) && sql[p..q] == words[0].run
            && Stands(sql, q, words[0].sep, words[1..])
  {
    hide Text;
    var w, rest := words[0], words[1..];
    var p := i + |lead|;
    TextUnfolds(words);
    Parts(sql, i, lead, Text(words));
    Parts(sql, p, w.run, w.sep + Text(rest));
    assert Proper(rest) by {
      assert forall k :: 0 <= k < |rest| ==> rest[k] == words[k + 1];
    }
    TextNoIdentStart(rest);
    assert w.sep + Text(rest) != "" && w.sep != "" ==> (w.sep + Text(rest))[0] == w.sep[0];
    assert w.sep == "" ==> rest == [] && w.sep + Text(rest) == "";
  }

  lemma {:induction false} TextUnfolds(words: seq<Word>)
    ensures words == [] ==> Text(words) == ""
    ensures words != [] ==> Text(words) == words[0].run + (words[0].sep + Text(words[1..]))
  {
  }

  lemma {:induction false} LowerRun(sql: string, i: nat, p: nat, q: nat)
    requires RunAt(sql, i, p, q)
    ensures RunAt(ToLower(sql), i, p, q) && ToLower(sql)[p..q] == ToLower(sql[p..q])
  {
  }

  /** After the keyword: the blanks of its separator, and no more. */
  lemma {:induction false} BlanksAfter(sql: string, q: nat, sep: string, words: seq<Word>)
    requires Stands(sql, q, sep, words)
    ensures var m := SkipSpaces(sep, 0);
            && q + m <= |sql| && SkipSpaces(sql, q) == q + m
            && (m < |sep| ==> q + m < |sql| && sql[q + m] == sep[m] && Stands(sql, q + m, sep[m..], words))
  {
    hide SkipSpaces, Text;
    var m := SkipSpaces(sep, 0);
    Parts(sql, q, sep, Text(words));
    TextNoIdentStart(words);
    if m < |sep| {
      assert sep + Text(words) == sep[..m] + (sep[m..] + Text(words));
      Parts(sql, q, sep[..m], sep[m..] + Text(words));
    }
  }

  /** What the scan looks at after a keyword and its blanks. */
  lemma {:induction false} AfterKeyword(sql: string, q: nat, sep: string, words: seq<Word>)
    requires Stands(sql, q, sep, words)
    ensures var m := SkipSpaces(sep, 0); var start := q + m;
            && q <= |sql|
            && (m < |sep| ==> start < |sql| && sql[start] == sep[m] && SkipIdent(sql, start) == start)
            && (m == |sep| && words == [] ==> start == |sql|)
            && (m == |sep| && words != [] ==>
                  start < |sql| && !TooComplex(sql[start]) && SkipIdent(sql, start) == start + |words[0].run|)
  {
    hide SkipSpaces, SkipIdent, Text, Proper, Stands, RunAt, TooComplex, ToLower;
    var m := SkipSpaces(sep, 0);
    InRange(sql, q, sep, words);
    BlanksAfter(sql, q, sep, words);
    if m < |sep| {
    } else if words == [] {
      TextUnfolds(words);
      Parts(sql, q, sep, Text(words));
    } else {
      PastFirst(sql, q, sep, words);
      RunEnds(sql, q, q + m, q + m + |words[0].run|);
    }
  }

  lemma {:induction false} RunEnds(sql: string, i: nat, p: nat, q: nat)
    requires RunAt(sql, i, p, q)
    ensures p < q <= |sql| && SkipIdent(sql, p) == q && !TooComplex(sql[p])
  {
  }

  /** One keyword at p, ending at q, seen by the scan. */
  lemma {:induction false} ScanKeyword(sql: string, i: nat, p: nat, q: nat, out: seq<string>)
    requires i <= p < q <= |sql| && q == p + 4 && FromOrJoin(ToLower(sql), i) == p
    ensures var start := SkipSpaces(sql, q);
            Scan(sql, i, out) ==
            if start >= |sql| then Finish(out)
            else if TooComplex(sql[start]) then None
            else var end := SkipIdent(sql, start);
                 Scan(sql, end, if end == start then out else AddNew(out, [sql[start..end]]))
  {
    hide FromOrJoin, SkipSpaces, SkipIdent, ToLower, AddNew;
    var start := SkipSpaces(sql, q);
    if start < |sql| {
      AddOne(out, sql[start..SkipIdent(sql, start)]);
    }
  }

  lemma {:induction false} ScanFrom(sql: string, i: nat, q: nat, out: seq<string>)
    requires i <= |sql| && q <= |sql| && FromOrJoin(ToLower(sql), i) == FromOrJoin(ToLower(sql), q)
    ensures Scan(sql, i, out) == Scan(sql, q, out)
  {
    hide FromOrJoin, SkipSpaces, SkipIdent, ToLower;
  }

  /**
   One step of both: either both are finished with the same result, or both go
   on from the same later place.
   */
  ghost predicate InStep(sql: string, i: nat, words: seq<Word>, out: seq<string>,
    i': nat, lead': string, words': seq<Word>, out': seq<string>)
  {
    && i <= |sql| && Stands(sql, i', lead', words') && i' <= |sql|
    && |words'| < |words|
    && Scan(sql, i, out) == Scan(sql, i', out')
    && WordTables(words, out) == WordTables(words', out')
  }

  /** Where the scan looks next: at the first word if it is a keyword, else past it. */
  lemma {:induction false} LooksNext(sql: string, i: nat, lead: string, words: seq<Word>)
    requires Stands(sql, i, lead, words) && words != []
    ensures var p := i + |lead|; var q := p + |words[0].run|;
            && p < q <= |sql| && Stands(sql, q, words[0].sep, words[1..])
            && FromOrJoin(ToLower(sql), i) == if IsKeyword(words[0].run) then p else FromOrJoin(ToLower(sql), q)
  {
    hide Stands, RunAt, FromOrJoin, ToLower;
    var p := i + |lead|;
    var q := p + |words[0].run|;
    PastFirst(sql, i, lead, words);
    RunOrder(sql, i, p, q);
    LowerRun(sql, i, p, q);
    NextOverRun(ToLower(sql), i, p, q);
  }

  lemma {:induction false} StepOrdinary(sql: string, i: nat, lead: string, words: seq<Word>, out: seq<string>)
    requires Stands(sql, i, lead, words) && words != [] && !IsKeyword(words[0].run)
    ensures InStep(sql, i, words, out, i + |lead| + |words[0].run|, words[0].sep, words[1..], out)
  {
    hide Stands, FromOrJoin, Scan, ToLower, WordTables, IsKeyword, SkipSpaces, AddNew;
    ReadWord(words, out);
    LooksNext(sql, i, lead, words);
    ScanFrom(sql, i, i + |lead| + |words[0].run|, out);
  }

  /** The scan finds the keyword and looks behind its blanks. */
  lemma {:induction false} FindsKeyword(sql: string, i: nat, lead: string, words: seq<Word>, out: seq<string>)
    requires Stands(sql, i, lead, words) && words != [] && IsKeyword(words[0].run)
    ensures var q := i + |lead| + 4; var start := q + SkipSpaces(words[0].sep, 0);
            && i <= |sql| && q <= |sql| && Stands(sql, q, words[0].sep, words[1..]) && SkipSpaces(sql, q) == start <= |sql|
            && Scan(sql, i, out) ==
               if start >= |sql| then Finish(out)
               else if TooComplex(sql[start]) then None
               else var end := SkipIdent(sql, start);
                    Scan(sql, end, if end == start then out else AddNew(out, [sql[start..end]]))
  {
    hide Stands, FromOrJoin, Scan, ToLower, WordTables, IsKeyword, SkipSpaces, SkipIdent, TooComplex, AddNew;
    KeywordLength(words[0].run);
    var p, q := i + |lead|, i + |lead| + 4;
    LooksNext(sql, i, lead, words);
    ScanKeyword(sql, i, p, q, out);
    BlanksAfter(sql, q, words[0].sep, words[1..]);
  }

  /** Behind the blanks stands another byte: both give up, or both go on from it. */
  lemma {:induction false} StepNoName(sql: string, i: nat, lead: string, words: seq<Word>, out: seq<string>)
    requires Stands(sql, i, lead, words) && words != [] && IsKeyword(words[0].run)
    requires SkipSpaces(words[0].sep, 0) < |words[0].sep|
    ensures var sep := words[0].sep; var m := SkipSpaces(sep, 0);
            if TooComplex(sep[m]) then i <= |sql| && Scan(sql, i, out) == None == WordTables(words, out)
            else InStep(sql, i, words, out, i + |lead| + 4 + m, sep[m..], words[1..], out)
  {
    hide Stands, FromOrJoin, Scan, ToLower, WordTables, SkipSpaces, SkipIdent, TooComplex, AddNew;
    var sep, rest, q := words[0].sep, words[1..], i + |lead| + 4;
    FindsKeyword(sql, i, lead, words, out);
    ReadWord(words, out);
    BlanksAfter(sql, q, sep, rest);
    AfterKeyword(sql, q, sep, rest);
  }

  /** Nothing but blanks follows the keyword: the text ends, or the next word is a table. */
  lemma {:induction false} StepName(sql: string, i: nat, lead: string, words: seq<Word>, out: seq<string>)
    requires Stands(sql, i, lead, words) && words != [] && IsKeyword(words[0].run)
    requires SkipSpaces(words[0].sep, 0) == |words[0].sep|
    ensures if |words| == 1 then i <= |sql| && Scan(sql, i, out) == Finish(out) == WordTables(words, out)
            else var at := i + |lead| + 4 + |words[0].sep|;
                 InStep(sql, i, words, out, at + |words[1].run|, words[1].sep, words[2..], AddNew(out, [words[1].run]))
  {
    hide Stands, RunAt, FromOrJoin, Scan, ToLower, WordTables, SkipSpaces, SkipIdent, TooComplex, AddNew, Finish;
    var sep, rest, q := words[0].sep, words[1..], i + |lead| + 4;
    FindsKeyword(sql, i, lead, words, out);
    ReadWord(words, out);
    AfterKeyword(sql, q, sep, rest);
    if rest != [] {
      PastFirst(sql, q, sep, rest);
      RunOrder(sql, q, q + |sep|, q + |sep| + |rest[0].run|);
      assert words[2..] == rest[1..];
    }
  }

  /** The byte scan from where it stands yields what the remaining words say. */
  lemma {:induction false} ScanWords(sql: string, i: nat, lead: string, words: seq<Word>, out: seq<string>)
    requires Stands(sql, i, lead, words)
    ensures Scan(sql, i, out) == WordTables(words, out)
    decreases |words|
  {
    hide Stands, FromOrJoin, Scan, SkipSpaces, ToLower, TooComplex, AddNew, WordTables, IsKeyword;
    InRange(sql, i, lead, words);
    if words == [] {
      NoWordsLeft(sql, i, lead);
      ScanNothing(sql, i, out);
      ReadNothing(out);
    } else if !IsKeyword(words[0].run) {
      StepOrdinary(sql, i, lead, words, out);
      ScanWords(sql, i + |lead| + |words[0].run|, words[0].sep, words[1..], out);
    } else {
      var sep := words[0].sep;
      var m := SkipSpaces(sep, 0);
      if m < |sep| {
        StepNoName(sql, i, lead, words, out);
        if !TooComplex(sep[m]) {
          ScanWords(sql, i + |lead| + 4 + m, sep[m..], words[1..], out);
        }
      } else {
        StepName(sql, i, lead, words, out);
        if |words| > 1 {
          ScanWords(sql, i + |lead| + 4 + |sep| + |words[1].run|, words[1].sep, words[2..], AddNew(out, [words[1].run]));
        }
      }
    }
  }

  lemma {:induction false} ReadNothing(out: seq<string>)
    ensures WordTables([], out) == Finish(out)
  {
  }

  /** One word read off the list. */
  lemma {:induction false} ReadWord(words: seq<Word>, out: seq<string>)
    requires words != []
    ensures var rest, sep := words[1..], words[0].sep; var m := SkipSpaces(sep, 0);
            WordTables(words, out) ==
            if !IsKeyword(words[0].run) then WordTables(rest, out)
            else if m < |sep| then if TooComplex(sep[m]) then None else WordTables(rest, out)
            else if rest == [] then Finish(out)
            else WordTables(rest[1..], AddNew(out, [rest[0].run]))
  {
    hide SkipSpaces, TooComplex, IsKeyword, AddNew;
  }

  lemma {:induction false} ScanNothing(sql: string, i: nat, out: seq<string>)
    requires i <= |sql| && FromOrJoin(ToLower(sql), i) == -1
    ensures Scan(sql, i, out) == Finish(out)
  {
    hide FromOrJoin, ToLower;
  }

  lemma {:induction false} InRange(sql: string, i: nat, lead: string, words: seq<Word>)
    requires Stands(sql, i, lead, words)
    ensures i <= |sql| && NoIdent(lead) && sql[i..] == lead + Text(words)
  {
  }

  lemma {:induction false} KeywordLength(run: string)
    requires IsKeyword(run)
    ensures |run| == 4
  {
  }

  lemma {:induction false} AddOne(out: seq<string>, name: string)
    ensures AddNew(out, [name]) == if name in out then out else out + [name]
  {
  }

  /* ---- every statement is a list of words ---- */

  function SkipOther(s: string, i: nat): (j: nat)
    requires i <= |s|
    ensures i <= j <= |s| && (forall k :: i <= k < j ==> !IsIdent(s[k])) && (j < |s| ==> IsIdent(s[j]))
    decreases |s| - i
  {
    if i < |s| && !IsIdent(s[i]) then SkipOther(s, i + 1) else i
  }

  function Words(s: string): seq<Word>
    requires s == "" || IsIdent(s[0])
    decreases |s|
  {
    if s == "" then []
    else
      var p := SkipIdent(s, 0);
      var q := SkipOther(s, p);
      [Word(s[..p], s[p..q])] + Words(s[q..])
  }

  lemma {:induction false} WordsSpell(s: string)
    requires s == "" || IsIdent(s[0])
    ensures Proper(Words(s)) && Text(Words(s)) == s
    decreases |s|
  {
    hide SkipIdent, SkipOther, Text, Proper;
    TextUnfolds([]);
    NoneProper();
    if s != "" {
      var p := SkipIdent(s, 0);
      var q := SkipOther(s, p);
      WordsSpell(s[q..]);
      assert s == s[..p] + (s[p..q] + s[q..]);
      var first := Word(s[..p], s[p..q]);
      ProperCons(first, Words(s[q..]));
      TextCons(first, Words(s[q..]));
    }
  }

  lemma {:induction false} NoneProper()
    ensures Proper([])
  {
  }

  lemma {:induction false} ProperCons(first: Word, rest: seq<Word>)
    requires first.run != "" && AllIdent(first.run) && NoIdent(first.sep) && Proper(rest) && (rest != [] ==> first.sep != "")
    ensures Proper([first] + rest)
  {
  }

  lemma {:induction false} TextCons(first: Word, rest: seq<Word>)
    ensures Text([first] + rest) == first.run + (first.sep + Text(rest))
  {
  }

  /**
   For every statement, extraction yields exactly what its words say, unless it
   opens with a common table expression.
   */
  lemma {:induction false} TablesAreWordTables(sql: string)
    ensures var lead := SkipOther(sql, 0);
            Tables(sql) == if ContainsCte(sql) then None else WordTables(Words(sql[lead..]), [])
  {
    hide ContainsCte, Scan, WordTables, Words;
    var lead := SkipOther(sql, 0);
    WordsSpell(sql[lead..]);
    assert sql[0..] == sql[..lead] + sql[lead..];
    ScanWords(sql, 0, sql[..lead], Words(sql[lead..]), []);
  }

  lemma {:induction false} NeverEmpty(sql: string, i: nat, out: seq<string>)
    requires i <= |sql|
    ensures Scan(sql, i, out) != Some([])
    decreases |sql| - i
  {
    hide Scan, FromOrJoin, SkipSpaces, SkipIdent, ToLower, TooComplex, AddNew;
    var p := FromOrJoin(ToLower(sql), i);
    if p < 0 {
      ScanNothing(sql, i, out);
    } else {
      ScanKeyword(sql, i, p, p + 4, out);
      var start := SkipSpaces(sql, p + 4);
      if start < |sql| && !TooComplex(sql[start]) {
        var end := SkipIdent(sql, start);
        NeverEmpty(sql, end, if end == start then out else AddNew(out, [sql[start..end]]));
      }
    }
  }

  /** Extraction never yields an empty list: a statement without a table is not cached either. */
  lemma {:induction false} TablesNeverEmpty(sql: string)
    ensures Tables(sql) != Some([])
  {
    NeverEmpty(sql, 0, []);
  }

  /* ---- printed SELECTs ---- */

  /** Words that are no keyword, then FROM or JOIN, blanks, and one bare table name. */
  datatype Clause = Clause(before: seq<Word>, keyword: Word, table: Word)

  predicate Ordinary(words: seq<Word>) {
    forall i :: 0 <= i < |words| ==> !IsKeyword(words[i].run)
  }

  predicate WellFormed(c: Clause) {
    Ordinary(c.before) && IsKeyword(c.keyword.run) && AllSpace(c.keyword.sep)
  }

  function Flat(clauses: seq<Clause>, tail: seq<Word>): seq<Word> {
    if clauses == [] then tail
    else clauses[0].before + ([clauses[0].keyword, clauses[0].table] + Flat(clauses[1..], tail))
  }

  function TableList(clauses: seq<Clause>): seq<string> {
    if clauses == [] then [] else [clauses[0].table.run] + TableList(clauses[1..])
  }

  lemma {:induction false} OrdinarySkipped(words: seq<Word>, rest: seq<Word>, out: seq<string>)
    requires Ordinary(words)
    ensures WordTables(words + rest, out) == WordTables(rest, out)
  {
    if words == [] {
      assert words + rest == rest;
    } else {
      assert (words + rest)[1..] == words[1..] + rest;
      OrdinarySkipped(words[1..], rest, out);
    }
  }

  /** Clauses are read off first, whatever words follow. */
  lemma {:induction false} ClausesRead(clauses: seq<Clause>, tail: seq<Word>, out: seq<string>)
    requires forall i :: 0 <= i < |clauses| ==> WellFormed(clauses[i])
    ensures WordTables(Flat(clauses, tail), out) == WordTables(tail, AddNew(out, TableList(clauses)))
    decreases |clauses|
  {
    if clauses != [] {
      var c, rest := clauses[0], Flat(clauses[1..], tail);
      var here := [c.keyword, c.table] + rest;
      OrdinarySkipped(c.before, here, out);
      assert here[2..] == rest;
      ClausesRead(clauses[1..], tail, AddNew(out, [c.table.run]));
      AddNewAppend(out, [c.table.run], TableList(clauses[1..]));
    }
  }

  lemma {:induction false} ClauseTables(clauses: seq<Clause>, tail: seq<Word>, out: seq<string>)
    requires Ordinary(tail) && forall i :: 0 <= i < |clauses| ==> WellFormed(clauses[i])
    ensures WordTables(Flat(clauses, tail), out) == Finish(AddNew(out, TableList(clauses)))
  {
    ClausesRead(clauses, tail, out);
    OrdinarySkipped(tail, [], AddNew(out, TableList(clauses)));
    assert tail + [] == tail;
  }

  /** FROM or JOIN, blanks, and another byte than a name's where a table should start. */
  predicate Interrupted(keyword: Word, blanks: string, c: char, more: string) {
    IsKeyword(keyword.run) && AllSpace(blanks) && !IsSpace(c) && keyword.sep == blanks + [c] + more
  }

  lemma {:induction false} InterruptedRead(keyword: Word, blanks: string, c: char, more: string, tail: seq<Word>, out: seq<string>)
    requires Interrupted(keyword, blanks, c, more)
    ensures c in {'(', '"', '[', '`'} ==> WordTables([keyword] + tail, out) == None
    ensures c !in {'(', '"', '[', '`'} ==> WordTables([keyword] + tail, out) == WordTables(tail, out)
  {
    hide AddNew, SkipSpaces;
    var sep, words := keyword.sep, [keyword] + tail;
    assert sep[|blanks|] == c;
    assert forall i :: 0 <= i < |blanks| ==> sep[i] == blanks[i];
    assert words[1..] == tail;
    ReadWord(words, out);
  }

  /**
   A parenthesis, double quote, bracket or backtick where a table should start
   makes any statement uncacheable, whatever tables stand before and after.
   */
  lemma {:induction false} ComplexGivesUp(lead: string, clauses: seq<Clause>, before: seq<Word>,
    keyword: Word, blanks: string, c: char, more: string, tail: seq<Word>)
    requires NoIdent(lead) && (forall i :: 0 <= i < |clauses| ==> WellFormed(clauses[i])) && Ordinary(before)
    requires Interrupted(keyword, blanks, c, more) && c in {'(', '"', '[', '`'}
    requires Proper(Flat(clauses, before + ([keyword] + tail)))
    ensures Tables(lead + Text(Flat(clauses, before + ([keyword] + tail)))) == None
  {
    hide Scan, WordTables, ContainsCte, Flat, Proper, Stands, AddNew, Ordinary, WellFormed, Interrupted;
    var words := Flat(clauses, before + ([keyword] + tail));
    var out := AddNew([], TableList(clauses));
    StandsAtStart(lead, words);
    ScanWords(lead + Text(words), 0, lead, words, []);
    ClausesRead(clauses, before + ([keyword] + tail), []);
    OrdinarySkipped(before, [keyword] + tail, out);
    InterruptedRead(keyword, blanks, c, more, tail, out);
  }

  /** Any other byte there names nothing, and the clauses behind it are read as well. */
  lemma {:induction false} OtherByteGoesOn(lead: string, clauses: seq<Clause>, before: seq<Word>,
    keyword: Word, blanks: string, c: char, more: string, behind: seq<Clause>, tail: seq<Word>)
    requires NoIdent(lead) && Ordinary(before) && Ordinary(tail)
    requires (forall i :: 0 <= i < |clauses| ==> WellFormed(clauses[i])) && (forall i :: 0 <= i < |behind| ==> WellFormed(behind[i]))
    requires Interrupted(keyword, blanks, c, more) && c !in {'(', '"', '[', '`'}
    requires var words := Flat(clauses, before + ([keyword] + Flat(behind, tail)));
             Proper(words) && !ContainsCte(lead + Text(words))
    ensures Tables(lead + Text(Flat(clauses, before + ([keyword] + Flat(behind, tail))))) ==
            Finish(AddNew([], TableList(clauses) + TableList(behind)))
  {
    hide Scan, WordTables, ContainsCte, Flat, Proper, Stands, AddNew, Ordinary, WellFormed, Interrupted, TableList;
    var rest := Flat(behind, tail);
    var words := Flat(clauses, before + ([keyword] + rest));
    var out := AddNew([], TableList(clauses));
    StandsAtStart(lead, words);
    ScanWords(lead + Text(words), 0, lead, words, []);
    ClausesRead(clauses, before + ([keyword] + rest), []);
    OrdinarySkipped(before, [keyword] + rest, out);
    InterruptedRead(keyword, blanks, c, more, rest, out);
    ClauseTables(behind, tail, out);
    AddNewAppend([], TableList(clauses), TableList(behind));
  }

  /** Whatever stands before the first byte that is no blank, it is no identifier byte. */
  lemma {:induction false} BlankBefore(sql: string)
    ensures var j := SkipSpaces(sql, 0); j > 0 ==> !IsIdent(sql[j - 1])
  {
  }

  /** Exactly which statements open a common table expression: blanks, WITH in any case, and a blank, tab or newline. */
  lemma {:induction false} CteIff(blanks: string, rest: string)
    requires AllSpace(blanks) && (rest != "" ==> !IsSpace(rest[0]))
    ensures ContainsCte(blanks + rest) <==>
              |rest| >= 5 && ToLower(rest[..4]) == "with" && (rest[4] == ' ' || rest[4] == '\t' || rest[4] == '\n')
    ensures ContainsCte(blanks + rest) ==> Tables(blanks + rest) == None
  {
    hide Scan, ToLower, SkipSpaces;
    var sql := blanks + rest;
    assert forall i :: 0 <= i < |blanks| ==> sql[i] == blanks[i];
    assert sql[|blanks|..] == rest;
    if |rest| >= 5 {
    }
  }

  /** "with" and a blank, in any case. */
  lemma {:induction false} LowerOpens(cut: string)
    requires OpensWith(cut)
    ensures |cut| >= 5 && ToLower(cut[..4]) == "with" && !IsIdent(cut[4]) && AllIdent(cut[..4])
  {
  }

  /** A leading common table expression starts with the run WITH. */
  lemma {:induction false} WithOpens(sql: string)
    requires ContainsCte(sql)
    ensures var j := SkipSpaces(sql, 0); j + 4 < |sql| && RunAt(sql, j, j, j + 4) && ToLower(sql[j..j + 4]) == "with"
  {
    hide ToLower, SkipSpaces, OpensWith, IsIdent, IsSpace, RunAt;
    var j := SkipSpaces(sql, 0);
    var cut := sql[j..];
    LowerOpens(cut);
    var a, b := cut[..4], cut[4..];
    assert cut == a + b && b[0] == cut[4];
    BlankBefore(sql);
    FourBytes(sql, j, a, b);
  }

  lemma {:induction false} FourBytes(sql: string, j: nat, a: string, b: string)
    requires j <= |sql| && sql[j..] == a + b && |a| == 4 && AllIdent(a)
    requires b != "" && !IsIdent(b[0]) && (j > 0 ==> !IsIdent(sql[j - 1]))
    ensures j + 4 < |sql| && RunAt(sql, j, j, j + 4) && sql[j..j + 4] == a
  {
  }

  /** A statement whose first word is not WITH opens no common table expression. */
  lemma {:induction false} NotCte(sql: string, lead: string, words: seq<Word>)
    requires Stands(sql, 0, lead, words) && words != [] && ToLower(words[0].run) != "with"
    ensures !ContainsCte(sql)
  {
    hide ToLower, SkipSpaces, ContainsCte, Stands;
    PastFirst(sql, 0, lead, words);
    if ContainsCte(sql) {
      WithOpens(sql);
      SameFirstRun(sql, |lead|, |lead| + |words[0].run|, SkipSpaces(sql, 0), SkipSpaces(sql, 0) + 4);
    }
  }

  /** The first run after blanks is the first run. */
  lemma {:induction false} SameFirstRun(sql: string, p: nat, q: nat, j: nat, e: nat)
    requires RunAt(sql, 0, p, q) && RunAt(sql, j, j, e) && j == SkipSpaces(sql, 0)
    ensures p == j && q == e
  {
    hide SkipSpaces;
    assert IsIdent(sql[j]) && IsIdent(sql[p]);
  }

  /**
   For every SELECT printed as such clauses, extraction yields exactly the
   distinct table names in order of first use.
   */
  lemma {:induction false} SelectTables(lead: string, clauses: seq<Clause>, tail: seq<Word>)
    requires NoIdent(lead) && clauses != [] && Ordinary(tail) && Proper(Flat(clauses, tail))
    requires forall i :: 0 <= i < |clauses| ==> WellFormed(clauses[i])
    requires ToLower(Flat(clauses, tail)[0].run) != "with"
    ensures Tables(lead + Text(Flat(clauses, tail))) == Some(AddNew([], TableList(clauses)))
  {
    hide Scan, WordTables, ContainsCte, Flat, ToLower, Proper, Stands, AddNew;
    var words := Flat(clauses, tail);
    var sql := lead + Text(words);
    FlatNonEmpty(clauses, tail);
    StandsAtStart(lead, words);
    NotCte(sql, lead, words);
    ScanWords(sql, 0, lead, words, []);
    ClauseTables(clauses, tail, []);
    SomeName(clauses);
  }

  lemma {:induction false} FlatNonEmpty(clauses: seq<Clause>, tail: seq<Word>)
    requires clauses != []
    ensures Flat(clauses, tail) != []
  {
  }

  lemma {:induction false} SomeName(clauses: seq<Clause>)
    requires clauses != []
    ensures AddNew([], TableList(clauses)) != []
  {
    AddNewIs([], TableList(clauses));
    assert TableList(clauses)[0] in AddNew([], TableList(clauses));
  }

  lemma {:induction false} StandsAtStart(lead: string, words: seq<Word>)
    requires NoIdent(lead) && Proper(words)
    ensures Stands(lead + Text(words), 0, lead, words)
  {
  }

  /** "select column from table", with whatever separates the table word from a next one. */
  function Plainly(column: string, table: string, sep: string, more: string): seq<Word> {
    [Word("select", " "), Word(column, " "), Word("from", " "), Word(table, sep)] + if more == "" then [] else [Word(more, "")]
  }

  lemma {:induction false} PlainlySpelled(column: string, table: string, sep: string, more: string)
    ensures Text(Plainly(column, table, sep, more)) == "select " + column + " from " + table + sep + more
  {
    var words := Plainly(column, table, sep, more);
    TextCons(words[0], words[1..]);
    TextCons(words[1], words[2..]);
    TextCons(words[2], words[3..]);
    TextCons(words[3], words[4..]);
    hide Text;
    assert words == [words[0]] + words[1..] && words[1..] == [words[1]] + words[2..];
    assert words[2..] == [words[2]] + words[3..] && words[3..] == [words[3]] + words[4..];
    TextUnfolds([]);
    assert Text(words[4..]) == more by {
      if more != "" {
        assert words[4..] == [Word(more, "")];
        TextCons(words[4], []);
      }
    }
    assert "select" + " " == "select " && "from" + " " == "from " && " " + "from " == " from ";
    Spelled("select", " ", column, "from", table, sep, more);
  }

  lemma {:induction false} Spelled(a: string, b: string, c: string, d: string, e: string, f: string, g: string)
    ensures a + (b + (c + (b + (d + (b + (e + (f + g))))))) == (a + b) + c + (b + (d + b)) + e + f + g
  {
  }

  lemma {:induction false} PlainlyTables(column: string, table: string, sep: string, more: string)
    requires column != "" && AllIdent(column) && !IsKeyword(column) && table != "" && AllIdent(table)
    requires NoIdent(sep) && AllIdent(more) && !IsKeyword(more) && (more != "" ==> sep != "")
    ensures Tables("select " + column + " from " + table + sep + more) == Some([table])
  {
    hide Tables, Text, ToLower, Flat, Proper, WellFormed, Ordinary, TableList, AddNew;
    var clause := OneClause(column, table, sep);
    var tail := if more == "" then [] else [Word(more, "")];
    var words := Plainly(column, table, sep, more);
    OneFlat(clause, tail);
    assert Flat([clause], tail) == words;
    PlainlyProper(column, table, sep, more);
    PlainlyOrdinary(column, table, sep, more);
    PlainlySpelled(column, table, sep, more);
    SelectTables("", [clause], tail);
    assert "" + Text(words) == Text(words);
    AddOne([], table);
    assert [] + [table] == [table];
  }

  function OneClause(column: string, table: string, sep: string): Clause {
    Clause([Word("select", " "), Word(column, " ")], Word("from", " "), Word(table, sep))
  }

  lemma {:induction false} OneFlat(c: Clause, tail: seq<Word>)
    ensures Flat([c], tail) == c.before + ([c.keyword, c.table] + tail) && TableList([c]) == [c.table.run]
  {
    var none: seq<Clause> := [];
    assert [c][1..] == none && Flat(none, tail) == tail && TableList(none) == [];
  }

  lemma {:induction false} PlainlyProper(column: string, table: string, sep: string, more: string)
    requires column != "" && AllIdent(column) && table != "" && AllIdent(table)
    requires NoIdent(sep) && AllIdent(more) && (more != "" ==> sep != "")
    ensures Proper(Plainly(column, table, sep, more))
  {
    assert AllIdent("select") && AllIdent("from") && NoIdent(" ");
  }

  lemma {:induction false} PlainlyOrdinary(column: string, table: string, sep: string, more: string)
    requires !IsKeyword(column) && !IsKeyword(more)
    ensures WellFormed(OneClause(column, table, sep)) && Ordinary(if more == "" then [] else [Word(more, "")])
    ensures ToLower("select") != "with"
  {
    assert ToLower("from") == FROM && ToLower("select")[0] == 's';
    assert AllSpace(" ");
  }

  /** A schema-qualified name yields its schema: the scan stops at the dot. */
  lemma {:induction false} SchemaNotStripped(column: string, schema: string, table: string)
    requires column != "" && AllIdent(column) && !IsKeyword(column)
    requires schema != "" && table != "" && AllIdent(schema) && AllIdent(table) && !IsKeyword(table)
    ensures Tables("select " + column + " from " + schema + "." + table) == Some([schema])
  {
    PlainlyTables(column, schema, ".", table);
  }
}

/**
 Route patterns as values: what a pattern matches, which of two matching
 patterns wins, what it captures, and when inserting one is refused.
 This is the declarative side of the trie in RouteTrie.dfy.
 */
module RoutePatterns {
  import opened Options
  import opened RoutePaths

  /** One pattern segment: literal text, ":name", or a final "*name". */
  datatype Segment = Lit(text: string) | Par(name: string) | Rest(name: string)

  type Pattern = seq<Segment>

  datatype Param = Param(name: string, value: string)

  /** A catch-all matches whatever is left, including nothing, and only in last place. */
  predicate Matches(p: Pattern, segs: seq<string>) {
    if p == [] then segs == []
    else match p[0]
      case Lit(text) => segs != [] && segs[0] == text && Matches(p[1..], segs[1..])
      case Par(_) => segs != [] && Matches(p[1..], segs[1..])
      case Rest(_) => |p| == 1
  }

  /** Captures of a matching pattern, in pattern order. */
  function Bindings(p: Pattern, segs: seq<string>): seq<Param>
    requires Matches(p, segs)
  {
    if p == [] then []
    else match p[0]
      case Lit(_) => Bindings(p[1..], segs[1..])
      case Par(name) => [Param(name, segs[0])] + Bindings(p[1..], segs[1..])
      case Rest(name) => [Param(name, Join(segs))]
  }

  /** The names that captures are kept under. */
  function NamesOf(bindings: seq<Param>): (names: seq<string>)
    ensures |names| == |bindings|
    ensures forall i :: 0 <= i < |names| ==> names[i] == bindings[i].name
  {
    seq(|bindings|, i requires 0 <= i < |bindings| => bindings[i].name)
  }

  /** The names a pattern spells, in order. */
  function CaptureNames(p: Pattern): seq<string> {
    if p == [] then []
    else (if p[0].Lit? then [] else [p[0].name]) + CaptureNames(p[1..])
  }

  /** Whatever a pattern matches, it captures under its own names, in order. */
  lemma {:induction false} BindingNames(p: Pattern, segs: seq<string>)
    requires Matches(p, segs)
    ensures NamesOf(Bindings(p, segs)) == CaptureNames(p)
  {
    if p != [] && !p[0].Rest? {
      BindingNames(p[1..], segs[1..]);
      var more := Bindings(p[1..], segs[1..]);
      if p[0].Par? {
        NamesCons(Param(p[0].name, segs[0]), more);
      } else {
        assert [] + CaptureNames(p[1..]) == CaptureNames(p[1..]);
      }
    } else if p != [] {
      assert p == [p[0]] && p[1..] == [];
      assert [p[0].name] + [] == [p[0].name];
    }
  }

  /** Where segment i of a pattern puts its capture: a parameter its segment, a catch-all the rest. */
  lemma {:induction false} BindingAt(p: Pattern, segs: seq<string>, i: nat) returns (k: nat)
    requires Matches(p, segs) && i < |p| && !p[i].Lit?
    ensures k < |Bindings(p, segs)| && i <= |segs| && (p[i].Par? ==> i < |segs|)
    ensures Bindings(p, segs)[k] == Param(p[i].name, if p[i].Par? then segs[i] else Join(segs[i..]))
  {
    if i == 0 {
      k := 0;
      assert segs[0..] == segs;
    } else {
      k := BindingAt(p[1..], segs[1..], i - 1);
      assert segs[1..][i - 1..] == segs[i..];
      if p[0].Par? {
        k := k + 1;
      }
    }
  }

  lemma {:induction false} NamesCons(b: Param, more: seq<Param>)
    ensures NamesOf([b] + more) == [b.name] + NamesOf(more)
  {
  }

  function Rank(s: Segment): nat {
    match s case Lit(_) => 0 case Par(_) => 1 case Rest(_) => 2
  }

  /**
   Precedence by the leftmost segment in which two patterns differ: literal,
   then parameter, then catch-all; ending exactly comes before a catch-all.
   */
  predicate Before(p: Pattern, q: Pattern) {
    if q == [] then false
    else if p == [] then q[0].Rest?
    else if Rank(p[0]) != Rank(q[0]) then Rank(p[0]) < Rank(q[0])
    else p[0] == q[0] && Before(p[1..], q[1..])
  }

  /** p is the accepted pattern that must serve segs. */
  ghost predicate Best(p: Pattern, routes: map<Pattern, int>, segs: seq<string>) {
    && p in routes
    && Matches(p, segs)
    && forall q :: q in routes && Matches(q, segs) && q != p ==> Before(p, q)
  }

  /**
   Where two patterns part: a literal comes before a parameter and a
   catch-all, a parameter before a catch-all, and the end before a catch-all,
   whatever follows.
   */
  lemma {:induction false} Precedence(p: Pattern, text: string, name: string, rest: string, u: Pattern, v: Pattern)
    ensures Before(p + ([Lit(text)] + u), p + ([Par(name)] + v)) && Before(p + ([Lit(text)] + u), p + ([Rest(rest)] + v))
    ensures Before(p + ([Par(name)] + u), p + ([Rest(rest)] + v)) && Before(p, p + ([Rest(rest)] + v))
  {
    if p == [] {
      assert p + ([Lit(text)] + u) == [Lit(text)] + u && p + ([Par(name)] + u) == [Par(name)] + u;
      assert p + ([Par(name)] + v) == [Par(name)] + v && p + ([Rest(rest)] + v) == [Rest(rest)] + v;
    } else {
      Precedence(p[1..], text, name, rest, u, v);
      FirstKept(p, [Lit(text)] + u);
      FirstKept(p, [Par(name)] + u);
      FirstKept(p, [Par(name)] + v);
      FirstKept(p, [Rest(rest)] + v);
    }
  }

  lemma {:induction false} FirstKept(p: Pattern, q: Pattern)
    requires p != []
    ensures (p + q) != [] && (p + q)[0] == p[0] && (p + q)[1..] == p[1..] + q
  {
  }

  lemma {:induction false} BeforeAsymmetric(p: Pattern, q: Pattern)
    requires Before(p, q)
    ensures !Before(q, p)
  {
    if p != [] && Rank(p[0]) == Rank(q[0]) {
      BeforeAsymmetric(p[1..], q[1..]);
    }
  }

  /** At most one accepted pattern can be best. */
  lemma {:induction false} BestIsUnique(p: Pattern, q: Pattern, routes: map<Pattern, int>, segs: seq<string>)
    requires Best(p, routes, segs) && Best(q, routes, segs)
    ensures p == q
  {
    if p != q {
      BeforeAsymmetric(p, q);
    }
  }

  /** Undo of Join on a remainder: the empty value stands for no segments. */
  function SplitRest(value: string): seq<string> {
    if value == "" then [] else Split(value)
  }

  /** Put captured values back into a pattern. */
  function Substitute(p: Pattern, values: seq<Param>): seq<string> {
    if p == [] then []
    else match p[0]
      case Lit(text) => [text] + Substitute(p[1..], values)
      case Par(_) => if values == [] then [] else [values[0].value] + Substitute(p[1..], values[1..])
      case Rest(_) => if values == [] then [] else SplitRest(values[0].value)
  }

  /** The catch-all took exactly one segment and that segment was empty, as in "/static//". */
  predicate LoneEmptyRemainder(p: Pattern, segs: seq<string>) {
    |p| > 0 && p[|p| - 1].Rest? && |segs| == |p| && segs[|segs| - 1] == ""
  }

  /**
   Substituting the captures into the matched pattern gives the request's
   segments back, except in exactly one family: a catch-all that captured a
   single empty segment, whose value cannot be told from an empty remainder.
   */
  lemma {:induction false} SubstituteBindings(p: Pattern, segs: seq<string>)
    requires Matches(p, segs) && AllNoSlash(segs)
    ensures Substitute(p, Bindings(p, segs)) == segs <==> !LoneEmptyRemainder(p, segs)
  {
    if p != [] {
      match p[0]
      case Lit(text) =>
        SubstituteBindings(p[1..], segs[1..]);
        TailOfLoneRemainder(p, segs);
        ConsEquals(text, Substitute(p[1..], Bindings(p[1..], segs[1..])), segs);
      case Par(_) =>
        SubstituteBindings(p[1..], segs[1..]);
        TailOfLoneRemainder(p, segs);
        var values := Bindings(p, segs);
        assert values[1..] == Bindings(p[1..], segs[1..]);
        ConsEquals(segs[0], Substitute(p[1..], values[1..]), segs);
      case Rest(_) =>
        RestRoundTrip(segs);
    }
  }

  // The paths "/s/" and "/s//" give the pattern "s", "*rest" the same captures from different segments.
  lemma {:induction false} LoneEmptyRemainderExample()
    ensures SplitPath("/s/") == ["s"] && SplitPath("/s//") == ["s", ""]
    ensures var p := [Lit("s"), Rest("rest")];
            Matches(p, ["s"]) && Matches(p, ["s", ""]) && Bindings(p, ["s"]) == Bindings(p, ["s", ""])
  {
    var p := [Lit("s"), Rest("rest")];
    assert p[1..] == [Rest("rest")] && ["s"][1..] == [] && ["s", ""][1..] == [""];
    SplitHead("s", "");
    assert "s" + "/" + "" == "s/";
    assert "/s/"[1..] == "s/" && "s/"[..1] == "s";
    assert "/s//"[1..] == "s//" && "s//"[..2] == "s/";
  }

  lemma {:induction false} ConsEquals(x: string, tail: seq<string>, segs: seq<string>)
    requires segs != [] && segs[0] == x
    ensures [x] + tail == segs <==> tail == segs[1..]
  {
  }

  lemma {:induction false} TailOfLoneRemainder(p: Pattern, segs: seq<string>)
    requires p != [] && segs != [] && !p[0].Rest? && Matches(p[1..], segs[1..])
    ensures LoneEmptyRemainder(p, segs) <==> LoneEmptyRemainder(p[1..], segs[1..])
  {
  }

  lemma {:induction false} RestRoundTrip(segs: seq<string>)
    requires AllNoSlash(segs)
    ensures SplitRest(Join(segs)) == segs <==> !(|segs| == 1 && segs[0] == "")
  {
    if segs != [] {
      SplitJoin(segs);
    }
  }

  /* ---- Insertion: which patterns are accepted ---- */

  datatype InsertError =
    | BadRouteIndex
    | EmptyParamName
    | ParamNameConflict
    | CatchAllNotLast
    | EmptyCatchAllName
    | CatchAllNameConflict
    | DuplicateRoute

  /** Rejected keeps the part of the pattern whose nodes stay behind in the trie. */
  datatype Verdict = Accepted(pattern: Pattern) | Rejected(error: InsertError, kept: Pattern)

  function Classify(seg: string): Segment
    requires seg != ""
  {
    if seg[0] == ':' then Par(seg[1..])
    else if seg[0] == '*' then Rest(seg[1..])
    else Lit(seg)
  }

  /** Some parameter with another name is already known in this place. */
  ghost predicate ParamClash(known: set<Pattern>, at: Pattern, name: string) {
    exists other :: other != name && at + [Par(other)] in known
  }

  ghost predicate RestClash(known: set<Pattern>, at: Pattern, name: string) {
    exists other :: other != name && at + [Rest(other)] in known
  }

  ghost function SegmentError(known: set<Pattern>, at: Pattern, seg: string, isLast: bool): Option<InsertError>
    requires seg != ""
  {
    match Classify(seg)
    case Lit(_) => None
    case Par(name) =>
      if name == "" then Some(EmptyParamName)
      else if ParamClash(known, at, name) then Some(ParamNameConflict)
      else None
    case Rest(name) =>
      if !isLast then Some(CatchAllNotLast)
      else if name == "" then Some(EmptyCatchAllName)
      else if RestClash(known, at, name) then Some(CatchAllNameConflict)
      else None
  }

  /** A segment as it is written in a pattern. */
  function Written(s: Segment): string {
    match s
    case Lit(text) => text
    case Par(name) => ":" + name
    case Rest(name) => "*" + name
  }

  /** Classifying loses nothing, and the first byte alone decides the kind. */
  lemma {:induction false} ClassifyWritten(seg: string)
    requires seg != ""
    ensures Written(Classify(seg)) == seg
    ensures Classify(seg).Par? <==> seg[0] == ':'
    ensures Classify(seg).Rest? <==> seg[0] == '*'
  {
    assert seg == [seg[0]] + seg[1..];
  }

  function WrittenAll(p: Pattern): seq<string> {
    if p == [] then [] else [Written(p[0])] + WrittenAll(p[1..])
  }

  function NonEmpty(segs: seq<string>): seq<string> {
    if segs == [] then [] else (if segs[0] == "" then [] else [segs[0]]) + NonEmpty(segs[1..])
  }

  /** The pattern of some segments is written as those of them that are not empty. */
  lemma {:induction false} PatternWritten(segs: seq<string>)
    ensures WrittenAll(PatternOf(segs)) == NonEmpty(segs)
  {
    if segs != [] {
      PatternWritten(segs[1..]);
      if segs[0] != "" {
        ClassifyWritten(segs[0]);
        assert ([Classify(segs[0])] + PatternOf(segs[1..]))[1..] == PatternOf(segs[1..]);
      } else {
        assert [] + PatternOf(segs[1..]) == PatternOf(segs[1..]);
      }
    }
  }

  /** Judge segments i.. of a pattern whose earlier ones led to `at`. */
  ghost function JudgeFrom(known: set<Pattern>, routes: map<Pattern, int>, segs: seq<string>, i: nat, at: Pattern): Verdict
    requires i <= |segs|
    decreases |segs| - i
  {
    if i == |segs| then
      if at in routes then Rejected(DuplicateRoute, at) else Accepted(at)
    else if segs[i] == "" then JudgeFrom(known, routes, segs, i + 1, at)
    else
      match SegmentError(known, at, segs[i], i == |segs| - 1)
      case Some(e) => Rejected(e, at)
      case None => JudgeFrom(known, routes, segs, i + 1, at + [Classify(segs[i])])
  }

  ghost function Judge(known: set<Pattern>, routes: map<Pattern, int>, segs: seq<string>, routeIdx: int): Verdict {
    if routeIdx <= 0 then Rejected(BadRouteIndex, []) else JudgeFrom(known, routes, segs, 0, [])
  }

  /** The pattern a list of segments denotes: empty segments do not count. */
  function PatternOf(segs: seq<string>): Pattern {
    if segs == [] then []
    else (if segs[0] == "" then [] else [Classify(segs[0])]) + PatternOf(segs[1..])
  }

  predicate SyntaxOk(segs: seq<string>) {
    forall i :: 0 <= i < |segs| && segs[i] != "" ==>
      && segs[i] != ":" && segs[i] != "*"
      && (segs[i][0] == '*' ==> i == |segs| - 1)
  }

  ghost predicate NamesAgree(known: set<Pattern>, p: Pattern) {
    forall k :: 0 <= k < |p| ==>
      && (p[k].Par? ==> !ParamClash(known, p[..k], p[k].name))
      && (p[k].Rest? ==> !RestClash(known, p[..k], p[k].name))
  }

  /**
   Exactly which inserts are accepted: a positive index, well-formed segments,
   no other name known in the same place, and no route on the same pattern.
   */
  lemma {:induction false} AcceptedIff(known: set<Pattern>, routes: map<Pattern, int>, segs: seq<string>, routeIdx: int)
    ensures Judge(known, routes, segs, routeIdx).Accepted? <==>
              routeIdx > 0 && SyntaxOk(segs) && NamesAgree(known, PatternOf(segs)) && PatternOf(segs) !in routes
    ensures Judge(known, routes, segs, routeIdx).Accepted? ==>
              Judge(known, routes, segs, routeIdx).pattern == PatternOf(segs)
  {
    if routeIdx > 0 {
      JudgeFromIff(known, routes, segs, 0, []);
      assert segs[0..] == segs && [] + PatternOf(segs) == PatternOf(segs);
    }
  }

  ghost predicate SyntaxOkFrom(segs: seq<string>, i: nat) {
    forall j :: i <= j < |segs| && segs[j] != "" ==>
      && segs[j] != ":" && segs[j] != "*"
      && (segs[j][0] == '*' ==> j == |segs| - 1)
  }

  ghost predicate NamesAgreeFrom(known: set<Pattern>, p: Pattern, i: nat) {
    forall k :: i <= k < |p| ==>
      && (p[k].Par? ==> !ParamClash(known, p[..k], p[k].name))
      && (p[k].Rest? ==> !RestClash(known, p[..k], p[k].name))
  }

  lemma {:induction false} JudgeFromIff(known: set<Pattern>, routes: map<Pattern, int>, segs: seq<string>, i: nat, at: Pattern)
    requires i <= |segs|
    ensures var p := at + PatternOf(segs[i..]);
            && (JudgeFrom(known, routes, segs, i, at).Accepted? <==>
                SyntaxOkFrom(segs, i) && NamesAgreeFrom(known, p, |at|) && p !in routes)
            && (JudgeFrom(known, routes, segs, i, at).Accepted? ==> JudgeFrom(known, routes, segs, i, at).pattern == p)
    decreases |segs| - i
  {
    var p := at + PatternOf(segs[i..]);
    if i == |segs| {
      assert p == at;
    } else {
      assert segs[i..][0] == segs[i] && segs[i..][1..] == segs[i + 1..];
      if segs[i] == "" {
        assert p == at + PatternOf(segs[i + 1..]);
        JudgeFromIff(known, routes, segs, i + 1, at);
      } else {
        var c := Classify(segs[i]);
        assert p == (at + [c]) + PatternOf(segs[i + 1..]);
        assert p[..|at|] == at && p[|at|] == c;
        JudgeFromIff(known, routes, segs, i + 1, at + [c]);
        assert !c.Lit? && c.name == "" ==> segs[i] == ":" || segs[i] == "*" by {
          assert segs[i] == [segs[i][0]] + segs[i][1..];
        }
      }
    }
  }
}

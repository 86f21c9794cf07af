/**
 The bytes that stand for a request's bindings in its page cache key, and which
 bindings they tell apart.
 */
module BindingText {
  import opened RoutePaths
  import opened RoutePatterns

  const NUL: string := ['\0']

  /** What is written to the hash for one binding. */
  function PairText(p: Param): string {
    p.name + "=" + p.value + NUL
  }

  function HashedText(bindings: seq<Param>): string {
    if bindings == [] then "" else HashedText(bindings[..|bindings| - 1]) + PairText(bindings[|bindings| - 1])
  }

  /** No bindings are 0, others the hash of their text. */
  function BindingsHash(hash: string -> nat, bindings: seq<Param>): nat {
    if bindings == [] then 0 else hash(HashedText(bindings))
  }

  method HashBindings(hash: string -> nat, bindings: seq<Param>) returns (h: nat)
    ensures h == BindingsHash(hash, bindings)
    ensures bindings == [] ==> h == 0
  {
    if |bindings| == 0 {
      return 0;
    }
    var written := "";
    for i := 0 to |bindings|
      invariant written == HashedText(bindings[..i])
    {
      assert bindings[..i + 1][..i] == bindings[..i];
      written := written + (bindings[i].name + "=" + bindings[i].value + NUL);
    }
    assert bindings[..|bindings|] == bindings;
    return hash(written);
  }

  /** No value contains the byte that ends a binding. */
  ghost predicate PlainValues(bindings: seq<Param>) {
    forall i :: 0 <= i < |bindings| ==> '\0' !in bindings[i].value
  }

  lemma {:induction false} TextFromFront(p: Param, more: seq<Param>)
    ensures HashedText([p] + more) == PairText(p) + HashedText(more)
  {
    hide PairText;
    if more == [] {
      assert [p] + more == [p] && [p][..0] == [];
    } else {
      var k := |more| - 1;
      assert ([p] + more)[..k + 1] == [p] + more[..k];
      TextFromFront(p, more[..k]);
    }
  }

  /** A terminated piece is recovered from what it starts. */
  lemma {:induction false} FirstTerminated(a: string, b: string, u: string, v: string)
    requires '\0' !in a && '\0' !in b && a + NUL + u == b + NUL + v
    ensures a == b && u == v
  {
    var s, t := a + NUL + u, b + NUL + v;
    assert s[|a|] == '\0' && t[|b|] == '\0';
    assert forall i :: 0 <= i < |a| ==> s[i] == a[i];
    assert forall i :: 0 <= i < |b| ==> t[i] == b[i];
    assert |a| == |b|;
    assert a == s[..|a|] && b == t[..|b|] && u == s[|a| + 1..] && v == t[|b| + 1..];
  }

  lemma {:induction false} SamePrefix(p: string, u: string, v: string)
    requires p + u == p + v
    ensures u == v
  {
    assert (p + u)[|p|..] == u && (p + v)[|p|..] == v;
  }

  lemma {:induction false} FrontText(a: seq<Param>)
    requires a != []
    ensures HashedText(a) == (a[0].name + "=") + (a[0].value + NUL + HashedText(a[1..]))
  {
    hide HashedText;
    var p, t := a[0], HashedText(a[1..]);
    assert a == [p] + a[1..];
    TextFromFront(p, a[1..]);
  }

  /** Bindings of one route whose values lack the terminator are told apart by the text. */
  lemma {:induction false} PlainTextsDiffer(a: seq<Param>, b: seq<Param>)
    requires NamesOf(a) == NamesOf(b) && PlainValues(a) && PlainValues(b)
    requires HashedText(a) == HashedText(b)
    ensures a == b
  {
    hide HashedText, NamesOf;
    assert |a| == |NamesOf(a)| == |b|;
    if a != [] {
      var p, q, r, s := a[0], b[0], a[1..], b[1..];
      FrontText(a);
      FrontText(b);
      SamePrefix(p.name + "=", p.value + NUL + HashedText(r), q.value + NUL + HashedText(s));
      FirstTerminated(p.value, q.value, HashedText(r), HashedText(s));
      PlainTextsDiffer(r, s);
      assert a == [p] + r && b == [q] + s;
    }
  }

  /** Any bindings with these names are told apart by the text. */
  ghost predicate TextTells(names: seq<string>) {
    forall a, b :: NamesOf(a) == names && NamesOf(b) == names && HashedText(a) == HashedText(b) ==> a == b
  }

  /** The terminator moves between two neighbouring values without a trace. */
  lemma {:induction false} Ambiguous(p: string, q: string, x: string, y: string, z: string, more: seq<Param>)
    ensures var a := [Param(p, x + NUL + q + "=" + y), Param(q, z)] + more;
            var b := [Param(p, x), Param(q, y + NUL + q + "=" + z)] + more;
            NamesOf(a) == NamesOf(b) && a != b && HashedText(a) == HashedText(b)
  {
    hide HashedText, PairText;
    var a0, a1 := Param(p, x + NUL + q + "=" + y), Param(q, z);
    var b0, b1 := Param(p, x), Param(q, y + NUL + q + "=" + z);
    assert [a0, a1] + more == [a0] + ([a1] + more) && [b0, b1] + more == [b0] + ([b1] + more);
    TwoTexts(a0, a1, more);
    TwoTexts(b0, b1, more);
    TerminatorMoves(p, q, x, y, z);
    assert NamesOf([a0, a1] + more) == NamesOf([b0, b1] + more);
    assert |a0.value| > |b0.value|;
    assert ([a0, a1] + more)[0] == a0 && ([b0, b1] + more)[0] == b0;
  }

  lemma {:induction false} TwoTexts(a: Param, b: Param, more: seq<Param>)
    ensures HashedText([a] + ([b] + more)) == (PairText(a) + PairText(b)) + HashedText(more)
  {
    hide HashedText, PairText;
    TextFromFront(a, [b] + more);
    TextFromFront(b, more);
  }

  lemma {:induction false} TerminatorMoves(p: string, q: string, x: string, y: string, z: string)
    ensures PairText(Param(p, x + NUL + q + "=" + y)) + PairText(Param(q, z)) ==
            PairText(Param(p, x)) + PairText(Param(q, y + NUL + q + "=" + z))
  {
    hide NUL;
    var eq, sep := q + "=", NUL + q + "=";
    Regroup(p + "=", x, sep, y, z, NUL);
  }

  lemma {:induction false} Regroup(p: string, x: string, s: string, y: string, z: string, n: string)
    ensures (p + (x + s + y)) + (s + z + n) == (p + x) + (s + (y + s + z) + n)
  {
  }

  /** The text tells all bindings of a route apart exactly when the route captures at most one value. */
  lemma {:induction false} TextTellsIff(names: seq<string>)
    ensures TextTells(names) <==> |names| <= 1
  {
    hide HashedText, NamesOf;
    if |names| <= 1 {
      forall a, b | NamesOf(a) == names && NamesOf(b) == names && HashedText(a) == HashedText(b) ensures a == b {
        assert |NamesOf(a)| == |a| && |NamesOf(b)| == |b|;
        if |names| == 1 {
          OneBinding(a, b);
        }
      }
    } else {
      var a, b := Confused(names);
    }
  }

  lemma {:induction false} Confused(names: seq<string>) returns (a: seq<Param>, b: seq<Param>)
    requires |names| >= 2
    ensures NamesOf(a) == NamesOf(b) == names && a != b && HashedText(a) == HashedText(b)
  {
    hide HashedText;
    var more := seq(|names| - 2, i requires 0 <= i < |names| - 2 => Param(names[i + 2], ""));
    Ambiguous(names[0], names[1], "", "", "", more);
    var x, y := "" + NUL + names[1] + "=" + "", "";
    a := [Param(names[0], x), Param(names[1], y)] + more;
    b := [Param(names[0], y), Param(names[1], x)] + more;
    assert NamesOf(a) == names;
  }

  lemma {:induction false} OneBinding(a: seq<Param>, b: seq<Param>)
    requires |a| == |b| == 1 && NamesOf(a) == NamesOf(b) && HashedText(a) == HashedText(b)
    ensures a == b
  {
    var p, q := a[0], b[0];
    assert NamesOf(a)[0] == p.name && NamesOf(b)[0] == q.name;
    assert HashedText(a) == (p.name + "=") + (p.value + NUL) && HashedText(b) == (p.name + "=") + (q.value + NUL);
    SamePrefix(p.name + "=", p.value + NUL, q.value + NUL);
    assert p.value == (p.value + NUL)[..|p.value|] && q.value == (q.value + NUL)[..|q.value|];
  }

  /** On the route ":a/:b" two paths have different captures with one text. */
  lemma {:induction false} TwoPathsOneText()
    ensures var p, s, t := [Par("a"), Par("b")], SplitPath("/x\0b=y/z"), SplitPath("/x/y\0b=z");
            && Matches(p, s) && Matches(p, t)
            && Bindings(p, s) == [Param("a", "x\0b=y"), Param("b", "z")]
            && Bindings(p, t) == [Param("a", "x"), Param("b", "y\0b=z")]
            && HashedText(Bindings(p, s)) == HashedText(Bindings(p, t))
  {
    hide SplitPath, HashedText, Matches;
    TwoPathsSplit();
    TwoCaptures("a", "b", "x\0b=y", "z");
    TwoCaptures("a", "b", "x", "y\0b=z");
    Ambiguous("a", "b", "x", "y", "z", []);
    assert "x" + NUL + "b" + "=" + "y" == "x\0b=y" && "y" + NUL + "b" + "=" + "z" == "y\0b=z";
    assert [Param("a", "x\0b=y"), Param("b", "z")] + [] == [Param("a", "x\0b=y"), Param("b", "z")];
    assert [Param("a", "x"), Param("b", "y\0b=z")] + [] == [Param("a", "x"), Param("b", "y\0b=z")];
  }

  lemma {:induction false} TwoPathsSplit()
    ensures SplitPath("/x\0b=y/z") == ["x\0b=y", "z"] && SplitPath("/x/y\0b=z") == ["x", "y\0b=z"]
  {
    hide Split;
    SplitHead("x\0b=y", "z");
    SplitHead("z", "");
    SplitHead("x", "y\0b=z");
    SplitHead("y\0b=z", "");
    assert "/x\0b=y/z"[1..] == "x\0b=y" + "/" + "z" && "/x/y\0b=z"[1..] == "x" + "/" + "y\0b=z";
  }

  lemma {:induction false} TwoCaptures(p: string, q: string, x: string, y: string)
    ensures Matches([Par(p), Par(q)], [x, y]) && Bindings([Par(p), Par(q)], [x, y]) == [Param(p, x), Param(q, y)]
  {
    var both, last: Pattern, none: Pattern := [Par(p), Par(q)], [Par(q)], [];
    assert both[1..] == last && [x, y][1..] == [y];
    assert last[1..] == none && [y][1..] == [];
    assert Bindings(none, []) == [];
    assert Bindings(last, [y]) == [Param(q, y)];
    assert Bindings(both, [x, y]) == [Param(p, x)] + Bindings(last, [y]);
  }
}

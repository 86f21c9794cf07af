/**
 What a rejected insert leaves behind, when that matters, and which later
 inserts it makes fail.
 */
module RouteRejections {
  import opened Options
  import opened RoutePaths
  import opened RoutePatterns
  import opened RouteRuns
  import opened RouteTrie

  /** Segment j is the first of i.. that insertion refuses; |segs| when it refuses none. */
  ghost predicate FirstRefused(known: set<Pattern>, segs: seq<string>, i: nat, at: Pattern, j: nat) {
    && i <= j <= |segs|
    && (forall m :: i <= m < j && segs[m] != "" ==> SegmentError(known, at + PatternOf(segs[i..m]), segs[m], m == |segs| - 1).None?)
    && (j < |segs| ==> segs[j] != "" && SegmentError(known, at + PatternOf(segs[i..j]), segs[j], j == |segs| - 1).Some?)
  }

  /** Which error a segment gets, from its text and the names known in its place. */
  lemma {:induction false} ErrorOfSegment(known: set<Pattern>, at: Pattern, seg: string, isLast: bool)
    requires seg != ""
    ensures var e := SegmentError(known, at, seg, isLast);
            && (e == Some(EmptyParamName) <==> seg == ":")
            && (e == Some(ParamNameConflict) <==>
                  seg[0] == ':' && seg != ":" && exists other :: other != seg[1..] && at + [Par(other)] in known)
            && (e == Some(CatchAllNotLast) <==> seg[0] == '*' && !isLast)
            && (e == Some(EmptyCatchAllName) <==> seg == "*" && isLast)
            && (e == Some(CatchAllNameConflict) <==>
                  seg[0] == '*' && seg != "*" && isLast && exists other :: other != seg[1..] && at + [Rest(other)] in known)
            && e != Some(BadRouteIndex) && e != Some(DuplicateRoute)
  {
    assert seg == [seg[0]] + seg[1..];
  }

  lemma {:induction false} PatternOfLast(segs: seq<string>, i: nat, j: nat)
    requires i < j <= |segs|
    ensures PatternOf(segs[i..j]) == (if segs[i] == "" then [] else [Classify(segs[i])]) + PatternOf(segs[i + 1..j])
  {
    assert segs[i..j][0] == segs[i] && segs[i..j][1..] == segs[i + 1..j];
  }

  lemma {:induction false} KeptFrom(known: set<Pattern>, routes: map<Pattern, int>, segs: seq<string>, i: nat, at: Pattern) returns (j: nat)
    requires i <= |segs| && JudgeFrom(known, routes, segs, i, at).Rejected?
    ensures FirstRefused(known, segs, i, at, j)
    ensures var verdict := JudgeFrom(known, routes, segs, i, at);
            && verdict.kept == at + PatternOf(segs[i..j])
            && (j == |segs| ==> verdict.error == DuplicateRoute && verdict.kept in routes)
            && (j < |segs| ==> Some(verdict.error) == SegmentError(known, verdict.kept, segs[j], j == |segs| - 1))
    decreases |segs| - i
  {
    hide SegmentError, PatternOf, Classify;
    Nothing(segs, i);
    assert at + [] == at;
    if i == |segs| {
      j := i;
    } else if segs[i] != "" && SegmentError(known, at, segs[i], i == |segs| - 1).Some? {
      j := i;
    } else {
      var next := at + if segs[i] == "" then [] else [Classify(segs[i])];
      assert segs[i] == "" ==> next == at;
      j := KeptFrom(known, routes, segs, i + 1, next);
      forall m | i < m <= j ensures at + PatternOf(segs[i..m]) == next + PatternOf(segs[i + 1..m]) {
        PatternOfLast(segs, i, m);
        var first := if segs[i] == "" then [] else [Classify(segs[i])];
        assert at + (first + PatternOf(segs[i + 1..m])) == (at + first) + PatternOf(segs[i + 1..m]);
      }
    }
  }

  lemma {:induction false} Nothing(segs: seq<string>, i: nat)
    requires i <= |segs|
    ensures PatternOf(segs[i..i]) == []
  {
  }

  /**
   What a rejected insert leaves: nothing for a bad index; otherwise the nodes
   of the segments before the first refused one, and the whole pattern when
   only the route itself was there already.
   */
  lemma {:induction false} RejectedKeeps(known: set<Pattern>, routes: map<Pattern, int>, segs: seq<string>, routeIdx: int) returns (j: nat)
    requires Judge(known, routes, segs, routeIdx).Rejected?
    ensures var verdict := Judge(known, routes, segs, routeIdx);
            if routeIdx <= 0 then verdict == Rejected(BadRouteIndex, [])
            else
              && FirstRefused(known, segs, 0, [], j)
              && verdict.kept == PatternOf(segs[..j])
              && (j == |segs| ==> verdict.error == DuplicateRoute && verdict.kept in routes)
              && (j < |segs| ==> Some(verdict.error) == SegmentError(known, verdict.kept, segs[j], j == |segs| - 1))
  {
    j := 0;
    if routeIdx > 0 {
      j := KeptFrom(known, routes, segs, 0, []);
      assert segs[0..j] == segs[..j] && [] + PatternOf(segs[..j]) == PatternOf(segs[..j]);
    }
  }

  /** What an insert adds to the nodes: its whole pattern, or what its rejection kept. */
  ghost function Left(t: RouteTable, ins: Insertion): Pattern {
    match VerdictOn(t, ins)
    case Accepted(p) => p
    case Rejected(_, kept) => kept
  }

  /** The patterns with a node are exactly the prefixes of what the inserts so far left. */
  lemma {:induction false} KnownIs(inserts: seq<Insertion>, n: nat, p: Pattern)
    requires n <= |inserts|
    ensures p in AfterFirst(inserts, n).known <==>
              p == [] || exists k :: 0 <= k < n && p <= Left(AfterFirst(inserts, k), inserts[k])
  {
    hide Left, AfterInsert, PrefixSet;
    if n > 0 {
      var before := AfterFirst(inserts, n - 1);
      KnownIs(inserts, n - 1, p);
      AddsLeft(before, inserts[n - 1]);
      PrefixSetIs(Left(before, inserts[n - 1]), p);
    }
  }

  lemma {:induction false} AddsLeft(t: RouteTable, ins: Insertion)
    ensures AfterInsert(t, ins).known == t.known + PrefixSet(Left(t, ins))
  {
    hide VerdictOn, PrefixSet;
  }

  lemma {:induction false} PrefixSetIs(p: Pattern, q: Pattern)
    ensures q in PrefixSet(p) <==> q <= p
  {
    assert q <= p ==> q == p[..|q|];
  }

  ghost predicate PrefixClosed(known: set<Pattern>) {
    [] in known && forall p, q :: p in known && q <= p ==> q in known
  }

  lemma {:induction false} AlwaysPrefixClosed(inserts: seq<Insertion>, n: nat)
    requires n <= |inserts|
    ensures PrefixClosed(AfterFirst(inserts, n).known)
  {
    hide VerdictOn, AfterFirst, Left;
    KnownIs(inserts, n, []);
    forall p, q | p in AfterFirst(inserts, n).known && q <= p ensures q in AfterFirst(inserts, n).known {
      KnownIs(inserts, n, p);
      KnownIs(inserts, n, q);
      if p != [] {
        var k :| 0 <= k < n && p <= Left(AfterFirst(inserts, k), inserts[k]);
        assert q <= Left(AfterFirst(inserts, k), inserts[k]);
      }
    }
  }

  /**
   A rejected insert changes nothing exactly when the nodes it leaves were there
   before; in a table that inserts built, exactly when the last of them was.
   */
  lemma {:induction false} HarmlessIff(t: RouteTable, ins: Insertion)
    requires VerdictOn(t, ins).Rejected?
    ensures AfterInsert(t, ins) == t <==> PrefixSet(VerdictOn(t, ins).kept) <= t.known
    ensures PrefixClosed(t.known) ==> (AfterInsert(t, ins) == t <==> VerdictOn(t, ins).kept in t.known)
  {
    hide VerdictOn;
    var kept := VerdictOn(t, ins).kept;
    PrefixSetIs(kept, kept);
    forall q | q in PrefixSet(kept) && PrefixClosed(t.known) && kept in t.known ensures q in t.known {
      PrefixSetIs(kept, q);
    }
  }

  /** Leaving such an insert out of a run changes no later table. */
  lemma {:induction false} HarmlessDropped(inserts: seq<Insertion>, k: nat, n: nat)
    requires k < n <= |inserts|
    requires VerdictOn(AfterFirst(inserts, k), inserts[k]).Rejected?
    requires VerdictOn(AfterFirst(inserts, k), inserts[k]).kept in AfterFirst(inserts, k).known
    ensures AfterFirst(inserts[..k] + inserts[k + 1..], n - 1) == AfterFirst(inserts, n)
    decreases n
  {
    hide VerdictOn, AfterInsert;
    var fewer := inserts[..k] + inserts[k + 1..];
    if n == k + 1 {
      AlwaysPrefixClosed(inserts, k);
      HarmlessIff(AfterFirst(inserts, k), inserts[k]);
      SameStart(inserts, fewer, k);
    } else {
      HarmlessDropped(inserts, k, n - 1);
      assert fewer[n - 2] == inserts[n - 1];
    }
  }

  lemma {:induction false} SameStart(a: seq<Insertion>, b: seq<Insertion>, n: nat)
    requires n <= |a| && n <= |b| && a[..n] == b[..n]
    ensures AfterFirst(a, n) == AfterFirst(b, n)
  {
    hide AfterInsert;
    if n > 0 {
      assert a[n - 1] == a[..n][n - 1] && b[n - 1] == b[..n][n - 1];
      assert a[..n - 1] == a[..n][..n - 1] && b[..n - 1] == b[..n][..n - 1];
      SameStart(a, b, n - 1);
    }
  }

  /** A pattern calls some parameter or catch-all otherwise than these nodes do. */
  ghost predicate NamedOtherwise(nodes: set<Pattern>, p: Pattern) {
    exists k :: 0 <= k < |p| && NamedOtherwiseAt(nodes, p, k)
  }

  ghost predicate NamedOtherwiseAt(nodes: set<Pattern>, p: Pattern, k: nat)
    requires k < |p|
  {
    match p[k]
    case Lit(_) => false
    case Par(name) => ParamClash(nodes, p[..k], name)
    case Rest(name) => RestClash(nodes, p[..k], name)
  }

  lemma {:induction false} AgreeIffNotOtherwise(nodes: set<Pattern>, p: Pattern)
    ensures NamesAgree(nodes, p) <==> !NamedOtherwise(nodes, p)
  {
    forall k | 0 <= k < |p|
      ensures NamedOtherwiseAt(nodes, p, k) <==>
                (p[k].Par? && ParamClash(nodes, p[..k], p[k].name)) || (p[k].Rest? && RestClash(nodes, p[..k], p[k].name))
    {
    }
  }

  lemma {:induction false} AgreeWithBoth(a: set<Pattern>, b: set<Pattern>, p: Pattern)
    ensures NamesAgree(a + b, p) <==> NamesAgree(a, p) && NamesAgree(b, p)
  {
    forall k: nat, name: string | k < |p|
      ensures ParamClash(a + b, p[..k], name) <==> ParamClash(a, p[..k], name) || ParamClash(b, p[..k], name)
      ensures RestClash(a + b, p[..k], name) <==> RestClash(a, p[..k], name) || RestClash(b, p[..k], name)
    {
    }
  }

  /**
   Which later inserts a rejection makes fail: an insert that would have been
   accepted is refused after it exactly when it names a parameter or catch-all
   otherwise than a node the rejection left and that was not there before. No
   insert is accepted because of a rejection.
   */
  lemma {:induction false} RefusedBecauseOf(t: RouteTable, bad: Insertion, later: Insertion)
    requires VerdictOn(t, bad).Rejected?
    ensures var p := PatternOf(SplitPath(later.pattern));
            var left := PrefixSet(VerdictOn(t, bad).kept) - t.known;
            && (VerdictOn(t, later).Accepted? ==> (VerdictOn(AfterInsert(t, bad), later).Rejected? <==> NamedOtherwise(left, p)))
            && (VerdictOn(AfterInsert(t, bad), later).Accepted? ==> VerdictOn(t, later).Accepted?)
  {
    hide Judge, SplitPath, NamesAgree, NamedOtherwise, PrefixSet;
    var segs := SplitPath(later.pattern);
    var p := PatternOf(segs);
    var after := AfterInsert(t, bad);
    var left := PrefixSet(VerdictOn(t, bad).kept) - t.known;
    assert after.known == t.known + left && after.routes == t.routes;
    AcceptedIff(t.known, t.routes, segs, later.routeIdx);
    AcceptedIff(after.known, after.routes, segs, later.routeIdx);
    AgreeWithBoth(t.known, left, p);
    AgreeIffNotOtherwise(left, p);
  }
}

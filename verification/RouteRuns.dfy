/**
 Whole runs of the router: any list of inserts into an empty trie, rejected
 ones included, followed by a lookup.
 */
module RouteRuns {
  import opened RoutePaths
  import opened RoutePatterns
  import opened RouteTrie

  datatype Insertion = Insertion(pattern: string, routeIdx: int)

  /** What inserts can observe: patterns that have a node, and accepted patterns with their index. */
  datatype RouteTable = RouteTable(known: set<Pattern>, routes: map<Pattern, int>)

  ghost function VerdictOn(t: RouteTable, ins: Insertion): Verdict {
    Judge(t.known, t.routes, SplitPath(ins.pattern), ins.routeIdx)
  }

  ghost function AfterInsert(t: RouteTable, ins: Insertion): RouteTable {
    match VerdictOn(t, ins)
    case Accepted(p) => RouteTable(t.known + PrefixSet(p), t.routes[p := ins.routeIdx])
    case Rejected(_, kept) => t.(known := t.known + PrefixSet(kept))
  }

  /** The table after the first n inserts of a run. */
  ghost function AfterFirst(inserts: seq<Insertion>, n: nat): RouteTable
    requires n <= |inserts|
  {
    if n == 0 then RouteTable({[]}, map[]) else AfterInsert(AfterFirst(inserts, n - 1), inserts[n - 1])
  }

  ghost function AfterAll(inserts: seq<Insertion>): RouteTable {
    AfterFirst(inserts, |inserts|)
  }

  /** Insert k of the run was accepted as p. */
  ghost predicate AcceptedAs(inserts: seq<Insertion>, k: nat, p: Pattern)
    requires k < |inserts|
  {
    VerdictOn(AfterFirst(inserts, k), inserts[k]) == Accepted(p)
  }

  /**
   The route table after a run holds exactly the accepted patterns, each with
   the index of its one accepted insert: later inserts never displace it.
   */
  lemma {:induction false} RoutesAreAccepted(inserts: seq<Insertion>, p: Pattern)
    ensures p in AfterAll(inserts).routes <==> exists k :: 0 <= k < |inserts| && AcceptedAs(inserts, k, p)
    ensures forall k :: 0 <= k < |inserts| && AcceptedAs(inserts, k, p) ==>
              p in AfterAll(inserts).routes && AfterAll(inserts).routes[p] == inserts[k].routeIdx > 0
  {
    hide VerdictOn;
    if p in AfterAll(inserts).routes {
      var k := AcceptedInsert(inserts, |inserts|, p);
    }
    forall k | 0 <= k < |inserts| && AcceptedAs(inserts, k, p)
      ensures p in AfterAll(inserts).routes && AfterAll(inserts).routes[p] == inserts[k].routeIdx > 0
    {
      OneInsert(AfterFirst(inserts, k), inserts[k], p);
      AcceptedStays(inserts, k + 1, |inserts|, p);
    }
  }

  lemma {:induction false} AcceptedInsert(inserts: seq<Insertion>, m: nat, p: Pattern) returns (k: nat)
    requires m <= |inserts| && p in AfterFirst(inserts, m).routes
    ensures k < m && AcceptedAs(inserts, k, p)
  {
    hide VerdictOn, AfterInsert;
    assert m > 0;
    var t := AfterFirst(inserts, m - 1);
    OneInsert(t, inserts[m - 1], p);
    if p in t.routes {
      k := AcceptedInsert(inserts, m - 1, p);
    } else {
      k := m - 1;
    }
  }

  lemma {:induction false} AcceptedStays(inserts: seq<Insertion>, k: nat, m: nat, p: Pattern)
    requires k <= m <= |inserts| && p in AfterFirst(inserts, k).routes
    ensures p in AfterFirst(inserts, m).routes && AfterFirst(inserts, m).routes[p] == AfterFirst(inserts, k).routes[p]
  {
    hide VerdictOn;
    if k < m {
      AcceptedStays(inserts, k, m - 1, p);
      InsertKeeps(AfterFirst(inserts, m - 1), inserts[m - 1], p);
    }
  }

  lemma {:induction false} InsertKeeps(t: RouteTable, ins: Insertion, p: Pattern)
    requires p in t.routes
    ensures p in AfterInsert(t, ins).routes && AfterInsert(t, ins).routes[p] == t.routes[p]
  {
    AcceptedIff(t.known, t.routes, SplitPath(ins.pattern), ins.routeIdx);
  }

  lemma {:induction false} OneInsert(t: RouteTable, ins: Insertion, p: Pattern)
    ensures p in AfterInsert(t, ins).routes <==> p in t.routes || VerdictOn(t, ins) == Accepted(p)
    ensures VerdictOn(t, ins) == Accepted(p) ==> p !in t.routes && AfterInsert(t, ins).routes[p] == ins.routeIdx > 0
  {
    AcceptedIff(t.known, t.routes, SplitPath(ins.pattern), ins.routeIdx);
  }

  /** Insert everything, then look a path up: the answer is the best accepted pattern and its captures. */
  method BuildAndMatch(inserts: seq<Insertion>, path: string) returns (r: int, captures: seq<Param>, ghost hit: Pattern)
    ensures r >= 0 ==> Best(hit, AfterAll(inserts).routes, SplitPath(path)) && r == AfterAll(inserts).routes[hit] - 1
    ensures r >= 0 ==> captures == Bindings(hit, SplitPath(path)) && NamesOf(captures) == CaptureNames(hit)
    ensures r < 0 ==> r == -1 && captures == [] && forall p :: p in AfterAll(inserts).routes ==> !Matches(p, SplitPath(path))
  {
    hide Judge, Best, Matches, Bindings, PrefixSet, SplitPath, Trie.Valid, Trie.Known;
    var trie := new Trie();
    var i := 0;
    while i < |inserts|
      invariant 0 <= i <= |inserts|
      invariant fresh(trie) && trie.Valid()
      invariant RouteTable(trie.Known(), trie.routes) == AfterFirst(inserts, i)
    {
      var _ := trie.Insert(inserts[i].pattern, inserts[i].routeIdx);
      i := i + 1;
    }
    var params := new Captures();
    ghost var entered;
    r, hit, entered := trie.Match(path, params);
    captures := params.items;
  }

  // A rejected insert can make a later one fail: after ":a/*" is refused for its
  // empty catch-all name, ":b" clashes with the parameter node left behind,
  // although no route was ever accepted.
  lemma {:induction false} RejectedInsertLeavesName()
    ensures var t := AfterAll([Insertion(":a/*", 1)]);
            t.routes == map[] && VerdictOn(t, Insertion(":b", 2)) == Rejected(ParamNameConflict, [])
  {
    hide VerdictOn;
    var inserts := [Insertion(":a/*", 1)];
    var empty := AfterFirst(inserts, 0);
    EmptyCatchAllRefused();
    var t := AfterInsert(empty, inserts[0]);
    assert AfterAll(inserts) == t;
    var left: Pattern := [Par("a")];
    assert left[..1] == left;
    assert left in PrefixSet(left);
    OtherNameRefused(t);
  }

  /** ":a/" followed by a nameless catch-all is refused after its parameter node exists. */
  lemma {:induction false} EmptyCatchAllRefused()
    ensures VerdictOn(RouteTable({[]}, map[]), Insertion(":a/*", 1)) == Rejected(EmptyCatchAllName, [Par("a")])
  {
    hide Split;
    SplitHead(":a", "*");
    SplitHead("*", "");
    assert ":a" + "/" + "*" == ":a/*";
    var segs := SplitPath(":a/*");
    assert segs == [":a", "*"];
    var known: set<Pattern> := {[]};
    var root, at: Pattern := [], [Par("a")];
    forall s: Segment ensures root + [s] !in known {
      assert |root + [s]| == 1;
    }
    assert root + [Par("a")] == at;
    assert ":a"[1..] == "a" && "*"[1..] == "";
    assert JudgeFrom(known, map[], segs, 1, at) == Rejected(EmptyCatchAllName, at);
  }

  lemma {:induction false} OtherNameRefused(t: RouteTable)
    requires [Par("a")] in t.known
    ensures VerdictOn(t, Insertion(":b", 2)) == Rejected(ParamNameConflict, [])
  {
    hide Split;
    SplitHead(":b", "");
    var root: Pattern := [];
    assert SplitPath(":b") == [":b"] && ":b"[1..] == "b";
    assert root + [Par("a")] == [Par("a")];
    assert "a"[0] != "b"[0];
    assert ParamClash(t.known, root, "b");
  }
}

/**
 The route trie: Insert grows the node array in place, Match walks it with
 backtracking and a shared capture buffer.
 */
module RouteTrie {
  import opened Options
  import opened RoutePaths
  import opened RoutePatterns
  import opened TrieNodes
  import opened Sequences

  /** The captures slice a caller passes by pointer. */
  class Captures {
    var items: seq<Param>
    /** The nodes that calls collecting here were made on, in call order. */
    ghost var entered: seq<nat>

    constructor ()
      ensures items == [] && entered == []
    {
      items, entered := [], [];
    }
  }

  ghost function PathSet(paths: seq<Pattern>): set<Pattern> {
    set i | 0 <= i < |paths| :: paths[i]
  }

  ghost function PrefixSet(p: Pattern): set<Pattern> {
    set k | 0 <= k <= |p| :: p[..k]
  }

  /** The nodes entered all lie at or below `top`. */
  ghost predicate AllBelow(paths: seq<Pattern>, top: Pattern, entered: seq<nat>) {
    forall i :: 0 <= i < |entered| ==> entered[i] < |paths| && top <= paths[entered[i]]
  }

  class Trie {
    var nodes: seq<TrieNode>
    ghost var paths: seq<Pattern>
    ghost var parent: seq<nat>
    ghost var routes: map<Pattern, int>

    ghost predicate Valid()
      reads this
    {
      && IsTree(nodes, paths, parent)
      && CatchAllsRouted(nodes)
      && RoutesAgree(nodes, paths, routes)
    }

    /** Every pattern that has a node, including prefixes and leftovers of rejected inserts. */
    ghost function Known(): set<Pattern>
      reads this
    {
      PathSet(paths)
    }

    constructor ()
      ensures Valid() && Known() == {[]} && routes == map[]
    {
      nodes := [NewNode(LiteralNode, "")];
      paths := [[]];
      parent := [0];
      routes := map[];
      new;
      assert paths[0] in PathSet(paths);
    }

    /** Append a node and link it below cursor. */
    method AddNode(cursor: nat, kind: NodeKind, text: string) returns (newIdx: nat)
      requires IsTree(nodes, paths, parent) && RoutesAgree(nodes, paths, routes)
      requires cursor < |nodes| && !nodes[cursor].kind.CatchAllNode?
      requires kind.LiteralNode? ==> text !in nodes[cursor].literalChildren
      requires kind.ParamNode? ==> nodes[cursor].paramChild == 0
      requires kind.CatchAllNode? ==> nodes[cursor].catchAllChild == 0
      requires forall j :: 0 <= j < |nodes| && nodes[j].kind.CatchAllNode? ==> nodes[j].routeIdx > 0
      modifies this
      ensures IsTree(nodes, paths, parent) && RoutesAgree(nodes, paths, routes)
      ensures routes == old(routes)
      ensures newIdx == old(|nodes|) && |nodes| == newIdx + 1 && nodes[newIdx] == NewNode(kind, text)
      ensures paths == old(paths) + [old(paths[cursor]) + [StepOf(nodes[newIdx])]]
      ensures forall j :: 0 <= j < |nodes| && j != newIdx && nodes[j].kind.CatchAllNode? ==> nodes[j].routeIdx > 0
    {
      hide HangsFrom, LinksOk, RoutesAgree;
      WithChildIsTree(nodes, paths, parent, cursor, kind, text);
      newIdx := |nodes|;
      ghost var nodes0, paths0 := nodes, paths;
      nodes := WithChild(nodes, cursor, kind, text);
      paths := paths + [paths[cursor] + [StepOf(NewNode(kind, text))]];
      parent := parent + [cursor];
      RoutesKept(nodes0, paths0, nodes, paths, routes);
    }

    /** One turn of the insertion loop: follow or create the child for seg. */
    method Descend(cursor: nat, seg: string, isLast: bool, ghost known0: set<Pattern>) returns (err: Option<InsertError>, next: nat)
      requires seg != ""
      requires IsTree(nodes, paths, parent) && RoutesAgree(nodes, paths, routes) && CatchAllsRouted(nodes)
      requires cursor < |nodes| && !nodes[cursor].kind.CatchAllNode?
      requires Known() == known0 + PrefixSet(paths[cursor])
      modifies this
      ensures IsTree(nodes, paths, parent) && RoutesAgree(nodes, paths, routes)
      ensures routes == old(routes)
      ensures err == SegmentError(known0, old(paths[cursor]), seg, isLast)
      ensures err.Some? ==> CatchAllsRouted(nodes) && Known() == old(Known())
      ensures err.None? ==>
        && next < |nodes| && paths[next] == old(paths[cursor]) + [Classify(seg)]
        && Known() == known0 + PrefixSet(paths[next])
        && nodes[next].kind.CatchAllNode? == (seg[0] == '*')
        && forall j :: 0 <= j < |nodes| && j != next && nodes[j].kind.CatchAllNode? ==> nodes[j].routeIdx > 0
    {
      hide HangsFrom, RoutesAgree, PrefixSet;
      next := cursor;
      ghost var at, step, paths0 := paths[cursor], Classify(seg), paths;
      KnownStep(known0, at);
      ClashesHere(nodes, paths, parent, cursor, known0);
      ChildAlongCorrect(nodes, paths, parent, cursor, step);
      assert LinksOk(nodes, parent, cursor);
      if seg[0] == ':' {
        var name := seg[1..];
        if name == "" {
          return Some(EmptyParamName), cursor;
        }
        if nodes[cursor].paramChild == 0 {
          next := AddNode(cursor, ParamNode, name);
        } else {
          if nodes[nodes[cursor].paramChild].text != name {
            return Some(ParamNameConflict), cursor;
          }
          next := nodes[cursor].paramChild;
        }
      } else if seg[0] == '*' {
        if !isLast {
          return Some(CatchAllNotLast), cursor;
        }
        var name := seg[1..];
        if name == "" {
          return Some(EmptyCatchAllName), cursor;
        }
        if nodes[cursor].catchAllChild != 0 {
          if nodes[nodes[cursor].catchAllChild].text != name {
            return Some(CatchAllNameConflict), cursor;
          }
          next := nodes[cursor].catchAllChild;
        } else {
          next := AddNode(cursor, CatchAllNode, name);
        }
      } else {
        if seg in nodes[cursor].literalChildren {
          next := nodes[cursor].literalChildren[seg];
        } else {
          next := AddNode(cursor, LiteralNode, seg);
        }
      }
      KnownGrows(paths0, paths, known0, at, step);
      return None, next;
    }

    method Insert(pattern: string, routeIdx: int) returns (err: Option<InsertError>)
      requires Valid()
      modifies this
      ensures Valid()
      ensures var verdict := Judge(old(Known()), old(routes), SplitPath(pattern), routeIdx);
              match verdict
              case Accepted(p) => err == None && routes == old(routes)[p := routeIdx] && Known() == old(Known()) + PrefixSet(p)
              case Rejected(e, kept) => err == Some(e) && routes == old(routes) && Known() == old(Known()) + PrefixSet(kept)
    {
      hide PrefixSet, SplitPath, Split, HangsFrom, LinksOk;
      KnowsRoot(nodes, paths, parent);
      if routeIdx <= 0 {
        return Some(BadRouteIndex);
      }
      var segs := SplitPath(pattern);
      ghost var known0 := Known();
      ghost var verdict := Judge(known0, routes, segs, routeIdx);
      var cursor: nat := 0;
      var i := 0;
      while i < |segs|
        invariant 0 <= i <= |segs|
        invariant IsTree(nodes, paths, parent) && RoutesAgree(nodes, paths, routes)
        invariant cursor < |nodes|
        invariant forall j :: 0 <= j < |nodes| && j != cursor && nodes[j].kind.CatchAllNode? ==> nodes[j].routeIdx > 0
        invariant nodes[cursor].kind.CatchAllNode? ==> i == |segs|
        invariant routes == old(routes)
        invariant Known() == known0 + PrefixSet(paths[cursor])
        invariant verdict == JudgeFrom(known0, routes, segs, i, paths[cursor])
      {
        if segs[i] == "" {
          i := i + 1;
          continue;
        }
        err, cursor := Descend(cursor, segs[i], i == |segs| - 1, known0);
        if err.Some? {
          return;
        }
        i := i + 1;
      }
      RoutedIff(nodes, paths, parent, routes, cursor);
      if nodes[cursor].routeIdx != 0 {
        return Some(DuplicateRoute);
      }
      MarkRouted(nodes, paths, parent, routes, cursor, routeIdx);
      nodes := nodes[cursor := nodes[cursor].(routeIdx := routeIdx)];
      routes := routes[paths[cursor] := routeIdx];
      return None;
    }

    /** The catch-all child takes the whole remainder, when literal, parameter and exact end did not. */
    method TryCatchAll(nodeIdx: nat, value: string, ghost rest: seq<string>, params: Captures) returns (r: int, ghost hit: Pattern)
      requires Valid() && nodeIdx < |nodes| && value == Join(rest)
      requires rest == [] ==> paths[nodeIdx] !in routes
      requires rest != [] ==> NoneThrough(paths[nodeIdx], routes, rest, 0) && NoneThrough(paths[nodeIdx], routes, rest, 1)
      modifies params
      ensures r >= -1
      ensures params.entered == old(params.entered)
      ensures r >= 0 ==> Wins(paths[nodeIdx], hit, routes, rest, r) && params.items == old(params.items) + Bindings(hit, rest)
      ensures r == -1 ==> params.items == old(params.items) && NothingBelow(paths[nodeIdx], routes, rest)
    {
      assert LinksOk(nodes, parent, nodeIdx);
      hit := [];
      var child := nodes[nodeIdx].catchAllChild;
      if child != 0 {
        if nodes[child].routeIdx > 0 {
          RestWins(nodes, paths, parent, routes, nodeIdx, rest);
          hit := [Rest(nodes[child].text)];
          params.items := params.items + [Param(nodes[child].text, value)];
          return nodes[child].routeIdx - 1, hit;
        }
      }
      RestFails(nodes, paths, parent, routes, nodeIdx, rest);
      return -1, hit;
    }

    /** The literal child for segs[depth], if there is one. */
    method TryLiteral(nodeIdx: nat, segs: seq<string>, depth: nat, params: Captures)
      returns (r: int, ghost hit: Pattern, ghost entered: seq<nat>)
      requires Valid() && nodeIdx < |nodes| && depth < |segs|
      modifies params
      ensures r >= -1
      ensures r >= 0 ==> Wins(paths[nodeIdx], hit, routes, segs[depth..], r)
      ensures r >= 0 ==> params.items == old(params.items) + Bindings(hit, segs[depth..])
      ensures r == -1 ==> params.items == old(params.items) && NoneThrough(paths[nodeIdx], routes, segs[depth..], 0)
      ensures params.entered == old(params.entered) + entered
      ensures Distinct(entered) && AllBelow(paths, paths[nodeIdx] + [Lit(segs[depth])], entered)
      decreases |segs| - depth, 0
    {
      hide Wins, NothingBelow, RoutesAgree, NoneThrough;
      ghost var rest := segs[depth..];
      assert rest[0] == segs[depth] && rest[1..] == segs[depth + 1..];
      assert LinksOk(nodes, parent, nodeIdx);
      r, hit, entered := -1, [], [];
      ChildAlongCorrect(nodes, paths, parent, nodeIdx, Lit(segs[depth]));
      if segs[depth] in nodes[nodeIdx].literalChildren {
        r, hit, entered := Walk(nodes[nodeIdx].literalChildren[segs[depth]], segs, depth + 1, params);
        if r >= 0 {
          LiteralWins(paths[nodeIdx], routes, rest, hit, r);
          hit := [Lit(segs[depth])] + hit;
          return r, hit, entered;
        }
      }
      LiteralFails(nodes, paths, parent, routes, nodeIdx, rest);
    }

    /** The parameter child captures segs[depth]; a dead end below it drops the capture again. */
    method TryParam(nodeIdx: nat, segs: seq<string>, depth: nat, params: Captures)
      returns (r: int, ghost hit: Pattern, ghost entered: seq<nat>)
      requires Valid() && nodeIdx < |nodes| && depth < |segs|
      requires NoneThrough(paths[nodeIdx], routes, segs[depth..], 0)
      modifies params
      ensures r >= -1
      ensures r >= 0 ==> Wins(paths[nodeIdx], hit, routes, segs[depth..], r)
      ensures r >= 0 ==> params.items == old(params.items) + Bindings(hit, segs[depth..])
      ensures r == -1 ==> params.items == old(params.items) && NoneThrough(paths[nodeIdx], routes, segs[depth..], 1)
      ensures params.entered == old(params.entered) + entered
      ensures nodes[nodeIdx].paramChild == 0 ==> entered == []
      ensures 0 < nodes[nodeIdx].paramChild < |nodes| ==>
                AllBelow(paths, paths[nodeIdx] + [Par(nodes[nodes[nodeIdx].paramChild].text)], entered)
      ensures Distinct(entered)
      decreases |segs| - depth, 0
    {
      ghost var rest := segs[depth..];
      assert rest[0] == segs[depth] && rest[1..] == segs[depth + 1..];
      assert LinksOk(nodes, parent, nodeIdx);
      r, hit, entered := -1, [], [];
      var child := nodes[nodeIdx].paramChild;
      if child != 0 {
        var name := nodes[child].text;
        ChildAlongCorrect(nodes, paths, parent, nodeIdx, Par(name));
        params.items := params.items + [Param(name, segs[depth])];
        r, hit, entered := Walk(child, segs, depth + 1, params);
        if r >= 0 {
          ParamWins(nodes, paths, parent, routes, nodeIdx, rest, hit, r);
          hit := [Par(name)] + hit;
          return r, hit, entered;
        }
        params.items := params.items[..|params.items| - 1];
      }
      ParamFails(nodes, paths, parent, routes, nodeIdx, rest);
    }

    /**
     Serve segs[depth..] from the subtree below nodeIdx. `hit` is the rest of
     the winning pattern and `entered` the nodes this call and the calls below
     it noted in params, in call order.
     */
    method Walk(nodeIdx: nat, segs: seq<string>, depth: nat, params: Captures)
      returns (r: int, ghost hit: Pattern, ghost entered: seq<nat>)
      requires Valid() && nodeIdx < |nodes| && depth <= |segs|
      modifies params
      ensures r >= -1
      ensures r >= 0 ==> Wins(paths[nodeIdx], hit, routes, segs[depth..], r)
      ensures r >= 0 ==> params.items == old(params.items) + Bindings(hit, segs[depth..])
      ensures r == -1 ==> params.items == old(params.items) && NothingBelow(paths[nodeIdx], routes, segs[depth..])
      ensures params.entered == old(params.entered) + entered && entered != [] && entered[0] == nodeIdx
      ensures Distinct(entered) && AllBelow(paths, paths[nodeIdx], entered)
      decreases |segs| - depth, 1
    {
      hide Wins, NothingBelow, NoneThrough, Distinct, AllBelow, RoutesAgree, CatchAllsRouted;
      ghost var rest := segs[depth..];
      hit, entered := [], [nodeIdx];
      params.entered := params.entered + [nodeIdx];
      EnteredOne(paths, nodeIdx);
      assert LinksOk(nodes, parent, nodeIdx);
      RoutedIff(nodes, paths, parent, routes, nodeIdx);
      var node := nodes[nodeIdx];
      if depth == |segs| {
        assert rest == [];
        if node.routeIdx > 0 {
          EndWins(paths[nodeIdx], routes, rest);
          return node.routeIdx - 1, hit, entered;
        }
        r, hit := TryCatchAll(nodeIdx, "", rest, params);
        return r, hit, entered;
      }
      ghost var sub: seq<nat>;

      // 1. Literal child.
      r, hit, sub := TryLiteral(nodeIdx, segs, depth, params);
      JoinEntered(paths, paths[nodeIdx], Lit(segs[depth]), entered, sub);
      entered := entered + sub;
      if r >= 0 {
        return r, hit, entered;
      }

      // 2. Param child.
      r, hit, sub := TryParam(nodeIdx, segs, depth, params);
      if nodes[nodeIdx].paramChild != 0 {
        JoinEntered(paths, paths[nodeIdx], Par(nodes[nodes[nodeIdx].paramChild].text), entered, sub);
      } else {
        assert entered + sub == entered;
      }
      entered := entered + sub;
      if r >= 0 {
        return r, hit, entered;
      }

      // 3. Catch-all child: captures everything from depth onward.
      r, hit := TryCatchAll(nodeIdx, Join(segs[depth..]), rest, params);
    }

    /** The route for a path, -1 if none; captures are appended to params. */
    method Match(path: string, params: Captures) returns (r: int, ghost hit: Pattern, ghost entered: seq<nat>)
      requires Valid()
      modifies params
      ensures r >= -1
      ensures r >= 0 ==> Best(hit, routes, SplitPath(path)) && r == routes[hit] - 1
      ensures r >= 0 ==> params.items == old(params.items) + Bindings(hit, SplitPath(path))
      ensures r >= 0 ==> NamesOf(params.items) == NamesOf(old(params.items)) + CaptureNames(hit)
      ensures r == -1 ==> params.items == old(params.items) && forall q :: q in routes ==> !Matches(q, SplitPath(path))
      ensures params.entered == old(params.entered) + entered && entered != [] && entered[0] == 0
      ensures Distinct(entered) && |entered| <= |nodes|
    {
      var segs := SplitPath(path);
      assert segs[0..] == segs;
      r, hit, entered := Walk(0, segs, 0, params);
      assert forall q: Pattern :: [] + q == q;
      if r >= 0 {
        BindingNames(hit, segs);
      }
      DistinctIndices(entered, |nodes|);
    }
  }

  lemma {:induction false} EnteredOne(paths: seq<Pattern>, i: nat)
    requires i < |paths|
    ensures Distinct([i]) && AllBelow(paths, paths[i], [i])
  {
  }

  /** base + hit is the accepted pattern for r, and the best continuation of base for rest. */
  ghost predicate Wins(base: Pattern, hit: Pattern, routes: map<Pattern, int>, rest: seq<string>, r: int) {
    && base + hit in routes && routes[base + hit] == r + 1
    && Matches(hit, rest)
    && forall q: Pattern :: base + q in routes && Matches(q, rest) && q != hit ==> Before(hit, q)
  }

  ghost predicate NothingBelow(base: Pattern, routes: map<Pattern, int>, rest: seq<string>) {
    forall q: Pattern :: base + q in routes ==> !Matches(q, rest)
  }

  /** No accepted pattern reaches rest from base through a segment of this rank. */
  ghost predicate NoneThrough(base: Pattern, routes: map<Pattern, int>, rest: seq<string>, rank: nat) {
    forall q: Pattern :: q != [] && base + q in routes && Matches(q, rest) ==> Rank(q[0]) != rank
  }

  /* ---- lemmas about one node used by Walk ---- */

  lemma {:induction false} EndWins(base: Pattern, routes: map<Pattern, int>, rest: seq<string>)
    requires base in routes && rest == []
    ensures Wins(base, [], routes, rest, routes[base] - 1)
  {
    var hit: Pattern := [];
    assert base + hit == base;
  }

  lemma {:induction false} RouteOf(nodes: seq<TrieNode>, paths: seq<Pattern>, parent: seq<nat>, routes: map<Pattern, int>, p: Pattern) returns (i: nat)
    requires IsTree(nodes, paths, parent) && RoutesAgree(nodes, paths, routes) && p in routes
    ensures i < |nodes| && paths[i] == p && nodes[i].routeIdx == routes[p] > 0
  {
    i :| 0 <= i < |nodes| && paths[i] == p && nodes[i].routeIdx == routes[p] && routes[p] > 0;
  }

  /** An accepted pattern that continues node i leaves it along a child link. */
  lemma {:induction false} LeavesByChild(nodes: seq<TrieNode>, paths: seq<Pattern>, parent: seq<nat>, routes: map<Pattern, int>, i: nat, q: Pattern)
    requires IsTree(nodes, paths, parent) && RoutesAgree(nodes, paths, routes) && i < |nodes|
    requires q != [] && paths[i] + q in routes
    ensures var c := ChildAlong(nodes, i, q[0]);
            && i < c < |nodes| && paths[c] == paths[i] + [q[0]] && paths[c] + q[1..] in routes
            && (|q| == 1 ==> nodes[c].routeIdx == routes[paths[i] + q] > 0)
  {
    var j := RouteOf(nodes, paths, parent, routes, paths[i] + q);
    ContinuesThroughChild(nodes, paths, parent, i, q);
    var c := ChildAlong(nodes, i, q[0]);
    if |q| == 1 {
      assert q == [q[0]];
      PathsDistinct(nodes, paths, parent, c, j);
    }
  }

  /** A match that goes on through one segment leaves something to find below it. */
  lemma {:induction false} StepsInto(base: Pattern, routes: map<Pattern, int>, rest: seq<string>, q: Pattern)
    requires q != [] && !q[0].Rest? && base + q in routes && Matches(q, rest)
    ensures !NothingBelow(base + [q[0]], routes, rest[1..])
  {
    assert base + q == (base + [q[0]]) + q[1..];
  }

  lemma {:induction false} LiteralWins(base: Pattern, routes: map<Pattern, int>, rest: seq<string>, hit: Pattern, r: int)
    requires rest != [] && Wins(base + [Lit(rest[0])], hit, routes, rest[1..], r)
    ensures Wins(base, [Lit(rest[0])] + hit, routes, rest, r)
  {
    var s := Lit(rest[0]);
    var whole := [s] + hit;
    assert base + whole == (base + [s]) + hit && whole[1..] == hit;
    forall q: Pattern | base + q in routes && Matches(q, rest) && q != whole ensures Before(whole, q) {
      if q[0].Lit? {
        assert q == [s] + q[1..] && base + q == (base + [s]) + q[1..];
      }
    }
  }

  lemma {:induction false} LiteralFails(nodes: seq<TrieNode>, paths: seq<Pattern>, parent: seq<nat>, routes: map<Pattern, int>, i: nat, rest: seq<string>)
    requires IsTree(nodes, paths, parent) && RoutesAgree(nodes, paths, routes) && i < |nodes| && rest != []
    requires rest[0] in nodes[i].literalChildren ==> NothingBelow(paths[i] + [Lit(rest[0])], routes, rest[1..])
    ensures NoneThrough(paths[i], routes, rest, 0)
  {
    forall q: Pattern | q != [] && paths[i] + q in routes && Matches(q, rest) ensures !q[0].Lit? {
      if q[0].Lit? {
        LeavesByChild(nodes, paths, parent, routes, i, q);
        StepsInto(paths[i], routes, rest, q);
      }
    }
  }

  lemma {:induction false} ParamWins(nodes: seq<TrieNode>, paths: seq<Pattern>, parent: seq<nat>, routes: map<Pattern, int>, i: nat, rest: seq<string>, hit: Pattern, r: int)
    requires IsTree(nodes, paths, parent) && RoutesAgree(nodes, paths, routes) && i < |nodes| && rest != []
    requires NoneThrough(paths[i], routes, rest, 0)
    requires 0 < nodes[i].paramChild < |nodes|
    requires Wins(paths[i] + [Par(nodes[nodes[i].paramChild].text)], hit, routes, rest[1..], r)
    ensures Wins(paths[i], [Par(nodes[nodes[i].paramChild].text)] + hit, routes, rest, r)
  {
    var base, s := paths[i], Par(nodes[nodes[i].paramChild].text);
    var whole := [s] + hit;
    assert base + whole == (base + [s]) + hit && whole[1..] == hit;
    forall q: Pattern | base + q in routes && Matches(q, rest) && q != whole ensures Before(whole, q) {
      if q[0].Par? {
        LeavesByChild(nodes, paths, parent, routes, i, q);
        assert q == [s] + q[1..] && base + q == (base + [s]) + q[1..];
      }
    }
  }

  lemma {:induction false} ParamFails(nodes: seq<TrieNode>, paths: seq<Pattern>, parent: seq<nat>, routes: map<Pattern, int>, i: nat, rest: seq<string>)
    requires IsTree(nodes, paths, parent) && RoutesAgree(nodes, paths, routes) && i < |nodes| && rest != []
    requires 0 < nodes[i].paramChild < |nodes| ==>
               NothingBelow(paths[i] + [Par(nodes[nodes[i].paramChild].text)], routes, rest[1..])
    ensures NoneThrough(paths[i], routes, rest, 1)
  {
    forall q: Pattern | q != [] && paths[i] + q in routes && Matches(q, rest) ensures !q[0].Par? {
      if q[0].Par? {
        LeavesByChild(nodes, paths, parent, routes, i, q);
        StepsInto(paths[i], routes, rest, q);
      }
    }
  }

  lemma {:induction false} RestWins(nodes: seq<TrieNode>, paths: seq<Pattern>, parent: seq<nat>, routes: map<Pattern, int>, i: nat, rest: seq<string>)
    requires IsTree(nodes, paths, parent) && RoutesAgree(nodes, paths, routes) && i < |nodes|
    requires rest == [] ==> paths[i] !in routes
    requires rest != [] ==> NoneThrough(paths[i], routes, rest, 0) && NoneThrough(paths[i], routes, rest, 1)
    requires 0 < nodes[i].catchAllChild < |nodes| && nodes[nodes[i].catchAllChild].routeIdx > 0
    ensures var c := nodes[i].catchAllChild;
            Wins(paths[i], [Rest(nodes[c].text)], routes, rest, nodes[c].routeIdx - 1)
  {
    var c := nodes[i].catchAllChild;
    var hit := [Rest(nodes[c].text)];
    ChildAlongCorrect(nodes, paths, parent, i, hit[0]);
    var none: Pattern := [];
    assert paths[i] + none == paths[i];
    forall q: Pattern | paths[i] + q in routes && Matches(q, rest) ensures q == hit {
      if q != [] {
        LeavesByChild(nodes, paths, parent, routes, i, q);
      }
    }
  }

  lemma {:induction false} RestFails(nodes: seq<TrieNode>, paths: seq<Pattern>, parent: seq<nat>, routes: map<Pattern, int>, i: nat, rest: seq<string>)
    requires IsTree(nodes, paths, parent) && RoutesAgree(nodes, paths, routes) && i < |nodes|
    requires rest == [] ==> paths[i] !in routes
    requires rest != [] ==> NoneThrough(paths[i], routes, rest, 0) && NoneThrough(paths[i], routes, rest, 1)
    requires 0 < nodes[i].catchAllChild < |nodes| ==> nodes[nodes[i].catchAllChild].routeIdx <= 0
    ensures NothingBelow(paths[i], routes, rest)
  {
    var none: Pattern := [];
    assert paths[i] + none == paths[i];
    forall q: Pattern | paths[i] + q in routes ensures !Matches(q, rest) {
      if q != [] {
        LeavesByChild(nodes, paths, parent, routes, i, q);
      }
    }
  }

  /** Subtrees along different segments share no node. */
  lemma {:induction false} JoinEntered(paths: seq<Pattern>, base: Pattern, s: Segment, entered: seq<nat>, sub: seq<nat>)
    requires Distinct(entered) && AllBelow(paths, base, entered)
    requires Distinct(sub) && AllBelow(paths, base + [s], sub)
    requires forall i :: 0 <= i < |entered| ==> !(base + [s] <= paths[entered[i]])
    ensures Distinct(entered + sub) && AllBelow(paths, base, entered + sub)
    ensures forall t: Segment, i :: t != s && 0 <= i < |sub| ==> !(base + [t] <= paths[sub[i]])
  {
    forall i | 0 <= i < |sub| ensures base <= paths[sub[i]] && paths[sub[i]][|base|] == s {
      assert base + [s] <= paths[sub[i]];
    }
    forall t: Segment, i | t != s && 0 <= i < |sub| ensures !(base + [t] <= paths[sub[i]]) {
      assert (base + [t])[|base|] == t;
    }
    forall i, j | 0 <= i < |entered| && 0 <= j < |sub| ensures entered[i] != sub[j] {
      assert base + [s] <= paths[sub[j]];
    }
  }

  lemma {:induction false} DistinctIndices(s: seq<nat>, n: nat)
    requires Distinct(s) && forall i :: 0 <= i < |s| ==> s[i] < n
    ensures |s| <= n
  {
    var used := set i | 0 <= i < |s| :: s[i];
    CountDistinct(s);
    AtMost(used, n);
  }

  lemma {:induction false} AtMost(s: set<nat>, n: nat)
    requires forall x :: x in s ==> x < n
    ensures |s| <= n
  {
    if n == 0 {
      assert s == {};
    } else {
      AtMost(s - {n - 1}, n - 1);
    }
  }

  lemma {:induction false} CountDistinct(s: seq<nat>)
    requires Distinct(s)
    ensures |(set i | 0 <= i < |s| :: s[i])| == |s|
  {
    if s != [] {
      var n := |s| - 1;
      CountDistinct(s[..n]);
      assert (set i | 0 <= i < |s| :: s[i]) == (set i | 0 <= i < n :: s[..n][i]) + {s[n]};
    }
  }

  /* ---- lemmas about the node array used by Insert ---- */

  lemma {:induction false} KnowsRoot(nodes: seq<TrieNode>, paths: seq<Pattern>, parent: seq<nat>)
    requires IsTree(nodes, paths, parent)
    ensures PathSet(paths) == PathSet(paths) + PrefixSet([])
  {
  }

  lemma {:induction false} RoutesKept(nodes: seq<TrieNode>, paths: seq<Pattern>, nodes': seq<TrieNode>, paths': seq<Pattern>, routes: map<Pattern, int>)
    requires |nodes| == |paths| && RoutesAgree(nodes, paths, routes)
    requires |nodes'| == |paths'| == |nodes| + 1 && paths <= paths' && nodes'[|nodes|].routeIdx == 0
    requires forall i :: 0 <= i < |nodes| ==> nodes'[i].routeIdx == nodes[i].routeIdx
    ensures RoutesAgree(nodes', paths', routes)
  {
  }

  /** Patterns one longer than `at` were all known before this insert began. */
  lemma {:induction false} KnownStep(known0: set<Pattern>, at: Pattern)
    ensures forall s: Segment :: at + [s] in known0 + PrefixSet(at) <==> at + [s] in known0
  {
    forall s: Segment ensures at + [s] !in PrefixSet(at) {
      forall k | 0 <= k <= |at| ensures at[..k] != at + [s] {
        assert |at[..k]| != |at + [s]|;
      }
    }
  }

  /** The name checks at the cursor see exactly the clashes with known patterns. */
  lemma {:induction false} ClashesHere(nodes: seq<TrieNode>, paths: seq<Pattern>, parent: seq<nat>, i: nat, known0: set<Pattern>)
    requires IsTree(nodes, paths, parent) && i < |nodes|
    requires forall s: Segment :: paths[i] + [s] in PathSet(paths) <==> paths[i] + [s] in known0
    ensures forall name :: ParamClash(known0, paths[i], name) <==>
              0 < nodes[i].paramChild < |nodes| && nodes[nodes[i].paramChild].text != name
    ensures forall name :: RestClash(known0, paths[i], name) <==>
              0 < nodes[i].catchAllChild < |nodes| && nodes[nodes[i].catchAllChild].text != name
  {
    assert LinksOk(nodes, parent, i);
    if nodes[i].paramChild != 0 {
      assert HangsFrom(nodes, paths, parent, nodes[i].paramChild);
      assert paths[nodes[i].paramChild] in PathSet(paths);
    }
    if nodes[i].catchAllChild != 0 {
      assert HangsFrom(nodes, paths, parent, nodes[i].catchAllChild);
      assert paths[nodes[i].catchAllChild] in PathSet(paths);
    }
    forall name | ParamClash(known0, paths[i], name)
      ensures 0 < nodes[i].paramChild < |nodes| && nodes[nodes[i].paramChild].text != name
    {
      var other :| other != name && paths[i] + [Par(other)] in known0;
      ChildAlongCorrect(nodes, paths, parent, i, Par(other));
    }
    forall name | RestClash(known0, paths[i], name)
      ensures 0 < nodes[i].catchAllChild < |nodes| && nodes[nodes[i].catchAllChild].text != name
    {
      var other :| other != name && paths[i] + [Rest(other)] in known0;
      ChildAlongCorrect(nodes, paths, parent, i, Rest(other));
    }
  }

  lemma {:induction false} KnownGrows(paths0: seq<Pattern>, paths: seq<Pattern>, known0: set<Pattern>, at: Pattern, step: Segment)
    requires PathSet(paths0) == known0 + PrefixSet(at)
    requires (paths == paths0 && at + [step] in paths) || paths == paths0 + [at + [step]]
    ensures PathSet(paths) == known0 + PrefixSet(at + [step])
  {
    var longer := at + [step];
    assert PrefixSet(longer) == PrefixSet(at) + {longer} by {
      assert longer[..|longer|] == longer;
      assert forall k :: 0 <= k <= |at| ==> longer[..k] == at[..k];
    }
    assert PathSet(paths) == PathSet(paths0) + {longer} by {
      if paths == paths0 {
        var j :| 0 <= j < |paths| && paths[j] == longer;
      } else {
        assert paths[|paths0|] == longer;
        assert forall j :: 0 <= j < |paths0| ==> paths[j] == paths0[j];
      }
    }
  }

  lemma {:induction false} RoutedIff(nodes: seq<TrieNode>, paths: seq<Pattern>, parent: seq<nat>, routes: map<Pattern, int>, i: nat)
    requires IsTree(nodes, paths, parent) && RoutesAgree(nodes, paths, routes) && i < |nodes|
    ensures nodes[i].routeIdx >= 0
    ensures nodes[i].routeIdx != 0 <==> paths[i] in routes
    ensures paths[i] in routes ==> routes[paths[i]] == nodes[i].routeIdx
  {
    assert LinksOk(nodes, parent, i);
    if paths[i] in routes {
      var j :| 0 <= j < |nodes| && paths[j] == paths[i] && nodes[j].routeIdx == routes[paths[i]] && routes[paths[i]] > 0;
      PathsDistinct(nodes, paths, parent, i, j);
    }
  }

  lemma {:induction false} MarkRouted(nodes: seq<TrieNode>, paths: seq<Pattern>, parent: seq<nat>, routes: map<Pattern, int>, i: nat, routeIdx: int)
    requires IsTree(nodes, paths, parent) && RoutesAgree(nodes, paths, routes)
    requires i < |nodes| && routeIdx > 0 && nodes[i].routeIdx == 0
    ensures var nodes' := nodes[i := nodes[i].(routeIdx := routeIdx)];
            IsTree(nodes', paths, parent) && RoutesAgree(nodes', paths, routes[paths[i] := routeIdx])
  {
    var nodes' := nodes[i := nodes[i].(routeIdx := routeIdx)];
    var routes' := routes[paths[i] := routeIdx];
    forall j | 0 < j < |nodes'| ensures HangsFrom(nodes', paths, parent, j) {
      assert HangsFrom(nodes, paths, parent, j);
    }
    forall j | 0 <= j < |nodes'| ensures LinksOk(nodes', parent, j) {
      assert LinksOk(nodes, parent, j);
    }
    forall j | 0 <= j < |nodes'| && nodes'[j].routeIdx > 0
      ensures paths[j] in routes' && routes'[paths[j]] == nodes'[j].routeIdx
    {
      if paths[j] == paths[i] {
        PathsDistinct(nodes, paths, parent, i, j);
      }
    }
    forall p | p in routes'
      ensures exists j :: 0 <= j < |nodes'| && paths[j] == p && nodes'[j].routeIdx == routes'[p] && routes'[p] > 0
    {
      if p == paths[i] {
        assert nodes'[i].routeIdx == routes'[p];
      } else {
        var j :| 0 <= j < |nodes| && paths[j] == p && nodes[j].routeIdx == routes[p] && routes[p] > 0;
        assert j != i;
        assert nodes'[j].routeIdx == routes'[p];
      }
    }
  }
}

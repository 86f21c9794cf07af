/**
 The flat node array of the route trie as a value: every node denotes the
 pattern on the way to it, and the child links are exactly the edges between
 those patterns.
 */
module TrieNodes {
  import opened RoutePatterns

  datatype NodeKind = LiteralNode | ParamNode | CatchAllNode

  /** Child links are indices; 0 means "no child", since the root is nobody's child. */
  datatype TrieNode = TrieNode(
    kind: NodeKind,
    text: string,
    literalChildren: map<string, nat>,
    paramChild: nat,
    catchAllChild: nat,
    routeIdx: int)

  function NewNode(kind: NodeKind, text: string): TrieNode {
    TrieNode(kind, text, map[], 0, 0, 0)
  }

  function StepOf(n: TrieNode): Segment {
    match n.kind
    case LiteralNode => Lit(n.text)
    case ParamNode => Par(n.text)
    case CatchAllNode => Rest(n.text)
  }

  /** The child of a node along one segment, 0 when there is none. */
  function ChildAlong(nodes: seq<TrieNode>, i: nat, s: Segment): nat
    requires i < |nodes|
  {
    match s
    case Lit(text) => if text in nodes[i].literalChildren then nodes[i].literalChildren[text] else 0
    case Par(name) =>
      var c := nodes[i].paramChild;
      if 0 < c < |nodes| && nodes[c].text == name then c else 0
    case Rest(name) =>
      var c := nodes[i].catchAllChild;
      if 0 < c < |nodes| && nodes[c].text == name then c else 0
  }

  /** Node j hangs below its parent on the link its kind calls for. */
  ghost predicate HangsFrom(nodes: seq<TrieNode>, paths: seq<Pattern>, parent: seq<nat>, j: nat)
    requires |nodes| == |paths| == |parent| && 0 < j < |nodes|
  {
    && parent[j] < j
    && paths[j] == paths[parent[j]] + [StepOf(nodes[j])]
    && match nodes[j].kind
       case LiteralNode => nodes[j].text in nodes[parent[j]].literalChildren && nodes[parent[j]].literalChildren[nodes[j].text] == j
       case ParamNode => nodes[parent[j]].paramChild == j
       case CatchAllNode => nodes[parent[j]].catchAllChild == j
  }

  ghost predicate LinksOk(nodes: seq<TrieNode>, parent: seq<nat>, i: nat)
    requires |nodes| == |parent| && i < |nodes|
  {
    var n := nodes[i];
    && (n.paramChild != 0 ==>
          i < n.paramChild < |nodes| && parent[n.paramChild] == i && nodes[n.paramChild].kind.ParamNode?)
    && (n.catchAllChild != 0 ==>
          i < n.catchAllChild < |nodes| && parent[n.catchAllChild] == i && nodes[n.catchAllChild].kind.CatchAllNode?)
    && (forall s :: s in n.literalChildren ==>
          var c := n.literalChildren[s];
          i < c < |nodes| && parent[c] == i && nodes[c].kind.LiteralNode? && nodes[c].text == s)
    && (n.kind.CatchAllNode? ==> n.literalChildren == map[] && n.paramChild == 0 && n.catchAllChild == 0)
    && n.routeIdx >= 0
  }

  /**
   The array is a tree: children come after their one parent, and a catch-all
   node has no children. Literal labels are what Classify leaves literal.
   */
  ghost predicate IsTree(nodes: seq<TrieNode>, paths: seq<Pattern>, parent: seq<nat>) {
    && |nodes| == |paths| == |parent| && |nodes| > 0
    && paths[0] == [] && nodes[0].kind.LiteralNode?
    && (forall j :: 0 < j < |nodes| ==> HangsFrom(nodes, paths, parent, j))
    && (forall i :: 0 <= i < |nodes| ==> LinksOk(nodes, parent, i))
  }

  ghost predicate CatchAllsRouted(nodes: seq<TrieNode>) {
    forall i :: 0 <= i < |nodes| && nodes[i].kind.CatchAllNode? ==> nodes[i].routeIdx > 0
  }

  /** The accepted patterns are the paths of the routed nodes. */
  ghost predicate RoutesAgree(nodes: seq<TrieNode>, paths: seq<Pattern>, routes: map<Pattern, int>)
    requires |nodes| == |paths|
  {
    && (forall i :: 0 <= i < |nodes| && nodes[i].routeIdx > 0 ==> paths[i] in routes && routes[paths[i]] == nodes[i].routeIdx)
    && (forall p :: p in routes ==> exists i :: 0 <= i < |nodes| && paths[i] == p && nodes[i].routeIdx == routes[p] && routes[p] > 0)
  }

  lemma {:induction false} NonRootPath(nodes: seq<TrieNode>, paths: seq<Pattern>, parent: seq<nat>, j: nat)
    requires IsTree(nodes, paths, parent) && 0 < j < |nodes|
    ensures paths[j] != []
  {
    assert HangsFrom(nodes, paths, parent, j);
  }

  /** Different nodes denote different patterns, so a pattern names at most one node. */
  lemma {:induction false} PathsDistinct(nodes: seq<TrieNode>, paths: seq<Pattern>, parent: seq<nat>, i: nat, j: nat)
    requires IsTree(nodes, paths, parent)
    requires i < |nodes| && j < |nodes| && paths[i] == paths[j]
    ensures i == j
    decreases i + j
  {
    if i != 0 { NonRootPath(nodes, paths, parent, i); }
    if j != 0 { NonRootPath(nodes, paths, parent, j); }
    if i != 0 && j != 0 {
      assert HangsFrom(nodes, paths, parent, i) && HangsFrom(nodes, paths, parent, j);
      var n := |paths[i]| - 1;
      assert paths[i][..n] == paths[parent[i]] && paths[j][..n] == paths[parent[j]];
      assert paths[i][n] == StepOf(nodes[i]) && paths[j][n] == StepOf(nodes[j]);
      PathsDistinct(nodes, paths, parent, parent[i], parent[j]);
    }
  }

  /** Every prefix of a known pattern is itself a node. */
  lemma {:induction false} PrefixNode(nodes: seq<TrieNode>, paths: seq<Pattern>, parent: seq<nat>, j: nat, k: nat) returns (i: nat)
    requires IsTree(nodes, paths, parent)
    requires j < |nodes| && k <= |paths[j]|
    ensures i < |nodes| && paths[i] == paths[j][..k]
  {
    if k == |paths[j]| {
      i := j;
      assert paths[j][..k] == paths[j];
    } else {
      assert HangsFrom(nodes, paths, parent, j) by { if j == 0 { assert false; } }
      i := PrefixNode(nodes, paths, parent, parent[j], k);
      assert paths[parent[j]][..k] == paths[j][..k];
    }
  }

  /** The link along a segment leads to the node of the longer pattern, and only such a link is missing. */
  lemma {:induction false} ChildAlongCorrect(nodes: seq<TrieNode>, paths: seq<Pattern>, parent: seq<nat>, i: nat, s: Segment)
    requires IsTree(nodes, paths, parent) && i < |nodes|
    ensures var c := ChildAlong(nodes, i, s);
            && (c != 0 ==> i < c < |nodes| && paths[c] == paths[i] + [s])
            && (c == 0 ==> paths[i] + [s] !in paths)
  {
    var c := ChildAlong(nodes, i, s);
    assert LinksOk(nodes, parent, i);
    if c != 0 {
      assert HangsFrom(nodes, paths, parent, c);
    } else if paths[i] + [s] in paths {
      var j :| 0 <= j < |paths| && paths[j] == paths[i] + [s];
      assert HangsFrom(nodes, paths, parent, j);
      assert paths[j][|paths[i]|] == s && paths[j][..|paths[i]|] == paths[i];
      assert paths[parent[j]] == paths[j][..|paths[j]| - 1];
      PathsDistinct(nodes, paths, parent, i, parent[j]);
    }
  }

  /** A known pattern that continues paths[i] continues it through a child. */
  lemma {:induction false} ContinuesThroughChild(nodes: seq<TrieNode>, paths: seq<Pattern>, parent: seq<nat>, i: nat, q: Pattern)
    requires IsTree(nodes, paths, parent) && i < |nodes|
    requires q != [] && paths[i] + q in paths
    ensures var c := ChildAlong(nodes, i, q[0]);
            i < c < |nodes| && paths[c] == paths[i] + [q[0]] && paths[c] + q[1..] == paths[i] + q
  {
    var j :| 0 <= j < |paths| && paths[j] == paths[i] + q;
    var m := PrefixNode(nodes, paths, parent, j, |paths[i]| + 1);
    assert paths[m] == paths[i] + [q[0]];
    ChildAlongCorrect(nodes, paths, parent, i, q[0]);
    assert (paths[i] + [q[0]]) + q[1..] == paths[i] + q;
  }

  /** The node array after a newest node is appended and linked below node i. */
  function WithChild(nodes: seq<TrieNode>, i: nat, kind: NodeKind, text: string): seq<TrieNode>
    requires i < |nodes|
  {
    var newest := |nodes|;
    var linked := match kind
      case LiteralNode => nodes[i].(literalChildren := nodes[i].literalChildren[text := newest])
      case ParamNode => nodes[i].(paramChild := newest)
      case CatchAllNode => nodes[i].(catchAllChild := newest);
    nodes[i := linked] + [NewNode(kind, text)]
  }

  /** A node slot that a new child of this kind can take. */
  ghost predicate FreeSlot(n: TrieNode, kind: NodeKind, text: string) {
    && !n.kind.CatchAllNode?
    && (kind.LiteralNode? ==> text !in n.literalChildren)
    && (kind.ParamNode? ==> n.paramChild == 0)
    && (kind.CatchAllNode? ==> n.catchAllChild == 0)
  }

  lemma {:induction false} WithChildHangs(nodes: seq<TrieNode>, paths: seq<Pattern>, parent: seq<nat>, i: nat, kind: NodeKind, text: string, j: nat)
    requires |nodes| == |paths| == |parent| && i < |nodes| && FreeSlot(nodes[i], kind, text)
    requires 0 < j < |nodes| ==> HangsFrom(nodes, paths, parent, j)
    requires 0 < j <= |nodes|
    ensures HangsFrom(WithChild(nodes, i, kind, text), paths + [paths[i] + [StepOf(NewNode(kind, text))]], parent + [i], j)
  {
    var nodes' := WithChild(nodes, i, kind, text);
    if j < |nodes| {
      assert StepOf(nodes'[j]) == StepOf(nodes[j]);
    }
  }

  lemma {:induction false} WithChildLinks(nodes: seq<TrieNode>, parent: seq<nat>, i: nat, kind: NodeKind, text: string, j: nat)
    requires |nodes| == |parent| && i < |nodes| && FreeSlot(nodes[i], kind, text)
    requires j < |nodes| ==> LinksOk(nodes, parent, j)
    requires j <= |nodes|
    ensures LinksOk(WithChild(nodes, i, kind, text), parent + [i], j)
  {
    hide StepOf;
  }

  lemma {:induction false} WithChildIsTree(nodes: seq<TrieNode>, paths: seq<Pattern>, parent: seq<nat>, i: nat, kind: NodeKind, text: string)
    requires IsTree(nodes, paths, parent) && i < |nodes| && FreeSlot(nodes[i], kind, text)
    ensures IsTree(WithChild(nodes, i, kind, text), paths + [paths[i] + [StepOf(NewNode(kind, text))]], parent + [i])
  {
    var nodes' := WithChild(nodes, i, kind, text);
    var paths' := paths + [paths[i] + [StepOf(NewNode(kind, text))]];
    var parent' := parent + [i];
    hide HangsFrom, LinksOk, FreeSlot;
    forall j | 0 < j < |nodes'| ensures HangsFrom(nodes', paths', parent', j) {
      WithChildHangs(nodes, paths, parent, i, kind, text, j);
    }
    forall j | 0 <= j < |nodes'| ensures LinksOk(nodes', parent', j) {
      WithChildLinks(nodes, parent, i, kind, text, j);
    }
  }
}

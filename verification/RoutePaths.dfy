/**
 Path splitting for the router: `strings.Split` and `strings.Join` on '/',
 and the trimming done before a path or pattern is cut into segments.
 */
module RoutePaths {

  predicate NoSlash(s: string) {
    '/' !in s
  }

  predicate AllNoSlash(segs: seq<string>) {
    forall i :: 0 <= i < |segs| ==> NoSlash(segs[i])
  }

  /** strings.Split(s, "/"): the maximal slash-free pieces, at least one. */
  function Split(s: string): (r: seq<string>)
    ensures |r| > 0 && AllNoSlash(r)
  {
    if s == "" then [""]
    else if s[0] == '/' then [""] + Split(s[1..])
    else
      var rest := Split(s[1..]);
      [[s[0]] + rest[0]] + rest[1..]
  }

  /** strings.Join(segs, "/"). */
  function Join(segs: seq<string>): string {
    if |segs| == 0 then ""
    else if |segs| == 1 then segs[0]
    else segs[0] + "/" + Join(segs[1..])
  }

  /** Joining what Split produced gives the string back. */
  lemma {:induction false} JoinSplit(s: string)
    ensures Join(Split(s)) == s
  {
    hide Split, Join;
    SplitUnfolds(s);
    if s == "" {
      JoinOne("");
    } else {
      JoinSplit(s[1..]);
      var rest := Split(s[1..]);
      assert s == [s[0]] + s[1..];
      if s[0] == '/' {
        JoinCons("", rest);
        assert "" + "/" + s[1..] == s;
      } else {
        JoinPrepends(s[0], rest);
      }
    }
  }

  lemma {:induction false} SplitUnfolds(s: string)
    ensures s == "" ==> Split(s) == [""]
    ensures s != "" && s[0] == '/' ==> Split(s) == [""] + Split(s[1..])
    ensures s != "" && s[0] != '/' ==>
              Split(s) == [[s[0]] + Split(s[1..])[0]] + Split(s[1..])[1..]
  {
  }

  lemma {:induction false} JoinOne(head: string)
    ensures Join([head]) == head
  {
  }

  lemma {:induction false} JoinCons(head: string, tail: seq<string>)
    requires |tail| > 0
    ensures Join([head] + tail) == head + "/" + Join(tail)
  {
  }

  lemma {:induction false} JoinPrepends(c: char, pieces: seq<string>)
    requires |pieces| > 0
    ensures Join([[c] + pieces[0]] + pieces[1..]) == [c] + Join(pieces)
  {
  }

  /** A slash-free head is recovered by Split. */
  lemma {:induction false} SplitHead(head: string, tail: string)
    requires NoSlash(head)
    ensures Split(head) == [head]
    ensures Split(head + "/" + tail) == [head] + Split(tail)
  {
    var whole := head + "/" + tail;
    if head == "" {
      assert whole[1..] == tail;
    } else {
      SplitHead(head[1..], tail);
      assert whole[1..] == head[1..] + "/" + tail;
      assert head == [head[0]] + head[1..];
    }
  }

  /** Splitting what Join produced gives slash-free pieces back. */
  lemma {:induction false} SplitJoin(segs: seq<string>)
    requires |segs| > 0 && AllNoSlash(segs)
    ensures Split(Join(segs)) == segs
  {
    if |segs| == 1 {
      SplitHead(segs[0], "");
    } else {
      SplitJoin(segs[1..]);
      SplitHead(segs[0], Join(segs[1..]));
      assert segs == [segs[0]] + segs[1..];
    }
  }

  /** The path without one leading and one trailing slash. */
  function Trim(path: string): string {
    var a := if |path| > 0 && path[0] == '/' then path[1..] else path;
    if |a| > 0 && a[|a| - 1] == '/' then a[..|a| - 1] else a
  }

  /** Trimming takes away one slash on each side and no more. */
  lemma {:induction false} TrimIs(body: string)
    ensures Trim("/" + body + "/") == body
    ensures body == "" || body[|body| - 1] != '/' ==> Trim("/" + body) == body
    ensures body == "" || body[0] != '/' ==> Trim(body + "/") == body
    ensures body == "" || (body[0] != '/' && body[|body| - 1] != '/') ==> Trim(body) == body
  {
    assert ("/" + body + "/")[1..] == body + "/" && (body + "/")[..|body|] == body;
    assert ("/" + body)[1..] == body;
  }

  /** splitPath: an empty remainder after trimming has no segments. */
  function SplitPath(path: string): (segs: seq<string>)
    ensures AllNoSlash(segs)
  {
    if path == "" || path == "/" then []
    else
      var b := Trim(path);
      if b == "" then [] else Split(b)
  }

  /** The segments are exactly the ones that join to the trimmed path; no segments means nothing was left. */
  lemma {:induction false} SplitPathJoins(path: string)
    ensures Join(SplitPath(path)) == Trim(path)
    ensures SplitPath(path) == [] <==> Trim(path) == ""
  {
    if path == "" || path == "/" {
    } else if Trim(path) != "" {
      JoinSplit(Trim(path));
    }
  }
}

/** Splicing: the static body of a page with each hole's rendering put in at its position. */
module PageSplice {
  import opened HttpBytes
  import opened Options
  import opened Rows
  import opened Sequences

  /** What one template execution, or all of one hole's, wrote and whether it failed. */
  datatype Rendering = Rendering(out: bytes, err: Option<Error>)

  datatype Composed = Page(body: bytes) | RenderFailed(error: Error) | HolesUnreadable | Panicked

  /**
   The splicing loop from hole i on. The body is the first len bytes of
   `memory`: a slice of it may run past its length, up to the memory's end, and
   panics beyond that or backwards.
   */
  function Assemble(memory: bytes, len: nat, ps: seq<nat>, rs: seq<Rendering>, i: nat, cursor: nat, buf: bytes): Composed
    requires i <= |ps| == |rs| && cursor <= |memory| && len <= |memory|
    decreases |ps| - i
  {
    if i == |ps| then if cursor > len then Panicked else Page(buf + memory[cursor..len])
    else if !(cursor <= ps[i] <= |memory|) then Panicked
    else if rs[i].err.Some? then RenderFailed(rs[i].err.value)
    else Assemble(memory, len, ps, rs, i + 1, ps[i], buf + memory[cursor..ps[i]] + rs[i].out)
  }

  predicate Inside(ps: seq<nat>, len: nat) {
    forall i :: 0 <= i < |ps| ==> ps[i] <= len
  }

  predicate AllRendered(rs: seq<Rendering>) {
    forall i :: 0 <= i < |rs| ==> rs[i].err.None?
  }

  function Outs(rs: seq<Rendering>): (outs: seq<bytes>)
    ensures |outs| == |rs|
  {
    seq(|rs|, i requires 0 <= i < |rs| => rs[i].out)
  }

  /**
   Insertion as documented: the texts go in at their positions of the original
   body. Working from the last one, no insertion moves the place of another.
   */
  function Insert(body: bytes, ps: seq<nat>, outs: seq<bytes>): bytes
    requires |ps| == |outs| && NonDecreasing(ps) && Inside(ps, |body|)
    decreases |ps|
  {
    if ps == [] then body
    else
      var k := |ps| - 1;
      Insert(body[..ps[k]], ps[..k], outs[..k]) + outs[k] + body[ps[k]..]
  }

  /** Cut lens[0] bytes at ps[0], then the rest likewise. */
  function CutOut(page: bytes, ps: seq<nat>, lens: seq<nat>): bytes
    requires |ps| == |lens|
    decreases |ps|
  {
    if ps == [] || ps[0] + lens[0] > |page| then page
    else CutOut(page[..ps[0]] + page[ps[0] + lens[0]..], ps[1..], lens[1..])
  }

  function Lengths(outs: seq<bytes>): (lens: seq<nat>)
    ensures |lens| == |outs|
  {
    seq(|outs|, i requires 0 <= i < |outs| => |outs[i]|)
  }

  function Sum(lens: seq<nat>): nat {
    if lens == [] then 0 else Sum(lens[..|lens| - 1]) + lens[|lens| - 1]
  }

  /** The loop, once its first i renderings are in the buffer, still has the rest to insert. */
  lemma {:induction false} AssembleFrom(memory: bytes, len: nat, ps: seq<nat>, rs: seq<Rendering>, i: nat, cursor: nat, buf: bytes)
    requires i <= |ps| == |rs| && cursor <= len <= |memory| && AllRendered(rs)
    requires NonDecreasing(ps) && Inside(ps, len) && (if i == 0 then cursor == 0 else cursor == ps[i - 1])
    requires buf == Insert(memory[..cursor], ps[..i], Outs(rs)[..i])
    ensures Assemble(memory, len, ps, rs, i, cursor, buf) == Page(Insert(memory[..len], ps, Outs(rs)))
    decreases |ps| - i
  {
    var outs := Outs(rs);
    if i == |ps| {
      assert ps[..i] == ps && outs[..i] == outs;
      if i > 0 {
        var k := i - 1;
        assert memory[..cursor][..ps[k]] == memory[..len][..ps[k]];
        assert memory[..cursor][ps[k]..] == [];
        assert buf == Insert(memory[..len][..ps[k]], ps[..k], outs[..k]) + outs[k] + [];
        assert memory[..len][ps[k]..] == memory[cursor..len];
      } else {
        assert memory[..0] + memory[0..len] == memory[..len];
      }
    } else {
      var next := buf + memory[cursor..ps[i]] + rs[i].out;
      NextInsert(memory, ps, outs, i, cursor, buf);
      AssembleFrom(memory, len, ps, rs, i + 1, ps[i], next);
    }
  }

  /** Insertions into a longer body with nothing more to insert append the rest of the body. */
  lemma {:induction false} InsertLonger(body: bytes, shorter: nat, ps: seq<nat>, outs: seq<bytes>)
    requires shorter <= |body| && |ps| == |outs| && NonDecreasing(ps) && Inside(ps, shorter)
    ensures Insert(body, ps, outs) == Insert(body[..shorter], ps, outs) + body[shorter..]
  {
    if ps == [] {
      assert body == body[..shorter] + body[shorter..];
    } else {
      var k := |ps| - 1;
      var p, small, rest := ps[k], body[..shorter], body[shorter..];
      assert body == small + rest;
      LongerParts(small, rest, p);
      var front := Insert(body[..p], ps[..k], outs[..k]) + outs[k];
      assert front + (small[p..] + rest) == (front + small[p..]) + rest;
    }
  }

  lemma {:induction false} LongerParts(small: bytes, rest: bytes, p: nat)
    requires p <= |small|
    ensures (small + rest)[..p] == small[..p] && (small + rest)[p..] == small[p..] + rest
  {
  }

  lemma {:induction false} NextInsert(memory: bytes, ps: seq<nat>, outs: seq<bytes>, i: nat, cursor: nat, buf: bytes)
    requires |ps| == |outs| && i < |ps| && NonDecreasing(ps) && cursor <= ps[i] <= |memory|
    requires if i == 0 then cursor == 0 else cursor == ps[i - 1]
    requires buf == Insert(memory[..cursor], ps[..i], outs[..i])
    ensures buf + memory[cursor..ps[i]] + outs[i] == Insert(memory[..ps[i]], ps[..i + 1], outs[..i + 1])
  {
    var body := memory[..ps[i]];
    var front, texts := ps[..i], outs[..i];
    assert ps[..i + 1][..i] == front && outs[..i + 1][..i] == texts;
    assert body[..ps[i]] == body && body[ps[i]..] == [];
    InsertLonger(body, cursor, front, texts);
    assert body[..cursor] == memory[..cursor] && body[cursor..] == memory[cursor..ps[i]];
    var joined := Insert(body, front, texts) + outs[i];
    assert joined + [] == joined;
  }

  /**
   When every rendering succeeds, the loop yields a page exactly for hole lists
   whose positions never go back and stay inside the body, and that page is the
   body with each rendering inserted at its position. It panics on all others.
   */
  lemma {:induction false} AssembleInserts(memory: bytes, len: nat, ps: seq<nat>, rs: seq<Rendering>)
    requires |ps| == |rs| && len <= |memory| && AllRendered(rs)
    ensures Assemble(memory, len, ps, rs, 0, 0, []) ==
            if NonDecreasing(ps) && Inside(ps, len) then Page(Insert(memory[..len], ps, Outs(rs))) else Panicked
  {
    if NonDecreasing(ps) && Inside(ps, len) {
      assert ps[..0] == [] && Outs(rs)[..0] == [];
      AssembleFrom(memory, len, ps, rs, 0, 0, []);
    } else if Assemble(memory, len, ps, rs, 0, 0, []) != Panicked {
      PageInOrder(memory, len, ps, rs, 0, 0, []);
    }
  }

  lemma {:induction false} PageInOrder(memory: bytes, len: nat, ps: seq<nat>, rs: seq<Rendering>, i: nat, cursor: nat, buf: bytes)
    requires i <= |ps| == |rs| && cursor <= |memory| && len <= |memory| && AllRendered(rs)
    requires Assemble(memory, len, ps, rs, i, cursor, buf) != Panicked
    ensures cursor <= len
    ensures forall j :: i <= j < |ps| ==> cursor <= ps[j] <= len
    ensures forall j, k :: i <= j < k < |ps| ==> ps[j] <= ps[k]
    decreases |ps| - i
  {
    if i < |ps| {
      PageInOrder(memory, len, ps, rs, i + 1, ps[i], buf + memory[cursor..ps[i]] + rs[i].out);
    }
  }

  lemma {:induction false} InsertLength(body: bytes, ps: seq<nat>, outs: seq<bytes>)
    requires |ps| == |outs| && NonDecreasing(ps) && Inside(ps, |body|)
    ensures |Insert(body, ps, outs)| == |body| + Sum(Lengths(outs))
    decreases |ps|
  {
    if ps != [] {
      var k := |ps| - 1;
      InsertLength(body[..ps[k]], ps[..k], outs[..k]);
      assert Lengths(outs)[..k] == Lengths(outs[..k]);
    }
  }

  /** Rendering i stands right after the body up to its position and the renderings before it. */
  lemma {:induction false} InsertedAt(body: bytes, ps: seq<nat>, outs: seq<bytes>, i: nat)
    requires |ps| == |outs| && NonDecreasing(ps) && Inside(ps, |body|) && i < |ps|
    ensures var at := ps[i] + Sum(Lengths(outs[..i]));
            && at + |outs[i]| <= |Insert(body, ps, outs)|
            && Insert(body, ps, outs)[at..at + |outs[i]|] == outs[i]
    decreases |ps|
  {
    var k := |ps| - 1;
    var front := Insert(body[..ps[k]], ps[..k], outs[..k]);
    var at := ps[i] + Sum(Lengths(outs[..i]));
    InsertLength(body[..ps[k]], ps[..k], outs[..k]);
    if i < k {
      InsertedAt(body[..ps[k]], ps[..k], outs[..k], i);
      assert outs[..k][..i] == outs[..i];
      assert (front + outs[k] + body[ps[k]..])[at..at + |outs[i]|] == front[at..at + |outs[i]|];
    } else {
      assert |front| == at;
    }
  }

  /** Cutting the renderings out again gives the static body back. */
  lemma {:induction false} CutUndoesInsert(body: bytes, ps: seq<nat>, outs: seq<bytes>)
    requires |ps| == |outs| && NonDecreasing(ps) && Inside(ps, |body|)
    ensures CutOut(Insert(body, ps, outs), ps, Lengths(outs)) == body
    decreases |ps|
  {
    if ps != [] {
      hide Insert, Lengths;
      var p, n := ps[0], |outs[0]|;
      var page, rest := Insert(body, ps, outs), Insert(body, ps[1..], outs[1..]);
      InsertFirst(body, ps, outs);
      LengthsOfRest(outs);
      assert page[..p] == rest[..p] && page[p + n..] == rest[p..];
      assert page[..p] + page[p + n..] == rest;
      CutUndoesInsert(body, ps[1..], outs[1..]);
    }
  }

  lemma {:induction false} LengthsOfRest(outs: seq<bytes>)
    requires outs != []
    ensures Lengths(outs) == [|outs[0]|] + Lengths(outs[1..])
  {
  }

  /** Seen from the front: the first text goes in at its own position, in front of what the others make. */
  lemma {:induction false} InsertFirst(body: bytes, ps: seq<nat>, outs: seq<bytes>)
    requires |ps| == |outs| > 0 && NonDecreasing(ps) && Inside(ps, |body|)
    ensures var rest := Insert(body, ps[1..], outs[1..]);
            && ps[0] <= |rest|
            && Insert(body, ps, outs) == rest[..ps[0]] + outs[0] + rest[ps[0]..]
    decreases |ps|
  {
    hide Insert, Lengths, Sum;
    var k, p := |ps| - 1, ps[0];
    InsertLast(body, ps, outs);
    if k == 0 {
      assert ps[..k] == [] && ps[1..] == [] && outs[..k] == [] && outs[1..] == [];
      InsertNothing(body);
      InsertNothing(body[..p]);
    } else {
      var q := ps[k];
      var inner := body[..q];
      assert ps[1..][..k - 1] == ps[..k][1..] && outs[1..][..k - 1] == outs[..k][1..];
      InsertLast(body, ps[1..], outs[1..]);
      InsertFirst(inner, ps[..k], outs[..k]);
      var small := Insert(inner, ps[..k][1..], outs[..k][1..]);
      LongerParts(small, outs[k] + body[q..], p);
    }
  }

  lemma {:induction false} InsertNothing(body: bytes)
    ensures Insert(body, [], []) == body
  {
  }

  lemma {:induction false} InsertLast(body: bytes, ps: seq<nat>, outs: seq<bytes>)
    requires |ps| == |outs| > 0 && NonDecreasing(ps) && Inside(ps, |body|)
    ensures var k := |ps| - 1;
            Insert(body, ps, outs) == Insert(body[..ps[k]], ps[..k], outs[..k]) + outs[k] + body[ps[k]..]
  {
  }

}

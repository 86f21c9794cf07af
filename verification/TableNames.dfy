/** Lists of table names without repetition, in order of first use. */
module TableNames {
  import opened Sequences

  /** Names of `more` not seen before, behind those of `seen`, each once. */
  function AddNew(seen: seq<string>, more: seq<string>): seq<string>
    decreases |more|
  {
    if more == [] then seen
    else AddNew(if more[0] in seen then seen else seen + [more[0]], more[1..])
  }

  /** The first position of a name. */
  ghost predicate FirstUse(names: seq<string>, k: nat) {
    k < |names| && names[k] !in names[..k]
  }

  lemma {:induction false} AddNewIs(seen: seq<string>, more: seq<string>)
    requires Distinct(seen)
    ensures seen <= AddNew(seen, more) && Distinct(AddNew(seen, more))
    ensures forall t :: t in AddNew(seen, more) <==> t in seen || t in more
    decreases |more|
  {
    if more != [] {
      AddNewIs(if more[0] in seen then seen else seen + [more[0]], more[1..]);
    }
  }

  lemma {:induction false} AddNewAppend(seen: seq<string>, a: seq<string>, b: seq<string>)
    ensures AddNew(seen, a + b) == AddNew(AddNew(seen, a), b)
    decreases |a|
  {
    if a == [] {
      assert a + b == b;
    } else {
      assert (a + b)[1..] == a[1..] + b;
      AddNewAppend(if a[0] in seen then seen else seen + [a[0]], a[1..], b);
    }
  }

  /** Names come out in the order of their first uses. */
  lemma {:induction false} AddNewOrder(names: seq<string>, i: nat, j: nat)
    requires i < j && FirstUse(names, i) && FirstUse(names, j)
    ensures exists a: nat, b: nat :: a < b < |AddNew([], names)| && AddNew([], names)[a] == names[i] && AddNew([], names)[b] == names[j]
  {
    var front := names[..j];
    assert names == front + names[j..];
    AddNewAppend([], front, names[j..]);
    AddNewIs([], front);
    assert names[i] == front[i];
    var early := AddNew([], front);
    AddNewIs(early, names[j..]);
    var all := AddNew([], names);
    assert names[i] in early && names[j] !in early && names[j] in names[j..] by {
      assert names[j..][0] == names[j];
    }
    assert names[j] in all;
    var a: nat :| a < |early| && early[a] == names[i];
    var b: nat :| b < |all| && all[b] == names[j];
    assert early <= all && all[a] == early[a];
    assert forall x :: 0 <= x < |early| ==> all[x] == early[x] && early[x] != names[j];
  }
}

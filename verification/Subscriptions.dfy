/**
 Write subscriptions as a protocol: a list copied on write under a mutex and
 read without it, closing by compare-and-swap, notifications over a snapshot,
 and reloads that subscribe, swap and close. Every step below is one that the
 other goroutines can see; any number of them interleave in any order.
 */
module Subscriptions {
  import opened Options
  import opened Sequences

  /** Subscriptions, notifications and goroutines are numbered. */
  type Sub = nat

  /** Where a goroutine is inside Subscribe, Close or a notification. */
  datatype Pc =
    | Idle
    | Adding(sub: Sub, cur: seq<Sub>)
    | Leaving(sub: Sub)
    | Removing(sub: Sub, cur: seq<Sub>)
    | Notifying(n: nat, snapshot: seq<Sub>, i: nat)

  /** The reload goroutine: idle, building a state, holding a built state, or about to close the previous one. */
  datatype Reload = Resting | Building | Built(sub: Sub) | Retiring(prev: Sub)

  datatype State = State(
    published: seq<Sub>,
    mutex: Option<nat>,
    closed: set<Sub>,
    issued: Sub,
    pcs: map<nat, Pc>,
    reload: Reload,
    live: Option<Sub>,
    // What has happened so far: stored subscriptions in order, stored removals,
    // subscriptions of application states, and what each notification saw and called.
    added: seq<Sub>,
    removed: set<Sub>,
    owned: set<Sub>,
    snapshots: seq<seq<Sub>>,
    calls: seq<seq<Sub>>)

  /** The goroutine that handles reloads. */
  const RELOADER: nat := 0

  datatype Move =
    | Subscribe(a: nat)
    | StoreAdded(a: nat)
    | Close(a: nat, sub: Sub)
    | LockToRemove(a: nat)
    | StoreRemoved(a: nat)
    | Notify(a: nat)
    | Call(a: nat)
    | EndNotify(a: nat)
    | LoadFails
    | Swap

  function At(s: State, a: nat): Pc {
    if a in s.pcs then s.pcs[a] else Idle
  }

  /** The list without one subscription, order kept. */
  function Without(subs: seq<Sub>, sub: Sub): seq<Sub> {
    if subs == [] then []
    else (if subs[0] == sub then [] else [subs[0]]) + Without(subs[1..], sub)
  }

  /** Close's copy loop. */
  method CopyWithout(cur: seq<Sub>, sub: Sub) returns (next: seq<Sub>)
    ensures next == Without(cur, sub)
  {
    next := [];
    assert cur[0..] == cur;
    for i := 0 to |cur|
      invariant next + Without(cur[i..], sub) == Without(cur, sub)
    {
      assert cur[i..][0] == cur[i] && cur[i..][1..] == cur[i + 1..];
      if cur[i] != sub {
        next := next + [cur[i]];
      }
    }
  }

  /**
   The reloader subscribes when it starts building and closes only what it
   retires; others leave its subscriptions alone. A load that fails leaves the
   previous state in place; when there is none the process ends.
   */
  predicate Enabled(s: State, m: Move) {
    match m
    case Subscribe(a) => At(s, a).Idle? && s.mutex.None? && (a == RELOADER ==> s.reload.Resting?)
    case StoreAdded(a) => At(s, a).Adding?
    case Close(a, sub) => At(s, a).Idle? && sub in s.added && (if a == RELOADER then s.reload == Retiring(sub) else sub !in s.owned)
    case LockToRemove(a) => At(s, a).Leaving? && s.mutex.None?
    case StoreRemoved(a) => At(s, a).Removing?
    case Notify(a) => At(s, a).Idle? && a != RELOADER
    case Call(a) => At(s, a).Notifying? && At(s, a).i < |At(s, a).snapshot| && At(s, a).n < |s.calls|
    case EndNotify(a) => At(s, a).Notifying? && At(s, a).i == |At(s, a).snapshot|
    case LoadFails => s.reload.Built? && s.live.Some?
    case Swap => s.reload.Built?
  }

  /** One step; a move that is not possible now changes nothing. */
  function Step(s: State, m: Move): State {
    if !Enabled(s, m) then s
    else
      match m
      case Subscribe(a) =>
        s.(mutex := Some(a), issued := s.issued + 1, pcs := s.pcs[a := Adding(s.issued, s.published)],
           reload := if a == RELOADER then Building else s.reload,
           owned := if a == RELOADER then s.owned + {s.issued} else s.owned)
      case StoreAdded(a) =>
        var pc := At(s, a);
        s.(published := pc.cur + [pc.sub], mutex := None, pcs := s.pcs[a := Idle], added := s.added + [pc.sub],
           reload := if a == RELOADER then Built(pc.sub) else s.reload)
      case Close(a, sub) =>
        // The compare-and-swap: only the first Close goes on.
        if sub in s.closed then s
        else s.(closed := s.closed + {sub}, pcs := s.pcs[a := Leaving(sub)])
      case LockToRemove(a) =>
        s.(mutex := Some(a), pcs := s.pcs[a := Removing(At(s, a).sub, s.published)])
      case StoreRemoved(a) =>
        var pc := At(s, a);
        s.(published := Without(pc.cur, pc.sub), mutex := None, pcs := s.pcs[a := Idle], removed := s.removed + {pc.sub},
           reload := if a == RELOADER then Resting else s.reload)
      case Notify(a) =>
        s.(pcs := s.pcs[a := Notifying(|s.calls|, s.published, 0)],
           snapshots := s.snapshots + [s.published], calls := s.calls + [[]])
      case Call(a) =>
        var pc := At(s, a);
        s.(pcs := s.pcs[a := pc.(i := pc.i + 1)],
           calls := s.calls[pc.n := s.calls[pc.n] + [pc.snapshot[pc.i]]])
      case EndNotify(a) => s.(pcs := s.pcs[a := Idle])
      case LoadFails => s.(reload := Resting)
      case Swap =>
        s.(live := Some(s.reload.sub), reload := if s.live.Some? then Retiring(s.live.value) else Resting)
  }

  function Start(): State {
    State([], None, {}, 0, map[], Resting, None, [], {}, {}, [], [])
  }

  /** The state after the first n moves. */
  function After(moves: seq<Move>, n: nat): State
    requires n <= |moves|
  {
    if n == 0 then Start() else Step(After(moves, n - 1), moves[n - 1])
  }

  /** Of the stored subscriptions, those whose removal has not been stored, in order. */
  function Kept(added: seq<Sub>, removed: set<Sub>): seq<Sub> {
    if added == [] then []
    else
      var last := added[|added| - 1];
      Kept(added[..|added| - 1], removed) + if last in removed then [] else [last]
  }

  /* ---- the invariant ---- */

  /** The list is what was added and not removed, and only issued numbers occur. */
  ghost predicate ListOk(s: State) {
    && s.published == Kept(s.added, s.removed)
    && Distinct(s.added)
    && (forall x :: x in s.added ==> x < s.issued)
    && (forall x :: x in s.closed ==> x in s.added)
    && (forall x :: x in s.removed ==> x in s.closed)
  }

  ghost predicate SnapshotsOk(s: State) {
    forall k: nat :: k < |s.snapshots| ==> Distinct(s.snapshots[k])
  }

  /** The mutex holder alone is about to store, and what it loaded is still the list. */
  ghost predicate LockOk(s: State) {
    forall a: nat :: (At(s, a).Adding? || At(s, a).Removing?) ==> s.mutex == Some(a) && At(s, a).cur == s.published
  }

  /** Whoever won a compare-and-swap removes that subscription alone. */
  ghost predicate CloseOk(s: State) {
    && (forall a :: At(s, a).Adding? ==> At(s, a).sub !in s.added && At(s, a).sub < s.issued)
    && (forall a :: Closing(s, a) ==> At(s, a).sub in s.closed && At(s, a).sub !in s.removed)
    && (forall a, b :: Closing(s, a) && Closing(s, b) && a != b ==> At(s, a).sub != At(s, b).sub)
  }

  predicate Closing(s: State, a: nat) {
    At(s, a).Leaving? || At(s, a).Removing?
  }

  /** A notification under way has called its snapshot so far, in order; one that ended called all of it. */
  ghost predicate CallsOk(s: State) {
    && |s.calls| == |s.snapshots|
    && (forall a :: At(s, a).Notifying? ==> Caught(s, a))
    && (forall a, b :: At(s, a).Notifying? && At(s, b).Notifying? && a != b ==> At(s, a).n != At(s, b).n)
    && (forall n: nat :: n < |s.calls| && Ended(s, n) ==> s.calls[n] == s.snapshots[n])
  }

  ghost predicate Caught(s: State, a: nat)
    requires At(s, a).Notifying? && |s.calls| == |s.snapshots|
  {
    var pc := At(s, a);
    && pc.n < |s.calls| && pc.i <= |pc.snapshot|
    && s.snapshots[pc.n] == pc.snapshot && s.calls[pc.n] == pc.snapshot[..pc.i]
  }

  /** No goroutine is inside notification n any more. */
  ghost predicate Ended(s: State, n: nat) {
    forall a: nat :: At(s, a).Notifying? ==> At(s, a).n != n
  }

  /** The live state's subscription is stored and nobody has closed it; so is a built one. */
  ghost predicate ReloadOk(s: State) {
    && (s.live.Some? ==> Safe(s, s.live.value))
    && (s.reload.Built? ==> Safe(s, s.reload.sub) && s.live != Some(s.reload.sub))
    && (s.reload.Retiring? ==> s.reload.prev in s.owned && s.live.Some? && s.live.value != s.reload.prev)
    && (s.reload.Retiring? ==> s.reload.prev in s.added && s.reload.prev !in s.removed)
    && (s.reload.Building? <==> At(s, RELOADER).Adding?)
    && (At(s, RELOADER).Adding? ==> At(s, RELOADER).sub in s.owned)
    && (Closing(s, RELOADER) ==> s.reload == Retiring(At(s, RELOADER).sub))
    && !At(s, RELOADER).Notifying?
    && (forall a :: a != RELOADER && (Closing(s, a) || At(s, a).Adding?) ==> At(s, a).sub !in s.owned)
    && (forall x :: x in s.owned ==> x < s.issued)
  }

  ghost predicate Safe(s: State, x: Sub) {
    x in s.added && x !in s.closed && x in s.owned
  }

  ghost predicate Inv(s: State) {
    ListOk(s) && SnapshotsOk(s) && LockOk(s) && CloseOk(s) && CallsOk(s) && ReloadOk(s) && WayOk(s)
  }

  /** Some goroutine is on its way to store x, or to store its removal. */
  ghost predicate BeingAdded(s: State, x: Sub) {
    exists a :: At(s, a).Adding? && At(s, a).sub == x
  }

  ghost predicate BeingRemoved(s: State, x: Sub) {
    exists a :: Closing(s, a) && At(s, a).sub == x
  }

  /** What was begun is done or under way, and the mutex is held only by one who will store and give it back. */
  ghost predicate WayOk(s: State) {
    && (forall x: Sub :: x < s.issued ==> x in s.added || BeingAdded(s, x))
    && (forall x :: x in s.closed ==> x in s.removed || BeingRemoved(s, x))
    && (s.mutex.Some? ==> At(s, s.mutex.value).Adding? || At(s, s.mutex.value).Removing?)
  }

  /* ---- lists ---- */

  lemma {:induction false} KeptIs(added: seq<Sub>, removed: set<Sub>, x: Sub)
    ensures x in Kept(added, removed) <==> x in added && x !in removed
  {
    if added != [] {
      var k := |added| - 1;
      KeptIs(added[..k], removed, x);
      assert added == added[..k] + [added[k]];
    }
  }

  lemma {:induction false} KeptDistinct(added: seq<Sub>, removed: set<Sub>)
    requires Distinct(added)
    ensures Distinct(Kept(added, removed))
  {
    if added != [] {
      var k := |added| - 1;
      KeptDistinct(added[..k], removed);
      KeptIs(added[..k], removed, added[k]);
    }
  }

  lemma {:induction false} KeptGrows(added: seq<Sub>, removed: set<Sub>, x: Sub)
    requires x !in removed
    ensures Kept(added + [x], removed) == Kept(added, removed) + [x]
  {
  }

  lemma {:induction false} KeptShrinks(added: seq<Sub>, removed: set<Sub>, x: Sub)
    ensures Kept(added, removed + {x}) == Without(Kept(added, removed), x)
  {
    if added != [] {
      var k := |added| - 1;
      KeptShrinks(added[..k], removed, x);
      WithoutAppend(Kept(added[..k], removed), if added[k] in removed then [] else [added[k]], x);
    }
  }

  lemma {:induction false} WithoutAppend(a: seq<Sub>, b: seq<Sub>, x: Sub)
    ensures Without(a + b, x) == Without(a, x) + Without(b, x)
  {
    if a == [] {
      assert a + b == b;
    } else {
      assert (a + b)[1..] == a[1..] + b;
      WithoutAppend(a[1..], b, x);
    }
  }

  /* ---- every step keeps it ---- */

  /** A step leaves every goroutine but its own where it is. */
  lemma {:induction false} OthersKeep(s: State, m: Move, b: nat)
    requires Enabled(s, m) && (m.LoadFails? || m.Swap? || m.a != b)
    ensures At(Step(s, m), b) == At(s, b)
  {
    hide Without;
  }

  lemma {:induction false} ListKept(s: State, m: Move)
    requires Inv(s) && Enabled(s, m)
    ensures ListOk(Step(s, m))
  {
    hide Kept, Without, CallsOk, ReloadOk, SnapshotsOk;
    if m.StoreAdded? {
      var x := At(s, m.a).sub;
      KeptGrows(s.added, s.removed, x);
    } else if m.StoreRemoved? {
      KeptShrinks(s.added, s.removed, At(s, m.a).sub);
    }
  }

  lemma {:induction false} SnapshotsKept(s: State, m: Move)
    requires Inv(s) && Enabled(s, m)
    ensures SnapshotsOk(Step(s, m))
  {
    hide Kept, Without, Distinct, LockOk, CloseOk, CallsOk, ReloadOk;
    KeptDistinct(s.added, s.removed);
  }

  lemma {:induction false} LockKept(s: State, m: Move)
    requires Inv(s) && Enabled(s, m)
    ensures LockOk(Step(s, m))
  {
    hide Kept, Without;
    var s' := Step(s, m);
    forall a | At(s', a).Adding? || At(s', a).Removing? ensures s'.mutex == Some(a) && At(s', a).cur == s'.published {
      if m.LoadFails? || m.Swap? || m.a != a {
        OthersKeep(s, m, a);
      }
    }
  }

  lemma {:induction false} CloseKept(s: State, m: Move)
    requires Inv(s) && Enabled(s, m)
    ensures CloseOk(Step(s, m))
  {
    hide Kept, Without, CallsOk, ReloadOk;
    var s' := Step(s, m);
    forall a | At(s', a).Adding? ensures At(s', a).sub !in s'.added && At(s', a).sub < s'.issued {
      if m.LoadFails? || m.Swap? || m.a != a {
        OthersKeep(s, m, a);
      }
    }
    forall a | Closing(s', a) ensures At(s', a).sub in s'.closed && At(s', a).sub !in s'.removed {
      if m.LoadFails? || m.Swap? || m.a != a {
        OthersKeep(s, m, a);
        assert Closing(s, a);
        if m.StoreRemoved? {
          assert Closing(s, m.a);
        }
      }
    }
    forall a, b | Closing(s', a) && Closing(s', b) && a != b ensures At(s', a).sub != At(s', b).sub {
      if m.LoadFails? || m.Swap? || m.a != a {
        OthersKeep(s, m, a);
        assert Closing(s, a);
      }
      if m.LoadFails? || m.Swap? || m.a != b {
        OthersKeep(s, m, b);
        assert Closing(s, b);
      }
    }
  }

  lemma {:induction false} CallsKept(s: State, m: Move)
    requires Inv(s) && Enabled(s, m)
    ensures CallsOk(Step(s, m))
  {
    hide Kept, Without, ListOk, LockOk, CloseOk, ReloadOk;
    var s' := Step(s, m);
    forall a | At(s', a).Notifying? ensures Caught(s', a) {
      if m.LoadFails? || m.Swap? || m.a != a {
        OthersKeep(s, m, a);
      }
      if At(s, a).Notifying? {
        assert Caught(s, a);
      }
    }
    forall a, b | At(s', a).Notifying? && At(s', b).Notifying? && a != b ensures At(s', a).n != At(s', b).n {
      if m.LoadFails? || m.Swap? || m.a != a {
        OthersKeep(s, m, a);
        assert Caught(s, a);
      }
      if m.LoadFails? || m.Swap? || m.a != b {
        OthersKeep(s, m, b);
        assert Caught(s, b);
      }
    }
    if m.Notify? {
      assert At(s', m.a).n == |s.calls|;
    }
    forall n: nat | n < |s'.calls| && Ended(s', n) ensures s'.calls[n] == s'.snapshots[n] {
      EndedEarlier(s, m, n);
    }
  }

  /** A notification ended now had ended before, or ends in this step with everything called. */
  lemma {:induction false} EndedEarlier(s: State, m: Move, n: nat)
    requires CallsOk(s) && Enabled(s, m) && n < |Step(s, m).calls| && Ended(Step(s, m), n)
    ensures |Step(s, m).calls| == |Step(s, m).snapshots| && Step(s, m).calls[n] == Step(s, m).snapshots[n]
  {
    hide Without;
    var s' := Step(s, m);
    if m.Notify? || m.Call? {
      assert At(s', m.a).Notifying?;
    }
    if forall a :: At(s, a).Notifying? && At(s, a).n == n ==> false {
      assert Ended(s, n);
    } else {
      var a :| At(s, a).Notifying? && At(s, a).n == n;
      assert Caught(s, a);
      assert At(s', a).Notifying? ==> At(s', a).n != n;
      if m.LoadFails? || m.Swap? || m.a != a {
        OthersKeep(s, m, a);
      }
      assert At(s, a).snapshot[..|At(s, a).snapshot|] == At(s, a).snapshot;
    }
  }

  lemma {:induction false} ReloadKept(s: State, m: Move)
    requires Inv(s) && Enabled(s, m)
    ensures ReloadOk(Step(s, m))
  {
    hide Kept, Without, CallsOk;
    var s' := Step(s, m);
    forall a | a != RELOADER && (Closing(s', a) || At(s', a).Adding?) ensures At(s', a).sub !in s'.owned {
      if m.LoadFails? || m.Swap? || m.a != a {
        OthersKeep(s, m, a);
      }
    }
    if m.LoadFails? || m.Swap? || m.a != RELOADER {
      OthersKeep(s, m, RELOADER);
    }
  }

  lemma {:induction false} WayKept(s: State, m: Move)
    requires Inv(s) && Enabled(s, m)
    ensures WayOk(Step(s, m))
  {
    hide Kept, Without, CallsOk, ReloadOk, SnapshotsOk, ListOk;
    var s' := Step(s, m);
    forall x: Sub | x < s'.issued ensures x in s'.added || BeingAdded(s', x) {
      AddedOrOnTheWay(s, m, x);
    }
    forall x | x in s'.closed ensures x in s'.removed || BeingRemoved(s', x) {
      RemovedOrOnTheWay(s, m, x);
    }
    if s'.mutex.Some? && (m.LoadFails? || m.Swap? || m.a != s'.mutex.value) {
      OthersKeep(s, m, s'.mutex.value);
    }
  }

  lemma {:induction false} AddedOrOnTheWay(s: State, m: Move, x: Sub)
    requires Inv(s) && Enabled(s, m) && x < Step(s, m).issued
    ensures x in Step(s, m).added || BeingAdded(Step(s, m), x)
  {
    hide Kept, Without, CallsOk, ReloadOk, SnapshotsOk, ListOk, LockOk, CloseOk;
    if x == s.issued {
      assert At(Step(s, m), m.a).Adding?;
    } else if x !in s.added {
      var a :| At(s, a).Adding? && At(s, a).sub == x;
      if m.LoadFails? || m.Swap? || m.a != a {
        OthersKeep(s, m, a);
      }
    }
  }

  lemma {:induction false} RemovedOrOnTheWay(s: State, m: Move, x: Sub)
    requires Inv(s) && Enabled(s, m) && x in Step(s, m).closed
    ensures x in Step(s, m).removed || BeingRemoved(Step(s, m), x)
  {
    hide Kept, Without, CallsOk, ReloadOk, SnapshotsOk, ListOk, LockOk, CloseOk;
    if x !in s.closed {
      assert Closing(Step(s, m), m.a);
    } else if x !in s.removed {
      var a :| Closing(s, a) && At(s, a).sub == x;
      if m.LoadFails? || m.Swap? || m.a != a {
        OthersKeep(s, m, a);
      }
      assert Closing(Step(s, m), a) || (m.StoreRemoved? && m.a == a);
    }
  }

  lemma {:induction false} StepKeeps(s: State, m: Move)
    requires Inv(s)
    ensures Inv(Step(s, m))
  {
    if Enabled(s, m) {
      ListKept(s, m);
      SnapshotsKept(s, m);
      LockKept(s, m);
      CloseKept(s, m);
      CallsKept(s, m);
      ReloadKept(s, m);
      WayKept(s, m);
    }
  }

  lemma {:induction false} AlwaysInv(moves: seq<Move>, n: nat)
    requires n <= |moves|
    ensures Inv(After(moves, n))
  {
    hide Step, Inv;
    if n == 0 {
      StartInv();
    } else {
      AlwaysInv(moves, n - 1);
      StepKeeps(After(moves, n - 1), moves[n - 1]);
    }
  }

  lemma {:induction false} StartInv()
    ensures Inv(Start())
  {
  }

  /* ---- what it means ---- */

  /**
   In every interleaving the published list holds, without duplicates and in
   the order of subscription, exactly the subscriptions whose removal has not
   been stored.
   */
  lemma {:induction false} PublishedExactly(moves: seq<Move>, n: nat)
    requires n <= |moves|
    ensures var s := After(moves, n);
            && s.published == Kept(s.added, s.removed) && Distinct(s.added) && Distinct(s.published)
            && forall x :: x in s.published <==> x in s.added && x !in s.removed
  {
    hide After;
    AlwaysInv(moves, n);
    var s := After(moves, n);
    KeptDistinct(s.added, s.removed);
    forall x ensures x in s.published <==> x in s.added && x !in s.removed {
      KeptIs(s.added, s.removed, x);
    }
  }

  /**
   A subscription that was closed, with its Close at an end, is out of the list
   for good; one that was issued, with its Subscribe at an end and not closed,
   is in it.
   */
  lemma {:induction false} ClosedIsGone(moves: seq<Move>, n: nat, x: Sub)
    requires n <= |moves|
    ensures var s := After(moves, n);
            x in s.closed && !BeingRemoved(s, x) ==> x in s.removed && x !in s.published
    ensures var s := After(moves, n);
            x < s.issued && !BeingAdded(s, x) && x !in s.closed ==> x in s.published
  {
    hide After;
    AlwaysInv(moves, n);
    var s := After(moves, n);
    KeptIs(s.added, s.removed, x);
  }

  /** The store that ends a Subscribe or Close under way gives the mutex back. */
  function Unlock(s: State, a: nat): Move {
    if At(s, a).Adding? then StoreAdded(a) else StoreRemoved(a)
  }

  lemma {:induction false} Unlocks(s: State)
    requires Inv(s) && s.mutex.Some?
    ensures var m := Unlock(s, s.mutex.value);
            && Enabled(s, m) && Step(s, m).mutex.None?
            && forall a :: a != s.mutex.value ==> At(Step(s, m), a) == At(s, a)
  {
    hide Kept, Without, CallsOk, ReloadOk, SnapshotsOk, ListOk, CloseOk;
    var m := Unlock(s, s.mutex.value);
    forall a | a != s.mutex.value ensures At(Step(s, m), a) == At(s, a) {
      OthersKeep(s, m, a);
    }
  }

  /** With the mutex free, a winning Close takes its subscription out of the list in two steps, and nothing else. */
  lemma {:induction false} CloseRemoves(s: State, a: nat)
    requires Inv(s) && At(s, a).Leaving? && s.mutex.None?
    ensures var x := At(s, a).sub;
            var s' := Step(Step(s, LockToRemove(a)), StoreRemoved(a));
            && s'.published == Without(s.published, x) && x !in s'.published && s'.removed == s.removed + {x}
            && At(s', a).Idle? && s'.mutex.None? && (a == RELOADER ==> s'.reload == Resting)
  {
    hide Kept, CallsOk, ReloadOk, SnapshotsOk, ListOk, CloseOk, LockOk, Without;
    WithoutLacks(s.published, At(s, a).sub);
  }

  lemma {:induction false} WithoutLacks(subs: seq<Sub>, x: Sub)
    ensures forall y :: y in Without(subs, x) <==> y in subs && y != x
  {
    if subs != [] {
      WithoutLacks(subs[1..], x);
    }
  }

  /** And a Subscribe puts its subscription at the end of the list in two steps. */
  lemma {:induction false} SubscribeAdds(s: State, a: nat)
    requires Enabled(s, Subscribe(a))
    ensures var s' := Step(Step(s, Subscribe(a)), StoreAdded(a));
            && s'.published == s.published + [s.issued] && s'.added == s.added + [s.issued]
            && At(s', a).Idle? && s'.mutex.None?
  {
    hide Kept, Without;
  }

  /** The moves by which goroutine a ends its Close, after whoever holds the mutex. */
  function Finishing(s: State, a: nat): seq<Move> {
    (if s.mutex.Some? then [Unlock(s, s.mutex.value)] else []) + [LockToRemove(a), StoreRemoved(a)]
  }

  function Run(s: State, moves: seq<Move>): State
    decreases |moves|
  {
    if moves == [] then s else Run(Step(s, moves[0]), moves[1..])
  }

  /** No Close can be kept from ending: from every reachable state its goroutine is at most three moves from the removal. */
  lemma {:induction false} CloseCanEnd(moves: seq<Move>, n: nat, a: nat)
    requires n <= |moves| && At(After(moves, n), a).Leaving?
    ensures var s := After(moves, n);
            var s' := Run(s, Finishing(s, a));
            |Finishing(s, a)| <= 3 && At(s, a).sub !in s'.published && At(s, a).sub in s'.removed && At(s', a).Idle?
  {
    AlwaysInv(moves, n);
    Finishes(After(moves, n), a);
  }

  lemma {:induction false} Finishes(s: State, a: nat)
    requires Inv(s) && At(s, a).Leaving?
    ensures var s' := Run(s, Finishing(s, a));
            && At(s, a).sub !in s'.published && At(s, a).sub in s'.removed && At(s', a).Idle?
            && (a == RELOADER ==> s'.reload == Resting)
  {
    hide Step, Inv, Kept, Without;
    var free := s;
    if s.mutex.Some? {
      HolderIsAnother(s, a);
      Unlocks(s);
      free := Step(s, Unlock(s, s.mutex.value));
      StepKeeps(s, Unlock(s, s.mutex.value));
    } else {
      assert [] + [LockToRemove(a), StoreRemoved(a)] == [LockToRemove(a), StoreRemoved(a)];
    }
    CloseRemoves(free, a);
    TwoMoves(free, LockToRemove(a), StoreRemoved(a));
    assert s.mutex.Some? ==> Finishing(s, a)[1..] == [LockToRemove(a), StoreRemoved(a)];
  }

  /** The reload in which a previous state is retired ends, with that state's subscription out of the list. */
  lemma {:induction false} ReloadCanEnd(moves: seq<Move>, n: nat)
    requires n <= |moves| && After(moves, n).reload.Retiring? && At(After(moves, n), RELOADER).Idle?
    ensures var s := After(moves, n);
            var x := s.reload.prev;
            var closing := Step(s, Close(RELOADER, x));
            var s' := Run(closing, Finishing(closing, RELOADER));
            Enabled(s, Close(RELOADER, x)) && x in s.published && x !in s'.published && s'.reload == Resting
  {
    hide After;
    AlwaysInv(moves, n);
    var s := After(moves, n);
    var x := s.reload.prev;
    KeptIs(s.added, s.removed, x);
    NotYetClosed(s);
    StepKeeps(s, Close(RELOADER, x));
    Finishes(Step(s, Close(RELOADER, x)), RELOADER);
  }

  lemma {:induction false} NotYetClosed(s: State)
    requires Inv(s) && s.reload.Retiring? && At(s, RELOADER).Idle?
    ensures s.reload.prev !in s.closed
  {
    hide Kept, CallsOk, SnapshotsOk, CloseOk, LockOk;
  }

  /** A Close of what nobody closed is under way after its first step; any later Close changes nothing. */
  lemma {:induction false} CloseStarts(s: State, a: nat, x: Sub)
    requires Enabled(s, Close(a, x))
    ensures x !in s.closed ==> At(Step(s, Close(a, x)), a) == Leaving(x) && x in Step(s, Close(a, x)).closed
    ensures x in s.closed ==> Step(s, Close(a, x)) == s
  {
    hide Without;
  }

  lemma {:induction false} HolderIsAnother(s: State, a: nat)
    requires Inv(s) && s.mutex.Some? && At(s, a).Leaving?
    ensures s.mutex.value != a
  {
  }

  lemma {:induction false} TwoMoves(s: State, m: Move, k: Move)
    ensures Run(s, [m, k]) == Step(Step(s, m), k)
  {
    var none: seq<Move> := [];
    assert [m, k][1..] == [k] && [k][1..] == none;
    assert Run(Step(Step(s, m), k), none) == Step(Step(s, m), k);
  }

  /** A notification calls members of its snapshot in order, each at most once, and all of them by its end. */
  lemma {:induction false} NotifiedOnce(moves: seq<Move>, n: nat, k: nat)
    requires n <= |moves| && k < |After(moves, n).calls|
    ensures var s := After(moves, n);
            && k < |s.snapshots| && Distinct(s.snapshots[k]) && s.calls[k] <= s.snapshots[k]
            && (Ended(s, k) ==> s.calls[k] == s.snapshots[k])
  {
    AlwaysInv(moves, n);
    var s := After(moves, n);
    if !Ended(s, k) {
      var a :| At(s, a).Notifying? && At(s, a).n == k;
      assert Caught(s, a);
    }
  }

  /**
   The live state's page cache is always subscribed: through every reload,
   failed or not, its subscription is in the list, so every notification that
   starts calls it.
   */
  lemma {:induction false} LiveIsSubscribed(moves: seq<Move>, n: nat, a: nat)
    requires n <= |moves| && After(moves, n).live.Some?
    ensures After(moves, n).live.value in After(moves, n).published
    ensures var s' := Step(After(moves, n), Notify(a));
            Enabled(After(moves, n), Notify(a)) ==>
              |s'.snapshots| > 0 && s'.snapshots[|s'.snapshots| - 1] == After(moves, n).published
              && After(moves, n).live.value in s'.snapshots[|s'.snapshots| - 1]
  {
    AlwaysInv(moves, n);
    var s := After(moves, n);
    KeptIs(s.added, s.removed, s.live.value);
  }

  /** A reload that fails after subscribing leaves its subscription in the list for good: nobody may close it. */
  lemma {:induction false} FailedLoadStays(moves: seq<Move>, m: nat, n: nat, x: Sub)
    requires m < n <= |moves| && FailsAt(moves, m, x)
    ensures x in After(moves, n).published
  {
    hide Step;
    StaysOwned(moves, m, n, x);
    AlwaysInv(moves, n);
    KeptIs(After(moves, n).added, After(moves, n).removed, x);
  }

  /** An orphan: stored, never closed, and no longer in the reloader's hands. */
  ghost predicate Orphan(s: State, x: Sub) {
    && Safe(s, x) && s.live != Some(x) && s.reload != Built(x) && s.reload != Retiring(x)
  }

  lemma {:induction false} StaysOwned(moves: seq<Move>, m: nat, n: nat, x: Sub)
    requires m < n <= |moves| && FailsAt(moves, m, x)
    ensures Orphan(After(moves, n), x)
    decreases n
  {
    hide After;
    AlwaysInv(moves, n - 1);
    AfterUnfolds(moves, n);
    if n == m + 1 {
    } else {
      StaysOwned(moves, m, n - 1, x);
      OrphanStays(After(moves, n - 1), moves[n - 1], x);
    }
  }

  lemma {:induction false} AfterUnfolds(moves: seq<Move>, n: nat)
    requires 0 < n <= |moves|
    ensures After(moves, n) == Step(After(moves, n - 1), moves[n - 1])
  {
  }

  lemma {:induction false} OrphanStays(s: State, m: Move, x: Sub)
    requires Inv(s) && Orphan(s, x)
    ensures Orphan(Step(s, m), x)
  {
    hide Kept, Without, CallsOk;
  }

  /** A reload failed after subscribing x. */
  ghost predicate FailedLoad(moves: seq<Move>, n: nat, x: Sub)
    requires n <= |moves|
  {
    exists m: nat :: m < n && FailsAt(moves, m, x)
  }

  ghost predicate FailsAt(moves: seq<Move>, m: nat, x: Sub)
    requires m < |moves|
  {
    moves[m].LoadFails? && After(moves, m).reload == Built(x) && After(moves, m).live.Some?
  }

  /** The reloader still deals with x, or x is live. */
  ghost predicate InHand(s: State, x: Sub) {
    || s.live == Some(x) || s.reload == Built(x) || s.reload == Retiring(x)
    || (At(s, RELOADER).Adding? && At(s, RELOADER).sub == x)
  }

  lemma {:induction false} LeavesHand(s: State, m: Move, x: Sub)
    requires Inv(s)
    requires InHand(s, x) || x !in s.owned
    ensures x in Step(s, m).owned ==>
              InHand(Step(s, m), x) || x in Step(s, m).removed || (m.LoadFails? && s.reload == Built(x) && s.live.Some?)
  {
    hide Kept, Without, CallsOk, ListOk, SnapshotsOk, LockOk, CloseOk;
    if Enabled(s, m) && (m.LoadFails? || m.Swap? || m.a != RELOADER) {
      OthersKeep(s, m, RELOADER);
    }
  }

  lemma {:induction false} RemovedStays(s: State, m: Move, x: Sub)
    ensures x in s.removed ==> x in Step(s, m).removed
  {
    hide Without;
  }

  /** Every subscription of the reloader not yet removed is in hand, live, or left by a failed load. */
  lemma {:induction false} OwnedAccountedFor(moves: seq<Move>, n: nat, x: Sub)
    requires n <= |moves| && x in After(moves, n).owned && x !in After(moves, n).removed
    ensures InHand(After(moves, n), x) || FailedLoad(moves, n, x)
  {
    hide Step, Inv, InHand, After;
    StartOf(moves);
    assert n > 0;
    var s := After(moves, n - 1);
    AfterUnfolds(moves, n);
    AlwaysInv(moves, n - 1);
    RemovedStays(s, moves[n - 1], x);
    if x in s.owned {
      OwnedAccountedFor(moves, n - 1, x);
      if FailedLoad(moves, n - 1, x) {
        var m: nat :| m < n - 1 && FailsAt(moves, m, x);
        assert FailedLoad(moves, n, x);
        return;
      }
    }
    LeavesHand(s, moves[n - 1], x);
    if moves[n - 1].LoadFails? && s.reload == Built(x) && s.live.Some? {
      assert FailsAt(moves, n - 1, x);
    }
  }

  /**
   Of the subscriptions that reloads took, the list holds exactly the live
   one, the one just built, the one about to be retired, and those of loads
   that failed; while no reload is under way, the live one and those of failed
   loads.
   */
  lemma {:induction false} ReloadsLeave(moves: seq<Move>, n: nat, x: Sub)
    requires n <= |moves| && x in After(moves, n).owned
    ensures var s := After(moves, n);
            x in s.published <==> s.live == Some(x) || s.reload == Built(x) || s.reload == Retiring(x) || FailedLoad(moves, n, x)
    ensures var s := After(moves, n);
            s.reload.Resting? ==> (x in s.published <==> s.live == Some(x) || FailedLoad(moves, n, x))
  {
    hide Step, After;
    var s := After(moves, n);
    AlwaysInv(moves, n);
    KeptIs(s.added, s.removed, x);
    if x in s.published {
      OwnedAccountedFor(moves, n, x);
    }
    if FailedLoad(moves, n, x) {
      var m: nat :| m < n && FailsAt(moves, m, x);
      FailedLoadStays(moves, m, n, x);
    }
  }

  /** Such a run: a first load is swapped in, the next one subscribes and fails, and its subscription stays in the list. */
  lemma {:induction false} FailedReload()
    ensures var moves := [Subscribe(RELOADER), StoreAdded(RELOADER), Swap, Subscribe(RELOADER), StoreAdded(RELOADER), LoadFails];
            var s := After(moves, 6);
            s.published == [0, 1] && s.live == Some(0) && s.reload == Resting && FailedLoad(moves, 6, 1)
  {
    var moves := [Subscribe(RELOADER), StoreAdded(RELOADER), Swap, Subscribe(RELOADER), StoreAdded(RELOADER), LoadFails];
    hide After, Step;
    StartOf(moves);
    Subscribes(moves, 0);
    AfterUnfolds(moves, 3);
    SwapIs(After(moves, 2));
    Subscribes(moves, 3);
    AfterUnfolds(moves, 6);
    FailIs(After(moves, 5));
    assert FailsAt(moves, 5, 1);
  }

  /** The reloader subscribes and stores, undisturbed. */
  lemma {:induction false} Subscribes(moves: seq<Move>, n: nat)
    requires n + 2 <= |moves| && moves[n] == Subscribe(RELOADER) && moves[n + 1] == StoreAdded(RELOADER)
    requires var s := After(moves, n); At(s, RELOADER).Idle? && s.mutex.None? && s.reload.Resting?
    ensures var s, s' := After(moves, n), After(moves, n + 2);
            && At(s', RELOADER).Idle? && s'.mutex.None? && s'.reload == Built(s.issued) && s'.live == s.live
            && s'.published == s.published + [s.issued] && s'.issued == s.issued + 1
  {
    hide After;
    AfterUnfolds(moves, n + 1);
    AfterUnfolds(moves, n + 2);
  }

  lemma {:induction false} SwapIs(s: State)
    requires s.reload.Built? && s.live.None?
    ensures Step(s, Swap) == s.(live := Some(s.reload.sub), reload := Resting)
  {
  }

  lemma {:induction false} FailIs(s: State)
    requires s.reload.Built? && s.live.Some?
    ensures Step(s, LoadFails) == s.(reload := Resting)
  {
  }

  lemma {:induction false} StartOf(moves: seq<Move>)
    ensures After(moves, 0) == Start()
  {
  }
}

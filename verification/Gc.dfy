/** Reachability and pruning (modules/store/src/dag.cpp, modules/store/src/gc.cpp) and the ancestor invariant that
    makes pruning safe (modules/store/src/verify.cpp). */
module Gc {
  import opened Common
  import opened Records
  import opened Reader
  import opened Locality
  import opened Dag
  import opened Planner
  import opened MountedFile

  ghost predicate Reachable(p: Prims, store: Store, tips: seq<Oid>, x: Oid) {
    exists t :: t in tips && Reaches(p, store, t, x)
  }

  // ------------------------------------------------------------- walk_commits

  function StampOf(p: Prims, store: Store, oid: Oid): nat {
    var c := GetCommit(p, store, oid);
    if c.Ok? then c.value.stamp else 0
  }

  /** The newest commit in the frontier. */
  method Newest(p: Prims, store: Store, pq: seq<Oid>) returns (k: nat)
    requires pq != []
    ensures k < |pq| && forall i :: 0 <= i < |pq| ==> StampOf(p, store, pq[i]) <= StampOf(p, store, pq[k])
  {
    hide StampOf;
    k := 0;
    var i := 1;
    while i < |pq|
      invariant 1 <= i <= |pq| && k < i && forall j :: 0 <= j < i ==>
          StampOf(p, store, pq[j]) <= StampOf(p, store, pq[k])
    {
      if StampOf(p, store, pq[k]) < StampOf(p, store, pq[i]) {
        k := i;
      }
      i := i + 1;
    }
  }

  ghost predicate IsCommit(p: Prims, store: Store, oid: Oid) { GetCommit(p, store, oid).Ok? }

  /** Put commits not seen before on the frontier, reading each. */
  method Discover(p: Prims, store: Store, seen: set<Oid>, pq: seq<Oid>, oids: seq<Oid>)
      returns (r: Result<(set<Oid>, seq<Oid>)>)
    requires Distinct(pq) && forall x :: x in pq ==> x in seen
    ensures r.Ok? ==> (forall x :: x in r.value.0 <==> x in seen || x in oids)
    ensures r.Ok? ==> Distinct(r.value.1) && forall x :: x in r.value.1 <==> x in pq || (x in oids && x !in seen)
    ensures r.Ok? ==> forall x :: x in oids && x !in seen ==> IsCommit(p, store, x)
    ensures r.Err? ==> exists x :: x in oids && !IsCommit(p, store, x)
  {
    var s, q, i := seen, pq, 0;
    while i < |oids|
      invariant 0 <= i <= |oids| && (forall x :: x in s <==> x in seen || x in oids[..i])
      invariant Distinct(q) && forall x :: x in q <==> x in pq || (x in oids[..i] && x !in seen)
      invariant forall x :: x in oids[..i] && x !in seen ==> IsCommit(p, store, x)
    {
      hide GetCommit;
      var x := oids[i];
      assert oids[..i + 1] == oids[..i] + [x];
      if x !in s {
        var c := GetCommit(p, store, x);
        if c.Err? {
          assert x in oids && !IsCommit(p, store, x);
          return Err(c.error);
        }
        assert x !in q;
        s, q := s + {x}, q + [x];
      }
      i := i + 1;
    }
    assert oids[..i] == oids;
    return Ok((s, q));
  }

  /** Seen is done plus frontier, all reachable and readable; the parents of what is done are seen. */
  ghost predicate WalkingFrom(p: Prims, store: Store, tips: seq<Oid>, seen: set<Oid>, pq: seq<Oid>, order: seq<Oid>) {
    && Distinct(pq) && Distinct(order)
    && (forall x :: x in seen <==> x in pq || x in order) && (forall x :: x in pq ==> x !in order)
    && (forall x :: x in seen ==> Reachable(p, store, tips, x) && IsCommit(p, store, x))
    && (forall t :: t in tips ==> t in seen)
    && (forall x, y :: x in order && IsParent(p, store, x, y) ==> y in seen)
  }

  lemma ReachableParent(p: Prims, store: Store, tips: seq<Oid>, x: Oid, y: Oid)
    requires Reachable(p, store, tips, x) && IsParent(p, store, x, y)
    ensures Reachable(p, store, tips, y)
  {
    var t :| t in tips && Reaches(p, store, t, x);
    ReachesParent(p, store, t, x, y);
  }

  lemma ReachableTips(p: Prims, store: Store, tips: seq<Oid>)
    ensures forall t :: t in tips ==> Reachable(p, store, tips, t)
  {
    forall t | t in tips ensures Reachable(p, store, tips, t) { ReachesSelf(p, store, t); }
  }

  lemma WalkEndsHere(p: Prims, store: Store, tips: seq<Oid>, seen: set<Oid>, order: seq<Oid>)
    requires WalkingFrom(p, store, tips, seen, [], order)
    ensures forall x :: x in order <==> Reachable(p, store, tips, x)
  {
    forall x | Reachable(p, store, tips, x) ensures x in order {
      var t :| t in tips && Reaches(p, store, t, x);
      var n: nat :| ReachIn(p, store, t, x, n);
      ClosedHolds(p, store, t, x, n, seen);
    }
  }

  function Without(s: seq<Oid>, k: nat): (r: seq<Oid>)
    requires k < |s|
    ensures Distinct(s) ==> Distinct(r) && forall x :: x in r <==> x in s && x != s[k]
  {
    assert forall x :: x in s <==> x in s[..k] || x == s[k] || x in s[k + 1..];
    s[..k] + s[k + 1..]
  }

  lemma WalkMoves(p: Prims, store: Store, tips: seq<Oid>, seen: set<Oid>, pq: seq<Oid>, order: seq<Oid>, k: nat,
      c: Commit, seen2: set<Oid>, pq2: seq<Oid>)
    requires WalkingFrom(p, store, tips, seen, pq, order) && k < |pq| && GetCommit(p, store, pq[k]) == Ok(c)
    requires forall x :: x in seen2 <==> x in seen || x in c.parents
    requires Distinct(pq2) && forall x :: x in pq2 <==> x in Without(pq, k) || (x in c.parents && x !in seen)
    requires forall x :: x in c.parents && x !in seen ==> IsCommit(p, store, x)
    ensures WalkingFrom(p, store, tips, seen2, pq2, order + [pq[k]])
  {
    hide Reachable, IsCommit, Without;
    var cur, order2 := pq[k], order + [pq[k]];
    assert cur in pq && cur in seen;
    assert cur !in order;
    WithoutIs(pq, k);
    forall x | x in seen2 ensures Reachable(p, store, tips, x) && IsCommit(p, store, x) {
      if x !in seen {
        ParentOf(p, store, cur, c, x);
        ReachableParent(p, store, tips, cur, x);
      }
    }
    forall x, y | x in order2 && IsParent(p, store, x, y) ensures y in seen2 {
      if x != cur {
        assert x in order;
      }
    }
    hide IsParent, GetCommit;
    forall x | x in seen2 ensures x in pq2 || x in order2 {
      if x in pq && x != cur {
        assert x in Without(pq, k);
      }
    }
    forall x | x in pq2 ensures x !in order2 && x in seen2 {
      if x in Without(pq, k) {
        assert x in pq && x != cur;
      }
    }
    assert Distinct(order2);
  }

  lemma WithoutIs(s: seq<Oid>, k: nat)
    requires k < |s| && Distinct(s)
    ensures Distinct(Without(s, k)) && forall x :: x in Without(s, k) <==> x in s && x != s[k]
  {}

  ghost predicate BrokenFrom(p: Prims, store: Store, tips: seq<Oid>) {
    exists x :: Reachable(p, store, tips, x) && GetCommit(p, store, x).Err?
  }

  lemma BrokenBy(p: Prims, store: Store, tips: seq<Oid>, x: Oid)
    requires Reachable(p, store, tips, x) && !IsCommit(p, store, x)
    ensures BrokenFrom(p, store, tips)
  {}

  /** Waiting to be visited once `done` has been: a tip or a parent of something visited. */
  ghost predicate Waiting(p: Prims, store: Store, tips: seq<Oid>, done: seq<Oid>, x: Oid) {
    x !in done && (x in tips || HasChild(p, store, done, x))
  }

  ghost predicate HasChild(p: Prims, store: Store, done: seq<Oid>, x: Oid) {
    exists y :: y in done && IsParent(p, store, y, x)
  }

  /** Each visited commit was waiting, and no commit then waiting was newer. */
  ghost predicate NewestFirst(p: Prims, store: Store, tips: seq<Oid>, order: seq<Oid>) {
    && (forall k :: 0 <= k < |order| ==> Waiting(p, store, tips, order[..k], order[k]))
    && (forall k, x :: 0 <= k < |order| && Waiting(p, store, tips, order[..k], x) ==>
        NotNewer(p, store, x, order[k]))
  }

  /** Both can be read, and x carries no later time than y. */
  ghost predicate NotNewer(p: Prims, store: Store, x: Oid, y: Oid) {
    && GetCommit(p, store, x).Ok? && GetCommit(p, store, y).Ok?
    && GetCommit(p, store, x).value.stamp <= GetCommit(p, store, y).value.stamp
  }

  /** Nothing was seen but tips and parents of what was visited. */
  ghost predicate SeenFrom(p: Prims, store: Store, tips: seq<Oid>, seen: set<Oid>, order: seq<Oid>) {
    forall x :: x in seen ==> x in tips || HasChild(p, store, order, x)
  }

  lemma WaitingIsFrontier(p: Prims, store: Store, tips: seq<Oid>, seen: set<Oid>, pq: seq<Oid>, order: seq<Oid>,
      x: Oid)
    requires WalkingFrom(p, store, tips, seen, pq, order) && SeenFrom(p, store, tips, seen, order)
    ensures Waiting(p, store, tips, order, x) <==> x in pq
  {
    hide IsParent, Reachable, IsCommit;
    if Waiting(p, store, tips, order, x) && x !in tips {
      var y :| y in order && IsParent(p, store, y, x);
    }
  }

  lemma VisitNewest(p: Prims, store: Store, tips: seq<Oid>, seen: set<Oid>, pq: seq<Oid>, order: seq<Oid>, k: nat)
    requires WalkingFrom(p, store, tips, seen, pq, order) && SeenFrom(p, store, tips, seen, order)
        && NewestFirst(p, store, tips, order)
    requires k < |pq| && forall i :: 0 <= i < |pq| ==> StampOf(p, store, pq[i]) <= StampOf(p, store, pq[k])
    ensures NewestFirst(p, store, tips, order + [pq[k]])
  {
    hide WalkingFrom, SeenFrom, StampOf, Waiting, NotNewer;
    var next := order + [pq[k]];
    forall i | 0 <= i < |next| ensures Waiting(p, store, tips, next[..i], next[i]) {
      if i < |order| {
        assert next[..i] == order[..i];
      } else {
        assert next[..i] == order;
        WaitingIsFrontier(p, store, tips, seen, pq, order, pq[k]);
      }
    }
    forall i, x | 0 <= i < |next| && Waiting(p, store, tips, next[..i], x)
      ensures NotNewer(p, store, x, next[i])
    {
      if i < |order| {
        assert next[..i] == order[..i];
      } else {
        assert next[..i] == order;
        WaitingIsFrontier(p, store, tips, seen, pq, order, x);
        var j :| 0 <= j < |pq| && pq[j] == x;
        FrontierStamps(p, store, tips, seen, pq, order, j, k);
      }
    }
  }

  lemma FrontierStamps(p: Prims, store: Store, tips: seq<Oid>, seen: set<Oid>, pq: seq<Oid>, order: seq<Oid>, j: nat,
      k: nat)
    requires WalkingFrom(p, store, tips, seen, pq, order) && j < |pq| && k < |pq|
    ensures StampOf(p, store, pq[j]) <= StampOf(p, store, pq[k]) ==> NotNewer(p, store, pq[j], pq[k])
  {
    hide GetCommit;
    assert pq[j] in seen && pq[k] in seen;
    assert IsCommit(p, store, pq[j]) && IsCommit(p, store, pq[k]);
  }

  lemma SeeParents(p: Prims, store: Store, tips: seq<Oid>, seen: set<Oid>, order: seq<Oid>, cur: Oid, c: Commit,
      seen2: set<Oid>)
    requires SeenFrom(p, store, tips, seen, order) && GetCommit(p, store, cur) == Ok(c)
    requires forall x :: x in seen2 <==> x in seen || x in c.parents
    ensures SeenFrom(p, store, tips, seen2, order + [cur])
  {
    hide GetCommit, IsParent;
    forall x | x in seen2 && x !in tips ensures HasChild(p, store, order + [cur], x) {
      if x in c.parents {
        ParentOf(p, store, cur, c, x);
        assert cur in order + [cur];
      } else {
        var y :| y in order && IsParent(p, store, y, x);
        assert y in order + [cur];
      }
    }
  }

  /** walk_commits with a visitor that never stops: every reachable commit once, each newest in the frontier it was
      taken from. */
  method WalkCommits(p: Prims, store: Store, tips: seq<Oid>) returns (r: Result<seq<Oid>>)
    ensures r.Ok? ==> Distinct(r.value) && forall x :: x in r.value <==> Reachable(p, store, tips, x)
    ensures r.Ok? ==> NewestFirst(p, store, tips, r.value)
    ensures r.Err? ==> BrokenFrom(p, store, tips)
  {
    ReachableTips(p, store, tips);
    var first := Discover(p, store, {}, [], tips);
    hide Reachable, IsCommit, GetCommit, Without;
    if first.Err? {
      ghost var x :| x in tips && !IsCommit(p, store, x);
      BrokenBy(p, store, tips, x);
      return Err(first.error);
    }
    var seen, pq, order := first.value.0, first.value.1, [];
    assert WalkingFrom(p, store, tips, seen, pq, order);
    assert SeenFrom(p, store, tips, seen, order) && NewestFirst(p, store, tips, order);
    hide StampOf, NewestFirst, SeenFrom;
    while pq != []
      invariant WalkingFrom(p, store, tips, seen, pq, order) && SeenFrom(p, store, tips, seen, order)
          && NewestFirst(p, store, tips, order)
      decreases |store.Keys - Known(order)|
    {
      var k := Newest(p, store, pq);
      var cur := pq[k];
      Frontier(p, store, tips, seen, pq, order, k);
      hide WalkingFrom;
      var c := GetCommit(p, store, cur).value;
      var next := Discover(p, store, seen, Without(pq, k), c.parents);
      if next.Err? {
        ghost var x :| x in c.parents && !IsCommit(p, store, x);
        ParentOf(p, store, cur, c, x);
        ReachableParent(p, store, tips, cur, x);
        BrokenBy(p, store, tips, x);
        return Err(next.error);
      }
      WalkMoves(p, store, tips, seen, pq, order, k, c, next.value.0, next.value.1);
      VisitNewest(p, store, tips, seen, pq, order, k);
      SeeParents(p, store, tips, seen, order, cur, c, next.value.0);
      Progress(store, order, cur);
      seen, pq, order := next.value.0, next.value.1, order + [cur];
    }
    WalkEndsHere(p, store, tips, seen, order);
    return Ok(order);
  }

  lemma ParentOf(p: Prims, store: Store, cur: Oid, c: Commit, x: Oid)
    requires GetCommit(p, store, cur) == Ok(c) && x in c.parents
    ensures IsParent(p, store, cur, x)
  {}

  ghost function Known(order: seq<Oid>): (r: set<Oid>) {
    set x | x in order
  }

  lemma Progress(store: Store, order: seq<Oid>, cur: Oid)
    requires cur in store && cur !in order
    ensures |store.Keys - Known(order + [cur])| < |store.Keys - Known(order)|
  {
    assert cur in store.Keys - Known(order);
    assert store.Keys - Known(order + [cur]) == (store.Keys - Known(order)) - {cur};
  }

  lemma Frontier(p: Prims, store: Store, tips: seq<Oid>, seen: set<Oid>, pq: seq<Oid>, order: seq<Oid>, k: nat)
    requires WalkingFrom(p, store, tips, seen, pq, order) && k < |pq|
    ensures GetCommit(p, store, pq[k]).Ok? && Reachable(p, store, tips, pq[k]) && pq[k] in store && pq[k] !in order
    ensures Distinct(Without(pq, k)) && forall x :: x in Without(pq, k) ==> x in seen
  {
    assert pq[k] in seen;
    assert IsCommit(p, store, pq[k]);
    WithoutIs(pq, k);
    InStore(p, store, pq[k]);
  }

  // ------------------------------------------------------------- reachable_objects

  /** The object an entry names directly. */
  function EntryObject(e: GroupEntry): Oid {
    match e case Full(block) => block case Delta(_, _, diff, _) => diff
  }

  function ManifestObjects(m: Manifest): set<Oid> {
    {m.headerBlock} + set name | name in m.groups :: EntryObject(m.groups[name])
  }

  /** Commit, manifest and topology, and what the manifest names. */
  ghost function ObjectsOf(p: Prims, store: Store, commit: Oid): set<Oid>
    requires ManifestFor(p, store, commit).Ok?
  {
    var c := GetCommit(p, store, commit).value;
    {commit, c.manifest, c.topology} + ManifestObjects(ManifestFor(p, store, commit).value)
  }

  /** Exactly the objects of the reachable commits, every one of which can be read with its manifest. */
  ghost predicate IsLive(p: Prims, store: Store, tips: seq<Oid>, live: set<Oid>) {
    && (forall c :: Reachable(p, store, tips, c) ==> ManifestFor(p, store, c).Ok?)
    && (forall o :: o in live <==>
        exists c :: Reachable(p, store, tips, c) && ManifestFor(p, store, c).Ok? && o in ObjectsOf(p, store, c))
  }

  ghost predicate Collected(p: Prims, store: Store, order: seq<Oid>, live: set<Oid>) {
    && (forall c :: c in order ==> ManifestFor(p, store, c).Ok?)
    && (forall c, o :: c in order && ManifestFor(p, store, c).Ok? && o in ObjectsOf(p, store, c) ==> o in live)
    && (forall o :: o in live ==> exists c :: c in order && ManifestFor(p, store, c).Ok? && o in ObjectsOf(p, store, c))
  }

  lemma CollectStep(p: Prims, store: Store, order: seq<Oid>, live: set<Oid>, c: Oid)
    requires Collected(p, store, order, live) && ManifestFor(p, store, c).Ok?
    ensures Collected(p, store, order + [c], live + ObjectsOf(p, store, c))
  {
    hide ObjectsOf, ManifestFor;
    var more, all := order + [c], live + ObjectsOf(p, store, c);
    assert c in more;
    forall o | o in all ensures exists d :: d in more && ManifestFor(p, store, d).Ok? && o in ObjectsOf(p, store, d) {
      if o in live {
        var d :| d in order && ManifestFor(p, store, d).Ok? && o in ObjectsOf(p, store, d);
        assert d in more;
      }
    }
  }

  lemma CollectEnds(p: Prims, store: Store, tips: seq<Oid>, order: seq<Oid>, live: set<Oid>)
    requires Collected(p, store, order, live) && forall x :: x in order <==> Reachable(p, store, tips, x)
    ensures IsLive(p, store, tips, live)
  {
    hide ObjectsOf, ManifestFor, Reachable;
  }

  /** reachable_objects. */
  method ReachableObjects(p: Prims, store: Store, tips: seq<Oid>) returns (r: Result<set<Oid>>)
    ensures r.Ok? ==> IsLive(p, store, tips, r.value)
    ensures r.Err? ==> exists c :: Reachable(p, store, tips, c) && ManifestFor(p, store, c).Err?
  {
    hide Reachable, IsLive, Collected;
    var order := WalkCommits(p, store, tips);
    if order.Err? {
      NoManifest(p, store, tips);
      return Err(order.error);
    }
    hide ObjectsOf;
    var live: set<Oid>, i := {}, 0;
    NothingYet(p, store);
    assert order.value[..0] == [];
    while i < |order.value|
      invariant 0 <= i <= |order.value| && Collected(p, store, order.value[..i], live)
    {
      var c := order.value[i];
      assert order.value[..i + 1] == order.value[..i] + [c];
      assert c in order.value;
      var m := ManifestFor(p, store, c);
      if m.Err? {
        return Err(m.error);
      }
      var commit := GetCommit(p, store, c).value;
      CollectStep(p, store, order.value[..i], live, c);
      ObjectsAre(p, store, c, commit, m.value);
      live := live + ({c, commit.manifest, commit.topology} + ManifestObjects(m.value));
      i := i + 1;
    }
    assert order.value[..i] == order.value;
    CollectEnds(p, store, tips, order.value, live);
    return Ok(live);
  }

  lemma ObjectsAre(p: Prims, store: Store, c: Oid, commit: Commit, m: Manifest)
    requires GetCommit(p, store, c) == Ok(commit) && ManifestFor(p, store, c) == Ok(m)
    ensures ObjectsOf(p, store, c) == {c, commit.manifest, commit.topology} + ManifestObjects(m)
  {}

  lemma NothingYet(p: Prims, store: Store)
    ensures Collected(p, store, [], {})
  {}

  lemma NoManifest(p: Prims, store: Store, tips: seq<Oid>)
    requires BrokenFrom(p, store, tips)
    ensures exists c :: Reachable(p, store, tips, c) && ManifestFor(p, store, c).Err?
  {
    hide Reachable;
    var x :| Reachable(p, store, tips, x) && GetCommit(p, store, x).Err?;
    assert ManifestFor(p, store, x).Err?;
  }

  // ------------------------------------------------------------- the ancestor invariant

  /** Every delta base is an ancestor of the commit that holds the delta. */
  ghost predicate AncestorsHold(p: Prims, store: Store, commit: Oid, m: Manifest) {
    forall name :: name in m.groups && m.groups[name].Delta? ==> Reaches(p, store, commit, m.groups[name].base)
  }

  /** check_ancestor_invariant over the groups of a manifest, listed. */
  method CheckAncestorInvariant(p: Prims, store: Store, commit: Oid, m: Manifest, names: seq<string>)
      returns (failed: Option<Error>)
    requires forall name :: name in names <==> name in m.groups
    ensures failed.None? ==> AncestorsHold(p, store, commit, m)
    ensures failed == Some(AncestorInvariantViolated) && !Broken(p, store, commit) ==>
        !AncestorsHold(p, store, commit, m)
    ensures AncestorsHold(p, store, commit, m) && !Broken(p, store, commit) ==> failed.None?
  {
    hide Reaches, Broken;
    var i := 0;
    while i < |names|
      invariant 0 <= i <= |names|
      invariant forall k :: 0 <= k < i && m.groups[names[k]].Delta? ==>
          Reaches(p, store, commit, m.groups[names[k]].base)
    {
      var e := m.groups[names[i]];
      if e.Delta? {
        var anc := IsAncestor(p, store, e.base, commit);
        if anc.Err? {
          return Some(anc.error);
        }
        if !anc.value {
          return Some(AncestorInvariantViolated);
        }
      }
      i := i + 1;
    }
    return None;
  }

  // ------------------------------------------------------------- pruning

  function Pruned(store: Store, live: set<Oid>): (r: Store)
    ensures forall o :: o in r <==> o in store && o in live
    ensures forall o :: o in r ==> r[o] == store[o]
  {
    map o | o in store && o in live :: store[o]
  }

  /** The loop over the listed objects: unlink what is not live. */
  method Sweep(blocks: Blocks, live: set<Oid>, all: seq<Oid>)
    requires forall o :: o in all <==> o in blocks.objects
    modifies blocks
    ensures blocks.objects == Pruned(old(blocks.objects), live)
  {
    ghost var was := blocks.objects;
    var i := 0;
    while i < |all|
      invariant 0 <= i <= |all| && (forall o :: o in blocks.objects <==> o in was && (o in live || o !in all[..i]))
      invariant forall o :: o in blocks.objects ==> blocks.objects[o] == was[o]
    {
      assert all[..i + 1] == all[..i] + [all[i]];
      if all[i] !in live {
        blocks.objects := blocks.objects - {all[i]};
      }
      i := i + 1;
    }
    assert all[..i] == all;
  }

  /** gc with prune: nothing happens without tips, and an unreadable history stops it before anything is deleted. */
  method Prune(p: Prims, blocks: Blocks, tips: seq<Oid>, all: seq<Oid>) returns (failed: Option<Error>)
    requires forall o :: o in all <==> o in blocks.objects
    modifies blocks
    ensures tips == [] || failed.Some? ==> blocks.objects == old(blocks.objects)
    ensures failed.Some? ==>
      exists c :: Reachable(p, old(blocks.objects), tips, c) && ManifestFor(p, old(blocks.objects), c).Err?
    ensures tips != [] && failed.None? ==>
        exists live :: IsLive(p, old(blocks.objects), tips, live) && blocks.objects == Pruned(old(blocks.objects), live)
  {
    if tips == [] {
      return None;
    }
    hide IsLive, Pruned, Reachable, ManifestFor;
    var live := ReachableObjects(p, blocks.objects, tips);
    if live.Err? {
      return Some(live.error);
    }
    Sweep(blocks, live.value, all);
    return None;
  }

  /** The ancestor invariant on every commit the tips reach. */
  ghost predicate AllAncestorsHold(p: Prims, store: Store, tips: seq<Oid>) {
    forall x :: Reachable(p, store, tips, x) && ManifestFor(p, store, x).Ok? ==>
        AncestorsHold(p, store, x, ManifestFor(p, store, x).value)
  }

  lemma {:induction false} LiveIsClosed(p: Prims, store: Store, tips: seq<Oid>, live: set<Oid>, c: Oid, m: Manifest,
      hops: nat)
    requires IsLive(p, store, tips, live) && Reachable(p, store, tips, c) && AllAncestorsHold(p, store, tips)
        && ManifestFor(p, store, c) == Ok(m)
    ensures Closed(p, store, live, m, hops)
    decreases hops, 1
  {
    hide *;
    forall name | name in m.groups ensures EntryClosed(p, store, live, m.groups[name], hops) {
      EntryLive(p, store, tips, live, c, m, name, hops);
    }
    ClosedFrom(p, store, live, m, hops);
  }

  lemma ClosedFrom(p: Prims, store: Store, live: set<Oid>, m: Manifest, hops: nat)
    requires forall name :: name in m.groups ==> EntryClosed(p, store, live, m.groups[name], hops)
    ensures Closed(p, store, live, m, hops)
  {}

  lemma {:induction false} EntryLive(p: Prims, store: Store, tips: seq<Oid>, live: set<Oid>, c: Oid, m: Manifest,
      name: string, hops: nat)
    requires IsLive(p, store, tips, live) && Reachable(p, store, tips, c) && AllAncestorsHold(p, store, tips)
        && ManifestFor(p, store, c) == Ok(m)
    requires name in m.groups
    ensures EntryClosed(p, store, live, m.groups[name], hops)
    decreases hops, 0
  {
    hide IsLive, Reachable, AllAncestorsHold, ManifestFor, Closed, GetCommit, Reaches;
    var e := m.groups[name];
    EntryIsLive(p, store, tips, live, c, m, name);
    if e.Delta? {
      BaseIsAncestor(p, store, tips, c, m, name);
      ReachableOn(p, store, tips, c, e.base);
      CommitIsLive(p, store, tips, live, e.base);
      if hops > 0 {
        LiveIsClosed(p, store, tips, live, e.base, ManifestFor(p, store, e.base).value, hops - 1);
      }
    }
  }

  lemma BaseIsAncestor(p: Prims, store: Store, tips: seq<Oid>, c: Oid, m: Manifest, name: string)
    requires Reachable(p, store, tips, c) && AllAncestorsHold(p, store, tips) && ManifestFor(p, store, c) == Ok(m)
    requires name in m.groups && m.groups[name].Delta?
    ensures Reaches(p, store, c, m.groups[name].base)
  {
    hide Reachable, ManifestFor, Reaches;
    assert AncestorsHold(p, store, c, m);
  }

  lemma ReachableOn(p: Prims, store: Store, tips: seq<Oid>, c: Oid, base: Oid)
    requires Reachable(p, store, tips, c) && Reaches(p, store, c, base)
    ensures Reachable(p, store, tips, base)
  {
    hide Reaches;
    var t :| t in tips && Reaches(p, store, t, c);
    ReachesTrans(p, store, t, c, base);
  }

  lemma EntryIsLive(p: Prims, store: Store, tips: seq<Oid>, live: set<Oid>, c: Oid, m: Manifest, name: string)
    requires IsLive(p, store, tips, live) && Reachable(p, store, tips, c) && ManifestFor(p, store, c) == Ok(m)
        && name in m.groups
    ensures EntryObject(m.groups[name]) in live
  {
    hide Reachable, ManifestFor;
    assert EntryObject(m.groups[name]) in ObjectsOf(p, store, c);
  }

  lemma CommitIsLive(p: Prims, store: Store, tips: seq<Oid>, live: set<Oid>, c: Oid)
    requires IsLive(p, store, tips, live) && Reachable(p, store, tips, c)
    ensures ManifestFor(p, store, c).Ok? && GetCommit(p, store, c).Ok? && c in live
        && GetCommit(p, store, c).value.manifest in live
    ensures ManifestFor(p, store, c).value.headerBlock in live && GetCommit(p, store, c).value.topology in live
  {
    hide Reachable;
    assert GetCommit(p, store, c).value.topology in ObjectsOf(p, store, c);
    assert c in ObjectsOf(p, store, c) && GetCommit(p, store, c).value.manifest in ObjectsOf(p, store, c);
    assert ManifestFor(p, store, c).value.headerBlock in ObjectsOf(p, store, c);
  }

  /** Pruning to the reachable objects changes no read of any reachable commit: manifest, header and every range of
      every tensor, through all delta hops and secondary-axis lookups, values and errors alike. */
  lemma PruneKeepsReads(p: Prims, store: Store, tips: seq<Oid>, live: set<Oid>, c: Oid, topo: Option<Topology>,
      maxDepth: nat, group: string, off: nat, out: seq<Byte>, hops: nat)
    requires IsLive(p, store, tips, live) && Reachable(p, store, tips, c) && AllAncestorsHold(p, store, tips)
    ensures ManifestFor(p, store, c).Ok? && ManifestFor(p, Pruned(store, live), c) == ManifestFor(p, store, c)
    ensures var m := ManifestFor(p, store, c).value;
      && GetHeader(p, Pruned(store, live), m.headerBlock) == GetHeader(p, store, m.headerBlock)
      && ReadRange(p, Ctx(Pruned(store, live), m, topo, maxDepth), group, off, out, hops) == ReadRange(p,
          Ctx(store, m, topo, maxDepth), group, off, out, hops)
  {
    hide *;
    CommitIsLive(p, store, tips, live, c);
    var m, after := ManifestFor(p, store, c).value, Pruned(store, live);
    LiveIsClosed(p, store, tips, live, c, m, hops);
    PrunedAgrees(store, live);
    SameManifest(p, store, after, live, c);
    GetSame(p, store, after, live, m.headerBlock);
    ReadAgree(p, Ctx(store, m, topo, maxDepth), Ctx(after, m, topo, maxDepth), live, group, off, out, hops);
  }

  /** What reads of two stores have in common makes reconstruct_file the same. */
  lemma {:induction false} SameEntryStream(p: Prims, a: Ctx, b: Ctx, e: BufferEntry, hops: nat, done: nat)
    requires forall off: nat, out ::
        ReadRange(p, a, e.group, off, out, hops) == ReadRange(p, b, e.group, off, out, hops)
    ensures EntryStream(p, a, e, hops, done) == EntryStream(p, b, e, hops, done)
    decreases e.nbytes - done
  {
    hide ReadRange, EntryStream;
    EntryStreamStep(p, a, e, hops, done);
    EntryStreamStep(p, b, e, hops, done);
    if done < e.nbytes {
      SameEntryStream(p, a, b, e, hops, done + Min(StreamChunk, e.nbytes - done));
    }
  }

  lemma {:induction false} SameDataStream(p: Prims, a: Ctx, b: Ctx, hops: nat, i: nat)
    requires a.manifest == b.manifest && i <= |a.manifest.buffer|
    requires forall group, off: nat, out ::
        ReadRange(p, a, group, off, out, hops) == ReadRange(p, b, group, off, out, hops)
    ensures DataStream(p, a, hops, i) == DataStream(p, b, hops, i)
    decreases |a.manifest.buffer| - i
  {
    hide ReadRange, EntryStream;
    if i < |a.manifest.buffer| {
      SameEntryStream(p, a, b, a.manifest.buffer[i], hops, 0);
      SameDataStream(p, a, b, hops, i + 1);
    }
  }

  /** reconstruct_file of any reachable commit gives the same bytes, or the same error, after a prune. */
  lemma PruneKeepsStream(p: Prims, store: Store, tips: seq<Oid>, live: set<Oid>, c: Oid, topo: Option<Topology>,
      maxDepth: nat, hops: nat)
    requires IsLive(p, store, tips, live) && Reachable(p, store, tips, c) && AllAncestorsHold(p, store, tips)
    ensures ManifestFor(p, store, c).Ok? && ManifestFor(p, Pruned(store, live), c) == ManifestFor(p, store, c)
    ensures var m := ManifestFor(p, store, c).value;
      StreamOf(p, Ctx(Pruned(store, live), m, topo, maxDepth), hops) == StreamOf(p, Ctx(store, m, topo, maxDepth), hops)
  {
    hide *;
    PruneKeepsReads(p, store, tips, live, c, topo, maxDepth, "", 0, [], hops);
    var m := ManifestFor(p, store, c).value;
    var a, b := Ctx(store, m, topo, maxDepth), Ctx(Pruned(store, live), m, topo, maxDepth);
    forall group, off: nat, out
      ensures ReadRange(p, a, group, off, out, hops) == ReadRange(p, b, group, off, out, hops)
    {
      PruneKeepsReads(p, store, tips, live, c, topo, maxDepth, group, off, out, hops);
    }
    SameDataStream(p, a, b, hops, 0);
    SameStream(p, a, b, hops);
  }

  lemma SameStream(p: Prims, a: Ctx, b: Ctx, hops: nat)
    requires a.manifest == b.manifest
        && GetHeader(p, a.store, a.manifest.headerBlock) == GetHeader(p, b.store, a.manifest.headerBlock)
    requires DataStream(p, a, hops, 0) == DataStream(p, b, hops, 0)
    ensures StreamOf(p, a, hops) == StreamOf(p, b, hops)
  {
    hide GetHeader, DataStream;
  }

  lemma PrunedAgrees(store: Store, live: set<Oid>)
    ensures Agree(store, Pruned(store, live), live)
  {}

  /** Stores that agree on a commit, its manifest, header and topology load the same topology. */
  lemma SameTopologyFor(p: Prims, a: Store, b: Store, live: set<Oid>, c: Oid)
    requires Agree(a, b, live) && c in live && ManifestFor(p, a, c).Ok? && ManifestFor(p, b, c) == ManifestFor(p, a, c)
    requires GetCommit(p, a, c).Ok? && GetCommit(p, a, c).value.topology in live
    requires ManifestFor(p, a, c).value.headerBlock in live
    ensures TopologyFor(p, b, c) == TopologyFor(p, a, c)
  {
    hide Agree, GetCommit, ManifestFor, GetHeader;
    GetSame(p, a, b, live, c);
    GetSame(p, a, b, live, ManifestFor(p, a, c).value.headerBlock);
    SameTopologyBytes(p, a, b, live, GetCommit(p, a, c).value.topology);
  }

  lemma SameTopologyBytes(p: Prims, a: Store, b: Store, live: set<Oid>, o: Oid)
    requires Agree(a, b, live) && o in live
    ensures GetTopology(p, b, o) == GetTopology(p, a, o)
  {}

  lemma SameManifest(p: Prims, a: Store, b: Store, live: set<Oid>, c: Oid)
    requires Agree(a, b, live) && c in live && GetCommit(p, a, c).Ok? && GetCommit(p, a, c).value.manifest in live
    ensures ManifestFor(p, b, c) == ManifestFor(p, a, c)
  {
    hide Agree, GetCommit, GetManifest;
    GetSame(p, a, b, live, c);
    GetSame(p, a, b, live, GetCommit(p, a, c).value.manifest);
  }
}

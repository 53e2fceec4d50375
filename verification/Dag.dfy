/** Walks over the commit graph (modules/store/src/dag.cpp): ancestry, merge bases, reachable commits. */
module Dag {
  import opened Common
  import opened Records

  // ------------------------------------------------------------- ancestry

  /** `to` is a parent of `from`. */
  ghost predicate IsParent(p: Prims, store: Store, from: Oid, to: Oid) {
    GetCommit(p, store, from).Ok? && to in GetCommit(p, store, from).value.parents
  }

  /** n parent steps lead from one commit to the other. */
  ghost predicate ReachIn(p: Prims, store: Store, from: Oid, to: Oid, n: nat)
    decreases n
  {
    if n == 0 then from == to else exists mid :: ReachIn(p, store, from, mid, n - 1) && IsParent(p, store, mid, to)
  }

  ghost predicate Reaches(p: Prims, store: Store, from: Oid, to: Oid) {
    exists n: nat :: ReachIn(p, store, from, to, n)
  }

  lemma ReachesSelf(p: Prims, store: Store, c: Oid)
    ensures Reaches(p, store, c, c)
  {
    assert ReachIn(p, store, c, c, 0);
  }

  lemma ReachesParent(p: Prims, store: Store, from: Oid, mid: Oid, to: Oid)
    requires Reaches(p, store, from, mid) && IsParent(p, store, mid, to)
    ensures Reaches(p, store, from, to)
  {
    var n: nat :| ReachIn(p, store, from, mid, n);
    assert ReachIn(p, store, from, to, n + 1);
  }

  lemma {:induction false} ReachesOn(p: Prims, store: Store, a: Oid, b: Oid, c: Oid, n: nat)
    requires Reaches(p, store, a, b) && ReachIn(p, store, b, c, n)
    ensures Reaches(p, store, a, c)
    decreases n
  {
    if n > 0 {
      var mid :| ReachIn(p, store, b, mid, n - 1) && IsParent(p, store, mid, c);
      ReachesOn(p, store, a, b, mid, n - 1);
      ReachesParent(p, store, a, mid, c);
    }
  }

  lemma ReachesTrans(p: Prims, store: Store, a: Oid, b: Oid, c: Oid)
    requires Reaches(p, store, a, b) && Reaches(p, store, b, c)
    ensures Reaches(p, store, a, c)
  {
    var n: nat :| ReachIn(p, store, b, c, n);
    ReachesOn(p, store, a, b, c, n);
  }

  /** A set that holds the start and the parents of its members holds everything reachable. */
  lemma {:induction false} ClosedHolds(p: Prims, store: Store, from: Oid, to: Oid, n: nat, s: set<Oid>)
    requires from in s && ReachIn(p, store, from, to, n)
    requires forall x, y :: x in s && IsParent(p, store, x, y) ==> y in s
    ensures to in s
    decreases n
  {
    if n > 0 {
      var mid :| ReachIn(p, store, from, mid, n - 1) && IsParent(p, store, mid, to);
      ClosedHolds(p, store, from, mid, n - 1, s);
    }
  }

  // ------------------------------------------------------------- depth-first walks

  /** Everything seen is reachable, and parents of what was visited are visited or still on the stack. */
  ghost predicate Walking(p: Prims, store: Store, from: Oid, visited: set<Oid>, stack: seq<Oid>) {
    && (forall x :: x in visited || x in stack ==> Reaches(p, store, from, x))
    && (from in visited || from in stack)
    && visited <= store.Keys
    && forall x, y :: x in visited && IsParent(p, store, x, y) ==> y in visited || y in stack
  }

  lemma WalkPop(p: Prims, store: Store, from: Oid, visited: set<Oid>, stack: seq<Oid>)
    requires Walking(p, store, from, visited, stack) && stack != [] && stack[|stack| - 1] in visited
    ensures Walking(p, store, from, visited, stack[..|stack| - 1])
  {
    hide Reaches, IsParent;
    var cur, rest := stack[|stack| - 1], stack[..|stack| - 1];
    assert stack == rest + [cur];
  }

  lemma WalkVisit(p: Prims, store: Store, from: Oid, visited: set<Oid>, stack: seq<Oid>, c: Commit)
    requires Walking(p, store, from, visited, stack) && stack != [] && GetCommit(p, store, stack[|stack| - 1]) == Ok(c)
    ensures Walking(p, store, from, visited + {stack[|stack| - 1]}, stack[..|stack| - 1] + c.parents)
  {
    hide Reaches;
    var cur, rest := stack[|stack| - 1], stack[..|stack| - 1];
    assert stack == rest + [cur];
    var v, s := visited + {cur}, rest + c.parents;
    forall x | x in c.parents ensures Reaches(p, store, from, x) {
      ReachesParent(p, store, from, cur, x);
    }
    forall x, y | x in v && IsParent(p, store, x, y) ensures y in v || y in s {
      if x in visited {
        assert y in visited || y in stack;
      }
    }
  }

  /** When the stack is empty, what was visited is exactly what is reachable. */
  lemma WalkEnds(p: Prims, store: Store, from: Oid, visited: set<Oid>)
    requires Walking(p, store, from, visited, [])
    ensures forall x :: x in visited <==> Reaches(p, store, from, x)
  {
    forall x | Reaches(p, store, from, x) ensures x in visited {
      var n: nat :| ReachIn(p, store, from, x, n);
      ClosedHolds(p, store, from, x, n, visited);
    }
  }

  /** Something the walk would have to read cannot be read. */
  ghost predicate Broken(p: Prims, store: Store, from: Oid) {
    exists x :: Reaches(p, store, from, x) && GetCommit(p, store, x).Err?
  }

  /** is_ancestor: yes exactly when a parent path leads there; an error only if the walk meets an unreadable commit.
      */
  method IsAncestor(p: Prims, store: Store, ancestor: Oid, of: Oid) returns (r: Result<bool>)
    ensures r.Ok? ==> (r.value <==> Reaches(p, store, of, ancestor))
    ensures r.Err? ==> Broken(p, store, of)
  {
    if ancestor == of {
      ReachesSelf(p, store, of);
      return Ok(true);
    }
    var visited: set<Oid>, stack := {}, [of];
    ReachesSelf(p, store, of);
    hide Reaches, GetCommit;
    while stack != []
      invariant Walking(p, store, of, visited, stack) && ancestor !in visited
      decreases |store.Keys - visited|, |stack|
    {
      var cur, rest := stack[|stack| - 1], stack[..|stack| - 1];
      assert cur in stack;
      if cur in visited {
        WalkPop(p, store, of, visited, stack);
        stack := rest;
      } else {
        if cur == ancestor {
          return Ok(true);
        }
        var c := GetCommit(p, store, cur);
        if c.Err? {
          return Err(c.error);
        }
        WalkVisit(p, store, of, visited, stack, c.value);
        Shrinks(p, store, visited, cur);
        visited, stack := visited + {cur}, rest + c.value.parents;
      }
    }
    WalkEnds(p, store, of, visited);
    return Ok(false);
  }

  lemma Shrinks(p: Prims, store: Store, visited: set<Oid>, cur: Oid)
    requires cur !in visited && GetCommit(p, store, cur).Ok?
    ensures |store.Keys - (visited + {cur})| < |store.Keys - visited|
  {
    assert cur in store.Keys - visited;
    assert store.Keys - (visited + {cur}) == (store.Keys - visited) - {cur};
  }

  /** All ancestors of a commit, itself included. */
  method Ancestors(p: Prims, store: Store, of: Oid) returns (r: Result<set<Oid>>)
    ensures r.Ok? ==> forall x :: x in r.value <==> Reaches(p, store, of, x)
    ensures r.Err? ==> Broken(p, store, of)
  {
    var visited: set<Oid>, stack := {}, [of];
    ReachesSelf(p, store, of);
    hide Reaches, GetCommit;
    while stack != []
      invariant Walking(p, store, of, visited, stack)
      decreases |store.Keys - visited|, |stack|
    {
      var cur, rest := stack[|stack| - 1], stack[..|stack| - 1];
      assert cur in stack;
      if cur in visited {
        WalkPop(p, store, of, visited, stack);
        stack := rest;
      } else {
        var c := GetCommit(p, store, cur);
        if c.Err? {
          return Err(c.error);
        }
        WalkVisit(p, store, of, visited, stack, c.value);
        Shrinks(p, store, visited, cur);
        visited, stack := visited + {cur}, rest + c.value.parents;
      }
    }
    WalkEnds(p, store, of, visited);
    return Ok(visited);
  }

  // ------------------------------------------------------------- merge base

  /** A breadth-first search from b: distances of what is queued ascend, and a parent of a visited commit is at most
      one hop further. */
  ghost predicate Searching(p: Prims, store: Store, b: Oid, at: map<Oid, nat>, queue: seq<Oid>, dist: seq<nat>) {
    && |queue| == |dist| && at.Keys <= store.Keys
    && (forall i :: 0 <= i < |queue| ==> ReachIn(p, store, b, queue[i], dist[i]))
    && (forall x :: x in at ==> ReachIn(p, store, b, x, at[x]))
    && (forall i, j :: 0 <= i < j < |dist| ==> dist[i] <= dist[j] <= dist[0] + 1)
    && (forall x, i :: x in at && 0 <= i < |dist| ==> at[x] <= dist[i])
    && Within(at, queue, dist, b, 0)
    && Expanded(p, store, at, queue, dist)
  }

  ghost predicate Expanded(p: Prims, store: Store, at: map<Oid, nat>, queue: seq<Oid>, dist: seq<nat>)
    requires |queue| == |dist|
  {
    forall x, y :: x in at && IsParent(p, store, x, y) ==> Within(at, queue, dist, y, at[x] + 1)
  }

  /** Visited or queued at no more than this distance. */
  ghost predicate Within(at: map<Oid, nat>, queue: seq<Oid>, dist: seq<nat>, x: Oid, n: nat)
    requires |queue| == |dist|
  {
    (x in at && at[x] <= n) || exists i :: 0 <= i < |queue| && queue[i] == x && dist[i] <= n
  }

  /** Whatever lies n hops away has been visited by then, or something no further is still queued. */
  lemma {:induction false} SearchCovers(p: Prims, store: Store, b: Oid, at: map<Oid, nat>, queue: seq<Oid>,
      dist: seq<nat>, x: Oid, n: nat)
    requires Searching(p, store, b, at, queue, dist) && ReachIn(p, store, b, x, n)
    ensures (x in at && at[x] <= n) || (queue != [] && dist[0] <= n)
    decreases n
  {
    if n > 0 {
      var mid :| ReachIn(p, store, b, mid, n - 1) && IsParent(p, store, mid, x);
      SearchCovers(p, store, b, at, queue, dist, mid, n - 1);
      if mid in at && at[mid] <= n - 1 {
        assert Within(at, queue, dist, x, at[mid] + 1);
      }
    } else {
      assert Within(at, queue, dist, b, 0);
    }
  }

  lemma WithinPop(at: map<Oid, nat>, queue: seq<Oid>, dist: seq<nat>, x: Oid, n: nat)
    requires |queue| == |dist| > 0 && Within(at, queue, dist, x, n) && queue[0] in at && at[queue[0]] <= dist[0]
    ensures Within(at, queue[1..], dist[1..], x, n)
  {
    if !(x in at && at[x] <= n) {
      var i :| 0 <= i < |queue| && queue[i] == x && dist[i] <= n;
      assert i > 0;
      assert queue[1..][i - 1] == x && dist[1..][i - 1] <= n;
    }
  }

  lemma SearchPop(p: Prims, store: Store, b: Oid, at: map<Oid, nat>, queue: seq<Oid>, dist: seq<nat>)
    requires Searching(p, store, b, at, queue, dist) && queue != [] && queue[0] in at
    ensures Searching(p, store, b, at, queue[1..], dist[1..])
  {
    hide ReachIn, IsParent, Within;
    WithinPop(at, queue, dist, b, 0);
    forall x, y | x in at && IsParent(p, store, x, y) ensures Within(at, queue[1..], dist[1..], y, at[x] + 1) {
      WithinPop(at, queue, dist, y, at[x] + 1);
    }
  }

  ghost function Repeat(d: nat, n: nat): (r: seq<nat>)
    ensures |r| == n && forall i :: 0 <= i < n ==> r[i] == d
  {
    seq(n, _ => d)
  }

  /** Visiting the head of the queue: record it, then queue its parents one hop further. */
  lemma WithinVisit(at: map<Oid, nat>, queue: seq<Oid>, dist: seq<nat>, parents: seq<Oid>, x: Oid, n: nat)
    requires |queue| == |dist| > 0 && queue[0] !in at && Within(at, queue, dist, x, n)
    ensures Within(at[queue[0] := dist[0]], queue[1..] + parents, dist[1..] + Repeat(dist[0] + 1, |parents|), x, n)
  {
    var at2, q2, d2 := at[queue[0] := dist[0]], queue[1..] + parents, dist[1..] + Repeat(dist[0] + 1, |parents|);
    if !(x in at2 && at2[x] <= n) {
      var i :| 0 <= i < |queue| && queue[i] == x && dist[i] <= n;
      assert i > 0;
      assert q2[i - 1] == x && d2[i - 1] <= n;
    }
  }

  lemma WithinParents(at: map<Oid, nat>, queue: seq<Oid>, dist: seq<nat>, parents: seq<Oid>, d: nat, y: Oid)
    requires |queue| == |dist| && y in parents
    ensures Within(at, queue + parents, dist + Repeat(d, |parents|), y, d)
  {
    var k :| 0 <= k < |parents| && parents[k] == y;
    var q2, d2 := queue + parents, dist + Repeat(d, |parents|);
    assert q2[|queue| + k] == y && d2[|queue| + k] == d;
  }

  lemma SearchVisit(p: Prims, store: Store, b: Oid, at: map<Oid, nat>, queue: seq<Oid>, dist: seq<nat>, c: Commit)
    requires Searching(p, store, b, at, queue, dist) && queue != [] && queue[0] !in at
        && GetCommit(p, store, queue[0]) == Ok(c)
    ensures Searching(p, store, b, at[queue[0] := dist[0]], queue[1..] + c.parents,
        dist[1..] + Repeat(dist[0] + 1, |c.parents|))
  {
    hide ReachIn, Within, IsParent, GetCommit, Expanded;
    VisitReach(p, store, b, queue, dist, c);
    WithinVisit(at, queue, dist, c.parents, b, 0);
    VisitExpands(p, store, at, queue, dist, c);
    VisitOrder(dist, |c.parents|);
    InStore(p, store, queue[0]);
  }

  lemma VisitExpands(p: Prims, store: Store, at: map<Oid, nat>, queue: seq<Oid>, dist: seq<nat>, c: Commit)
    requires |queue| == |dist| > 0 && queue[0] !in at && GetCommit(p, store, queue[0]) == Ok(c)
        && Expanded(p, store, at, queue, dist)
    ensures Expanded(p, store, at[queue[0] := dist[0]], queue[1..] + c.parents,
        dist[1..] + Repeat(dist[0] + 1, |c.parents|))
  {
    hide Within;
    var cur, d := queue[0], dist[0];
    var at2, q2, d2 := at[cur := d], queue[1..] + c.parents, dist[1..] + Repeat(d + 1, |c.parents|);
    forall x, y | x in at2 && IsParent(p, store, x, y) ensures Within(at2, q2, d2, y, at2[x] + 1) {
      if x == cur {
        WithinParents(at2, queue[1..], dist[1..], c.parents, d + 1, y);
      } else {
        WithinVisit(at, queue, dist, c.parents, y, at[x] + 1);
      }
    }
  }

  lemma InStore(p: Prims, store: Store, c: Oid)
    requires GetCommit(p, store, c).Ok?
    ensures c in store
  {}

  lemma VisitReach(p: Prims, store: Store, b: Oid, queue: seq<Oid>, dist: seq<nat>, c: Commit)
    requires |queue| == |dist| > 0 && (forall i :: 0 <= i < |queue| ==> ReachIn(p, store, b, queue[i], dist[i]))
        && GetCommit(p, store, queue[0]) == Ok(c)
    ensures var q2, d2 := queue[1..] + c.parents, dist[1..] + Repeat(dist[0] + 1, |c.parents|);
      forall i :: 0 <= i < |q2| ==> ReachIn(p, store, b, q2[i], d2[i])
  {
    var q2, d2 := queue[1..] + c.parents, dist[1..] + Repeat(dist[0] + 1, |c.parents|);
    forall i | 0 <= i < |q2| ensures ReachIn(p, store, b, q2[i], d2[i]) {
      if i < |queue| - 1 {
        assert q2[i] == queue[i + 1] && d2[i] == dist[i + 1];
      } else {
        assert q2[i] in c.parents && d2[i] == dist[0] + 1;
        assert IsParent(p, store, queue[0], q2[i]);
      }
    }
  }

  lemma VisitOrder(dist: seq<nat>, n: nat)
    requires dist != [] && forall i, j :: 0 <= i < j < |dist| ==> dist[i] <= dist[j] <= dist[0] + 1
    ensures var d2 := dist[1..] + Repeat(dist[0] + 1, n);
      && (forall i, j :: 0 <= i < j < |d2| ==> d2[i] <= d2[j] <= d2[0] + 1)
      && (forall i :: 0 <= i < |d2| ==> dist[0] <= d2[i])
  {}

  /** No common ancestor of a and b is closer to b than this one. */
  ghost predicate NearestTo(p: Prims, store: Store, a: Oid, b: Oid, c: Oid) {
    && Reaches(p, store, a, c) && Reaches(p, store, b, c)
    && forall x, n: nat :: Reaches(p, store, a, x) && ReachIn(p, store, b, x, n) ==>
        exists k: nat :: k <= n && ReachIn(p, store, b, c, k)
  }

  lemma HeadIsNearest(p: Prims, store: Store, a: Oid, b: Oid, ancestors: set<Oid>, at: map<Oid, nat>, queue: seq<Oid>,
      dist: seq<nat>)
    requires Searching(p, store, b, at, queue, dist) && queue != [] && queue[0] in ancestors && at.Keys !! ancestors
    requires forall x :: x in ancestors <==> Reaches(p, store, a, x)
    ensures NearestTo(p, store, a, b, queue[0])
  {
    assert ReachIn(p, store, b, queue[0], dist[0]);
    forall x, n: nat | Reaches(p, store, a, x) && ReachIn(p, store, b, x, n)
      ensures exists k: nat :: k <= n && ReachIn(p, store, b, queue[0], k)
    {
      SearchCovers(p, store, b, at, queue, dist, x, n);
      assert dist[0] <= n;
    }
  }

  lemma NothingCommon(p: Prims, store: Store, a: Oid, b: Oid, ancestors: set<Oid>, at: map<Oid, nat>)
    requires Searching(p, store, b, at, [], []) && at.Keys !! ancestors && forall x :: x in ancestors <==>
        Reaches(p, store, a, x)
    ensures Disjoint(p, store, a, b)
  {
    forall x | Reaches(p, store, b, x) ensures x !in ancestors {
      var n: nat :| ReachIn(p, store, b, x, n);
      SearchCovers(p, store, b, at, [], [], x, n);
    }
  }

  ghost predicate Disjoint(p: Prims, store: Store, a: Oid, b: Oid) {
    forall x :: !(Reaches(p, store, a, x) && Reaches(p, store, b, x))
  }

  /** The breadth-first half: the first queued commit that is in the set. */
  method SearchNearest(p: Prims, store: Store, a: Oid, b: Oid, ancestors: set<Oid>) returns (r: Result<Option<Oid>>)
    requires forall x :: x in ancestors <==> Reaches(p, store, a, x)
    ensures r.Ok? && r.value.None? ==> Disjoint(p, store, a, b)
    ensures r.Ok? && r.value.Some? ==> NearestTo(p, store, a, b, r.value.value)
    ensures r.Err? ==> Broken(p, store, b)
  {
    hide *;
    var visited: set<Oid>, queue := {}, [b];
    ghost var at: map<Oid, nat>, dist: seq<nat> := map[], [0];
    SearchStarts(p, store, b);
    while queue != []
      invariant Searching(p, store, b, at, queue, dist) && at.Keys == visited && visited !! ancestors
      decreases |store.Keys - visited|, |queue|
    {
      var cur := queue[0];
      QueuedIsReached(p, store, b, at, queue, dist);
      if cur in visited {
        SearchPop(p, store, b, at, queue, dist);
        queue, dist := queue[1..], dist[1..];
      } else {
        if cur in ancestors {
          HeadIsNearest(p, store, a, b, ancestors, at, queue, dist);
          return Ok(Some(cur));
        }
        var c := GetCommit(p, store, cur);
        if c.Err? {
          BrokenAt(p, store, b, cur);
          return Err(c.error);
        }
        SearchVisit(p, store, b, at, queue, dist, c.value);
        Shrinks(p, store, visited, cur);
        at, dist := at[cur := dist[0]], dist[1..] + Repeat(dist[0] + 1, |c.value.parents|);
        visited, queue := visited + {cur}, queue[1..] + c.value.parents;
      }
    }
    QueuedSizes(p, store, b, at, queue, dist);
    NothingCommon(p, store, a, b, ancestors, at);
    return Ok(None);
  }

  lemma BrokenAt(p: Prims, store: Store, from: Oid, x: Oid)
    requires Reaches(p, store, from, x) && GetCommit(p, store, x).Err?
    ensures Broken(p, store, from)
  {}

  lemma QueuedSizes(p: Prims, store: Store, b: Oid, at: map<Oid, nat>, queue: seq<Oid>, dist: seq<nat>)
    requires Searching(p, store, b, at, queue, dist)
    ensures |dist| == |queue|
  {}

  /** merge_base: none exactly when the histories are disjoint, otherwise a common ancestor of least distance from b.
      */
  method MergeBase(p: Prims, store: Store, a: Oid, b: Oid) returns (r: Result<Option<Oid>>)
    ensures r.Ok? ==> (r.value.None? <==> Disjoint(p, store, a, b))
    ensures r.Ok? && r.value.Some? ==> NearestTo(p, store, a, b, r.value.value)
    ensures r.Err? ==> Broken(p, store, a) || Broken(p, store, b)
  {
    hide Reaches, ReachIn;
    var anc := Ancestors(p, store, a);
    if anc.Err? {
      return Err(anc.error);
    }
    r := SearchNearest(p, store, a, b, anc.value);
  }

  lemma SearchStarts(p: Prims, store: Store, b: Oid)
    ensures Searching(p, store, b, map[], [b], [0])
  {
    var queue, dist := [b], [0];
    assert queue[0] == b && dist[0] <= 0;
    assert Within(map[], queue, dist, b, 0);
  }

  lemma QueuedIsReached(p: Prims, store: Store, b: Oid, at: map<Oid, nat>, queue: seq<Oid>, dist: seq<nat>)
    requires Searching(p, store, b, at, queue, dist) && queue != []
    ensures Reaches(p, store, b, queue[0]) && |dist| == |queue|
  {
    assert ReachIn(p, store, b, queue[0], dist[0]);
  }
}

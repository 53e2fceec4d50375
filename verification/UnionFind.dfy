/** Permutation groups from axis relations: the union-find object of modules/align/src/graph.cpp. */
module UnionFind {
  import opened Forest

  // ------------------------------------------------------------- the invariant, on sequences

  ghost function Roots(nodes: seq<Node>, top: nat): (r: seq<nat>)
    requires IsForest(nodes, top)
    ensures |r| == |nodes| && forall i :: 0 <= i < |nodes| ==> r[i] == Root(nodes, top, i)
  {
    seq(|nodes|, i requires 0 <= i < |nodes| => Root(nodes, top, i))
  }

  ghost predicate EdgesIn(edges: set<(nat, nat)>, n: nat) {
    forall e :: e in edges ==> e.0 < n && e.1 < n
  }

  /** Two axes share a root exactly when unite calls link them. */
  ghost predicate Partition(roots: seq<nat>, edges: set<(nat, nat)>) {
    EdgesIn(edges, |roots|) && forall a, b :: 0 <= a < |roots| && 0 <= b < |roots| ==>
        (roots[a] == roots[b] <==> Linked(edges, a, b))
  }

  /** A pin marks the root of its class, and only classes with a pin carry a mark. */
  ghost predicate PinsMarked(nodes: seq<Node>, roots: seq<nat>, pins: set<nat>) {
    && |roots| == |nodes|
    && (forall y :: y in pins ==> y < |nodes| && roots[y] < |nodes| && nodes[roots[y]].pinned)
    && (forall x :: 0 <= x < |nodes| && nodes[x].pinned ==> HasPin(roots, pins, x))
  }

  ghost predicate HasPin(roots: seq<nat>, pins: set<nat>, x: nat)
    requires x < |roots|
  {
    exists y :: y in pins && y < |roots| && roots[y] == roots[x]
  }

  ghost predicate Indexed(nodes: seq<Node>, index: map<AxisKey, nat>) {
    && (forall k :: k in index ==> index[k] < |nodes| && nodes[index[k]].key == k)
    && (forall i :: 0 <= i < |nodes| ==> nodes[i].key in index && index[nodes[i].key] == i)
  }

  ghost predicate Good(nodes: seq<Node>, top: nat, edges: set<(nat, nat)>, pins: set<nat>, index: map<AxisKey, nat>) {
    IsForest(nodes, top) && Partition(Roots(nodes, top), edges) && PinsMarked(nodes, Roots(nodes, top), pins)
        && Indexed(nodes, index)
  }

  lemma SameRootsAre(a: seq<Node>, b: seq<Node>, top: nat)
    requires SameRoots(a, b, top)
    ensures Roots(a, top) == Roots(b, top)
  {
    hide IsForest;
    assert forall x :: 0 <= x < |a| ==> Roots(a, top)[x] == Roots(b, top)[x];
  }

  lemma HalvedIsGood(a: seq<Node>, b: seq<Node>, top: nat, edges: set<(nat, nat)>, pins: set<nat>,
      index: map<AxisKey, nat>)
    requires Good(a, top, edges, pins, index) && SameRoots(a, b, top) && SameData(a, b)
    ensures Good(b, top, edges, pins, index)
  {
    SameRootsAre(a, b, top);
    HalvedData(a, b, Roots(a, top), pins, index);
    hide IsForest, Partition, Roots, PinsMarked, Indexed, SameData;
  }

  lemma HalvedData(a: seq<Node>, b: seq<Node>, roots: seq<nat>, pins: set<nat>, index: map<AxisKey, nat>)
    requires SameData(a, b) && PinsMarked(a, roots, pins) && Indexed(a, index)
    ensures PinsMarked(b, roots, pins) && Indexed(b, index)
  {
    hide HasPin;
    forall x | 0 <= x < |b| ensures b[x].pinned == a[x].pinned && b[x].key == a[x].key {
      assert a[x].(parent := b[x].parent) == b[x];
    }
  }

  // ------------------------------------------------------------- adding an axis

  lemma {:induction false} RootExtends(nodes: seq<Node>, top: nat, n: Node, x: nat)
    requires IsForest(nodes, top) && IsForest(nodes + [n], top) && x < |nodes|
    ensures Root(nodes + [n], top, x) == Root(nodes, top, x)
    decreases top - nodes[x].rank
  {
    if nodes[x].parent != x {
      RootExtends(nodes, top, n, nodes[x].parent);
    }
  }

  lemma FreshIsAlone(edges: set<(nat, nat)>, n: nat, x: nat)
    requires EdgesIn(edges, n) && (Linked(edges, n, x) || Linked(edges, x, n))
    ensures x == n
  {
    if Linked(edges, x, n) {
      LinkedSym(edges, x, n);
    }
    var path :| IsChain(edges, path) && path[0] == n && path[|path| - 1] == x;
    var cls := seq(n + 1, i => if i == n then 1 else 0);
    ChainRespects(edges, path, cls);
  }

  lemma AddRoots(nodes: seq<Node>, top: nat, n: Node)
    requires IsForest(nodes, top) && n.parent == |nodes| && n.rank == 0
    ensures IsForest(nodes + [n], top) && Roots(nodes + [n], top) == Roots(nodes, top) + [|nodes|]
  {
    var more := nodes + [n];
    assert IsForest(more, top);
    forall x | 0 <= x < |nodes| ensures Root(more, top, x) == Root(nodes, top, x) { RootExtends(nodes, top, n, x); }
    assert Root(more, top, |nodes|) == |nodes|;
  }

  lemma RootsInside(nodes: seq<Node>, top: nat)
    requires IsForest(nodes, top)
    ensures forall i :: 0 <= i < |nodes| ==> Roots(nodes, top)[i] < |nodes|
  {}

  lemma AddPartition(roots: seq<nat>, edges: set<(nat, nat)>)
    requires Partition(roots, edges) && forall i :: 0 <= i < |roots| ==> roots[i] < |roots|
    ensures Partition(roots + [|roots|], edges)
  {
    hide Linked;
    var n, more := |roots|, roots + [|roots|];
    forall a, b | 0 <= a <= n && 0 <= b <= n ensures more[a] == more[b] <==> Linked(edges, a, b) {
      if a == n || b == n {
        if Linked(edges, a, b) {
          FreshIsAlone(edges, n, if a == n then b else a);
        }
        LinkedSelf(edges, n);
      }
    }
  }

  lemma AddPins(nodes: seq<Node>, roots: seq<nat>, pins: set<nat>, n: Node)
    requires PinsMarked(nodes, roots, pins) && !n.pinned
    ensures PinsMarked(nodes + [n], roots + [|nodes|], pins)
  {
    var more, all := nodes + [n], roots + [|nodes|];
    forall x | 0 <= x < |more| && more[x].pinned ensures HasPin(all, pins, x) {
      assert HasPin(roots, pins, x);
      var y :| y in pins && y < |roots| && roots[y] == roots[x];
      assert all[y] == all[x];
    }
  }

  lemma AddKeeps(nodes: seq<Node>, top: nat, edges: set<(nat, nat)>, pins: set<nat>, index: map<AxisKey, nat>,
      key: AxisKey, len: nat)
    requires Good(nodes, top, edges, pins, index) && key !in index
    ensures Good(nodes + [Node(key, len, |nodes|, 0, false)], top, edges, pins, index[key := |nodes|])
  {
    hide IsForest, Partition, PinsMarked;
    var n := Node(key, len, |nodes|, 0, false);
    AddRoots(nodes, top, n);
    RootsInside(nodes, top);
    AddPartition(Roots(nodes, top), edges);
    AddPins(nodes, Roots(nodes, top), pins, n);
  }

  // ------------------------------------------------------------- uniting two classes

  /** The classes of a and b merged. */
  ghost predicate Merged(roots: seq<nat>, more: seq<nat>, a: nat, b: nat) {
    && |more| == |roots| && a < |roots| && b < |roots|
    && forall x, y :: 0 <= x < |roots| && 0 <= y < |roots| ==>
      (more[x] == more[y] <==>
        roots[x] == roots[y] || (roots[x] == roots[a] && roots[y] == roots[b])
            || (roots[x] == roots[b] && roots[y] == roots[a]))
  }

  lemma MergedPartition(roots: seq<nat>, more: seq<nat>, edges: set<(nat, nat)>, a: nat, b: nat)
    requires Merged(roots, more, a, b) && Partition(roots, edges)
    ensures Partition(more, edges + {(a, b)})
  {
    hide Linked;
    var all := edges + {(a, b)};
    forall x, y | 0 <= x < |roots| && 0 <= y < |roots| ensures more[x] == more[y] <==> Linked(all, x, y) {
      if Linked(all, x, y) {
        LinkedMerged(roots, more, edges, a, b, x, y);
      }
      if more[x] == more[y] {
        MergedLinked(roots, more, edges, a, b, x, y);
      }
    }
  }

  lemma LinkedMerged(roots: seq<nat>, more: seq<nat>, edges: set<(nat, nat)>, a: nat, b: nat, x: nat, y: nat)
    requires Merged(roots, more, a, b) && Partition(roots, edges) && x < |roots| && y < |roots|
        && Linked(edges + {(a, b)}, x, y)
    ensures more[x] == more[y]
  {
    var all := edges + {(a, b)};
    EdgesRespected(roots, more, edges, a, b);
    hide Merged, Partition;
    var path :| IsChain(all, path) && path[0] == x && path[|path| - 1] == y;
    ChainRespects(all, path, more);
  }

  lemma EdgesRespected(roots: seq<nat>, more: seq<nat>, edges: set<(nat, nat)>, a: nat, b: nat)
    requires Merged(roots, more, a, b) && Partition(roots, edges)
    ensures forall e :: e in edges + {(a, b)} ==> e.0 < |more| && e.1 < |more| && more[e.0] == more[e.1]
  {
    hide Linked;
    forall e | e in edges + {(a, b)} ensures e.0 < |more| && e.1 < |more| && more[e.0] == more[e.1] {
      if e in edges {
        LinkedEdge(edges, e.0, e.1);
      }
    }
  }

  lemma MergedLinked(roots: seq<nat>, more: seq<nat>, edges: set<(nat, nat)>, a: nat, b: nat, x: nat, y: nat)
    requires Merged(roots, more, a, b) && Partition(roots, edges) && x < |roots| && y < |roots| && more[x] == more[y]
    ensures Linked(edges + {(a, b)}, x, y)
  {
    hide Linked;
    var all := edges + {(a, b)};
    LinkedEdge(all, a, b);
    LinkedEdge(all, b, a);
    if roots[x] == roots[y] {
      LinkedMore(edges, all, x, y);
    } else if roots[x] == roots[a] {
      LinkedMore(edges, all, x, a);
      LinkedMore(edges, all, b, y);
      LinkedTrans(all, x, a, b);
      LinkedTrans(all, x, b, y);
    } else {
      LinkedMore(edges, all, x, b);
      LinkedMore(edges, all, a, y);
      LinkedTrans(all, x, b, a);
      LinkedTrans(all, x, a, y);
    }
  }

  ghost function Rename(roots: seq<nat>, from: nat, to: nat): (r: seq<nat>)
    ensures |r| == |roots| && forall i :: 0 <= i < |roots| ==> r[i] == if roots[i] == from then to else roots[i]
  {
    seq(|roots|, i requires 0 <= i < |roots| => if roots[i] == from then to else roots[i])
  }

  lemma LinkedRoots(nodes: seq<Node>, top: nat, ra: nat, rb: nat)
    requires IsForest(nodes, top) && ra < |nodes| && rb < |nodes| && ra != rb && nodes[ra].parent == ra
        && nodes[rb].parent == rb
    requires nodes[rb].rank <= nodes[ra].rank
    ensures IsForest(Link(nodes, ra, rb), top + 1)
        && Roots(Link(nodes, ra, rb), top + 1) == Rename(Roots(nodes, top), rb, ra)
  {
    LinkIsForest(nodes, top, ra, rb);
    var more := Link(nodes, ra, rb);
    forall x | 0 <= x < |nodes| ensures Roots(more, top + 1)[x] == Rename(Roots(nodes, top), rb, ra)[x] {
      LinkRoots(nodes, top, ra, rb, x);
    }
  }

  lemma RenameMerges(roots: seq<nat>, ra: nat, rb: nat, a: nat, b: nat)
    requires a < |roots| && b < |roots| && ra != rb
        && ((roots[a] == ra && roots[b] == rb) || (roots[a] == rb && roots[b] == ra))
    ensures Merged(roots, Rename(roots, rb, ra), a, b)
  {}

  lemma LinkPins(nodes: seq<Node>, roots: seq<nat>, ra: nat, rb: nat, pins: set<nat>)
    requires PinsMarked(nodes, roots, pins) && ra < |nodes| && rb < |nodes| && ra != rb && roots[ra] == ra
        && roots[rb] == rb
    ensures PinsMarked(Link(nodes, ra, rb), Rename(roots, rb, ra), pins)
  {
    var more, all := Link(nodes, ra, rb), Rename(roots, rb, ra);
    forall x | 0 <= x < |more| && more[x].pinned ensures HasPin(all, pins, x) {
      var z := if x == ra && !nodes[ra].pinned then rb else x;
      assert HasPin(roots, pins, z);
      var y :| y in pins && y < |roots| && roots[y] == roots[z];
      assert all[y] == all[x];
    }
  }

  lemma LinkKeeps(nodes: seq<Node>, top: nat, ra: nat, rb: nat, a: nat, b: nat, edges: set<(nat, nat)>,
      pins: set<nat>, index: map<AxisKey, nat>)
    requires Good(nodes, top, edges, pins, index) && a < |nodes| && b < |nodes| && ra < |nodes| && rb < |nodes|
        && ra != rb
    requires nodes[rb].rank <= nodes[ra].rank
    requires (ra == Root(nodes, top, a) && rb == Root(nodes, top, b))
        || (ra == Root(nodes, top, b) && rb == Root(nodes, top, a))
    ensures Good(Link(nodes, ra, rb), top + 1, edges + {(a, b)}, pins, index)
  {
    hide IsForest, Partition, PinsMarked, Merged, Roots, Rename, Indexed, Root, Link;
    var roots := Roots(nodes, top);
    RootFacts(nodes, top, a);
    RootFacts(nodes, top, b);
    LinkIndex(nodes, ra, rb, index);
    LinkedRoots(nodes, top, ra, rb);
    RenameMerges(roots, ra, rb, a, b);
    MergedPartition(roots, Rename(roots, rb, ra), edges, a, b);
    LinkPins(nodes, roots, ra, rb, pins);
  }

  lemma RootFacts(nodes: seq<Node>, top: nat, x: nat)
    requires IsForest(nodes, top) && x < |nodes|
    ensures |Roots(nodes, top)| == |nodes| && Root(nodes, top, x) < |nodes|
        && nodes[Root(nodes, top, x)].parent == Root(nodes, top, x)
    ensures Roots(nodes, top)[x] == Root(nodes, top, x) && Roots(nodes, top)[Root(nodes, top, x)] == Root(nodes, top, x)
  {}

  lemma LinkIndex(nodes: seq<Node>, ra: nat, rb: nat, index: map<AxisKey, nat>)
    requires Indexed(nodes, index) && ra < |nodes| && rb < |nodes| && ra != rb
    ensures Indexed(Link(nodes, ra, rb), index)
  {}

  /** Uniting within a class adds nothing. */
  lemma SameClassKeeps(nodes: seq<Node>, top: nat, edges: set<(nat, nat)>, pins: set<nat>, index: map<AxisKey, nat>,
      a: nat, b: nat)
    requires Good(nodes, top, edges, pins, index) && a < |nodes| && b < |nodes|
        && Root(nodes, top, a) == Root(nodes, top, b)
    ensures Good(nodes, top, edges + {(a, b)}, pins, index)
  {
    var roots := Roots(nodes, top);
    assert roots[a] == roots[b];
    hide IsForest, Partition, PinsMarked, Roots;
    assert Merged(roots, roots, a, b);
    hide Merged;
    MergedPartition(roots, roots, edges, a, b);
  }

  lemma {:induction false} PinKeepsRoot(nodes: seq<Node>, top: nat, r: nat, x: nat)
    requires IsForest(nodes, top) && r < |nodes| && x < |nodes| && IsForest(nodes[r := nodes[r].(pinned := true)], top)
    ensures Root(nodes[r := nodes[r].(pinned := true)], top, x) == Root(nodes, top, x)
    decreases top - nodes[x].rank
  {
    if nodes[x].parent != x {
      PinKeepsRoot(nodes, top, r, nodes[x].parent);
    }
  }

  lemma PinRoots(nodes: seq<Node>, top: nat, r: nat)
    requires IsForest(nodes, top) && r < |nodes|
    ensures IsForest(nodes[r := nodes[r].(pinned := true)], top)
        && Roots(nodes[r := nodes[r].(pinned := true)], top) == Roots(nodes, top)
  {
    var more := nodes[r := nodes[r].(pinned := true)];
    assert IsForest(more, top);
    forall x | 0 <= x < |nodes| ensures Roots(more, top)[x] == Roots(nodes, top)[x] { PinKeepsRoot(nodes, top, r, x); }
  }

  lemma PinMarks(nodes: seq<Node>, roots: seq<nat>, h: nat, pins: set<nat>)
    requires PinsMarked(nodes, roots, pins) && h < |nodes| && roots[h] < |nodes| && roots[roots[h]] == roots[h]
    ensures PinsMarked(nodes[roots[h] := nodes[roots[h]].(pinned := true)], roots, pins + {h})
  {
    var r := roots[h];
    var more := nodes[r := nodes[r].(pinned := true)];
    forall x | 0 <= x < |more| && more[x].pinned ensures HasPin(roots, pins + {h}, x) {
      if x == r {
        assert h in pins + {h} && roots[h] == roots[x];
      } else {
        assert HasPin(roots, pins, x);
        var y :| y in pins && y < |roots| && roots[y] == roots[x];
        assert y in pins + {h};
      }
    }
  }

  lemma PinKeeps(nodes: seq<Node>, top: nat, h: nat, edges: set<(nat, nat)>, pins: set<nat>, index: map<AxisKey, nat>)
    requires Good(nodes, top, edges, pins, index) && h < |nodes|
    ensures var r := Root(nodes, top, h); Good(nodes[r := nodes[r].(pinned := true)], top, edges, pins + {h}, index)
  {
    var r, roots := Root(nodes, top, h), Roots(nodes, top);
    assert roots[h] == r && roots[r] == r;
    PinRoots(nodes, top, r);
    hide IsForest, Partition, PinsMarked, Roots;
    PinMarks(nodes, roots, h, pins);
  }

  /** Keys and lengths are the same. */
  ghost predicate SameAxes(a: seq<Node>, b: seq<Node>) {
    |a| == |b| && forall x :: 0 <= x < |a| ==> b[x].key == a[x].key && b[x].len == a[x].len
  }

  lemma FoundAxes(a: seq<Node>, b: seq<Node>)
    requires SameData(a, b)
    ensures SameAxes(a, b)
  {
    forall x | 0 <= x < |a| ensures b[x].key == a[x].key && b[x].len == a[x].len {
      assert a[x].(parent := b[x].parent) == b[x];
    }
  }

  lemma LinkedAxes(nodes: seq<Node>, ra: nat, rb: nat)
    requires ra < |nodes| && rb < |nodes| && ra != rb
    ensures SameAxes(nodes, Link(nodes, ra, rb))
  {}

  lemma AxesStay(a: seq<Node>, b: seq<Node>, c: seq<Node>)
    requires SameAxes(a, b) && SameAxes(b, c)
    ensures SameAxes(a, c)
  {}

  // ------------------------------------------------------------- the object

  class AxisUnionFind {
    var nodes: seq<Node>
    var index: map<AxisKey, nat>
    /** No rank is above this. */
    ghost var top: nat
    /** The unite calls so far. */
    ghost var edges: set<(nat, nat)>
    /** The pin calls so far. */
    ghost var pins: set<nat>

    ghost predicate Valid()
      reads this
    {
      Good(nodes, top, edges, pins, index)
    }

    constructor ()
      ensures Valid() && nodes == [] && index == map[] && edges == {} && pins == {}
    {
      nodes, index, top, edges, pins := [], map[], 0, {}, {};
    }

    /** Registers an axis, or returns the handle it already has. */
    method Add(key: AxisKey, len: nat) returns (handle: nat)
      requires Valid()
      modifies this
      ensures Valid() && handle < |nodes| && nodes[handle].key == key && edges == old(edges) && pins == old(pins)
      ensures key in old(index) ==> nodes == old(nodes) && index == old(index)
      ensures key !in old(index) ==>
          nodes == old(nodes) + [Node(key, len, handle, 0, false)] && handle == |old(nodes)|
          && index == old(index)[key := handle]
    {
      if key in index {
        return index[key];
      }
      handle := |nodes|;
      AddKeeps(nodes, top, edges, pins, index, key, len);
      nodes := nodes + [Node(key, len, handle, 0, false)];
      index := index[key := handle];
    }

    /** The root of the class, halving the path on the way: it ends because ranks rise, and moves no root. */
    method Find(handle: nat) returns (h: nat)
      requires Valid() && handle < |nodes|
      modifies this`nodes
      ensures Valid() && |nodes| == |old(nodes)| && h < |nodes| && h == Root(nodes, top, handle)
          && h == Root(old(nodes), top, handle)
      ensures SameRoots(old(nodes), nodes, top) && SameData(old(nodes), nodes)
    {
      ghost var was := nodes;
      h := handle;
      while nodes[h].parent != h
        invariant h < |nodes| && SameRoots(was, nodes, top) && SameData(was, nodes)
            && Root(nodes, top, h) == Root(was, top, handle)
        decreases top - nodes[h].rank
      {
        hide Good, SameData;
        Halve(nodes, top, h);
        ghost var before := nodes;
        nodes := nodes[h := nodes[h].(parent := nodes[nodes[h].parent].parent)];
        SameOn(was, before, nodes, top);
        RootOfParent(nodes, top, h);
        h := nodes[h].parent;
      }
      HalvedIsGood(was, nodes, top, edges, pins, index);
    }

    method Unite(a: nat, b: nat)
      requires Valid() && a < |nodes| && b < |nodes|
      modifies this
      ensures Valid() && SameAxes(old(nodes), nodes) && edges == old(edges) + {(a, b)} && pins == old(pins)
          && index == old(index)
    {
      hide Good, SameData, SameRoots, SameAxes, Root, Link, IsForest;
      var ra := Find(a);
      ghost var mid := nodes;
      var rb := Find(b);
      SameRoot(mid, nodes, top, a);
      FoundAxes(old(nodes), mid);
      FoundAxes(mid, nodes);
      AxesStay(old(nodes), mid, nodes);
      if ra == rb {
        SameClassKeeps(nodes, top, edges, pins, index, a, b);
        edges := edges + {(a, b)};
      } else {
        if nodes[ra].rank < nodes[rb].rank {
          ra, rb := rb, ra;
        }
        LinkKeeps(nodes, top, ra, rb, a, b, edges, pins, index);
        LinkedAxes(nodes, ra, rb);
        AxesStay(old(nodes), nodes, Link(nodes, ra, rb));
        nodes := Link(nodes, ra, rb);
        top, edges := top + 1, edges + {(a, b)};
      }
    }

    method PinAxis(handle: nat)
      requires Valid() && handle < |nodes|
      modifies this
      ensures Valid() && SameAxes(old(nodes), nodes) && edges == old(edges) && pins == old(pins) + {handle}
          && index == old(index)
    {
      hide Good, SameData;
      var r := Find(handle);
      FoundAxes(old(nodes), nodes);
      PinKeeps(nodes, top, handle, edges, pins, index);
      nodes := nodes[r := nodes[r].(pinned := true)];
      pins := pins + {handle};
    }
  }

  lemma SameRoot(a: seq<Node>, b: seq<Node>, top: nat, x: nat)
    requires SameRoots(a, b, top) && x < |a|
    ensures |a| == |b| && IsForest(a, top) && IsForest(b, top) && Root(a, top, x) == Root(b, top, x)
  {}

  lemma SameOn(a: seq<Node>, b: seq<Node>, c: seq<Node>, top: nat)
    requires SameRoots(a, b, top) && SameData(a, b) && SameRoots(b, c, top) && SameData(b, c)
    ensures SameRoots(a, c, top) && SameData(a, c)
  {
    hide IsForest;
    forall x | 0 <= x < |a| ensures a[x].(parent := c[x].parent) == c[x] && Root(a, top, x) == Root(c, top, x) {
      assert a[x].(parent := b[x].parent) == b[x];
      assert b[x].(parent := c[x].parent) == c[x];
    }
  }
}

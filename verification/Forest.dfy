/** The forest behind the axis union-find (modules/align/src/graph.cpp): ranks rise towards the root, path halving
    moves no root, and uniting two roots merges two classes. */
module Forest {

  datatype AxisKey = AxisKey(tensor: string, dim: nat)
  datatype Node = Node(key: AxisKey, len: nat, parent: nat, rank: nat, pinned: bool)

  /** Parents exist and have a higher rank; no rank exceeds `top`. */
  ghost predicate IsForest(nodes: seq<Node>, top: nat) {
    forall i :: 0 <= i < |nodes| ==>
      && nodes[i].parent < |nodes| && nodes[i].rank <= top
      && (nodes[i].parent != i ==> nodes[i].rank < nodes[nodes[i].parent].rank)
  }

  ghost function Root(nodes: seq<Node>, top: nat, i: nat): (r: nat)
    requires IsForest(nodes, top) && i < |nodes|
    ensures r < |nodes| && nodes[r].parent == r && nodes[i].rank <= nodes[r].rank
    ensures r == i <==> nodes[i].parent == i
    decreases top - nodes[i].rank
  {
    if nodes[i].parent == i then i else Root(nodes, top, nodes[i].parent)
  }

  lemma RootOfParent(nodes: seq<Node>, top: nat, i: nat)
    requires IsForest(nodes, top) && i < |nodes|
    ensures Root(nodes, top, nodes[i].parent) == Root(nodes, top, i)
  {}

  // ------------------------------------------------------------- path halving

  ghost predicate SameRoots(a: seq<Node>, b: seq<Node>, top: nat) {
    && |a| == |b| && IsForest(a, top) && IsForest(b, top)
    && forall x :: 0 <= x < |a| ==> Root(a, top, x) == Root(b, top, x)
  }

  /** Only parents differ. */
  ghost predicate SameData(a: seq<Node>, b: seq<Node>) {
    |a| == |b| && forall x :: 0 <= x < |a| ==> a[x].(parent := b[x].parent) == b[x]
  }

  lemma HalveIsForest(nodes: seq<Node>, top: nat, h: nat)
    requires IsForest(nodes, top) && h < |nodes|
    ensures IsForest(nodes[h := nodes[h].(parent := nodes[nodes[h].parent].parent)], top)
  {}

  lemma {:induction false} HalveKeepsRoot(nodes: seq<Node>, top: nat, h: nat, x: nat)
    requires IsForest(nodes, top) && h < |nodes| && x < |nodes|
    requires IsForest(nodes[h := nodes[h].(parent := nodes[nodes[h].parent].parent)], top)
    ensures Root(nodes[h := nodes[h].(parent := nodes[nodes[h].parent].parent)], top, x) == Root(nodes, top, x)
    decreases top - nodes[x].rank
  {
    var g := nodes[nodes[h].parent].parent;
    var more := nodes[h := nodes[h].(parent := g)];
    if x == h {
      if g != h {
        HalveKeepsRoot(nodes, top, h, g);
        RootOfParent(nodes, top, h);
        RootOfParent(nodes, top, nodes[h].parent);
      }
    } else if nodes[x].parent != x {
      HalveKeepsRoot(nodes, top, h, nodes[x].parent);
    }
  }

  lemma Halve(nodes: seq<Node>, top: nat, h: nat)
    requires IsForest(nodes, top) && h < |nodes|
    ensures SameRoots(nodes, nodes[h := nodes[h].(parent := nodes[nodes[h].parent].parent)], top)
    ensures SameData(nodes, nodes[h := nodes[h].(parent := nodes[nodes[h].parent].parent)])
  {
    HalveIsForest(nodes, top, h);
    forall x | 0 <= x < |nodes|
      ensures Root(nodes, top, x) == Root(nodes[h := nodes[h].(parent := nodes[nodes[h].parent].parent)], top, x)
    {
      HalveKeepsRoot(nodes, top, h, x);
    }
  }

  // ------------------------------------------------------------- union

  /** Hang root rb under root ra; ra grows by one rank when they tie. */
  function Link(nodes: seq<Node>, ra: nat, rb: nat): (r: seq<Node>)
    requires ra < |nodes| && rb < |nodes| && ra != rb
    ensures |r| == |nodes|
  {
    var a, b := nodes[ra], nodes[rb];
    nodes[rb := b.(parent := ra)][ra := a.(rank := if a.rank == b.rank then a.rank + 1 else a.rank, pinned := a.pinned
        || b.pinned)]
  }

  lemma LinkIsForest(nodes: seq<Node>, top: nat, ra: nat, rb: nat)
    requires IsForest(nodes, top) && ra < |nodes| && rb < |nodes| && ra != rb && nodes[ra].parent == ra
        && nodes[rb].parent == rb
    requires nodes[rb].rank <= nodes[ra].rank
    ensures IsForest(Link(nodes, ra, rb), top + 1) && IsForest(nodes, top + 1)
  {}

  /** The two classes become one, the others stay. */
  lemma {:induction false} LinkRoots(nodes: seq<Node>, top: nat, ra: nat, rb: nat, x: nat)
    requires IsForest(nodes, top) && ra < |nodes| && rb < |nodes| && ra != rb && nodes[ra].parent == ra
        && nodes[rb].parent == rb
    requires nodes[rb].rank <= nodes[ra].rank && x < |nodes| && IsForest(Link(nodes, ra, rb), top + 1)
    ensures Root(Link(nodes, ra, rb), top + 1, x) == (if Root(nodes, top, x) == rb then ra else Root(nodes, top, x))
    decreases top - nodes[x].rank
  {
    var more := Link(nodes, ra, rb);
    if x == ra {
    } else if x == rb {
      RootOfParent(more, top + 1, rb);
    } else if nodes[x].parent != x {
      LinkRoots(nodes, top, ra, rb, nodes[x].parent);
      RootOfParent(more, top + 1, x);
    }
  }

  // ------------------------------------------------------------- the closure of the unite calls

  /** A chain of unite calls, in either direction, from a to b. */
  ghost predicate IsChain(edges: set<(nat, nat)>, path: seq<nat>) {
    path != [] && forall i :: 0 < i < |path| ==> (path[i - 1], path[i]) in edges || (path[i], path[i - 1]) in edges
  }

  ghost predicate Linked(edges: set<(nat, nat)>, a: nat, b: nat) {
    exists path :: IsChain(edges, path) && path[0] == a && path[|path| - 1] == b
  }

  lemma LinkedSelf(edges: set<(nat, nat)>, a: nat)
    ensures Linked(edges, a, a)
  {
    assert IsChain(edges, [a]);
  }

  lemma LinkedEdge(edges: set<(nat, nat)>, a: nat, b: nat)
    requires (a, b) in edges || (b, a) in edges
    ensures Linked(edges, a, b)
  {
    var path := [a, b];
    assert IsChain(edges, path) && path[0] == a && path[|path| - 1] == b;
  }

  lemma LinkedTrans(edges: set<(nat, nat)>, a: nat, b: nat, c: nat)
    requires Linked(edges, a, b) && Linked(edges, b, c)
    ensures Linked(edges, a, c)
  {
    var s :| IsChain(edges, s) && s[0] == a && s[|s| - 1] == b;
    var t :| IsChain(edges, t) && t[0] == b && t[|t| - 1] == c;
    var path := s + t[1..];
    assert IsChain(edges, path);
    assert path[0] == a && path[|path| - 1] == c;
  }

  lemma LinkedSym(edges: set<(nat, nat)>, a: nat, b: nat)
    requires Linked(edges, a, b)
    ensures Linked(edges, b, a)
  {
    var s :| IsChain(edges, s) && s[0] == a && s[|s| - 1] == b;
    var path := seq(|s|, i requires 0 <= i < |s| => s[|s| - 1 - i]);
    assert IsChain(edges, path) && path[0] == b && path[|path| - 1] == a;
  }

  lemma LinkedMore(edges: set<(nat, nat)>, more: set<(nat, nat)>, a: nat, b: nat)
    requires Linked(edges, a, b) && edges <= more
    ensures Linked(more, a, b)
  {
    var s :| IsChain(edges, s) && s[0] == a && s[|s| - 1] == b;
    assert IsChain(more, s);
  }

  /** An assignment of classes that respects every edge respects every chain. */
  lemma {:induction false} ChainRespects(edges: set<(nat, nat)>, path: seq<nat>, cls: seq<nat>)
    requires IsChain(edges, path) && (forall e :: e in edges ==> e.0 < |cls| && e.1 < |cls| && cls[e.0] == cls[e.1])
        && path[0] < |cls|
    ensures path[|path| - 1] < |cls| && cls[path[0]] == cls[path[|path| - 1]]
    decreases |path|
  {
    if |path| > 1 {
      var n := |path| - 1;
      var front := path[..n];
      assert IsChain(edges, front);
      ChainRespects(edges, front, cls);
      assert (path[n - 1], path[n]) in edges || (path[n], path[n - 1]) in edges;
    }
  }
}

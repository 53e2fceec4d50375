/** From axis classes to permutation groups: AxisUnionFind::finalize (modules/align/src/graph.cpp). Group names are
    left to the caller; groups are numbered in order of first sight. */
module Finalize {
  import opened Common
  import opened Arith
  import opened Forest
  import opened UnionFind

  const Wrap32: nat := 0x1_0000_0000
  const Max64: nat := 0xFFFF_FFFF_FFFF_FFFF

  datatype Group = Group(size: nat, pinned: bool)
  datatype Binding = Binding(key: AxisKey, group: nat, block: nat)
  datatype Grouping = Grouping(groups: seq<Group>, axes: seq<Binding>)

  /** Shortest axis of a class among the first n. */
  function MinLen(nodes: seq<Node>, roots: seq<nat>, r: nat, n: nat): nat
    requires n <= |nodes| == |roots|
  {
    if n == 0 then Max64 else
      var m := MinLen(nodes, roots, r, n - 1);
      if roots[n - 1] == r && nodes[n - 1].len < m then nodes[n - 1].len else m
  }

  ghost predicate AnyPinned(nodes: seq<Node>, roots: seq<nat>, r: nat, n: nat)
    requires n <= |nodes| == |roots|
  {
    exists i :: 0 <= i < n && roots[i] == r && nodes[i].pinned
  }

  /** It is the shortest: some member has it, none is shorter. */
  lemma {:induction false} MinLenIs(nodes: seq<Node>, roots: seq<nat>, r: nat, n: nat)
    requires n <= |nodes| == |roots| && forall i :: 0 <= i < n ==> nodes[i].len <= Max64
    ensures forall i :: 0 <= i < n && roots[i] == r ==> MinLen(nodes, roots, r, n) <= nodes[i].len
    ensures (exists i :: 0 <= i < n && roots[i] == r) ==>
        exists i :: 0 <= i < n && roots[i] == r && nodes[i].len == MinLen(nodes, roots, r, n)
  {
    if n > 0 {
      MinLenIs(nodes, roots, r, n - 1);
      MinLenCap(nodes, roots, r, n - 1);
    }
  }

  lemma {:induction false} MinLenCap(nodes: seq<Node>, roots: seq<nat>, r: nat, n: nat)
    requires n <= |nodes| == |roots|
    ensures MinLen(nodes, roots, r, n) <= Max64
    ensures (forall i :: 0 <= i < n ==> roots[i] != r) ==> MinLen(nodes, roots, r, n) == Max64
  {
    if n > 0 {
      MinLenCap(nodes, roots, r, n - 1);
    }
  }

  /** Size and pinned flag of one class: the loop over its members. */
  method Summarise(nodes: seq<Node>, roots: seq<nat>, r: nat) returns (g: Group)
    requires |nodes| == |roots|
    ensures Summary(nodes, roots, r, g)
  {
    var min, pinned, i := Max64, false, 0;
    while i < |nodes|
      invariant 0 <= i <= |nodes| && min == MinLen(nodes, roots, r, i) && (pinned <==> AnyPinned(nodes, roots, r, i))
    {
      if roots[i] == r {
        if nodes[i].len < min {
          min := nodes[i].len;
        }
        pinned := pinned || nodes[i].pinned;
      }
      i := i + 1;
    }
    return Group(min % Wrap32, pinned);
  }

  ghost predicate Summary(nodes: seq<Node>, roots: seq<nat>, r: nat, g: Group)
    requires |nodes| == |roots|
  {
    g.size == MinLen(nodes, roots, r, |nodes|) % Wrap32 && (g.pinned <==> AnyPinned(nodes, roots, r, |nodes|))
  }

  /** One group per root, numbered. */
  ghost predicate Numbered(nodes: seq<Node>, roots: seq<nat>, ids: map<nat, nat>, groups: seq<Group>, n: nat)
    requires n <= |nodes| == |roots|
  {
    && (forall i :: 0 <= i < n ==> roots[i] in ids)
    && (forall r :: r in ids ==> ids[r] < |groups| && Summary(nodes, roots, r, groups[ids[r]]))
    && (forall r, q :: r in ids && q in ids && ids[r] == ids[q] ==> r == q)
  }

  method NumberGroups(nodes: seq<Node>, roots: seq<nat>) returns (ids: map<nat, nat>, groups: seq<Group>)
    requires |nodes| == |roots|
    ensures Numbered(nodes, roots, ids, groups, |nodes|)
  {
    ids, groups := map[], [];
    var i := 0;
    while i < |roots|
      invariant 0 <= i <= |roots| && Numbered(nodes, roots, ids, groups, i)
    {
      hide MinLen, AnyPinned;
      if roots[i] !in ids {
        var g := Summarise(nodes, roots, roots[i]);
        ids, groups := ids[roots[i] := |groups|], groups + [g];
      }
      i := i + 1;
    }
  }

  /** What finalize promises about axis i. */
  ghost predicate AxisBound(nodes: seq<Node>, roots: seq<nat>, t: Grouping, i: nat)
    requires i < |nodes| == |roots| && i < |t.axes|
  {
    var a := t.axes[i];
    && a.key == nodes[i].key && a.group < |t.groups|
    && var g := t.groups[a.group];
    && g.size == MinLen(nodes, roots, roots[i], |nodes|) % Wrap32
        && (g.pinned <==> AnyPinned(nodes, roots, roots[i], |nodes|))
    && g.size > 0 && nodes[i].len % g.size == 0 && a.block == (nodes[i].len / g.size) % Wrap32
  }

  ghost predicate SplitsByRoot(roots: seq<nat>, t: Grouping)
  {
    |t.axes| <= |roots| && forall i, j :: 0 <= i < |t.axes| && 0 <= j < |t.axes| ==>
        (t.axes[i].group == t.axes[j].group <==> roots[i] == roots[j])
  }

  /** An axis whose length its class size does not divide. */
  ghost predicate Misfit(nodes: seq<Node>, roots: seq<nat>, i: nat)
    requires i < |nodes| == |roots|
  {
    var size := MinLen(nodes, roots, roots[i], |nodes|) % Wrap32;
    size == 0 || nodes[i].len % size != 0
  }

  method BindAxes(nodes: seq<Node>, roots: seq<nat>, ids: map<nat, nat>, groups: seq<Group>)
      returns (r: Result<Grouping>)
    requires |nodes| == |roots| && Numbered(nodes, roots, ids, groups, |nodes|)
    ensures r.Ok? <==> forall i :: 0 <= i < |nodes| ==> !Misfit(nodes, roots, i)
    ensures r.Ok? ==> |r.value.axes| == |nodes| && SplitsByRoot(roots, r.value) && forall i :: 0 <= i < |nodes| ==>
        AxisBound(nodes, roots, r.value, i)
    ensures r.Err? ==> r.error == BlockFactorMismatch
  {
    hide MinLen, AnyPinned;
    var axes: seq<Binding>, i := [], 0;
    while i < |nodes|
      invariant 0 <= i <= |nodes| && |axes| == i && (forall k :: 0 <= k < i ==> !Misfit(nodes, roots, k))
      invariant forall k :: 0 <= k < i ==>
          axes[k].group == ids[roots[k]] && AxisBound(nodes, roots, Grouping(groups, axes), k)
    {
      var g := ids[roots[i]];
      var size := groups[g].size;
      if size == 0 || nodes[i].len % size != 0 {
        assert Misfit(nodes, roots, i);
        return Err(BlockFactorMismatch);
      }
      ghost var before := axes;
      axes := axes + [Binding(nodes[i].key, g, (nodes[i].len / size) % Wrap32)];
      forall k | 0 <= k < i ensures AxisBound(nodes, roots, Grouping(groups, axes), k) {
        assert AxisBound(nodes, roots, Grouping(groups, before), k);
        assert axes[k] == before[k];
      }
      i := i + 1;
    }
    return Ok(Grouping(groups, axes));
  }

  /** The roots of all axes, through find. */
  method AllRoots(uf: AxisUnionFind) returns (roots: seq<nat>)
    requires uf.Valid()
    modifies uf`nodes
    ensures uf.Valid() && SameData(old(uf.nodes), uf.nodes) && SameRoots(old(uf.nodes), uf.nodes, uf.top)
    ensures IsForest(uf.nodes, uf.top) && roots == Roots(uf.nodes, uf.top)
  {
    hide Good, IsForest, SameData, SameRoots, Root, Roots;
    ghost var was := uf.nodes;
    roots := [];
    var i := 0;
    StartsSame(uf.nodes, uf.top, uf.edges, uf.pins, uf.index);
    ghost var all := Roots(was, uf.top);
    hide Traced;
    TraceStarts(was, uf.top, all);
    while i < |uf.nodes|
      invariant uf.Valid() && i <= |uf.nodes| && Traced(was, uf.nodes, uf.top, all, i, roots)
    {
      ghost var before := uf.nodes;
      TraceShape(was, uf.nodes, uf.top, all, i, roots);
      var r := uf.Find(i);
      TraceStep(was, before, uf.nodes, uf.top, all, i, roots, r);
      roots := roots + [r];
      i := i + 1;
    }
    TraceEnds(was, uf.nodes, uf.top, all, roots);
  }

  /** The roots of the first i axes, with only parents changed since the start. */
  ghost predicate Traced(was: seq<Node>, now: seq<Node>, top: nat, all: seq<nat>, i: nat, roots: seq<nat>) {
    && SameRoots(was, now, top) && SameData(was, now) && all == Roots(was, top) && |now| == |was|
    && i <= |all| && roots == all[..i]
  }

  lemma TraceStarts(was: seq<Node>, top: nat, all: seq<nat>)
    requires IsForest(was, top) && all == Roots(was, top) && SameData(was, was) && SameRoots(was, was, top)
    ensures Traced(was, was, top, all, 0, [])
  {
    hide IsForest, SameData, Roots;
  }

  lemma TraceShape(was: seq<Node>, now: seq<Node>, top: nat, all: seq<nat>, i: nat, roots: seq<nat>)
    requires Traced(was, now, top, all, i, roots)
    ensures |now| == |was| == |all| && IsForest(now, top)
  {
    hide IsForest, SameData;
  }

  lemma TraceStep(was: seq<Node>, before: seq<Node>, now: seq<Node>, top: nat, all: seq<nat>, i: nat, roots: seq<nat>,
      r: nat)
    requires Traced(was, before, top, all, i, roots) && i < |before|
    requires SameRoots(before, now, top) && SameData(before, now)
    requires IsForest(before, top) && r == Root(before, top, i)
    ensures Traced(was, now, top, all, i + 1, roots + [r])
  {
    hide IsForest, SameData, SameRoots, Root, Roots;
    SameOn(was, before, now, top);
    NextRoot(was, before, top, i);
    SameSize(before, now, top);
    assert all[..i + 1] == all[..i] + [all[i]];
  }

  lemma SameSize(a: seq<Node>, b: seq<Node>, top: nat)
    requires SameRoots(a, b, top)
    ensures |a| == |b|
  {}

  lemma TraceEnds(was: seq<Node>, now: seq<Node>, top: nat, all: seq<nat>, roots: seq<nat>)
    requires Traced(was, now, top, all, |now|, roots)
    ensures SameData(was, now) && SameRoots(was, now, top) && IsForest(now, top) && roots == Roots(now, top)
  {
    hide IsForest, SameData, Root;
    SameRootsAre(was, now, top);
  }

  lemma NextRoot(was: seq<Node>, now: seq<Node>, top: nat, i: nat)
    requires SameRoots(was, now, top) && i < |was|
    ensures IsForest(was, top) && IsForest(now, top) && i < |now| && |Roots(was, top)| == |was|
        && Roots(was, top)[i] == Root(now, top, i)
  {}

  lemma StartsSame(nodes: seq<Node>, top: nat, edges: set<(nat, nat)>, pins: set<nat>, index: map<AxisKey, nat>)
    requires Good(nodes, top, edges, pins, index)
    ensures SameData(nodes, nodes) && SameRoots(nodes, nodes, top) && IsForest(nodes, top)
        && |Roots(nodes, top)| == |nodes|
  {}

  /** A class carries a mark exactly when one of its axes was pinned. */
  lemma PinnedClass(nodes: seq<Node>, roots: seq<nat>, pins: set<nat>, i: nat)
    requires PinsMarked(nodes, roots, pins) && i < |nodes|
        && (forall x :: 0 <= x < |roots| ==> roots[x] < |roots| && roots[roots[x]] == roots[x])
    ensures AnyPinned(nodes, roots, roots[i], |nodes|) <==> HasPin(roots, pins, i)
  {
    if AnyPinned(nodes, roots, roots[i], |nodes|) {
      var x :| 0 <= x < |nodes| && roots[x] == roots[i] && nodes[x].pinned;
      assert HasPin(roots, pins, x);
    }
    if HasPin(roots, pins, i) {
      var y :| y in pins && y < |roots| && roots[y] == roots[i];
      assert nodes[roots[y]].pinned && roots[roots[y]] == roots[i];
    }
  }

  /** The grouping as the unite and pin calls determine it. */
  ghost predicate Reflects(nodes: seq<Node>, edges: set<(nat, nat)>, pins: set<nat>, t: Grouping) {
    && |t.axes| == |nodes|
    && (forall i, j :: 0 <= i < |nodes| && 0 <= j < |nodes| ==>
        (t.axes[i].group == t.axes[j].group <==> Linked(edges, i, j)))
    && (forall i :: 0 <= i < |nodes| ==> AxisReflects(nodes, edges, pins, t, i))
  }

  /** Axis i: its key, a positive group size that divides its length, the 32-bit quotient as block, and the pin of its
      class. */
  ghost predicate AxisReflects(nodes: seq<Node>, edges: set<(nat, nat)>, pins: set<nat>, t: Grouping, i: nat)
    requires i < |nodes| == |t.axes|
  {
    var a := t.axes[i];
    && a.key == nodes[i].key && a.group < |t.groups|
    && var g := t.groups[a.group];
    && g.size > 0 && nodes[i].len % g.size == 0 && a.block == (nodes[i].len / g.size) % Wrap32
    && (g.pinned <==> PinLinked(edges, pins, i))
  }

  ghost predicate PinLinked(edges: set<(nat, nat)>, pins: set<nat>, i: nat) {
    exists y :: y in pins && Linked(edges, y, i)
  }

  lemma BoundReflects(nodes: seq<Node>, roots: seq<nat>, edges: set<(nat, nat)>, pins: set<nat>, t: Grouping)
    requires Partition(roots, edges) && PinsMarked(nodes, roots, pins)
        && (forall x :: 0 <= x < |roots| ==> roots[x] < |roots| && roots[roots[x]] == roots[x])
    requires |t.axes| == |nodes| && SplitsByRoot(roots, t) && forall i :: 0 <= i < |nodes| ==>
        AxisBound(nodes, roots, t, i)
    ensures Reflects(nodes, edges, pins, t)
  {
    hide Linked, MinLen;
    forall i | 0 <= i < |nodes| ensures AxisReflects(nodes, edges, pins, t, i) {
      assert AxisBound(nodes, roots, t, i);
      PinnedClass(nodes, roots, pins, i);
      PinIsLinked(nodes, roots, edges, pins, i);
    }
  }

  lemma PinIsLinked(nodes: seq<Node>, roots: seq<nat>, edges: set<(nat, nat)>, pins: set<nat>, i: nat)
    requires Partition(roots, edges) && PinsMarked(nodes, roots, pins) && i < |roots|
    ensures HasPin(roots, pins, i) <==> PinLinked(edges, pins, i)
  {
    hide Linked;
    if HasPin(roots, pins, i) {
      var y :| y in pins && y < |roots| && roots[y] == roots[i];
      assert Linked(edges, y, i);
    }
    if PinLinked(edges, pins, i) {
      var y :| y in pins && Linked(edges, y, i);
      assert y < |roots| && roots[y] == roots[i];
    }
  }

  lemma RootsOfRoots(nodes: seq<Node>, top: nat)
    requires IsForest(nodes, top)
    ensures forall x :: 0 <= x < |nodes| ==>
        Roots(nodes, top)[x] < |nodes| && Roots(nodes, top)[Roots(nodes, top)[x]] == Roots(nodes, top)[x]
  {
    forall x | 0 <= x < |nodes|
      ensures Roots(nodes, top)[x] < |nodes| && Roots(nodes, top)[Roots(nodes, top)[x]] == Roots(nodes, top)[x]
    {
      RootFacts(nodes, top, x);
    }
  }

  /** finalize: fails exactly when some axis is no multiple of its class size. */
  method FinalizeGroups(uf: AxisUnionFind) returns (r: Result<Grouping>)
    requires uf.Valid()
    modifies uf`nodes
    ensures uf.Valid() && SameData(old(uf.nodes), uf.nodes) && IsForest(uf.nodes, uf.top)
    ensures SameRoots(old(uf.nodes), uf.nodes, uf.top)
    ensures r.Ok? <==> forall i :: 0 <= i < |uf.nodes| ==> !Misfit(uf.nodes, Roots(uf.nodes, uf.top), i)
    ensures r.Ok? ==> Reflects(uf.nodes, uf.edges, uf.pins, r.value)
    ensures r.Ok? ==> |r.value.axes| == |uf.nodes| && forall i :: 0 <= i < |uf.nodes| ==>
        AxisBound(uf.nodes, Roots(uf.nodes, uf.top), r.value, i)
    ensures r.Ok? ==> forall i :: 0 <= i < |uf.nodes| ==>
        (Multiplies(uf.nodes, r.value, i) <==> BlockFits(uf.nodes, Roots(uf.nodes, uf.top), i))
  {
    hide IsForest, SameData, SameRoots, Roots, Numbered, Misfit, AxisBound, SplitsByRoot, Partition, PinsMarked,
        Indexed, Reflects, Multiplies, BlockFits;
    var roots := AllRoots(uf);
    ValidParts(uf.nodes, uf.top, uf.edges, uf.pins, uf.index);
    var ids, groups := NumberGroups(uf.nodes, roots);
    r := BindAxes(uf.nodes, roots, ids, groups);
    if r.Ok? {
      BoundReflects(uf.nodes, roots, uf.edges, uf.pins, r.value);
      forall i | 0 <= i < |uf.nodes| ensures Multiplies(uf.nodes, r.value, i) <==> BlockFits(uf.nodes, roots, i) {
        BlockIsExact(uf.nodes, roots, r.value, i);
      }
    }
  }

  lemma ValidParts(nodes: seq<Node>, top: nat, edges: set<(nat, nat)>, pins: set<nat>, index: map<AxisKey, nat>)
    requires Good(nodes, top, edges, pins, index)
    ensures IsForest(nodes, top) && |Roots(nodes, top)| == |nodes| && Partition(Roots(nodes, top), edges)
        && PinsMarked(nodes, Roots(nodes, top), pins)
    ensures forall x :: 0 <= x < |Roots(nodes, top)| ==>
        Roots(nodes, top)[x] < |Roots(nodes, top)| && Roots(nodes, top)[Roots(nodes, top)[x]] == Roots(nodes, top)[x]
  {
    RootsOfRoots(nodes, top);
  }

  // ------------------------------------------------------------- 32-bit block factors

  /** The number of units of axis i in its group fits 32 bits: fixed by the axes and the unite calls before finalize.
      */
  ghost predicate BlockFits(nodes: seq<Node>, roots: seq<nat>, i: nat)
    requires i < |nodes| == |roots|
  {
    var size := MinLen(nodes, roots, roots[i], |nodes|) % Wrap32;
    size > 0 && nodes[i].len / size < Wrap32
  }

  /** The returned size and block multiply to the axis length. */
  ghost predicate Multiplies(nodes: seq<Node>, t: Grouping, i: nat) {
    i < |nodes| && i < |t.axes| && t.axes[i].group < |t.groups|
        && nodes[i].len == t.groups[t.axes[i].group].size * t.axes[i].block
  }

  /** Length is size times block exactly when the quotient fits 32 bits. */
  lemma BlockIsExact(nodes: seq<Node>, roots: seq<nat>, t: Grouping, i: nat)
    requires i < |nodes| == |roots| && i < |t.axes| && AxisBound(nodes, roots, t, i)
    ensures Multiplies(nodes, t, i) <==> BlockFits(nodes, roots, i)
  {
    hide MinLen, AnyPinned;
    var a := t.axes[i];
    var size := t.groups[a.group].size;
    var q := nodes[i].len / size;
    assert nodes[i].len == size * q by { Quotient(nodes[i].len, size); }
    if q >= Wrap32 {
      assert a.block < Wrap32;
      MulLe(a.block + 1, q, size);
      MulSucc(a.block, size);
    }
  }

  lemma Quotient(n: nat, d: nat)
    requires d > 0 && n % d == 0
    ensures n == d * (n / d)
  {}

  /** Two linked axes of lengths 1 and 2^32: finalize accepts them, and every grouping it may return for them gives
      the longer one a block factor of 0. */
  lemma BlockCanWrap(nodes: seq<Node>, roots: seq<nat>, t: Grouping)
    requires |nodes| == |roots| == |t.axes| == 2 && roots[0] == roots[1] && nodes[0].len == 1 && nodes[1].len == Wrap32
    ensures !Misfit(nodes, roots, 0) && !Misfit(nodes, roots, 1)
    ensures AxisBound(nodes, roots, t, 1) ==> t.axes[1].block == 0 && !Multiplies(nodes, t, 1)
  {
    assert MinLen(nodes, roots, roots[0], 0) == Max64;
    assert MinLen(nodes, roots, roots[0], 1) == 1;
    assert MinLen(nodes, roots, roots[0], 2) == 1;
  }

  lemma OneClass(nodes: seq<Node>, top: nat, edges: set<(nat, nat)>, pins: set<nat>, index: map<AxisKey, nat>)
    requires Good(nodes, top, edges, pins, index) && |nodes| == 2 && (0, 1) in edges
    ensures IsForest(nodes, top) && Roots(nodes, top)[0] == Roots(nodes, top)[1]
  {
    hide IsForest, Roots, Linked;
    ValidParts(nodes, top, edges, pins, index);
    LinkedEdge(edges, 0, 1);
    assert Linked(edges, 0, 1);
  }

  /** Such a grouping is reached: add, add, unite, finalize. */
  method WrappedBlock(a: AxisKey, b: AxisKey) returns (r: Result<Grouping>)
    requires a != b
    ensures r.Ok? && |r.value.axes| == 2 && r.value.axes[1].key == b && r.value.axes[1].group < |r.value.groups|
    ensures r.value.axes[1].block == 0 && r.value.groups[r.value.axes[1].group].size * r.value.axes[1].block != Wrap32
  {
    hide Good, SameData, IsForest, Reflects, Misfit, MinLen, BlockFits, AnyPinned;
    var uf := new AxisUnionFind();
    var x := uf.Add(a, 1);
    var y := uf.Add(b, Wrap32);
    uf.Unite(x, y);
    ghost var axes := uf.nodes;
    r := FinalizeGroups(uf);
    FoundAxes(axes, uf.nodes);
    assert uf.nodes[0].len == 1 && uf.nodes[1].len == Wrap32;
    OneClass(uf.nodes, uf.top, uf.edges, uf.pins, uf.index);
    var t := if r.Ok? then r.value else Grouping([], [Binding(a, 0, 0), Binding(b, 0, 0)]);
    BlockCanWrap(uf.nodes, Roots(uf.nodes, uf.top), t);
    assert r.Ok?;
    assert AxisBound(uf.nodes, Roots(uf.nodes, uf.top), r.value, 1);
  }
}

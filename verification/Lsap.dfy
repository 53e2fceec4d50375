/** Shortest-augmenting-path solver for the rectangular assignment problem, on arrays, after
    modules/align/src/rectangular_lsap.cpp. */
module Lsap {
  import opened Arith
  import opened Counting
  import opened LsapSpec

  // ------------------------------------------------------------ search lemmas

  /** Tentative distance of a column after a row at distance `d` is scanned. */
  function Relax(e: Cost, d: real, ui: real, vj: real, was: Ext): Ext {
    if e.Num? && (was.Inf? || d + e.v - ui - vj < was.v) then Fin(d + e.v - ui - vj) else was
  }

  /** Labels `s'` are labels `s` after row `i` was scanned. */
  ghost predicate Scanned(p: Problem, s: Labels, i: int, s': Labels)
    requires p.Shaped() && Flags(p, s)
  {
    && 0 <= i < p.nr
    && s' == s.(spc := s'.spc, path := s'.path, SR := s.SR[i := true])
    && |s'.spc| == |s'.path| == p.nc
    && forall j :: 0 <= j < p.nc ==>
         && s'.spc[j] == (if s.SC[j] then s.spc[j] else Relax(p.c[i][j], s.minVal, p.u[i], p.v[j], s.spc[j]))
         && s'.path[j] == (if s'.spc[j] == s.spc[j] then s.path[j] else i)
  }

  lemma ScanFlags(p: Problem, s: Labels, i: int, s': Labels)
    requires p.Shaped() && Matching(p.k, p.nr, p.nc, p.row4col, p.col4row)
    requires Flags(p, s) && Frontier(p, s, i) && Scanned(p, s, i, s') && Monotone(p, s)
    ensures Flags(p, s')
    ensures s.order != [] ==> i < p.k && p.col4row[i] == s.order[|s.order| - 1]
    ensures RowDist(p, s', i) == s.minVal
    ensures forall r :: 0 <= r < p.nr && s.SR[r] ==> RowDist(p, s', r) == RowDist(p, s, r)
  {
    if s.order != [] {
      assert s.order[|s.order| - 1] in s.order;
    }
  }

  lemma ScanRelaxed(p: Problem, s: Labels, i: int, s': Labels)
    requires Search(p, s) && Frontier(p, s, i) && Scanned(p, s, i, s')
    ensures Flags(p, s') && Relaxed(p, s')
  {
    ScanFlags(p, s, i, s');
    hide Relaxed, Scanned, Search, Frontier;
    forall r, j | 0 <= r < p.nr && 0 <= j < p.nc && s'.SR[r] && p.c[r][j].Num?
      ensures s'.spc[j].Fin? && s'.spc[j].v <= RowDist(p, s', r) + p.Reduced(r, j)
    {
      if r == i {
        NewRowRelaxed(p, s, i, s', j);
      } else {
        OldRowRelaxed(p, s, i, s', r, j);
      }
    }
    RelaxedIntro(p, s');
  }

  lemma RelaxedIntro(p: Problem, s: Labels)
    requires p.Shaped() && Flags(p, s)
    requires forall r, j {:trigger p.c[r][j]} :: 0 <= r < p.nr && 0 <= j < p.nc && s.SR[r] && p.c[r][j].Num? ==>
      s.spc[j].Fin? && s.spc[j].v <= RowDist(p, s, r) + p.Reduced(r, j)
    ensures Relaxed(p, s)
  {}

  lemma OldRowRelaxed(p: Problem, s: Labels, i: int, s': Labels, r: int, j: int)
    requires Search(p, s) && Frontier(p, s, i) && Scanned(p, s, i, s') && 0 <= r < p.nr && r != i && s'.SR[r]
    requires 0 <= j < p.nc && p.c[r][j].Num?
    ensures s.SR[r] && s'.spc[j].Fin? && s'.spc[j].v <= RowDist(p, s, r) + p.Reduced(r, j)
  {
    hide Duals, Tight, Acyclic, Monotone, Matching, ScannedUpTo;
    assert s.spc[j].Fin? && s.spc[j].v <= RowDist(p, s, r) + p.Reduced(r, j);
  }

  lemma NewRowRelaxed(p: Problem, s: Labels, i: int, s': Labels, j: int)
    requires Search(p, s) && Frontier(p, s, i) && Scanned(p, s, i, s') && 0 <= j < p.nc && p.c[i][j].Num?
    ensures s'.spc[j].Fin? && s'.spc[j].v <= s.minVal + p.Reduced(i, j)
  {
    hide Duals, Tight, Acyclic, Relaxed, ScannedUpTo;
    if s.SC[j] {
      SettledBefore(p, s, j);
      ReducedNonNegative(p, i);
    }
  }

  /** Settled columns are no farther than the last one. */
  lemma SettledBefore(p: Problem, s: Labels, j: int)
    requires p.Shaped() && Flags(p, s) && Monotone(p, s) && 0 <= j < p.nc && s.SC[j]
    ensures s.order != [] && s.spc[j].Fin? && s.spc[j].v <= s.minVal
  {
    var t :| 0 <= t < |s.order| && s.order[t] == j;
    assert s.spc[s.order[t]].v <= s.spc[s.order[|s.order| - 1]].v;
  }

  lemma ScanTight(p: Problem, s: Labels, i: int, s': Labels)
    requires p.Shaped() && Flags(p, s) && Tight(p, s) && Scanned(p, s, i, s') && Flags(p, s')
    requires RowDist(p, s', i) == s.minVal
    requires forall r :: 0 <= r < p.nr && s.SR[r] ==> RowDist(p, s', r) == RowDist(p, s, r)
    ensures Tight(p, s')
  {}

  lemma ScanOrder(p: Problem, s: Labels, i: int, s': Labels)
    requires p.Shaped() && Flags(p, s) && Monotone(p, s) && Acyclic(p, s) && Scanned(p, s, i, s') && Flags(p, s')
    requires s.order != [] ==> forall j :: 0 <= j < p.nc && p.c[i][j].Num? ==> p.Reduced(i, j) >= 0.0
    ensures Monotone(p, s') && Acyclic(p, s')
  {
    forall t | 0 <= t < |s.order|
      ensures s'.spc[s.order[t]] == s.spc[s.order[t]] && s'.path[s.order[t]] == s.path[s.order[t]]
    {
      assert s.order[t] in s.order;
    }
  }

  lemma ReducedNonNegative(p: Problem, i: int)
    requires p.Valid() && 0 <= i < p.k
    ensures forall j :: 0 <= j < p.nc && p.c[i][j].Num? ==> p.Reduced(i, j) >= 0.0
  {}

  lemma ScanProgress(p: Problem, s: Labels, i: int, s': Labels)
    requires p.Shaped() && Flags(p, s) && Frontier(p, s, i) && Scanned(p, s, i, s') && Flags(p, s')
    ensures s'.SR[p.k] && ScannedUpTo(p, s', |s'.order|)
  {}

  /** Scanning the frontier row keeps the search invariant, with one more row scanned. */
  lemma ScanStep(p: Problem, s: Labels, i: int, s': Labels)
    requires Search(p, s) && Frontier(p, s, i) && Scanned(p, s, i, s')
    ensures Search(p, s') && s'.SR[p.k] && ScannedUpTo(p, s', |s'.order|)
  {
    hide Relaxed, Tight, Monotone, Acyclic, Duals;
    ScanFlags(p, s, i, s');
    ScanRelaxed(p, s, i, s');
    ScanTight(p, s, i, s');
    if i < p.k { ReducedNonNegative(p, i); }
    ScanOrder(p, s, i, s');
    ScanProgress(p, s, i, s');
  }

  ghost function Settle(s: Labels, j: int): Labels
    requires 0 <= j < |s.SC| && j < |s.spc| && s.spc[j].Fin?
  {
    s.(SC := s.SC[j := true], order := s.order + [j], minVal := s.spc[j].v)
  }

  /** Settling a nearest unsettled column keeps the search invariant, and leads to a new frontier row or, at a free
      column, to the end of the search. */
  lemma SettleStep(p: Problem, s: Labels, j: int)
    requires Search(p, s) && s.SR[p.k] && ScannedUpTo(p, s, |s.order|)
    requires 0 <= j < p.nc && !s.SC[j] && s.spc[j].Fin?
    requires forall x :: 0 <= x < p.nc && !s.SC[x] && s.spc[x].Fin? ==> s.spc[j].v <= s.spc[x].v
    ensures Search(p, Settle(s, j))
    ensures p.row4col[j] == -1 ==> Found(p, Settle(s, j), j)
    ensures p.row4col[j] != -1 ==> Frontier(p, Settle(s, j), p.row4col[j])
  {
    hide Relaxed, Tight, Monotone, Acyclic, Duals;
    SettleFlags(p, s, j);
    SettleLabels(p, s, j);
    SettleMonotone(p, s, j);
    SettleAcyclic(p, s, j);
    if p.row4col[j] != -1 {
      assert p.col4row[p.row4col[j]] == j;
      assert !s.SR[p.row4col[j]];
    }
  }

  lemma SettleFlags(p: Problem, s: Labels, j: int)
    requires p.Shaped() && Flags(p, s)
    requires 0 <= j < p.nc && !s.SC[j] && s.spc[j].Fin?
    ensures Flags(p, Settle(s, j))
    ensures forall r :: 0 <= r < p.nr && s.SR[r] ==> RowDist(p, Settle(s, j), r) == RowDist(p, s, r)
  {
    var s' := Settle(s, j);
    assert forall x :: x in s'.order <==> x in s.order || x == j;
  }

  lemma SettleLabels(p: Problem, s: Labels, j: int)
    requires p.Shaped() && Flags(p, s) && Relaxed(p, s) && Tight(p, s) && 0 <= j < p.nc && s.spc[j].Fin?
    requires Flags(p, Settle(s, j))
    requires forall r :: 0 <= r < p.nr && s.SR[r] ==> RowDist(p, Settle(s, j), r) == RowDist(p, s, r)
    ensures Relaxed(p, Settle(s, j)) && Tight(p, Settle(s, j))
    ensures 0 <= s.path[j] < p.nr && s.SR[s.path[j]]
  {}

  lemma SettleMonotone(p: Problem, s: Labels, j: int)
    requires p.Shaped() && Flags(p, s) && Monotone(p, s) && 0 <= j < p.nc && !s.SC[j] && s.spc[j].Fin?
    requires forall x :: 0 <= x < p.nc && !s.SC[x] && s.spc[x].Fin? ==> s.spc[j].v <= s.spc[x].v
    requires Flags(p, Settle(s, j))
    ensures Monotone(p, Settle(s, j))
  {}

  lemma SettleAcyclic(p: Problem, s: Labels, j: int)
    requires p.Shaped() && Flags(p, s) && Acyclic(p, s) && 0 <= j < p.nc && !s.SC[j] && s.spc[j].Fin?
    requires 0 <= s.path[j] < p.nr && s.SR[s.path[j]]
    requires Flags(p, Settle(s, j))
    ensures Acyclic(p, Settle(s, j))
  {
    var s' := Settle(s, j);
    forall t | 0 <= t < |s'.order|
      ensures 0 <= s'.path[s'.order[t]] < p.nr
      ensures s'.path[s'.order[t]] == p.k || p.col4row[s'.path[s'.order[t]]] in s'.order[..t]
    {
      if t < |s.order| {
        assert s'.order[..t] == s.order[..t];
        var r := s.path[s.order[t]];
      } else {
        assert s'.order[..t] == s.order;
      }
    }
  }

  /** If no unsettled column was reached, the scanned rows form a Hall violator. */
  lemma StuckIsBlocked(p: Problem, s: Labels)
    requires Search(p, s) && s.SR[p.k] && ScannedUpTo(p, s, |s.order|)
    requires forall x :: 0 <= x < p.nc && !s.SC[x] ==> s.spc[x].Inf?
    ensures Blocked(p.c, p.k, p.nr, p.nc, p.row4col, s.SR, s.SC)
  {
    forall j | 0 <= j < p.nc && s.SC[j]
      ensures 0 <= p.row4col[j] < p.k && p.col4row[p.row4col[j]] == j && s.SR[p.row4col[j]]
    {
      var t :| 0 <= t < |s.order| && s.order[t] == j;
    }
  }

  lemma SettledAtMost(p: Problem, s: Labels, sink: int)
    requires Found(p, s, sink)
    ensures forall j :: 0 <= j < p.nc && s.SC[j] ==> s.spc[j].v <= s.minVal
    ensures forall j :: 0 <= j < p.nc && s.SC[j] && j != sink ==> 0 <= p.row4col[j] < p.k && s.SR[p.row4col[j]]
    ensures s.spc[sink] == Fin(s.minVal) && s.SC[sink]
  {
    forall j | 0 <= j < p.nc && s.SC[j]
      ensures s.spc[j].v <= s.minVal
      ensures j != sink ==> 0 <= p.row4col[j] < p.k && s.SR[p.row4col[j]]
    {
      var t :| 0 <= t < |s.order| && s.order[t] == j;
      assert s.spc[s.order[t]].v <= s.spc[s.order[|s.order| - 1]].v;
    }
    assert s.order[|s.order| - 1] in s.order;
  }

  // -------------------------------------------------- settled = truly shortest

  /** Row the walk `w` (a sequence of columns) leaves from at step t. */
  ghost function WalkRow(p: Problem, w: seq<int>, t: int): int
    requires 0 <= t <= |w| && InRange(w, |p.row4col|)
  {
    if t == 0 then p.k else p.row4col[w[t - 1]]
  }

  /** An alternating walk from the root: finite edge to a column, matched edge back to a row, and so on. */
  ghost predicate Walk(p: Problem, w: seq<int>)
    requires p.Shaped()
  {
    InRange(w, p.nc) && forall t :: 0 <= t < |w| ==> EdgeAt(p, w, t)
  }

  /** Edge t of the walk is finite. */
  ghost predicate EdgeAt(p: Problem, w: seq<int>, t: nat)
    requires p.Shaped() && InRange(w, p.nc) && t < |w|
  {
    0 <= WalkRow(p, w, t) < p.nr && p.c[WalkRow(p, w, t)][w[t]].Num?
  }

  /** Sum of the reduced costs along the first t edges. */
  ghost function WalkLen(p: Problem, w: seq<int>, t: nat): real
    requires p.Shaped() && Walk(p, w) && t <= |w|
  {
    if t == 0 then 0.0 else
      assert EdgeAt(p, w, t - 1);
      WalkLen(p, w, t - 1) + p.Reduced(WalkRow(p, w, t - 1), w[t - 1])
  }

  /** A walk that ends in column j. */
  ghost predicate WalkTo(p: Problem, w: seq<int>, j: int)
    requires p.Shaped()
  {
    Walk(p, w) && w != [] && w[|w| - 1] == j
  }

  /** `d` is the least length of an alternating walk from the root to column j. */
  ghost predicate IsDistance(p: Problem, j: int, d: real)
    requires p.Shaped()
  {
    && (exists w :: WalkTo(p, w, j) && WalkLen(p, w, |w|) == d)
    && (forall w :: WalkTo(p, w, j) ==> d <= WalkLen(p, w, |w|))
  }

  /** When the search ends, the label of every settled column is a lower bound on every alternating walk to it, and
      the final distance is one for every unsettled column. */
  lemma {:induction false} NoWalkIsShorter(p: Problem, s: Labels, sink: int, w: seq<int>, t: nat)
    requires Found(p, s, sink) && Walk(p, w) && 0 < t <= |w|
    ensures (if s.SC[w[t - 1]] then s.spc[w[t - 1]].v else s.minVal) <= WalkLen(p, w, t)
  {
    assert EdgeAt(p, w, t - 1);
    if t > 1 {
      assert EdgeAt(p, w, t - 2);
      NoWalkIsShorter(p, s, sink, w, t - 1);
    }
    hide Duals, Tight, Acyclic;
    NextEdge(p, s, sink, w, t);
  }

  /** What the labels at the two ends of edge t - 1 say of each other. */
  lemma NextEdge(p: Problem, s: Labels, sink: int, w: seq<int>, t: nat)
    requires Found(p, s, sink) && Walk(p, w) && 0 < t <= |w| && EdgeAt(p, w, t - 1)
    requires t > 1 ==> (if s.SC[w[t - 2]] then s.spc[w[t - 2]].v else s.minVal) <= WalkLen(p, w, t - 1)
    ensures (if s.SC[w[t - 1]] then s.spc[w[t - 1]].v else s.minVal) <= WalkLen(p, w, t)
  {
    var r, j := WalkRow(p, w, t - 1), w[t - 1];
    SettledAtMost(p, s, sink);
    assert WalkLen(p, w, t) == WalkLen(p, w, t - 1) + p.Reduced(r, j);
    assert t == 1 ==> WalkLen(p, w, 0) == 0.0;
    if t > 1 {
      assert r == p.row4col[w[t - 2]] && r < p.k && p.col4row[r] == w[t - 2];
    }
    hide WalkLen, Tight, Acyclic, Walk;
    FarEnough(p, s, sink, r, j);
  }

  /** Over an edge out of a scanned row a settled column is no farther; every column is at least as far as the last.
      */
  lemma FarEnough(p: Problem, s: Labels, sink: int, r: int, j: int)
    requires Found(p, s, sink) && 0 <= r <= p.k && 0 <= j < p.nc && p.c[r][j].Num?
    ensures r < p.k ==> p.Reduced(r, j) >= 0.0
    ensures s.SC[j] ==> s.spc[j].v <= s.minVal
    ensures s.SR[r] ==> s.spc[j].Fin? && s.spc[j].v <= RowDist(p, s, r) + p.Reduced(r, j)
    ensures s.SR[r] && !s.SC[j] ==> s.minVal <= s.spc[j].v
    ensures s.SR[p.k]
  {
    SettledAtMost(p, s, sink);
    if r < p.k { ReducedNonNegative(p, r); }
  }

  /** One more column leaves the length of every prefix as it was. */
  lemma {:induction false} PrefixLen(p: Problem, w: seq<int>, j: int, t: nat)
    requires p.Shaped() && Walk(p, w) && Walk(p, w + [j]) && t <= |w|
    ensures WalkLen(p, w + [j], t) == WalkLen(p, w, t)
  {
    if t > 0 {
      PrefixLen(p, w, j, t - 1);
      assert WalkRow(p, w + [j], t - 1) == WalkRow(p, w, t - 1);
    }
  }

  /** A walk that has reached row r goes on over any finite edge of r. */
  lemma AppendEdge(p: Problem, w: seq<int>, r: int, j: int)
    requires p.Shaped() && Walk(p, w) && WalkRow(p, w, |w|) == r
    requires 0 <= r < p.nr && 0 <= j < p.nc && p.c[r][j].Num?
    ensures WalkTo(p, w + [j], j) && WalkLen(p, w + [j], |w| + 1) == WalkLen(p, w, |w|) + p.Reduced(r, j)
  {
    GoesOn(p, w, r, j);
    PrefixLen(p, w, j, |w|);
  }

  lemma SameRows(p: Problem, w: seq<int>, j: int, t: nat)
    requires InRange(w, |p.row4col|) && InRange(w + [j], |p.row4col|) && t <= |w|
    ensures WalkRow(p, w + [j], t) == WalkRow(p, w, t)
  {}

  lemma GoesOn(p: Problem, w: seq<int>, r: int, j: int)
    requires p.Shaped() && Walk(p, w) && WalkRow(p, w, |w|) == r
    requires 0 <= r < p.nr && 0 <= j < p.nc && p.c[r][j].Num?
    ensures Walk(p, w + [j])
  {
    var w' := w + [j];
    forall t | 0 <= t < |w'| ensures EdgeAt(p, w', t) {
      SameRows(p, w, j, t);
      assert t < |w| ==> EdgeAt(p, w, t);
    }
  }

  /** A settled column's label is reached over the root's edge, or over that of the row of a column settled before it.
      */
  lemma Predecessor(p: Problem, s: Labels, t: nat) returns (r: int, before: int)
    requires Search(p, s) && t < |s.order|
    ensures p.Shaped() && 0 <= s.order[t] < p.nc == |s.spc| && 0 <= r < p.nr && p.c[r][s.order[t]].Num?
    ensures r == p.k ==> s.spc[s.order[t]] == Fin(p.Reduced(r, s.order[t]))
    ensures r != p.k ==> 0 <= before < t && 0 <= s.order[before] < p.nc && p.row4col[s.order[before]] == r
    ensures r != p.k ==> s.spc[s.order[before]].Fin?
    ensures r != p.k ==> s.spc[s.order[t]] == Fin(s.spc[s.order[before]].v + p.Reduced(r, s.order[t]))
  {
    hide Relaxed, Monotone, Duals;
    var j := s.order[t];
    r, before := s.path[j], 0;
    if r != p.k {
      before :| 0 <= before < t && s.order[before] == p.col4row[r];
      assert p.row4col[p.col4row[r]] == r;
    }
    assert s.spc[j].v == RowDist(p, s, r) + p.Reduced(r, j);
  }

  /** The label of a settled column is the length of the walk along its predecessors. */
  lemma {:induction false} LabelIsAttained(p: Problem, s: Labels, t: nat) returns (w: seq<int>)
    requires Search(p, s) && t < |s.order|
    ensures p.Shaped() && 0 <= s.order[t] < p.nc == |s.spc|
    ensures WalkTo(p, w, s.order[t]) && s.spc[s.order[t]] == Fin(WalkLen(p, w, |w|))
    decreases t
  {
    hide Search;
    var r, before := Predecessor(p, s, t);
    w := [];
    if r != p.k {
      w := LabelIsAttained(p, s, before);
    }
    AppendEdge(p, w, r, s.order[t]);
    w := w + [s.order[t]];
  }

  /** When the search ends, the labels of the settled columns are their true distances from the root, they settled in
      ascending order of distance, and no other column is nearer. */
  lemma SettledIsShortest(p: Problem, s: Labels, sink: int)
    requires Found(p, s, sink)
    ensures p.Shaped() && |s.spc| == p.nc
    ensures forall t :: 0 <= t < |s.order| ==> 0 <= s.order[t] < p.nc && s.spc[s.order[t]].Fin?
    ensures forall t :: 0 <= t < |s.order| ==> IsDistance(p, s.order[t], s.spc[s.order[t]].v)
    ensures forall a, b :: 0 <= a <= b < |s.order| ==> s.spc[s.order[a]].v <= s.spc[s.order[b]].v
    ensures forall j, w :: 0 <= j < p.nc && j !in s.order && WalkTo(p, w, j) ==> s.minVal <= WalkLen(p, w, |w|)
    ensures IsDistance(p, sink, s.minVal)
  {
    hide Found, Walk, WalkLen, IsDistance;
    Settled(p, s, sink);
    forall t | 0 <= t < |s.order| ensures IsDistance(p, s.order[t], s.spc[s.order[t]].v) {
      LabelIsDistance(p, s, sink, t);
    }
    forall j, w | 0 <= j < p.nc && j !in s.order && WalkTo(p, w, j) ensures s.minVal <= WalkLen(p, w, |w|) {
      WalkBound(p, s, sink, j, w);
    }
  }

  lemma Settled(p: Problem, s: Labels, sink: int)
    requires Found(p, s, sink)
    ensures p.Shaped() && |s.spc| == p.nc && |s.order| > 0 && s.order[|s.order| - 1] == sink
        && s.spc[sink] == Fin(s.minVal)
    ensures forall t :: 0 <= t < |s.order| ==> 0 <= s.order[t] < p.nc && s.spc[s.order[t]].Fin?
    ensures forall a, b :: 0 <= a <= b < |s.order| ==> s.spc[s.order[a]].v <= s.spc[s.order[b]].v
  {}

  /** Shapes, and the walks' bound without the search invariant. */
  lemma WalkBound(p: Problem, s: Labels, sink: int, j: int, w: seq<int>)
    requires Found(p, s, sink) && WalkTo(p, w, j)
    ensures 0 <= j < p.nc && |s.spc| == p.nc
    ensures (if j in s.order then s.spc[j].v else s.minVal) <= WalkLen(p, w, |w|)
  {
    hide Relaxed, Tight, Monotone, Acyclic, Duals, Matching, ScannedUpTo, WalkLen, Rect;
    assert w[|w| - 1] == j;
    NoWalkIsShorter(p, s, sink, w, |w|);
  }

  lemma LabelIsDistance(p: Problem, s: Labels, sink: int, t: nat)
    requires Found(p, s, sink) && t < |s.order|
    ensures p.Shaped() && 0 <= s.order[t] < p.nc == |s.spc| && IsDistance(p, s.order[t], s.spc[s.order[t]].v)
  {
    hide Found, Walk, WalkLen, IsDistance;
    Settled(p, s, sink);
    var j := s.order[t];
    var least := FoundIsAttained(p, s, sink, t);
    forall w | WalkTo(p, w, j) ensures s.spc[j].v <= WalkLen(p, w, |w|) {
      WalkBound(p, s, sink, j, w);
    }
    DistanceIs(p, j, s.spc[j].v, least);
  }

  lemma FoundIsAttained(p: Problem, s: Labels, sink: int, t: nat) returns (w: seq<int>)
    requires Found(p, s, sink) && t < |s.order|
    ensures p.Shaped() && 0 <= s.order[t] < p.nc == |s.spc|
    ensures WalkTo(p, w, s.order[t]) && s.spc[s.order[t]] == Fin(WalkLen(p, w, |w|))
  {
    hide Relaxed, Tight, Monotone, Acyclic, Duals, Matching, ScannedUpTo, WalkLen;
    w := LabelIsAttained(p, s, t);
  }

  lemma DistanceIs(p: Problem, j: int, d: real, least: seq<int>)
    requires p.Shaped() && WalkTo(p, least, j) && WalkLen(p, least, |least|) == d
    requires forall w :: WalkTo(p, w, j) ==> d <= WalkLen(p, w, |w|)
    ensures IsDistance(p, j, d)
  {
    hide Walk, WalkLen;
  }

  // --------------------------------------------------------------- dual update

  ghost function NewU(p: Problem, s: Labels): (u': seq<real>)
    requires p.Shaped() && Flags(p, s)
    ensures |u'| == p.nr
  {
    seq(p.nr, r requires 0 <= r < p.nr => if s.SR[r] then p.u[r] + s.minVal - RowDist(p, s, r) else p.u[r])
  }

  ghost function NewV(p: Problem, s: Labels): (v': seq<real>)
    requires p.Shaped() && Flags(p, s)
    ensures |v'| == p.nc
  {
    seq(p.nc, j requires 0 <= j < p.nc => if s.SC[j] then p.v[j] - (s.minVal - s.spc[j].v) else p.v[j])
  }

  /** Row r and column j are joined by a finite entry that meets its dual constraint exactly. */
  ghost predicate TightPair(c: Grid, nr: nat, nc: nat, u: seq<real>, v: seq<real>, r: int, j: int)
    requires Rect(c, nr, nc) && |u| == nr && |v| == nc
  {
    0 <= r < nr && 0 <= j < nc && c[r][j].Num? && c[r][j].v == u[r] + v[j]
  }

  /** A matched pair is finite and tight. */
  lemma MatchedPair(p: Problem, r: int)
    requires p.Valid() && 0 <= r < p.k
    ensures 0 <= p.col4row[r] < p.nc && p.row4col[p.col4row[r]] == r
    ensures p.c[r][p.col4row[r]].Num? && p.c[r][p.col4row[r]].v == p.u[r] + p.v[p.col4row[r]]
  {
    var dual := p.u[r];
    assert p.row4col[p.col4row[r]] == r;
  }

  /** It stays tight, since row and column move together. */
  lemma MatchedStaysTight(p: Problem, s: Labels, sink: int, r: int)
    requires Found(p, s, sink) && 0 <= r < p.k
    ensures TightPair(p.c, p.nr, p.nc, NewU(p, s), NewV(p, s), r, p.col4row[r])
  {
    SettledAtMost(p, s, sink);
    MatchedPair(p, r);
    hide Duals, Relaxed, Tight, Monotone, Acyclic, Matching;
    var j := p.col4row[r];
    assert s.SR[r] <==> s.SC[j];
    assert s.SR[r] ==> RowDist(p, s, r) == s.spc[j].v;
  }

  /** The updated duals are feasible for one more row, and tight both on the old matching and on every edge the
      augmenting path may use. */
  lemma DualStep(p: Problem, s: Labels, sink: int)
    requires Found(p, s, sink)
    ensures forall r, j :: 0 <= r <= p.k && 0 <= j < p.nc && p.c[r][j].Num? ==>
              NewU(p, s)[r] + NewV(p, s)[j] <= p.c[r][j].v
    ensures forall j :: 0 <= j < p.nc ==> NewV(p, s)[j] <= 0.0
    ensures forall j :: 0 <= j < p.nc && p.row4col[j] == -1 ==> NewV(p, s)[j] == 0.0
    ensures forall r :: p.k < r < p.nr ==> NewU(p, s)[r] == 0.0
    ensures forall r :: 0 <= r < p.k ==> TightPair(p.c, p.nr, p.nc, NewU(p, s), NewV(p, s), r, p.col4row[r])
    ensures forall j :: 0 <= j < p.nc && s.SC[j] ==>
              TightPair(p.c, p.nr, p.nc, NewU(p, s), NewV(p, s), s.path[j], j)
  {
    SettledAtMost(p, s, sink);
    forall r | 0 <= r < p.k ensures TightPair(p.c, p.nr, p.nc, NewU(p, s), NewV(p, s), r, p.col4row[r]) {
      MatchedStaysTight(p, s, sink, r);
    }
    forall r, j | 0 <= r <= p.k && 0 <= j < p.nc && p.c[r][j].Num?
      ensures NewU(p, s)[r] + NewV(p, s)[j] <= p.c[r][j].v
    {
      assert s.SC[j] ==> s.spc[j].v <= s.minVal;
      assert s.SR[r] ==> s.spc[j].v <= RowDist(p, s, r) + p.Reduced(r, j);
    }
  }

  // --------------------------------------------------------------- augmentation

  /** Rows below k are matched, row k is not, and column j is held by no row. */
  ghost predicate HalfMatching(k: nat, nr: nat, nc: nat, row4col: seq<int>, col4row: seq<int>, j: int) {
    && k < nr && |row4col| == nc && |col4row| == nr && 0 <= j < nc
    && (forall r :: 0 <= r < k ==> 0 <= col4row[r] < nc && col4row[r] != j)
    && (forall r {:trigger row4col[col4row[r]]} :: 0 <= r < k ==> row4col[col4row[r]] == r)
    && (forall r :: k <= r < nr ==> col4row[r] == -1)
    && (forall x {:trigger row4col[x]} :: 0 <= x < nc && x != j && row4col[x] != -1 ==>
          0 <= row4col[x] < k && col4row[row4col[x]] == x)
  }

  lemma AugmentStep(k: nat, nr: nat, nc: nat, row4col: seq<int>, col4row: seq<int>, j: int, i: int)
    requires HalfMatching(k, nr, nc, row4col, col4row, j) && 0 <= i <= k
    ensures i < k ==> HalfMatching(k, nr, nc, row4col[j := i], col4row[i := j], col4row[i])
    ensures i == k ==> Matching(k + 1, nr, nc, row4col[j := i], col4row[i := j])
  {
    if i < k {
      assert row4col[col4row[i]] == i;
      forall r | 0 <= r < k && r != i ensures col4row[r] != col4row[i] {
        assert row4col[col4row[r]] == r;
      }
    }
  }

  /** The augmentation in progress: column order[t] was just taken from its row (or is the sink). */
  ghost predicate Augmenting(p: Problem, s: Labels, row4col: seq<int>, col4row: seq<int>, t: int)
    requires p.Shaped() && Flags(p, s)
  {
    && 0 <= t < |s.order|
    && HalfMatching(p.k, p.nr, p.nc, row4col, col4row, s.order[t])
    && (forall a {:trigger s.order[a]} :: 0 <= a < t ==> row4col[s.order[a]] == p.row4col[s.order[a]] != -1)
    && (forall r :: 0 <= r < p.k ==> TightPair(p.c, p.nr, p.nc, NewU(p, s), NewV(p, s), r, col4row[r]))
    && (forall x :: 0 <= x < p.nc && row4col[x] == -1 ==> p.row4col[x] == -1)
  }

  lemma AugmentStart(p: Problem, s: Labels, sink: int)
    requires Found(p, s, sink)
    ensures Augmenting(p, s, p.row4col, p.col4row, |s.order| - 1)
  {
    DualStep(p, s, sink);
    forall r | 0 <= r < p.k ensures p.row4col[p.col4row[r]] == r {}
  }

  /** Where the walk goes from position t: to an earlier position, or to the root. */
  lemma NextOnPath(p: Problem, s: Labels, sink: int, t: int) returns (t': int)
    requires Found(p, s, sink) && 0 <= t < |s.order|
    ensures 0 <= s.path[s.order[t]] <= p.k
    ensures TightPair(p.c, p.nr, p.nc, NewU(p, s), NewV(p, s), s.path[s.order[t]], s.order[t])
    ensures s.path[s.order[t]] != p.k ==>
              0 <= t' < t && p.row4col[s.order[t']] == s.path[s.order[t]]
                  && p.col4row[s.path[s.order[t]]] == s.order[t']
  {
    DualStep(p, s, sink);
    var j := s.order[t];
    var i := s.path[j];
    assert j in s.order;
    assert s.SR[i];
    t' := t;
    if i != p.k {
      assert i < p.k;
      t' :| 0 <= t' < t && s.order[t'] == p.col4row[i];
      assert p.row4col[p.col4row[i]] == i;
    }
  }

  /** One flip keeps the augmentation going, or completes it at the root. */
  lemma AugmentMove(p: Problem, s: Labels, row4col: seq<int>, col4row: seq<int>, t: int, i: int, t': int)
    requires p.Shaped() && Flags(p, s) && Augmenting(p, s, row4col, col4row, t) && 0 <= i <= p.k
    requires TightPair(p.c, p.nr, p.nc, NewU(p, s), NewV(p, s), i, s.order[t])
    requires i != p.k ==> 0 <= t' < t && p.row4col[s.order[t']] == i
    ensures i != p.k ==> col4row[i] == s.order[t']
                         && Augmenting(p, s, row4col[s.order[t] := i], col4row[i := s.order[t]], t')
    ensures i == p.k ==> Augmented(p, s, row4col[s.order[t] := i], col4row[i := s.order[t]])
  {
    var j := s.order[t];
    AugmentStep(p.k, p.nr, p.nc, row4col, col4row, j, i);
    if i != p.k {
      assert row4col[s.order[t']] == i;
    }
  }

  /** One more row is matched, tightly, and no column was freed. */
  ghost predicate Augmented(p: Problem, s: Labels, row4col: seq<int>, col4row: seq<int>)
    requires p.Shaped() && Flags(p, s)
  {
    && Matching(p.k + 1, p.nr, p.nc, row4col, col4row)
    && (forall r :: 0 <= r <= p.k ==> TightPair(p.c, p.nr, p.nc, NewU(p, s), NewV(p, s), r, col4row[r]))
    && (forall x :: 0 <= x < p.nc && row4col[x] == -1 ==> p.row4col[x] == -1)
  }

  /** Flips the path that ends in `sink`; the walk terminates because each predecessor row belongs to a column settled
      earlier. */
  method Augment(ghost p: Problem, ghost s: Labels, k: nat, sink: int, path: array<int>, row4col: array<int>,
      col4row: array<int>)
    requires Found(p, s, sink) && k == p.k
    requires path[..] == s.path && row4col[..] == p.row4col && col4row[..] == p.col4row
    requires path != row4col && path != col4row && row4col != col4row
    modifies row4col, col4row
    ensures Augmented(p, s, row4col[..], col4row[..])
  {
    AugmentStart(p, s, sink);
    ghost var t := |s.order| - 1;
    var j := sink;
    while true
      invariant path[..] == s.path
      invariant Augmenting(p, s, row4col[..], col4row[..], t) && j == s.order[t]
      decreases t
    {
      var i := path[j];
      ghost var t' := NextOnPath(p, s, sink, t);
      ghost var r4c, c4r := row4col[..], col4row[..];
      AugmentMove(p, s, r4c, c4r, t, i, t');
      row4col[j] := i;
      var next := col4row[i];
      col4row[i] := j;
      assert row4col[..] == r4c[j := i] && col4row[..] == c4r[i := j];
      if i == k {
        break;
      }
      j, t := next, t';
    }
  }

  /** After augmentation the new duals and the new matching satisfy complementary slackness again. */
  lemma PhaseStep(p: Problem, s: Labels, sink: int, row4col: seq<int>, col4row: seq<int>)
    requires Found(p, s, sink) && Augmented(p, s, row4col, col4row)
    ensures Duals(p.c, p.k + 1, p.nr, p.nc, NewU(p, s), NewV(p, s), row4col, col4row)
  {
    DualStep(p, s, sink);
    forall r | 0 <= r <= p.k
      ensures p.c[r][col4row[r]].Num? && p.c[r][col4row[r]].v == NewU(p, s)[r] + NewV(p, s)[col4row[r]]
    {
      assert TightPair(p.c, p.nr, p.nc, NewU(p, s), NewV(p, s), r, col4row[r]);
    }
  }

  method UpdateDuals(ghost p: Problem, ghost s: Labels, k: nat, minVal: real, u: array<real>, v: array<real>,
      spc: array<Ext>, col4row: array<int>, SR: array<bool>, SC: array<bool>)
    requires p.Shaped() && Flags(p, s) && k == p.k && s.SR[k] && minVal == s.minVal && u != v && SR != SC
    requires u[..] == p.u && v[..] == p.v && spc[..] == s.spc && SR[..] == s.SR && SC[..] == s.SC
        && col4row[..] == p.col4row
    modifies u, v
    ensures u[..] == NewU(p, s) && v[..] == NewV(p, s)
  {
    ghost var u1, v1 := NewU(p, s), NewV(p, s);
    u[k] := u[k] + minVal;
    var i := 0;
    while i < u.Length
      invariant 0 <= i <= u.Length
      invariant v[..] == p.v
      invariant forall r :: 0 <= r < u.Length ==> u[r] == if r < i || r == k then u1[r] else p.u[r]
    {
      if SR[i] && i != k {
        u[i] := u[i] + minVal - spc[col4row[i]].v;
      }
      i := i + 1;
    }
    var j := 0;
    while j < v.Length
      invariant 0 <= j <= v.Length
      invariant forall r :: 0 <= r < u.Length ==> u[r] == u1[r]
      invariant forall x :: 0 <= x < v.Length ==> v[x] == if x < j then v1[x] else p.v[x]
    {
      if SC[j] {
        v[j] := v[j] - (minVal - spc[j].v);
      }
      j := j + 1;
    }
  }

  // ------------------------------------------------------------ the cost matrix

  function Cell(cost: seq<Cost>, nr: nat, nc: nat, i: nat, j: nat): Cost
    requires |cost| == nr * nc && i < nr && j < nc
  {
    SlotInRange(nr, nc, i, j);
    cost[i * nc + j]
  }

  /** The row-major buffer read as a matrix. */
  ghost function Rows(cost: seq<Cost>, nr: nat, nc: nat): (c: Grid)
    requires |cost| == nr * nc
    ensures Rect(c, nr, nc)
    ensures forall i, j :: 0 <= i < nr && 0 <= j < nc ==> c[i][j] == Cell(cost, nr, nc, i, j)
  {
    seq(nr, i requires 0 <= i < nr => seq(nc, j requires 0 <= j < nc => Cell(cost, nr, nc, i, j)))
  }

  // ----------------------------------------------------------- the path search

  function Less(a: Ext, b: Ext): bool {
    a.Fin? && (b.Inf? || a.v < b.v)
  }

  /** The first `num` slots of `remaining` list the unsettled columns, each once. */
  ghost predicate Lists(remaining: seq<int>, num: nat, SC: seq<bool>) {
    && num <= |remaining|
    && (forall t :: 0 <= t < num ==> 0 <= remaining[t] < |SC| && !SC[remaining[t]])
    && (forall a, b :: 0 <= a < b < num ==> remaining[a] != remaining[b])
    && (forall j {:trigger j in remaining[..num]} :: 0 <= j < |SC| && !SC[j] ==> j in remaining[..num])
  }

  /** Relaxes every unsettled column from row `i`, and selects a nearest one, preferring a free column among equals.
      */
  method ScanRow(nr: nat, nc: nat, i: nat, cost: seq<Cost>, ghost row: seq<Cost>, minVal: real, ui: real,
      v: array<real>, path: array<int>, row4col: array<int>, spc: array<Ext>, ghost SC: seq<bool>,
      remaining: array<int>, num: nat)
    returns (index: int, lowest: Ext)
    requires |cost| == nr * nc && i < nr
    requires |row| == nc && forall j :: 0 <= j < nc ==> row[j] == Cell(cost, nr, nc, i, j)
    requires v.Length == path.Length == row4col.Length == spc.Length == |SC| == nc
    requires path != row4col && path != remaining && Lists(remaining[..], num, SC)
    modifies path, spc
    ensures forall j :: 0 <= j < nc ==>
              && spc[j] == (if SC[j] then old(spc[j]) else Relax(row[j], minVal, ui, v[j], old(spc[j])))
              && path[j] == (if spc[j] == old(spc[j]) then old(path[j]) else i)
    ensures lowest.Inf? ==> forall j :: 0 <= j < nc && !SC[j] ==> spc[j].Inf?
    ensures lowest.Fin? ==> 0 <= index < num && spc[remaining[index]] == lowest
    ensures lowest.Fin? ==> forall j :: 0 <= j < nc && !SC[j] && spc[j].Fin? ==> lowest.v <= spc[j].v
    ensures lowest.Fin? && row4col[remaining[index]] != -1 ==>
              forall j :: 0 <= j < nc && !SC[j] && row4col[j] == -1 ==> spc[j] != lowest
  {
    hide Cell;
    index, lowest := -1, Inf;
    var it := 0;
    ghost var todo := set j | 0 <= j < nc && !SC[j];
    while it < num
      invariant 0 <= it <= num
      invariant forall t :: 0 <= t < num ==> (remaining[t] in todo <==> it <= t)
      invariant forall j :: 0 <= j < nc ==>
                  && spc[j] == (if SC[j] || j in todo then old(spc[j])
                                else Relax(row[j], minVal, ui, v[j], old(spc[j])))
                  && path[j] == (if spc[j] == old(spc[j]) then old(path[j]) else i)
      invariant lowest.Inf? ==> forall j :: 0 <= j < nc && !SC[j] && j !in todo ==> spc[j].Inf?
      invariant lowest.Fin? ==> 0 <= index < it && spc[remaining[index]] == lowest
      invariant lowest.Fin? ==> forall j :: 0 <= j < nc && !SC[j] && j !in todo && spc[j].Fin? ==> lowest.v <= spc[j].v
      invariant lowest.Fin? && row4col[remaining[index]] != -1 ==>
                  forall j :: 0 <= j < nc && !SC[j] && j !in todo && row4col[j] == -1 ==> spc[j] != lowest
    {
      var j := remaining[it];
      var e := Cell(cost, nr, nc, i, j);
      var r := if e.Num? then Fin(minVal + e.v - ui - v[j]) else Inf;
      if Less(r, spc[j]) {
        path[j] := i;
        spc[j] := r;
      }
      todo := todo - {j};
      if Less(spc[j], lowest) || (spc[j] == lowest && row4col[j] == -1) {
        lowest := spc[j];
        index := it;
      }
      it := it + 1;
    }
    forall j | 0 <= j < nc && !SC[j] ensures j !in todo {
      assert j in remaining[..num];
    }
  }

  /** Swap-removing a slot of `remaining` removes exactly that column from the list. */
  lemma ListsRemove(remaining: seq<int>, num: nat, SC: seq<bool>, index: int)
    requires Lists(remaining, num, SC) && 0 <= index < num
    ensures Lists(remaining[index := remaining[num - 1]], num - 1, SC[remaining[index] := true])
  {
    var rest := remaining[index := remaining[num - 1]];
    var SC' := SC[remaining[index] := true];
    forall j | 0 <= j < |SC'| && !SC'[j] ensures j in rest[..num - 1] {
      assert j in remaining[..num];
      var t :| 0 <= t < num && remaining[t] == j;
      assert rest[..num - 1][if t == num - 1 then index else t] == j;
    }
  }

  lemma SearchStart(p: Problem, s: Labels)
    requires p.Valid()
    requires |s.spc| == |s.path| == |s.SC| == p.nc && |s.SR| == p.nr && s.order == [] && s.minVal == 0.0
    requires forall j :: 0 <= j < p.nc ==> s.spc[j].Inf? && !s.SC[j]
    requires forall r :: 0 <= r < p.nr ==> !s.SR[r]
    ensures Search(p, s) && Frontier(p, s, p.k)
  {}

  method ResetSearch(nr: nat, nc: nat, spc: array<Ext>, SR: array<bool>, SC: array<bool>, remaining: array<int>)
    requires spc.Length == SC.Length == remaining.Length == nc && SR.Length == nr && SR != SC
    modifies spc, SR, SC, remaining
    ensures forall j :: 0 <= j < nc ==> spc[j] == Inf && !SC[j]
    ensures forall r :: 0 <= r < nr ==> !SR[r]
    ensures Lists(remaining[..], nc, SC[..])
  {
    // Descending: an equal-cost matrix is then solved by the identity.
    forall t | 0 <= t < nc { remaining[t] := nc - t - 1; }
    forall t | 0 <= t < nr { SR[t] := false; }
    forall t | 0 <= t < nc { SC[t] := false; }
    forall t | 0 <= t < nc { spc[t] := Inf; }
    forall j | 0 <= j < nc ensures j in remaining[..nc] { assert remaining[..nc][nc - j - 1] == j; }
  }

  /** One round of the search: after row `i` was scanned, either nothing is reachable, or the nearest unsettled column
      joins the tree. */
  lemma GrowTree(p: Problem, s: Labels, i: int, s1: Labels, remaining: seq<int>, num: nat, index: int, lowest: Ext)
    requires Search(p, s) && Frontier(p, s, i) && Scanned(p, s, i, s1) && Lists(remaining, num, s.SC)
    requires lowest.Inf? ==> forall j :: 0 <= j < p.nc && !s.SC[j] ==> s1.spc[j].Inf?
    requires lowest.Fin? ==> 0 <= index < num && s1.spc[remaining[index]] == lowest
    requires lowest.Fin? ==> forall j :: 0 <= j < p.nc && !s.SC[j] && s1.spc[j].Fin? ==> lowest.v <= s1.spc[j].v
    ensures lowest.Inf? ==> Blocked(p.c, p.k, p.nr, p.nc, p.row4col, s1.SR, s1.SC)
    ensures lowest.Fin? ==>
              var j := remaining[index];
              && Search(p, Settle(s1, j)) && Lists(remaining[index := remaining[num - 1]], num - 1, Settle(s1, j).SC)
              && (p.row4col[j] == -1 ==> Found(p, Settle(s1, j), j))
              && (p.row4col[j] != -1 ==> p.row4col[j] >= 0 && Frontier(p, Settle(s1, j), p.row4col[j]))
  {
    ScanStep(p, s, i, s1);
    if lowest.Inf? {
      StuckIsBlocked(p, s1);
    } else {
      SettleStep(p, s1, remaining[index]);
      ListsRemove(remaining, num, s.SC, index);
    }
  }

  /** The arrays hold exactly these labels. */
  ghost predicate Holds(s: Labels, spc: array<Ext>, path: array<int>, SR: array<bool>, SC: array<bool>)
    reads spc, path, SR, SC
  {
    spc[..] == s.spc && path[..] == s.path && SR[..] == s.SR && SC[..] == s.SC
  }

  /** Where a round of the search leads: the tree grew by column `j`, which is free, or whose row is the next to scan.
      */
  ghost predicate Grown(p: Problem, s: Labels, j: int) {
    && Search(p, s) && 0 <= j < p.nc
    && (p.row4col[j] == -1 ==> Found(p, s, j))
    && (p.row4col[j] != -1 ==> p.row4col[j] >= 0 && Frontier(p, s, p.row4col[j]))
  }

  method ScanFrontier(ghost p: Problem, ghost s: Labels, nr: nat, nc: nat, cost: seq<Cost>, u: array<real>,
      v: array<real>, path: array<int>, row4col: array<int>, spc: array<Ext>, i: nat, SR: array<bool>,
      SC: array<bool>, remaining: array<int>, num: nat, minVal: real)
    returns (index: int, lowest: Ext, ghost s1: Labels)
    requires p.Shaped() && Flags(p, s) && i < nr && p.nr == nr && p.nc == nc && minVal == s.minVal
    requires |cost| == nr * nc && p.c == Rows(cost, nr, nc)
    requires u[..] == p.u && v[..] == p.v && row4col[..] == p.row4col
    requires Holds(s, spc, path, SR, SC) && Lists(remaining[..], num, s.SC)
    requires path != row4col && path != remaining && SR != SC
    modifies path, spc, SR
    ensures Scanned(p, s, i, s1) && Holds(s1, spc, path, SR, SC)
    ensures lowest.Inf? ==> forall j :: 0 <= j < nc && !s.SC[j] ==> s1.spc[j].Inf?
    ensures lowest.Fin? ==> 0 <= index < num && s1.spc[remaining[index]] == lowest
    ensures lowest.Fin? ==> forall j :: 0 <= j < nc && !s.SC[j] && s1.spc[j].Fin? ==> lowest.v <= s1.spc[j].v
  {
    SR[i] := true;
    index, lowest := ScanRow(nr, nc, i, cost, p.c[i], minVal, u[i], v, path, row4col, spc, s.SC, remaining, num);
    s1 := s.(spc := spc[..], path := path[..], SR := s.SR[i := true]);
    assert SR[..] == s1.SR;
  }

  method SettleColumn(SC: array<bool>, remaining: array<int>, num: nat, index: int)
    requires 0 <= index < num <= remaining.Length && 0 <= remaining[index] < SC.Length
    modifies SC, remaining
    ensures SC[..] == old(SC[..][remaining[index] := true])
    ensures remaining[..] == old(remaining[..][index := remaining[num - 1]])
  {
    SC[remaining[index]] := true;
    remaining[index] := remaining[num - 1];
  }

  method SearchRound(ghost p: Problem, ghost s: Labels, nr: nat, nc: nat, cost: seq<Cost>, u: array<real>,
      v: array<real>, path: array<int>, row4col: array<int>, spc: array<Ext>, i: nat, SR: array<bool>,
      SC: array<bool>, remaining: array<int>, num: nat, minVal: real)
    returns (lowest: Ext, j: int, ghost s': Labels)
    requires Search(p, s) && Frontier(p, s, i) && p.nr == nr && p.nc == nc && minVal == s.minVal
    requires |cost| == nr * nc && p.c == Rows(cost, nr, nc)
    requires u[..] == p.u && v[..] == p.v && row4col[..] == p.row4col
    requires Holds(s, spc, path, SR, SC) && Lists(remaining[..], num, s.SC)
    requires path != row4col && path != remaining && row4col != remaining && SR != SC
    modifies path, spc, SR, SC, remaining
    ensures lowest.Inf? ==> Blocked(p.c, p.k, nr, nc, p.row4col, SR[..], SC[..])
    ensures lowest.Fin? ==> Grown(p, s', j) && s'.minVal == lowest.v
    ensures lowest.Fin? ==> Holds(s', spc, path, SR, SC) && num > 0 && Lists(remaining[..], num - 1, s'.SC)
  {
    hide Relaxed, Tight, Monotone, Acyclic, Duals;
    var index;
    ghost var s1;
    index, lowest, s1 := ScanFrontier(p, s, nr, nc, cost, u, v, path, row4col, spc, i, SR, SC, remaining, num, minVal);
    GrowTree(p, s, i, s1, remaining[..], num, index, lowest);
    j, s' := -1, s1;
    if lowest.Fin? {
      j := remaining[index];
      s' := Settle(s1, j);
      SettleColumn(SC, remaining, num, index);
    }
  }

  /** Grows a shortest-path tree from row `k` until it reaches a free column, or fails with a certificate that no
      finite complete assignment exists. */
  method AugmentingPath(ghost p: Problem, nr: nat, nc: nat, cost: seq<Cost>, u: array<real>, v: array<real>,
      path: array<int>, row4col: array<int>, spc: array<Ext>, k: nat, SR: array<bool>, SC: array<bool>,
      remaining: array<int>)
    returns (sink: int, minVal: real, ghost s: Labels)
    requires p.Valid() && p.nr == nr && p.nc == nc && p.k == k && |cost| == nr * nc && p.c == Rows(cost, nr, nc)
    requires u[..] == p.u && v[..] == p.v && row4col[..] == p.row4col
    requires path.Length == spc.Length == SC.Length == remaining.Length == nc && SR.Length == nr
    requires path != row4col && path != remaining && row4col != remaining && SR != SC
    modifies path, spc, SR, SC, remaining
    ensures sink == -1 ==> Blocked(p.c, k, nr, nc, p.row4col, SR[..], SC[..])
    ensures sink != -1 ==> Found(p, s, sink) && minVal == s.minVal && Holds(s, spc, path, SR, SC)
  {
    hide Relaxed, Tight, Monotone, Acyclic, Duals;
    minVal := 0.0;
    var num: nat := nc;
    ResetSearch(nr, nc, spc, SR, SC, remaining);
    s := Labels(spc[..], path[..], SR[..], SC[..], [], 0.0);
    SearchStart(p, s);
    sink := -1;
    var i: nat := k;
    while sink == -1
      invariant Holds(s, spc, path, SR, SC) && minVal == s.minVal
      invariant row4col[..] == p.row4col && Lists(remaining[..], num, s.SC)
      invariant sink == -1 ==> Search(p, s) && Frontier(p, s, i)
      invariant sink != -1 ==> Found(p, s, sink)
      decreases num
    {
      var lowest, j;
      lowest, j, s := SearchRound(p, s, nr, nc, cost, u, v, path, row4col, spc, i, SR, SC, remaining, num, minVal);
      if lowest.Inf? {
        return;
      }
      minVal := lowest.v;
      if row4col[j] == -1 {
        sink := j;
      } else {
        i := row4col[j];
      }
      num := num - 1;
    }
  }

  // ------------------------------------------------------------------ solving

  /** One phase: matches row `k`, or certifies that it cannot be matched. */
  method MatchRow(ghost c: Grid, nr: nat, nc: nat, cost: seq<Cost>, k: nat, u: array<real>, v: array<real>,
      path: array<int>, row4col: array<int>, col4row: array<int>, spc: array<Ext>, SR: array<bool>, SC: array<bool>,
      remaining: array<int>)
    returns (ok: bool)
    requires |cost| == nr * nc && c == Rows(cost, nr, nc)
    requires Problem(c, k, nr, nc, u[..], v[..], row4col[..], col4row[..]).Valid()
    requires path.Length == spc.Length == SC.Length == remaining.Length == nc && SR.Length == nr
    requires u != v && SR != SC && path != row4col && path != remaining && path != col4row
    requires row4col != remaining && row4col != col4row && remaining != col4row
    modifies u, v, path, row4col, col4row, spc, SR, SC, remaining
    ensures ok ==> Matching(k + 1, nr, nc, row4col[..], col4row[..])
                   && Duals(c, k + 1, nr, nc, u[..], v[..], row4col[..], col4row[..])
    ensures !ok ==> forall q :: Saturating(nr, nc, q) ==> !FiniteOn(c, nr, nc, q)
  {
    hide Relaxed, Tight, Monotone, Acyclic, ScannedUpTo, Duals;
    ghost var p := Problem(c, k, nr, nc, u[..], v[..], row4col[..], col4row[..]);
    var sink, minVal; ghost var s;
    sink, minVal, s := AugmentingPath(p, nr, nc, cost, u, v, path, row4col, spc, k, SR, SC, remaining);
    ok := sink != -1;
    if ok {
      UpdateDuals(p, s, k, minVal, u, v, spc, col4row, SR, SC);
      Augment(p, s, k, sink, path, row4col, col4row);
      PhaseStep(p, s, sink, row4col[..], col4row[..]);
    } else {
      forall q | Saturating(nr, nc, q) ensures !FiniteOn(c, nr, nc, q) {
        BlockedIsInfeasible(c, k, nr, nc, p.row4col, SR[..], SC[..], q);
      }
    }
  }

  lemma NothingMatched(c: Grid, nr: nat, nc: nat, u: seq<real>, v: seq<real>, row4col: seq<int>, col4row: seq<int>)
    requires nr <= nc && Rect(c, nr, nc) && |u| == |col4row| == nr && |v| == |row4col| == nc
    requires (forall i :: 0 <= i < nr ==> u[i] == 0.0 && col4row[i] == -1)
    requires (forall j :: 0 <= j < nc ==> v[j] == 0.0 && row4col[j] == -1)
    ensures Matching(0, nr, nc, row4col, col4row) && Duals(c, 0, nr, nc, u, v, row4col, col4row)
  {}

  /** Matches the rows one by one; nr <= nc.  Fails only if no finite complete assignment exists. */
  method AssignRows(nr: nat, nc: nat, cost: seq<Cost>)
    returns (ok: bool, col4row: array<int>, ghost row4col': seq<int>, ghost u': seq<real>, ghost v': seq<real>)
    requires nr <= nc && |cost| == nr * nc
    requires forall i, j :: 0 <= i < nr && 0 <= j < nc ==>
               var e := Rows(cost, nr, nc)[i][j]; e.Num? || e.PosInf?
    ensures fresh(col4row)
    ensures ok ==> Matching(nr, nr, nc, row4col', col4row[..])
                   && Duals(Rows(cost, nr, nc), nr, nr, nc, u', v', row4col', col4row[..])
    ensures !ok ==> forall q :: Saturating(nr, nc, q) ==> !FiniteOn(Rows(cost, nr, nc), nr, nc, q)
  {
    ghost var c := Rows(cost, nr, nc);
    var u, v := new real[nr](_ => 0.0), new real[nc](_ => 0.0);
    var spc := new Ext[nc](_ => Inf);
    var path, row4col := new int[nc](_ => -1), new int[nc](_ => -1);
    col4row := new int[nr](_ => -1);
    var SR, SC := new bool[nr](_ => false), new bool[nc](_ => false);
    var remaining := new int[nc](_ => 0);
    ok := true;
    var k := 0;
    hide Matching, Duals, FiniteOn, Saturating, Rows;
    NothingMatched(c, nr, nc, u[..], v[..], row4col[..], col4row[..]);
    while k < nr
      invariant 0 <= k <= nr
      invariant Matching(k, nr, nc, row4col[..], col4row[..])
      invariant Duals(c, k, nr, nc, u[..], v[..], row4col[..], col4row[..])
    {
      ok := MatchRow(c, nr, nc, cost, k, u, v, path, row4col, col4row, spc, SR, SC, remaining);
      if !ok {
        row4col', u', v' := [], [], [];
        return;
      }
      k := k + 1;
    }
    row4col', u', v' := row4col[..], u[..], v[..];
  }
}

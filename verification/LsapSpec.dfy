/** What the rectangular assignment solver computes: saturating assignments, their total cost, linear-programming
    duals, and the search invariants of one shortest-augmenting-path phase. Everything here is over immutable values.
    */
module LsapSpec {
  import opened Common
  import opened Counting

  /** One entry of the cost matrix, as an IEEE double classifies it. */
  datatype Cost = Num(v: real) | PosInf | NegInf | NaN

  /** A tentative distance: finite, or not reached yet. */
  datatype Ext = Fin(v: real) | Inf

  /** Cost matrix by rows. */
  type Grid = seq<seq<Cost>>

  ghost predicate Rect(c: Grid, nr: nat, nc: nat) {
    |c| == nr && forall i :: 0 <= i < nr ==> |c[i]| == nc
  }

  // ------------------------------------------------------------ assignments

  datatype Pair = Pair(row: int, col: int)

  ghost function RowsOf(q: seq<Pair>): (s: seq<int>) { seq(|q|, i requires 0 <= i < |q| => q[i].row) }
  ghost function ColsOf(q: seq<Pair>): (s: seq<int>) { seq(|q|, i requires 0 <= i < |q| => q[i].col) }

  /** `q` assigns every line of the smaller side, each row and column at most once. */
  ghost predicate Saturating(nr: nat, nc: nat, q: seq<Pair>) {
    && |q| == Min(nr, nc)
    && (forall t :: 0 <= t < |q| ==> 0 <= q[t].row < nr && 0 <= q[t].col < nc)
    && Distinct(RowsOf(q))
    && Distinct(ColsOf(q))
  }

  ghost predicate FiniteOn(c: Grid, nr: nat, nc: nat, q: seq<Pair>)
    requires Rect(c, nr, nc)
  {
    forall t :: 0 <= t < |q| ==> 0 <= q[t].row < nr && 0 <= q[t].col < nc && c[q[t].row][q[t].col].Num?
  }

  ghost function Total(c: Grid, nr: nat, nc: nat, q: seq<Pair>): real
    requires Rect(c, nr, nc) && FiniteOn(c, nr, nc, q)
  {
    if q == [] then 0.0 else
      c[q[0].row][q[0].col].v + Total(c, nr, nc, q[1..])
  }

  /** `q` is a finite saturating assignment and no finite saturating assignment is cheaper. */
  ghost predicate Optimal(c: Grid, nr: nat, nc: nat, q: seq<Pair>)
    requires Rect(c, nr, nc)
  {
    && Saturating(nr, nc, q)
    && FiniteOn(c, nr, nc, q)
    && forall o :: Saturating(nr, nc, o) && FiniteOn(c, nr, nc, o) ==> Total(c, nr, nc, q) <= Total(c, nr, nc, o)
  }

  // ------------------------------------------------- sums over distinct indices

  ghost function Sum(s: seq<real>): real {
    if s == [] then 0.0 else s[0] + Sum(s[1..])
  }

  ghost function SumAt(s: seq<real>, idx: seq<int>): real
    requires InRange(idx, |s|)
  {
    if idx == [] then 0.0 else s[idx[0]] + SumAt(s, idx[1..])
  }

  /** `s` with the listed positions set to zero. */
  ghost function Zeroed(s: seq<real>, idx: seq<int>): (z: seq<real>)
    ensures |z| == |s|
  {
    seq(|s|, i requires 0 <= i < |s| => if i in idx then 0.0 else s[i])
  }

  lemma {:induction false} SumUpdate(s: seq<real>, k: int, x: real)
    requires 0 <= k < |s|
    ensures Sum(s[k := x]) == Sum(s) - s[k] + x
  {
    if k == 0 {
      assert s[k := x][1..] == s[1..];
    } else {
      assert s[k := x][1..] == s[1..][k - 1 := x];
      SumUpdate(s[1..], k - 1, x);
    }
  }

  lemma {:induction false} SumSplit(s: seq<real>, idx: seq<int>)
    requires InRange(idx, |s|)
    requires Distinct(idx)
    ensures SumAt(s, idx) == Sum(s) - Sum(Zeroed(s, idx))
  {
    if idx == [] {
      assert Zeroed(s, idx) == s;
    } else {
      var rest := idx[1..];
      SumSplit(s, rest);
      var z := Zeroed(s, rest);
      assert idx[0] !in rest;
      assert Zeroed(s, idx) == z[idx[0] := 0.0];
      SumUpdate(z, idx[0], 0.0);
    }
  }

  lemma {:induction false} SumNonPositive(s: seq<real>)
    requires forall i :: 0 <= i < |s| ==> s[i] <= 0.0
    ensures Sum(s) <= 0.0
    ensures (forall i :: 0 <= i < |s| ==> s[i] == 0.0) ==> Sum(s) == 0.0
  {
    if s != [] { SumNonPositive(s[1..]); }
  }

  // ------------------------------------------------------------ weak duality

  ghost predicate Feasible(c: Grid, nr: nat, nc: nat, u: seq<real>, v: seq<real>)
    requires Rect(c, nr, nc)
  {
    && |u| == nr && |v| == nc
    && (forall i, j :: 0 <= i < nr && 0 <= j < nc && c[i][j].Num? ==> u[i] + v[j] <= c[i][j].v)
    && (forall j :: 0 <= j < nc ==> v[j] <= 0.0)
  }

  /** Every pair of `q` meets its dual constraint with equality. */
  ghost predicate TightOn(c: Grid, nr: nat, nc: nat, u: seq<real>, v: seq<real>, q: seq<Pair>)
    requires Rect(c, nr, nc) && |u| == nr && |v| == nc && FiniteOn(c, nr, nc, q)
  {
    forall t :: 0 <= t < |q| ==> c[q[t].row][q[t].col].v == u[q[t].row] + v[q[t].col]
  }

  lemma {:induction false} TotalBound(c: Grid, nr: nat, nc: nat, u: seq<real>, v: seq<real>, q: seq<Pair>)
    requires Rect(c, nr, nc) && Feasible(c, nr, nc, u, v) && FiniteOn(c, nr, nc, q)
    ensures InRange(RowsOf(q), nr) && InRange(ColsOf(q), nc)
    ensures SumAt(u, RowsOf(q)) + SumAt(v, ColsOf(q)) <= Total(c, nr, nc, q)
    ensures TightOn(c, nr, nc, u, v, q) ==>
              SumAt(u, RowsOf(q)) + SumAt(v, ColsOf(q)) == Total(c, nr, nc, q)
  {
    if q != [] {
      TotalBound(c, nr, nc, u, v, q[1..]);
      assert RowsOf(q)[1..] == RowsOf(q[1..]);
      assert ColsOf(q)[1..] == ColsOf(q[1..]);
    }
  }

  /** Weak duality: for nr <= nc, any feasible duals bound every finite saturating assignment from below by the sum of
      all duals. */
  lemma WeakDuality(c: Grid, nr: nat, nc: nat, u: seq<real>, v: seq<real>, q: seq<Pair>)
    requires nr <= nc && Rect(c, nr, nc) && Feasible(c, nr, nc, u, v)
    requires Saturating(nr, nc, q) && FiniteOn(c, nr, nc, q)
    ensures Sum(u) + Sum(v) <= Total(c, nr, nc, q)
    ensures TightOn(c, nr, nc, u, v, q)
            && (forall j :: 0 <= j < nc && j !in ColsOf(q) ==> v[j] == 0.0)
            ==> Sum(u) + Sum(v) == Total(c, nr, nc, q)
  {
    TotalBound(c, nr, nc, u, v, q);
    SumSplit(u, RowsOf(q));
    SumSplit(v, ColsOf(q));
    Pigeonhole(RowsOf(q), nr);
    SumNonPositive(Zeroed(u, RowsOf(q)));
    SumNonPositive(Zeroed(v, ColsOf(q)));
  }

  // ------------------------------------------- partial matchings and their duals

  /** Rows below `k` are matched, and `row4col` and `col4row` are mutually inverse. */
  ghost predicate Matching(k: nat, nr: nat, nc: nat, row4col: seq<int>, col4row: seq<int>) {
    && k <= nr && |row4col| == nc && |col4row| == nr
    && (forall i :: 0 <= i < k ==> 0 <= col4row[i] < nc)
    && (forall i {:trigger row4col[col4row[i]]} :: 0 <= i < k ==> row4col[col4row[i]] == i)
    && (forall i :: k <= i < nr ==> col4row[i] == -1)
    && (forall j {:trigger row4col[j]} :: 0 <= j < nc && row4col[j] != -1 ==>
          0 <= row4col[j] < k && col4row[row4col[j]] == j)
  }

  /** Complementary slackness for the first `k` rows. */
  ghost predicate Duals(c: Grid, k: nat, nr: nat, nc: nat, u: seq<real>, v: seq<real>, row4col: seq<int>,
      col4row: seq<int>)
    requires Rect(c, nr, nc) && Matching(k, nr, nc, row4col, col4row)
  {
    && |u| == nr && |v| == nc
    && (forall i, j :: 0 <= i < k && 0 <= j < nc && c[i][j].Num? ==> u[i] + v[j] <= c[i][j].v)
    && (forall i {:trigger u[i]} :: 0 <= i < k ==> c[i][col4row[i]].Num? && c[i][col4row[i]].v == u[i] + v[col4row[i]])
    && (forall j :: 0 <= j < nc ==> v[j] <= 0.0)
    && (forall j {:trigger row4col[j]} :: 0 <= j < nc && row4col[j] == -1 ==> v[j] == 0.0)
    && (forall i :: k <= i < nr ==> u[i] == 0.0)
  }

  /** A complete matching with such duals is optimal, in whichever order its pairs are listed. */
  lemma MatchedIsOptimal(c: Grid, nr: nat, nc: nat, u: seq<real>, v: seq<real>, row4col: seq<int>, col4row: seq<int>,
      q: seq<Pair>)
    requires nr <= nc && Rect(c, nr, nc)
    requires Matching(nr, nr, nc, row4col, col4row) && Duals(c, nr, nr, nc, u, v, row4col, col4row)
    requires |q| == nr && Distinct(RowsOf(q))
    requires forall t :: 0 <= t < |q| ==> 0 <= q[t].row < nr && q[t].col == col4row[q[t].row]
    ensures Optimal(c, nr, nc, q)
  {
    assert Distinct(ColsOf(q)) by {
      forall i, j | 0 <= i < j < |q| ensures ColsOf(q)[i] != ColsOf(q)[j] {
        assert RowsOf(q)[i] != RowsOf(q)[j];
        assert row4col[col4row[q[i].row]] == q[i].row && row4col[col4row[q[j].row]] == q[j].row;
        assert row4col[q[i].col] == q[i].row && row4col[q[j].col] == q[j].row;
      }
    }
    Pigeonhole(RowsOf(q), nr);
    forall j | 0 <= j < nc && row4col[j] != -1 ensures j in ColsOf(q) {
      assert row4col[j] in RowsOf(q);
      var t :| 0 <= t < nr && RowsOf(q)[t] == row4col[j];
      assert ColsOf(q)[t] == j;
    }
    forall t | 0 <= t < |q|
      ensures c[q[t].row][q[t].col].Num? && c[q[t].row][q[t].col].v == u[q[t].row] + v[q[t].col]
    {
      var ui := u[q[t].row];
    }
    WeakDuality(c, nr, nc, u, v, q);
    forall o | Saturating(nr, nc, o) && FiniteOn(c, nr, nc, o)
      ensures Total(c, nr, nc, q) <= Total(c, nr, nc, o)
    {
      WeakDuality(c, nr, nc, u, v, o);
    }
  }

  // ------------------------------------------------ one augmenting-path search

  /** The immutable surroundings of the search from row `k`. */
  datatype Problem = Problem(c: Grid, k: nat, nr: nat, nc: nat, u: seq<real>, v: seq<real>,
                             row4col: seq<int>, col4row: seq<int>)
  {
    ghost predicate Shaped() {
      k < nr <= nc && Rect(c, nr, nc) && |u| == |col4row| == nr && |v| == |row4col| == nc
    }

    ghost predicate Valid() {
      && Shaped()
      && (forall i, j :: 0 <= i < nr && 0 <= j < nc ==> c[i][j].Num? || c[i][j].PosInf?)
      && Matching(k, nr, nc, row4col, col4row) && Duals(c, k, nr, nc, u, v, row4col, col4row)
    }

    /** Reduced cost of a finite entry. */
    ghost function Reduced(r: int, j: int): real
      requires Shaped() && 0 <= r < nr && 0 <= j < nc && c[r][j].Num?
    {
      c[r][j].v - u[r] - v[j]
    }
  }

  /** What the search has written: labels, predecessors, scanned rows, settled columns, the order in which columns
      were settled, and the last settled distance. */
  datatype Labels = Labels(spc: seq<Ext>, path: seq<int>, SR: seq<bool>, SC: seq<bool>, order: seq<int>, minVal: real)

  /** Shapes, and which rows and columns the flags may mark. */
  ghost predicate Flags(p: Problem, s: Labels)
    requires p.Shaped()
  {
    && |s.spc| == |s.path| == |s.SC| == p.nc && |s.SR| == p.nr
    && Distinct(s.order) && InRange(s.order, p.nc)
    && (forall j :: 0 <= j < p.nc ==> (s.SC[j] <==> j in s.order))
    && (forall t :: 0 <= t < |s.order| ==> s.spc[s.order[t]].Fin?)
    && (forall j {:trigger s.SC[j]} :: 0 <= j < p.nc && s.SC[j] ==> s.spc[j].Fin?)
    && (forall r {:trigger s.SR[r]} :: 0 <= r < p.nr && s.SR[r] ==>
          r == p.k || (r < p.k && 0 <= p.col4row[r] < p.nc && s.SC[p.col4row[r]]))
  }

  /** Distance label of a scanned row: the root has 0, any other row that of its column. */
  ghost function RowDist(p: Problem, s: Labels, r: int): real
    requires p.Shaped() && Flags(p, s) && 0 <= r < p.nr && s.SR[r]
  {
    if r == p.k then 0.0 else s.spc[p.col4row[r]].v
  }

  /** Every finite edge out of a scanned row has been relaxed. */
  ghost predicate Relaxed(p: Problem, s: Labels)
    requires p.Shaped() && Flags(p, s)
  {
    forall r, j {:trigger p.c[r][j]} :: 0 <= r < p.nr && 0 <= j < p.nc && s.SR[r] && p.c[r][j].Num? ==>
      s.spc[j].Fin? && s.spc[j].v <= RowDist(p, s, r) + p.Reduced(r, j)
  }

  /** Every finite label is realised by its `path` predecessor. */
  ghost predicate Tight(p: Problem, s: Labels)
    requires p.Shaped() && Flags(p, s)
  {
    forall j {:trigger s.path[j]} :: 0 <= j < p.nc && s.spc[j].Fin? ==>
      && 0 <= s.path[j] < p.nr && s.SR[s.path[j]] && p.c[s.path[j]][j].Num?
      && s.spc[j].v == RowDist(p, s, s.path[j]) + p.Reduced(s.path[j], j)
  }

  /** Columns settle in non-decreasing order of distance. */
  ghost predicate Monotone(p: Problem, s: Labels)
    requires p.Shaped() && Flags(p, s)
  {
    && (forall a, b :: 0 <= a <= b < |s.order| ==> s.spc[s.order[a]].v <= s.spc[s.order[b]].v)
    && s.minVal == (if s.order == [] then 0.0 else s.spc[s.order[|s.order| - 1]].v)
    && (s.order != [] ==> forall j {:trigger s.spc[j]} :: 0 <= j < p.nc && !s.SC[j] && s.spc[j].Fin? ==>
        s.minVal <= s.spc[j].v)
  }

  /** Each settled column's predecessor row is the root or the row of a column settled before it. */
  ghost predicate Acyclic(p: Problem, s: Labels)
    requires p.Shaped() && Flags(p, s)
  {
    forall t {:trigger s.path[s.order[t]]} :: 0 <= t < |s.order| ==>
      0 <= s.path[s.order[t]] < p.nr && (s.path[s.order[t]] == p.k || p.col4row[s.path[s.order[t]]] in s.order[..t])
  }

  ghost predicate Search(p: Problem, s: Labels) {
    p.Valid() && Flags(p, s) && Relaxed(p, s) && Tight(p, s) && Monotone(p, s) && Acyclic(p, s)
  }

  /** The rows of all settled columns before position `n` are scanned, and so is the root. */
  ghost predicate ScannedUpTo(p: Problem, s: Labels, n: int)
    requires p.Shaped() && Flags(p, s)
  {
    && n <= |s.order|
    && forall t :: 0 <= t < n ==> 0 <= p.row4col[s.order[t]] < p.nr && s.SR[p.row4col[s.order[t]]]
  }

  /** The loop head: row `i` is the next to scan, all its predecessors are scanned. */
  ghost predicate Frontier(p: Problem, s: Labels, i: int)
    requires p.Shaped() && Flags(p, s)
  {
    && 0 <= i < p.nr && !s.SR[i]
    && i == (if s.order == [] then p.k else p.row4col[s.order[|s.order| - 1]])
    && (s.order != [] ==> s.SR[p.k])
    && ScannedUpTo(p, s, |s.order| - 1)
  }

  /** The search ended at the free column `sink`. */
  ghost predicate Found(p: Problem, s: Labels, sink: int) {
    && Search(p, s)
    && s.SR[p.k]
    && 0 <= sink < p.nc && p.row4col[sink] == -1
    && s.order != [] && s.order[|s.order| - 1] == sink
    && ScannedUpTo(p, s, |s.order| - 1)
  }

  /** The search got stuck: the scanned rows have finite entries only in the settled columns, all of which are matched
      to scanned rows other than the root. */
  ghost predicate Blocked(c: Grid, k: nat, nr: nat, nc: nat, row4col: seq<int>, SR: seq<bool>, SC: seq<bool>)
    requires Rect(c, nr, nc)
  {
    && k < nr <= nc && |SR| == nr && |SC| == nc && |row4col| == nc && SR[k]
    && (forall r, j :: 0 <= r < nr && 0 <= j < nc && SR[r] && c[r][j].Num? ==> SC[j])
    && (forall j :: 0 <= j < nc && SC[j] ==> 0 <= row4col[j] < nr && row4col[j] != k && SR[row4col[j]])
    && (forall i, j :: 0 <= i < nc && 0 <= j < nc && SC[i] && SC[j] && row4col[i] == row4col[j] ==> i == j)
  }

  /** Hall: a stuck search certifies that no finite saturating assignment exists. */
  lemma BlockedIsInfeasible(c: Grid, k: nat, nr: nat, nc: nat, row4col: seq<int>, SR: seq<bool>, SC: seq<bool>,
      q: seq<Pair>)
    requires Rect(c, nr, nc) && Blocked(c, k, nr, nc, row4col, SR, SC)
    requires Saturating(nr, nc, q)
    ensures !FiniteOn(c, nr, nc, q)
  {
    if FiniteOn(c, nr, nc, q) {
      Pigeonhole(RowsOf(q), nr);
      ScannedRowsFit(c, nr, nc, SR, SC, q);
      SettledColsFit(k, nr, nc, row4col, SR, SC);
    }
  }

  lemma MarkedCols(f: seq<bool>)
    ensures Distinct(Marked(f)) && InRange(Marked(f), |f|)
    ensures forall t :: 0 <= t < |Marked(f)| ==> f[Marked(f)[t]]
  {
    var m := Marked(f);
    forall t | 0 <= t < |m| ensures f[m[t]] {
      assert m[t] in m;
    }
  }

  /** The settled columns belong to that many scanned rows other than the root. */
  lemma SettledColsFit(k: nat, nr: nat, nc: nat, row4col: seq<int>, SR: seq<bool>, SC: seq<bool>)
    requires |SR| == nr && |SC| == |row4col| == nc && k < nr && SR[k]
    requires forall j :: 0 <= j < nc && SC[j] ==> 0 <= row4col[j] < nr && row4col[j] != k && SR[row4col[j]]
    requires forall i, j :: 0 <= i < nc && 0 <= j < nc && SC[i] && SC[j] && row4col[i] == row4col[j] ==> i == j
    ensures |Marked(SC)| < |Marked(SR)|
  {
    var rows, cols := Marked(SR), Marked(SC);
    hide Marked;
    MarkedCols(SC);
    assert k in rows;
    var owners := seq(|cols|, t requires 0 <= t < |cols| => row4col[cols[t]]);
    forall t | 0 <= t < |cols| ensures owners[t] in Elements(rows) - {k} {
      assert SR[owners[t]];
    }
    forall a, b | 0 <= a < b < |cols| ensures owners[a] != owners[b] {
      assert cols[a] != cols[b];
    }
    DistinctInto(owners, Elements(rows) - {k});
  }

  /** The scanned rows need as many different settled columns. */
  lemma ScannedRowsFit(c: Grid, nr: nat, nc: nat, SR: seq<bool>, SC: seq<bool>, q: seq<Pair>)
    requires Rect(c, nr, nc) && |SR| == nr && |SC| == nc
    requires Distinct(ColsOf(q)) && FiniteOn(c, nr, nc, q)
    requires forall r :: 0 <= r < nr ==> r in RowsOf(q)
    requires forall r, j :: 0 <= r < nr && 0 <= j < nc && SR[r] && c[r][j].Num? ==> SC[j]
    ensures |Marked(SR)| <= |Marked(SC)|
  {
    var rows, cols := Marked(SR), Marked(SC);
    var vals := seq(|rows|, t requires 0 <= t < |rows| => q[AtRow(q, nr, rows[t])].col);
    forall s, t | 0 <= s < t < |rows| ensures vals[s] != vals[t] {
      var x, y := AtRow(q, nr, rows[s]), AtRow(q, nr, rows[t]);
      assert ColsOf(q)[x] != ColsOf(q)[y] || x == y;
    }
    forall t | 0 <= t < |rows| ensures vals[t] in cols {
      assert rows[t] in rows;
    }
    DistinctInto(vals, Elements(cols));
  }

  ghost function AtRow(q: seq<Pair>, nr: nat, r: int): (t: int)
    requires r in RowsOf(q)
    ensures 0 <= t < |q| && q[t].row == r
  {
    var t :| 0 <= t < |q| && RowsOf(q)[t] == r; t
  }
}

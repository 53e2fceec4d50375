/** The solver's entry point: orientation, maximisation, validation and result layout
    (modules/align/src/rectangular_lsap.cpp), and the square wrapper of modules/align/src/lap.cpp. */
module LsapSolve {
  import opened Arith
  import opened Common
  import opened Counting
  import opened LsapSpec
  import opened Lsap

  datatype Code = Solved | Infeasible | Invalid

  // -------------------------------------------------------------- maximisation

  function Negate(e: Cost): Cost {
    match e
    case Num(v) => Num(-v)
    case PosInf => NegInf
    case NegInf => PosInf
    case NaN => NaN
  }

  function Effective(cost: seq<Cost>, maximize: bool): (r: seq<Cost>)
    ensures |r| == |cost|
  {
    if maximize then seq(|cost|, i requires 0 <= i < |cost| => Negate(cost[i])) else cost
  }

  ghost predicate Bad(e: Cost) { e.NaN? || e.NegInf? }

  /** Minimising the negated matrix maximises the original one. */
  lemma MaximizeMeaning(cost: seq<Cost>, nr: nat, nc: nat, q: seq<Pair>, o: seq<Pair>)
    requires |cost| == nr * nc
    requires Optimal(Rows(Effective(cost, true), nr, nc), nr, nc, q)
    requires Saturating(nr, nc, o) && FiniteOn(Rows(cost, nr, nc), nr, nc, o)
    ensures FiniteOn(Rows(cost, nr, nc), nr, nc, q)
    ensures Total(Rows(cost, nr, nc), nr, nc, o) <= Total(Rows(cost, nr, nc), nr, nc, q)
  {
    var c, d := Rows(cost, nr, nc), Rows(Effective(cost, true), nr, nc);
    NegatedRows(cost, nr, nc);
    NegatedTotal(c, d, nr, nc, o);
    NegatedTotal(c, d, nr, nc, q);
  }

  lemma {:induction false} NegatedTotal(c: Grid, d: Grid, nr: nat, nc: nat, q: seq<Pair>)
    requires Rect(c, nr, nc) && Rect(d, nr, nc)
    requires forall i, j :: 0 <= i < nr && 0 <= j < nc ==> d[i][j] == Negate(c[i][j])
    ensures FiniteOn(c, nr, nc, q) <==> FiniteOn(d, nr, nc, q)
    ensures FiniteOn(c, nr, nc, q) ==> Total(d, nr, nc, q) == -Total(c, nr, nc, q)
  {
    if q != [] && FiniteOn(c, nr, nc, q) {
      NegatedTotal(c, d, nr, nc, q[1..]);
    }
  }

  // -------------------------------------------------------------- transposition

  ghost function Swap(q: seq<Pair>): (r: seq<Pair>)
    ensures |r| == |q|
  {
    seq(|q|, i requires 0 <= i < |q| => Pair(q[i].col, q[i].row))
  }

  ghost predicate Transposed(c: Grid, d: Grid, nr: nat, nc: nat) {
    && Rect(c, nr, nc) && Rect(d, nc, nr)
    && forall i, j :: 0 <= i < nr && 0 <= j < nc ==> d[j][i] == c[i][j]
  }

  lemma {:induction false} SwapTotal(c: Grid, d: Grid, nr: nat, nc: nat, q: seq<Pair>)
    requires Transposed(c, d, nr, nc)
    ensures FiniteOn(c, nr, nc, q) <==> FiniteOn(d, nc, nr, Swap(q))
    ensures FiniteOn(c, nr, nc, q) ==> Total(d, nc, nr, Swap(q)) == Total(c, nr, nc, q)
  {
    if q != [] && FiniteOn(c, nr, nc, q) {
      SwapTotal(c, d, nr, nc, q[1..]);
      assert Swap(q)[1..] == Swap(q[1..]);
    }
    assert FiniteOn(d, nc, nr, Swap(q)) ==> FiniteOn(c, nr, nc, q) by {
      assert forall t :: 0 <= t < |q| ==> Swap(q)[t] == Pair(q[t].col, q[t].row);
    }
  }

  lemma SwapSaturating(nr: nat, nc: nat, q: seq<Pair>)
    requires Saturating(nr, nc, q)
    ensures Saturating(nc, nr, Swap(q)) && Swap(Swap(q)) == q
  {
    assert RowsOf(Swap(q)) == ColsOf(q) && ColsOf(Swap(q)) == RowsOf(q);
  }

  /** Optimality and infeasibility do not depend on the orientation. */
  lemma SwapOptimal(c: Grid, d: Grid, nr: nat, nc: nat, q: seq<Pair>)
    requires Transposed(c, d, nr, nc) && Optimal(d, nc, nr, q)
    ensures Optimal(c, nr, nc, Swap(q))
  {
    SwapSaturating(nc, nr, q);
    SwapTotal(c, d, nr, nc, Swap(q));
    forall o | Saturating(nr, nc, o) && FiniteOn(c, nr, nc, o)
      ensures Total(c, nr, nc, Swap(q)) <= Total(c, nr, nc, o)
    {
      SwapSaturating(nr, nc, o);
      SwapTotal(c, d, nr, nc, o);
    }
  }

  lemma SwapInfeasible(c: Grid, d: Grid, nr: nat, nc: nat)
    requires Transposed(c, d, nr, nc)
    requires forall q :: Saturating(nc, nr, q) ==> !FiniteOn(d, nc, nr, q)
    ensures forall q :: Saturating(nr, nc, q) ==> !FiniteOn(c, nr, nc, q)
  {
    forall q | Saturating(nr, nc, q) ensures !FiniteOn(c, nr, nc, q) {
      SwapSaturating(nr, nc, q);
      SwapTotal(c, d, nr, nc, q);
    }
  }

  lemma TransposedClean(c: Grid, d: Grid, nr: nat, nc: nat)
    requires Transposed(c, d, nr, nc)
    requires forall i, j :: 0 <= i < nr && 0 <= j < nc ==> !Bad(c[i][j])
    ensures forall j, i :: 0 <= j < nc && 0 <= i < nr ==> d[j][i].Num? || d[j][i].PosInf?
  {
    forall j, i | 0 <= j < nc && 0 <= i < nr ensures d[j][i].Num? || d[j][i].PosInf? {
      assert !Bad(c[i][j]);
    }
  }

  /** The cells (x, y) with x < i, or x == i and y < j, are copied. */
  ghost predicate Copied(temp: seq<Cost>, cost: seq<Cost>, nr: nat, nc: nat, i: int, j: int)
    requires |cost| == nr * nc && |temp| == nc * nr
  {
    forall x, y :: 0 <= x < nr && 0 <= y < nc && (x < i || (x == i && y < j)) ==>
      Cell(temp, nc, nr, y, x) == Cell(cost, nr, nc, x, y)
  }

  lemma CellUpdate(temp: seq<Cost>, n: nat, m: nat, j: nat, i: nat, e: Cost, y: nat, x: nat)
    requires |temp| == n * m && j < n && i < m && y < n && x < m
    ensures 0 <= j * m + i < |temp|
    ensures Cell(temp[j * m + i := e], n, m, y, x) == if y == j && x == i then e else Cell(temp, n, m, y, x)
  {
    SlotInRange(n, m, j, i);
    SlotInRange(n, m, y, x);
    RadixOrder(j, i, y, x, m);
  }

  lemma CopyCell(temp: seq<Cost>, cost: seq<Cost>, nr: nat, nc: nat, i: nat, j: nat)
    requires |cost| == nr * nc && |temp| == nc * nr && i < nr && j < nc && Copied(temp, cost, nr, nc, i, j)
    ensures 0 <= j * nr + i < |temp|
    ensures Copied(temp[j * nr + i := Cell(cost, nr, nc, i, j)], cost, nr, nc, i, j + 1)
  {
    hide Cell;
    SlotInRange(nc, nr, j, i);
    var e := Cell(cost, nr, nc, i, j);
    forall x, y | 0 <= x < nr && 0 <= y < nc && (x < i || (x == i && y < j + 1))
      ensures Cell(temp[j * nr + i := e], nc, nr, y, x) == Cell(cost, nr, nc, x, y)
    {
      CellUpdate(temp, nc, nr, j, i, e, y, x);
    }
  }

  method Transpose(cost: seq<Cost>, nr: nat, nc: nat) returns (temp: array<Cost>)
    requires |cost| == nr * nc
    ensures fresh(temp) && temp.Length == nc * nr
    ensures Transposed(Rows(cost, nr, nc), Rows(temp[..], nc, nr), nr, nc)
  {
    temp := new Cost[nc * nr](_ => NaN);
    var i := 0;
    while i < nr
      invariant 0 <= i <= nr && Copied(temp[..], cost, nr, nc, i, 0)
    {
      var j := 0;
      while j < nc
        invariant 0 <= j <= nc && Copied(temp[..], cost, nr, nc, i, j)
      {
        CopyCell(temp[..], cost, nr, nc, i, j);
        ghost var was := temp[..];
        temp[j * nr + i] := Cell(cost, nr, nc, i, j);
        assert temp[..] == was[j * nr + i := Cell(cost, nr, nc, i, j)];
        j := j + 1;
      }
      i := i + 1;
    }
  }

  // ----------------------------------------------------------------- the result

  /** `index` lists [0, n) in ascending order of value. */
  ghost predicate SortedIndex(v: seq<int>, index: seq<int>, n: nat)
    requires n <= |v|
  {
    && |index| == n && Distinct(index) && InRange(index, n)
    && forall s, t :: 0 <= s < t < n ==> v[index[s]] <= v[index[t]]
  }

  lemma InsertIndex(v: seq<int>, index: seq<int>, i: nat, at: nat)
    requires i < |v| && SortedIndex(v, index, i) && at <= i
    requires forall s :: 0 <= s < at ==> v[index[s]] <= v[i]
    requires at < i ==> v[i] <= v[index[at]]
    ensures SortedIndex(v, index[..at] + [i] + index[at..], i + 1)
  {}

  /** Indices of `v` in ascending order of value. */
  method ArgSort(v: seq<int>) returns (index: seq<int>)
    ensures SortedIndex(v, index, |v|)
  {
    index := [];
    var i := 0;
    while i < |v|
      invariant 0 <= i <= |v| && SortedIndex(v, index, i)
    {
      var at := 0;
      while at < i && v[index[at]] <= v[i]
        invariant 0 <= at <= i
        invariant forall s :: 0 <= s < at ==> v[index[s]] <= v[i]
      {
        at := at + 1;
      }
      InsertIndex(v, index, i, at);
      index := index[..at] + [i] + index[at..];
      i := i + 1;
    }
  }

  ghost function PairsOf(a: seq<int>, b: seq<int>): (q: seq<Pair>)
    requires |a| == |b|
    ensures |q| == |a|
  {
    seq(|a|, i requires 0 <= i < |a| => Pair(a[i], b[i]))
  }

  ghost predicate Ascending(a: seq<int>) {
    forall s, t :: 0 <= s < t < |a| ==> a[s] < a[t]
  }

  /** What the caller finds in the first `n` slots of `a` and `b`. */
  ghost predicate Solution(c: Grid, nr: nat, nc: nat, a: seq<int>, b: seq<int>)
    requires Rect(c, nr, nc)
  {
    && |a| == |b| == Min(nr, nc)
    && Ascending(a)
    && Optimal(c, nr, nc, PairsOf(a, b))
  }

  method SolveWide(nr: nat, nc: nat, cost: seq<Cost>, a: array<int>, b: array<int>) returns (code: Code)
    requires nr <= nc && |cost| == nr * nc && a != b && nr <= a.Length && nr <= b.Length
    requires forall i, j :: 0 <= i < nr && 0 <= j < nc ==> !Bad(Rows(cost, nr, nc)[i][j])
    modifies a, b
    ensures code == Solved ==> Solution(Rows(cost, nr, nc), nr, nc, a[..nr], b[..nr])
    ensures code != Solved ==> code == Infeasible
    ensures code == Infeasible ==> forall q :: Saturating(nr, nc, q) ==> !FiniteOn(Rows(cost, nr, nc), nr, nc, q)
  {
    ghost var c := Rows(cost, nr, nc);
    var ok, col4row; ghost var row4col, u, v;
    ok, col4row, row4col, u, v := AssignRows(nr, nc, cost);
    if !ok {
      return Infeasible;
    }
    var i := 0;
    ghost var cols := col4row[..];
    while i < nr
      invariant 0 <= i <= nr
      invariant forall t :: 0 <= t < i ==> a[t] == t && b[t] == cols[t]
      invariant col4row[..] == cols
    {
      a[i], b[i] := i, col4row[i];
      i := i + 1;
    }
    MatchedIsOptimal(c, nr, nc, u, v, row4col, cols, PairsOf(a[..nr], b[..nr]));
    return Solved;
  }

  method SolveTall(nr: nat, nc: nat, cost: seq<Cost>, a: array<int>, b: array<int>) returns (code: Code)
    requires nc <= nr && |cost| == nr * nc && a != b && nc <= a.Length && nc <= b.Length
    requires forall i, j :: 0 <= i < nr && 0 <= j < nc ==> !Bad(Rows(cost, nr, nc)[i][j])
    modifies a, b
    ensures code == Solved ==> Solution(Rows(cost, nr, nc), nr, nc, a[..nc], b[..nc])
    ensures code != Solved ==> code == Infeasible
    ensures code == Infeasible ==> forall q :: Saturating(nr, nc, q) ==> !FiniteOn(Rows(cost, nr, nc), nr, nc, q)
  {
    hide Rows, Duals, Solution, Saturating, FiniteOn, Distinct;
    var temp := Transpose(cost, nr, nc);
    ghost var c, d := Rows(cost, nr, nc), Rows(temp[..], nc, nr);
    TransposedClean(c, d, nr, nc);
    var ok, col4row; ghost var row4col, u, v;
    ok, col4row, row4col, u, v := AssignRows(nc, nr, temp[..]);
    if !ok {
      SwapInfeasible(c, d, nr, nc);
      return Infeasible;
    }
    var index := ArgSort(col4row[..]);
    ghost var cols := col4row[..];
    var i := 0;
    while i < nc
      invariant 0 <= i <= nc
      invariant forall t :: 0 <= t < i ==> a[t] == cols[index[t]] && b[t] == index[t]
      invariant col4row[..] == cols
    {
      a[i], b[i] := col4row[index[i]], index[i];
      i := i + 1;
    }
    TallSolution(c, d, nr, nc, u, v, row4col, cols, index, a[..nc], b[..nc]);
    return Solved;
  }

  lemma TallSolution(c: Grid, d: Grid, nr: nat, nc: nat, u: seq<real>, v: seq<real>, row4col: seq<int>,
      cols: seq<int>, index: seq<int>, a: seq<int>, b: seq<int>)
    requires nc <= nr && Transposed(c, d, nr, nc)
    requires Matching(nc, nc, nr, row4col, cols) && Duals(d, nc, nc, nr, u, v, row4col, cols)
    requires |a| == |b| == nc == |cols| && SortedIndex(cols, index, nc)
    requires forall t :: 0 <= t < nc ==> a[t] == cols[index[t]] && b[t] == index[t]
    ensures Solution(c, nr, nc, a, b)
  {
    var q := PairsOf(b, a);
    assert RowsOf(q) == index;
    MatchedIsOptimal(d, nc, nr, u, v, row4col, cols, q);
    SwapOptimal(c, d, nr, nc, q);
    assert Swap(q) == PairsOf(a, b);
    forall s, t | 0 <= s < t < nc ensures a[s] < a[t] {
      assert ColsOf(q)[s] != ColsOf(q)[t];
    }
  }

  lemma EmptySolution(c: Grid, nr: nat, nc: nat)
    requires Rect(c, nr, nc) && (nr == 0 || nc == 0)
    ensures Solution(c, nr, nc, [], [])
  {}

  lemma CleanRows(cost: seq<Cost>, nr: nat, nc: nat)
    requires |cost| == nr * nc && forall t :: 0 <= t < |cost| ==> !Bad(cost[t])
    ensures forall i, j :: 0 <= i < nr && 0 <= j < nc ==> !Bad(Rows(cost, nr, nc)[i][j])
  {
    forall i, j | 0 <= i < nr && 0 <= j < nc ensures !Bad(Rows(cost, nr, nc)[i][j]) {
      SlotInRange(nr, nc, i, j);
    }
  }

  /** Entries no assignment may be asked about: NaN, and the infinity that would be the best. */
  ghost predicate Refused(e: Cost, maximize: bool) { e.NaN? || (if maximize then e.PosInf? else e.NegInf?) }

  /** A best assignment of the smaller side, finite, with the row indices ascending. */
  ghost predicate Answer(c: Grid, nr: nat, nc: nat, maximize: bool, a: seq<int>, b: seq<int>)
    requires Rect(c, nr, nc)
  {
    && |a| == |b| == Min(nr, nc) && Ascending(a)
    && var q := PairsOf(a, b);
    && Saturating(nr, nc, q) && FiniteOn(c, nr, nc, q)
    && forall o :: Saturating(nr, nc, o) && FiniteOn(c, nr, nc, o) ==>
        if maximize then Total(c, nr, nc, o) <= Total(c, nr, nc, q) else Total(c, nr, nc, q) <= Total(c, nr, nc, o)
  }

  /** Solving the effective matrix is solving the given one. */
  lemma EffectiveMeans(cost: seq<Cost>, nr: nat, nc: nat, maximize: bool)
    requires |cost| == nr * nc
    ensures (exists t :: 0 <= t < |cost| && Bad(Effective(cost, maximize)[t])) <==>
        (exists t :: 0 <= t < |cost| && Refused(cost[t], maximize))
    ensures forall a, b :: Solution(Rows(Effective(cost, maximize), nr, nc), nr, nc, a, b) ==>
        Answer(Rows(cost, nr, nc), nr, nc, maximize, a, b)
    ensures forall q :: FiniteOn(Rows(Effective(cost, maximize), nr, nc), nr, nc, q) <==>
        FiniteOn(Rows(cost, nr, nc), nr, nc, q)
  {
    BadIsRefused(cost, maximize);
    var c, d := Rows(cost, nr, nc), Rows(Effective(cost, maximize), nr, nc);
    forall q ensures FiniteOn(d, nr, nc, q) <==> FiniteOn(c, nr, nc, q) {
      FiniteIs(cost, nr, nc, maximize, q);
    }
    forall a, b | Solution(d, nr, nc, a, b) ensures Answer(c, nr, nc, maximize, a, b) {
      SolutionIsAnswer(cost, nr, nc, maximize, a, b);
    }
  }

  lemma BadIsRefused(cost: seq<Cost>, maximize: bool)
    ensures (exists t :: 0 <= t < |cost| && Bad(Effective(cost, maximize)[t])) <==>
        (exists t :: 0 <= t < |cost| && Refused(cost[t], maximize))
  {
    assert forall t :: 0 <= t < |cost| ==> (Bad(Effective(cost, maximize)[t]) <==> Refused(cost[t], maximize));
  }

  lemma FiniteIs(cost: seq<Cost>, nr: nat, nc: nat, maximize: bool, q: seq<Pair>)
    requires |cost| == nr * nc
    ensures FiniteOn(Rows(Effective(cost, maximize), nr, nc), nr, nc, q) <==> FiniteOn(Rows(cost, nr, nc), nr, nc, q)
  {
    if maximize {
      NegatedRows(cost, nr, nc);
      NegatedTotal(Rows(cost, nr, nc), Rows(Effective(cost, true), nr, nc), nr, nc, q);
    }
  }

  lemma NegatedRows(cost: seq<Cost>, nr: nat, nc: nat)
    requires |cost| == nr * nc
    ensures forall i, j :: 0 <= i < nr && 0 <= j < nc ==>
        Rows(Effective(cost, true), nr, nc)[i][j] == Negate(Rows(cost, nr, nc)[i][j])
  {
    forall i, j | 0 <= i < nr && 0 <= j < nc
      ensures Rows(Effective(cost, true), nr, nc)[i][j] == Negate(Rows(cost, nr, nc)[i][j])
    {
      SlotInRange(nr, nc, i, j);
    }
  }

  lemma SolutionIsAnswer(cost: seq<Cost>, nr: nat, nc: nat, maximize: bool, a: seq<int>, b: seq<int>)
    requires |cost| == nr * nc && Solution(Rows(Effective(cost, maximize), nr, nc), nr, nc, a, b)
    ensures Answer(Rows(cost, nr, nc), nr, nc, maximize, a, b)
  {
    hide Rows, FiniteOn, Saturating, Total;
    var c, q := Rows(cost, nr, nc), PairsOf(a, b);
    FiniteIs(cost, nr, nc, maximize, q);
    if maximize {
      forall o | Saturating(nr, nc, o) && FiniteOn(c, nr, nc, o) ensures Total(c, nr, nc, o) <= Total(c, nr, nc, q) {
        MaximizeMeaning(cost, nr, nc, q, o);
      }
    }
  }

  /** Least-cost assignment saturating the smaller side of the matrix, or the dearest one when `maximize`, with the
      row indices ascending. */
  method Solve(nr: nat, nc: nat, cost: seq<Cost>, maximize: bool, a: array<int>, b: array<int>) returns (code: Code)
    requires |cost| == nr * nc && a != b && Min(nr, nc) <= a.Length && Min(nr, nc) <= b.Length
    modifies a, b
    ensures code == Invalid <==> exists t :: 0 <= t < |cost| && Refused(cost[t], maximize)
    ensures code == Solved ==> Answer(Rows(cost, nr, nc), nr, nc, maximize, a[..Min(nr, nc)], b[..Min(nr, nc)])
    ensures code == Infeasible ==> forall q :: Saturating(nr, nc, q) ==> !FiniteOn(Rows(cost, nr, nc), nr, nc, q)
  {
    EffectiveMeans(cost, nr, nc, maximize);
    hide Rows, Solution, Saturating, FiniteOn, Effective, Answer, Refused;
    if nr == 0 || nc == 0 {
      EmptySolution(Rows(Effective(cost, maximize), nr, nc), nr, nc);
      return Solved;
    }
    var eff := Effective(cost, maximize);
    var t := 0;
    while t < |eff|
      invariant 0 <= t <= |eff|
      invariant forall x :: 0 <= x < t ==> !Bad(eff[x])
    {
      if eff[t].NaN? || eff[t].NegInf? {
        return Invalid;
      }
      t := t + 1;
    }
    CleanRows(eff, nr, nc);
    if nc < nr {
      code := SolveTall(nr, nc, eff, a, b);
    } else {
      code := SolveWide(nr, nc, eff, a, b);
    }
  }
}

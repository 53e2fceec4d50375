/** The square wrapper around the assignment solver, modules/align/src/lap.cpp. */
module Lap {
  import opened Common
  import opened LsapSpec
  import opened Lsap
  import opened LsapSolve

  datatype LapResult = LapResult(assignment: seq<int>, costRaw: real, exact: bool)

  /** The pairs (i, p[i]). */
  ghost function PermPairs(p: seq<int>): (q: seq<Pair>)
    ensures |q| == |p|
  {
    seq(|p|, i requires 0 <= i < |p| => Pair(i, p[i]))
  }

  lemma {:induction false} AscendingAtLeast(a: seq<int>, k: nat)
    requires Ascending(a) && k < |a| && forall t :: 0 <= t < |a| ==> 0 <= a[t]
    ensures a[k] >= k
  {
    if k > 0 { AscendingAtLeast(a, k - 1); }
  }

  lemma {:induction false} AscendingAtMost(a: seq<int>, n: nat, k: nat)
    requires Ascending(a) && |a| == n && k < n && forall t :: 0 <= t < n ==> a[t] < n
    ensures a[k] <= k
    decreases n - k
  {
    if k + 1 < n { AscendingAtMost(a, n, k + 1); }
  }

  lemma {:induction false} TotalAppend(c: Grid, nr: nat, nc: nat, q: seq<Pair>, x: Pair)
    requires Rect(c, nr, nc) && FiniteOn(c, nr, nc, q)
    requires 0 <= x.row < nr && 0 <= x.col < nc && c[x.row][x.col].Num?
    ensures FiniteOn(c, nr, nc, q + [x])
    ensures Total(c, nr, nc, q + [x]) == Total(c, nr, nc, q) + c[x.row][x.col].v
  {
    if q == [] {
      assert q + [x] == [x];
      assert Total(c, nr, nc, [x][1..]) == 0.0;
    } else {
      TotalAppend(c, nr, nc, q[1..], x);
      assert (q + [x])[1..] == q[1..] + [x];
    }
  }

  /** On a square matrix the solver's result is read off as a permutation. */
  lemma SquareSolution(c: Grid, n: nat, a: seq<int>, b: seq<int>)
    requires Rect(c, n, n) && Solution(c, n, n, a, b)
    ensures forall k :: 0 <= k < n ==> a[k] == k && 0 <= b[k] < n && c[k][b[k]].Num?
    ensures IsPermutation(b, n) && PairsOf(a, b) == PermPairs(b)
  {
    var q := PairsOf(a, b);
    forall k | 0 <= k < n ensures a[k] == k && 0 <= b[k] < n && c[k][b[k]].Num? {
      assert forall t :: 0 <= t < n ==> q[t] == Pair(a[t], b[t]);
      AscendingAtLeast(a, k);
      AscendingAtMost(a, n, k);
      assert q[k] == Pair(a[k], b[k]);
    }
    forall i, j | 0 <= i < j < n ensures b[i] != b[j] {
      assert ColsOf(q)[i] != ColsOf(q)[j];
    }
  }

  /** A minimum-cost permutation for a square matrix and its cost; an error exactly for a buffer of the wrong size, an
      invalid matrix, or one without any finite permutation. */
  method SolveJv(cost: seq<Cost>, n: nat) returns (r: Result<LapResult>)
    ensures n == 0 ==> r == Ok(LapResult([], 0.0, false))
    ensures n > 0 && |cost| != n * n ==> r.Err?
    ensures n > 0 && |cost| == n * n && (exists t :: 0 <= t < |cost| && Bad(cost[t])) ==> r.Err?
    ensures n > 0 && |cost| == n * n && (forall t :: 0 <= t < |cost| ==> !Bad(cost[t])) ==>
              (r.Ok? <==> exists q :: Saturating(n, n, q) && FiniteOn(Rows(cost, n, n), n, n, q))
    ensures n > 0 && r.Ok? ==>
              && IsPermutation(r.value.assignment, n)
              && Optimal(Rows(cost, n, n), n, n, PermPairs(r.value.assignment))
              && r.value.costRaw == Total(Rows(cost, n, n), n, n, PermPairs(r.value.assignment))
              && r.value.exact
  {
    if n == 0 {
      return Ok(LapResult([], 0.0, false));
    }
    if |cost| != n * n {
      return Err(Internal);
    }
    var a, b := new int[n](_ => 0), new int[n](_ => 0);
    var code := Solve(n, n, cost, false, a, b);
    if code != Solved {
      return Err(Internal);
    }
    ghost var c := Rows(cost, n, n);
    assert a[..n] == a[..] && b[..n] == b[..];
    SquareSolution(c, n, a[..], b[..]);
    hide Rows, Optimal, Solution;
    var assignment, total := ReadOff(cost, n, a[..], b[..]);
    return Ok(LapResult(assignment, total, true));
  }

  /** Scatters the pairs into an assignment and adds up its cost. */
  method ReadOff(cost: seq<Cost>, n: nat, a: seq<int>, b: seq<int>) returns (assignment: seq<int>, total: real)
    requires |cost| == n * n && |a| == |b| == n
    requires forall k :: 0 <= k < n ==> a[k] == k && 0 <= b[k] < n && Rows(cost, n, n)[k][b[k]].Num?
    ensures assignment == b && FiniteOn(Rows(cost, n, n), n, n, PermPairs(b))
    ensures total == Total(Rows(cost, n, n), n, n, PermPairs(b))
  {
    ghost var c, q := Rows(cost, n, n), PermPairs(b);
    var out := new int[n](_ => 0);
    total := 0.0;
    var k := 0;
    hide Rows;
    while k < n
      invariant 0 <= k <= n
      invariant forall t :: 0 <= t < k ==> out[t] == b[t]
      invariant FiniteOn(c, n, n, q[..k]) && total == Total(c, n, n, q[..k])
    {
      var row, col := a[k], b[k];
      out[row] := col;
      total := total + Cell(cost, n, n, row, col).v;
      TotalAppend(c, n, n, q[..k], q[k]);
      assert q[..k] + [q[k]] == q[..k + 1];
      k := k + 1;
    }
    assert q[..n] == q;
    assignment := out[..];
  }
}

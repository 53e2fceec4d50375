/** Counting arguments on index lists and finite sets. */
module Counting {
  import opened Common

  ghost predicate InRange(idx: seq<int>, n: nat) {
    forall t :: 0 <= t < |idx| ==> 0 <= idx[t] < n
  }

  /** The set [0, n). */
  ghost function Range(n: nat): (s: set<int>)
    ensures |s| == n && forall i :: i in s <==> 0 <= i < n
  {
    if n == 0 then {} else Range(n - 1) + {n - 1}
  }

  /** Distinct values drawn from a finite set: no more than the set has. */
  lemma {:induction false} DistinctInto(vals: seq<int>, b: set<int>)
    requires Distinct(vals) && forall t :: 0 <= t < |vals| ==> vals[t] in b
    ensures |vals| <= |b|
  {
    if vals != [] {
      var n := |vals| - 1;
      DistinctInto(vals[..n], b - {vals[n]});
    }
  }

  /** Distinct indices in [0, n): at most n of them, and exactly n only if all occur. */
  lemma Pigeonhole(s: seq<int>, n: nat)
    requires Distinct(s) && InRange(s, n)
    ensures |s| <= n
    ensures |s| == n ==> forall i :: 0 <= i < n ==> i in s
  {
    DistinctInto(s, Range(n));
    forall i | 0 <= i < n && i !in s ensures |s| < n {
      DistinctInto(s, Range(n) - {i});
    }
  }

  /** The elements of an index list, as a set of the same size. */
  ghost function Elements(s: seq<int>): (r: set<int>)
    ensures forall x :: x in r <==> x in s
    ensures Distinct(s) ==> |r| == |s|
  {
    if s == [] then {} else Elements(s[..|s| - 1]) + {s[|s| - 1]}
  }

  /** The marked positions, ascending. */
  ghost function Marked(f: seq<bool>): (r: seq<int>)
    ensures Distinct(r) && InRange(r, |f|)
    ensures forall i :: i in r <==> 0 <= i < |f| && f[i]
  {
    if f == [] then [] else
      var n := |f| - 1;
      Marked(f[..n]) + (if f[n] then [n] else [])
  }
}

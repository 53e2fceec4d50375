/** Permutations as index lists: validation, inversion and block expansion (modules/core/src/topology.cpp). */
module Permutations {
  import opened Common
  import opened Arith
  import opened Counting

  /** Exactly the bijections on [0, n) are accepted. */
  method IsValidPermutation(perm: seq<int>, n: nat) returns (ok: bool)
    requires forall i :: 0 <= i < |perm| ==> 0 <= perm[i]
    ensures ok <==> IsPermutation(perm, n)
  {
    if |perm| != n {
      return false;
    }
    var seen := new bool[n](_ => false);
    var i := 0;
    while i < n
      invariant 0 <= i <= n
      invariant forall t :: 0 <= t < i ==> perm[t] < n
      invariant forall s, t :: 0 <= s < t < i ==> perm[s] != perm[t]
      invariant forall x :: 0 <= x < n ==> (seen[x] <==> x in perm[..i])
    {
      var p := perm[i];
      if p >= n {
        return false;
      }
      if seen[p] {
        assert p in perm[..i];
        return false;
      }
      seen[p] := true;
      assert perm[..i + 1] == perm[..i] + [p];
      i := i + 1;
    }
    return true;
  }

  lemma PermutationIsOnto(p: seq<int>, n: nat)
    requires IsPermutation(p, n)
    ensures forall j :: 0 <= j < n ==> j in p
  {
    Pigeonhole(p, n);
  }

  /** The inverse undoes the permutation on both sides. */
  method InvertPermutation(perm: seq<int>) returns (inv: array<int>)
    requires IsPermutation(perm, |perm|)
    ensures fresh(inv) && inv.Length == |perm|
    ensures forall i :: 0 <= i < |perm| ==> inv[perm[i]] == i
    ensures forall j :: 0 <= j < |perm| ==> 0 <= inv[j] < |perm| && perm[inv[j]] == j
  {
    var n := |perm|;
    inv := new int[n](_ => 0);
    var i := 0;
    while i < n
      invariant 0 <= i <= n
      invariant forall t :: 0 <= t < i ==> inv[perm[t]] == t
    {
      inv[perm[i]] := i;
      i := i + 1;
    }
    forall j | 0 <= j < n ensures 0 <= inv[j] < n && perm[inv[j]] == j {
      PermutationIsOnto(perm, n);
      assert j in perm;
      var t :| 0 <= t < n && perm[t] == j;
    }
  }

  /** Each index of a group permutation stands for a run of `block` axis positions. */
  function Expand(perm: seq<int>, block: nat): (r: seq<int>)
    ensures |r| == |perm| * block
  {
    seq(|perm| * block, i requires 0 <= i < |perm| * block => ExpandAt(perm, block, i))
  }

  function ExpandAt(perm: seq<int>, block: nat, i: int): int
    requires 0 <= i < |perm| * block
  {
    BlockIndex(|perm|, block, i);
    perm[i / block] * block + i % block
  }

  lemma BlockIndex(n: nat, block: nat, i: int)
    requires 0 <= i < n * block
    ensures block >= 1 && 0 <= i / block < n && 0 <= i % block < block && i == (i / block) * block + i % block
  {
    assert block == 0 ==> n * block == 0;
    RadixOrder(i / block, i % block, n, 0, block);
  }

  /** The nested push loop builds exactly the expansion. */
  method ExpandPermutation(perm: seq<int>, block: nat) returns (out: seq<int>)
    ensures out == Expand(perm, block)
  {
    ghost var whole := Expand(perm, block);
    out := [];
    var i := 0;
    while i < |perm|
      invariant 0 <= i <= |perm| && |out| == i * block <= |whole| && out == whole[..|out|]
    {
      var b := 0;
      MulLe(i + 1, |perm|, block);
      MulSucc(i, block);
      while b < block
        invariant 0 <= b <= block && |out| == i * block + b <= |whole| && out == whole[..|out|]
      {
        DivUnique(i, b, block);
        assert whole[i * block + b] == ExpandAt(perm, block, i * block + b);
        out := out + [perm[i] * block + b];
        b := b + 1;
      }
      i := i + 1;
    }
  }

  /** Expanding a bijection on [0, n) gives a bijection on [0, n * block). */
  lemma ExpandIsPermutation(perm: seq<int>, n: nat, block: nat)
    requires IsPermutation(perm, n)
    ensures IsPermutation(Expand(perm, block), n * block)
  {
    var r := Expand(perm, block);
    forall i | 0 <= i < n * block ensures 0 <= r[i] < n * block {
      BlockIndex(n, block, i);
      SlotInRange(n, block, perm[i / block], i % block);
    }
    forall i, j | 0 <= i < j < n * block ensures r[i] != r[j] {
      BlockIndex(n, block, i);
      BlockIndex(n, block, j);
      RadixOrder(perm[i / block], i % block, perm[j / block], j % block, block);
    }
  }
}

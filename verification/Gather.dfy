/** Moving whole units of a tensor: the direct gather (modules/codec/src/permute.cpp), the gather through coalesced
    runs and a scratch map that both the writer and the reader use (modules/codec/src/diff_encoder.cpp,
    modules/codec/src/reconstruct.cpp), and column permutation of every row. */
module Gather {
  import opened Common
  import opened Arith

  // ------------------------------------------------------------- rows

  ghost predicate HasRow(s: seq<Byte>, ub: nat, i: int) {
    i >= 0 && 0 <= i * ub && i * ub + ub <= |s|
  }

  /** Unit i of a buffer of ub-byte units. */
  function Row(s: seq<Byte>, ub: nat, i: int): (r: seq<Byte>)
    requires HasRow(s, ub, i)
    ensures |r| == ub
  {
    s[i * ub..i * ub + ub]
  }

  lemma RowsFit(s: seq<Byte>, ub: nat, n: nat, i: int)
    requires n * ub <= |s| && 0 <= i < n
    ensures HasRow(s, ub, i) && i * ub + ub <= n * ub
  {
    MulLe(0, i, ub);
    MulLe(i + 1, n, ub);
    MulSucc(i, ub);
  }

  /** Dropping what follows row n does not change row i < n. */
  lemma RowOfPrefix(s: seq<Byte>, t: seq<Byte>, ub: nat, n: nat, i: int)
    requires |s| == n * ub && 0 <= i < n
    ensures HasRow(s, ub, i) && HasRow(s + t, ub, i) && Row(s + t, ub, i) == Row(s, ub, i)
  {
    RowsFit(s, ub, n, i);
  }

  lemma RowAtEnd(s: seq<Byte>, t: seq<Byte>, ub: nat, n: nat)
    requires |s| == n * ub && |t| == ub
    ensures HasRow(s + t, ub, n) && Row(s + t, ub, n) == t
  {}

  lemma SubSlice(s: seq<Byte>, lo: nat, n: nat, a: nat, k: nat)
    requires lo + n <= |s| && a + k <= n
    ensures s[lo..lo + n][a..a + k] == s[lo + a..lo + a + k]
  {
    var x, y := s[lo..lo + n][a..a + k], s[lo + a..lo + a + k];
    assert |x| == |y| && forall j :: 0 <= j < k ==> x[j] == y[j];
  }

  lemma SliceOfConcat(s: seq<Byte>, t: seq<Byte>, lo: nat, n: nat)
    requires lo + n <= |t|
    ensures (s + t)[|s| + lo..|s| + lo + n] == t[lo..lo + n]
  {}

  lemma RowOfSlice(s: seq<Byte>, ub: nat, first: nat, n: nat, i: int)
    requires first * ub + n * ub <= |s| && 0 <= i < n
    ensures 0 <= first * ub <= first * ub + n * ub && HasRow(s[first * ub..first * ub + n * ub], ub, i)
        && HasRow(s, ub, first + i)
    ensures Row(s[first * ub..first * ub + n * ub], ub, i) == Row(s, ub, first + i)
  {
    var cut := s[first * ub..first * ub + n * ub];
    MulLe(0, first, ub);
    MulLe(0, n, ub);
    RowsFit(cut, ub, n, i);
    MulAdd(first, i, ub);
    MulLe(0, first + i, ub);
    SubSlice(s, first * ub, n * ub, i * ub, ub);
  }

  // ------------------------------------------------------------- the direct gather

  ghost predicate HasRows(s: seq<Byte>, ub: nat, perm: seq<int>) {
    forall i :: 0 <= i < |perm| ==> HasRow(s, ub, perm[i])
  }

  /** Units perm[0], perm[1], ... of `src`, one after the other. */
  function PermuteUnits(src: seq<Byte>, perm: seq<int>, ub: nat): (r: seq<Byte>)
    requires HasRows(src, ub, perm)
    ensures |r| == |perm| * ub
  {
    if perm == [] then [] else
      MulSucc(|perm| - 1, ub);
      PermuteUnits(src, perm[..|perm| - 1], ub) + Row(src, ub, perm[|perm| - 1])
  }

  /** Unit i of the result is unit perm[i] of the source. */
  lemma {:induction false} PermutedRow(src: seq<Byte>, perm: seq<int>, ub: nat, i: int)
    requires HasRows(src, ub, perm) && 0 <= i < |perm|
    ensures HasRow(PermuteUnits(src, perm, ub), ub, i)
    ensures Row(PermuteUnits(src, perm, ub), ub, i) == Row(src, ub, perm[i])
  {
    var n := |perm| - 1;
    var front := PermuteUnits(src, perm[..n], ub);
    if i < n {
      PermutedRow(src, perm[..n], ub, i);
      RowOfPrefix(front, Row(src, ub, perm[n]), ub, n, i);
    } else {
      RowAtEnd(front, Row(src, ub, perm[n]), ub, n);
    }
  }

  lemma {:induction false} SameRows(s: seq<Byte>, t: seq<Byte>, ub: nat, n: nat)
    requires |s| == |t| == n * ub
    requires forall i :: 0 <= i < n ==> HasRow(s, ub, i) && HasRow(t, ub, i) && Row(s, ub, i) == Row(t, ub, i)
    ensures s == t
  {
    if n > 0 {
      var k := n - 1;
      MulSucc(k, ub);
      MulLe(0, k, ub);
      var s0, t0 := s[..k * ub], t[..k * ub];
      forall i | 0 <= i < k ensures HasRow(s0, ub, i) && HasRow(t0, ub, i) && Row(s0, ub, i) == Row(t0, ub, i) {
        RowOfPrefix(s0, s[k * ub..], ub, k, i);
        RowOfPrefix(t0, t[k * ub..], ub, k, i);
        assert s == s0 + s[k * ub..] && t == t0 + t[k * ub..];
      }
      SameRows(s0, t0, ub, k);
      assert s == s0 + Row(s, ub, k) && t == t0 + Row(t, ub, k);
    }
  }

  ghost predicate IsIdentity(perm: seq<int>) {
    forall i :: 0 <= i < |perm| ==> perm[i] == i
  }

  lemma IdentityGather(src: seq<Byte>, perm: seq<int>, ub: nat, first: nat, n: nat)
    requires IsIdentity(perm) && first + n <= |perm| && |perm| * ub <= |src|
    ensures HasRows(src, ub, perm[first..first + n]) && 0 <= first * ub <= first * ub + n * ub <= |src|
    ensures PermuteUnits(src, perm[first..first + n], ub) == src[first * ub..first * ub + n * ub]
  {
    MulLe(first + n, |perm|, ub);
    MulLe(0, first, ub);
    MulLe(0, n, ub);
    MulAdd(first, n, ub);
    hide Row, HasRow;
    var p := perm[first..first + n];
    forall i | 0 <= i < n ensures HasRow(src, ub, p[i]) {
      RowsFit(src, ub, |perm|, first + i);
    }
    var r, cut := PermuteUnits(src, p, ub), src[first * ub..first * ub + n * ub];
    forall i | 0 <= i < n ensures HasRow(r, ub, i) && HasRow(cut, ub, i) && Row(r, ub, i) == Row(cut, ub, i) {
      PermutedRow(src, p, ub, i);
      RowOfSlice(src, ub, first, n, i);
    }
    SameRows(r, cut, ub, n);
  }

  /** permute_units: the destination is overwritten by the gathered units. */
  method PermuteInto(dst: array<Byte>, src: seq<Byte>, perm: seq<int>, ub: nat)
    requires HasRows(src, ub, perm) && dst.Length == |perm| * ub
    modifies dst
    ensures dst[..] == PermuteUnits(src, perm, ub)
  {
    var i := 0;
    while i < |perm|
      invariant 0 <= i <= |perm| && 0 <= i * ub <= dst.Length && dst[..i * ub] == PermuteUnits(src, perm[..i], ub)
    {
      MulSucc(i, ub);
      MulLe(i + 1, |perm|, ub);
      CopyRow(dst, i * ub, Row(src, ub, perm[i]));
      assert perm[..i + 1][..i] == perm[..i];
      i := i + 1;
    }
    assert perm[..i] == perm;
    assert dst[..i * ub] == dst[..];
  }

  method CopyRow(dst: array<Byte>, at: nat, bytes: seq<Byte>)
    requires at + |bytes| <= dst.Length
    modifies dst
    ensures dst[..at + |bytes|] == old(dst[..at]) + bytes && dst[at + |bytes|..] == old(dst[at + |bytes|..])
  {
    forall k | 0 <= k < |bytes| { dst[at + k] := bytes[k]; }
    forall i | at <= i < at + |bytes| ensures dst[i] == bytes[i - at] {
      assert dst[at + (i - at)] == bytes[i - at];
    }
  }

  // ------------------------------------------------------------- columns

  /** q only names items of its own row, which is ub = |q| * cub bytes. */
  ghost predicate ColumnsFit(ub: nat, q: seq<int>, cub: nat) {
    ub == |q| * cub && forall i :: 0 <= i < |q| ==> 0 <= q[i] < |q|
  }

  lemma ColumnsRow(row: seq<Byte>, ub: nat, q: seq<int>, cub: nat)
    requires |row| == ub && ColumnsFit(ub, q, cub)
    ensures HasRows(row, cub, q)
  {
    forall i | 0 <= i < |q| ensures HasRow(row, cub, q[i]) {
      RowsFit(row, cub, |q|, q[i]);
    }
  }

  /** One row permuted by q, in items of cub bytes. */
  function PermuteRow(row: seq<Byte>, ub: nat, q: seq<int>, cub: nat): (r: seq<Byte>)
    requires |row| == ub && ColumnsFit(ub, q, cub)
    ensures |r| == ub
  {
    ColumnsRow(row, ub, q, cub);
    PermuteUnits(row, q, cub)
  }

  /** Every row permuted by q. */
  function ColumnPermute(src: seq<Byte>, rows: nat, ub: nat, q: seq<int>, cub: nat): (r: seq<Byte>)
    requires |src| == rows * ub && ColumnsFit(ub, q, cub)
    ensures |r| == |src|
  {
    if rows == 0 then [] else
      MulSucc(rows - 1, ub);
      MulLe(0, rows - 1, ub);
      var at := (rows - 1) * ub;
      ColumnPermute(src[..at], rows - 1, ub, q, cub) + PermuteRow(src[at..], ub, q, cub)
  }

  lemma {:induction false} ColumnRow(src: seq<Byte>, rows: nat, ub: nat, q: seq<int>, cub: nat, i: int)
    requires |src| == rows * ub && ColumnsFit(ub, q, cub) && 0 <= i < rows
    ensures HasRow(src, ub, i) && HasRow(ColumnPermute(src, rows, ub, q, cub), ub, i)
    ensures Row(ColumnPermute(src, rows, ub, q, cub), ub, i) == PermuteRow(Row(src, ub, i), ub, q, cub)
  {
    hide ColumnsFit, PermuteRow, ColumnPermute, Row, HasRow;
    RowsFit(src, ub, rows, i);
    MulSucc(rows - 1, ub);
    MulLe(0, rows - 1, ub);
    var at := (rows - 1) * ub;
    var head, tail := src[..at], src[at..];
    assert src == head + tail;
    var front, last := ColumnPermute(head, rows - 1, ub, q, cub), PermuteRow(tail, ub, q, cub);
    ColumnPermuteNext(src, rows, ub, q, cub, at);
    if i < rows - 1 {
      ColumnRow(head, rows - 1, ub, q, cub, i);
      RowOfPrefix(front, last, ub, rows - 1, i);
      RowOfPrefix(head, tail, ub, rows - 1, i);
    } else {
      RowAtEnd(front, last, ub, rows - 1);
      RowAtEnd(head, tail, ub, rows - 1);
    }
  }

  lemma ColumnPermuteNext(src: seq<Byte>, rows: nat, ub: nat, q: seq<int>, cub: nat, at: nat)
    requires |src| == rows * ub && ColumnsFit(ub, q, cub) && rows > 0
    requires at == (rows - 1) * ub && at + ub == rows * ub
    ensures |src[..at]| == at && |src[at..]| == ub
    ensures ColumnPermute(src, rows, ub, q, cub)
         == ColumnPermute(src[..at], rows - 1, ub, q, cub) + PermuteRow(src[at..], ub, q, cub)
  {
    hide ColumnsFit, PermuteRow;
  }

  /** Row gather and column permutation commute: the writer permutes columns first, the reader last. */
  lemma RowsAndColumnsCommute(src: seq<Byte>, rows: nat, perm: seq<int>, ub: nat, q: seq<int>, cub: nat)
    requires |src| == rows * ub && ColumnsFit(ub, q, cub) && forall i :: 0 <= i < |perm| ==> 0 <= perm[i] < rows
    ensures HasRows(src, ub, perm) && HasRows(ColumnPermute(src, rows, ub, q, cub), ub, perm)
    ensures ColumnPermute(PermuteUnits(src, perm, ub), |perm|, ub, q, cub)
         == PermuteUnits(ColumnPermute(src, rows, ub, q, cub), perm, ub)
  {
    hide ColumnsFit, PermuteRow;
    var moved := ColumnPermute(src, rows, ub, q, cub);
    forall i | 0 <= i < |perm| ensures HasRow(src, ub, perm[i]) && HasRow(moved, ub, perm[i]) {
      RowsFit(src, ub, rows, perm[i]);
    }
    var gathered := PermuteUnits(src, perm, ub);
    var a, b := ColumnPermute(gathered, |perm|, ub, q, cub), PermuteUnits(moved, perm, ub);
    forall i | 0 <= i < |perm| ensures HasRow(a, ub, i) && HasRow(b, ub, i) && Row(a, ub, i) == Row(b, ub, i) {
      ColumnRow(gathered, |perm|, ub, q, cub, i);
      PermutedRow(src, perm, ub, i);
      PermutedRow(moved, perm, ub, i);
      ColumnRow(src, rows, ub, q, cub, perm[i]);
    }
    SameRows(a, b, ub, |perm|);
  }

  /** Permuting the columns of a slice of rows is slicing the permuted tensor. */
  lemma ColumnPermuteSlice(src: seq<Byte>, rows: nat, ub: nat, q: seq<int>, cub: nat, first: nat, n: nat)
    requires |src| == rows * ub && ColumnsFit(ub, q, cub) && first + n <= rows
    ensures 0 <= first * ub <= first * ub + n * ub <= |src|
    ensures ColumnPermute(src[first * ub..first * ub + n * ub], n, ub, q, cub)
         == ColumnPermute(src, rows, ub, q, cub)[first * ub..first * ub + n * ub]
  {
    hide ColumnsFit, PermuteRow;
    MulLe(0, first, ub);
    MulLe(0, n, ub);
    MulAdd(first, n, ub);
    MulLe(first + n, rows, ub);
    var cut, whole := src[first * ub..first * ub + n * ub], ColumnPermute(src, rows, ub, q, cub);
    var a, b := ColumnPermute(cut, n, ub, q, cub), whole[first * ub..first * ub + n * ub];
    forall i | 0 <= i < n ensures HasRow(a, ub, i) && HasRow(b, ub, i) && Row(a, ub, i) == Row(b, ub, i) {
      ColumnRow(cut, n, ub, q, cub, i);
      RowOfSlice(src, ub, first, n, i);
      RowOfSlice(whole, ub, first, n, i);
      ColumnRow(src, rows, ub, q, cub, first + i);
    }
    SameRows(a, b, ub, n);
  }

  lemma IdentityColumns(src: seq<Byte>, rows: nat, ub: nat, q: seq<int>, cub: nat)
    requires |src| == rows * ub && ColumnsFit(ub, q, cub) && IsIdentity(q)
    ensures ColumnPermute(src, rows, ub, q, cub) == src
  {
    var r := ColumnPermute(src, rows, ub, q, cub);
    forall i | 0 <= i < rows ensures HasRow(r, ub, i) && HasRow(src, ub, i) && Row(r, ub, i) == Row(src, ub, i) {
      ColumnRow(src, rows, ub, q, cub, i);
      var row := Row(src, ub, i);
      IdentityGather(row, q, cub, 0, |q|);
      assert q[0..0 + |q|] == q;
      assert row[0 * cub..0 * cub + |q| * cub] == row;
    }
    SameRows(r, src, ub, rows);
  }

  /** The first r rows are permuted, the rest as they were. */
  ghost predicate ColumnsDone(was: seq<Byte>, now: seq<Byte>, r: nat, ub: nat, q: seq<int>, cub: nat)
    requires ColumnsFit(ub, q, cub)
  {
    && 0 <= r * ub <= |was| == |now|
    && now[..r * ub] == ColumnPermute(was[..r * ub], r, ub, q, cub)
    && now[r * ub..] == was[r * ub..]
  }

  lemma ColumnsStep(was: seq<Byte>, now: seq<Byte>, r: nat, ub: nat, q: seq<int>, cub: nat)
    requires ColumnsFit(ub, q, cub) && ColumnsDone(was, now, r, ub, q, cub) && (r + 1) * ub <= |was|
    ensures 0 <= r * ub && r * ub + ub <= |now|
    ensures ColumnsDone(was, now[..r * ub] + PermuteRow(now[r * ub..r * ub + ub], ub, q, cub) + now[r * ub + ub..],
        r + 1, ub, q, cub)
  {
    hide ColumnsFit, PermuteRow;
    MulSucc(r, ub);
    var at := r * ub;
    var row := now[at..at + ub];
    assert row == was[at..at + ub] by { assert row == now[at..][..ub] && was[at..at + ub] == was[at..][..ub]; }
    var next := now[..at] + PermuteRow(row, ub, q, cub) + now[at + ub..];
    assert was[..at + ub][..at] == was[..at] && was[..at + ub][at..] == row;
    assert next[..at + ub] == now[..at] + PermuteRow(row, ub, q, cub);
    assert next[at + ub..] == now[at..][ub..] && was[at + ub..] == was[at..][ub..];
  }

  method PermuteRowInPlace(out: array<Byte>, at: nat, ub: nat, q: seq<int>, cub: nat)
    requires at + ub <= out.Length && ColumnsFit(ub, q, cub)
    modifies out
    ensures out[..] == old(out[..at]) + PermuteRow(old(out[at..at + ub]), ub, q, cub) + old(out[at + ub..])
  {
    var scratch := new Byte[ub];
    var row := out[at..at + ub];
    ColumnsRow(row, ub, q, cub);
    PermuteInto(scratch, row, q, cub);
    CopyRow(out, at, scratch[..]);
    assert out[..] == out[..at + ub] + out[at + ub..];
  }

  /** The in-place loop over the rows of a buffer, through one scratch row. */
  method PermuteColumnsInPlace(out: array<Byte>, rows: nat, ub: nat, q: seq<int>, cub: nat)
    requires out.Length == rows * ub && ColumnsFit(ub, q, cub)
    modifies out
    ensures out[..] == ColumnPermute(old(out[..]), rows, ub, q, cub)
  {
    ghost var was := out[..];
    var r := 0;
    assert was[..0] == [];
    assert ColumnsDone(was, out[..], 0, ub, q, cub);
    hide ColumnsFit, ColumnPermute, PermuteRow;
    while r < rows
      invariant 0 <= r <= rows && ColumnsDone(was, out[..], r, ub, q, cub)
    {
      MulLe(r + 1, rows, ub);
      ColumnsStep(was, out[..], r, ub, q, cub);
      PermuteRowInPlace(out, r * ub, ub, q, cub);
      r := r + 1;
    }
    assert out[..] == out[..][..r * ub] && was == was[..r * ub];
  }
}

/** Byte-plane and bit-plane transposes of a frame, modules/codec/src/compress.cpp. Both keep a trailing part that
    does not fill a whole element (or group of eight) verbatim. */
module Transforms {
  import opened Common
  import opened Arith

  // ------------------------------------------------------------- byte planes

  /** Where entry i of an m-by-d row-major table sits. */
  lemma InTable(m: nat, d: nat, i: nat)
    requires i < m * d
    ensures d >= 1 && 0 <= i / d < m && 0 <= i % d < d && i == (i / d) * d + i % d
  {
    assert d == 0 ==> m * d == 0;
    RadixOrder(i / d, i % d, m, 0, d);
  }

  lemma WholePart(n: nat, e: nat)
    requires e >= 1
    ensures 0 <= (n / e) * e <= n
  {}

  /** All first bytes, then all second bytes, and so on; e-byte elements. */
  function SplitPlanes(src: seq<Byte>, e: nat): (r: seq<Byte>)
    ensures |r| == |src|
  {
    if e <= 1 then src else
      var n := |src| / e;
      seq(|src|, i requires 0 <= i < |src| => if i < e * n then SplitAt(src, e, i) else src[i])
  }

  function SplitAt(src: seq<Byte>, e: nat, i: nat): Byte
    requires e > 1 && i < e * (|src| / e)
  {
    var n := |src| / e;
    InTable(e, n, i);
    SlotInRange(n, e, i % n, i / n);
    WholePart(|src|, e);
    src[(i % n) * e + i / n]
  }

  function JoinPlanes(src: seq<Byte>, e: nat): (r: seq<Byte>)
    ensures |r| == |src|
  {
    if e <= 1 then src else
      var n := |src| / e;
      seq(|src|, i requires 0 <= i < |src| => if i < n * e then JoinAt(src, e, i) else src[i])
  }

  function JoinAt(src: seq<Byte>, e: nat, i: nat): Byte
    requires e > 1 && i < (|src| / e) * e
  {
    var n := |src| / e;
    InTable(n, e, i);
    SlotInRange(e, n, i % e, i / e);
    WholePart(|src|, e);
    src[(i % e) * n + i / e]
  }

  /** Joining undoes splitting, whatever the length and the element width. */
  lemma PlanesRoundTrip(src: seq<Byte>, e: nat)
    ensures JoinPlanes(SplitPlanes(src, e), e) == src
  {
    if e > 1 {
      var n := |src| / e;
      var s := SplitPlanes(src, e);
      WholePart(|src|, e);
      forall i | 0 <= i < n * e ensures JoinAt(s, e, i) == src[i] {
        InTable(n, e, i);
        SlotInRange(e, n, i % e, i / e);
        DivUnique(i % e, i / e, n);
      }
    }
  }

  /** The first k bytes of the split buffer are in place. */
  ghost predicate SplitDone(src: seq<Byte>, e: nat, dst: seq<Byte>, k: nat)
    requires e > 1 && |dst| == |src|
  {
    k <= e * (|src| / e) && forall i :: 0 <= i < k ==> dst[i] == SplitAt(src, e, i)
  }

  lemma SplitStep(src: seq<Byte>, e: nat, dst: seq<Byte>, plane: nat, k: nat)
    requires e > 1 && |dst| == |src| && plane < e && k < |src| / e && SplitDone(src, e, dst, plane * (|src| / e) + k)
    ensures 0 <= plane * (|src| / e) + k < |dst| && 0 <= k * e + plane < |src|
    ensures SplitDone(src, e, dst[plane * (|src| / e) + k := src[k * e + plane]], plane * (|src| / e) + k + 1)
  {
    var n := |src| / e;
    WholePart(|src|, e);
    SlotInRange(n, e, k, plane);
    SlotInRange(e, n, plane, k);
    DivUnique(plane, k, n);
  }

  lemma SplitFinish(src: seq<Byte>, e: nat, dst: seq<Byte>)
    requires e > 1 && |dst| == |src| && SplitDone(src, e, dst, e * (|src| / e))
    ensures 0 <= e * (|src| / e) <= |src|
    ensures dst[..e * (|src| / e)] + src[e * (|src| / e)..] == SplitPlanes(src, e)
  {
    WholePart(|src|, e);
  }

  method BytePlaneSplit(src: seq<Byte>, dst: array<Byte>, e: nat)
    requires dst.Length == |src|
    modifies dst
    ensures dst[..] == SplitPlanes(src, e)
  {
    if e <= 1 {
      forall i | 0 <= i < |src| { dst[i] := src[i]; }
      return;
    }
    var n := |src| / e;
    var plane := 0;
    assert SplitDone(src, e, dst[..], 0);
    hide SplitAt, SplitDone, SplitPlanes;
    while plane < e
      invariant 0 <= plane <= e && SplitDone(src, e, dst[..], plane * n)
    {
      var k := 0;
      while k < n
        invariant 0 <= k <= n && SplitDone(src, e, dst[..], plane * n + k)
      {
        SplitStep(src, e, dst[..], plane, k);
        ghost var was := dst[..];
        dst[plane * n + k] := src[k * e + plane];
        assert dst[..] == was[plane * n + k := src[k * e + plane]];
        k := k + 1;
      }
      MulSucc(plane, n);
      plane := plane + 1;
    }
    SplitFinish(src, e, dst[..]);
    CopyTail(src, dst, e * n);
  }

  /** The ragged tail is copied verbatim. */
  method CopyTail(src: seq<Byte>, dst: array<Byte>, from: nat)
    requires dst.Length == |src| && from <= |src|
    modifies dst
    ensures dst[..] == old(dst[..from]) + src[from..]
  {
    forall t | from <= t < |src| { dst[t] := src[t]; }
  }

  /** Byte i of the joined buffer is written once plane i % e has passed element i / e. */
  ghost predicate Joined(src: seq<Byte>, e: nat, dst: seq<Byte>, plane: nat, k: nat)
    requires e > 1 && |dst| == |src|
  {
    forall i :: 0 <= i < (|src| / e) * e && (i % e < plane || (i % e == plane && i / e < k)) ==>
        dst[i] == JoinAt(src, e, i)
  }

  lemma JoinStep(src: seq<Byte>, e: nat, dst: seq<Byte>, plane: nat, k: nat)
    requires e > 1 && |dst| == |src| && plane < e && k < |src| / e && Joined(src, e, dst, plane, k)
    ensures 0 <= k * e + plane < |dst| && 0 <= plane * (|src| / e) + k < |src|
    ensures Joined(src, e, dst[k * e + plane := src[plane * (|src| / e) + k]], plane, k + 1)
  {
    var n := |src| / e;
    WholePart(|src|, e);
    SlotInRange(n, e, k, plane);
    SlotInRange(e, n, plane, k);
    DivUnique(k, plane, e);
    var d := dst[k * e + plane := src[plane * n + k]];
    forall i | 0 <= i < n * e && (i % e < plane || (i % e == plane && i / e < k + 1))
      ensures d[i] == JoinAt(src, e, i)
    {
      InTable(n, e, i);
    }
  }

  lemma JoinNextPlane(src: seq<Byte>, e: nat, dst: seq<Byte>, plane: nat)
    requires e > 1 && |dst| == |src| && Joined(src, e, dst, plane, |src| / e)
    ensures Joined(src, e, dst, plane + 1, 0)
  {
    hide JoinAt;
    var n := |src| / e;
    forall i | 0 <= i < n * e && i % e < plane + 1 ensures dst[i] == JoinAt(src, e, i) {
      InTable(n, e, i);
    }
  }

  lemma JoinFinish(src: seq<Byte>, e: nat, dst: seq<Byte>)
    requires e > 1 && |dst| == |src| && Joined(src, e, dst, e, 0)
    ensures 0 <= (|src| / e) * e <= |src|
    ensures dst[..(|src| / e) * e] + src[(|src| / e) * e..] == JoinPlanes(src, e)
  {
    WholePart(|src|, e);
    var n := |src| / e;
    forall i | 0 <= i < n * e ensures dst[i] == JoinAt(src, e, i) { InTable(n, e, i); }
  }

  method JoinPlane(src: seq<Byte>, dst: array<Byte>, e: nat, plane: nat)
    requires dst.Length == |src| && e > 1 && plane < e && Joined(src, e, dst[..], plane, 0)
    modifies dst
    ensures Joined(src, e, dst[..], plane + 1, 0)
  {
    hide JoinAt, Joined;
    var n := |src| / e;
    var k := 0;
    while k < n
      invariant 0 <= k <= n && Joined(src, e, dst[..], plane, k)
    {
      JoinStep(src, e, dst[..], plane, k);
      ghost var was := dst[..];
      var at, from := k * e + plane, plane * n + k;
      dst[at] := src[from];
      assert dst[..] == was[at := src[from]];
      k := k + 1;
    }
    JoinNextPlane(src, e, dst[..], plane);
  }

  method BytePlaneJoin(src: seq<Byte>, dst: array<Byte>, e: nat)
    requires dst.Length == |src|
    modifies dst
    ensures dst[..] == JoinPlanes(src, e)
  {
    if e <= 1 {
      forall i | 0 <= i < |src| { dst[i] := src[i]; }
      return;
    }
    var plane := 0;
    assert Joined(src, e, dst[..], 0, 0);
    hide JoinAt, Joined, JoinPlanes;
    while plane < e
      invariant 0 <= plane <= e && Joined(src, e, dst[..], plane, 0)
    {
      JoinPlane(src, dst, e, plane);
      plane := plane + 1;
    }
    JoinFinish(src, e, dst[..]);
    CopyTail(src, dst, (|src| / e) * e);
  }
}

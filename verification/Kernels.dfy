/** The residual kernels as loops over a destination buffer: scalar, and blocked with a scalar tail. Each is proved to
    compute the frame functions of Residual, for every length. */
module Kernels {
  import opened Common
  import opened Arith
  import opened Zigzag
  import opened Residual

  method XorScalar(dst: array<Byte>, base: seq<Byte>, other: seq<Byte>)
    requires |base| == |other| == dst.Length
    modifies dst
    ensures dst[..] == Xor(base, other)
  {
    var i := 0;
    while i < dst.Length
      invariant 0 <= i <= dst.Length && forall t :: 0 <= t < i ==> dst[t] == base[t] ^ other[t]
    {
      dst[i] := base[i] ^ other[i];
      i := i + 1;
    }
  }

  /** 32 bytes per step, then a byte-wise tail. */
  method XorBlocked(dst: array<Byte>, base: seq<Byte>, other: seq<Byte>)
    requires |base| == |other| == dst.Length
    modifies dst
    ensures dst[..] == Xor(base, other)
  {
    var n, i := dst.Length, 0;
    while i + 32 <= n
      invariant 0 <= i <= n && forall t :: 0 <= t < i ==> dst[t] == base[t] ^ other[t]
    {
      forall lane | 0 <= lane < 32 { dst[i + lane] := base[i + lane] ^ other[i + lane]; }
      forall t | i <= t < i + 32 ensures dst[t] == base[t] ^ other[t] {
        assert dst[i + (t - i)] == base[i + (t - i)] ^ other[i + (t - i)];
      }
      i := i + 32;
    }
    while i < n
      invariant 0 <= i <= n && forall t :: 0 <= t < i ==> dst[t] == base[t] ^ other[t]
    {
      dst[i] := base[i] ^ other[i];
      i := i + 1;
    }
  }

  /** Elements before `done` hold the applied residual, the rest of the buffer is as it was. */
  ghost predicate Applied(w: nat, base: seq<Byte>, resid: seq<Byte>, was: seq<Byte>, now: seq<Byte>, done: nat)
    requires Width(w) && |base| == |resid| == |was|
  {
    && |now| == |was|
    && forall i :: 0 <= i < |was| ==> now[i] == (if i < done * w then ZigzagApply(w, base, resid, was)[i] else was[i])
  }

  /** Storing one more element. */
  lemma ApplyOne(w: nat, base: seq<Byte>, resid: seq<Byte>, was: seq<Byte>, now: seq<Byte>, e: nat, bytes: seq<Byte>)
    requires Width(w) && |base| == |resid| == |was| && e < |was| / w && Applied(w, base, resid, was, now, e)
    requires bytes == ApplyElem(w, Elem(base, w, e), Elem(resid, w, e))
    ensures 0 <= e * w && e * w + w <= |now|
    ensures Applied(w, base, resid, was, now[..e * w] + bytes + now[e * w + w..], e + 1)
  {
    hide ApplyElem;
    WholeElems(|was|, w, e);
    MulSucc(e, w);
    var next := now[..e * w] + bytes + now[e * w + w..];
    var full := ZigzagApply(w, base, resid, was);
    forall i | 0 <= i < |was| ensures next[i] == (if i < (e + 1) * w then full[i] else was[i]) {
      if e * w <= i < e * w + w {
        DivUnique(e, i - e * w, w);
      }
    }
  }

  method StoreElem(dst: array<Byte>, at: nat, bytes: seq<Byte>)
    requires at + |bytes| <= dst.Length
    modifies dst
    ensures dst[..] == old(dst[..at]) + bytes + old(dst[at + |bytes|..])
  {
    forall k | 0 <= k < |bytes| { dst[at + k] := bytes[k]; }
    forall i | at <= i < at + |bytes| ensures dst[i] == bytes[i - at] {
      assert dst[at + (i - at)] == bytes[i - at];
    }
  }

  /** The scalar kernel on elements [first, count). */
  method ZigzagScalar(w: nat, dst: array<Byte>, base: seq<Byte>, resid: seq<Byte>, first: nat, ghost was: seq<Byte>)
    requires Width(w) && |base| == |resid| == |was| == dst.Length && first <= |was| / w
    requires Applied(w, base, resid, was, dst[..], first)
    modifies dst
    ensures Applied(w, base, resid, was, dst[..], |was| / w)
  {
    hide Applied, ApplyElem;
    var e, count := first, dst.Length / w;
    while e < count
      invariant first <= e <= count && Applied(w, base, resid, was, dst[..], e)
    {
      var bytes := ApplyElem(w, Elem(base, w, e), Elem(resid, w, e));
      ApplyOne(w, base, resid, was, dst[..], e, bytes);
      StoreElem(dst, e * w, bytes);
      e := e + 1;
    }
  }

  /** The difference in one 16-bit lane of the vector kernel: its sign mask is 0 - (z & 1). */
  function LaneDelta(z: bv16): bv16 {
    (z >> 1) ^ (0 - (z & 1))
  }

  lemma LaneIsScalar(z: bv16)
    ensures LaneDelta(z) == Decode16(z)
  {}

  function LaneBytes(b: seq<Byte>, z: seq<Byte>): (r: seq<Byte>)
    requires |b| == |z| == 2
    ensures r == ApplyElem(2, b, z)
  {
    LaneIsScalar(Join16(z[0], z[1]));
    Split16(Plus16(Join16(b[0], b[1]), LaneDelta(Join16(z[0], z[1]))))
  }

  /** 16 two-byte lanes per step, then the scalar kernel on what is left. */
  method ZigzagBlocked16(dst: array<Byte>, base: seq<Byte>, resid: seq<Byte>)
    requires |base| == |resid| == dst.Length
    modifies dst
    ensures dst[..] == ZigzagApply(2, base, resid, old(dst[..]))
  {
    hide ApplyElem;
    ghost var was := dst[..];
    var i, count := 0, dst.Length / 2;
    while i + 16 <= count
      invariant 0 <= i <= count && Applied(2, base, resid, was, dst[..], i)
    {
      var lane := 0;
      while lane < 16
        invariant 0 <= lane <= 16 && Applied(2, base, resid, was, dst[..], i + lane)
      {
        var e := i + lane;
        var bytes := LaneBytes(Elem(base, 2, e), Elem(resid, 2, e));
        ApplyOne(2, base, resid, was, dst[..], e, bytes);
        StoreElem(dst, e * 2, bytes);
        lane := lane + 1;
      }
      i := i + 16;
    }
    ZigzagScalar(2, dst, base, resid, i, was);
  }

  /** The dispatched kernel: blocked for two-byte elements, scalar otherwise. */
  method ZigzagDispatch(w: nat, dst: array<Byte>, base: seq<Byte>, resid: seq<Byte>)
    requires Width(w) && |base| == |resid| == dst.Length
    modifies dst
    ensures dst[..] == ZigzagApply(w, base, resid, old(dst[..]))
  {
    if w == 2 {
      ZigzagBlocked16(dst, base, resid);
    } else {
      ghost var was := dst[..];
      assert Applied(w, base, resid, was, dst[..], 0);
      ZigzagScalar(w, dst, base, resid, 0, was);
    }
  }
}

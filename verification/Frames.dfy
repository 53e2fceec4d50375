/** One residual frame: residual, then transform, on the way in; the reverse on the way out
    (modules/codec/src/residual_codec.cpp, modules/codec/src/diff_encoder.cpp). */
module Frames {
  import opened Common
  import opened Arith
  import opened Residual
  import opened Kernels
  import opened Transforms
  import opened BitPlanes
  import opened Records

  function Transformed(t: Transform, w: nat, x: seq<Byte>): (r: seq<Byte>)
    ensures |r| == |x|
  {
    match t
    case NoTransform => x
    case BytePlane => SplitPlanes(x, w)
    case Bitshuffle => Shuffle(x, w)
  }

  function Untransformed(t: Transform, w: nat, x: seq<Byte>): (r: seq<Byte>)
    ensures |r| == |x|
  {
    match t
    case NoTransform => x
    case BytePlane => JoinPlanes(x, w)
    case Bitshuffle => Unshuffle(x, w)
  }

  function EncodeResidual(kind: ResidualKind, w: nat, base: seq<Byte>, target: seq<Byte>): (r: seq<Byte>)
    requires Width(w) && |base| == |target|
    ensures |r| == |target|
  {
    match kind
    case Plain => target
    case XorAfterPermute => Xor(base, target)
    case ZigzagAfterPermute => ZigzagEncode(w, base, target, Zeros(|target|))
  }

  function ApplyResidual(kind: ResidualKind, t: Transform, w: nat, base: seq<Byte>,
      resid: seq<Byte>): (r: Result<seq<Byte>>)
    requires Width(w)
    ensures r.Ok? ==> |r.value| == |resid|
  {
    var payload := Untransformed(t, w, resid);
    match kind
    case Plain => Ok(payload)
    case XorAfterPermute => if |base| != |payload| then Err(MalformedObject) else Ok(Xor(base, payload))
    case ZigzagAfterPermute =>
      if |base| != |payload| || |payload| % w != 0 then Err(MalformedObject) else
          Ok(ZigzagApply(w, base, payload, Zeros(|payload|)))
  }

  /** Decoding a frame against the base it was encoded against gives the target bytes. */
  lemma FrameRoundTrip(kind: ResidualKind, t: Transform, w: nat, base: seq<Byte>, target: seq<Byte>)
    requires Width(w) && |base| == |target| && (kind.ZigzagAfterPermute? ==> |target| % w == 0)
    ensures ApplyResidual(kind, t, w, base, Transformed(t, w, EncodeResidual(kind, w, base, target))) == Ok(target)
  {
    var x := EncodeResidual(kind, w, base, target);
    hide ZigzagApply, ZigzagEncode, Xor, SplitPlanes, JoinPlanes, Shuffle, Unshuffle;
    PlanesRoundTrip(x, w);
    BitsRoundTrip(x, w);
    XorRoundTrip(base, target);
    if kind.ZigzagAfterPermute? {
      ZigzagRoundTrip(w, base, target, Zeros(|target|), Zeros(|target|));
    }
  }

  /** With no partial element, nothing of the old destination survives. */
  lemma ZigzagOverwrites(w: nat, base: seq<Byte>, resid: seq<Byte>, dst: seq<Byte>)
    requires Width(w) && |base| == |resid| == |dst| && |dst| % w == 0
    ensures ZigzagApply(w, base, resid, dst) == ZigzagApply(w, base, resid, Zeros(|dst|))
  {
    hide ApplyElem;
  }

  method UndoTransform(t: Transform, w: nat, resid: seq<Byte>) returns (payload: seq<Byte>)
    ensures payload == Untransformed(t, w, resid)
  {
    if t.NoTransform? {
      return resid;
    }
    var buf := new Byte[|resid|];
    if t.BytePlane? {
      BytePlaneJoin(resid, buf, w);
    } else {
      BitUnshuffle(resid, buf, w);
    }
    payload := buf[..];
  }

  /** apply_residual, through the dispatched kernels. */
  method ApplyResidualInto(kind: ResidualKind, t: Transform, w: nat, base: seq<Byte>, resid: seq<Byte>,
      out: array<Byte>)
    returns (failed: Option<Error>)
    requires Width(w)
    modifies out
    ensures out.Length != |resid| ==> failed == Some(Internal)
    ensures out.Length == |resid| ==>
        ApplyResidual(kind, t, w, base, resid) == (if failed.None? then Ok(out[..]) else Err(failed.value))
  {
    if out.Length != |resid| {
      return Some(Internal);
    }
    hide Untransformed, ZigzagApply, Xor;
    var payload := UndoTransform(t, w, resid);
    match kind {
      case Plain =>
        forall i | 0 <= i < out.Length { out[i] := payload[i]; }
        assert out[..] == payload;
      case XorAfterPermute =>
        if |base| != |payload| {
          return Some(MalformedObject);
        }
        XorBlocked(out, base, payload);
      case ZigzagAfterPermute =>
        if |base| != |payload| || |payload| % w != 0 {
          return Some(MalformedObject);
        }
        ZigzagOverwrites(w, base, payload, out[..]);
        ZigzagDispatch(w, out, base, payload);
    }
    return None;
  }

  /** zigzag_encode: one element a step. */
  method ZigzagEncodeInto(w: nat, dst: array<Byte>, base: seq<Byte>, target: seq<Byte>)
    requires Width(w) && |base| == |target| == dst.Length
    modifies dst
    ensures dst[..] == ZigzagEncode(w, base, target, old(dst[..]))
  {
    ghost var was := dst[..];
    ghost var full := ZigzagEncode(w, base, target, was);
    var e, count := 0, dst.Length / w;
    assert PartlyWritten(full, was, dst[..], 0);
    hide EncodeElem, ZigzagEncode, PartlyWritten;
    while e < count
      invariant 0 <= e <= count && PartlyWritten(full, was, dst[..], e * w)
    {
      var bytes := EncodeElem(w, Elem(base, w, e), Elem(target, w, e));
      EncodedElem(w, base, target, was, e);
      WholeElems(dst.Length, w, e);
      MulSucc(e, w);
      WriteOne(full, was, dst[..], e * w, bytes);
      StoreElem(dst, e * w, bytes);
      e := e + 1;
    }
    EncodeFinish(w, base, target, was, dst[..]);
  }

  ghost predicate PartlyWritten(full: seq<Byte>, was: seq<Byte>, now: seq<Byte>, n: nat) {
    |full| == |was| == |now| && n <= |now| && now[..n] == full[..n] && now[n..] == was[n..]
  }

  lemma WriteOne(full: seq<Byte>, was: seq<Byte>, now: seq<Byte>, n: nat, bytes: seq<Byte>)
    requires PartlyWritten(full, was, now, n) && n + |bytes| <= |now| && bytes == full[n..n + |bytes|]
    ensures PartlyWritten(full, was, now[..n] + bytes + now[n + |bytes|..], n + |bytes|)
  {
    var m := n + |bytes|;
    assert full[..m] == full[..n] + bytes;
    assert now[m..] == now[n..][|bytes|..] && was[m..] == was[n..][|bytes|..];
  }

  lemma EncodeFinish(w: nat, base: seq<Byte>, target: seq<Byte>, was: seq<Byte>, now: seq<Byte>)
    requires Width(w) && |base| == |target| == |was|
    requires PartlyWritten(ZigzagEncode(w, base, target, was), was, now, (|was| / w) * w)
    ensures now == ZigzagEncode(w, base, target, was)
  {
    var n, full := (|was| / w) * w, ZigzagEncode(w, base, target, was);
    assert forall i :: n <= i < |was| ==> full[i] == was[i];
    assert now == now[..n] + now[n..] && full == full[..n] + full[n..];
  }

  /** The writer's residual, through the kernels. */
  method EncodeResidualLoop(kind: ResidualKind, w: nat, base: seq<Byte>, target: seq<Byte>) returns (r: seq<Byte>)
    requires Width(w) && |base| == |target|
    ensures r == EncodeResidual(kind, w, base, target)
  {
    if kind.Plain? {
      return target;
    }
    var buf := new Byte[|target|](_ => 0);
    assert buf[..] == Zeros(|target|);
    if kind.XorAfterPermute? {
      XorBlocked(buf, base, target);
    } else {
      ZigzagEncodeInto(w, buf, base, target);
    }
    r := buf[..];
  }

  method DoTransform(t: Transform, w: nat, resid: seq<Byte>) returns (r: seq<Byte>)
    ensures r == Transformed(t, w, resid)
  {
    if t.NoTransform? {
      return resid;
    }
    var buf := new Byte[|resid|];
    if t.BytePlane? {
      BytePlaneSplit(resid, buf, w);
    } else {
      BitShuffle(resid, buf, w);
    }
    r := buf[..];
  }
}

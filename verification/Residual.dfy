/** Residual frames: XOR and zigzag over the integer view of the bytes, the scalar kernels and the blocked kernels
    that must agree with them. */
module Residual {
  import opened Common
  import opened Arith
  import opened Zigzag

  /** Element widths in bytes. */
  predicate Width(w: nat) { w == 1 || w == 2 || w == 4 || w == 8 }

  // ------------------------------------------------------------- one element

  /** Zigzag code of target - base, both little-endian w-byte integers. */
  function EncodeElem(w: nat, b: seq<Byte>, t: seq<Byte>): (r: seq<Byte>)
    requires Width(w) && |b| == |t| == w
    ensures |r| == w
  {
    match w
    case 1 => Split8(Code8(Minus8(Join8(t[0]), Join8(b[0]))))
    case 2 => Split16(Code16(Minus16(Join16(t[0], t[1]), Join16(b[0], b[1]))))
    case 4 => Split32(Code32(Minus32(Join32(t[0], t[1], t[2], t[3]), Join32(b[0], b[1], b[2], b[3]))))
    case _ => Split64(Code64(Minus64(Join64(t[0], t[1], t[2], t[3], t[4], t[5], t[6], t[7]),
                                    Join64(b[0], b[1], b[2], b[3], b[4], b[5], b[6], b[7]))))
  }

  /** base plus the difference that the code stands for. */
  function ApplyElem(w: nat, b: seq<Byte>, z: seq<Byte>): (r: seq<Byte>)
    requires Width(w) && |b| == |z| == w
    ensures |r| == w
  {
    match w
    case 1 => Split8(Plus8(Join8(b[0]), Decode8(Join8(z[0]))))
    case 2 => Split16(Plus16(Join16(b[0], b[1]), Decode16(Join16(z[0], z[1]))))
    case 4 => Split32(Plus32(Join32(b[0], b[1], b[2], b[3]), Decode32(Join32(z[0], z[1], z[2], z[3]))))
    case _ => Split64(Plus64(Join64(b[0], b[1], b[2], b[3], b[4], b[5], b[6], b[7]),
                             Decode64(Join64(z[0], z[1], z[2], z[3], z[4], z[5], z[6], z[7]))))
  }

  lemma ElemRoundTrip8(b: seq<Byte>, t: seq<Byte>)
    requires |b| == |t| == 1
    ensures ApplyElem(1, b, EncodeElem(1, b, t)) == t
  {
    hide Code8, Decode8, Plus8, Minus8, Split8, Join8;
    var x, y := Join8(b[0]), Join8(t[0]);
    JoinSplit8(Code8(Minus8(y, x)));
    RoundTrip8(x, y);
    SplitJoin8(t[0]);
    assert t == [t[0]];
  }

  lemma ElemRoundTrip16(b: seq<Byte>, t: seq<Byte>)
    requires |b| == |t| == 2
    ensures ApplyElem(2, b, EncodeElem(2, b, t)) == t
  {
    hide Code16, Decode16, Plus16, Minus16, Split16, Join16;
    var x, y := Join16(b[0], b[1]), Join16(t[0], t[1]);
    JoinSplit16(Code16(Minus16(y, x)));
    RoundTrip16(x, y);
    SplitJoin16(t[0], t[1]);
    assert t == [t[0], t[1]];
  }

  lemma ElemRoundTrip32(b: seq<Byte>, t: seq<Byte>)
    requires |b| == |t| == 4
    ensures ApplyElem(4, b, EncodeElem(4, b, t)) == t
  {
    hide Code32, Decode32, Plus32, Minus32, Split32, Join32;
    var x, y := Join32(b[0], b[1], b[2], b[3]), Join32(t[0], t[1], t[2], t[3]);
    JoinSplit32(Code32(Minus32(y, x)));
    RoundTrip32(x, y);
    SplitJoin32(t[0], t[1], t[2], t[3]);
    assert t == [t[0], t[1], t[2], t[3]];
  }

  lemma ElemRoundTrip64(b: seq<Byte>, t: seq<Byte>)
    requires |b| == |t| == 8
    ensures ApplyElem(8, b, EncodeElem(8, b, t)) == t
  {
    hide Code64, Decode64, Plus64, Minus64, Split64, Join64;
    var x, y := Join64(b[0], b[1], b[2], b[3], b[4], b[5], b[6], b[7]),
        Join64(t[0], t[1], t[2], t[3], t[4], t[5], t[6], t[7]);
    JoinSplit64(Code64(Minus64(y, x)));
    RoundTrip64(x, y);
    SplitJoin64(t[0], t[1], t[2], t[3], t[4], t[5], t[6], t[7]);
    assert t == [t[0], t[1], t[2], t[3], t[4], t[5], t[6], t[7]];
  }

  lemma ElemRoundTrip(w: nat, b: seq<Byte>, t: seq<Byte>)
    requires Width(w) && |b| == |t| == w
    ensures ApplyElem(w, b, EncodeElem(w, b, t)) == t
  {
    hide EncodeElem, ApplyElem;
    match w
    case 1 => ElemRoundTrip8(b, t);
    case 2 => ElemRoundTrip16(b, t);
    case 4 => ElemRoundTrip32(b, t);
    case _ => ElemRoundTrip64(b, t);
  }

  // ------------------------------------------------------------------ frames

  /** Element e of a buffer of w-byte elements. */
  function Elem(s: seq<Byte>, w: nat, e: nat): (r: seq<Byte>)
    requires w >= 1 && e < |s| / w
    ensures |r| == w
  {
    WholeElems(|s|, w, e);
    s[e * w..e * w + w]
  }

  lemma WholeElems(n: nat, w: nat, e: nat)
    requires w >= 1 && e < n / w
    ensures 0 <= e * w && e * w + w <= (n / w) * w <= n
  {
    MulLe(0, e, w);
    MulLe(e + 1, n / w, w);
    MulSucc(e, w);
  }

  lemma InElem(n: nat, w: nat, i: nat)
    requires w >= 1 && i < (n / w) * w
    ensures 0 <= i / w < n / w && 0 <= i % w < w && i == (i / w) * w + i % w
  {
    RadixOrder(i / w, i % w, n / w, 0, w);
  }

  /** `dst` with every whole element overwritten by the code of its difference. */
  function ZigzagEncode(w: nat, base: seq<Byte>, target: seq<Byte>, dst: seq<Byte>): (r: seq<Byte>)
    requires Width(w) && |base| == |target| == |dst|
    ensures |r| == |dst|
  {
    seq(|dst|, i requires 0 <= i < |dst| =>
      if i < (|dst| / w) * w then
        InElem(|dst|, w, i); EncodeElem(w, Elem(base, w, i / w), Elem(target, w, i / w))[i % w]
      else dst[i])
  }

  function ZigzagApply(w: nat, base: seq<Byte>, resid: seq<Byte>, dst: seq<Byte>): (r: seq<Byte>)
    requires Width(w) && |base| == |resid| == |dst|
    ensures |r| == |dst|
  {
    seq(|dst|, i requires 0 <= i < |dst| =>
      if i < (|dst| / w) * w then
        InElem(|dst|, w, i); ApplyElem(w, Elem(base, w, i / w), Elem(resid, w, i / w))[i % w]
      else dst[i])
  }

  lemma EncodedElem(w: nat, base: seq<Byte>, target: seq<Byte>, dst: seq<Byte>, e: nat)
    requires Width(w) && |base| == |target| == |dst| && e < |dst| / w
    ensures Elem(ZigzagEncode(w, base, target, dst), w, e) == EncodeElem(w, Elem(base, w, e), Elem(target, w, e))
  {
    hide EncodeElem;
    var r := ZigzagEncode(w, base, target, dst);
    WholeElems(|dst|, w, e);
    forall k | 0 <= k < w ensures r[e * w + k] == EncodeElem(w, Elem(base, w, e), Elem(target, w, e))[k] {
      DivUnique(e, k, w);
    }
  }

  /** Applying a zigzag residual to its base gives back the target, for every element width. */
  lemma ZigzagRoundTrip(w: nat, base: seq<Byte>, target: seq<Byte>, scratch: seq<Byte>, dst: seq<Byte>)
    requires Width(w) && |base| == |target| == |scratch| == |dst| && |target| % w == 0
    ensures ZigzagApply(w, base, ZigzagEncode(w, base, target, scratch), dst) == target
  {
    hide EncodeElem, ApplyElem;
    var resid := ZigzagEncode(w, base, target, scratch);
    var r := ZigzagApply(w, base, resid, dst);
    forall i | 0 <= i < |target| ensures r[i] == target[i] {
      InElem(|target|, w, i);
      var e := i / w;
      EncodedElem(w, base, target, scratch, e);
      ElemRoundTrip(w, Elem(base, w, e), Elem(target, w, e));
      WholeElems(|target|, w, e);
    }
  }

  function Xor(a: seq<Byte>, b: seq<Byte>): (r: seq<Byte>)
    requires |a| == |b|
    ensures |r| == |a|
  {
    seq(|a|, i requires 0 <= i < |a| => a[i] ^ b[i])
  }

  lemma XorByte(a: Byte, b: Byte)
    ensures a ^ (a ^ b) == b
  {}

  lemma XorRoundTrip(base: seq<Byte>, target: seq<Byte>)
    requires |base| == |target|
    ensures Xor(base, Xor(base, target)) == target
  {
    forall i | 0 <= i < |base| ensures Xor(base, Xor(base, target))[i] == target[i] {
      XorByte(base[i], target[i]);
    }
  }
}

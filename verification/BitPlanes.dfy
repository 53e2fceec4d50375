/** The bit-plane transpose of a frame, modules/codec/src/compress.cpp: bit `b` of every element, eight elements to a
    byte. Elements past the last whole group of eight, and a partial element, stay verbatim. */
module BitPlanes {
  import opened Common
  import opened Arith
  import opened Transforms

  // ------------------------------------------------------------- bits of a byte

  function Mask(k: nat): Byte
    requires k < 8
  {
    match k
    case 0 => 1
    case 1 => 2
    case 2 => 4
    case 3 => 8
    case 4 => 16
    case 5 => 32
    case 6 => 64
    case _ => 128
  }

  predicate Bit(x: Byte, k: nat)
    requires k < 8
  {
    x & Mask(k) != 0
  }

  /** Or a bit into a byte. */
  function OrBit(x: Byte, k: nat, v: bool): Byte
    requires k < 8
  {
    if v then x | Mask(k) else x
  }

  lemma MasksDisjoint(j: nat, k: nat)
    requires j < 8 && k < 8
    ensures Mask(j) != 0 && (j != k ==> Mask(j) & Mask(k) == 0)
  {}

  lemma OrMask(x: Byte, m: Byte, n: Byte)
    ensures (x | m) & n == (x & n) | (m & n)
  {}

  lemma BitOfOr(x: Byte, k: nat, v: bool, j: nat)
    requires j < 8 && k < 8
    ensures Bit(OrBit(x, k, v), j) <==> Bit(x, j) || (j == k && v)
  {
    hide Mask;
    MasksDisjoint(j, k);
    MasksDisjoint(k, j);
    OrMask(x, Mask(k), Mask(j));
    OrMaskZero(x & Mask(j), Mask(j));
  }

  lemma OrMaskZero(y: Byte, n: Byte)
    ensures y | 0 == y && n & n == n && (n != 0 ==> y | n != 0)
  {}

  lemma ByteOfBits(x: Byte, y: Byte)
    requires forall k :: 0 <= k < 8 ==> (Bit(x, k) <==> Bit(y, k))
    ensures x == y
  {
    assert Bit(x, 0) <==> Bit(y, 0);
    assert Bit(x, 1) <==> Bit(y, 1);
    assert Bit(x, 2) <==> Bit(y, 2);
    assert Bit(x, 3) <==> Bit(y, 3);
    assert Bit(x, 4) <==> Bit(y, 4);
    assert Bit(x, 5) <==> Bit(y, 5);
    assert Bit(x, 6) <==> Bit(y, 6);
    assert Bit(x, 7) <==> Bit(y, 7);
  }

  /** The byte with the first k of the listed bits. */
  function Pack(bits: seq<bool>, k: nat): Byte
    requires k <= |bits| == 8
  {
    if k == 0 then 0 else OrBit(Pack(bits, k - 1), k - 1, bits[k - 1])
  }

  lemma {:induction false} BitOfPack(bits: seq<bool>, k: nat, j: nat)
    requires k <= |bits| == 8 && j < 8
    ensures Bit(Pack(bits, k), j) <==> j < k && bits[j]
  {
    if k > 0 {
      BitOfPack(bits, k - 1, j);
      BitOfOr(Pack(bits, k - 1), k - 1, bits[k - 1], j);
    } else {
      assert 0 & Mask(j) == 0;
    }
  }

  // ------------------------------------------------------------- where a bit goes

  /** Byte `Target(e, plane, p, k)`, bit `(p / plane) % 8`, of the elements is bit k of plane byte p. */
  function Target(e: nat, plane: nat, p: nat, k: nat): nat
    requires plane > 0
  {
    ((p % plane) * 8 + k) * e + (p / plane) / 8
  }

  /** Bit b of element byte idx is bit `(idx / e) % 8` of plane byte `Origin(e, plane, idx, b)`. */
  function Origin(e: nat, plane: nat, idx: nat, b: nat): nat
    requires e > 0
  {
    ((idx % e) * 8 + b) * plane + (idx / e) / 8
  }

  function Size(e: nat, plane: nat): nat { 8 * e * plane }

  lemma SizeTables(e: nat, plane: nat)
    ensures Size(e, plane) == (8 * e) * plane == (8 * plane) * e
  {}

  lemma EightIndex(x: nat, m: nat)
    requires x < 8 * m
    ensures x / 8 < m && x == (x / 8) * 8 + x % 8
  {}

  lemma EightSlot(q: nat, r: nat, m: nat)
    requires q < m && r < 8
    ensures q * 8 + r < 8 * m && (q * 8 + r) / 8 == q && (q * 8 + r) % 8 == r
  {}

  /** Both maps stay inside the transposed part and undo each other. */
  lemma OriginThenTarget(e: nat, plane: nat, idx: nat, b: nat)
    requires e > 0 && idx < Size(e, plane) && b < 8
    ensures plane > 0 && Origin(e, plane, idx, b) < Size(e, plane)
    ensures Target(e, plane, Origin(e, plane, idx, b), (idx / e) % 8) == idx
    ensures (Origin(e, plane, idx, b) / plane) % 8 == b
  {
    SizeTables(e, plane);
    InTable(8 * plane, e, idx);
    var i, c := idx / e, idx % e;
    EightIndex(i, plane);
    EightSlot(c, b, e);
    SlotInRange(8 * e, plane, c * 8 + b, i / 8);
    DivUnique(c * 8 + b, i / 8, plane);
  }

  lemma TargetThenOrigin(e: nat, plane: nat, p: nat, k: nat)
    requires e > 0 && plane > 0 && p < Size(e, plane) && k < 8
    ensures Target(e, plane, p, k) < Size(e, plane)
    ensures (Target(e, plane, p, k) / e) % 8 == k
    ensures Origin(e, plane, Target(e, plane, p, k), (p / plane) % 8) == p
  {
    SizeTables(e, plane);
    InTable(8 * e, plane, p);
    var bit, g := p / plane, p % plane;
    EightIndex(bit, e);
    EightSlot(g, k, plane);
    SlotInRange(8 * plane, e, g * 8 + k, bit / 8);
    DivUnique(g * 8 + k, bit / 8, e);
  }

  // ------------------------------------------------------------- the transforms

  function Plane(len: nat, e: nat): nat
    requires e > 0
  {
    (len / e) / 8
  }

  lemma Fits(len: nat, e: nat)
    requires e > 0
    ensures Size(e, Plane(len, e)) <= len
  {
    var n := len / e;
    SizeTables(e, n / 8);
    MulLe(8 * (n / 8), n, e);
    WholePart(len, e);
  }

  function PackedBits(src: seq<Byte>, e: nat, p: nat): (r: seq<bool>)
    requires e > 0 && p < Size(e, Plane(|src|, e))
    ensures |r| == 8
  {
    Fits(|src|, e);
    var plane := Plane(|src|, e);
    seq(8, k requires 0 <= k < 8 => assert plane > 0 by { OriginThenTarget(e, plane, p, 0); } TargetThenOrigin(e,
        plane, p, k); Bit(src[Target(e, plane, p, k)], (p / plane) % 8))
  }

  function Shuffle(src: seq<Byte>, e: nat): (r: seq<Byte>)
    ensures |r| == |src|
  {
    if e == 0 then src else
      seq(|src|, p requires 0 <= p < |src| => if p < Size(e, Plane(|src|, e)) then Pack(PackedBits(src, e, p), 8) else
          src[p])
  }

  function OriginBits(src: seq<Byte>, e: nat, idx: nat): (r: seq<bool>)
    requires e > 0 && idx < Size(e, Plane(|src|, e))
    ensures |r| == 8
  {
    Fits(|src|, e);
    var plane := Plane(|src|, e);
    seq(8, b requires 0 <= b < 8 => OriginThenTarget(e, plane, idx, b); Bit(src[Origin(e, plane, idx, b)],
        (idx / e) % 8))
  }

  function Unshuffle(src: seq<Byte>, e: nat): (r: seq<Byte>)
    ensures |r| == |src|
  {
    if e == 0 then src else
      seq(|src|, i requires 0 <= i < |src| => if i < Size(e, Plane(|src|, e)) then Pack(OriginBits(src, e, i), 8) else
          src[i])
  }

  lemma BitBack(src: seq<Byte>, e: nat, idx: nat, b: nat)
    requires e > 0 && idx < Size(e, Plane(|src|, e)) && b < 8
    ensures idx < |src| && OriginBits(Shuffle(src, e), e, idx)[b] == Bit(src[idx], b)
  {
    Fits(|src|, e);
    var plane := Plane(|src|, e);
    OriginThenTarget(e, plane, idx, b);
    var p, k := Origin(e, plane, idx, b), (idx / e) % 8;
    hide Origin, Target, Size, Bit, Pack, Plane;
    var s := Shuffle(src, e);
    assert s[p] == Pack(PackedBits(src, e, p), 8);
    BitOfPack(PackedBits(src, e, p), 8, k);
  }

  /** Unshuffling undoes shuffling, whatever the length and the element width. */
  lemma BitsRoundTrip(src: seq<Byte>, e: nat)
    ensures Unshuffle(Shuffle(src, e), e) == src
  {
    if e > 0 {
      var s := Shuffle(src, e);
      Fits(|src|, e);
      forall idx | 0 <= idx < Size(e, Plane(|src|, e)) ensures Pack(OriginBits(s, e, idx), 8) == src[idx] {
        var x := Pack(OriginBits(s, e, idx), 8);
        forall b | 0 <= b < 8 ensures Bit(x, b) <==> Bit(src[idx], b) {
          BitOfPack(OriginBits(s, e, idx), 8, b);
          BitBack(src, e, idx, b);
        }
        ByteOfBits(x, src[idx]);
      }
    }
  }

  // ------------------------------------------------------------- the loops

  /** Plane byte p = bit * plane + g, in the loop's own coordinates. */
  lemma PlaneByte(e: nat, plane: nat, bit: nat, g: nat)
    requires bit < 8 * e && g < plane
    ensures e > 0 && bit * plane + g < Size(e, plane)
    ensures (bit * plane + g) / plane == bit && (bit * plane + g) % plane == g
  {
    SizeTables(e, plane);
    DivUnique(bit, g, plane);
    SlotInRange(8 * e, plane, bit, g);
  }

  method PackByte(src: seq<Byte>, e: nat, bit: nat, g: nat) returns (packed: Byte)
    requires e > 0 && bit < 8 * e && g < Plane(|src|, e)
    ensures bit * Plane(|src|, e) + g < Size(e, Plane(|src|, e))
    ensures packed == Pack(PackedBits(src, e, bit * Plane(|src|, e) + g), 8)
  {
    ghost var plane := Plane(|src|, e);
    PlaneByte(e, plane, bit, g);
    Fits(|src|, e);
    hide Plane, Size, Pack, PackedBits, Bit, OrBit, Target;
    ghost var bits := PackedBits(src, e, bit * plane + g);
    packed := 0;
    PackNone(bits);
    var k := 0;
    while k < 8
      invariant 0 <= k <= 8 && packed == Pack(bits, k)
    {
      PackedBitIs(src, e, bit, g, k);
      PackNext(bits, k);
      packed := OrBit(packed, k, Bit(src[(g * 8 + k) * e + bit / 8], bit % 8));
      k := k + 1;
    }
  }

  lemma PackNone(bits: seq<bool>)
    requires |bits| == 8
    ensures Pack(bits, 0) == 0
  {}

  lemma PackNext(bits: seq<bool>, k: nat)
    requires k < 8 == |bits|
    ensures Pack(bits, k + 1) == OrBit(Pack(bits, k), k, bits[k])
  {}

  /** Bit k of a packed byte is a bit of the element g * 8 + k. */
  lemma PackedBitIs(src: seq<Byte>, e: nat, bit: nat, g: nat, k: nat)
    requires e > 0 && bit < 8 * e && g < Plane(|src|, e) && k < 8
    ensures bit * Plane(|src|, e) + g < Size(e, Plane(|src|, e))
    ensures 0 <= (g * 8 + k) * e + bit / 8 < |src| && bit % 8 < 8
    ensures PackedBits(src, e, bit * Plane(|src|, e) + g)[k] == Bit(src[(g * 8 + k) * e + bit / 8], bit % 8)
  {
    var plane := Plane(|src|, e);
    PlaneByte(e, plane, bit, g);
    Fits(|src|, e);
    hide Plane, Size, Pack, Bit, OrBit;
    TargetThenOrigin(e, plane, bit * plane + g, k);
  }

  ghost predicate ShuffleDone(src: seq<Byte>, e: nat, dst: seq<Byte>, p: nat)
    requires e > 0 && |dst| == |src|
  {
    Fits(|src|, e);
    p <= Size(e, Plane(|src|, e)) && forall i :: 0 <= i < p ==> dst[i] == Pack(PackedBits(src, e, i), 8)
  }

  lemma ShuffleFinish(src: seq<Byte>, e: nat, dst: seq<Byte>)
    requires e > 0 && |dst| == |src| && ShuffleDone(src, e, dst, Size(e, Plane(|src|, e)))
    ensures Size(e, Plane(|src|, e)) <= |src|
    ensures dst[..Size(e, Plane(|src|, e))] + src[Size(e, Plane(|src|, e))..] == Shuffle(src, e)
  {
    Fits(|src|, e);
    var sz := Size(e, Plane(|src|, e));
    var d := dst[..sz] + src[sz..];
    hide Size, Plane, Pack;
    assert |d| == |src|;
    forall i | 0 <= i < |src| ensures d[i] == Shuffle(src, e)[i] {}
  }

  method BitShuffle(src: seq<Byte>, dst: array<Byte>, e: nat)
    requires dst.Length == |src|
    modifies dst
    ensures dst[..] == Shuffle(src, e)
  {
    if e == 0 || |src| == 0 {
      forall i | 0 <= i < |src| { dst[i] := src[i]; }
      return;
    }
    var plane := Plane(|src|, e);
    var bit := 0;
    Fits(|src|, e);
    assert ShuffleDone(src, e, dst[..], 0);
    while bit < 8 * e
      invariant 0 <= bit <= 8 * e && ShuffleDone(src, e, dst[..], bit * plane)
    {
      ShufflePlane(src, dst, e, bit);
      MulSucc(bit, plane);
      bit := bit + 1;
    }
    SizeTables(e, plane);
    ShuffleFinish(src, e, dst[..]);
    CopyTail(src, dst, 8 * e * plane);
  }

  method ShufflePlane(src: seq<Byte>, dst: array<Byte>, e: nat, bit: nat)
    requires dst.Length == |src| && 0 < e && bit < 8 * e && ShuffleDone(src, e, dst[..], bit * Plane(|src|, e))
    modifies dst
    ensures ShuffleDone(src, e, dst[..], bit * Plane(|src|, e) + Plane(|src|, e))
  {
    var plane := Plane(|src|, e);
    var g := 0;
    Fits(|src|, e);
    hide Pack, PackedBits;
    while g < plane
      invariant 0 <= g <= plane && ShuffleDone(src, e, dst[..], bit * plane + g)
    {
      var packed := PackByte(src, e, bit, g);
      dst[bit * plane + g] := packed;
      g := g + 1;
    }
  }

  /** The bits already or-ed in: those whose plane byte has been reached. */
  ghost predicate UnshuffleDone(src: seq<Byte>, e: nat, dst: seq<Byte>, p: nat, k: nat)
    requires e > 0 && |dst| == |src|
  {
    Fits(|src|, e);
    var plane := Plane(|src|, e);
    forall idx, b :: 0 <= idx < Size(e, plane) && 0 <= b < 8 ==>
      (Bit(dst[idx], b) <==>
       (Origin(e, plane, idx, b) < p || (Origin(e, plane, idx, b) == p && (idx / e) % 8 < k))
           && OriginBits(src, e, idx)[b])
  }

  /** Or-ing bit k of plane byte p into its target touches no other bit. */
  lemma UnshuffleOr(src: seq<Byte>, e: nat, plane: nat, dst: seq<Byte>, p: nat, k: nat)
    requires e > 0 && plane > 0 && plane == Plane(|src|, e) && |dst| == |src| && p < Size(e, plane) && k < 8
    requires UnshuffleDone(src, e, dst, p, k)
    ensures p < |src| && Target(e, plane, p, k) < |src|
    ensures var t := Target(e, plane, p, k);
      UnshuffleDone(src, e, dst[t := OrBit(dst[t], (p / plane) % 8, Bit(src[p], k))], p, k + 1)
  {
    hide OrBit, Bit, Origin, Target, Size, Plane;
    Fits(|src|, e);
    TargetThenOrigin(e, plane, p, k);
    var t, bit, v := Target(e, plane, p, k), (p / plane) % 8, Bit(src[p], k);
    var d := dst[t := OrBit(dst[t], bit, v)];
    forall idx, b | 0 <= idx < Size(e, plane) && 0 <= b < 8
      ensures Bit(d[idx], b) <==>
        (Origin(e, plane, idx, b) < p || (Origin(e, plane, idx, b) == p && (idx / e) % 8 < k + 1))
            && OriginBits(src, e, idx)[b]
    {
      OriginThenTarget(e, plane, idx, b);
      BitOfOr(dst[t], bit, v, b);
    }
  }

  lemma UnshuffleStep(src: seq<Byte>, e: nat, dst: seq<Byte>, bit: nat, g: nat, k: nat)
    requires e > 0 && |dst| == |src| && bit < 8 * e && g < Plane(|src|, e) && k < 8
    requires UnshuffleDone(src, e, dst, bit * Plane(|src|, e) + g, k)
    ensures 0 <= bit * Plane(|src|, e) + g < |src| && 0 <= (g * 8 + k) * e + bit / 8 < |src|
    ensures var p, t := bit * Plane(|src|, e) + g, (g * 8 + k) * e + bit / 8;
      UnshuffleDone(src, e, dst[t := OrBit(dst[t], bit % 8, Bit(src[p], k))], p, k + 1)
  {
    hide UnshuffleDone, OrBit, Bit, Plane, Size;
    var plane := Plane(|src|, e);
    PlaneByte(e, plane, bit, g);
    UnshuffleOr(src, e, plane, dst, bit * plane + g, k);
  }

  lemma UnshuffleNext(src: seq<Byte>, e: nat, dst: seq<Byte>, p: nat)
    requires e > 0 && |dst| == |src| && UnshuffleDone(src, e, dst, p, 8)
    ensures UnshuffleDone(src, e, dst, p + 1, 0)
  {}

  lemma UnshuffleFinish(src: seq<Byte>, e: nat, dst: seq<Byte>)
    requires e > 0 && |dst| == |src| && UnshuffleDone(src, e, dst, Size(e, Plane(|src|, e)), 0)
    ensures Size(e, Plane(|src|, e)) <= |src|
    ensures dst[..Size(e, Plane(|src|, e))] + src[Size(e, Plane(|src|, e))..] == Unshuffle(src, e)
  {
    Fits(|src|, e);
    var sz := Size(e, Plane(|src|, e));
    forall i | 0 <= i < sz ensures dst[i] == Pack(OriginBits(src, e, i), 8) {
      forall b | 0 <= b < 8 ensures Bit(dst[i], b) <==> Bit(Pack(OriginBits(src, e, i), 8), b) {
        OriginThenTarget(e, Plane(|src|, e), i, b);
        BitOfPack(OriginBits(src, e, i), 8, b);
      }
      ByteOfBits(dst[i], Pack(OriginBits(src, e, i), 8));
    }
    var d := dst[..sz] + src[sz..];
    hide Size, Plane, Pack, OriginBits;
    assert |d| == |src|;
    forall i | 0 <= i < |src| ensures d[i] == Unshuffle(src, e)[i] {}
  }

  lemma UnshuffleStart(src: seq<Byte>, e: nat, dst: seq<Byte>)
    requires e > 0 && |dst| == |src| && Size(e, Plane(|src|, e)) <= |src|
    requires forall i :: 0 <= i < Size(e, Plane(|src|, e)) ==> dst[i] == 0
    ensures UnshuffleDone(src, e, dst, 0, 0)
  {
    forall b | 0 <= b < 8 ensures !Bit(0, b) { assert 0 & Mask(b) == 0; }
  }

  method UnpackByte(src: seq<Byte>, dst: array<Byte>, e: nat, bit: nat, g: nat)
    requires dst.Length == |src| && e > 0 && bit < 8 * e && g < Plane(|src|, e)
    requires UnshuffleDone(src, e, dst[..], bit * Plane(|src|, e) + g, 0)
    modifies dst
    ensures UnshuffleDone(src, e, dst[..], bit * Plane(|src|, e) + g + 1, 0)
  {
    hide UnshuffleDone, OrBit, Bit;
    var p := bit * Plane(|src|, e) + g;
    var k := 0;
    while k < 8
      invariant 0 <= k <= 8 && UnshuffleDone(src, e, dst[..], p, k)
    {
      UnshuffleStep(src, e, dst[..], bit, g, k);
      ghost var was := dst[..];
      var t := (g * 8 + k) * e + bit / 8;
      dst[t] := OrBit(dst[t], bit % 8, Bit(src[p], k));
      assert dst[..] == was[t := OrBit(was[t], bit % 8, Bit(src[p], k))];
      k := k + 1;
    }
    UnshuffleNext(src, e, dst[..], p);
  }

  method BitUnshuffle(src: seq<Byte>, dst: array<Byte>, e: nat)
    requires dst.Length == |src|
    modifies dst
    ensures dst[..] == Unshuffle(src, e)
  {
    if e == 0 || |src| == 0 {
      forall i | 0 <= i < |src| { dst[i] := src[i]; }
      return;
    }
    var plane := Plane(|src|, e);
    Fits(|src|, e);
    forall i | 0 <= i < Size(e, plane) { dst[i] := 0; }
    UnshuffleStart(src, e, dst[..]);
    hide UnshuffleDone, Unshuffle;
    UnpackPlanes(src, dst, e);
    SizeTables(e, plane);
    UnshuffleFinish(src, e, dst[..]);
    CopyTail(src, dst, Size(e, plane));
  }

  method UnpackPlanes(src: seq<Byte>, dst: array<Byte>, e: nat)
    requires e > 0 && dst.Length == |src| && UnshuffleDone(src, e, dst[..], 0, 0)
    modifies dst
    ensures UnshuffleDone(src, e, dst[..], 8 * e * Plane(|src|, e), 0)
  {
    var plane := Plane(|src|, e);
    hide UnshuffleDone, Unshuffle, Plane, Size;
    var bit := 0;
    while bit < 8 * e
      invariant 0 <= bit <= 8 * e && UnshuffleDone(src, e, dst[..], bit * plane, 0)
    {
      UnpackPlane(src, dst, e, bit, plane);
      MulSucc(bit, plane);
      bit := bit + 1;
    }
  }

  method UnpackPlane(src: seq<Byte>, dst: array<Byte>, e: nat, bit: nat, plane: nat)
    requires e > 0 && bit < 8 * e && dst.Length == |src| && plane == Plane(|src|, e)
    requires UnshuffleDone(src, e, dst[..], bit * plane, 0)
    modifies dst
    ensures UnshuffleDone(src, e, dst[..], bit * plane + plane, 0)
  {
    hide UnshuffleDone, Unshuffle, Plane, Size;
    var g := 0;
    while g < plane
      invariant 0 <= g <= plane && UnshuffleDone(src, e, dst[..], bit * plane + g, 0)
    {
      UnpackByte(src, dst, e, bit, g);
      g := g + 1;
    }
  }
}

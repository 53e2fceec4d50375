/** Zigzag codes of one element, for each unsigned width the formats use
    (modules/codec/src/kernels/residual_scalar.cpp, modules/codec/src/diff_encoder.cpp). */
module Zigzag {
  import opened Common

  // Element codecs, one per unsigned width.  Code: shift left, then flip all bits of a negative
  // difference.  Decode: shift right, then flip all bits of an odd code.  All modulo 2^width.

  // ------------------------------------------------------------------ 8 bits

  function Code8(d: bv8): bv8 { (d << 1) ^ (if d & 0x80 != 0 then 0xFF else 0) }
  function Decode8(z: bv8): bv8 { (z >> 1) ^ (!(z & 1) + 1) }
  function Plus8(b: bv8, d: bv8): bv8 { b + d }
  function Minus8(t: bv8, b: bv8): bv8 { t - b }

  lemma CodeHalves8(d: bv8)
    ensures var z := Code8(d); if z & 1 == 0 then z >> 1 == d else (z >> 1) ^ 0xFF == d
  {}

  lemma DecodeEven8(z: bv8)
    requires z & 1 == 0
    ensures Decode8(z) == z >> 1
  {}

  lemma DecodeOdd8(z: bv8)
    requires z & 1 != 0
    ensures Decode8(z) == (z >> 1) ^ 0xFF
  {}

  lemma PlusMinus8(b: bv8, t: bv8)
    ensures Plus8(b, t - b) == t && Minus8(t, b) == t - b
  {}

  lemma AddBack8(b: bv8, t: bv8)
    ensures Plus8(b, Minus8(t, b)) == t
  {
    hide Plus8, Minus8;
    PlusMinus8(b, t);
  }

  lemma RoundTrip8(b: bv8, t: bv8)
    ensures Plus8(b, Decode8(Code8(Minus8(t, b)))) == t
  {
    hide Code8, Decode8, Plus8, Minus8;
    var d := Minus8(t, b);
    var z := Code8(d);
    CodeHalves8(d);
    if z & 1 == 0 { DecodeEven8(z); } else { DecodeOdd8(z); }
    AddBack8(b, t);
  }

  function Join8(b0: Byte): bv8 { b0 }

  function Split8(x: bv8): (r: seq<Byte>)
    ensures |r| == 1
  {
    [x]
  }

  lemma SplitJoin8(b0: Byte)
    ensures Split8(Join8(b0)) == [b0]
  {}

  lemma JoinSplit8(x: bv8)
    ensures var r := Split8(x); Join8(r[0]) == x
  {}

  // ------------------------------------------------------------------ 16 bits

  function Code16(d: bv16): bv16 { (d << 1) ^ (if d & 0x8000 != 0 then 0xFFFF else 0) }
  function Decode16(z: bv16): bv16 { (z >> 1) ^ (!(z & 1) + 1) }
  function Plus16(b: bv16, d: bv16): bv16 { b + d }
  function Minus16(t: bv16, b: bv16): bv16 { t - b }

  lemma CodeHalves16(d: bv16)
    ensures var z := Code16(d); if z & 1 == 0 then z >> 1 == d else (z >> 1) ^ 0xFFFF == d
  {}

  lemma DecodeEven16(z: bv16)
    requires z & 1 == 0
    ensures Decode16(z) == z >> 1
  {}

  lemma DecodeOdd16(z: bv16)
    requires z & 1 != 0
    ensures Decode16(z) == (z >> 1) ^ 0xFFFF
  {}

  lemma PlusMinus16(b: bv16, t: bv16)
    ensures Plus16(b, t - b) == t && Minus16(t, b) == t - b
  {}

  lemma AddBack16(b: bv16, t: bv16)
    ensures Plus16(b, Minus16(t, b)) == t
  {
    hide Plus16, Minus16;
    PlusMinus16(b, t);
  }

  lemma RoundTrip16(b: bv16, t: bv16)
    ensures Plus16(b, Decode16(Code16(Minus16(t, b)))) == t
  {
    hide Code16, Decode16, Plus16, Minus16;
    var d := Minus16(t, b);
    var z := Code16(d);
    CodeHalves16(d);
    if z & 1 == 0 { DecodeEven16(z); } else { DecodeOdd16(z); }
    AddBack16(b, t);
  }

  function Join16(b0: Byte, b1: Byte): bv16 { (b0 as bv16) | ((b1 as bv16) << 8) }

  function Split16(x: bv16): (r: seq<Byte>)
    ensures |r| == 2
  {
    [(x & 0xFF) as Byte, ((x >> 8) & 0xFF) as Byte]
  }

  lemma SplitJoin16(b0: Byte, b1: Byte)
    ensures Split16(Join16(b0, b1)) == [b0, b1]
  {}

  lemma JoinSplit16(x: bv16)
    ensures var r := Split16(x); Join16(r[0], r[1]) == x
  {}

  // ------------------------------------------------------------------ 32 bits

  function Code32(d: bv32): bv32 { (d << 1) ^ (if d & 0x80000000 != 0 then 0xFFFFFFFF else 0) }
  function Decode32(z: bv32): bv32 { (z >> 1) ^ (!(z & 1) + 1) }
  function Plus32(b: bv32, d: bv32): bv32 { b + d }
  function Minus32(t: bv32, b: bv32): bv32 { t - b }

  lemma CodeHalves32(d: bv32)
    ensures var z := Code32(d); if z & 1 == 0 then z >> 1 == d else (z >> 1) ^ 0xFFFFFFFF == d
  {}

  lemma DecodeEven32(z: bv32)
    requires z & 1 == 0
    ensures Decode32(z) == z >> 1
  {}

  lemma DecodeOdd32(z: bv32)
    requires z & 1 != 0
    ensures Decode32(z) == (z >> 1) ^ 0xFFFFFFFF
  {}

  lemma PlusMinus32(b: bv32, t: bv32)
    ensures Plus32(b, t - b) == t && Minus32(t, b) == t - b
  {}

  lemma AddBack32(b: bv32, t: bv32)
    ensures Plus32(b, Minus32(t, b)) == t
  {
    hide Plus32, Minus32;
    PlusMinus32(b, t);
  }

  lemma RoundTrip32(b: bv32, t: bv32)
    ensures Plus32(b, Decode32(Code32(Minus32(t, b)))) == t
  {
    hide Code32, Decode32, Plus32, Minus32;
    var d := Minus32(t, b);
    var z := Code32(d);
    CodeHalves32(d);
    if z & 1 == 0 { DecodeEven32(z); } else { DecodeOdd32(z); }
    AddBack32(b, t);
  }

  function Join32(b0: Byte, b1: Byte, b2: Byte,
      b3: Byte): bv32 { (b0 as bv32) | ((b1 as bv32) << 8) | ((b2 as bv32) << 16) | ((b3 as bv32) << 24) }

  function Split32(x: bv32): (r: seq<Byte>)
    ensures |r| == 4
  {
    [(x & 0xFF) as Byte, ((x >> 8) & 0xFF) as Byte, ((x >> 16) & 0xFF) as Byte, ((x >> 24) & 0xFF) as Byte]
  }

  lemma SplitJoin32(b0: Byte, b1: Byte, b2: Byte, b3: Byte)
    ensures Split32(Join32(b0, b1, b2, b3)) == [b0, b1, b2, b3]
  {}

  lemma JoinSplit32(x: bv32)
    ensures var r := Split32(x); Join32(r[0], r[1], r[2], r[3]) == x
  {}

  // ------------------------------------------------------------------ 64 bits

  function Code64(d: bv64): bv64 { (d << 1) ^ (if d & 0x8000000000000000 != 0 then 0xFFFFFFFFFFFFFFFF else 0) }
  function Decode64(z: bv64): bv64 { (z >> 1) ^ (!(z & 1) + 1) }
  function Plus64(b: bv64, d: bv64): bv64 { b + d }
  function Minus64(t: bv64, b: bv64): bv64 { t - b }

  lemma CodeHalves64(d: bv64)
    ensures var z := Code64(d); if z & 1 == 0 then z >> 1 == d else (z >> 1) ^ 0xFFFFFFFFFFFFFFFF == d
  {}

  lemma DecodeEven64(z: bv64)
    requires z & 1 == 0
    ensures Decode64(z) == z >> 1
  {}

  lemma DecodeOdd64(z: bv64)
    requires z & 1 != 0
    ensures Decode64(z) == (z >> 1) ^ 0xFFFFFFFFFFFFFFFF
  {}

  lemma PlusMinus64(b: bv64, t: bv64)
    ensures Plus64(b, t - b) == t && Minus64(t, b) == t - b
  {}

  lemma AddBack64(b: bv64, t: bv64)
    ensures Plus64(b, Minus64(t, b)) == t
  {
    hide Plus64, Minus64;
    PlusMinus64(b, t);
  }

  lemma RoundTrip64(b: bv64, t: bv64)
    ensures Plus64(b, Decode64(Code64(Minus64(t, b)))) == t
  {
    hide Code64, Decode64, Plus64, Minus64;
    var d := Minus64(t, b);
    var z := Code64(d);
    CodeHalves64(d);
    if z & 1 == 0 { DecodeEven64(z); } else { DecodeOdd64(z); }
    AddBack64(b, t);
  }

  function Join64(b0: Byte, b1: Byte, b2: Byte, b3: Byte, b4: Byte, b5: Byte, b6: Byte, b7: Byte): bv64 {
    (b0 as bv64) | ((b1 as bv64) << 8) | ((b2 as bv64) << 16) | ((b3 as bv64) << 24)
    | ((b4 as bv64) << 32) | ((b5 as bv64) << 40) | ((b6 as bv64) << 48) | ((b7 as bv64) << 56)
  }

  function Split64(x: bv64): (r: seq<Byte>)
    ensures |r| == 8
  {
    [(x & 0xFF) as Byte, ((x >> 8) & 0xFF) as Byte, ((x >> 16) & 0xFF) as Byte, ((x >> 24) & 0xFF) as Byte,
        ((x >> 32) & 0xFF) as Byte, ((x >> 40) & 0xFF) as Byte, ((x >> 48) & 0xFF) as Byte, ((x >> 56) & 0xFF) as Byte]
  }

  lemma SplitJoin64(b0: Byte, b1: Byte, b2: Byte, b3: Byte, b4: Byte, b5: Byte, b6: Byte, b7: Byte)
    ensures Split64(Join64(b0, b1, b2, b3, b4, b5, b6, b7)) == [b0, b1, b2, b3, b4, b5, b6, b7]
  {}

  lemma JoinSplit64(x: bv64)
    ensures var r := Split64(x); Join64(r[0], r[1], r[2], r[3], r[4], r[5], r[6], r[7]) == x
  {}
}

/** Little-endian fields. */
module Endian {
  import opened Common
  import opened Arith

  /** By counting up, since the solver is slow on casts to bit vectors. */
  function ToByte(x: int): (b: Byte)
    requires 0 <= x < 256
    ensures FromByte(b) == x
  {
    if x == 0 then 0 else
      var b := ToByte(x - 1);
      NextByte(b);
      b + 1
  }

  lemma NextByte(b: Byte)
    requires b as int < 255
    ensures (b + 1) as int == b as int + 1
  {}

  function FromByte(b: Byte): (x: int)
    ensures 0 <= x < 256
  {
    b as int
  }

  /** k bytes, low byte first; higher digits are cut off. */
  function StoreLe(x: nat, k: nat): (r: seq<Byte>)
    ensures |r| == k
  {
    if k == 0 then [] else [ToByte(x % 256)] + StoreLe(x / 256, k - 1)
  }

  /** Storing what was loaded gives the same bytes. */
  lemma {:induction false} StoreLoad(b: seq<Byte>)
    ensures StoreLe(LoadLe(b), |b|) == b
  {
    if b != [] {
      StoreLoad(b[1..]);
      var rest := LoadLe(b[1..]);
      assert LoadLe(b) == FromByte(b[0]) + 256 * rest;
      DivUnique(rest, FromByte(b[0]), 256);
      SameByte(ToByte(FromByte(b[0])), b[0]);
      assert b == [b[0]] + b[1..];
    }
  }

  lemma SameByte(x: Byte, y: Byte)
    requires FromByte(x) == FromByte(y)
    ensures x == y
  {}

  /** The byte at position i counts 256 to the power i. */
  lemma {:induction false} LoadDigit(b: seq<Byte>, i: nat)
    requires i < |b|
    ensures (LoadLe(b) / Radix(i)) % 256 == FromByte(b[i])
  {
    var rest := LoadLe(b[1..]);
    assert LoadLe(b) == FromByte(b[0]) + 256 * rest;
    if i > 0 {
      LoadDigit(b[1..], i - 1);
      DivTwice(LoadLe(b), 256, Radix(i - 1));
      DivUnique(rest, FromByte(b[0]), 256);
    } else {
      DivUnique(rest, FromByte(b[0]), 256);
    }
  }

  lemma DivTwice(x: nat, a: nat, b: nat)
    requires a >= 1 && b >= 1
    ensures a * b >= 1 && x / (a * b) == (x / a) / b
  {
    var q := (x / a) / b;
    var r := x - q * (a * b);
    assert x == a * (x / a) + x % a && x / a == b * q + (x / a) % b;
    assert a * (b * q) == q * (a * b);
    assert r == a * ((x / a) % b) + x % a;
    MulLe((x / a) % b + 1, b, a);
    assert a * ((x / a) % b) + a == ((x / a) % b + 1) * a;
    assert b * a == a * b;
    MulLe(0, (x / a) % b, a);
    DivUnique(q, r, a * b);
  }

  function LoadLe(b: seq<Byte>): nat {
    if b == [] then 0 else FromByte(b[0]) + 256 * LoadLe(b[1..])
  }

  /** 256 to the power k. */
  function Radix(k: nat): (r: nat)
    ensures r >= 1
  {
    if k == 0 then 1 else 256 * Radix(k - 1)
  }

  /** A field holds its value modulo 256^k: the value itself when it fits. */
  lemma {:induction false} LoadStore(x: nat, k: nat)
    ensures LoadLe(StoreLe(x, k)) == x % Radix(k)
    ensures x < Radix(k) ==> LoadLe(StoreLe(x, k)) == x
  {
    if k > 0 {
      LoadStore(x / 256, k - 1);
      var r := Radix(k - 1);
      var q := x / 256;
      var s := StoreLe(x, k);
      assert s[1..] == StoreLe(q, k - 1);
      LowDigit(x, r);
      Small(q, r);
      Small(x, 256 * r);
    }
  }

  lemma Small(x: nat, r: nat)
    requires r >= 1
    ensures x < r ==> x % r == x
  {}

  lemma LowDigit(x: nat, r: nat)
    requires r >= 1
    ensures x % (256 * r) == x % 256 + 256 * ((x / 256) % r)
  {
    var q := x / 256;
    var lo := x % 256 + 256 * (q % r);
    assert x == 256 * q + x % 256;
    assert q == r * (q / r) + q % r;
    assert 256 * (r * (q / r)) == (256 * r) * (q / r);
    assert x == (q / r) * (256 * r) + lo;
    assert 0 <= lo < 256 * r;
    DivUnique(q / r, lo, 256 * r);
  }
}

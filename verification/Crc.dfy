/**
  * The CRC-32 shift register (dep/zlib/crc32.c): what the checksum is, bit by bit, and that the register is linear.
  */
module Crc {
  /** The polynomial, lowest power in the most significant bit, without x^32. */
  const POLY: bv32 := 0xEDB8_8320

  type Octet = x: bv32 | x < 256

  // ---------------------------------------------------------------- words

  function Xor(a: bv32, b: bv32): bv32 { a ^ b }

  function Not(a: bv32): bv32 { !a }

  predicate Odd(a: bv32) { a & 1 == 1 }

  function Half(a: bv32): bv32 { a >> 1 }

  lemma XorAssoc(a: bv32, b: bv32, c: bv32)
    ensures Xor(Xor(a, b), c) == Xor(a, Xor(b, c))
  {
  }

  lemma XorCommutes(a: bv32, b: bv32)
    ensures Xor(a, b) == Xor(b, a)
  {
  }

  lemma XorSwap(a: bv32, b: bv32, c: bv32)
    ensures Xor(Xor(a, b), c) == Xor(Xor(a, c), b)
  {
    hide Xor;
    XorAssoc(a, b, c);
    XorCommutes(b, c);
    XorAssoc(a, c, b);
  }

  lemma XorTwice(a: bv32, b: bv32)
    ensures Xor(Xor(a, b), a) == b
  {
  }

  lemma XorZero(a: bv32)
    ensures Xor(a, 0) == a == Xor(0, a)
  {
  }

  lemma NotIs(a: bv32)
    ensures Not(a) == Xor(a, 0xFFFF_FFFF) && Not(Not(a)) == a
  {
  }

  lemma HalfXor(a: bv32, b: bv32)
    ensures Half(Xor(a, b)) == Xor(Half(a), Half(b))
  {
  }

  lemma OddXor(a: bv32, b: bv32)
    ensures Odd(Xor(a, b)) <==> Odd(a) != Odd(b)
  {
  }

  // ---------------------------------------------------------------- the register

  /** One bit: multiplication by x, modulo the polynomial. */
  function Shift(c: bv32): bv32
  {
    if Odd(c) then Xor(POLY, Half(c)) else Half(c)
  }

  function Zeros(c: bv32, n: nat): bv32
  {
    if n == 0 then c else Shift(Zeros(c, n - 1))
  }

  /** One byte, lowest bit first. */
  function TakeByte(c: bv32, x: Octet): bv32
  {
    Zeros(Xor(c, x), 8)
  }

  function Register(c: bv32, data: seq<Octet>): bv32
  {
    if data == [] then c else TakeByte(Register(c, data[..|data| - 1]), data[|data| - 1])
  }

  /** The checksum of `data`, continued from `crc`. */
  function Checksum(crc: bv32, data: seq<Octet>): bv32
  {
    Not(Register(Not(crc), data))
  }

  // ---------------------------------------------------------------- linearity

  lemma ShiftLinear(a: bv32, b: bv32)
    ensures Shift(Xor(a, b)) == Xor(Shift(a), Shift(b))
  {
    hide Xor, Half, Odd;
    var x, y := Half(a), Half(b);
    OddXor(a, b);
    HalfXor(a, b);
    XorAssoc(POLY, x, y);
    XorAssoc(x, POLY, y);
    XorAssoc(Xor(POLY, x), POLY, y);
    XorCommutes(POLY, x);
    XorTwice(POLY, x);
  }

  lemma {:induction false} ZerosLinear(a: bv32, b: bv32, n: nat)
    ensures Zeros(Xor(a, b), n) == Xor(Zeros(a, n), Zeros(b, n))
  {
    hide Xor, Shift;
    if n != 0 {
      ZerosLinear(a, b, n - 1);
      ShiftLinear(Zeros(a, n - 1), Zeros(b, n - 1));
    }
  }

  lemma {:induction false} ZerosAdd(c: bv32, m: nat, n: nat, t: nat)
    requires t == m + n
    ensures Zeros(Zeros(c, m), n) == Zeros(c, t)
  {
    hide Shift;
    if n != 0 { ZerosAdd(c, m, n - 1, t - 1); }
  }

  lemma {:induction false} ZerosOfZero(n: nat)
    ensures Zeros(0, n) == 0
  {
    if n != 0 { ZerosOfZero(n - 1); }
  }

  /** What was in the register passes through, whatever the data. */
  lemma {:induction false} RegisterAffine(c: bv32, d: bv32, data: seq<Octet>, n: nat)
    requires n == 8 * |data|
    ensures Register(Xor(c, d), data) == Xor(Register(c, data), Zeros(d, n))
  {
    hide Xor, Zeros;
    if data == [] {
      NoZeros(d);
    } else {
      var k := |data| - 1;
      RegisterAffine(c, d, data[..k], n - 8);
      var r, z := Register(c, data[..k]), Zeros(d, n - 8);
      XorSwap(r, z, data[k]);
      ZerosLinear(Xor(r, data[k]), z, 8);
      ZerosAdd(d, n - 8, 8, n);
    }
  }

  lemma NoZeros(d: bv32)
    ensures Zeros(d, 0) == d
  {
  }

  lemma {:induction false} RegisterAppend(c: bv32, a: seq<Octet>, b: seq<Octet>)
    ensures Register(Register(c, a), b) == Register(c, a + b)
    decreases |b|
  {
    hide TakeByte;
    if b == [] {
      assert a + b == a;
    } else {
      RegisterAppend(c, a, b[..|b| - 1]);
      assert (a + b)[..|a + b| - 1] == a + b[..|b| - 1];
    }
  }

  /** The checksum can be continued. */
  lemma ChecksumAppend(crc: bv32, a: seq<Octet>, b: seq<Octet>)
    ensures Checksum(Checksum(crc, a), b) == Checksum(crc, a + b)
  {
    hide Not, Register;
    NotIs(Register(Not(crc), a));
    RegisterAppend(Not(crc), a, b);
  }

  /** The checksum of a concatenation: that of the first part goes through as many zeros as the second part has bits. */
  lemma ChecksumConcat(crc: bv32, a: seq<Octet>, b: seq<Octet>, n: nat)
    requires n == 8 * |b|
    ensures Checksum(crc, a + b) == Xor(Zeros(Checksum(crc, a), n), Checksum(0, b))
  {
    hide Not, Register, Xor, Zeros;
    var s, ones := Checksum(crc, a), 0xFFFF_FFFF;
    var z, r := Zeros(s, n), Register(ones, b);
    ChecksumAppend(crc, a, b);
    NotIs(s);
    NotIs(0);
    XorZero(ones);
    XorCommutes(s, ones);
    RegisterAffine(ones, s, b, n);
    NotIs(Xor(r, z));
    NotIs(r);
    XorSwap(r, z, ones);
    XorCommutes(Xor(r, ones), z);
  }
}

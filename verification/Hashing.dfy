/**
  * The rolling hash of dep/zlib/deflate.c (`UPDATE_HASH`): a shift, an exclusive or and a mask.
  */
module Hashing {
  import opened Arith
  import opened BitStream

  /** Bitwise exclusive or. */
  function Xor(a: nat, b: nat): nat
    decreases a + b
  {
    if a == 0 then b else if b == 0 then a
    else (if a % 2 != b % 2 then 1 else 0) + 2 * Xor(a / 2, b / 2)
  }

  /** The parameters: `bits` of hash, shifted by `shift` for every byte. */
  datatype Params = Params(bits: nat, shift: nat)

  /** After three bytes the oldest one is shifted out, and one byte always fits. */
  predicate Suitable(p: Params)
  {
    8 <= p.bits <= 3 * p.shift
  }

  function Roll(p: Params, h: nat, c: Byte): (r: nat)
    ensures r < Pow2(p.bits)
  {
    LowBound(Xor(Shl(h, p.shift), c), p.bits);
    Low(Xor(Shl(h, p.shift), c), p.bits)
  }

  /** The hash of three bytes. */
  function Hash3(p: Params, a: Byte, b: Byte, c: Byte): nat
  {
    Roll(p, Roll(p, Roll(p, 0, a), b), c)
  }

  lemma XorStep(a: nat, b: nat)
    ensures Xor(a, b) % 2 == (a + b) % 2 && Xor(a, b) / 2 == Xor(a / 2, b / 2)
  {
  }

  /** The low bits of an exclusive or depend on the low bits only. */
  lemma {:induction false} XorLow(a: nat, a': nat, b: nat, n: nat)
    requires Low(a, n) == Low(a', n)
    ensures Low(Xor(a, b), n) == Low(Xor(a', b), n)
  {
    if n != 0 {
      XorStep(a, b);
      XorStep(a', b);
      XorLow(a / 2, a' / 2, b / 2, n - 1);
    }
  }

  lemma {:induction false} XorCancel(x: nat, c: nat, d: nat, n: nat)
    requires Low(Xor(x, c), n) == Low(Xor(x, d), n)
    ensures Low(c, n) == Low(d, n)
  {
    if n != 0 {
      XorStep(x, c);
      XorStep(x, d);
      XorCancel(x / 2, c / 2, d / 2, n - 1);
    }
  }

  lemma {:induction false} ShlLow(a: nat, b: nat, k: nat, s: nat)
    requires Low(a, k) == Low(b, k)
    ensures Low(Shl(a, s), k + s) == Low(Shl(b, s), k + s)
  {
    if s != 0 { ShlLow(a, b, k, s - 1); }
  }

  lemma LowAgree(a: nat, b: nat, m: nat, n: nat)
    requires m <= n && Low(a, n) == Low(b, n)
    ensures Low(a, m) == Low(b, m)
  {
    LowLow(a, m, n);
    LowLow(b, m, n);
  }

  /** What differs in the old hash moves up by `shift` bits. */
  lemma RollForgets(p: Params, g: nat, h: nat, c: Byte, k: nat, n: nat)
    requires Low(g, k) == Low(h, k) && n <= k + p.shift
    ensures Low(Roll(p, g, c), n) == Low(Roll(p, h, c), n)
  {
    var x, y := Shl(g, p.shift), Shl(h, p.shift);
    ShlLow(g, h, k, p.shift);
    XorLow(x, y, c, k + p.shift);
    var u, v := Xor(x, c), Xor(y, c);
    LowAgree(u, v, n, k + p.shift);
    if n <= p.bits {
      LowLow(u, n, p.bits);
      LowLow(v, n, p.bits);
    } else {
      LowAgree(u, v, p.bits, k + p.shift);
    }
  }

  /** Three updates give the hash of the last three bytes, whatever was there before. */
  lemma RollThree(p: Params, h: nat, a: Byte, b: Byte, c: Byte)
    requires Suitable(p)
    ensures Roll(p, Roll(p, Roll(p, h, a), b), c) == Hash3(p, a, b, c)
  {
    var s := p.shift;
    RollForgets(p, h, 0, a, 0, s);
    RollForgets(p, Roll(p, h, a), Roll(p, 0, a), b, s, 2 * s);
    RollForgets(p, Roll(p, Roll(p, h, a), b), Roll(p, Roll(p, 0, a), b), c, 2 * s, p.bits);
    LowSmall(Roll(p, Roll(p, Roll(p, h, a), b), c), p.bits);
    LowSmall(Hash3(p, a, b, c), p.bits);
  }

  /** Equal hashes and equal first two bytes: the third byte is equal too. */
  lemma ThirdByte(p: Params, a: Byte, b: Byte, c: Byte, d: Byte)
    requires Suitable(p) && Hash3(p, a, b, c) == Hash3(p, a, b, d)
    ensures c == d
  {
    var x := Shl(Roll(p, Roll(p, 0, a), b), p.shift);
    XorCancel(x, c, d, p.bits);
    LowAgree(c, d, 8, p.bits);
    assert Pow2(8) == 256;
    LowSmall(c, 8);
    LowSmall(d, 8);
  }
}

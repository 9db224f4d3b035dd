/**
  * Powers of two, machine words and fixed-width bit reversal.
  *
  * The sources manipulate unsigned machine words with shifts and masks. Here a word is a natural number, and shifts and
  * masks are defined one bit at a time: `x >> n` is `High(x, n)`, `x << n` is `Shl(x, n)`, and `x & ((1 << n) - 1)` is
  * `Low(x, n)`.
  */
module Arith {
  function Pow2(n: nat): (r: nat)
    ensures r >= 1
  {
    if n == 0 then 1 else 2 * Pow2(n - 1)
  }

  lemma {:induction false} Pow2Mono(a: nat, b: nat)
    requires a <= b
    ensures Pow2(a) <= Pow2(b)
  {
    if a < b { Pow2Mono(a, b - 1); }
  }

  lemma MulAssoc(a: int, b: int, c: int)
    ensures a * (b * c) == (a * b) * c
  {
  }

  lemma MulMono(a: int, b: int, k: nat)
    requires a <= b
    ensures a * k <= b * k
  {
  }

  /** A quotient and remainder are the only ones. */
  lemma DivUnique(x: int, k: int, q: int, r: int)
    requires k > 0 && x == q * k + r && 0 <= r < k
    ensures x / k == q && x % k == r
  {
    var q', r' := x / k, x % k;
    assert x == q' * k + r';
    assert (q - q') * k == r' - r;
    if q - q' >= 1 { MulMono(1, q - q', k); assert false; }
    if q - q' <= -1 { MulMono(q - q', -1, k); assert false; }
  }

  lemma ModAdd(x: int, k: int, m: int)
    requires k > 0
    ensures (x + m * k) % k == x % k
    ensures (x + m * k) / k == x / k + m
  {
    var q, r := x / k, x % k;
    assert x + m * k == (q + m) * k + r;
    DivUnique(x + m * k, k, q + m, r);
  }

  // ---------------------------------------------------------------- masks and shifts, bit by bit

  /** `x & ((1 << n) - 1)` */
  function Low(x: nat, n: nat): nat
  {
    if n == 0 then 0 else x % 2 + 2 * Low(x / 2, n - 1)
  }

  lemma {:induction false} LowBound(x: nat, n: nat)
    ensures Low(x, n) < Pow2(n)
  {
    if n != 0 { LowBound(x / 2, n - 1); }
  }

  /** `x >> n` */
  function High(x: nat, n: nat): nat
  {
    if n == 0 then x else High(x / 2, n - 1)
  }

  /** `x << n` */
  function Shl(x: nat, n: nat): nat
  {
    if n == 0 then x else 2 * Shl(x, n - 1)
  }

  lemma {:induction false} ShlAdd(x: nat, y: nat, n: nat)
    ensures Shl(x + y, n) == Shl(x, n) + Shl(y, n)
  {
    if n != 0 { ShlAdd(x, y, n - 1); }
  }

  lemma {:induction false} ShlMono(x: nat, y: nat, n: nat)
    requires x <= y
    ensures Shl(x, n) <= Shl(y, n)
  {
    if n != 0 { ShlMono(x, y, n - 1); }
  }

  lemma {:induction false} ShlOne(n: nat)
    ensures Shl(1, n) == Pow2(n) && Shl(0, n) == 0
  {
    if n != 0 { ShlOne(n - 1); }
  }

  lemma {:induction false} ShlShl(x: nat, a: nat, b: nat)
    ensures Shl(Shl(x, a), b) == Shl(x, a + b)
  {
    if b != 0 { ShlShl(x, a, b - 1); }
  }

  lemma {:induction false} ShlMul(x: nat, n: nat)
    ensures Shl(x, n) == x * Pow2(n)
  {
    if n != 0 {
      ShlMul(x, n - 1);
      MulAssoc(2, x, Pow2(n - 1));
    }
  }

  /** Concatenating words, and taking them apart. */
  lemma {:induction false} Concat(a: nat, b: nat, n: nat)
    requires a < Pow2(n)
    ensures Low(a + Shl(b, n), n) == a && High(a + Shl(b, n), n) == b
  {
    if n != 0 {
      Concat(a / 2, b, n - 1);
      assert (a + Shl(b, n)) / 2 == a / 2 + Shl(b, n - 1);
    }
  }

  lemma {:induction false} Split(x: nat, n: nat)
    ensures x == Low(x, n) + Shl(High(x, n), n)
  {
    if n != 0 { Split(x / 2, n - 1); }
  }

  lemma {:induction false} LowSmall(x: nat, n: nat)
    requires x < Pow2(n)
    ensures Low(x, n) == x && High(x, n) == 0
  {
    if n != 0 { LowSmall(x / 2, n - 1); }
  }

  /** Nested masks and shifts. */
  lemma {:induction false} LowLow(x: nat, a: nat, b: nat)
    requires a <= b
    ensures Low(Low(x, b), a) == Low(x, a)
  {
    if a != 0 { LowLow(x / 2, a - 1, b - 1); }
  }

  lemma {:induction false} HighLow(x: nat, a: nat, b: nat)
    requires a <= b
    ensures High(Low(x, b), a) == Low(High(x, a), b - a)
  {
    if a != 0 { HighLow(x / 2, a - 1, b - 1); }
  }

  lemma {:induction false} HighMono(x: nat, y: nat, n: nat)
    requires x <= y
    ensures High(x, n) <= High(y, n)
  {
    if n != 0 { HighMono(x / 2, y / 2, n - 1); }
  }

  lemma {:induction false} AddPow(x: nat, k: nat, n: nat)
    requires n <= k
    ensures High(x + Pow2(k), n) == High(x, n) + Pow2(k - n)
    ensures Low(x + Pow2(k), n) == Low(x, n)
  {
    if n != 0 {
      AddPow(x / 2, k - 1, n - 1);
      assert (x + Pow2(k)) / 2 == x / 2 + Pow2(k - 1);
    }
  }

  // ---------------------------------------------------------------- bit reversal

  /** The low `n` bits of `x` in reverse order. */
  function Rev(x: nat, n: nat): nat
  {
    if n == 0 then 0 else (if x % 2 == 1 then Pow2(n - 1) else 0) + Rev(x / 2, n - 1)
  }

  lemma {:induction false} RevBound(x: nat, n: nat)
    ensures Rev(x, n) < Pow2(n)
  {
    if n != 0 { RevBound(x / 2, n - 1); }
  }

  lemma {:induction false} RevLow(x: nat, n: nat)
    ensures Rev(Low(x, n), n) == Rev(x, n)
  {
    if n != 0 { RevLow(x / 2, n - 1); }
  }

  /** The top `l` bits of a reversal are the reversal of the low `l` bits. */
  lemma {:induction false} RevHighBits(x: nat, n: nat, l: nat)
    requires l <= n
    ensures High(Rev(x, n), n - l) == Rev(x, l)
  {
    if l == 0 {
      RevBound(x, n);
      LowSmall(Rev(x, n), n);
    } else {
      RevHighBits(x / 2, n - 1, l - 1);
      AddPow(Rev(x / 2, n - 1), n - 1, n - l);
    }
  }

  /** Trailing zero bits become leading zero bits. */
  lemma {:induction false} RevShift(c: nat, m: nat, l: nat)
    ensures Rev(Shl(c, m), m + l) == Rev(c, l)
  {
    if m != 0 { RevShift(c, m - 1, l); }
  }

  /** Peeling the most significant bit instead of the least significant one. */
  lemma {:induction false} RevPeel(x: nat, n: nat)
    ensures Rev(x, n + 1) == 2 * Rev(x, n) + High(x, n) % 2
  {
    if n != 0 { RevPeel(x / 2, n - 1); }
  }

  /** Reversing twice gives back the low bits. */
  lemma {:induction false} RevTwice(x: nat, n: nat)
    ensures Rev(Rev(x, n), n) == Low(x, n)
  {
    if n != 0 {
      var t := Rev(x / 2, n - 1);
      var y := Rev(x, n);
      RevPeel(y, n - 1);
      RevBound(x / 2, n - 1);
      LowSmall(t, n - 1);
      AddPow(t, n - 1, n - 1);
      RevLow(y, n - 1);
      RevTwice(x / 2, n - 1);
    }
  }
}

/**
  * The Adler-32 checksum (dep/zlib/adler32.c): sums that are reduced as rarely as 32 bits allow, reductions without
  * division, and the checksum of a concatenation.
  */
module Adler {
  import opened Arith
  import opened BitStream

  const BASE: nat := 65521
  const NMAX: nat := 5552
  const U32: nat := 0x1_0000_0000
  const U63: nat := 0x8000_0000_0000_0000

  type uint32 = x: nat | x < U32

  // ---------------------------------------------------------------- the definition

  /** The two sums. */
  datatype Sums = Sums(a: nat, b: nat)

  /** The sums of section 2.2 of RFC 1950, reduced after every byte. */
  function Checked(s: Sums, data: seq<Byte>): (r: Sums)
    ensures r.a < BASE && r.b < BASE
  {
    if data == [] then Sums(s.a % BASE, s.b % BASE)
    else
      var p := Checked(s, data[..|data| - 1]);
      var a := (p.a + data[|data| - 1]) % BASE;
      Sums(a, (p.b + a) % BASE)
  }

  /** The two halves of a checksum. */
  function Halves(adler: uint32): (s: Sums)
    ensures s.a < 65536 && s.b < 65536 && adler == s.a + 65536 * s.b
  {
    Sums(adler % 65536, adler / 65536)
  }

  function Joined(s: Sums): (adler: uint32)
    requires s.a < 65536 && s.b < 65536
    ensures Halves(adler) == s
  {
    s.a + 65536 * s.b
  }

  /** Reduction has been put off. */
  predicate Late(a: nat, b: nat, s: Sums)
  {
    s.a < BASE && s.b < BASE && a % BASE == s.a && b % BASE == s.b
  }

  lemma LateByte(a: nat, b: nat, s: Sums, x: Byte, t: Sums)
    requires Late(a, b, s) && t.a == (s.a + x) % BASE && t.b == (s.b + t.a) % BASE
    ensures Late(a + x, b + (a + x), t)
  {
  }

  lemma CheckedNext(s: Sums, buf: seq<Byte>, i: nat, j: nat)
    requires i < |buf| && j == i + 1
    ensures var p, t := Checked(s, buf[..i]), Checked(s, buf[..j]);
      t.a == (p.a + buf[i]) % BASE && t.b == (p.b + t.a) % BASE
  {
    assert buf[..j][..i] == buf[..i];
  }

  // ---------------------------------------------------------------- reductions

  /** CHOP: the high half, times 15, is added to the low half. */
  function Chop(a: nat): (r: nat)
    ensures r % BASE == a % BASE && r <= a && r <= 65535 + 15 * (a / 65536)
  {
    var tmp := a / 65536;
    assert a == 65536 * tmp + a % 65536;
    a % 65536 + (16 * tmp - tmp)
  }

  /** MOD28, for numbers below 2^28. */
  function Mod28(a: nat): (r: nat)
    requires a < 0x1000_0000
    ensures r == a % BASE
  {
    var c := Chop(a);
    if c >= BASE then c - BASE else c
  }

  function Mod(a: uint32): (r: nat)
    ensures r == a % BASE
  {
    Mod28(Chop(a))
  }

  /** MOD63, for numbers below 2^63. */
  function Mod63(a: nat): (r: nat)
    requires a < U63
    ensures r == a % BASE
  {
    var c := Chop(Chop(Fold(a)));
    if c >= BASE then c - BASE else c
  }

  lemma SameRest(r: nat, k: nat, a: nat)
    requires a == r + k * BASE
    ensures r % BASE == a % BASE
  {
  }

  /** The first step of MOD63: the upper word, times 225, is added to the lower word. */
  function Fold(a: nat): (r: nat)
    requires a < U63
    ensures r % BASE == a % BASE && r <= 0xFFFF_FFFF + 225 * 0x7FFF_FFFF
  {
    var tmp := a / U32;
    SameRest(a % U32 + 225 * tmp, 65551 * tmp, a);
    a % U32 + (256 * tmp - 32 * tmp + tmp)
  }

  // ---------------------------------------------------------------- how large the sums get

  /** The largest second sum after `n` bytes, from any starting value. */
  function Most(n: nat): nat
  {
    if n == 0 then 65535 else Most(n - 1) + 65535 + 255 * n
  }

  lemma {:induction false} MostIs(n: nat)
    ensures 2 * Most(n) == (n + 1) * (131070 + 255 * n)
  {
    if n != 0 {
      MostIs(n - 1);
      assert (n + 1) * (131070 + 255 * n) == n * (131070 + 255 * (n - 1)) + 131070 + 510 * n by {
        Expand(n, n - 1);
      }
    }
  }

  lemma Expand(n: nat, m: nat)
    requires n == m + 1
    ensures (n + 1) * (131070 + 255 * n) == n * (131070 + 255 * m) + 131070 + 510 * n
  {
    assert (n + 1) * (131070 + 255 * n) == n * (131070 + 255 * n) + (131070 + 255 * n);
    assert n * (131070 + 255 * n) == n * ((131070 + 255 * m) + 255) == n * (131070 + 255 * m) + 255 * n;
  }

  lemma {:induction false} MostMono(m: nat, n: nat)
    requires m <= n
    ensures Most(m) <= Most(n)
    decreases n
  {
    if m < n { MostMono(m, n - 1); }
  }

  /** NMAX bytes fit into 32 bits, whatever the starting value. */
  lemma BlockFits()
    ensures Most(NMAX) < U32
  {
    MostIs(NMAX);
  }

  /** The sum that the documentation of NMAX bounds. */
  function Documented(n: nat): nat
  {
    255 * (n * (n + 1)) / 2 + (n + 1) * (BASE - 1)
  }

  /** NMAX is the largest number of bytes for which this sum fits. */
  lemma NmaxIsLargest(n: nat)
    ensures Documented(n) < U32 <==> n <= NMAX
  {
    if n <= NMAX {
      Squares(NMAX, n);
      assert (n + 1) * (BASE - 1) <= (NMAX + 1) * (BASE - 1);
    } else {
      Squares(n, NMAX + 1);
      assert (n + 1) * (BASE - 1) >= (NMAX + 2) * (BASE - 1);
    }
  }

  lemma Squares(n: nat, m: nat)
    requires n >= m
    ensures n * (n + 1) >= m * (m + 1)
  {
    assert n * (n + 1) - m * (m + 1) == (n - m) * (n + m + 1);
  }

  // ---------------------------------------------------------------- the checksum

  /** After `n` bytes without a reduction: both sums fit, and stand for `s`. */
  ghost predicate Within(a: nat, b: nat, n: nat, s: Sums)
  {
    Late(a, b, s) && a <= 65535 + 255 * n && b <= Most(n) && n <= NMAX
  }

  /** DO1. */
  method Do1(adler: uint32, sum2: uint32, buf: seq<Byte>, i: nat, ghost s: Sums, ghost n: nat, ghost j: nat)
      returns (a: uint32, b: uint32)
    requires j == i + 1 <= |buf| && n < NMAX && Within(adler, sum2, n, Checked(s, buf[..i]))
    ensures Within(a, b, n + 1, Checked(s, buf[..j]))
  {
    hide Checked;
    BlockFits();
    MostMono(n + 1, NMAX);
    CheckedNext(s, buf, i, j);
    LateByte(adler, sum2, Checked(s, buf[..i]), buf[i], Checked(s, buf[..j]));
    a := adler + buf[i];
    b := sum2 + a;
  }

  method Do2(adler: uint32, sum2: uint32, buf: seq<Byte>, i: nat, ghost s: Sums, ghost n: nat, ghost j: nat)
      returns (a: uint32, b: uint32)
    requires j == i + 2 <= |buf| && n + 2 <= NMAX && Within(adler, sum2, n, Checked(s, buf[..i]))
    ensures Within(a, b, n + 2, Checked(s, buf[..j]))
  {
    hide Within, Checked;
    a, b := Do1(adler, sum2, buf, i, s, n, i + 1);
    a, b := Do1(a, b, buf, i + 1, s, n + 1, i + 2);
  }

  method Do4(adler: uint32, sum2: uint32, buf: seq<Byte>, i: nat, ghost s: Sums, ghost n: nat, ghost j: nat)
      returns (a: uint32, b: uint32)
    requires j == i + 4 <= |buf| && n + 4 <= NMAX && Within(adler, sum2, n, Checked(s, buf[..i]))
    ensures Within(a, b, n + 4, Checked(s, buf[..j]))
  {
    hide Within, Checked;
    a, b := Do2(adler, sum2, buf, i, s, n, i + 2);
    a, b := Do2(a, b, buf, i + 2, s, n + 2, i + 4);
  }

  method Do8(adler: uint32, sum2: uint32, buf: seq<Byte>, i: nat, ghost s: Sums, ghost n: nat, ghost j: nat)
      returns (a: uint32, b: uint32)
    requires j == i + 8 <= |buf| && n + 8 <= NMAX && Within(adler, sum2, n, Checked(s, buf[..i]))
    ensures Within(a, b, n + 8, Checked(s, buf[..j]))
  {
    hide Within, Checked;
    a, b := Do4(adler, sum2, buf, i, s, n, i + 4);
    a, b := Do4(a, b, buf, i + 4, s, n + 4, i + 8);
  }

  method Do16(adler: uint32, sum2: uint32, buf: seq<Byte>, i: nat, ghost s: Sums, ghost n: nat, ghost j: nat)
      returns (a: uint32, b: uint32)
    requires j == i + 16 <= |buf| && n + 16 <= NMAX && Within(adler, sum2, n, Checked(s, buf[..i]))
    ensures Within(a, b, n + 16, Checked(s, buf[..j]))
  {
    hide Within, Checked;
    a, b := Do8(adler, sum2, buf, i, s, n, i + 8);
    a, b := Do8(a, b, buf, i + 8, s, n + 8, i + 16);
  }

  /** Both sums are reduced. */
  method Reduce(adler: uint32, sum2: uint32, ghost n: nat, ghost s: Sums) returns (a: uint32, b: uint32)
    requires Within(adler, sum2, n, s)
    ensures a == s.a && b == s.b && Within(a, b, 0, s)
  {
    a, b := Mod(adler), Mod(sum2);
  }

  lemma Start(adler: uint32, buf: seq<Byte>)
    ensures var h := Halves(adler); Within(h.a, h.b, 0, Checked(h, buf[..0]))
  {
  }

  /** The second sum of a single byte that is added to an unreduced starting value: it is not reduced either. */
  predicate Rough(s: Sums, buf: seq<Byte>)
  {
    |buf| == 1 && s.b + (s.a + buf[0]) % BASE >= 2 * BASE
  }

  /** The reduction of a single byte is exact unless the starting value was not a pair of reduced sums. */
  lemma RoughIsRare(s: Sums, buf: seq<Byte>)
    requires Rough(s, buf) && s.a < 65536 && s.b < 65536
    ensures s.b >= BASE
  {
  }

  /** `adler32`. The result for one byte at a time is exact if and only if it is not a rough one. */
  method Adler32(adler: uint32, buf: seq<Byte>) returns (r: uint32)
    ensures var s := Halves(adler); var c := Checked(s, buf);
      Halves(r) == if Rough(s, buf) then Sums(c.a, c.b + BASE) else c
  {
    ghost var s := Halves(adler);
    if |buf| == 1 {
      r := OneByte(Halves(adler), buf);
    } else if |buf| < 16 {
      r := FewBytes(adler, buf);
    } else {
      r := ManyBytes(adler, buf);
    }
  }

  lemma OneChecked(s: Sums, buf: seq<Byte>)
    requires |buf| == 1
    ensures Checked(s, buf) == Sums((s.a + buf[0]) % BASE, (s.b + (s.a + buf[0]) % BASE) % BASE)
  {
    CheckedNext(s, buf, 0, 1);
    assert buf[..1] == buf && buf[..0] == [];
    assert Checked(s, buf[..0]) == Sums(s.a % BASE, s.b % BASE);
    ModFirst(s.a, buf[0]);
    ModFirst(s.b, (s.a + buf[0]) % BASE);
  }

  lemma ModFirst(a: nat, x: nat)
    ensures (a % BASE + x) % BASE == (a + x) % BASE
  {
  }

  /** One byte: instead of reductions, the base is subtracted once. */
  method OneByte(s: Sums, buf: seq<Byte>) returns (r: uint32)
    requires |buf| == 1 && s.a < 65536 && s.b < 65536
    ensures var c := Checked(s, buf); Halves(r) == if Rough(s, buf) then Sums(c.a, c.b + BASE) else c
  {
    hide Checked, Halves, Joined;
    OneChecked(s, buf);
    var a, b := s.a + buf[0], s.b;
    if a >= BASE { a := a - BASE; }
    b := b + a;
    if b >= BASE { b := b - BASE; }
    r := Joined(Sums(a, b));
  }

  method FewBytes(adler: uint32, buf: seq<Byte>) returns (r: uint32)
    requires |buf| < 16
    ensures Halves(r) == Checked(Halves(adler), buf)
  {
    ghost var s := Halves(adler);
    hide Within, Checked, Halves;
    Start(adler, buf);
    var i, a: uint32, b: uint32 := 0, Halves(adler).a, Halves(adler).b;
    while i < |buf|
      invariant i <= |buf| && Within(a, b, i, Checked(s, buf[..i]))
    {
      a, b := Do1(a, b, buf, i, s, i, i + 1);
      i := i + 1;
    }
    assert buf[..i] == buf;
    r := FewDone(a, b, i, Checked(s, buf));
  }

  /** NMAX bytes, sixteen at a time, with one reduction. */
  method FullBlock(adler: uint32, sum2: uint32, buf: seq<Byte>, i: nat, ghost s: Sums, ghost j: nat)
      returns (a: uint32, b: uint32)
    requires j == i + NMAX <= |buf| && Within(adler, sum2, 0, Checked(s, buf[..i]))
    ensures Within(a, b, 0, Checked(s, buf[..j])) && Sums(a, b) == Checked(s, buf[..j])
  {
    hide Within, Checked;
    a, b := adler, sum2;
    var n, p := NMAX / 16, i;
    while n > 0
      invariant 0 <= n && i <= p && p + 16 * n == j && n <= NMAX / 16 && Within(a, b, p - i, Checked(s, buf[..p]))
    {
      a, b := Do16(a, b, buf, p, s, p - i, p + 16);
      p, n := p + 16, n - 1;
    }
    a, b := Reduce(a, b, NMAX, Checked(s, buf[..j]));
  }

  /** What is left, with one reduction. */
  method LastBlock(adler: uint32, sum2: uint32, buf: seq<Byte>, i: nat, ghost s: Sums) returns (a: uint32, b: uint32)
    requires i < |buf| < i + NMAX && Within(adler, sum2, 0, Checked(s, buf[..i]))
    ensures Sums(a, b) == Checked(s, buf)
  {
    hide Within, Checked;
    a, b := adler, sum2;
    var p := i;
    while |buf| - p >= 16
      invariant i <= p <= |buf| && Within(a, b, p - i, Checked(s, buf[..p]))
    {
      a, b := Do16(a, b, buf, p, s, p - i, p + 16);
      p := p + 16;
    }
    while p < |buf|
      invariant i <= p <= |buf| && Within(a, b, p - i, Checked(s, buf[..p]))
    {
      a, b := Do1(a, b, buf, p, s, p - i, p + 1);
      p := p + 1;
    }
    assert buf[..p] == buf;
    a, b := Reduce(a, b, p - i, Checked(s, buf));
  }

  method FewDone(adler: uint32, sum2: uint32, ghost n: nat, ghost c: Sums) returns (r: uint32)
    requires Within(adler, sum2, n, c) && n < 16
    ensures Halves(r) == c
  {
    hide Halves, Joined;
    MostMono(n, 15);
    MostIs(15);
    var a := adler;
    if a >= BASE { a := a - BASE; }
    r := Joined(Sums(a, Mod28(sum2)));
  }

  method ManyBytes(adler: uint32, buf: seq<Byte>) returns (r: uint32)
    requires |buf| >= 16
    ensures Halves(r) == Checked(Halves(adler), buf)
  {
    ghost var s := Halves(adler);
    Start(adler, buf);
    var i, a: uint32, b: uint32 := 0, Halves(adler).a, Halves(adler).b;
    while |buf| - i >= NMAX
      invariant i <= |buf| && Within(a, b, 0, Checked(s, buf[..i]))
      invariant i > 0 ==> Sums(a, b) == Checked(s, buf[..i])
    {
      a, b := FullBlock(a, b, buf, i, s, i + NMAX);
      i := i + NMAX;
    }
    if i < |buf| {
      a, b := LastBlock(a, b, buf, i, s);
    } else {
      assert buf[..i] == buf;
    }
    r := Joined(Sums(a, b));
  }

  // ---------------------------------------------------------------- concatenation

  /** The sums can be continued. */
  lemma {:induction false} CheckedAppend(s: Sums, a: seq<Byte>, b: seq<Byte>)
    ensures Checked(Checked(s, a), b) == Checked(s, a + b)
    decreases |b|
  {
    hide Checked;
    if b == [] {
      assert a + b == a;
      NothingChecked(Checked(s, a));
    } else {
      var k := |b| - 1;
      CheckedAppend(s, a, b[..k]);
      assert (a + b)[..|a| + k] == a + b[..k] && (a + b)[..|a + b|] == a + b && b[..|b|] == b;
      CheckedNext(s, a + b, |a| + k, |a + b|);
      CheckedNext(Checked(s, a), b, k, |b|);
    }
  }

  lemma NothingChecked(s: Sums)
    requires s.a < BASE && s.b < BASE
    ensures Checked(s, []) == s
  {
  }

  /** The same remainder. */
  predicate Same(x: int, y: int)
  {
    (x - y) % BASE == 0
  }

  /** The sums of a concatenation, from those of the parts. */
  predicate Combined(p: Sums, q: Sums, t: int, r: Sums)
  {
    && r.a < BASE && r.b < BASE && Same(r.a, p.a + q.a - 1) && Same(r.b, p.b + q.b + t)
  }

  lemma CombinedNext(p: Sums, q: Sums, t: int, r: Sums, x: Byte, q': Sums, t': int, r': Sums)
    requires Combined(p, q, t, r) && t' == t + (p.a - 1)
    requires q'.a == (q.a + x) % BASE && q'.b == (q.b + q'.a) % BASE && r'.a == (r.a + x) % BASE
    requires r'.b == (r.b + r'.a) % BASE
    ensures Combined(p, q', t', r')
  {
    SameAdd(r.a, q.a, x, x, r'.a, q'.a, p.a - 1, 0);
    SameAdd(r.b, q.b, r'.a, q'.a, r'.b, q'.b, p.b + t, p.a - 1);
  }

  lemma SameAdd(r: nat, q: nat, x: nat, y: nat, r': nat, q': nat, c: int, d: int)
    requires Same(r, q + c) && Same(x, y + d) && r' == (r + x) % BASE && q' == (q + y) % BASE
    ensures Same(r', q' + c + d)
  {
    var i, j := (r - (q + c)) / BASE, (x - (y + d)) / BASE;
    assert r + x == q + y + (c + d) + (i + j) * BASE;
    var m, n := (r + x) / BASE, (q + y) / BASE;
    assert r' == q' + (c + d) + (i + j - m + n) * BASE;
  }

  lemma {:induction false} SumsOfConcat(s: Sums, a: seq<Byte>, b: seq<Byte>)
    ensures Combined(Checked(s, a), Checked(Sums(1, 0), b), |b| * (Checked(s, a).a - 1), Checked(s, a + b))
    decreases |b|
  {
    hide Combined, Checked;
    var p := Checked(s, a);
    if b == [] {
      assert a + b == a;
      NoneCombined(p);
    } else {
      var k := |b| - 1;
      SumsOfConcat(s, a, b[..k]);
      assert (a + b)[..|a| + k] == a + b[..k] && (a + b)[..|a + b|] == a + b && b[..|b|] == b;
      CheckedNext(s, a + b, |a| + k, |a + b|);
      CheckedNext(Sums(1, 0), b, k, |b|);
      OneMore(k, p.a - 1);
      CombinedNext(p, Checked(Sums(1, 0), b[..k]), k * (p.a - 1), Checked(s, a + b[..k]), b[k],
                   Checked(Sums(1, 0), b), |b| * (p.a - 1), Checked(s, a + b));
    }
  }

  lemma NoneCombined(p: Sums)
    requires p.a < BASE && p.b < BASE
    ensures Combined(p, Checked(Sums(1, 0), []), 0, p)
  {
  }

  lemma OneMore(k: nat, t: int)
    ensures (k + 1) * t == k * t + t
  {
  }

  /** There is only one such pair. */
  lemma CombinedUnique(p: Sums, q: Sums, t: int, u: int, r: Sums, r': Sums)
    requires Combined(p, q, t, r) && Combined(p, q, u, r') && Same(t, u)
    ensures r == r'
  {
    OneRest(r.a, r'.a, p.a + q.a - 1, p.a + q.a - 1);
    OneRest(r.b, r'.b, p.b + q.b + t, p.b + q.b + u);
  }

  lemma OneRest(x: nat, y: nat, t: int, u: int)
    requires x < BASE && y < BASE && Same(x, t) && Same(y, u) && Same(t, u)
    ensures x == y
  {
  }

  /** `adler32_combine_`: the checksum of a concatenation from the two checksums and the second length. */
  method Combine(adler1: uint32, adler2: uint32, len2: int) returns (r: uint32)
    requires len2 < U63 && Halves(adler1).a < BASE && Halves(adler1).b < BASE && Halves(adler2).a < BASE
    requires Halves(adler2).b < BASE
    ensures len2 < 0 ==> r == 0xFFFF_FFFF
    ensures len2 >= 0 ==> Combined(Halves(adler1), Halves(adler2), len2 * (Halves(adler1).a - 1), Halves(r))
  {
    hide Halves, Joined, Combined, Mod, Mod63;
    if len2 < 0 { return 0xFFFF_FFFF; }
    var p, q := Halves(adler1), Halves(adler2);
    var rem: nat := Mod63(len2);
    ProductFits(rem, p.a);
    var product: uint32 := rem * p.a;
    var sum1, sum2 := AddUp(p, q, rem, product, len2);
    sum1, sum2 := Subtract(sum1, sum2);
    r := Joined(Sums(sum1, sum2));
  }

  method AddUp(p: Sums, q: Sums, rem: nat, product: uint32, ghost len2: nat) returns (sum1: uint32, sum2: uint32)
    requires p.a < BASE && p.b < BASE && q.a < BASE && q.b < BASE && rem == len2 % BASE && product == rem * p.a
    ensures sum1 < 3 * BASE && sum2 < 4 * BASE && Combined(p, q, len2 * (p.a - 1), Sums(sum1 % BASE, sum2 % BASE))
  {
    hide Combined, Mod;
    sum1, sum2 := p.a, Mod(product);
    sum1 := sum1 + (q.a + BASE - 1);
    sum2 := sum2 + (p.b + q.b + BASE - rem);
    CombineSums(p, q, len2, rem, sum1, sum2);
  }

  method Subtract(s1: uint32, s2: uint32) returns (sum1: uint32, sum2: uint32)
    requires s1 < 3 * BASE && s2 < 4 * BASE
    ensures sum1 == s1 % BASE && sum2 == s2 % BASE
  {
    sum1, sum2 := s1, s2;
    if sum1 >= BASE { sum1 := sum1 - BASE; }
    if sum1 >= BASE { sum1 := sum1 - BASE; }
    if sum2 >= 2 * BASE { sum2 := sum2 - 2 * BASE; }
    if sum2 >= BASE { sum2 := sum2 - BASE; }
  }

  lemma ProductFits(rem: nat, a: nat)
    requires rem < BASE && a < 65536
    ensures rem * a < U32
  {
    MulMono(rem, BASE - 1, a);
  }

  lemma CombineSums(p: Sums, q: Sums, len2: nat, rem: nat, sum1: nat, sum2: nat)
    requires p.a < BASE && p.b < BASE && q.a < BASE && q.b < BASE && rem == len2 % BASE
    requires sum1 == p.a + (q.a + BASE - 1) && sum2 == (rem * p.a) % BASE + (p.b + q.b + BASE - rem)
    ensures sum1 < 3 * BASE && sum2 < 4 * BASE && Combined(p, q, len2 * (p.a - 1), Sums(sum1 % BASE, sum2 % BASE))
  {
    var k := len2 / BASE;
    assert len2 == k * BASE + rem;
    Distribute(k, rem, p.a - 1);
    assert rem * (p.a - 1) == rem * p.a - rem;
    SameSum(sum2, (rem * p.a) % BASE, rem * p.a, p.b + q.b, rem, k * (p.a - 1), len2 * (p.a - 1));
  }

  lemma Distribute(k: nat, rem: nat, t: int)
    ensures (k * BASE + rem) * t == (k * t) * BASE + rem * t
  {
  }

  lemma SameSum(sum: nat, m: nat, product: nat, b: nat, rem: nat, kt: int, t: int)
    requires sum == m + (b + BASE - rem) && m == product % BASE && t == kt * BASE + (product - rem)
    ensures Same(sum % BASE, b + t)
  {
    var j := product / BASE;
    assert product == j * BASE + m;
    var i := sum / BASE;
    assert sum == i * BASE + sum % BASE;
    assert b + t - sum % BASE == (kt + j + i - 1) * BASE;
  }

  /** The checksum of a concatenation is what `adler32_combine_` makes of the two checksums. */
  lemma CombineIsConcat(s: Sums, a: seq<Byte>, b: seq<Byte>, r: Sums)
    requires var p := Checked(s, a); Combined(p, Checked(Sums(1, 0), b), |b| * (p.a - 1), r)
    ensures r == Checked(s, a + b)
  {
    hide Combined;
    var p := Checked(s, a);
    SumsOfConcat(s, a, b);
    CombinedUnique(p, Checked(Sums(1, 0), b), |b| * (p.a - 1), |b| * (p.a - 1), r, Checked(s, a + b));
  }
}

/**
  * Character references of dep/tinyxml2/tinyxml2.cpp (`GetCharacterRef`, `ConvertUTF32ToUTF8`): the number that is
  * written is the one that is read, and the bytes that are written stand for it.
  */
module XmlReferences {
  import opened XmlStrings
  import opened XmlParser

  // ---------------------------------------------------------------- numerals

  /** Digits of the base, as the source accepts them. */
  predicate Numeral(d: string, base: nat)
  {
    forall i :: 0 <= i < |d| ==> Digit(d[i], base).Some?
  }

  /** The number that a numeral stands for, the first digit weighing most. */
  function NumeralValue(d: string, base: nat): nat
    requires Numeral(d, base)
  {
    if d == "" then 0
    else NumeralValue(d[..|d| - 1], base) * base + Digit(d[|d| - 1], base).value
  }

  lemma ModTimes(m: nat, base: nat)
    ensures m % U32 * base % U32 == m * base % U32
  {
    var q, r := m / U32, m % U32;
    assert m * base == r * base + U32 * (q * base) by {
      assert m == q * U32 + r;
      assert m * base == (q * U32 + r) * base;
    }
    ModPlus(r * base, q * base);
  }

  lemma {:induction false} ModPlus(a: nat, k: nat)
    ensures (a + U32 * k) % U32 == a % U32
  {
    if k > 0 { ModPlus(a, k - 1); }
  }

  /** Adding one digit, its weight reduced, changes the sum as it should. */
  lemma OneDigit(v: nat, m: nat, mult: nat, ucs: nat)
    requires mult == m % U32 && v * m + ucs < U32
    ensures (ucs + mult * v % U32) % U64 == ucs + v * m
  {
    if v > 0 {
      assert v * m >= m;
      assert mult == m && mult * v == v * m;
    }
  }

  lemma Weigh(a: nat, base: nat, v: nat, m: nat, m': nat, ucs: nat, total: nat)
    requires total == a * base + v && m' == m * base
    ensures total * m + ucs == a * m' + (v * m + ucs) && v * m >= 0 && a * m' >= 0
  {
    assert total * m == a * base * m + v * m;
    assert a * (m * base) == a * base * m;
  }

  /** The digits are added up from the last one, although their weights wrap around. */
  lemma {:induction false} NumberIs(s: string, low: nat, q: nat, stop: char, base: nat, d: string, m: nat, mult: nat,
                                    ucs: nat)
    requires q == low + 1 + |d| <= |s| && s[low] == stop && s[low + 1..q] == d && Digit(stop, base).None?
    requires Numeral(d, base) && mult == m % U32 && NumeralValue(d, base) * m + ucs < U32
    ensures Number(s, q, low, stop, base, mult, ucs) == Some(NumeralValue(d, base) * m + ucs)
    decreases |d|
  {
    hide Digit;
    if d != "" {
      var n := |d| - 1;
      var head, v := d[..n], Digit(d[n], base).value;
      assert s[q - 1] == d[n] && s[low + 1..q - 1] == head;
      var m': nat := m * base;
      Weigh(NumeralValue(head, base), base, v, m, m', ucs, NumeralValue(d, base));
      OneDigit(v, m, mult, ucs);
      ModTimes(m, base);
      NumberIs(s, low, q - 1, stop, base, head, m', mult * base % U32, (ucs + mult * v % U32) % U64);
    }
  }

  lemma {:induction false} FindAfter(s: string, q: nat, semi: nat)
    requires q <= semi < |s| && s[semi] == ';' && forall i :: q <= i < semi ==> s[i] != NUL && s[i] != ';'
    ensures FindChar(s, q, ';') == Some(semi)
    decreases semi - q
  {
    if q < semi { FindAfter(s, q + 1, semi); }
  }

  lemma NumeralChars(s: string, p: nat, d: string, base: nat)
    requires p + |d| <= |s| && s[p..p + |d|] == d && Numeral(d, base)
    ensures forall i :: p <= i < p + |d| ==> s[i] != NUL && s[i] != ';' && s[i] != 'x'
  {
    forall i | p <= i < p + |d| ensures s[i] != NUL && s[i] != ';' && s[i] != 'x' { assert s[i] == d[i - p]; }
  }

  lemma PlacedParts(s: string, p: nat, q: nat, semi: nat, a: string, d: string)
    requires Starts(s, p, a + d + ";") && q == p + |a| && semi == q + |d|
    ensures semi < |s| && s[semi] == ';' && s[q..semi] == d && forall i :: 0 <= i < |a| ==> s[p + i] == a[i]
  {
    var w := a + d + ";";
    forall i | 0 <= i < |w| ensures s[p + i] == w[i] { assert s[p..p + |w|][i] == w[i]; }
    forall i | 0 <= i < |d| ensures s[q + i] == d[i] { assert w[|a| + i] == d[i] && s[p + (|a| + i)] == w[|a| + i]; }
    assert w[|a| + |d|] == ';' && s[p + (|a| + |d|)] == ';';
    forall i | 0 <= i < |a| ensures s[p + i] == a[i] { assert w[i] == a[i]; }
  }

  lemma Referred(s: string, p: nat, q: nat, low: nat, semi: nat, base: nat, n: nat)
    requires p + 2 <= q <= semi < |s| && s[p + 1] == '#' && s[p + 2] != NUL && s[q] != NUL
    requires if s[p + 2] == 'x' then base == 16 && q == p + 3 else base == 10 && q == p + 2
    requires FindChar(s, q, ';') == Some(semi) && low == q - 1
    requires Number(s, semi, low, if base == 16 then 'x' else '#', base, 1, 0) == Some(n)
    ensures CharacterRef(s, p) == Some(Piece(Utf8(n), semi + 1))
  {
    hide Utf8, Number, FindChar;
  }

  /** A decimal reference becomes the bytes of its number, with any number of zeros in front. */
  lemma DecimalIsRead(s: string, p: nat, d: string)
    requires Starts(s, p, "&#" + d + ";") && d != "" && Numeral(d, 10) && NumeralValue(d, 10) < U32
    ensures At(s, p + 1) == '#' && CharacterRef(s, p) == Some(Piece(Utf8(NumeralValue(d, 10)), p + |d| + 3))
  {
    hide CharacterRef, Utf8, Number, FindChar, NumeralValue, Numeral, Digit, Starts;
    var q, semi, n := p + 2, p + 2 + |d|, NumeralValue(d, 10);
    PlacedParts(s, p, q, semi, "&#", d);
    assert s[p + 1] == "&#"[1] && s[q] == d[0];
    NumeralAt(s, q, semi, p + 1, '#', 10, d, n);
    Referred(s, p, q, p + 1, semi, 10, n);
  }

  lemma NumeralAt(s: string, q: nat, semi: nat, low: nat, stop: char, base: nat, d: string, n: nat)
    requires q == low + 1 && semi == q + |d| < |s| && s[q..semi] == d && d != "" && s[semi] == ';' && s[low] == stop
    requires Numeral(d, base) && NumeralValue(d, base) == n < U32
    requires (base == 10 && stop == '#') || (base == 16 && stop == 'x')
    ensures FindChar(s, q, ';') == Some(semi) && Number(s, semi, low, stop, base, 1, 0) == Some(n)
    ensures s[q] != NUL && s[q] != 'x'
  {
    hide NumeralValue;
    NumeralChars(s, q, d, base);
    FindAfter(s, q, semi);
    NoDigits();
    assert n * 1 + 0 == n;
    NumberIs(s, low, semi, stop, base, d, 1, 1, 0);
  }

  lemma NoDigits()
    ensures Digit('#', 10).None? && Digit('x', 16).None? && 1 == 1 % U32
  {
  }

  /** A hexadecimal reference likewise. */
  lemma HexIsRead(s: string, p: nat, d: string)
    requires Starts(s, p, "&#x" + d + ";") && d != "" && Numeral(d, 16) && NumeralValue(d, 16) < U32
    ensures At(s, p + 1) == '#' && CharacterRef(s, p) == Some(Piece(Utf8(NumeralValue(d, 16)), p + |d| + 4))
  {
    hide CharacterRef, Utf8, Number, FindChar, NumeralValue, Numeral, Digit, Starts;
    var q, semi, n := p + 3, p + 3 + |d|, NumeralValue(d, 16);
    PlacedParts(s, p, q, semi, "&#x", d);
    assert s[p + 1] == "&#x"[1] && s[p + 2] == "&#x"[2] && s[q] == d[0];
    NumeralAt(s, q, semi, p + 2, 'x', 16, d, n);
    Referred(s, p, q, p + 2, semi, 16, n);
  }

  // ---------------------------------------------------------------- UTF-8

  /** The number of bytes that the first one announces (section 3 of RFC 3629). */
  function Announced(c: char): nat
  {
    if c as nat < 0x80 then 1
    else if 0xC0 <= c as nat < 0xE0 then 2
    else if 0xE0 <= c as nat < 0xF0 then 3
    else if 0xF0 <= c as nat < 0xF8 then 4
    else 0
  }

  /** The bits that the first byte of `n` contributes. */
  function Lead(c: char, n: nat): nat
  {
    if n == 1 then c as nat else if n == 2 then c as nat % 32 else if n == 3 then c as nat % 16 else c as nat % 8
  }

  /** The six bits of each following byte. */
  function Following(r: string, acc: nat): nat
    decreases |r|
  {
    if r == "" then acc else Following(r[1..], acc * 64 + r[0] as nat % 64)
  }

  predicate IsFollowing(c: char)
  {
    0x80 <= c as nat < 0xC0
  }

  /** The smallest number that needs `n` bytes. */
  function Least(n: nat): nat
  {
    if n <= 1 then 0 else if n == 2 then 0x80 else if n == 3 then 0x800 else 0x10000
  }

  /** Reads back the bytes of one number. */
  function Utf8Value(r: string): nat
    requires r != ""
  {
    Following(r[1..], Lead(r[0], |r|))
  }

  lemma TwoBytes(a: char, b: char)
    ensures Utf8Value([a, b]) == Lead(a, 2) * 64 + b as nat % 64
  {
    assert [a, b][1..] == [b] && [b][1..] == "";
    assert Following([b], Lead(a, 2)) == Following("", Lead(a, 2) * 64 + b as nat % 64);
  }

  lemma ThreeBytes(a: char, b: char, c: char)
    ensures Utf8Value([a, b, c]) == (Lead(a, 3) * 64 + b as nat % 64) * 64 + c as nat % 64
  {
    assert [a, b, c][1..] == [b, c] && [b, c][1..] == [c] && [c][1..] == "";
    assert Following([b, c], Lead(a, 3)) == Following([c], Lead(a, 3) * 64 + b as nat % 64);
  }

  lemma FourBytes(a: char, b: char, c: char, d: char)
    ensures Utf8Value([a, b, c, d]) == ((Lead(a, 4) * 64 + b as nat % 64) * 64 + c as nat % 64) * 64 + d as nat % 64
  {
    assert [a, b, c, d][1..] == [b, c, d] && [b, c, d][1..] == [c, d] && [c, d][1..] == [d] && [d][1..] == "";
    var x := Lead(a, 4) * 64 + b as nat % 64;
    assert Following([b, c, d], Lead(a, 4)) == Following([c, d], x);
    assert Following([c, d], x) == Following([d], x * 64 + c as nat % 64);
  }

  /** The form of a number that is written. */
  predicate WellFormed(r: string)
  {
    r != "" && |r| == Announced(r[0]) && forall i :: 1 <= i < |r| ==> IsFollowing(r[i])
  }

  /** Every number of up to 21 bits is written in the shortest well-formed way, from which it can be read back. */
  lemma Utf8Back(u: nat)
    requires u < 0x200000
    ensures WellFormed(Utf8(u)) && Utf8Value(Utf8(u)) == u && Least(|Utf8(u)|) <= u
  {
    hide Utf8Value;
    if u < 0x80 {
      OneByte(u as char);
    } else if u < 0x800 {
      TwoBytes((0xC0 + u / 64) as char, (0x80 + u % 64) as char);
    } else if u < 0x10000 {
      ThreeBack(u, u / 64, u / 4096);
    } else {
      FourBack(u, u / 64, u / 4096, u / 262144);
    }
  }

  lemma ThreeBack(u: nat, v: nat, w: nat)
    requires 0x800 <= u < 0x10000 && v == u / 64 && w == u / 4096
    ensures WellFormed(Utf8(u)) && Utf8Value(Utf8(u)) == u && |Utf8(u)| == 3
  {
    hide Utf8Value;
    Sixes(u, v, w);
    ThreeBytes((0xE0 + w) as char, (0x80 + v % 64) as char, (0x80 + u % 64) as char);
  }

  lemma FourBack(u: nat, v: nat, w: nat, x: nat)
    requires 0x10000 <= u < 0x200000 && v == u / 64 && w == u / 4096 && x == u / 262144
    ensures WellFormed(Utf8(u)) && Utf8Value(Utf8(u)) == u && |Utf8(u)| == 4
  {
    hide Utf8Value;
    Sixes(u, v, w);
    Sixes(v, w, x);
    FourBytes((0xF0 + x) as char, (0x80 + w % 64) as char, (0x80 + v % 64) as char, (0x80 + u % 64) as char);
  }

  lemma Sixes(u: nat, v: nat, w: nat)
    requires v == u / 64 && w == u / 4096
    ensures u == v * 64 + u % 64 && v == w * 64 + v % 64
  {
  }

  lemma OneByte(a: char)
    ensures Utf8Value([a]) == a as nat
  {
    assert [a][1..] == "" && Following("", a as nat) == a as nat;
  }
}

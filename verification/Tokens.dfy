/**
  * Literals and matches: what LZ77 turns the input into, what it means, and which symbols of the DEFLATE alphabets
  * stand for it (section 3.2.5 of RFC 1951).
  */
module Tokens {
  import opened Arith
  import opened BitStream

  datatype Token = Literal(b: Byte) | Match(length: nat, dist: nat)

  const MIN_MATCH: nat := 3
  const MAX_MATCH: nat := 258
  const LITERALS: nat := 256
  const END_BLOCK: nat := 256
  const L_CODES: nat := 286
  const D_CODES: nat := 30

  predicate ValidToken(t: Token)
  {
    t.Match? ==> MIN_MATCH <= t.length <= MAX_MATCH && 1 <= t.dist <= 32768
  }

  ghost predicate ValidTokens(ts: seq<Token>)
  {
    forall i :: 0 <= i < |ts| ==> ValidToken(ts[i])
  }

  // ---------------------------------------------------------------- meaning

  /** Appends `n` bytes, each equal to the one `dist` before it; the copy may overlap itself. */
  function Copy(out: seq<Byte>, dist: nat, n: nat): (r: seq<Byte>)
    requires 1 <= dist <= |out|
    ensures |r| == |out| + n && out <= r
    decreases n
  {
    if n == 0 then out else Copy(out + [out[|out| - dist]], dist, n - 1)
  }

  /** Copying in two parts is copying at once. */
  lemma {:induction false} CopySplit(out: seq<Byte>, d: nat, a: nat, b: nat, n: nat)
    requires 1 <= d <= |out| && n == a + b
    ensures Copy(Copy(out, d, a), d, b) == Copy(out, d, n)
    decreases a
  {
    if a != 0 { CopySplit(out + [out[|out| - d]], d, a - 1, b, n - 1); }
  }

  /** Whether a token makes sense after `n` bytes. */
  predicate Fits(t: Token, n: nat)
  {
    t.Match? ==> 1 <= t.dist <= n
  }

  function Size(t: Token): nat
  {
    if t.Literal? then 1 else t.length
  }

  function Extend(out: seq<Byte>, t: Token): (r: seq<Byte>)
    requires Fits(t, |out|)
    ensures |r| == |out| + Size(t)
  {
    match t
    case Literal(b) => out + [b]
    case Match(length, dist) => Copy(out, dist, length)
  }

  /** Every match reaches back into what is there. */
  predicate AllFit(out: seq<Byte>, ts: seq<Token>)
    decreases |ts|
  {
    ts == [] || (Fits(ts[0], |out|) && AllFit(Extend(out, ts[0]), ts[1..]))
  }

  /** The bytes that a sequence of tokens stands for, after `out`. */
  function Expand(out: seq<Byte>, ts: seq<Token>): seq<Byte>
    requires AllFit(out, ts)
    decreases |ts|
  {
    if ts == [] then out else Expand(Extend(out, ts[0]), ts[1..])
  }

  lemma {:induction false} ExpandAppend(out: seq<Byte>, ts: seq<Token>, t: Token)
    requires AllFit(out, ts) && Fits(t, |Expand(out, ts)|)
    ensures AllFit(out, ts + [t]) && Expand(out, ts + [t]) == Extend(Expand(out, ts), t)
    decreases |ts|
  {
    if ts == [] {
      assert ts + [t] == [t] && [t][1..] == [];
    } else {
      assert (ts + [t])[0] == ts[0] && (ts + [t])[1..] == ts[1..] + [t];
      ExpandAppend(Extend(out, ts[0]), ts[1..], t);
    }
  }

  // ---------------------------------------------------------------- lengths and distances as symbols

  /** Extra bits of the length codes, counted from symbol 257. */
  function ExtraL(c: nat): nat
  {
    if c < 8 || c >= 28 then 0 else (c - 4) / 4
  }

  function ExtraD(c: nat): nat
  {
    if c < 4 then 0 else c / 2 - 1
  }

  /** The first length minus 3 of each length code, as `tr_static_init` computes it. */
  function BaseL(c: nat): nat
  {
    if c == 0 then 0 else BaseL(c - 1) + Pow2(ExtraL(c - 1))
  }

  /** The first distance minus 1 of each distance code. */
  function BaseD(c: nat): nat
  {
    if c == 0 then 0 else BaseD(c - 1) + Pow2(ExtraD(c - 1))
  }

  lemma {:induction false} BaseMono(a: nat, b: nat)
    requires a <= b
    ensures BaseL(a) <= BaseL(b) && BaseD(a) <= BaseD(b)
    decreases b
  {
    if a < b { BaseMono(a, b - 1); }
  }

  lemma {:induction false} BaseGrows(c: nat)
    ensures BaseL(c) >= c && BaseD(c) >= c
  {
    if c != 0 { BaseGrows(c - 1); }
  }

  /** The last of the codes up to `c` that starts at or below `v`. */
  function SearchL(v: nat, c: nat): nat
  {
    if c == 0 || BaseL(c) <= v then c else SearchL(v, c - 1)
  }

  function SearchD(v: nat, c: nat): nat
  {
    if c == 0 || BaseD(c) <= v then c else SearchD(v, c - 1)
  }

  lemma {:induction false} SearchFinds(v: nat, c: nat)
    ensures v < BaseL(c + 1) ==> var r := SearchL(v, c); BaseL(r) <= v < BaseL(r) + Pow2(ExtraL(r))
    ensures v < BaseD(c + 1) ==> var r := SearchD(v, c); BaseD(r) <= v < BaseD(r) + Pow2(ExtraD(r))
  {
    if c != 0 { SearchFinds(v, c - 1); }
  }

  lemma LengthSpace()
    ensures BaseL(28) == 256
  {
    assert BaseL(8) == 8;
    assert BaseL(12) == 16;
    assert BaseL(16) == 32;
    assert BaseL(20) == 64;
    assert BaseL(24) == 128;
  }

  lemma {:induction false} DistSpace(k: nat, n: nat)
    requires 1 <= k && n == 2 * k
    ensures BaseD(n) == Pow2(k)
  {
    if k == 1 { assert BaseD(1) == 1; }
    else {
      DistSpace(k - 1, n - 2);
      assert ExtraD(n - 1) == k - 2 || k == 2;
      assert ExtraD(n - 2) == k - 2;
    }
  }

  /** The length code for a match of length `lc + 3`: the length 258 has a code of its own. */
  function LengthCode(lc: nat): nat
  {
    if lc == 255 then 28 else SearchL(lc, lc)
  }

  /** The distance code for the distance `d + 1`. */
  function DistCode(d: nat): nat
  {
    SearchD(d, d)
  }

  lemma LengthCodeFits(lc: nat)
    requires lc < 255
    ensures var c := LengthCode(lc); c < 28 && BaseL(c) <= lc < BaseL(c) + Pow2(ExtraL(c))
  {
    BaseGrows(lc + 1);
    SearchFinds(lc, lc);
    LengthSpace();
    SmallerL(LengthCode(lc), lc, 28);
  }

  lemma SmallerL(c: nat, v: nat, n: nat)
    requires BaseL(c) <= v < BaseL(n)
    ensures c < n
  {
    if n <= c { BaseMono(n, c); }
  }

  lemma DistCodeFits(d: nat)
    requires d < 32768
    ensures var c := DistCode(d); c < 30 && BaseD(c) <= d < BaseD(c) + Pow2(ExtraD(c))
  {
    assert Pow2(15) == 32768 by { assert Pow2(10) == 1024; }
    DistCodeBelow(d, 15, 30);
  }

  lemma DistCodeBelow(d: nat, k: nat, n: nat)
    requires 1 <= k && n == 2 * k && d < Pow2(k)
    ensures var c := DistCode(d); c < n && BaseD(c) <= d < BaseD(c) + Pow2(ExtraD(c))
  {
    DistSpace(k, n);
    BaseGrows(d + 1);
    SearchFinds(d, d);
    if n <= DistCode(d) { BaseMono(n, DistCode(d)); }
  }
}

/**
  * Frequencies of the symbols of a block (`_tr_tally` of dep/zlib/trees.c), and how many bits they predict.
  */
module BlockCost {
  import opened Arith
  import opened Canonical
  import opened BitStream
  import opened Tokens
  import opened Decoder
  import opened BlockData
  import opened Forest
  import opened TreeSums

  function Zeros(n: nat): (z: seq<nat>)
    ensures |z| == n && forall i :: 0 <= i < n ==> z[i] == 0
  {
    seq(n, i => 0)
  }

  function Bump(f: seq<nat>, s: nat): (r: seq<nat>)
    ensures |r| == |f|
  {
    if s < |f| then f[s := f[s] + 1] else f
  }

  /** How often each literal/length symbol occurs; the end of the block occurs once. */
  function LFreqs(ts: seq<Token>): (f: seq<nat>)
    requires forall i :: 0 <= i < |ts| ==> ValidToken(ts[i])
    ensures |f| == L_CODES
    decreases |ts|
  {
    if ts == [] then Bump(Zeros(L_CODES), END_BLOCK) else Bump(LFreqs(ts[..|ts| - 1]), LSymbol(ts[|ts| - 1]))
  }

  function DFreqs(ts: seq<Token>): (f: seq<nat>)
    requires forall i :: 0 <= i < |ts| ==> ValidToken(ts[i])
    ensures |f| == D_CODES
    decreases |ts|
  {
    if ts == [] then Zeros(D_CODES)
    else if ts[|ts| - 1].Literal? then DFreqs(ts[..|ts| - 1])
    else Bump(DFreqs(ts[..|ts| - 1]), DSymbol(ts[|ts| - 1]))
  }

  function SymbolExtra(n: nat): nat
  {
    if LITERALS < n then ExtraL(n - LITERALS - 1) else 0
  }

  /** Extra bits of the literal/length symbols and of the distance symbols. */
  function LExtra(): (x: seq<nat>)
    ensures |x| == L_CODES && forall n: nat :: Get(x, n) == if LITERALS < n < L_CODES then ExtraL(n - LITERALS - 1)
            else 0
  {
    seq(L_CODES, n requires 0 <= n < L_CODES => SymbolExtra(n))
  }

  function DExtra(): (x: seq<nat>)
    ensures |x| == D_CODES && forall n: nat :: Get(x, n) == if n < D_CODES then ExtraD(n) else 0
  {
    seq(D_CODES, n requires 0 <= n < D_CODES => ExtraD(n))
  }

  // ---------------------------------------------------------------- sums

  lemma {:induction false} TotalZero(f: seq<nat>, len: seq<nat>, x: seq<nat>, n: nat)
    requires forall i :: 0 <= i < |f| ==> f[i] == 0
    ensures TotalBits(f, len, x, n) == 0
  {
    if n != 0 { TotalZero(f, len, x, n - 1); }
  }

  lemma {:induction false} TotalBump(f: seq<nat>, s: nat, len: seq<nat>, x: seq<nat>, n: nat)
    requires s < |f|
    ensures TotalBits(Bump(f, s), len, x, n) == TotalBits(f, len, x, n) + (if s < n then Get(len, s) + Get(x, s) else 0)
  {
    if n != 0 {
      TotalBump(f, s, len, x, n - 1);
      if s == n - 1 { OneMore(f[s], Get(len, s) + Get(x, s)); }
    }
  }

  lemma OneMore(a: nat, b: nat)
    ensures (a + 1) * b == a * b + b
  {
  }

  // ---------------------------------------------------------------- the data of a block

  lemma {:induction false} TokensAppend(ll: seq<nat>, dl: seq<nat>, ts: seq<Token>, t: Token)
    requires AllCodable(ll, dl, ts) && Codable(ll, dl, t)
    ensures AllCodable(ll, dl, ts + [t])
    ensures TokensBits(ll, dl, ts + [t]) == TokensBits(ll, dl, ts) + TokenBits(ll, dl, t)
    decreases |ts|
  {
    hide Codable, TokenBits;
    if ts == [] {
      assert ts + [t] == [t] && [t][1..] == [];
      assert TokensBits(ll, dl, [t]) == TokenBits(ll, dl, t) + TokensBits(ll, dl, []);
    } else {
      assert (ts + [t])[0] == ts[0] && (ts + [t])[1..] == ts[1..] + [t];
      TokensAppend(ll, dl, ts[1..], t);
    }
  }

  lemma TokenCost(ll: seq<nat>, dl: seq<nat>, t: Token)
    requires Codable(ll, dl, t)
    ensures |TokenBits(ll, dl, t)| == Get(ll, LSymbol(t)) + Get(LExtra(), LSymbol(t))
                                      + (if t.Match? then Get(dl, DSymbol(t)) + Get(DExtra(), DSymbol(t)) else 0)
  {
    hide Word, LengthCode, DistCode, LExtra, DExtra;
  }

  lemma BumpedCost(f: seq<nat>, g: seq<nat>, ll: seq<nat>, dl: seq<nat>, t: Token)
    requires Codable(ll, dl, t) && |f| == L_CODES && |g| == D_CODES
    ensures TotalBits(Bump(f, LSymbol(t)), ll, LExtra(), L_CODES)
            + TotalBits(if t.Literal? then g else Bump(g, DSymbol(t)), dl, DExtra(), D_CODES)
            == TotalBits(f, ll, LExtra(), L_CODES) + TotalBits(g, dl, DExtra(), D_CODES) + |TokenBits(ll, dl, t)|
  {
    TokenCost(ll, dl, t);
    TotalBump(f, LSymbol(t), ll, LExtra(), L_CODES);
    if t.Match? { TotalBump(g, DSymbol(t), dl, DExtra(), D_CODES); }
  }

  /** The frequencies predict the length of the data exactly. */
  lemma {:induction false} CostIsExact(ll: seq<nat>, dl: seq<nat>, ts: seq<Token>)
    requires AllCodable(ll, dl, ts)
    ensures |BlockBits(ll, dl, ts)| == TotalBits(LFreqs(ts), ll, LExtra(), L_CODES)
            + TotalBits(DFreqs(ts), dl, DExtra(), D_CODES)
    decreases |ts|
  {
    if ts == [] {
      TotalBump(Zeros(L_CODES), END_BLOCK, ll, LExtra(), L_CODES);
      TotalZero(Zeros(L_CODES), ll, LExtra(), L_CODES);
      TotalZero(Zeros(D_CODES), dl, DExtra(), D_CODES);
    } else {
      var k := |ts| - 1;
      var ts', t := ts[..k], ts[k];
      assert ts == ts' + [t];
      CostIsExact(ll, dl, ts');
      TokensAppend(ll, dl, ts', t);
      BumpedCost(LFreqs(ts'), DFreqs(ts'), ll, dl, t);
    }
  }
}

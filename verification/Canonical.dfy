/**
  * The canonical Huffman code of a vector of code lengths (section 3.2.2 of RFC 1951).
  *
  * Every code word of length `l` is seen as the half-open interval of the 15-bit words that start with it (most
  * significant bit first). A code is a prefix code exactly when the intervals are disjoint, and complete when they
  * cover all of `[0, 2^15)`.
  */
module Canonical {
  import opened Arith

  const MAXBITS: nat := 15

  ghost predicate ValidLens(lens: seq<nat>)
  {
    forall i :: 0 <= i < |lens| ==> lens[i] <= MAXBITS
  }

  /** How many of the first `n` symbols have length `l`. */
  function Cnt(lens: seq<nat>, n: nat, l: nat): (c: nat)
    requires n <= |lens|
    ensures c <= n
  {
    if n == 0 then 0 else Cnt(lens, n - 1, l) + (if lens[n - 1] == l then 1 else 0)
  }

  /** How many symbols have length `l`. */
  function Count(lens: seq<nat>, l: nat): (c: nat)
    ensures c <= |lens|
  {
    Cnt(lens, |lens|, l)
  }

  /** The space, in units of 2^-15, taken by a code word of length `l`. */
  function Size(l: nat): (s: nat)
    requires l <= MAXBITS
    ensures s >= 1
  {
    Pow2(MAXBITS - l)
  }

  /** The space taken by all words of length `1 .. l - 1`; this is where those of length `l` start. */
  function Start(lens: seq<nat>, l: nat): nat
    requires 1 <= l <= MAXBITS + 1
  {
    if l == 1 then 0 else Start(lens, l - 1) + Shl(Count(lens, l - 1), MAXBITS + 1 - l)
  }

  /** The space taken by the whole code. */
  function Kraft(lens: seq<nat>): nat
  {
    Start(lens, MAXBITS + 1)
  }

  /** The number of symbols with a code of length `1 .. l - 1`. */
  function Offs(lens: seq<nat>, l: nat): nat
    requires 1 <= l <= MAXBITS + 1
  {
    if l == 1 then 0 else Offs(lens, l - 1) + Count(lens, l - 1)
  }

  predicate Used(lens: seq<nat>, i: nat)
  {
    i < |lens| && 1 <= lens[i] <= MAXBITS
  }

  /** Position of symbol `i` among the symbols of the same length. */
  function Rank(lens: seq<nat>, i: nat): nat
    requires i < |lens|
  {
    Cnt(lens, i, lens[i])
  }

  /** Where the interval of symbol `i` starts. */
  function Pos(lens: seq<nat>, i: nat): nat
    requires Used(lens, i)
  {
    Start(lens, lens[i]) + Shl(Rank(lens, i), MAXBITS - lens[i])
  }

  ghost predicate InInterval(lens: seq<nat>, i: nat, v: nat)
    requires Used(lens, i)
  {
    Pos(lens, i) <= v < Pos(lens, i) + Size(lens[i])
  }

  /** The smallest code value for each length, exactly as step 2 of section 3.2.2 of RFC 1951 computes it. */
  function NextCode(lens: seq<nat>, l: nat): nat
  {
    if l == 0 then 0
    else 2 * (NextCode(lens, l - 1) + (if l == 1 then 0 else Count(lens, l - 1)))
  }

  /** The canonical code of symbol `i`, as step 3 of section 3.2.2 of RFC 1951 assigns it. */
  function Code(lens: seq<nat>, i: nat): nat
    requires i < |lens|
  {
    NextCode(lens, lens[i]) + Rank(lens, i)
  }

  lemma {:induction false} StartIsNextCode(lens: seq<nat>, l: nat)
    requires 1 <= l <= MAXBITS
    ensures Start(lens, l) == Shl(NextCode(lens, l), MAXBITS - l)
  {
    if l != 1 {
      StartIsNextCode(lens, l - 1);
      var n, c := NextCode(lens, l - 1), Count(lens, l - 1);
      ShlAdd(n, c, MAXBITS + 1 - l);
      ShlAdd(n + c, n + c, MAXBITS - l);
    } else {
      ShlOne(MAXBITS - l);
    }
  }

  /** The interval of a symbol is the block of words whose top bits are its canonical code. */
  lemma PosIsCode(lens: seq<nat>, i: nat)
    requires Used(lens, i)
    ensures Pos(lens, i) == Shl(Code(lens, i), MAXBITS - lens[i])
  {
    StartIsNextCode(lens, lens[i]);
    ShlAdd(NextCode(lens, lens[i]), Rank(lens, i), MAXBITS - lens[i]);
  }

  /** A number lies in the block of `2^n` numbers that share the prefix `c` when its high part is `c`. */
  lemma Block(c: nat, n: nat, v: nat)
    ensures Shl(c, n) <= v < Shl(c, n) + Pow2(n) <==> High(v, n) == c
  {
    Split(v, n);
    LowBound(v, n);
    if Shl(c, n) <= v < Shl(c, n) + Pow2(n) { Concat(v - Shl(c, n), c, n); }
  }

  lemma InIntervalIsPrefix(lens: seq<nat>, i: nat, v: nat)
    requires Used(lens, i)
    ensures InInterval(lens, i, v) <==> High(v, MAXBITS - lens[i]) == Code(lens, i)
  {
    PosIsCode(lens, i);
    Block(Code(lens, i), MAXBITS - lens[i], v);
  }

  lemma {:induction false} CntMono(lens: seq<nat>, i: nat, n: nat, l: nat)
    requires i <= n <= |lens|
    ensures Cnt(lens, i, l) <= Cnt(lens, n, l)
    ensures i < n && lens[i] == l ==> Cnt(lens, i, l) < Cnt(lens, n, l)
    decreases n
  {
    if i < n { CntMono(lens, i, n - 1, l); }
  }

  lemma {:induction false} StartMono(lens: seq<nat>, l: nat, m: nat)
    requires 1 <= l <= m <= MAXBITS + 1
    ensures Start(lens, l) <= Start(lens, m) && Offs(lens, l) <= Offs(lens, m)
    decreases m
  {
    if l < m { StartMono(lens, l, m - 1); }
  }

  /** Every interval ends where, or before, the intervals of the next length start. */
  lemma PosBounds(lens: seq<nat>, i: nat)
    requires Used(lens, i)
    ensures Start(lens, lens[i]) <= Pos(lens, i)
    ensures Pos(lens, i) + Size(lens[i]) <= Start(lens, lens[i] + 1) <= Kraft(lens)
  {
    var l := lens[i];
    CntMono(lens, i, |lens|, l);
    ShlMono(Rank(lens, i) + 1, Count(lens, l), MAXBITS - l);
    ShlAdd(Rank(lens, i), 1, MAXBITS - l);
    ShlOne(MAXBITS - l);
    StartMono(lens, l + 1, MAXBITS + 1);
  }

  /** The canonical code is a prefix code: no word lies in two intervals. */
  lemma Disjoint(lens: seq<nat>, i: nat, j: nat)
    requires Used(lens, i) && Used(lens, j) && i != j
    requires lens[i] < lens[j] || (lens[i] == lens[j] && i < j)
    ensures Pos(lens, i) + Size(lens[i]) <= Pos(lens, j)
  {
    if lens[i] == lens[j] {
      CntMono(lens, i, j, lens[i]);
      var n := MAXBITS - lens[i];
      ShlMono(Rank(lens, i) + 1, Rank(lens, j), n);
      ShlAdd(Rank(lens, i), 1, n);
      ShlOne(n);
    } else {
      PosBounds(lens, i);
      PosBounds(lens, j);
      StartMono(lens, lens[i] + 1, lens[j]);
    }
  }

  lemma UniqueSymbol(lens: seq<nat>, i: nat, j: nat, v: nat)
    requires Used(lens, i) && Used(lens, j)
    requires InInterval(lens, i, v) && InInterval(lens, j, v)
    ensures i == j
  {
    if i != j {
      if lens[i] < lens[j] || (lens[i] == lens[j] && i < j) { Disjoint(lens, i, j); }
      else { Disjoint(lens, j, i); }
    }
  }

  /** The symbol of a given length and rank. */
  lemma {:induction false} FindRank(lens: seq<nat>, n: nat, l: nat, r: nat) returns (i: nat)
    requires n <= |lens| && r < Cnt(lens, n, l)
    ensures i < n && lens[i] == l && Cnt(lens, i, l) == r
  {
    if r == Cnt(lens, n - 1, l) { i := n - 1; }
    else { i := FindRank(lens, n - 1, l, r); }
  }

  lemma {:induction false} FindLength(lens: seq<nat>, v: nat, m: nat) returns (l: nat)
    requires 1 <= m <= MAXBITS + 1 && v < Start(lens, m)
    ensures 1 <= l < m && Start(lens, l) <= v < Start(lens, l + 1)
  {
    if v < Start(lens, m - 1) { l := FindLength(lens, v, m - 1); }
    else { l := m - 1; }
  }

  /** Every word below the Kraft sum starts with exactly one code word; so a complete code has no gap. */
  lemma Covered(lens: seq<nat>, v: nat) returns (i: nat)
    requires v < Kraft(lens)
    ensures Used(lens, i) && InInterval(lens, i, v)
  {
    var l := FindLength(lens, v, MAXBITS + 1);
    var w, n := v - Start(lens, l), MAXBITS - l;
    var r := High(w, n);
    Split(w, n);
    LowBound(w, n);
    if r >= Count(lens, l) { ShlMono(Count(lens, l), r, n); }
    i := FindRank(lens, |lens|, l, r);
  }
}

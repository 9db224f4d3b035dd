/**
  * Assigning code words to code lengths (`gen_codes` and `bi_reverse` of dep/zlib/trees.c).
  */
module GenCodes {
  import opened Arith
  import opened Canonical
  import BitStream
  import InflateTable

  /** Reverses the low `len` bits. */
  method BiReverse(code0: nat, len0: nat) returns (res: nat)
    requires 1 <= len0
    ensures res == Rev(code0, len0)
  {
    var code, len := code0, len0;
    res := 0;
    ghost var k := 0;
    while len > 0
      invariant k + len == len0 && code == High(code0, k) && res == 2 * Rev(code0, k)
    {
      BitStream.OrDisjoint(code % 2, Rev(code0, k), 1);
      RevPeel(code0, k);
      HighNext(code0, k);
      res := BitStream.Or(code % 2, res);
      code, res := code / 2, res * 2;
      len, k := len - 1, k + 1;
    }
    res := res / 2;
  }

  lemma {:induction false} HighNext(x: nat, k: nat)
    ensures High(x, k + 1) == High(x, k) / 2
  {
    if k != 0 { HighNext(x / 2, k - 1); }
  }

  lemma {:induction false} ShlFits(x: nat, l: nat, k: nat, n: nat)
    requires n == l + k && Shl(x, k) <= Pow2(n)
    ensures x <= Pow2(l)
  {
    if x > Pow2(l) {
      ShlMono(Pow2(l) + 1, x, k);
      ShlAdd(Pow2(l), 1, k);
      ShlOne(l);
      ShlShl(1, l, k);
      ShlOne(n);
      ShlOne(k);
    }
  }

  lemma FitsInShort(l: nat)
    requires l <= MAXBITS
    ensures Pow2(l) <= 32768
  {
    Pow2Mono(l, MAXBITS);
    assert Pow2(15) == 32768 by { assert Pow2(10) == 1024; }
  }

  /** Code words fit: the 16-bit counters of the source never wrap around. */
  lemma NextCodeFits(lens: seq<nat>, l: nat)
    requires 1 <= l <= MAXBITS && Kraft(lens) <= Pow2(MAXBITS)
    ensures NextCode(lens, l) <= Pow2(l) <= 32768
  {
    StartIsNextCode(lens, l);
    StartMono(lens, l, MAXBITS + 1);
    ShlFits(NextCode(lens, l), l, MAXBITS - l, MAXBITS);
    FitsInShort(l);
  }

  /** The first code word of each length. */
  method FirstCodes(blCount: array<nat>, ghost lens: seq<nat>) returns (nextCode: array<nat>)
    requires blCount.Length == MAXBITS + 1 && Kraft(lens) <= Pow2(MAXBITS)
    requires blCount[0] == 0 && forall b :: 1 <= b <= MAXBITS ==> blCount[b] == Count(lens, b)
    ensures fresh(nextCode) && nextCode.Length == MAXBITS + 1
    ensures forall b {:trigger nextCode[b]} :: 1 <= b <= MAXBITS ==> nextCode[b] == NextCode(lens, b)
  {
    hide Kraft, Start, Count, Pow2;
    nextCode := new nat[MAXBITS + 1];
    var code, bits := 0, 1;
    while bits <= MAXBITS
      invariant 1 <= bits <= MAXBITS + 1 && code == NextCode(lens, bits - 1)
      invariant forall b {:trigger nextCode[b]} :: 1 <= b < bits ==> nextCode[b] == NextCode(lens, b)
    {
      NextCodeFits(lens, bits);
      code := (2 * (code + blCount[bits - 1])) % 65536;
      nextCode[bits] := code;
      bits := bits + 1;
    }
  }

  /** Sets the code of every symbol that has a length; codes are sent most significant bit first, so they are
      reversed. */
  method GenCodes(fc: array<nat>, dl: array<nat>, maxCode: nat, blCount: array<nat>, ghost lens: seq<nat>)
    requires fc != dl && fc != blCount && maxCode < fc.Length == dl.Length && |lens| == maxCode + 1
    requires (forall i :: 0 <= i <= maxCode ==> lens[i] == dl[i]) && ValidLens(lens)
    requires blCount.Length == MAXBITS + 1 && Kraft(lens) <= Pow2(MAXBITS)
    requires blCount[0] == 0 && forall b :: 1 <= b <= MAXBITS ==> blCount[b] == Count(lens, b)
    modifies fc
    ensures forall i :: 0 <= i <= maxCode && lens[i] != 0 ==> fc[i] == Rev(Code(lens, i), lens[i])
    ensures forall i :: 0 <= i < fc.Length && (i > maxCode || lens[i] == 0) ==> fc[i] == old(fc[i])
  {
    var nextCode := FirstCodes(blCount, lens);
    SetCodes(fc, dl, maxCode, nextCode, lens, Words(lens), MAXBITS);
  }

  /** The code words as they are sent. */
  function Words(lens: seq<nat>): (w: seq<nat>)
    ensures |w| == |lens| && forall i {:trigger w[i]} :: 0 <= i < |lens| ==> w[i] == Rev(Code(lens, i), lens[i])
  {
    seq(|lens|, i requires 0 <= i < |lens| => Rev(Code(lens, i), lens[i]))
  }

  ghost predicate WordAt(lens: seq<nat>, words: seq<nat>, i: nat)
  {
    i < |lens| == |words| && words[i] == Rev(Code(lens, i), lens[i])
  }

  /** The counters after the codes of the first `n` symbols have been taken. */
  ghost predicate Taken(next: seq<nat>, lens: seq<nat>, n: nat)
  {
    n <= |lens| && |next| == MAXBITS + 1 && forall l {:trigger next[l]} :: 1 <= l <= MAXBITS ==>
        next[l] == NextCode(lens, l) + Cnt(lens, n, l)
  }

  lemma NoneTaken(next: seq<nat>, lens: seq<nat>, m: nat)
    requires m == MAXBITS && |next| == m + 1 && forall b {:trigger next[b]} :: 1 <= b <= m ==>
             next[b] == NextCode(lens, b)
    ensures Taken(next, lens, 0)
  {
  }

  lemma NextIsCode(next: seq<nat>, lens: seq<nat>, n: nat)
    requires Taken(next, lens, n) && Used(lens, n)
    ensures next[lens[n]] == Code(lens, n)
  {
  }

  lemma TakenNext(next: seq<nat>, next': seq<nat>, lens: seq<nat>, n: nat, n': nat)
    requires Taken(next, lens, n) && n' == n + 1 <= |lens| && |next'| == |next|
    requires forall l {:trigger next'[l]} :: 1 <= l <= MAXBITS ==>
             next'[l] == if lens[n] == l then next[l] + 1 else next[l]
    ensures Taken(next', lens, n')
  {
  }

  method SetCodes(fc: array<nat>, dl: array<nat>, maxCode: nat, nextCode: array<nat>, ghost lens: seq<nat>,
                  ghost words: seq<nat>, ghost m: nat)
    requires fc != dl && nextCode != fc && nextCode != dl && maxCode < fc.Length == dl.Length
    requires |lens| == maxCode + 1 == |words|
    requires (forall i :: 0 <= i <= maxCode ==> lens[i] == dl[i]) && ValidLens(lens)
    requires m == MAXBITS && Start(lens, m + 1) <= Pow2(m) && nextCode.Length == m + 1
    requires forall i: nat {:trigger WordAt(lens, words, i)} :: i <= maxCode ==> WordAt(lens, words, i)
    requires forall b {:trigger nextCode[b]} :: 1 <= b <= m ==> nextCode[b] == NextCode(lens, b)
    modifies fc, nextCode
    ensures forall i :: 0 <= i <= maxCode && lens[i] != 0 ==> fc[i] == words[i]
    ensures forall i :: 0 <= i < fc.Length && (i > maxCode || lens[i] == 0) ==> fc[i] == old(fc[i])
  {
    hide NextCode, Start, WordAt, Taken;
    NoneTaken(nextCode[..], lens, m);
    var n: nat := 0;
    while n <= maxCode
      invariant n <= maxCode + 1
      invariant Taken(nextCode[..], lens, n)
      invariant forall i :: 0 <= i < n && lens[i] != 0 ==> fc[i] == words[i]
      invariant forall i :: 0 <= i < fc.Length && (i >= n || lens[i] == 0) ==> fc[i] == old(fc[i])
    {
      assert WordAt(lens, words, n);
      var n': nat := n + 1;
      if dl[n] != 0 { fc[n] := NextWord(nextCode, dl[n], n, n', lens, words, m); }
      else { TakenNext(nextCode[..], nextCode[..], lens, n, n'); }
      n := n';
    }
  }

  /** Takes the next code word of length `len`. */
  method NextWord(nextCode: array<nat>, len: nat, ghost n: nat, ghost n': nat, ghost lens: seq<nat>,
                  ghost words: seq<nat>, ghost m: nat) returns (code: nat)
    requires nextCode.Length == MAXBITS + 1 && n < n' == n + 1 <= |lens| && 1 <= len == lens[n] <= m
    requires m == MAXBITS && Start(lens, m + 1) <= Pow2(m)
    requires Taken(nextCode[..], lens, n) && WordAt(lens, words, n)
    modifies nextCode
    ensures code == words[n] && Taken(nextCode[..], lens, n')
  {
    hide Start, NextCode, Pow2, Cnt, Code, Rev;
    ghost var next := nextCode[..];
    NextIsCode(next, lens, n);
    code := BiReverse(nextCode[len], len);
    InflateTable.HuffIsRevCode(lens, n);
    FitsInShort(len);
    nextCode[len] := (nextCode[len] + 1) % 65536;
    TakenNext(next, nextCode[..], lens, n, n');
  }
}

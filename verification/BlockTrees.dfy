/**
  * The three codes of a dynamic block: `build_tree` for literals/lengths, distances and code lengths, and
  * `build_bl_tree` of dep/zlib/trees.c.
  */
module BlockTrees {
  import opened Arith
  import opened Canonical
  import opened BitStream
  import opened Tokens
  import opened Decoder
  import opened BlockData
  import opened BlockCost
  import opened TreeHeader
  import opened BlockWriter
  import opened Forest
  import opened TreeSums
  import BT = BuildTree
  import GB = GenBitlen
  import CL = CodeLengths
  import IT = InflateTable

  const BL_CODES: nat := 19

  // ---------------------------------------------------------------- lengths beyond the last code

  lemma {:induction false} NextCodeSame(all: seq<nat>, lens: seq<nat>, l: nat)
    requires forall b {:trigger Count(all, b)} :: b >= 1 ==> Count(all, b) == Count(lens, b)
    ensures NextCode(all, l) == NextCode(lens, l)
  {
    if l != 0 {
      NextCodeSame(all, lens, l - 1);
      if l != 1 { assert Count(all, l - 1) == Count(lens, l - 1); }
    }
  }

  lemma {:induction false} StartSame(all: seq<nat>, lens: seq<nat>, l: nat)
    requires 1 <= l <= MAXBITS + 1 && forall b {:trigger Count(all, b)} :: b >= 1 ==> Count(all, b) == Count(lens, b)
    ensures Start(all, l) == Start(lens, l)
  {
    if l != 1 {
      StartSame(all, lens, l - 1);
      assert Count(all, l - 1) == Count(lens, l - 1);
    }
  }

  /** `all` is `lens` with zeros behind. */
  ghost predicate Padded0(all: seq<nat>, lens: seq<nat>)
  {
    lens <= all && forall i :: |lens| <= i < |all| ==> all[i] == 0
  }

  lemma PaddedCounts(all: seq<nat>, lens: seq<nat>)
    requires Padded0(all, lens)
    ensures forall b {:trigger Count(all, b)} :: b >= 1 ==> Count(all, b) == Count(lens, b)
  {
    forall b {:trigger Count(all, b)} | b >= 1 ensures Count(all, b)
        == Count(lens, b) { BT.CntPrefix(all, lens, b, |all|); }
  }

  lemma PaddedCode(all: seq<nat>, lens: seq<nat>, i: nat)
    requires Padded0(all, lens) && i < |lens| && lens[i] != 0
    ensures Code(all, i) == Code(lens, i)
  {
    PaddedCounts(all, lens);
    NextCodeSame(all, lens, lens[i]);
    BT.CntPrefix(all, lens, lens[i], i);
  }

  lemma PaddedKraft(all: seq<nat>, lens: seq<nat>)
    requires Padded0(all, lens)
    ensures Kraft(all) == Kraft(lens)
  {
    PaddedCounts(all, lens);
    StartSame(all, lens, MAXBITS + 1);
  }

  // ---------------------------------------------------------------- the cost of the header

  /** Frequencies of the code length symbols. */
  ghost predicate OpFreqs(f: seq<nat>, ops: seq<CL.Op>)
  {
    |f| >= BL_CODES && forall s: nat {:trigger f[s]} :: s < BL_CODES ==> f[s] == CL.Occurs(ops, s)
  }

  function BlExtra(): (x: seq<nat>)
    ensures |x| == BL_CODES && forall n: nat :: Get(x, n) == if n < BL_CODES then CL.ExtraBits(n) else 0
  {
    seq(BL_CODES, n requires 0 <= n < BL_CODES => CL.ExtraBits(n))
  }

  function OpFreq(ops: seq<CL.Op>): (f: seq<nat>)
    ensures |f| == BL_CODES && forall s: nat {:trigger f[s]} :: s < BL_CODES ==> f[s] == CL.Occurs(ops, s)
  {
    seq(BL_CODES, s requires 0 <= s < BL_CODES => CL.Occurs(ops, s))
  }

  lemma {:induction false} OpsCost(bl: seq<nat>, ops: seq<CL.Op>)
    requires UsableOps(bl, ops)
    ensures |OpsBits(bl, ops)| == TotalBits(OpFreq(ops), bl, BlExtra(), BL_CODES)
    decreases |ops|
  {
    if ops == [] {
      TotalZero(OpFreq(ops), bl, BlExtra(), BL_CODES);
    } else {
      OpsCost(bl, ops[1..]);
      assert OpFreq(ops) == Bump(OpFreq(ops[1..]), ops[0].sym);
      TotalBump(OpFreq(ops[1..]), ops[0].sym, bl, BlExtra(), BL_CODES);
    }
  }

  /** Header bits: three counts, `bn` lengths of three bits, and the run-length symbols. */
  lemma HeaderCost(ll: seq<nat>, dl: seq<nat>, bl: seq<nat>, bn: nat)
    requires Sendable(ll, dl, bl, bn)
    ensures |HeaderBits(ll, dl, bl, bn)| == 14 + 3 * bn
            + TotalBits(OpFreq(CL.Encode(ll) + CL.Encode(dl)), bl, BlExtra(), BL_CODES)
  {
    OrderIsPermutation();
    OpsCost(bl, CL.Encode(ll) + CL.Encode(dl));
  }

  // ---------------------------------------------------------------- the code length code

  /** Zeros and repeats of zeros expand to zeros. */
  lemma {:induction false} OnlyZeros(have: seq<nat>, ops: seq<CL.Op>, limit: nat)
    requires CL.Expand(have, ops, limit).Ok? && (forall i :: 0 <= i < |have| ==> have[i] == 0)
    requires forall i :: 0 <= i < |ops| ==> ops[i].sym == 0 || ops[i].sym >= 16
    ensures forall i :: 0 <= i < |CL.Expand(have, ops, limit).lens| ==> CL.Expand(have, ops, limit).lens[i] == 0
    decreases |ops|
  {
    if ops != [] {
      var r := CL.Apply(have, ops[0], limit).lens;
      assert forall i :: 0 <= i < |r| ==> r[i] == 0;
      OnlyZeros(r, ops[1..], limit);
    }
  }

  /** A length that is not zero is sent as itself somewhere. */
  lemma SomeLength(ll: seq<nat>, dl: seq<nat>, k: nat)
    requires (forall i :: 0 <= i < |ll| ==> ll[i] < 16) && (forall i :: 0 <= i < |dl| ==> dl[i] < 16) && k < |ll|
    requires ll[k] != 0
    ensures var ops := CL.Encode(ll) + CL.Encode(dl); exists i :: 0 <= i < |ops| && 1 <= ops[i].sym < 16
  {
    var ops := CL.Encode(ll) + CL.Encode(dl);
    CL.RoundTrip(ll, dl);
    assert (ll + dl)[k] == ll[k];
    if forall i :: 0 <= i < |ops| ==> ops[i].sym == 0 || ops[i].sym >= 16 { OnlyZeros([], ops, |ll| + |dl|); }
  }

  lemma {:induction false} OccursOnce(ops: seq<CL.Op>, i: nat)
    requires i < |ops|
    ensures CL.Occurs(ops, ops[i].sym) > 0
    decreases |ops|
  {
    if i > 0 { OccursOnce(ops[1..], i - 1); }
  }

  /** The code length code has a word for everything that is sent. */
  lemma OpsUsable(f: seq<nat>, ops: seq<CL.Op>, lens: seq<nat>, bl: seq<nat>)
    requires OpFreqs(f, ops) && CL.ValidOps(ops) && BT.Coded(f, lens, BL_CODES, 7) && Padded0(bl, lens)
    ensures UsableOps(bl, ops)
  {
    forall i | 0 <= i < |ops| ensures Used(bl, ops[i].sym) && CL.ValidOp(ops[i]) {
      OccursOnce(ops, i);
      var s := ops[i].sym;
      assert CL.ValidOp(ops[i]);
      assert f[s] == Get(f, s) > 0;
      assert s < |lens| && lens[s] != 0 && bl[s] == lens[s] <= 7;
    }
  }

  /** The code length code as it is sent, and how many of its lengths. */
  ghost predicate BlCode(ll: seq<nat>, dl: seq<nat>, bl: seq<nat>, bn: nat, bltree: CodeTree)
  {
    && Sendable(ll, dl, bl, bn) && Trimmed(bl, ORDER, bn) && Kraft(bl) == Pow2(MAXBITS)
    && Holds(bltree, bl) && |bltree.code| >= BL_CODES && |bltree.len| >= BL_CODES && forall i :: 0 <= i < BL_CODES ==>
        bltree.len[i] == bl[i]
  }

  /** The last length worth sending; at least four are sent. */
  method LastLength(len: seq<nat>, order: seq<nat>) returns (maxBlIndex: nat)
    requires |order| >= 4 && (forall i :: 0 <= i < |order| ==> order[i] < |len|)
    requires exists i :: 3 <= i < |order| && len[order[i]] != 0
    ensures 3 <= maxBlIndex < |order| && Trimmed(len, order, maxBlIndex + 1)
  {
    maxBlIndex := |order| - 1;
    while maxBlIndex >= 3 && len[order[maxBlIndex]] == 0
      invariant 2 <= maxBlIndex < |order| && Trimmed(len, order, maxBlIndex + 1)
      invariant exists i :: 3 <= i <= maxBlIndex && len[order[i]] != 0
    {
      maxBlIndex := maxBlIndex - 1;
    }
  }

  lemma BothOccur(f: seq<nat>, g: seq<nat>, h: seq<nat>, a: seq<CL.Op>, b: seq<CL.Op>)
    requires BL_CODES <= |f| == |g| == |h| && forall s: nat {:trigger f[s]} :: s < BL_CODES ==> f[s] == 0
    requires forall s: nat {:trigger g[s]} :: s < |f| ==> g[s] == f[s] + CL.Occurs(a, s)
    requires forall s: nat {:trigger h[s]} :: s < |f| ==> h[s] == g[s] + CL.Occurs(b, s)
    ensures OpFreqs(h, a + b)
  {
    forall s: nat | s < BL_CODES ensures h[s] == CL.Occurs(a + b, s) { CL.OccursConcat(a, b, s); }
  }

  /** Counts the symbols of both trees. */
  method ScanTrees(bfc: array<nat>, ll: seq<nat>, dl: seq<nat>)
    requires bfc.Length >= BL_CODES && (forall i :: 0 <= i < BL_CODES ==> bfc[i] == 0) && |ll| >= 1 && |dl| >= 1
    requires (forall i :: 0 <= i < |ll| ==> ll[i] < 16) && (forall i :: 0 <= i < |dl| ==> dl[i] < 16)
    modifies bfc
    ensures OpFreqs(bfc[..], CL.Encode(ll) + CL.Encode(dl))
  {
    ghost var f := bfc[..];
    CL.ScanTree(bfc, ll);
    ghost var g := bfc[..];
    CL.ScanTree(bfc, dl);
    BothOccur(f, g, bfc[..], CL.Encode(ll), CL.Encode(dl));
  }

  lemma BlHolds(t: CodeTree, lens: seq<nat>, bl: seq<nat>)
    requires Padded0(bl, lens) && |t.code| >= |bl| && |t.len| >= |bl|
    requires (forall i :: 0 <= i < |bl| ==> t.len[i] == bl[i])
    requires forall i :: 0 <= i < |lens| && lens[i] != 0 ==> t.code[i] == Rev(Code(lens, i), lens[i])
    ensures Holds(t, bl)
  {
    forall i: nat ensures WordFor(t, bl, i) {
      if Used(bl, i) {
        assert bl[i] == lens[i];
        PaddedCode(bl, lens, i);
      }
    }
  }

  /** Some length from the fourth on, in the order of sending, is not zero. */
  lemma FourthOrLater(bl: seq<nat>, ops: seq<CL.Op>, i: nat)
    requires |bl| == BL_CODES && UsableOps(bl, ops) && i < |ops| && 1 <= ops[i].sym < 16
    ensures exists k :: 3 <= k < |ORDER| && bl[ORDER[k]] != 0
  {
    OrderIsPermutation();
    var s := ops[i].sym;
    assert Used(bl, s);
    var k := INVERSE[s];
    assert ORDER[k] == s && ORDER[0] == 16 && ORDER[1] == 17 && ORDER[2] == 18;
    assert 3 <= k < |ORDER| && bl[ORDER[k]] != 0;
  }

  lemma {:induction false} TotalSame(f: seq<nat>, g: seq<nat>, len: seq<nat>, len': seq<nat>, x: seq<nat>, y: seq<nat>,
                                     n: nat)
    requires forall k: nat :: k < n ==> Get(f, k) == Get(g, k) && Get(len, k) == Get(len', k) && Get(x, k) == Get(y, k)
    ensures TotalBits(f, len, x, n) == TotalBits(g, len', y, n)
  {
    if n != 0 { TotalSame(f, g, len, len', x, y, n - 1); }
  }

  /** Lengths of the two codes that a header can carry. */
  ghost predicate Proper(ll: seq<nat>, dl: seq<nat>)
  {
    && 257 <= |ll| <= 286 && 1 <= |dl| <= 30 && ll[END_BLOCK] != 0
    && (forall i :: 0 <= i < |ll| ==> ll[i] < 16) && (forall i :: 0 <= i < |dl| ==> dl[i] < 16)
  }

  lemma BlLengths(f: seq<nat>, ll: seq<nat>, dl: seq<nat>, lens: seq<nat>, bl: seq<nat>)
    requires Proper(ll, dl) && OpFreqs(f, CL.Encode(ll) + CL.Encode(dl)) && BT.Coded(f, lens, BL_CODES, 7)
    requires Padded0(bl, lens) && |bl| == BL_CODES
    ensures UsableOps(bl, CL.Encode(ll) + CL.Encode(dl)) && (forall i :: 0 <= i < |bl| ==> bl[i] < 8)
    ensures Kraft(bl) == Pow2(MAXBITS) && Unambiguous(bl)
    ensures exists k :: 3 <= k < |ORDER| && bl[ORDER[k]] != 0
  {
    var ops := CL.Encode(ll) + CL.Encode(dl);
    CL.RoundTrip(ll, dl);
    OpsUsable(f, ops, lens, bl);
    forall i | 0 <= i < |bl| ensures bl[i] < 8 { if i < |lens| { assert bl[i] == lens[i]; } }
    PaddedKraft(bl, lens);
    KraftUnambiguous(bl);
    SomeLength(ll, dl, END_BLOCK);
    var i :| 0 <= i < |ops| && 1 <= ops[i].sym < 16;
    FourthOrLater(bl, ops, i);
  }

  lemma BlCost(f: seq<nat>, ll: seq<nat>, dl: seq<nat>, lens: seq<nat>, bl: seq<nat>, bn: nat, x: seq<nat>)
    requires OpFreqs(f, CL.Encode(ll) + CL.Encode(dl)) && Padded0(bl, lens) && |bl| == BL_CODES
    requires Sendable(ll, dl, bl, bn)
    requires forall n: nat :: n < BL_CODES ==> Get(x, n) == CL.ExtraBits(n)
    ensures TotalBits(f, lens, x, BL_CODES) + 3 * bn + 14 == |HeaderBits(ll, dl, bl, bn)|
  {
    var g := OpFreq(CL.Encode(ll) + CL.Encode(dl));
    HeaderCost(ll, dl, bl, bn);
    forall k: nat | k < BL_CODES ensures Get(f, k) == Get(g, k) && Get(lens, k) == Get(bl, k)
        && Get(x, k) == Get(BlExtra(), k) {
      assert f[k] == g[k];
    }
    TotalSame(f, g, lens, bl, x, BlExtra(), BL_CODES);
  }

  /** Builds the code length code and counts its cost. */
  method BuildBlTree(bfc: array<nat>, bdl: array<nat>, ll: seq<nat>, dl: seq<nat>, optLen0: int)
    returns (bltree: CodeTree, bn: nat, optLen: int, ghost bl: seq<nat>)
    requires bfc != bdl && 2 * BL_CODES <= bfc.Length == bdl.Length && (forall i :: 0 <= i < BL_CODES ==> bfc[i] == 0)
    requires Proper(ll, dl)
    modifies bfc, bdl
    ensures BlCode(ll, dl, bl, bn, bltree) && optLen == optLen0 + |HeaderBits(ll, dl, bl, bn)|
  {
    ScanTrees(bfc, ll, dl);
    ghost var f := bfc[..];
    ghost var lens;
    bltree, optLen, lens := BlTree(bfc, bdl, optLen0, f);
    bl := bltree.len[..BL_CODES];
    BlLengths(f, ll, dl, lens, bl);
    BlHolds(bltree, lens, bl);
    OrderIsPermutation();
    var maxBlIndex := LastLength(bltree.len, ORDER);
    bn := maxBlIndex + 1;
    optLen := optLen + 3 * (maxBlIndex + 1) + 5 + 5 + 4;
    BlCost(f, ll, dl, lens, bl, bn, BlExtra());
  }

  /** `build_tree` for the code length code. */
  method BlTree(bfc: array<nat>, bdl: array<nat>, optLen0: int, ghost f: seq<nat>)
    returns (bltree: CodeTree, optLen: int, ghost lens: seq<nat>)
    requires bfc != bdl && 2 * BL_CODES <= bfc.Length == bdl.Length && f == bfc[..]
    modifies bfc, bdl
    ensures |bltree.code| >= BL_CODES && |bltree.len| >= BL_CODES && Padded0(bltree.len[..BL_CODES], lens)
    ensures BT.Coded(f, lens, BL_CODES, 7)
    ensures forall i :: 0 <= i < |lens| && lens[i] != 0 ==> bltree.code[i] == Rev(Code(lens, i), lens[i])
    ensures optLen == optLen0 + TotalBits(f, lens, BlExtra(), BL_CODES)
  {
    assert Pow2(7) == 128;
    var extra := BlExtra();
    assert GB.ExtraBits(extra, 0, BL_CODES) == extra by {
      forall n: nat | n < BL_CODES ensures GB.ExtraBits(extra, 0, BL_CODES)[n] == extra[n] {
        assert Get(GB.ExtraBits(extra, 0, BL_CODES), n) == extra[n];
      }
    }
    var maxCode, staticLen, overflow;
    maxCode, optLen, staticLen, overflow, lens := BT.BuildTree(bfc, bdl, BL_CODES, 7, extra, 0, false, [], optLen0, 0);
    bltree := CodeTree(bfc[..], bdl[..]);
    ZerosBehind(bltree.len, lens, maxCode);
  }

  lemma ZerosBehind(len: seq<nat>, lens: seq<nat>, maxCode: nat)
    requires maxCode < BL_CODES <= |len| && lens == len[..maxCode + 1] && forall n :: maxCode < n < BL_CODES ==>
             len[n] == 0
    ensures Padded0(len[..BL_CODES], lens)
  {
    assert lens == len[..BL_CODES][..maxCode + 1];
  }

  // ---------------------------------------------------------------- the codes of the data

  /** The array holds the frequencies `f` of the symbols. */
  ghost predicate Tallied(fc: seq<nat>, f: seq<nat>)
  {
    |f| <= |fc| && forall i :: 0 <= i < |f| ==> fc[i] == f[i]
  }

  /** A code for all symbols that occur, shorter for frequent ones, and the tree that holds it. */
  ghost predicate CodeFor(f: seq<nat>, lens: seq<nat>, t: CodeTree)
  {
    && BT.Coded(f, lens, |f|, MAXBITS) && BT.FairCode(f, lens, |f|)
    && Holds(t, lens) && |t.code| >= |f| && lens <= t.len
  }

  lemma SameCoded(fc: seq<nat>, f: seq<nat>, lens: seq<nat>, elems: nat, m: nat)
    requires Tallied(fc, f) && elems == |f| && BT.Coded(fc, lens, elems, m)
    ensures BT.Coded(f, lens, elems, m)
  {
    forall i: nat | i < elems && Get(f, i) != 0 ensures i < |lens| && lens[i] != 0 { assert Get(fc, i) == Get(f, i); }
  }

  lemma SameFair(fc: seq<nat>, f: seq<nat>, lens: seq<nat>, elems: nat)
    requires Tallied(fc, f) && elems == |f| && BT.FairCode(fc, lens, elems)
    ensures BT.FairCode(f, lens, elems)
  {
    forall i: nat | i < elems ensures Get(f, i) == Get(fc, i) { }
  }

  lemma HoldsPrefix(t: CodeTree, lens: seq<nat>)
    requires |lens| <= |t.code| == |t.len| && lens == t.len[..|lens|]
    requires forall i :: 0 <= i < |lens| && lens[i] != 0 ==> t.code[i] == Rev(Code(lens, i), lens[i])
    ensures Holds(t, lens)
  {
    forall i: nat ensures WordFor(t, lens, i) {
      if Used(lens, i) { assert lens[i] == t.len[i]; }
    }
  }

  /** `build_tree` for one of the two alphabets of the data. */
  method DataTree(fc: array<nat>, dl: array<nat>, extra: seq<nat>, base: nat, stree: seq<nat>, optLen0: int,
                  staticLen0: int, ghost f: seq<nat>, ghost x: seq<nat>, elems: nat)
    returns (t: CodeTree, maxCode: nat, optLen: int, staticLen: int, ghost lens: seq<nat>)
    requires fc != dl && 2 * elems <= fc.Length == dl.Length && 3 <= elems == |f| <= 32768 && Tallied(fc[..], f)
    requires elems <= base + |extra| && elems <= |stree|
    requires (forall n: nat :: n < elems ==> Get(GB.ExtraBits(extra, base, elems), n) == Get(x, n))
    requires forall i: nat :: i < 3 ==> Get(x, i) == 0
    modifies fc, dl
    ensures CodeFor(f, lens, t) && |lens| == maxCode + 1
    ensures optLen == optLen0 + TotalBits(f, lens, x, elems) && staticLen == staticLen0 + TotalBits(f, stree, x, elems)
  {
    ghost var all := fc[..];
    assert Pow2(15) == 32768 by { assert Pow2(10) == 1024; }
    var overflow;
    maxCode, optLen, staticLen, overflow, lens :=
        BT.BuildTree(fc, dl, elems, MAXBITS, extra, base, true, stree, optLen0, staticLen0);
    t := CodeTree(fc[..], dl[..]);
    SameCoded(all, f, lens, elems, MAXBITS);
    SameFair(all, f, lens, elems);
    HoldsPrefix(t, lens);
    SameTotals(all, f, lens, stree, GB.ExtraBits(extra, base, elems), x, elems);
  }

  lemma SameTotals(fc: seq<nat>, f: seq<nat>, lens: seq<nat>, stree: seq<nat>, y: seq<nat>, x: seq<nat>, elems: nat)
    requires Tallied(fc, f) && elems == |f| && forall n: nat :: n < elems ==> Get(y, n) == Get(x, n)
    ensures TotalBits(fc, lens, y, elems) == TotalBits(f, lens, x, elems)
    ensures TotalBits(fc, stree, y, elems) == TotalBits(f, stree, x, elems)
  {
    forall k: nat | k < elems ensures Get(fc, k) == Get(f, k) { }
    TotalSame(fc, f, lens, lens, y, x, elems);
    TotalSame(fc, f, stree, stree, y, x, elems);
  }

  // ---------------------------------------------------------------- codes for a list of tokens

  lemma {:induction false} LFreqPositive(ts: seq<Token>, i: nat)
    requires ValidTokens(ts) && i < |ts|
    ensures LFreqs(ts)[LSymbol(ts[i])] > 0
    ensures ts[i].Match? ==> DFreqs(ts)[DSymbol(ts[i])] > 0
    decreases |ts|
  {
    var k := |ts| - 1;
    if i < k {
      LFreqPositive(ts[..k], i);
      assert ts[..k][i] == ts[i];
    }
  }

  lemma {:induction false} EndOccurs(ts: seq<Token>)
    requires ValidTokens(ts)
    ensures LFreqs(ts)[END_BLOCK] > 0
    decreases |ts|
  {
    if ts != [] { EndOccurs(ts[..|ts| - 1]); }
  }

  lemma CodedUsed(f: seq<nat>, lens: seq<nat>, n: nat)
    requires BT.Coded(f, lens, |f|, MAXBITS) && n < |f| && f[n] > 0
    ensures Used(lens, n)
  {
    assert Get(f, n) > 0;
  }

  lemma CodedTokens(ts: seq<Token>, ll: seq<nat>, dl: seq<nat>)
    requires ValidTokens(ts) && BT.Coded(LFreqs(ts), ll, L_CODES, MAXBITS) && BT.Coded(DFreqs(ts), dl, D_CODES, MAXBITS)
    ensures AllCodable(ll, dl, ts)
  {
    EndOccurs(ts);
    CodedUsed(LFreqs(ts), ll, END_BLOCK);
    forall i | 0 <= i < |ts| ensures Codable(ll, dl, ts[i]) {
      LFreqPositive(ts, i);
      CodedUsed(LFreqs(ts), ll, LSymbol(ts[i]));
      if ts[i].Match? { CodedUsed(DFreqs(ts), dl, DSymbol(ts[i])); }
    }
  }

  lemma CodedProper(ts: seq<Token>, ll: seq<nat>, dl: seq<nat>)
    requires ValidTokens(ts) && BT.Coded(LFreqs(ts), ll, L_CODES, MAXBITS) && BT.Coded(DFreqs(ts), dl, D_CODES, MAXBITS)
    ensures Proper(ll, dl) && PrefixCodes(ll, dl)
  {
    EndOccurs(ts);
    CodedUsed(LFreqs(ts), ll, END_BLOCK);
    KraftUnambiguous(ll);
    KraftUnambiguous(dl);
  }
}

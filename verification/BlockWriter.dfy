/**
  * Sending blocks: `send_code`, `compress_block`, `send_tree`, `send_all_trees` and `_tr_stored_block` of
  * dep/zlib/trees.c, as methods over the bit writer.
  */
module BlockWriter {
  import opened Arith
  import opened Canonical
  import opened BitStream
  import opened Tokens
  import opened Decoder
  import opened BlockData
  import opened BlockCost
  import opened TreeHeader
  import CL = CodeLengths

  /** The trees of the source: a code word and a length for every symbol. */
  datatype CodeTree = CodeTree(code: seq<nat>, len: seq<nat>)

  ghost predicate WordFor(t: CodeTree, lens: seq<nat>, i: nat)
  {
    Used(lens, i) && i < |t.code| ==> i < |t.len| && t.len[i] == lens[i] && t.code[i] == Rev(Code(lens, i), lens[i])
  }

  /** The tree holds the canonical code of `lens`, as far as it goes. */
  ghost predicate Holds(t: CodeTree, lens: seq<nat>)
  {
    forall i: nat {:trigger WordFor(t, lens, i)} :: WordFor(t, lens, i)
  }

  /** Sends the code word of a symbol. */
  method SendCode(w: BitWriter, c: nat, t: CodeTree, ghost lens: seq<nat>)
    requires w.Valid() && Used(lens, c) && c < |t.code| && Holds(t, lens)
    modifies w
    ensures w.Valid() && w.Stream() == old(w.Stream()) + Word(lens, c)
  {
    assert WordFor(t, lens, c);
    RevBound(Code(lens, c), lens[c]);
    w.SendBits(t.code[c], t.len[c]);
  }

  lemma Chain(a: Bits, b: Bits, c: Bits, d: Bits)
    requires b == a + c
    ensures b + d == a + (c + d)
  {
  }

  method SendLength(w: BitWriter, lc: nat, ltree: CodeTree, ghost ll: seq<nat>)
    requires w.Valid() && lc <= 255 && Used(ll, LengthSymbol(lc)) && Holds(ltree, ll) && |ltree.code| >= L_CODES
    modifies w
    ensures w.Valid() && w.Stream() == old(w.Stream()) + LengthBits(ll, lc)
  {
    var code := LengthCode(lc);
    if lc < 255 { LengthCodeFits(lc); }
    ghost var s := w.Stream();
    SendCode(w, code + LITERALS + 1, ltree, ll);
    var extra := ExtraL(code);
    Chain(s, w.Stream(), Word(ll, LengthSymbol(lc)), ToBits(LOffset(lc), extra));
    if extra != 0 { w.SendBits(lc - BaseL(code), extra); }
  }

  method SendDist(w: BitWriter, d: nat, dtree: CodeTree, ghost dl: seq<nat>)
    requires w.Valid() && d < 32768 && Used(dl, DistCode(d)) && Holds(dtree, dl) && |dtree.code| >= D_CODES
    modifies w
    ensures w.Valid() && w.Stream() == old(w.Stream()) + DistBits(dl, d)
  {
    var code := DistCode(d);
    DistCodeFits(d);
    ghost var s := w.Stream();
    SendCode(w, code, dtree, dl);
    var extra := ExtraD(code);
    Chain(s, w.Stream(), Word(dl, code), ToBits(DOffset(d), extra));
    if extra != 0 { w.SendBits(d - BaseD(code), extra); }
  }

  method SendToken(w: BitWriter, t: Token, ltree: CodeTree, dtree: CodeTree, ghost ll: seq<nat>, ghost dl: seq<nat>)
    requires w.Valid() && Codable(ll, dl, t) && Holds(ltree, ll) && Holds(dtree, dl) && |ltree.code| >= L_CODES
    requires |dtree.code| >= D_CODES
    modifies w
    ensures w.Valid() && w.Stream() == old(w.Stream()) + TokenBits(ll, dl, t)
  {
    match t
    case Literal(b) =>
      SendCode(w, b, ltree, ll);
    case Match(length, dist) =>
      ghost var s := w.Stream();
      SendLength(w, length - MIN_MATCH, ltree, ll);
      Chain(s, w.Stream(), LengthBits(ll, length - MIN_MATCH), DistBits(dl, dist - 1));
      SendDist(w, dist - 1, dtree, dl);
  }

  /** Sends all tokens and the end of the block. */
  method CompressBlock(w: BitWriter, tokens: seq<Token>, ltree: CodeTree, dtree: CodeTree, ghost ll: seq<nat>,
                       ghost dl: seq<nat>)
    requires w.Valid() && AllCodable(ll, dl, tokens) && Holds(ltree, ll) && Holds(dtree, dl) && |ltree.code| >= L_CODES
    requires |dtree.code| >= D_CODES
    modifies w
    ensures w.Valid() && w.Stream() == old(w.Stream()) + BlockBits(ll, dl, tokens)
  {
    ghost var s, done := w.Stream(), [];
    var lx := 0;
    while lx < |tokens|
      invariant 0 <= lx <= |tokens| && w.Valid() && done == tokens[..lx]
      invariant AllCodable(ll, dl, done) && w.Stream() == s + TokensBits(ll, dl, done)
    {
      SendNext(w, tokens[lx], ltree, dtree, ll, dl, s, done);
      Prefixes(tokens, lx);
      done := done + [tokens[lx]];
      lx := lx + 1;
    }
    WholePrefix(tokens, done, lx);
    Chain(s, w.Stream(), TokensBits(ll, dl, done), Word(ll, END_BLOCK));
    SendCode(w, END_BLOCK, ltree, ll);
  }

  lemma Prefixes(ts: seq<Token>, n: nat)
    requires n < |ts|
    ensures ts[..n + 1] == ts[..n] + [ts[n]]
  {
  }

  lemma WholePrefix(ts: seq<Token>, p: seq<Token>, n: nat)
    requires n == |ts| && p == ts[..n]
    ensures p == ts
  {
  }

  method SendNext(w: BitWriter, t: Token, ltree: CodeTree, dtree: CodeTree, ghost ll: seq<nat>, ghost dl: seq<nat>,
                  ghost s: Bits, ghost done: seq<Token>)
    requires w.Valid() && Codable(ll, dl, t) && Holds(ltree, ll) && Holds(dtree, dl) && |ltree.code| >= L_CODES
    requires |dtree.code| >= D_CODES
    requires AllCodable(ll, dl, done) && w.Stream() == s + TokensBits(ll, dl, done)
    modifies w
    ensures w.Valid() && AllCodable(ll, dl, done + [t]) && w.Stream() == s + TokensBits(ll, dl, done + [t])
  {
    TokensAppend(ll, dl, done, t);
    Chain(s, w.Stream(), TokensBits(ll, dl, done), TokenBits(ll, dl, t));
    SendToken(w, t, ltree, dtree, ll, dl);
  }

  // ---------------------------------------------------------------- sending a tree

  lemma {:induction false} OpsConcat(bl: seq<nat>, a: seq<CL.Op>, b: seq<CL.Op>)
    requires UsableOps(bl, a) && UsableOps(bl, b)
    ensures UsableOps(bl, a + b) && OpsBits(bl, a + b) == OpsBits(bl, a) + OpsBits(bl, b)
    decreases |a|
  {
    if a == [] { assert a + b == b; }
    else {
      assert (a + b)[0] == a[0] && (a + b)[1..] == a[1..] + b;
      OpsConcat(bl, a[1..], b);
    }
  }

  lemma OpsOne(bl: seq<nat>, op: CL.Op)
    requires Used(bl, op.sym) && CL.ValidOp(op)
    ensures UsableOps(bl, [op]) && OpsBits(bl, [op]) == OpBits(bl, op)
  {
    assert [op][1..] == [];
    assert OpsBits(bl, [op]) == OpBits(bl, op) + OpsBits(bl, []);
  }

  /** Sends one symbol with its extra bits. */
  method SendOp(w: BitWriter, sym: nat, extra: nat, xbits: nat, bltree: CodeTree, ghost bl: seq<nat>)
    requires w.Valid() && Used(bl, sym) && CL.ValidOp(CL.Op(sym, extra)) && xbits == CL.ExtraBits(sym)
    requires Holds(bltree, bl) && |bltree.code| >= 19
    modifies w
    ensures w.Valid() && UsableOps(bl, [CL.Op(sym, extra)])
    ensures w.Stream() == old(w.Stream()) + OpsBits(bl, [CL.Op(sym, extra)])
  {
    OpsOne(bl, CL.Op(sym, extra));
    ghost var s := w.Stream();
    SendCode(w, sym, bltree, bl);
    Chain(s, w.Stream(), Word(bl, sym), ToBits(extra, xbits));
    if xbits != 0 {
      ExtraFits(CL.Op(sym, extra));
      w.SendBits(extra, xbits);
    }
  }

  function Plain(v: nat, n: nat): (ops: seq<CL.Op>)
    ensures |ops| == n && forall i :: 0 <= i < n ==> ops[i] == CL.Op(v, 0)
  {
    seq(n, i => CL.Op(v, 0))
  }

  method SendPlain(w: BitWriter, curlen: nat, count: nat, bltree: CodeTree, ghost bl: seq<nat>)
    requires w.Valid() && curlen < 16 && Used(bl, curlen) && Holds(bltree, bl) && |bltree.code| >= 19
    modifies w
    ensures w.Valid() && UsableOps(bl, Plain(curlen, count))
    ensures w.Stream() == old(w.Stream()) + OpsBits(bl, Plain(curlen, count))
  {
    ghost var s := w.Stream();
    var left: nat := count;
    ghost var done := Plain(curlen, 0);
    while left != 0
      invariant left <= count && w.Valid() && done == Plain(curlen, count - left)
      invariant UsableOps(bl, done) && w.Stream() == s + OpsBits(bl, done)
    {
      ghost var before := w.Stream();
      SendOp(w, curlen, 0, 0, bltree, bl);
      PlainNext(bl, s, before, curlen, done);
      done := done + [CL.Op(curlen, 0)];
      left := left - 1;
    }
    assert done == Plain(curlen, count);
  }

  lemma PlainNext(bl: seq<nat>, s: Bits, before: Bits, curlen: nat, done: seq<CL.Op>)
    requires UsableOps(bl, done) && UsableOps(bl, [CL.Op(curlen, 0)]) && before == s + OpsBits(bl, done)
    ensures UsableOps(bl, done + [CL.Op(curlen, 0)])
    ensures before + OpsBits(bl, [CL.Op(curlen, 0)]) == s + OpsBits(bl, done + [CL.Op(curlen, 0)])
  {
    OpsConcat(bl, done, [CL.Op(curlen, 0)]);
  }

  /** Sends the symbols for one run of equal lengths. */
  method SendRun(w: BitWriter, prevlen: int, curlen: nat, count: nat, minCount: nat, bltree: CodeTree,
                 ghost bl: seq<nat>)
    requires w.Valid() && Holds(bltree, bl) && |bltree.code| >= 19 && curlen < 16
    requires 1 <= count <= CL.MaxCount(prevlen, curlen)
    requires minCount == CL.MinCount(prevlen, curlen) && UsableOps(bl, CL.RunOps(prevlen, curlen, count))
    modifies w
    ensures w.Valid() && w.Stream() == old(w.Stream()) + OpsBits(bl, CL.RunOps(prevlen, curlen, count))
  {
    hide Holds, OpsBits, BytesBits, ToBits;
    ghost var ops := CL.RunOps(prevlen, curlen, count);
    assert Used(bl, ops[0].sym) && CL.ValidOp(ops[0]);
    if count < minCount {
      assert ops == Plain(curlen, count);
      SendPlain(w, curlen, count, bltree, bl);
    } else if curlen != 0 {
      if curlen != prevlen {
        assert Used(bl, ops[1].sym) && CL.ValidOp(ops[1]);
        ghost var s := w.Stream();
        SendOp(w, curlen, 0, 0, bltree, bl);
        ghost var t := w.Stream();
        SendOp(w, CL.REP_3_6, count - 4, 2, bltree, bl);
        TwoOps(bl, s, t, ops[0], ops[1]);
        assert ops == [ops[0], ops[1]];
      } else {
        SendOp(w, CL.REP_3_6, count - 3, 2, bltree, bl);
      }
    } else if count <= 10 {
      SendOp(w, CL.REPZ_3_10, count - 3, 3, bltree, bl);
    } else {
      SendOp(w, CL.REPZ_11_138, count - 11, 7, bltree, bl);
    }
  }

  lemma TwoOps(bl: seq<nat>, s: Bits, t: Bits, a: CL.Op, b: CL.Op)
    requires UsableOps(bl, [a]) && UsableOps(bl, [b]) && t == s + OpsBits(bl, [a])
    ensures UsableOps(bl, [a, b]) && t + OpsBits(bl, [b]) == s + OpsBits(bl, [a, b])
  {
    OpsConcat(bl, [a], [b]);
    assert [a] + [b] == [a, b];
  }

  lemma UsableParts(bl: seq<nat>, a: seq<CL.Op>, b: seq<CL.Op>)
    requires UsableOps(bl, a + b)
    ensures UsableOps(bl, a) && UsableOps(bl, b) && OpsBits(bl, a + b) == OpsBits(bl, a) + OpsBits(bl, b)
  {
    assert forall i :: 0 <= i < |a| ==> a[i] == (a + b)[i];
    assert forall i :: 0 <= i < |b| ==> b[i] == (a + b)[|a| + i];
    OpsConcat(bl, a, b);
  }

  method SendRunBefore(w: BitWriter, prevlen: int, curlen: nat, count: nat, minCount: nat, bltree: CodeTree,
                       ghost bl: seq<nat>, ghost rest: seq<CL.Op>, ghost all: Bits)
    requires w.Valid() && Holds(bltree, bl) && |bltree.code| >= 19 && curlen < 16
    requires 1 <= count <= CL.MaxCount(prevlen, curlen)
    requires minCount == CL.MinCount(prevlen, curlen) && UsableOps(bl, CL.RunOps(prevlen, curlen, count) + rest)
    requires w.Stream() + OpsBits(bl, CL.RunOps(prevlen, curlen, count) + rest) == all
    modifies w
    ensures w.Valid() && UsableOps(bl, rest) && w.Stream() + OpsBits(bl, rest) == all
  {
    ghost var run, s := CL.RunOps(prevlen, curlen, count), w.Stream();
    UsableParts(bl, run, rest);
    SendRun(w, prevlen, curlen, count, minCount, bltree, bl);
    Chain(s, w.Stream(), OpsBits(bl, run), OpsBits(bl, rest));
  }

  /** Where the scan is: `rest` is still to be sent. */
  ghost predicate Scanning(lens: seq<nat>, n: nat, prevlen: int, count: nat, rest: seq<CL.Op>)
  {
    CL.InRun(lens, n, prevlen, count) && rest == CL.Rle(lens, n, prevlen, count)
  }

  /** The limits of the run that starts or goes on at `n`. */
  ghost predicate Limits(lens: seq<nat>, n: nat, prevlen: int, nextlen: nat, maxCount: nat, minCount: nat)
  {
    n < |lens| ==>
        nextlen == lens[n] && maxCount == CL.MaxCount(prevlen, nextlen)
        && minCount == CL.MinCount(prevlen, nextlen)
  }

  lemma RunGoesOn(lens: seq<nat>, n: nat, n': nat, prevlen: int, count: nat, count': nat, rest: seq<CL.Op>)
    requires Scanning(lens, n, prevlen, count, rest) && n < |lens| && lens[n] < 16 && n' == n + 1 && count' == count + 1
    requires count' < CL.MaxCount(prevlen, lens[n]) && lens[n] == CL.NextLen(lens, n)
    ensures Scanning(lens, n', prevlen, count', rest)
  {
    CL.InRunNext(lens, n, prevlen, count);
  }

  lemma RunIsOver(lens: seq<nat>, n: nat, n': nat, prevlen: int, count: nat, count': nat, rest: seq<CL.Op>)
      returns (rest': seq<CL.Op>)
    requires Scanning(lens, n, prevlen, count, rest) && n < |lens| && lens[n] < 16 && n' == n + 1 && count' == count + 1
    requires !(count' < CL.MaxCount(prevlen, lens[n]) && lens[n] == CL.NextLen(lens, n))
    ensures Scanning(lens, n', lens[n], 0, rest') && count' <= CL.MaxCount(prevlen, lens[n])
    ensures rest == CL.RunOps(prevlen, lens[n], count') + rest'
  {
    CL.InRunNext(lens, n, prevlen, count);
    rest' := CL.Rle(lens, n', lens[n], 0);
  }

  /** Sends a tree as run-length coded lengths. */
  method SendTree(w: BitWriter, lens: seq<nat>, bltree: CodeTree, ghost bl: seq<nat>)
    requires w.Valid() && Holds(bltree, bl) && |bltree.code| >= 19 && |lens| >= 1 && forall i :: 0 <= i < |lens| ==>
             lens[i] < 16
    requires UsableOps(bl, CL.Encode(lens))
    modifies w
    ensures w.Valid() && w.Stream() == old(w.Stream()) + OpsBits(bl, CL.Encode(lens))
  {
    ghost var all, rest := w.Stream() + OpsBits(bl, CL.Encode(lens)), CL.Encode(lens);
    var prevlen: int, nextlen: nat, count: nat, maxCount: nat, minCount: nat := -1, lens[0], 0, 7, 4;
    if nextlen == 0 { maxCount, minCount := 138, 3; }
    var n: nat := 0;
    while n < |lens|
      invariant n <= |lens| && w.Valid() && Scanning(lens, n, prevlen, count, rest)
      invariant Limits(lens, n, prevlen, nextlen, maxCount, minCount)
      invariant UsableOps(bl, rest) && w.Stream() + OpsBits(bl, rest) == all
    {
      var curlen, n': nat := nextlen, n + 1;
      nextlen := CL.NextLen(lens, n);
      ghost var before := count;
      count := count + 1;
      if count < maxCount && curlen == nextlen {
        RunGoesOn(lens, n, n', prevlen, before, count, rest);
      } else {
        rest := RunIsOver(lens, n, n', prevlen, before, count, rest);
        SendRunBefore(w, prevlen, curlen, count, minCount, bltree, bl, rest, all);
        count, prevlen := 0, curlen;
        if nextlen == 0 { maxCount, minCount := 138, 3; }
        else if curlen == nextlen { maxCount, minCount := 6, 3; }
        else { maxCount, minCount := 7, 4; }
      }
      n := n';
    }
  }

  method SendCounts(w: BitWriter, nl: nat, nd: nat, bn: nat)
    requires w.Valid() && 257 <= nl <= 286 && 1 <= nd <= 30 && 4 <= bn <= 19
    modifies w
    ensures w.Valid() && w.Stream() == old(w.Stream()) + CountBits(nl, nd, bn)
  {
    assert Pow2(5) == 32 && Pow2(4) == 16;
    ghost var s := w.Stream();
    w.SendBits(nl - 257, 5);
    ghost var a, b, c := ToBits(nl - 257, 5), ToBits(nd - 1, 5), ToBits(bn - 4, 4);
    Chain(s, w.Stream(), a, b);
    w.SendBits(nd - 1, 5);
    Chain(s, w.Stream(), a + b, c);
    w.SendBits(bn - 4, 4);
  }

  /** Sends the lengths of the code length code. */
  method SendThrees(w: BitWriter, len: seq<nat>, order: seq<nat>, bn: nat, ghost v: seq<nat>)
    requires w.Valid() && bn <= |order| && (forall i :: 0 <= i < |order| ==> order[i] < |len|)
    requires v == Picked(len, order, bn)
    requires forall i :: 0 <= i < bn ==> v[i] < 8
    modifies w
    ensures w.Valid() && w.Stream() == old(w.Stream()) + Threes(v)
  {
    ghost var s, done := w.Stream(), [];
    var rank: nat := 0;
    while rank < bn
      invariant rank <= bn && w.Valid() && done == v[..rank] && w.Stream() == s + Threes(done)
    {
      var x := len[order[rank]];
      assert x == v[rank] && x < Pow2(3) by { assert Pow2(3) == 8; }
      ghost var done' := done + [x];
      assert done'[..|done|] == done;
      Chain(s, w.Stream(), Threes(done), ToBits(x, 3));
      w.SendBits(x, 3);
      done, rank := done', rank + 1;
    }
    assert done == v;
  }

  /** Sends both codes, as `HeaderBits` says. */
  method SendAllTrees(w: BitWriter, ll: seq<nat>, dl: seq<nat>, bltree: CodeTree, bn: nat, ghost bl: seq<nat>)
    requires w.Valid() && Sendable(ll, dl, bl, bn) && Holds(bltree, bl) && |bltree.code| >= 19
    requires |bltree.len| >= 19 && forall i :: 0 <= i < 19 ==> bltree.len[i] == bl[i]
    modifies w
    ensures w.Valid() && w.Stream() == old(w.Stream()) + HeaderBits(ll, dl, bl, bn)
  {
    OrderIsPermutation();
    ghost var s, v := w.Stream(), Picked(bl, ORDER, bn);
    assert v == Picked(bltree.len, ORDER, bn);
    SendCounts(w, |ll|, |dl|, bn);
    ghost var s1 := w.Stream();
    SendThrees(w, bltree.len, ORDER, bn, v);
    ghost var s2, a, b := w.Stream(), CL.Encode(ll), CL.Encode(dl);
    UsableParts(bl, a, b);
    SendTree(w, ll, bltree, bl);
    ghost var s3 := w.Stream();
    SendTree(w, dl, bltree, bl);
    HeaderChain(s, CountBits(|ll|, |dl|, bn), s1, Threes(v), s2, OpsBits(bl, a), s3, OpsBits(bl, b));
  }

  lemma HeaderChain(s: Bits, c: Bits, s1: Bits, t: Bits, s2: Bits, a: Bits, s3: Bits, b: Bits)
    requires s1 == s + c && s2 == s1 + t && s3 == s2 + a
    ensures s3 + b == s + (c + (t + (a + b)))
  {
  }
}

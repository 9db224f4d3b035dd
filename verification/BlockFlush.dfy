/**
  * The state of the current block and `_tr_tally`, `_tr_flush_block` of dep/zlib/trees.c: whichever of the three
  * encodings is chosen, the decoder reads the same bytes.
  */
module BlockFlush {
  import opened Arith
  import opened Canonical
  import opened BitStream
  import opened Tokens
  import opened Decoder
  import opened BlockData
  import opened BlockCost
  import opened TreeHeader
  import opened BlockWriter
  import opened BlockTrees
  import opened FixedTrees
  import opened WholeBlocks
  import opened Forest
  import opened TreeSums
  import BT = BuildTree
  import GB = GenBitlen
  import IT = InflateTable

  // ---------------------------------------------------------------- all codes of a block

  datatype Codes = Codes(ltree: CodeTree, dtree: CodeTree, bltree: CodeTree, ll: seq<nat>, dl: seq<nat>, bl: seq<nat>,
                         bn: nat)

  /** Trees for the tokens, made for their frequencies, and what their header needs. */
  ghost predicate Ready(c: Codes, ts: seq<Token>)
  {
    && ValidTokens(ts) && CodeFor(LFreqs(ts), c.ll, c.ltree) && CodeFor(DFreqs(ts), c.dl, c.dtree)
    && BlCode(c.ll, c.dl, c.bl, c.bn, c.bltree)
    && Dynamic(c.ll, c.dl, c.bl, c.bn, ts)
    && Holds(c.ltree, c.ll) && |c.ltree.code| >= L_CODES && Holds(c.dtree, c.dl) && |c.dtree.code| >= D_CODES
    && Holds(c.bltree, c.bl) && |c.bltree.code| >= BL_CODES
    && |c.bltree.len| >= BL_CODES && forall i :: 0 <= i < BL_CODES ==> c.bltree.len[i] == c.bl[i]
  }

  function ExtraLBits(): (x: seq<nat>)
    ensures |x| == 29 && forall c :: 0 <= c < 29 ==> x[c] == ExtraL(c)
  {
    seq(29, c requires 0 <= c => ExtraL(c))
  }

  lemma ExtraIsL(n: nat)
    requires n < L_CODES
    ensures Get(GB.ExtraBits(ExtraLBits(), 257, L_CODES), n) == Get(LExtra(), n)
  {
  }

  lemma ExtraIsD(n: nat)
    requires n < D_CODES
    ensures Get(GB.ExtraBits(DExtra(), 0, D_CODES), n) == Get(DExtra(), n)
  {
    assert DExtra()[n] == Get(DExtra(), n);
  }

  lemma FirstExtras(i: nat)
    requires i < 3
    ensures Get(LExtra(), i) == 0 && Get(DExtra(), i) == 0
  {
  }

  method LTree(lfc: array<nat>, ldl: array<nat>, stree: seq<nat>, ghost ts: seq<Token>)
    returns (t: CodeTree, ll: seq<nat>, optLen: int, staticLen: int)
    requires lfc != ldl && lfc.Length == 2 * L_CODES + 1 == ldl.Length && |stree| >= L_CODES && ValidTokens(ts)
    requires Tallied(lfc[..], LFreqs(ts))
    modifies lfc, ldl
    ensures CodeFor(LFreqs(ts), ll, t)
    ensures optLen == TotalBits(LFreqs(ts), ll, LExtra(), L_CODES)
    ensures staticLen == TotalBits(LFreqs(ts), stree, LExtra(), L_CODES)
  {
    forall n: nat | n < L_CODES ensures Get(GB.ExtraBits(ExtraLBits(), 257, L_CODES), n)
        == Get(LExtra(), n) { ExtraIsL(n); }
    forall i: nat | i < 3 ensures Get(LExtra(), i) == 0 { FirstExtras(i); }
    var maxCode;
    ghost var lens;
    t, maxCode, optLen, staticLen, lens := DataTree(lfc, ldl, ExtraLBits(), 257, stree, 0, 0, LFreqs(ts), LExtra(),
                                                    L_CODES);
    ll := t.len[..maxCode + 1];
    assert ll == lens;
  }

  method DTree(dfc: array<nat>, ddl: array<nat>, stree: seq<nat>, optLen0: int, staticLen0: int, ghost ts: seq<Token>)
    returns (t: CodeTree, dl: seq<nat>, optLen: int, staticLen: int)
    requires dfc != ddl && dfc.Length == 2 * D_CODES + 1 == ddl.Length && |stree| >= D_CODES && ValidTokens(ts)
    requires Tallied(dfc[..], DFreqs(ts))
    modifies dfc, ddl
    ensures CodeFor(DFreqs(ts), dl, t)
    ensures optLen == optLen0 + TotalBits(DFreqs(ts), dl, DExtra(), D_CODES)
    ensures staticLen == staticLen0 + TotalBits(DFreqs(ts), stree, DExtra(), D_CODES)
  {
    forall n: nat | n < D_CODES ensures Get(GB.ExtraBits(DExtra(), 0, D_CODES), n) == Get(DExtra(), n) { ExtraIsD(n); }
    forall i: nat | i < 3 ensures Get(DExtra(), i) == 0 { FirstExtras(i); }
    var maxCode;
    ghost var lens;
    t, maxCode, optLen, staticLen, lens := DataTree(dfc, ddl, DExtra(), 0, stree, optLen0, staticLen0, DFreqs(ts),
                                                    DExtra(), D_CODES);
    dl := t.len[..maxCode + 1];
    assert dl == lens;
  }

  lemma FixedCodable(ts: seq<Token>)
    requires ValidTokens(ts)
    ensures AllCodable(FixedL(), FixedD(), ts)
  {
    forall i | 0 <= i < |ts| ensures Codable(FixedL(), FixedD(), ts[i]) { assert ValidToken(ts[i]); }
  }

  /** The predicted cost of fixed codes is exact. */
  lemma FixedCost(ts: seq<Token>, ls: seq<nat>, ds: seq<nat>)
    requires ValidTokens(ts) && AllCodable(FixedL(), FixedD(), ts) && ls == FixedL() && |ds| == D_CODES
             && forall i :: 0 <= i < D_CODES ==> ds[i] == 5
    ensures TotalBits(LFreqs(ts), ls, LExtra(), L_CODES) + TotalBits(DFreqs(ts), ds, DExtra(), D_CODES)
            == |BlockBits(FixedL(), FixedD(), ts)|
  {
    CostIsExact(FixedL(), FixedD(), ts);
    TotalSame(DFreqs(ts), DFreqs(ts), ds, FixedD(), DExtra(), DExtra(), D_CODES);
  }

  lemma AllReady(c: Codes, ts: seq<Token>)
    requires ValidTokens(ts) && CodeFor(LFreqs(ts), c.ll, c.ltree) && CodeFor(DFreqs(ts), c.dl, c.dtree)
    requires BlCode(c.ll, c.dl, c.bl, c.bn, c.bltree)
    ensures Ready(c, ts)
  {
    CodedTokens(ts, c.ll, c.dl);
    CodedProper(ts, c.ll, c.dl);
  }

  /** Builds all three trees; both predicted costs are exact. */
  method BuildTrees(lfc: array<nat>, ldl: array<nat>, dfc: array<nat>, ddl: array<nat>, bfc: array<nat>,
                    bdl: array<nat>, lstat: CodeTree, dstat: CodeTree, ghost ts: seq<Token>)
    returns (c: Codes, optLen: int, staticLen: int)
    requires lfc != ldl && dfc != ddl && bfc != bdl && dfc != lfc && dfc != ldl && bfc != lfc && bfc != ldl
    requires bfc != dfc && bfc != ddl
    requires lfc.Length == 2 * L_CODES + 1 == ldl.Length && dfc.Length == 2 * D_CODES + 1 == ddl.Length
    requires bfc.Length == 2 * BL_CODES + 1 == bdl.Length
    requires lstat.len == FixedL() && |dstat.len| == D_CODES && forall i :: 0 <= i < D_CODES ==> dstat.len[i] == 5
    requires ValidTokens(ts) && Tallied(lfc[..], LFreqs(ts)) && Tallied(dfc[..], DFreqs(ts))
             && forall i :: 0 <= i < BL_CODES ==> bfc[i] == 0
    modifies lfc, ldl, dfc, ddl, bfc, bdl
    ensures Ready(c, ts) && AllCodable(FixedL(), FixedD(), ts)
    ensures optLen == |HeaderBits(c.ll, c.dl, c.bl, c.bn)| + |BlockBits(c.ll, c.dl, ts)|
    ensures staticLen == |BlockBits(FixedL(), FixedD(), ts)|
  {
    var ltree, ll, opt1, stat1 := LTree(lfc, ldl, lstat.len, ts);
    var dtree, dl, opt2, stat2 := DTree(dfc, ddl, dstat.len, opt1, stat1, ts);
    CodedProper(ts, ll, dl);
    var bltree, bn;
    ghost var bl;
    bltree, bn, optLen, bl := BuildBlTree(bfc, bdl, ll, dl, opt2);
    staticLen := stat2;
    assert bltree.len[..BL_CODES] == bl;
    c := Codes(ltree, dtree, bltree, ll, dl, bltree.len[..BL_CODES], bn);
    AllReady(c, ts);
    CostIsExact(ll, dl, ts);
    FixedCodable(ts);
    FixedCost(ts, lstat.len, dstat.len);
  }

  // ---------------------------------------------------------------- what a block means

  /**
    * `s` is everything sent before the block, `s'` everything after it. Whatever follows, and whatever bytes `out`
    * came before, the decoder reads the block as the bytes that the tokens stand for. A stored block must have been
    * given those bytes.
    */
  ghost predicate Means(s: Bits, s': Bits, last: bool, ts: seq<Token>, stored: Option<seq<Byte>>)
  {
    forall all: Bits, out: seq<Byte> {:trigger ReadBlock(all, |s|, out)} ::
      s' <= all && AllFit(out, ts) && (stored.Some? ==> Expand(out, ts) == out + stored.value) ==>
        ReadBlock(all, |s|, out) == Block(last, Expand(out, ts), |s'|)
  }

  lemma AtEnd(s: Bits, e: Bits, all: Bits)
    requires s + e <= all
    ensures At(all, |s|, e)
  {
    assert all[..|s + e|] == s + e;
    assert all[|s|..|s| + |e|] == (s + e)[|s|..];
  }

  lemma FixedMeans(s: Bits, last: bool, ts: seq<Token>)
    requires AllCodable(FixedL(), FixedD(), ts)
    ensures Means(s, s + FixedBits(last, ts), last, ts, None)
  {
    hide FixedBits, ReadBlock, AllFit, AllCodable;
    var e := FixedBits(last, ts);
    forall all: Bits, out: seq<Byte> | s + e <= all && AllFit(out, ts)
      ensures ReadBlock(all, |s|, out) == Block(last, Expand(out, ts), |s + e|)
    {
      AtEnd(s, e, all);
      FixedIsRead(all, |s|, last, ts, out);
    }
  }

  lemma DynMeans(s: Bits, s': Bits, last: bool, c: Codes, ts: seq<Token>)
    requires Dynamic(c.ll, c.dl, c.bl, c.bn, ts) && s' == s + DynBits(last, c.ll, c.dl, c.bl, c.bn, ts)
    ensures Means(s, s', last, ts, None)
  {
    forall all: Bits, out: seq<Byte> | s' <= all && AllFit(out, ts)
      ensures ReadBlock(all, |s|, out) == Block(last, Expand(out, ts), |s'|)
    {
      DynMeansOne(s, s', last, c, ts, all, out);
    }
  }

  lemma DynMeansOne(s: Bits, s': Bits, last: bool, c: Codes, ts: seq<Token>, all: Bits, out: seq<Byte>)
    requires Dynamic(c.ll, c.dl, c.bl, c.bn, ts) && s' == s + DynBits(last, c.ll, c.dl, c.bl, c.bn, ts) && s' <= all
    requires AllFit(out, ts)
    ensures ReadBlock(all, |s|, out) == Block(last, Expand(out, ts), |s'|)
  {
    AtEnd(s, DynBits(last, c.ll, c.dl, c.bl, c.bn, ts), all);
    DynIsRead(all, |s|, last, c.ll, c.dl, c.bl, c.bn, ts, out);
  }

  lemma PaddedAligns(s: Bits)
    ensures |Padded(s)| == Align(|s|)
  {
  }

  lemma StoredMeans(s: Bits, last: bool, ts: seq<Token>, buf: seq<Byte>, s': Bits)
    requires |buf| < 65536 && s' == Padded(s + Head(STORED_BLOCK, last)) + StoredBits(buf)
    ensures Means(s, s', last, ts, Some(buf))
  {
    forall all: Bits, out: seq<Byte> | s' <= all && AllFit(out, ts) && Expand(out, ts) == out + buf
      ensures ReadBlock(all, |s|, out) == Block(last, Expand(out, ts), |s'|)
    {
      StoredMeansOne(s, last, buf, s', all, out);
    }
  }

  lemma StoredMeansOne(s: Bits, last: bool, buf: seq<Byte>, s': Bits, all: Bits, out: seq<Byte>)
    requires |buf| < 65536 && s' == Padded(s + Head(STORED_BLOCK, last)) + StoredBits(buf) && s' <= all
    ensures ReadBlock(all, |s|, out) == Block(last, out + buf, |s'|)
  {
    var h := Head(STORED_BLOCK, last);
    var p := Padded(s + h);
    PaddedAligns(s + h);
    AtEnd(p, StoredBits(buf), all);
    PaddedPrefix(s + h, s', all);
    AtEnd(s, h, all);
    StoredIsRead(all, |s|, last, buf, out);
  }

  lemma PaddedPrefix(a: Bits, s': Bits, all: Bits)
    requires Padded(a) <= s' <= all
    ensures a <= all
  {
    assert a == Padded(a)[..|a|];
    assert Padded(a)[..|a|] == all[..|a|];
  }

  // ---------------------------------------------------------------- sending a block of each kind

  lemma HeadFits(kind: nat, last: bool)
    requires kind < 3
    ensures 2 * kind + LastBit(last) < Pow2(3)
  {
    assert Pow2(3) == 8;
  }

  /** `_tr_stored_block`. */
  method SendStored(w: BitWriter, buf: seq<Byte>, last: bool)
    requires w.Valid() && |buf| < 65536
    modifies w
    ensures w.Valid() && w.Stream() == Padded(old(w.Stream()) + Head(STORED_BLOCK, last)) + StoredBits(buf)
  {
    HeadFits(STORED_BLOCK, last);
    w.SendBits(2 * STORED_BLOCK + LastBit(last), 3);
    ghost var p := Padded(w.Stream());
    w.CopyBlock(buf);
    Regroup(p, ToBits(|buf|, 16), ToBits(65535 - |buf|, 16), BytesBits(buf));
  }

  lemma Regroup(p: Bits, a: Bits, b: Bits, c: Bits)
    ensures p + a + b + c == p + (a + b + c)
  {
  }

  method FixedBlock(w: BitWriter, last: bool, lstat: CodeTree, dstat: CodeTree, ts: seq<Token>)
    requires w.Valid() && Holds(lstat, FixedL()) && Holds(dstat, FixedD()) && |lstat.code| >= L_CODES
    requires |dstat.code| >= D_CODES
    requires AllCodable(FixedL(), FixedD(), ts)
    modifies w
    ensures w.Valid() && w.Stream() == old(w.Stream()) + FixedBits(last, ts)
  {
    ghost var s := w.Stream();
    HeadFits(STATIC_TREES, last);
    w.SendBits(2 * STATIC_TREES + LastBit(last), 3);
    Chain(s, w.Stream(), Head(STATIC_TREES, last), BlockBits(FixedL(), FixedD(), ts));
    CompressBlock(w, ts, lstat, dstat, FixedL(), FixedD());
  }

  method DynBlock(w: BitWriter, last: bool, c: Codes, ts: seq<Token>)
    requires w.Valid() && Ready(c, ts)
    modifies w
    ensures w.Valid() && w.Stream() == old(w.Stream()) + DynBits(last, c.ll, c.dl, c.bl, c.bn, ts)
  {
    ghost var s, h, t, b := w.Stream(), Head(DYN_TREES, last), HeaderBits(c.ll, c.dl, c.bl, c.bn),
        BlockBits(c.ll, c.dl, ts);
    DynHead(w, last, c, ts);
    ghost var s2 := w.Stream();
    CompressBlock(w, ts, c.ltree, c.dtree, c.ll, c.dl);
    DynChain(s, h, s + h, t, s2, b);
  }

  method DynHead(w: BitWriter, last: bool, c: Codes, ghost ts: seq<Token>)
    requires w.Valid() && Ready(c, ts)
    modifies w
    ensures w.Valid() && w.Stream() == old(w.Stream()) + Head(DYN_TREES, last) + HeaderBits(c.ll, c.dl, c.bl, c.bn)
  {
    hide HeaderBits, Holds, AllCodable, PrefixCodes, Acceptable, Trimmed, Sendable;
    HeadFits(DYN_TREES, last);
    w.SendBits(2 * DYN_TREES + LastBit(last), 3);
    SendAllTrees(w, c.ll, c.dl, c.bltree, c.bn, c.bl);
  }

  lemma DynChain(s: Bits, h: Bits, s1: Bits, t: Bits, s2: Bits, b: Bits)
    requires s1 == s + h && s2 == s1 + t
    ensures s2 + b == s + (h + (t + b))
  {
  }

  // ---------------------------------------------------------------- choosing the encoding

  /** How a block was sent, and the predictions that led to it. */
  datatype Choice = Choice(kind: nat, optLen: int, staticLen: int)

  /** The stream after a block, its meaning and its exact size. */
  ghost predicate Sent(s: Bits, s': Bits, last: bool, ts: seq<Token>, buf: Option<seq<Byte>>, c: Choice)
  {
    && c.kind < 3 && s <= s'
    && (c.kind == STORED_BLOCK ==> buf.Some?)
    && Means(s, s', last, ts, if c.kind == STORED_BLOCK then buf else None)
    && (c.kind == STATIC_TREES ==> |s'| == |s| + 3 + c.staticLen)
    && (c.kind == DYN_TREES ==> |s'| == |s| + 3 + c.optLen)
  }

  /** Both predictions are the exact numbers of bits that the two codes take, without the head of the block. */
  ghost predicate Predicts(ch: Choice, c: Codes, ts: seq<Token>)
  {
    && Ready(c, ts) && AllCodable(FixedL(), FixedD(), ts)
    && ch.optLen == |HeaderBits(c.ll, c.dl, c.bl, c.bn)| + |BlockBits(c.ll, c.dl, ts)|
    && ch.staticLen == |BlockBits(FixedL(), FixedD(), ts)|
  }

  /** The bits of a block in each of its forms. */
  ghost predicate Written(s: Bits, s': Bits, last: bool, ts: seq<Token>, buf: Option<seq<Byte>>, kind: nat, c: Codes)
  {
    if kind == STORED_BLOCK then
      buf.Some? && |buf.value| < 65536 && s' == Padded(s + Head(STORED_BLOCK, last)) + StoredBits(buf.value)
    else if kind == STATIC_TREES then
      AllCodable(FixedL(), FixedD(), ts) && s' == s + FixedBits(last, ts)
    else
      Ready(c, ts) && s' == s + DynBits(last, c.ll, c.dl, c.bl, c.bn, ts)
  }

  /** The size of a block in whole bytes, as it is predicted. */
  function Bytes(kind: nat, storedLen: nat, ch: Choice): int
  {
    if kind == STORED_BLOCK then storedLen + 4
    else if kind == STATIC_TREES then (ch.staticLen + 10) / 8
    else (ch.optLen + 10) / 8
  }

  /** The forms that may be used. */
  predicate MayUse(kind: nat, buf: Option<seq<Byte>>, fixedOnly: bool)
  {
    kind < 3 && (kind == STORED_BLOCK ==> buf.Some?) && (kind == DYN_TREES ==> !fixedOnly)
  }

  /** The form that is used: stored if this is no longer than both codes, and dynamic codes only if they are shorter. */
  predicate Chosen(ch: Choice, buf: Option<seq<Byte>>, storedLen: nat, fixedOnly: bool)
  {
    && ch.kind < 3
    && (ch.kind == STORED_BLOCK <==>
        buf.Some? && Bytes(STORED_BLOCK, storedLen, ch) <= Bytes(STATIC_TREES, storedLen, ch)
        && Bytes(STORED_BLOCK, storedLen, ch) <= Bytes(DYN_TREES, storedLen, ch))
    && (ch.kind == DYN_TREES <==>
        ch.kind != STORED_BLOCK && !fixedOnly
        && Bytes(DYN_TREES, storedLen, ch) < Bytes(STATIC_TREES, storedLen, ch))
  }

  /**
    * No other form that may be used is predicted to be shorter, with one exception: when only fixed codes may be
    * used, the dynamic codes that will not be sent still keep the block from being stored.
    */
  lemma ShortestIff(ch: Choice, buf: Option<seq<Byte>>, storedLen: nat, fixedOnly: bool)
    requires Chosen(ch, buf, storedLen, fixedOnly)
    ensures MayUse(ch.kind, buf, fixedOnly)
    ensures (forall kind :: MayUse(kind, buf, fixedOnly) ==>
              Bytes(ch.kind, storedLen, ch) <= Bytes(kind, storedLen, ch))
            <==> !(fixedOnly && buf.Some? && Bytes(DYN_TREES, storedLen, ch) < Bytes(STORED_BLOCK, storedLen, ch)
                   < Bytes(STATIC_TREES, storedLen, ch))
  {
    if fixedOnly && buf.Some? && Bytes(DYN_TREES, storedLen, ch) < Bytes(STORED_BLOCK, storedLen, ch)
       < Bytes(STATIC_TREES, storedLen, ch) {
      assert ch.kind == STATIC_TREES && MayUse(STORED_BLOCK, buf, fixedOnly);
    }
  }

  /** A block takes at most the bytes that were predicted; a stored one at most two more. */
  lemma BytesSuffice(s: Bits, s': Bits, last: bool, ts: seq<Token>, buf: Option<seq<Byte>>, ch: Choice, c: Codes,
                     storedLen: nat)
    requires ch.kind < 3 && Written(s, s', last, ts, buf, ch.kind, c) && Predicts(ch, c, ts)
    requires buf.Some? ==> |buf.value| == storedLen
    ensures |s'| - |s| <= 8 * Bytes(ch.kind, storedLen, ch) + if ch.kind == STORED_BLOCK then 10 else 0
    ensures ch.kind != STORED_BLOCK ==> 8 * Bytes(ch.kind, storedLen, ch) <= |s'| - |s| + 7
    ensures ch.kind == STORED_BLOCK ==> |s'| == Align(|s| + 3) + 8 * Bytes(ch.kind, storedLen, ch)
  {
    hide Ready, AllCodable, HeaderBits, BlockBits, Dynamic;
    if ch.kind == STORED_BLOCK {
      PaddedAligns(s + Head(STORED_BLOCK, last));
    }
  }

  /** Sends the block with fixed or dynamic codes. */
  method SendCoded(w: BitWriter, fixed: bool, last: bool, lstat: CodeTree, dstat: CodeTree, c: Codes, ts: seq<Token>,
                   ghost buf: Option<seq<Byte>>, ghost choice: Choice)
    requires w.Valid() && Predicts(choice, c, ts)
    requires Holds(lstat, FixedL()) && Holds(dstat, FixedD()) && |lstat.code| >= L_CODES && |dstat.code| >= D_CODES
    requires choice.kind == if fixed then STATIC_TREES else DYN_TREES
    modifies w
    ensures w.Valid() && Sent(old(w.Stream()), w.Stream(), last, ts, buf, choice)
    ensures Written(old(w.Stream()), w.Stream(), last, ts, buf, choice.kind, c)
  {
    ghost var s := w.Stream();
    if fixed {
      FixedBlock(w, last, lstat, dstat, ts);
      FixedMeans(s, last, ts);
    } else {
      DynBlock(w, last, c, ts);
      DynMeans(s, w.Stream(), last, c, ts);
    }
  }

  /** Stored bytes are padded to a byte boundary, so the stream grows. */
  lemma StoredGrows(s: Bits, h: Bits, s': Bits, e: Bits)
    requires s' == Padded(s + h) + e
    ensures s <= s'
  {
    assert s == s'[..|s|];
  }

  /** The sizes that the buffers for tokens may have. */
  type BufSize = n: nat | 128 <= n <= 32768 witness 128

  class BlockState {
    const w: BitWriter
    const lfc: array<nat>
    const ldl: array<nat>
    const dfc: array<nat>
    const ddl: array<nat>
    const bfc: array<nat>
    const bdl: array<nat>
    const lstat: CodeTree
    const dstat: CodeTree
    const litBufsize: BufSize
    const level: nat
    const fixedOnly: bool
    var tokens: seq<Token>

    /** The trees are separate arrays, and the static trees are those of the format. */
    ghost predicate Fixed()
    {
      && lfc != ldl && dfc != ddl && bfc != bdl && dfc != lfc && dfc != ldl && bfc != lfc && bfc != ldl && bfc != dfc
          && bfc != ddl
      && lfc.Length == 2 * L_CODES + 1 == ldl.Length && dfc.Length == 2 * D_CODES + 1 == ddl.Length
          && bfc.Length == 2 * BL_CODES + 1 == bdl.Length
      && lstat.len == FixedL() && |dstat.len| == D_CODES && (forall i :: 0 <= i < D_CODES ==> dstat.len[i] == 5)
      && Holds(lstat, FixedL()) && Holds(dstat, FixedD()) && |lstat.code| >= L_CODES && |dstat.code| >= D_CODES
    }

    /** The frequencies are those of the tokens. */
    ghost predicate Valid()
      reads this, w, lfc, dfc, bfc
    {
      && Fixed() && w.Valid() && ValidTokens(tokens) && |tokens| < litBufsize
      && Tallied(lfc[..], LFreqs(tokens)) && Tallied(dfc[..], DFreqs(tokens)) && forall i :: 0 <= i < BL_CODES ==>
          bfc[i] == 0
    }

    constructor (litBufsize: BufSize, level: nat, fixedOnly: bool)
      ensures Valid() && tokens == [] && w.Stream() == [] && w.pending == []
      ensures fresh(w) && fresh(lfc) && fresh(ldl) && fresh(dfc)
      ensures fresh(ddl) && fresh(bfc) && fresh(bdl)
      ensures this.litBufsize == litBufsize && this.level == level && this.fixedOnly == fixedOnly
    {
      var ls := StaticLTree();
      var ds := StaticDTree();
      w := new BitWriter();
      lfc, ldl := new nat[2 * L_CODES + 1], new nat[2 * L_CODES + 1];
      dfc, ddl := new nat[2 * D_CODES + 1], new nat[2 * D_CODES + 1];
      bfc, bdl := new nat[2 * BL_CODES + 1], new nat[2 * BL_CODES + 1];
      lstat, dstat := ls, ds;
      this.litBufsize, this.level, this.fixedOnly := litBufsize, level, fixedOnly;
      tokens := [];
      new;
      InitBlock();
    }

    /** There is room in the buffers for another token. */
    predicate HasRoom()
      reads this`tokens
    {
      |tokens| + 1 < litBufsize
    }

    /** Starts a new block. */
    method InitBlock()
      requires Fixed() && w.Valid()
      modifies this, lfc, dfc, bfc
      ensures Valid() && tokens == []
    {
      ClearFreqs(lfc, L_CODES);
      ClearFreqs(dfc, D_CODES);
      ClearFreqs(bfc, BL_CODES);
      lfc[END_BLOCK] := 1;
      tokens := [];
    }

    /** Adds a literal; true when the block is full. */
    method TallyLiteral(c: Byte) returns (full: bool)
      requires Valid() && HasRoom()
      modifies this, lfc
      ensures Valid() && tokens == old(tokens) + [Literal(c)] && (full <==> !HasRoom())
    {
      ghost var ts, t, f := tokens, Literal(c), lfc[..];
      tokens := tokens + [Literal(c)];
      lfc[c] := lfc[c] + 1;
      TalliedNext(ts, t, f, lfc[..], dfc[..], dfc[..]);
      full := |tokens| == litBufsize - 1;
    }

    /** Adds a match. */
    method TallyMatch(dist: nat, length: nat) returns (full: bool)
      requires Valid() && HasRoom() && ValidToken(Match(length, dist))
      modifies this, lfc, dfc
      ensures Valid() && tokens == old(tokens) + [Match(length, dist)] && (full <==> !HasRoom())
    {
      ghost var ts, t, f, g := tokens, Match(length, dist), lfc[..], dfc[..];
      tokens := tokens + [Match(length, dist)];
      var l, d := LSymbol(Match(length, dist)), DistCode(dist - 1);
      lfc[l] := lfc[l] + 1;
      assert d == DSymbol(t);
      dfc[d] := dfc[d] + 1;
      TalliedNext(ts, t, f, lfc[..], g, dfc[..]);
      full := |tokens| == litBufsize - 1;
    }

    /**
      * Sends the block in one of the three forms: the shortest, as far as the predictions go, which are exact for both
      * codes. `buf` holds the bytes of the block, unless they are no longer in the window.
      */
    method FlushBlock(buf: Option<seq<Byte>>, storedLen: nat, last: bool)
      returns (choice: Choice, ghost c: Codes, ghost s': Bits)
      requires Valid() && (buf.Some? ==> |buf.value| == storedLen < 65536) && (level == 0 ==> buf.Some?)
      modifies this, w, lfc, ldl, dfc, ddl, bfc, bdl
      ensures Valid() && tokens == []
      ensures Sent(old(w.Stream()), s', last, old(tokens), buf, choice)
      ensures Written(old(w.Stream()), s', last, old(tokens), buf, choice.kind, c)
      ensures w.Stream() == if last then Padded(s') else s'
      ensures last ==> w.Stream() == BytesBits(w.pending) && w.biValid == 0
      ensures level == 0 ==> choice.kind == STORED_BLOCK
      ensures level > 0 ==> Predicts(choice, c, old(tokens)) && Chosen(choice, buf, storedLen, fixedOnly)
    {
      hide Fixed, Sent, ValidTokens, Tallied, Written, Predicts, Chosen;
      choice, c := SendBest(buf, storedLen, last);
      s' := w.Stream();
      InitBlock();
      if last { w.BiWindup(); }
    }

    /** Sends the block in the form that is chosen. */
    method SendBest(buf: Option<seq<Byte>>, storedLen: nat, last: bool) returns (choice: Choice, ghost codes: Codes)
      requires Valid() && (buf.Some? ==> |buf.value| == storedLen < 65536) && (level == 0 ==> buf.Some?)
      modifies w, lfc, ldl, dfc, ddl, bfc, bdl
      ensures w.Valid() && Sent(old(w.Stream()), w.Stream(), last, tokens, buf, choice)
      ensures Written(old(w.Stream()), w.Stream(), last, tokens, buf, choice.kind, codes)
      ensures level == 0 ==> choice.kind == STORED_BLOCK
      ensures level > 0 ==> Predicts(choice, codes, tokens) && Chosen(choice, buf, storedLen, fixedOnly)
    {
      hide ValidTokens, Tallied, Sent, Written, Holds, FixedL, FixedD, AllCodable, Ready, HeaderBits, BlockBits,
          BitWriter.Stream;
      if level > 0 {
        var c, optLen, staticLen := BuildTrees(lfc, ldl, dfc, ddl, bfc, bdl, lstat, dstat, tokens);
        codes := c;
        var optLenb, staticLenb := (optLen + 3 + 7) / 8, (staticLen + 3 + 7) / 8;
        if staticLenb <= optLenb { optLenb := staticLenb; }
        if storedLen + 4 <= optLenb && buf.Some? {
          choice := Choice(STORED_BLOCK, optLen, staticLen);
          SendBuf(w, buf, last, tokens, choice, codes);
        } else {
          var fixed := fixedOnly || staticLenb == optLenb;
          choice := Choice(if fixed then STATIC_TREES else DYN_TREES, optLen, staticLen);
          SendCoded(w, fixed, last, lstat, dstat, c, tokens, buf, choice);
        }
      } else {
        choice, codes := Choice(STORED_BLOCK, 0, 0), NoCodes();
        SendBuf(w, buf, last, tokens, choice, codes);
      }
    }
  }

  ghost function NoCodes(): Codes
  {
    Codes(CodeTree([], []), CodeTree([], []), CodeTree([], []), [], [], [], 0)
  }

  /** Sends the block as it is. */
  method SendBuf(w: BitWriter, buf: Option<seq<Byte>>, last: bool, ghost ts: seq<Token>, ghost ch: Choice,
                 ghost c: Codes)
    requires w.Valid() && buf.Some? && |buf.value| < 65536 && ch.kind == STORED_BLOCK
    modifies w
    ensures w.Valid() && Sent(old(w.Stream()), w.Stream(), last, ts, buf, ch)
    ensures Written(old(w.Stream()), w.Stream(), last, ts, buf, ch.kind, c)
  {
    ghost var s := w.Stream();
    SendStored(w, buf.value, last);
    StoredGrows(s, Head(STORED_BLOCK, last), w.Stream(), StoredBits(buf.value));
    StoredMeans(s, last, ts, buf.value, w.Stream());
  }

  method ClearFreqs(f: array<nat>, n: nat)
    requires n <= f.Length
    modifies f
    ensures forall i :: 0 <= i < n ==> f[i] == 0
    ensures forall i :: n <= i < f.Length ==> f[i] == old(f[i])
  {
    for i := 0 to n
      invariant forall k :: 0 <= k < i ==> f[k] == 0
      invariant forall k :: n <= k < f.Length ==> f[k] == old(f[k])
    {
      f[i] := 0;
    }
  }

  /** Tallying one token. */
  lemma TalliedNext(ts: seq<Token>, t: Token, f: seq<nat>, f': seq<nat>, g: seq<nat>, g': seq<nat>)
    requires ValidTokens(ts) && ValidToken(t) && Tallied(f, LFreqs(ts)) && Tallied(g, DFreqs(ts))
    requires |f| >= L_CODES && f' == f[LSymbol(t) := f[LSymbol(t)] + 1]
    requires if t.Literal? then g' == g else |g| >= D_CODES && g' == g[DSymbol(t) := g[DSymbol(t)] + 1]
    ensures ValidTokens(ts + [t]) && Tallied(f', LFreqs(ts + [t])) && Tallied(g', DFreqs(ts + [t]))
  {
    assert (ts + [t])[..|ts|] == ts;
  }
}

/**
  * Whole blocks of the three kinds, and that the decoder reads each as the bytes it was made for (sections 3.2.3 to
  * 3.2.7 of RFC 1951).
  */
module WholeBlocks {
  import opened Arith
  import opened Canonical
  import opened BitStream
  import opened Tokens
  import opened Decoder
  import opened BlockData
  import opened TreeHeader
  import opened FixedTrees

  const STORED_BLOCK: nat := 0
  const STATIC_TREES: nat := 1
  const DYN_TREES: nat := 2

  function LastBit(last: bool): nat
  {
    if last then 1 else 0
  }

  /** The first three bits of a block. */
  function Head(kind: nat, last: bool): (h: Bits)
    ensures |h| == 3
  {
    ToBits(2 * kind + LastBit(last), 3)
  }

  lemma HeadIsRead(all: Bits, pos: nat, kind: nat, last: bool)
    requires kind < 3 && At(all, pos, Head(kind, last))
    ensures ReadBits(all, pos, 1) == Some(Read(LastBit(last), pos + 1))
    ensures ReadBits(all, pos + 1, 2) == Some(Read(kind, pos + 3))
  {
    var v := 2 * kind + LastBit(last);
    ToBitsSplit(v, 1, 2);
    assert High(v, 1) == kind && Low(v, 1) == LastBit(last);
    ToBitsLow(v, 1);
    AtSplit(all, pos, ToBits(v, 1), ToBits(High(v, 1), 2));
    assert Pow2(1) == 2 && Pow2(2) == 4;
    ReadNumber(all, pos, LastBit(last), 1);
    ReadNumber(all, pos + 1, kind, 2);
  }

  lemma ReadHead(all: Bits, pos: nat, p: nat, kind: nat, last: bool, out: seq<Byte>, r: Result)
    requires kind < 3 && At(all, pos, Head(kind, last)) && p == pos + 3 && ReadBody(kind, all, p, out) == r && r.Done?
    ensures ReadBlock(all, pos, out) == Block(last, r.out, r.pos)
  {
    HeadIsRead(all, pos, kind, last);
  }

  // ---------------------------------------------------------------- fixed and dynamic codes

  ghost function FixedBits(last: bool, ts: seq<Token>): Bits
    requires AllCodable(FixedL(), FixedD(), ts)
  {
    Head(STATIC_TREES, last) + BlockBits(FixedL(), FixedD(), ts)
  }

  lemma FixedIsRead(all: Bits, pos: nat, last: bool, ts: seq<Token>, out: seq<Byte>)
    requires AllCodable(FixedL(), FixedD(), ts) && At(all, pos, FixedBits(last, ts)) && AllFit(out, ts)
    ensures ReadBlock(all, pos, out) == Block(last, Expand(out, ts), pos + |FixedBits(last, ts)|)
  {
    hide BlockBits, Head, ReadBlock, Expand, AllFit, FixedL, FixedD, AllCodable;
    var b := BlockBits(FixedL(), FixedD(), ts);
    AtSplit(all, pos, Head(STATIC_TREES, last), b);
    FixedUnambiguous();
    BlockIsRead(FixedL(), FixedD(), all, pos + 3, ts, out);
    ReadHead(all, pos, pos + 3, STATIC_TREES, last, out, Done(Expand(out, ts), pos + 3 + |b|));
  }

  /** Codes and a header that fit the tokens. */
  ghost predicate Dynamic(ll: seq<nat>, dl: seq<nat>, bl: seq<nat>, bn: nat, ts: seq<Token>)
  {
    && Sendable(ll, dl, bl, bn) && Acceptable(ll, dl, bl) && Trimmed(bl, ORDER, bn)
    && PrefixCodes(ll, dl) && AllCodable(ll, dl, ts)
  }

  ghost function DynBits(last: bool, ll: seq<nat>, dl: seq<nat>, bl: seq<nat>, bn: nat, ts: seq<Token>): Bits
    requires Dynamic(ll, dl, bl, bn, ts)
  {
    Head(DYN_TREES, last) + (HeaderBits(ll, dl, bl, bn) + BlockBits(ll, dl, ts))
  }

  lemma DynIsRead(all: Bits, pos: nat, last: bool, ll: seq<nat>, dl: seq<nat>, bl: seq<nat>, bn: nat, ts: seq<Token>,
                  out: seq<Byte>)
    requires Dynamic(ll, dl, bl, bn, ts) && At(all, pos, DynBits(last, ll, dl, bl, bn, ts)) && AllFit(out, ts)
    ensures ReadBlock(all, pos, out) == Block(last, Expand(out, ts), pos + |DynBits(last, ll, dl, bl, bn, ts)|)
  {
    hide HeaderBits, BlockBits, Head, ReadBlock, Expand, AllFit, ReadHeader, Inflate;
    var h, b := HeaderBits(ll, dl, bl, bn), BlockBits(ll, dl, ts);
    AtSplit(all, pos, Head(DYN_TREES, last), h + b);
    AtSplit(all, pos + 3, h, b);
    var p, q: nat := pos + 3, pos + 3 + |h|;
    HeaderIsRead(ll, dl, bl, bn, all, p, q);
    BlockIsRead(ll, dl, all, q, ts, out);
    ReadHead(all, pos, p, DYN_TREES, last, out, Done(Expand(out, ts), q + |b|));
  }

  // ---------------------------------------------------------------- stored bytes

  function StoredBits(buf: seq<Byte>): Bits
    requires |buf| < 65536
  {
    ToBits(|buf|, 16) + ToBits(65535 - |buf|, 16) + BytesBits(buf)
  }

  lemma StoredAreRead(all: Bits, pos: nat, buf: seq<Byte>, out: seq<Byte>)
    requires |buf| < 65536 && At(all, pos, StoredBits(buf))
    ensures ReadStored(all, pos, out) == Done(out + buf, pos + 32 + 8 * |buf|)
  {
    var a, b := ToBits(|buf|, 16), ToBits(65535 - |buf|, 16);
    AtSplit(all, pos, a + b, BytesBits(buf));
    AtSplit(all, pos, a, b);
    assert Pow2(16) == 65536 by { assert Pow2(10) == 1024; }
    ReadNumber(all, pos, |buf|, 16);
    ReadNumber(all, pos + 16, 65535 - |buf|, 16);
    BytesAreRead(all, pos + 32, buf);
  }

  lemma StoredIsRead(all: Bits, pos: nat, last: bool, buf: seq<Byte>, out: seq<Byte>)
    requires |buf| < 65536 && At(all, pos, Head(STORED_BLOCK, last)) && At(all, Align(pos + 3), StoredBits(buf))
    ensures ReadBlock(all, pos, out) == Block(last, out + buf, Align(pos + 3) + |StoredBits(buf)|)
  {
    var p := pos + 3;
    StoredAreRead(all, Align(p), buf, out);
    ReadHead(all, pos, p, STORED_BLOCK, last, out, Done(out + buf, Align(p) + 32 + 8 * |buf|));
  }
}

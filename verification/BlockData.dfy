/**
  * The data of a compressed block: tokens as code words and extra bits (`compress_block` of dep/zlib/trees.c), and
  * that the decoder reads back what the tokens stand for.
  */
module BlockData {
  import opened Arith
  import opened Canonical
  import opened BitStream
  import opened Tokens
  import opened Decoder
  import IT = InflateTable

  // ---------------------------------------------------------------- reading what was written

  lemma AtSplit(all: Bits, pos: nat, a: Bits, b: Bits)
    requires At(all, pos, a + b)
    ensures At(all, pos, a) && At(all, pos + |a|, b)
  {
    var s := all[pos..pos + |a + b|];
    assert s[..|a|] == a && s[|a|..] == b;
    assert all[pos..pos + |a|] == s[..|a|];
    assert all[pos + |a|..pos + |a| + |b|] == s[|a|..];
  }

  lemma {:induction false} FromBitsLow(s: Bits, l: nat)
    requires l <= |s|
    ensures FromBits(s[..l]) == Low(FromBits(s), l)
  {
    if l != 0 {
      FromBitsLow(s[1..], l - 1);
      assert s[..l][1..] == s[1..][..l - 1];
    }
  }

  lemma WordIsHuff(lens: seq<nat>, all: Bits, pos: nat, i: nat)
    requires Used(lens, i) && Kraft(lens) <= Pow2(MAXBITS) && At(all, pos, Word(lens, i))
    ensures Low(FromBits(all[pos..]), lens[i]) == IT.Huff(lens, i)
  {
    var l, c := lens[i], Rev(Code(lens, i), lens[i]);
    IT.HuffIsRevCode(lens, i);
    FromBitsLow(all[pos..], l);
    assert all[pos..][..l] == all[pos..pos + l];
    FromToBits(c, l);
    LowSmall(c, l);
  }

  /** No two code words can be in the same place: none is a prefix of another. */
  ghost predicate Unambiguous(lens: seq<nat>)
  {
    forall i: nat, j: nat, all: Bits, pos: nat {:trigger At(all, pos, Word(lens, i)), At(all, pos, Word(lens, j))} ::
      Used(lens, i) && Used(lens, j) && At(all, pos, Word(lens, i)) && At(all, pos, Word(lens, j)) ==> i == j
  }

  lemma KraftUnambiguous(lens: seq<nat>)
    requires Kraft(lens) <= Pow2(MAXBITS)
    ensures Unambiguous(lens)
  {
    forall i: nat, j: nat, all: Bits, pos: nat |
        Used(lens, i) && Used(lens, j) && At(all, pos, Word(lens, i)) && At(all, pos, Word(lens, j))
      ensures i == j
    {
      if i != j {
        WordIsHuff(lens, all, pos, i);
        WordIsHuff(lens, all, pos, j);
        IT.NoClash(lens, i, j, FromBits(all[pos..]));
      }
    }
  }

  /** Code words are read back, because no other word is in the same place. */
  lemma ReadWord(lens: seq<nat>, all: Bits, pos: nat, i: nat)
    requires Used(lens, i) && Unambiguous(lens) && At(all, pos, Word(lens, i))
    ensures ReadSymbol(lens, all, pos) == Some(Read(i, pos + lens[i]))
  {
    FoundSome(lens, all, pos, i, |lens|);
  }

  lemma {:induction false} FoundSome(lens: seq<nat>, all: Bits, pos: nat, i: nat, n: nat)
    requires i < n <= |lens| && Used(lens, i) && At(all, pos, Word(lens, i))
    ensures FindSymbol(lens, all, pos, n).Some?
  {
    if i < n - 1 { FoundSome(lens, all, pos, i, n - 1); }
  }

  lemma ReadNumber(all: Bits, pos: nat, v: nat, n: nat)
    requires v < Pow2(n) && At(all, pos, ToBits(v, n))
    ensures ReadBits(all, pos, n) == Some(Read(v, pos + n))
  {
    FromToBits(v, n);
    LowSmall(v, n);
  }

  lemma {:induction false} BytesAreRead(all: Bits, pos: nat, buf: seq<Byte>)
    requires At(all, pos, BytesBits(buf))
    ensures ReadBytes(all, pos, |buf|) == Some(buf)
    decreases |buf|
  {
    if buf != [] {
      var k := |buf| - 1;
      AtSplit(all, pos, BytesBits(buf[..k]), ToBits(buf[k], 8));
      BytesAreRead(all, pos, buf[..k]);
      assert Pow2(8) == 256;
      ReadNumber(all, pos + 8 * k, buf[k], 8);
      assert buf == buf[..k] + [buf[k]];
    }
  }

  // ---------------------------------------------------------------- tokens

  /** The literal/length symbol of a token. */
  function LSymbol(t: Token): (s: nat)
    requires ValidToken(t)
    ensures s < L_CODES && s != END_BLOCK
  {
    match t
    case Literal(b) => b
    case Match(length, _) => LengthSymbol(length - MIN_MATCH)
  }

  function LengthSymbol(lc: nat): (s: nat)
    requires lc <= 255
    ensures LITERALS < s < L_CODES
  {
    if lc < 255 then LengthCodeFits(lc); LITERALS + 1 + LengthCode(lc) else LITERALS + 1 + LengthCode(lc)
  }

  function DSymbol(t: Token): (s: nat)
    requires t.Match? && ValidToken(t)
    ensures s < D_CODES
  {
    DistCodeFits(t.dist - 1);
    DistCode(t.dist - 1)
  }

  /** The offset of a length within its code; the code for 258 has no offsets. */
  function LOffset(lc: nat): (v: nat)
    requires lc <= 255
    ensures v < Pow2(ExtraL(LengthCode(lc)))
  {
    if lc == 255 then 0 else LengthCodeFits(lc); lc - BaseL(LengthCode(lc))
  }

  function DOffset(d: nat): (v: nat)
    requires d < 32768
    ensures v < Pow2(ExtraD(DistCode(d)))
  {
    DistCodeFits(d);
    d - BaseD(DistCode(d))
  }

  /** Both codes have words for the symbols of the token. */
  ghost predicate Codable(ll: seq<nat>, dl: seq<nat>, t: Token)
  {
    ValidToken(t) && Used(ll, LSymbol(t)) && (t.Match? ==> Used(dl, DSymbol(t)))
  }

  ghost predicate AllCodable(ll: seq<nat>, dl: seq<nat>, ts: seq<Token>)
  {
    Used(ll, END_BLOCK) && forall i :: 0 <= i < |ts| ==> Codable(ll, dl, ts[i])
  }

  function LengthBits(ll: seq<nat>, lc: nat): Bits
    requires lc <= 255 && Used(ll, LengthSymbol(lc))
  {
    Word(ll, LengthSymbol(lc)) + ToBits(LOffset(lc), ExtraL(LengthCode(lc)))
  }

  function DistBits(dl: seq<nat>, d: nat): Bits
    requires d < 32768 && Used(dl, DistCode(d))
  {
    Word(dl, DistCode(d)) + ToBits(DOffset(d), ExtraD(DistCode(d)))
  }

  ghost function TokenBits(ll: seq<nat>, dl: seq<nat>, t: Token): Bits
    requires Codable(ll, dl, t)
  {
    match t
    case Literal(b) => Word(ll, b)
    case Match(length, dist) => LengthBits(ll, length - MIN_MATCH) + DistBits(dl, dist - 1)
  }

  ghost function TokensBits(ll: seq<nat>, dl: seq<nat>, ts: seq<Token>): Bits
    requires AllCodable(ll, dl, ts)
    decreases |ts|
  {
    if ts == [] then [] else TokenBits(ll, dl, ts[0]) + TokensBits(ll, dl, ts[1..])
  }

  /** The data of a whole block. */
  ghost function BlockBits(ll: seq<nat>, dl: seq<nat>, ts: seq<Token>): Bits
    requires AllCodable(ll, dl, ts)
  {
    TokensBits(ll, dl, ts) + Word(ll, END_BLOCK)
  }

  // ---------------------------------------------------------------- the decoder understands

  ghost predicate PrefixCodes(ll: seq<nat>, dl: seq<nat>)
  {
    Unambiguous(ll) && Unambiguous(dl)
  }

  lemma LengthIsRead(ll: seq<nat>, all: Bits, pos: nat, lc: nat)
    requires Unambiguous(ll) && lc <= 255 && Used(ll, LengthSymbol(lc)) && At(all, pos, LengthBits(ll, lc))
    ensures var s := LengthSymbol(lc);
      && ReadSymbol(ll, all, pos) == Some(Read(s, pos + ll[s]))
      && ReadLength(all, pos + ll[s], s) == Some(Read(lc + 3, pos + |LengthBits(ll, lc)|))
  {
    if lc < 255 { LengthCodeFits(lc); }
    LengthAt(ll, all, pos, LengthCode(lc), LOffset(lc), LengthSymbol(lc));
  }

  lemma LengthAt(ll: seq<nat>, all: Bits, pos: nat, c: nat, v: nat, s: nat)
    requires Unambiguous(ll) && c <= 28 && s == c + 257 && Used(ll, s) && v < Pow2(ExtraL(c))
    requires At(all, pos, Word(ll, s) + ToBits(v, ExtraL(c)))
    ensures ReadSymbol(ll, all, pos) == Some(Read(s, pos + ll[s]))
    ensures ReadLength(all, pos + ll[s], s) == Some(Read(FirstLength(c) + v, pos + ll[s] + ExtraL(c)))
  {
    AtSplit(all, pos, Word(ll, s), ToBits(v, ExtraL(c)));
    ReadWord(ll, all, pos, s);
    ReadNumber(all, pos + ll[s], v, ExtraL(c));
  }

  lemma DistIsRead(dl: seq<nat>, all: Bits, pos: nat, d: nat)
    requires Unambiguous(dl) && d < 32768 && Used(dl, DistCode(d)) && At(all, pos, DistBits(dl, d))
    ensures ReadDist(dl, all, pos) == Some(Read(d + 1, pos + |DistBits(dl, d)|))
  {
    DistCodeFits(d);
    DistAt(dl, all, pos, DistCode(d), DOffset(d));
  }

  lemma DistAt(dl: seq<nat>, all: Bits, pos: nat, c: nat, v: nat)
    requires Unambiguous(dl) && c < 30 && Used(dl, c) && v < Pow2(ExtraD(c))
    requires At(all, pos, Word(dl, c) + ToBits(v, ExtraD(c)))
    ensures ReadDist(dl, all, pos) == Some(Read(BaseD(c) + 1 + v, pos + dl[c] + ExtraD(c)))
  {
    AtSplit(all, pos, Word(dl, c), ToBits(v, ExtraD(c)));
    ReadWord(dl, all, pos, c);
    ReadNumber(all, pos + dl[c], v, ExtraD(c));
  }

  /** One token is read as what it stands for. */
  lemma TokenIsRead(ll: seq<nat>, dl: seq<nat>, all: Bits, pos: nat, t: Token, out: seq<Byte>, pos': nat,
                    out': seq<Byte>)
    requires PrefixCodes(ll, dl) && Codable(ll, dl, t) && At(all, pos, TokenBits(ll, dl, t)) && Fits(t, |out|)
    requires pos' == pos + |TokenBits(ll, dl, t)| && out' == Extend(out, t)
    ensures Inflate(ll, dl, all, pos, out) == Inflate(ll, dl, all, pos', out')
  {
    if t.Literal? {
      ReadWord(ll, all, pos, t.b);
    } else {
      MatchIsRead(ll, dl, all, pos, t.length - MIN_MATCH, t.dist - 1, out, pos', out');
    }
  }

  lemma MatchIsRead(ll: seq<nat>, dl: seq<nat>, all: Bits, pos: nat, lc: nat, d: nat, out: seq<Byte>, pos': nat,
                    out': seq<Byte>)
    requires PrefixCodes(ll, dl) && lc <= 255 && d < 32768 && Used(ll, LengthSymbol(lc)) && Used(dl, DistCode(d))
    requires d < |out|
    requires At(all, pos, LengthBits(ll, lc) + DistBits(dl, d))
    requires pos' == pos + |LengthBits(ll, lc) + DistBits(dl, d)| && out' == Copy(out, d + 1, lc + 3)
    ensures Inflate(ll, dl, all, pos, out) == Inflate(ll, dl, all, pos', out')
  {
    var p1, p2, p3 := MatchParts(ll, dl, all, pos, lc, d);
    MatchStep(ll, dl, all, pos, LengthSymbol(lc), p1, lc + 3, p2, d + 1, p3, out, out');
  }

  lemma MatchParts(ll: seq<nat>, dl: seq<nat>, all: Bits, pos: nat, lc: nat, d: nat) returns (p1: nat, p2: nat, p3: nat)
    requires PrefixCodes(ll, dl) && lc <= 255 && d < 32768 && Used(ll, LengthSymbol(lc)) && Used(dl, DistCode(d))
    requires At(all, pos, LengthBits(ll, lc) + DistBits(dl, d))
    ensures ReadSymbol(ll, all, pos) == Some(Read(LengthSymbol(lc), p1))
    ensures ReadLength(all, p1, LengthSymbol(lc)) == Some(Read(lc + 3, p2))
    ensures ReadDist(dl, all, p2) == Some(Read(d + 1, p3)) && p3 == pos + |LengthBits(ll, lc) + DistBits(dl, d)|
  {
    var a, b := LengthBits(ll, lc), DistBits(dl, d);
    AtSplit(all, pos, a, b);
    LengthIsRead(ll, all, pos, lc);
    DistIsRead(dl, all, pos + |a|, d);
    p1, p2, p3 := pos + ll[LengthSymbol(lc)], pos + |a|, pos + |a| + |b|;
  }

  lemma MatchStep(ll: seq<nat>, dl: seq<nat>, all: Bits, pos: nat, s: nat, p1: nat, length: nat, p2: nat, dist: nat,
                  p3: nat, out: seq<Byte>, out': seq<Byte>)
    requires ReadSymbol(ll, all, pos) == Some(Read(s, p1)) && s > 256
    requires ReadLength(all, p1, s) == Some(Read(length, p2)) && ReadDist(dl, all, p2) == Some(Read(dist, p3))
    requires 1 <= dist <= |out|
    requires out' == Copy(out, dist, length)
    ensures Inflate(ll, dl, all, pos, out) == Inflate(ll, dl, all, p3, out')
  {
  }

  /** The data of a block is read as the bytes that its tokens stand for. */
  lemma {:induction false} BlockIsRead(ll: seq<nat>, dl: seq<nat>, all: Bits, pos: nat, ts: seq<Token>, out: seq<Byte>)
    requires PrefixCodes(ll, dl) && AllCodable(ll, dl, ts) && At(all, pos, BlockBits(ll, dl, ts)) && AllFit(out, ts)
    ensures Inflate(ll, dl, all, pos, out) == Done(Expand(out, ts), pos + |BlockBits(ll, dl, ts)|)
    decreases |ts|
  {
    if ts == [] {
      assert BlockBits(ll, dl, ts) == Word(ll, END_BLOCK);
      EndIsRead(ll, dl, all, pos, out);
    } else {
      var pos', out' := FirstIsRead(ll, dl, all, pos, ts, out);
      BlockIsRead(ll, dl, all, pos', ts[1..], out');
    }
  }

  lemma FirstIsRead(ll: seq<nat>, dl: seq<nat>, all: Bits, pos: nat, ts: seq<Token>, out: seq<Byte>)
      returns (pos': nat, out': seq<Byte>)
    requires PrefixCodes(ll, dl) && AllCodable(ll, dl, ts) && ts != [] && At(all, pos, BlockBits(ll, dl, ts))
    requires AllFit(out, ts)
    ensures Inflate(ll, dl, all, pos, out) == Inflate(ll, dl, all, pos', out')
    ensures AllCodable(ll, dl, ts[1..]) && At(all, pos', BlockBits(ll, dl, ts[1..])) && AllFit(out', ts[1..])
    ensures Expand(out, ts) == Expand(out', ts[1..])
    ensures pos + |BlockBits(ll, dl, ts)| == pos' + |BlockBits(ll, dl, ts[1..])|
  {
    hide PrefixCodes, TokenBits, Word, Extend;
    var a := TokenBits(ll, dl, ts[0]);
    FirstToken(ll, dl, ts);
    AtSplit(all, pos, a, BlockBits(ll, dl, ts[1..]));
    pos', out' := pos + |a|, Extend(out, ts[0]);
    TokenIsRead(ll, dl, all, pos, ts[0], out, pos', out');
  }

  lemma EndIsRead(ll: seq<nat>, dl: seq<nat>, all: Bits, pos: nat, out: seq<Byte>)
    requires Unambiguous(ll) && Used(ll, END_BLOCK) && At(all, pos, Word(ll, END_BLOCK))
    ensures Inflate(ll, dl, all, pos, out) == Done(out, pos + |Word(ll, END_BLOCK)|)
  {
    ReadWord(ll, all, pos, END_BLOCK);
  }

  lemma FirstToken(ll: seq<nat>, dl: seq<nat>, ts: seq<Token>)
    requires AllCodable(ll, dl, ts) && ts != []
    ensures AllCodable(ll, dl, ts[1..])
    ensures BlockBits(ll, dl, ts) == TokenBits(ll, dl, ts[0]) + BlockBits(ll, dl, ts[1..])
  {
  }
}

/**
  * What a DEFLATE stream means: a decoder that follows the format (sections 3.2.2 to 3.2.7 of RFC 1951) and knows
  * nothing about tables, windows or buffers.
  */
module Decoder {
  import opened Arith
  import opened Canonical
  import opened BitStream
  import opened Tokens
  import IT = InflateTable
  import CL = CodeLengths

  datatype Option<T> = None | Some(value: T)

  /** A symbol or number, and where the bits after it start. */
  datatype Read = Read(value: nat, pos: nat)

  // ---------------------------------------------------------------- symbols and numbers

  /** The code word of a symbol, as it appears in the stream. */
  function Word(lens: seq<nat>, i: nat): (w: Bits)
    requires Used(lens, i)
    ensures |w| == lens[i]
  {
    ToBits(Rev(Code(lens, i), lens[i]), lens[i])
  }

  /** Whether `w` is in `all` at position `pos`. */
  predicate At(all: Bits, pos: nat, w: Bits)
  {
    pos + |w| <= |all| && all[pos..pos + |w|] == w
  }

  /** The first of the symbols below `n`, from the last down, whose code word comes next. */
  function FindSymbol(lens: seq<nat>, all: Bits, pos: nat, n: nat): (r: Option<nat>)
    requires n <= |lens|
    ensures r.Some? ==> r.value < n && Used(lens, r.value) && At(all, pos, Word(lens, r.value))
  {
    if n == 0 then None
    else if Used(lens, n - 1) && At(all, pos, Word(lens, n - 1)) then Some(n - 1)
    else FindSymbol(lens, all, pos, n - 1)
  }

  function ReadSymbol(lens: seq<nat>, all: Bits, pos: nat): (r: Option<Read>)
    ensures r.Some? ==> pos < r.value.pos <= |all|
  {
    var s := FindSymbol(lens, all, pos, |lens|);
    if s.None? then None else Some(Read(s.value, pos + lens[s.value]))
  }

  function ReadBits(all: Bits, pos: nat, n: nat): (r: Option<Read>)
    ensures r.Some? ==> r.value.pos == pos + n <= |all|
  {
    if pos + n > |all| then None else Some(Read(FromBits(all[pos..pos + n]), pos + n))
  }

  // ---------------------------------------------------------------- compressed data

  /** The output and the position after a block, or an error. */
  datatype Result = Done(out: seq<Byte>, pos: nat) | Error

  /** The first length of each length code. */
  function FirstLength(c: nat): (l: nat)
    ensures l >= 3
  {
    if c == 28 then 258 else BaseL(c) + 3
  }

  /** A length symbol and its extra bits; lengths start at symbol 257. */
  function ReadLength(all: Bits, pos: nat, sym: nat): (r: Option<Read>)
    requires sym > 256
    ensures r.Some? ==> pos <= r.value.pos <= |all| && r.value.value >= 3
  {
    if sym >= 286 then None
    else
      var x := ReadBits(all, pos, ExtraL(sym - 257));
      if x.None? then None else Some(Read(FirstLength(sym - 257) + x.value.value, x.value.pos))
  }

  /** A distance symbol and its extra bits. */
  function ReadDist(lens: seq<nat>, all: Bits, pos: nat): (r: Option<Read>)
    ensures r.Some? ==> pos < r.value.pos <= |all| && r.value.value >= 1
  {
    var d := ReadSymbol(lens, all, pos);
    if d.None? || d.value.value >= 30 then None
    else
      var c := d.value.value;
      var x := ReadBits(all, d.value.pos, ExtraD(c));
      if x.None? then None else Some(Read(BaseD(c) + 1 + x.value.value, x.value.pos))
  }

  /** Literals and matches up to the end of the block. */
  function Inflate(ll: seq<nat>, dl: seq<nat>, all: Bits, pos: nat, out: seq<Byte>): (r: Result)
    ensures r.Done? ==> pos < r.pos <= |all|
    decreases |all| - pos
  {
    var s := ReadSymbol(ll, all, pos);
    if s.None? then Error
    else if s.value.value < 256 then Inflate(ll, dl, all, s.value.pos, out + [s.value.value])
    else if s.value.value == 256 then Done(out, s.value.pos)
    else
      var l := ReadLength(all, s.value.pos, s.value.value);
      if l.None? then Error
      else
        var d := ReadDist(dl, all, l.value.pos);
        if d.None? || d.value.value > |out| then Error
        else Inflate(ll, dl, all, d.value.pos, Copy(out, d.value.value, l.value.value))
  }

  // ---------------------------------------------------------------- dynamic codes

  /** The order in which the lengths of the code length code are sent. */
  const ORDER: seq<nat> := [16, 17, 18, 0, 8, 7, 9, 6, 10, 5, 11, 4, 12, 3, 13, 2, 14, 1, 15]

  datatype Lengths = Lengths(lens: seq<nat>, pos: nat)

  /** `n` numbers of three bits. */
  function ReadThrees(all: Bits, pos: nat, n: nat): (r: Option<Lengths>)
    ensures r.Some? ==> |r.value.lens| == n && r.value.pos == pos + 3 * n && (n > 0 ==> r.value.pos <= |all|)
  {
    if n == 0 then Some(Lengths([], pos))
    else
      var r := ReadThrees(all, pos, n - 1);
      if r.None? then None
      else
        var x := ReadBits(all, r.value.pos, 3);
        if x.None? then None else Some(Lengths(r.value.lens + [x.value.value], x.value.pos))
  }

  /** Puts the lengths where `order` says; what is not sent is zero. */
  function Placed(v: seq<nat>, order: seq<nat>): (r: seq<nat>)
    requires |v| <= |order|
    ensures |r| == |order|
    decreases |v|
  {
    if v == [] then seq(|order|, i => 0)
    else
      var k := |v| - 1;
      var r := Placed(v[..k], order);
      if order[k] < |r| then r[order[k] := v[k]] else r
  }

  /** Run-length coded lengths until there are `limit` of them. */
  function ReadLens(bl: seq<nat>, all: Bits, pos: nat, have: seq<nat>, limit: nat): (r: Option<Lengths>)
    ensures r.Some? ==> pos <= r.value.pos
    decreases |all| - pos
  {
    if |have| >= limit then Some(Lengths(have, pos))
    else
      var s := ReadSymbol(bl, all, pos);
      if s.None? then None
      else
        var x := ReadBits(all, s.value.pos, CL.ExtraBits(s.value.value));
        if x.None? then None
        else
          var r := CL.Apply(have, CL.Op(s.value.value, x.value.value), limit);
          if r.Bad? then None else ReadLens(bl, all, x.value.pos, r.lens, limit)
  }

  datatype Header = Header(ll: seq<nat>, dl: seq<nat>, pos: nat)

  /** The two codes, from all lengths read. */
  ghost function SplitLens(nlen: nat, lens: seq<nat>, pos: nat): (r: Option<Header>)
    ensures r.Some? ==> r.value.pos == pos
  {
    if |lens| < nlen || nlen <= END_BLOCK || lens[END_BLOCK] == 0 then None
    else if IT.Refused(IT.LENS, lens[..nlen]) || IT.Refused(IT.DISTS, lens[nlen..]) then None
    else Some(Header(lens[..nlen], lens[nlen..], pos))
  }

  /** The codes of a dynamic block, given the code length code. */
  ghost function CodesFrom(bl: seq<nat>, all: Bits, pos: nat, nlen: nat, ndist: nat): (r: Option<Header>)
    ensures r.Some? ==> pos <= r.value.pos
  {
    if IT.Refused(IT.CODES, bl) then None
    else
      var r := ReadLens(bl, all, pos, [], nlen + ndist);
      if r.None? then None else SplitLens(nlen, r.value.lens, r.value.pos)
  }

  /** The codes of a dynamic block, given the three counts. */
  ghost function ReadCodes(all: Bits, pos: nat, nlen: nat, ndist: nat, ncode: nat): (r: Option<Header>)
    ensures r.Some? ==> pos <= r.value.pos
  {
    if nlen > 286 || ndist > 30 || ncode > |ORDER| then None
    else
      var v := ReadThrees(all, pos, ncode);
      if v.None? then None else CodesFrom(Placed(v.value.lens, ORDER), all, v.value.pos, nlen, ndist)
  }

  /** How many lengths of each of the three codes follow. */
  datatype Counts = Counts(nlen: nat, ndist: nat, ncode: nat, pos: nat)

  function ReadCounts(all: Bits, pos: nat): (r: Option<Counts>)
    ensures r.Some? ==> pos <= r.value.pos
  {
    var l, d, c := ReadBits(all, pos, 5), ReadBits(all, pos + 5, 5), ReadBits(all, pos + 10, 4);
    if l.None? || d.None? || c.None? then None
    else Some(Counts(l.value.value + 257, d.value.value + 1, c.value.value + 4, pos + 14))
  }

  ghost function ReadHeader(all: Bits, pos: nat): (r: Option<Header>)
    ensures r.Some? ==> pos <= r.value.pos
  {
    var c := ReadCounts(all, pos);
    if c.None? then None else ReadCodes(all, c.value.pos, c.value.nlen, c.value.ndist, c.value.ncode)
  }

  // ---------------------------------------------------------------- blocks

  /** The lengths of the fixed codes. */
  function FixedLength(n: nat): nat
  {
    if n < 144 then 8 else if n < 256 then 9 else if n < 280 then 7 else 8
  }

  function FixedL(): (r: seq<nat>)
    ensures |r| == 288 && forall n :: 0 <= n < 288 ==> r[n] == FixedLength(n)
  {
    seq(288, n requires 0 <= n => FixedLength(n))
  }

  function FixedD(): (r: seq<nat>)
    ensures |r| == 32 && forall n :: 0 <= n < 32 ==> r[n] == 5
  {
    seq(32, n => 5)
  }

  /** Whole bytes, from a byte boundary. */
  function ReadBytes(all: Bits, pos: nat, n: nat): (r: Option<seq<Byte>>)
    ensures r.Some? ==> |r.value| == n && pos + 8 * n <= |all|
  {
    if n == 0 then if pos <= |all| then Some([]) else None
    else
      var r := ReadBytes(all, pos, n - 1);
      var x := ReadBits(all, pos + 8 * (n - 1), 8);
      if r.None? || x.None? || x.value.value >= 256 then None else Some(r.value + [x.value.value])
  }

  function Align(pos: nat): nat
  {
    (pos + 7) / 8 * 8
  }

  /** A stored block: the length, its complement, and the bytes. */
  function ReadStored(all: Bits, pos: nat, out: seq<Byte>): (r: Result)
    ensures r.Done? ==> pos <= r.pos <= |all|
  {
    var n, c := ReadBits(all, pos, 16), ReadBits(all, pos + 16, 16);
    if n.None? || c.None? || n.value.value + c.value.value != 65535 then Error
    else
      var b := ReadBytes(all, pos + 32, n.value.value);
      if b.None? then Error else Done(out + b.value, pos + 32 + 8 * n.value.value)
  }

  datatype Block = Block(last: bool, out: seq<Byte>, pos: nat) | BadBlock

  ghost function ReadBody(kind: nat, all: Bits, pos: nat, out: seq<Byte>): (r: Result)
    ensures r.Done? ==> pos <= r.pos <= |all|
  {
    if kind == 0 then ReadStored(all, Align(pos), out)
    else if kind == 1 then Inflate(FixedL(), FixedD(), all, pos, out)
    else if kind == 2 then
      var h := ReadHeader(all, pos);
      if h.None? then Error else Inflate(h.value.ll, h.value.dl, all, h.value.pos, out)
    else Error
  }

  /** One block of any kind, after the output `out`. */
  ghost function ReadBlock(all: Bits, pos: nat, out: seq<Byte>): (r: Block)
    ensures r.Block? ==> pos < r.pos <= |all|
  {
    var l, k := ReadBits(all, pos, 1), ReadBits(all, pos + 1, 2);
    if l.None? || k.None? then BadBlock
    else
      var r := ReadBody(k.value.value, all, pos + 3, out);
      if r.Error? then BadBlock else Block(l.value.value == 1, r.out, r.pos)
  }

  /** The bytes that a stream stands for, and where its last block ends. */
  datatype Whole = Whole(out: seq<Byte>, end: nat)

  /** All blocks up to the last one: what a whole stream means. */
  ghost function ReadStream(all: Bits, pos: nat, out: seq<Byte>): (r: Option<Whole>)
    ensures r.Some? ==> pos < r.value.end <= |all|
    decreases |all| - pos
  {
    var b := ReadBlock(all, pos, out);
    if b.BadBlock? then None else if b.last then Some(Whole(b.out, b.pos)) else ReadStream(all, b.pos, b.out)
  }

  // ---------------------------------------------------------------- the tables of the two sides

  lemma LengthStep(c: nat)
    requires 1 <= c <= 27
    ensures IT.LBASE[c] == IT.LBASE[c - 1] + Pow2(ExtraL(c - 1)) && IT.LEXT[c] == 16 + ExtraL(c)
  {
  }

  lemma DistStepSmall(c: nat)
    requires 1 <= c <= 15
    ensures IT.DBASE[c] == IT.DBASE[c - 1] + Pow2(ExtraD(c - 1)) && IT.DEXT[c] == 16 + ExtraD(c)
  {
  }

  lemma DistStepMiddle(c: nat)
    requires 16 <= c <= 22
    ensures IT.DBASE[c] == IT.DBASE[c - 1] + Pow2(ExtraD(c - 1)) && IT.DEXT[c] == 16 + ExtraD(c)
  {
    assert Pow2(6) == 64 && Pow2(7) == 128 && Pow2(8) == 256 && Pow2(9) == 512 && Pow2(10) == 1024;
  }

  lemma DistStepLarge(c: nat)
    requires 23 <= c <= 29
    ensures IT.DBASE[c] == IT.DBASE[c - 1] + Pow2(ExtraD(c - 1)) && IT.DEXT[c] == 16 + ExtraD(c)
  {
    assert Pow2(10) == 1024 && Pow2(11) == 2048 && Pow2(12) == 4096 && Pow2(13) == 8192;
  }

  /** The bases and extra bits in the tables of dep/zlib/inftrees.c are those of the format. */
  lemma {:induction false} LengthTable(c: nat)
    requires c <= 28
    ensures IT.LBASE[c] == FirstLength(c) && IT.LEXT[c] == 16 + ExtraL(c)
  {
    if 0 < c < 28 {
      LengthTable(c - 1);
      LengthStep(c);
    }
  }

  lemma {:induction false} DistTable(c: nat)
    requires c < 30
    ensures IT.DBASE[c] == BaseD(c) + 1 && IT.DEXT[c] == 16 + ExtraD(c)
  {
    if c > 0 {
      DistTable(c - 1);
      if c <= 15 { DistStepSmall(c); } else if c <= 22 { DistStepMiddle(c); } else { DistStepLarge(c); }
    }
  }
}

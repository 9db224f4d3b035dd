/**
  * `inflate` (dep/zlib/inflate.c), states TYPEDO to LIT: a machine that can stop after any byte of input or output,
  * and `inflate_fast` (dep/zlib/inffast.c), which it calls when there is enough of both. The ghost field `at` says
  * where in the stream the machine is; what it makes of the rest is always what the whole stream stands for.
  */
module Inflater {
  import opened Arith
  import opened Canonical
  import opened BitStream
  import opened Tokens
  import opened Decoder
  import opened InflateSteps
  import opened SymbolReader
  import opened InflateTracks
  import opened CircularWindow
  import opened DecodeTables
  import opened SymbolDecoder
  import opened TreeHeader
  import CL = CodeLengths
  import IT = InflateTable

  datatype Mode =
    | TYPE | STORED | COPY | TABLE | LENLENS | CODELENS
    | LEN | LENEXT | DIST | DISTEXT | MATCH | LIT | DONE | BAD

  datatype Return = OK | STREAM_END | DATA_ERROR | BUF_ERROR

  const WSIZE: nat := 32768
  const MAXLENS: nat := 320

  /** A step makes progress: it reads, or writes, or gets closer to the next state that does. */
  predicate Advanced(bits: nat, left: nat, rank: nat, bits0: nat, left0: nat, rank0: nat)
  {
    bits < bits0 || (bits == bits0 && (left < left0 || (left == left0 && rank < rank0)))
  }

  /** The first lengths of the code length code are in their places. */
  ghost predicate InPlace(lens: seq<nat>, v: seq<nat>)
  {
    |v| <= |ORDER| && |lens| == MAXLENS && forall i :: 0 <= i < |v| ==> ORDER[i] < |lens| && lens[ORDER[i]] == v[i] < 8
  }

  /** A code without any words. */
  ghost predicate NoWords(lens: seq<nat>)
  {
    forall i: nat :: !Used(lens, i)
  }

  /** The lengths `got` have been read. Without any code length code the block is bad already, and all lengths are
      zero. */
  ghost predicate Lens(v: View, got: seq<nat>, last: bool, nlen: nat, limit: nat, bl: seq<nat>)
  {
    || (v == CodeLens(last, nlen, limit, bl, got) && (got != [] ==> !NoWords(bl)))
    || (v == Bad && NoWords(bl) && forall i :: 0 <= i < |got| ==> got[i] == 0)
  }

  class Inflater {
    const r: BitReader
    const c: Circular
    const fixedL: Lookup
    const fixedD: Lookup
    var mode: Mode
    var last: bool
    var length: nat
    var offset: nat
    var extra: nat
    var nlen: nat
    var ndist: nat
    var ncode: nat
    var have: nat
    var lens: seq<nat>
    var lencode: Lookup
    var distcode: Lookup
    /** What has been written in this call, and how much room is left. */
    var cur: seq<Byte>
    var left: nat
    /** Where in the stream the machine is, the output of all earlier calls, and the codes in use. */
    ghost var at: Spot
    ghost var sent: seq<Byte>
    ghost var threes: seq<nat>
    ghost var bl: seq<nat>
    ghost var k: Trees

    /** All bits of the input so far. */
    ghost function T(): Bits
      reads r
    {
      BytesBits(r.input)
    }

    /** The machine is on the way that the stream prescribes. */
    ghost predicate OnTrack()
      reads this`at, this`cur, this`sent, r
    {
      r.Valid() && r.bits <= 32 && Ahead(T(), at.pos, r.Remaining()) && Tracks(at, T()) && at.out == sent + cur
    }

    /** The window holds the output of the earlier calls. */
    ghost predicate InWindow()
      reads this`sent, c, c.window
    {
      c.Valid() && c.size == WSIZE && c.hist == sent
    }

    ghost predicate Fixed()
    {
      Decoding(IT.LENS, FixedL(), fixedL) && Decoding(IT.DISTS, FixedD(), fixedD)
    }

    ghost predicate Tables()
      reads this`lencode, this`distcode, this`k, this`last
    {
      Decoding(IT.LENS, k.ll, lencode) && Decoding(IT.DISTS, k.dl, distcode) && k.last == last
    }

    /** Reading the lengths of the code length code. */
    ghost predicate ReadingThrees()
      reads this`nlen, this`ndist, this`ncode, this`have, this`lens, this`last, this`at, this`threes, r
    {
      && at.v.LenLens? && at.v == LenLens(last, Counts(nlen, ndist, ncode, at.v.counts.pos))
      && 257 <= nlen <= 286 && 1 <= ndist <= 30 && have <= ncode <= |ORDER|
      && |threes| == have && InPlace(lens, threes) && ThreesRead(T(), at.v.counts.pos, threes, at.pos)
    }

    /** Reading the lengths of the two codes. Without any code length code the block is bad already; this shows at
        the end. */
    ghost predicate ReadingLens()
      reads this`nlen, this`ndist, this`have, this`lens, this`last, this`at, this`bl, this`lencode, r
    {
      && 257 <= nlen <= 286 && 1 <= ndist <= 30 && have <= nlen + ndist && |lens| == MAXLENS
      && Decoding(IT.CODES, bl, lencode) && Lean(lencode, r.hold, r.bits)
      && (forall i :: 0 <= i < have ==> lens[i] < 16) && Lens(at.v, lens[..have], last, nlen, nlen + ndist, bl)
    }

    /** The fields are those of the state. */
    ghost predicate Coupled()
      reads this`mode, this`last, this`length, this`offset, this`extra, this`nlen, this`ndist, this`ncode, this`have,
            this`lens
      reads this`lencode, this`distcode, this`at, this`threes, this`bl, this`k, r
    {
      |lens| == MAXLENS &&
      match mode
      case TYPE => at.v == Type(last) && r.bits < 8
      case STORED => at.v == Stored(last)
      case COPY => at.v == Copying(last, length) && r.bits == 0
      case TABLE => at.v == Table(last) && r.bits < 22
      case LENLENS => ReadingThrees() && have < ncode && r.bits < 11
      case CODELENS => ReadingLens() && have < nlen + ndist
      case LEN => at.v == Len(k) && Tables() && Lean(lencode, r.hold, r.bits)
      case LENEXT => at.v == LenExt(k, length, extra) && Tables() && extra <= 5 && 3 <= length
          && length + Pow2(extra) <= 259 && r.bits < 8
      case DIST => at.v == Dist(k, length) && Tables() && 3 <= length <= MAX_MATCH && Lean(distcode, r.hold, r.bits)
      case DISTEXT => at.v == DistExt(k, length, offset, extra) && Tables() && 3 <= length <= MAX_MATCH
                      && extra <= 13 && 1 <= offset && offset + Pow2(extra) <= WSIZE + 1 && r.bits < extra + 8
      case MATCH => at.v == Matching(k, length, offset) && Tables() && 1 <= length <= MAX_MATCH && 1 <= offset <= WSIZE
          && r.bits < 8
      case LIT => at.v == Lit(k, length) && Tables() && length < 256 && r.bits < 8
      case DONE => at.v.Finished? && r.bits == 0 && at.pos == Align(at.v.end)
      case BAD => at.v == Bad
    }

    /** The machine does what the stream prescribes. */
    ghost predicate Valid()
      reads this, r, c, c.window
    {
      && Fixed() && c.Valid() && c.size == WSIZE
      && OnTrack() && Coupled() && (mode != DONE && mode != BAD ==> InWindow())
    }

    function Rank(): nat
      reads this`mode
    {
      match mode case BAD => 0 case DONE => 0 case COPY => 2 case LENEXT => 2 case DISTEXT => 2 case _ => 1
    }

    /** The input so far is not a complete stream. */
    ghost predicate Short()
      reads this`at, r
    {
      Rest(at, T()) == None
    }

    constructor (fixedL: Lookup, fixedD: Lookup)
      requires Decoding(IT.LENS, FixedL(), fixedL) && Decoding(IT.DISTS, FixedD(), fixedD)
      ensures Valid() && mode == TYPE && r.input == [] && sent == [] && cur == []
      ensures fresh(r) && fresh(c) && fresh(c.window)
    {
      hide Decoding;
      r := new BitReader();
      c := new Circular(WSIZE);
      this.fixedL, this.fixedD, lencode, distcode := fixedL, fixedD, fixedL, fixedD;
      mode, last, length, offset, extra, nlen, ndist, ncode, have := TYPE, false, 0, 0, 0, 0, 0, 0, 0;
      lens, cur, left := seq(MAXLENS, i => 0), [], 0;
      at, sent, threes, bl, k := Spot(Type(false), 0, []), [], [], [], Trees(false, [], []);
      new;
      AtStart();
    }

    // -------------------------------------------------------------- blocks

    /** The end of the stream: the rest of the last byte is dropped. */
    method DoEnd()
      requires OnTrack() && at.v == Type(true) && r.bits < 8 && |lens| == MAXLENS
      modifies this`mode, this`at, r`hold, r`bits
      ensures OnTrack() && Coupled() && mode == DONE && |r.Remaining()| <= |old(r.Remaining())|
    {
      hide Tracks, Ahead, Align, ToBits, BytesBits;
      PositionIs(T(), at.pos, r);
      AlignIs(at.pos, r.bits, r.next);
      ghost var s, R := Spot(Finished(at.pos), at.pos + r.bits, at.out), r.Remaining();
      var n := r.ByteBits();
      AheadDrop(T(), at.pos, R, n, s.pos);
      TypeToFinished(at, s, T());
      mode, at := DONE, s;
    }

    /** Which kind of block comes next. */
    method DoType() returns (leave: bool)
      requires OnTrack() && Coupled() && mode == TYPE && Fixed()
      modifies this`mode, this`last, this`lencode, this`distcode, this`k, this`at, r`next, r`hold, r`bits
      ensures OnTrack() && Coupled()
      ensures if leave then Short() && mode == TYPE else
              |r.Remaining()| < |old(r.Remaining())|
              || (|r.Remaining()| == |old(r.Remaining())| && mode == DONE)
    {
      hide Tracks, Ahead, Decoding, Lean, Rest, FixedL, FixedD;
      if last {
        DoEnd();
        return false;
      }
      var ok, kind := BlockBits();
      if ok { SetBlock(kind); }
      leave := !ok;
    }

    method BlockBits() returns (ok: bool, kind: nat)
      requires OnTrack() && at.v == Type(false) && !last && r.bits < 8
      modifies this`last, this`at, r`next, r`hold, r`bits
      ensures OnTrack() && r.bits < 8
      ensures if ok then at.v == BlockView(last, kind) && |r.Remaining()| < |old(r.Remaining())|
              else at == old(at) && !last && Short()
    {
      hide Tracks, Ahead, Rest, BlockView, FromBits, ToBits, BytesBits;
      ghost var R := r.Remaining();
      var l;
      ok, l, kind := r.TakeTwo(1, 2);
      if ok {
        ghost var s := Spot(BlockView(l == 1, kind), at.pos + 3, at.out);
        TypeToBlock(at, s, T(), R, l, kind);
        AheadDrop(T(), at.pos, R, 3, s.pos);
        last, at := l == 1, s;
      } else {
        AheadLength(T(), at.pos, R);
        TypeShort(at, T());
      }
    }

    method SetBlock(kind: nat)
      requires Fixed() && at.v == BlockView(last, kind) && r.bits < 8 && |lens| == MAXLENS
      modifies this`mode, this`lencode, this`distcode, this`k
      ensures Coupled()
    {
      hide Decoding, Lean, FixedL, FixedD;
      if kind == 0 { mode := STORED; }
      else if kind == 1 {
        FewBits(IT.LENS, FixedL(), fixedL, r.hold, r.bits);
        mode, lencode, distcode, k := LEN, fixedL, fixedD, Trees(last, FixedL(), FixedD());
      }
      else if kind == 2 { mode := TABLE; }
      else { mode := BAD; }
    }

    /** Goes to the next byte boundary. */
    method AlignByte()
      requires OnTrack() && at.v.Stored?
      modifies this`at, r`hold, r`bits
      ensures OnTrack() && r.bits % 8 == 0 && r.bits <= 32 && at.pos == Align(at.pos) && at.v == old(at.v)
      ensures |r.Remaining()| <= |old(r.Remaining())|
    {
      hide Tracks, Ahead, Align, ToBits, BytesBits;
      PositionIs(T(), at.pos, r);
      AlignIs(at.pos, r.bits, r.next);
      ghost var s, R := at.(pos := Align(at.pos)), r.Remaining();
      StoredAligned(at, s, T());
      var n := r.ByteBits();
      AheadDrop(T(), at.pos, R, n, s.pos);
      at := s;
    }

    /** The length of a stored block and its complement. */
    method DoStored() returns (leave: bool)
      requires OnTrack() && Coupled() && mode == STORED
      modifies this`mode, this`length, this`at, r`next, r`hold, r`bits
      ensures OnTrack() && Coupled()
      ensures if leave then Short() && mode == STORED else |r.Remaining()| < |old(r.Remaining())|
    {
      hide Align, Rest, Inflater.OnTrack;
      AlignByte();
      var ok := StoredLength();
      leave := !ok;
    }

    method StoredLength() returns (ok: bool)
      requires OnTrack() && mode == STORED && at.v == Stored(last) && r.bits % 8 == 0 && at.pos == Align(at.pos)
      modifies this`mode, this`length, this`at, r`next, r`hold, r`bits
      ensures OnTrack()
      ensures if ok then |r.Remaining()| < |old(r.Remaining())| &&
                         ((mode == COPY && at.v == Copying(last, length) && r.bits == 0)
                          || (mode == BAD && at.v == Bad))
              else mode == STORED && at == old(at) && Short()
    {
      hide Tracks, Ahead, Rest, Align, FromBits, ToBits, BytesBits;
      ghost var R := r.Remaining();
      var n, c;
      ok, n, c := r.TakeShorts();
      if ok {
        ghost var s := Spot(if n + c == 65535 then Copying(last, n) else Bad, at.pos + 32, at.out);
        StoredToCopy(at, s, T(), R, n, c);
        AheadDrop(T(), at.pos, R, 32, s.pos);
        if n + c != 65535 { mode := BAD; } else { mode, length := COPY, n; }
        at := s;
      } else {
        AheadLength(T(), at.pos, R);
        StoredShort(at, T());
      }
    }

    /** Copies stored bytes, as many as there are and as fit. */
    method DoCopy() returns (leave: bool)
      requires OnTrack() && Coupled() && mode == COPY
      modifies this`mode, this`length, this`cur, this`left, this`at, r`next
      ensures OnTrack() && Coupled() && |cur| + left == old(|cur| + left)
      ensures leave ==> mode == COPY && (Short() || left == 0)
      ensures !leave ==>
              |r.Remaining()| < |old(r.Remaining())|
              || (|r.Remaining()| == |old(r.Remaining())| && mode == TYPE && left == old(left))
    {
      hide Tracks, Ahead, Rest, ToBits, BytesBits;
      AheadLength(T(), at.pos, r.Remaining());
      if length == 0 {
        CopyToType(at, Spot(Type(last), at.pos, at.out), T());
        mode, at := TYPE, Spot(Type(last), at.pos, at.out);
        return false;
      }
      var copy: nat := length;
      if copy > |r.input| - r.next { copy := |r.input| - r.next; }
      if copy > left { copy := left; }
      if copy == 0 {
        if left != 0 {
          RemainingLength(r);
          CopyShort(at, T());
        }
        return true;
      }
      CopySome(copy);
      leave := false;
    }

    method CopySome(copy: nat)
      requires OnTrack() && at.v == Copying(last, length) && r.bits == 0 && 1 <= copy <= length
      requires copy <= |r.input| - r.next && copy <= left
      modifies this`length, this`cur, this`left, this`at, r`next
      ensures OnTrack() && at.v == Copying(last, length) && |r.Remaining()| < |old(r.Remaining())|
      ensures |cur| + left == old(|cur| + left)
    {
      hide Tracks, Ahead, ToBits, BytesBits;
      ghost var R := r.Remaining();
      RemainingLength(r);
      var b := r.TakeBytes(copy);
      ghost var s := Spot(Copying(last, length - copy), at.pos + 8 * copy, at.out + b);
      CopyPart(at, s, T(), R, b);
      AheadDrop(T(), at.pos, R, 8 * copy, s.pos);
      Appended(sent, cur, b);
      cur, left, length := cur + b, left - copy, length - copy;
      at := s;
    }

    // -------------------------------------------------------------- dynamic codes

    /** The three counts of a dynamic block. */
    method DoTable() returns (leave: bool)
      requires OnTrack() && Coupled() && mode == TABLE
      modifies this`mode, this`nlen, this`ndist, this`ncode, this`have, this`threes, this`at, r`next, r`hold, r`bits
      ensures OnTrack() && Coupled()
      ensures if leave then Short() && mode == TABLE else |r.Remaining()| < |old(r.Remaining())|
    {
      hide Tracks, Ahead, Rest, ThreesRead, ToBits, BytesBits, Decoding, Lean, Lens;
      var ok := TableCounts();
      if ok {
        if nlen > 286 || ndist > 30 {
          LenLensTooMany(at, at.(v := Bad), T());
          Fail();
        } else {
          NoThrees(T(), at.pos);
          have, threes, mode := 0, [], LENLENS;
        }
      }
      leave := !ok;
    }

    method TableCounts() returns (ok: bool)
      requires OnTrack() && at.v == Table(last) && r.bits < 22
      modifies this`nlen, this`ndist, this`ncode, this`at, r`next, r`hold, r`bits
      ensures OnTrack()
      ensures if ok then |r.Remaining()| < |old(r.Remaining())|
              && at.v == LenLens(last, Counts(nlen, ndist, ncode, at.pos)) && r.bits < 8
                         && nlen >= 257 && ndist >= 1 && 4 <= ncode <= 19
              else at == old(at) && Short() && r.bits < 22
    {
      hide Tracks, Ahead, Rest, FromBits, ToBits, BytesBits;
      ghost var R := r.Remaining();
      var a, b, c;
      ok, a, b, c := r.TakeThree(5, 5, 4);
      if ok {
        ghost var s := Spot(LenLens(last, Counts(a + 257, b + 1, c + 4, at.pos + 14)), at.pos + 14, at.out);
        TableToLenLens(at, s, T(), R, a, b, c);
        AheadDrop(T(), at.pos, R, 14, s.pos);
        FourBits(R[10..14]);
        nlen, ndist, ncode := a + 257, b + 1, c + 4;
        at := s;
      } else {
        AheadLength(T(), at.pos, R);
        TableShort(at, T());
      }
    }

    /** The lengths of the code length code, and its table. */
    method DoLenLens() returns (leave: bool)
      requires OnTrack() && Coupled() && mode == LENLENS
      modifies this`mode, this`lens, this`have, this`threes, this`bl, this`lencode, this`at, r`next, r`hold, r`bits
      ensures OnTrack() && Coupled()
      ensures if leave then Short() && mode == LENLENS else |r.Remaining()| < |old(r.Remaining())|
    {
      hide Tracks, Ahead, Rest, ThreesRead, InPlace, Decoding, Lean, ToBits, BytesBits, Placed;
      while have < ncode
        invariant OnTrack() && ReadingThrees() && mode == LENLENS && r.bits < if have < ncode then 11 else 8
        invariant have < ncode || |r.Remaining()| < |old(r.Remaining())|
        invariant |r.Remaining()| <= |old(r.Remaining())|
        decreases ncode - have
      {
        var ok := NextThree();
        if !ok {
          LensLength(lens, threes);
          return true;
        }
      }
      DecideLens();
      leave := false;
    }

    method NextThree() returns (ok: bool)
      requires OnTrack() && ReadingThrees() && have < ncode && r.bits < 11
      modifies this`lens, this`have, this`threes, this`at, r`next, r`hold, r`bits
      ensures OnTrack() && ReadingThrees()
      ensures if ok then have == old(have) + 1 && |r.Remaining()| < |old(r.Remaining())| && r.bits < 8
              else have == old(have) && |r.Remaining()| == |old(r.Remaining())| && r.bits < 11 && Short()
    {
      hide Tracks, Ahead, Rest, ThreesRead, InPlace, FromBits, ToBits, BytesBits;
      ghost var R := r.Remaining();
      var x;
      ok, x := r.TakeBits(3);
      if ok {
        ghost var s := at.(pos := at.pos + 3);
        OneMoreThree(T(), at.v.counts.pos, threes, threes + [x], at.pos, s.pos, R, x);
        AheadDrop(T(), at.pos, R, 3, s.pos);
        LaterThree(at, s, T());
        OneMorePlace(lens, threes, x, R);
        lens, have := lens[ORDER[have] := x], have + 1;
        threes, at := threes + [x], s;
      } else {
        AheadLength(T(), at.pos, R);
        LenLensShort(at, T(), threes);
      }
    }

    /** The lengths that were not sent are zero. */
    method FillZeros()
      requires InPlace(lens, threes) && |threes| == have
      modifies this`lens, this`have
      ensures |lens| == MAXLENS && lens[..19] == Placed(threes, ORDER) && forall i :: 0 <= i < 19 ==> lens[i] < 8
    {
      hide InPlace, Placed;
      ghost var w := threes;
      LensLength(lens, w);
      while have < |ORDER|
        invariant |w| == have <= |ORDER| && InPlace(lens, w) && threes <= w && forall i :: |threes| <= i < |w| ==>
                  w[i] == 0
      {
        ZeroPlace(lens, w);
        lens := lens[ORDER[have] := 0];
        have, w := have + 1, w + [0];
      }
      LensLength(lens, w);
      AllPlaced(lens, threes, w);
    }

    /** All lengths of the code length code are there: its table, unless they are refused. */
    method DecideLens()
      requires OnTrack() && ReadingThrees() && have == ncode && r.bits < 8
      modifies this`mode, this`lens, this`have, this`bl, this`lencode, this`at
      ensures OnTrack() && Coupled() && (mode == CODELENS || mode == BAD)
    {
      hide Tracks, Ahead, ThreesRead, InPlace, Placed, Decoding, IT.Refused, ToBits, BytesBits, Inflater.OnTrack,
          Inflater.Coupled;
      LensLength(lens, threes);
      FillZeros();
      var ret, t := MakeTable(IT.CODES, lens[..19], 7);
      bl := lens[..19];
      SetLens(ret, t);
    }

    method SetLens(ret: int, t: Lookup)
      requires OnTrack() && at.v.LenLens? && at.v.last == last && ThreesRead(T(), at.v.counts.pos, threes, at.pos)
      requires r.bits < 8
      requires at.v.counts == Counts(nlen, ndist, |threes|, at.v.counts.pos) && |threes| <= |ORDER|
      requires bl == Placed(threes, ORDER)
      requires 257 <= nlen <= 286 && 1 <= ndist <= 30 && |lens| == MAXLENS
      requires ret == -1 || ret == 0
      requires (ret == -1 <==> IT.Refused(IT.CODES, bl)) && (ret == 0 ==> Decoding(IT.CODES, bl, t))
      modifies this`mode, this`have, this`lencode, this`at
      ensures OnTrack() && Coupled() && (mode == CODELENS || mode == BAD)
    {
      hide Tracks, Ahead, ThreesRead, Placed, Decoding, Lean, IT.Refused, ToBits, BytesBits;
      ghost var s := at.(v := if ret == -1 then Bad else CodeLens(last, nlen, nlen + ndist, bl, []));
      LenLensDecided(at, s, T(), threes, bl, nlen + ndist, ret == -1);
      have, at := 0, s;
      if ret != 0 {
        mode := BAD;
      } else {
        FewBits(IT.CODES, bl, t, r.hold, r.bits);
        mode, lencode := CODELENS, t;
      }
    }

    /** Bad data: the machine stays where it is. */
    method Fail()
      requires OnTrack() && |lens| == MAXLENS && Tracks(at.(v := Bad), T())
      modifies this`mode, this`at
      ensures OnTrack() && Coupled() && mode == BAD && at == old(at).(v := Bad)
    {
      hide Tracks, Ahead, ToBits, BytesBits;
      mode, at := BAD, at.(v := Bad);
    }

    // -------------------------------------------------------------- run-length coded lengths

    /** The lengths of the two codes, and their tables. */
    method DoCodeLens() returns (leave: bool)
      requires OnTrack() && Coupled() && mode == CODELENS
      modifies this`mode, this`lens, this`have, this`lencode, this`distcode, this`k, this`at, r`next
      modifies r`hold, r`bits
      ensures OnTrack() && Coupled()
      ensures if leave then Short() && mode == CODELENS else |r.Remaining()| < |old(r.Remaining())|
    {
      hide Tracks, Ahead, Rest, Decoding, Lean, Lens, NoWords, ToBits, BytesBits;
      while have < nlen + ndist
        invariant OnTrack() && ReadingLens() && |lens| == MAXLENS && mode == CODELENS
        invariant nlen + ndist == old(nlen + ndist)
        invariant have < nlen + ndist || (|r.Remaining()| < |old(r.Remaining())| && r.bits < 8)
        invariant |r.Remaining()| <= |old(r.Remaining())|
        decreases nlen + ndist - have
      {
        var ok := OneOp();
        if !ok { return true; }
        if mode == BAD { return false; }
      }
      DecideCodes();
      leave := false;
    }

    /** One code length, or several equal ones. */
    method OneOp() returns (ok: bool)
      requires OnTrack() && ReadingLens() && have < nlen + ndist && |lens| == MAXLENS && mode == CODELENS
      modifies this`mode, this`lens, this`have, this`at, r`next, r`hold, r`bits
      ensures OnTrack() && |lens| == MAXLENS
      ensures ok && mode != BAD ==> mode == CODELENS && ReadingLens() && have > old(have)
      ensures ok ==> |r.Remaining()| < |old(r.Remaining())| && r.bits < 8 && (mode == BAD ==> at.v == Bad)
      ensures !ok ==>
              mode == CODELENS && ReadingLens() && have == old(have) && Short()
              && |r.Remaining()| == |old(r.Remaining())|
    {
      hide Tracks, Ahead, Rest, Decoding, Lean, Says, NextIs, FromBits, ToBits, BytesBits, IT.WellFormed, Need,
          ReadSymbol, NoWords;
      ghost var R := r.Remaining();
      var e, v, x;
      ghost var s;
      ok, e, s := NextFlat(r, lencode, bl, T(), at.pos);
      if !ok {
        LensShort(at, T(), R, bl, None, 0, 0);
        return false;
      }
      SaysOp(bl, s, e);
      RemainingHead(r);
      ghost var hold, bits := r.hold, r.bits;
      var m := CL.ExtraBits(e.val);
      ok, v, x := r.TakeTwo(e.bits, m);
      if !ok {
        RemainingHead(r);
        LeanLater(bl, lencode, R, hold, bits, r.hold, r.bits);
        LensShort(at, T(), R, bl, s, e.bits, m);
        return false;
      }
      TakeOp(e.val, x, R, s, e, m);
    }

    /** Takes in what has been read. */
    method TakeOp(val: nat, x: nat, ghost R: Bits, ghost s: Option<nat>, ghost e: IT.Entry, ghost m: nat)
      requires r.Valid() && r.bits < 8 && Ahead(T(), at.pos, R) && Tracks(at, T()) && at.out == sent + cur
      requires 257 <= nlen <= 286 && 1 <= ndist <= 30 && have < nlen + ndist && |lens| == MAXLENS
      requires Decoding(IT.CODES, bl, lencode) && mode == CODELENS
      requires (forall i :: 0 <= i < have ==> lens[i] < 16) && Lens(at.v, lens[..have], last, nlen, nlen + ndist, bl)
      requires Says(IT.CODES, bl, s, e) && NextIs(T(), at.pos, bl, s, e.bits) && val == e.val
      requires e.bits + m <= |R| && m == CL.ExtraBits(val) && x == FromBits(R[e.bits..e.bits + m])
      requires r.Remaining() == R[e.bits + m..]
      modifies this`mode, this`lens, this`have, this`at
      ensures OnTrack() && |lens| == MAXLENS && (mode == BAD || mode == old(mode))
      ensures if mode == BAD then at.v == Bad else ReadingLens() && have > old(have)
    {
      hide Tracks, Ahead, Decoding, Lean, Says, NextIs, FromBits, ToBits, BytesBits, CL.Apply, CL.ExtraBits, NoWords,
          Lens;
      ghost var was, res := lens[..have], CL.Apply(lens[..have], CL.Op(val, x), nlen + ndist);
      SaysOp(bl, s, e);
      LensViews(at.v, was, last, nlen, nlen + ndist, bl);
      ghost var a := OpTaken(at, T(), R, s, e, bl, m, x, res);
      AheadDrop(T(), at.pos, R, e.bits + m, a.pos);
      var bad := Repeat(val, x);
      FewBits(IT.CODES, bl, lencode, r.hold, r.bits);
      NothingMeansNone(bl, lencode, s, e);
      ZeroOp(was, x, nlen + ndist);
      LensNext(at.v, a.v, was, last, nlen, nlen + ndist, bl, s, val, res);
      at := a;
      if bad { mode := BAD; }
    }

    /** One length, or a run of equal ones. */
    method Repeat(val: nat, x: nat) returns (bad: bool)
      requires val <= 18 && have < nlen + ndist <= |lens| && forall i :: 0 <= i < have ==> lens[i] < 16
      modifies this`lens, this`have
      ensures |lens| == |old(lens)| && have <= nlen + ndist
      ensures CL.Apply(old(lens[..have]), CL.Op(val, x), nlen + ndist) == if bad then CL.Bad else CL.Ok(lens[..have])
      ensures !bad ==> have > old(have)
      ensures forall i :: 0 <= i < have ==> lens[i] < 16
      ensures bad ==> lens == old(lens) && have == old(have)
    {
      if val < 16 {
        lens, have := lens[have := val], have + 1;
        return false;
      }
      var len: nat := 0;
      if val == 16 {
        if have == 0 { return true; }
        len := lens[have - 1];
      }
      var copy: nat := (if val == 18 then 11 else 3) + x;
      if have + copy > nlen + ndist { return true; }
      ghost var was, n := lens[..have], have;
      while copy > 0
        invariant |lens| == |old(lens)| && n <= have
        invariant have + copy == n + (if val == 18 then 11 else 3) + x <= nlen + ndist
        invariant lens[..have] == was + CL.Copies(len, have - n)
        decreases copy
      {
        lens, have := lens[have := len], have + 1;
        copy := copy - 1;
      }
      bad := false;
    }

    /** The two codes, unless they are refused. */
    method DecideCodes()
      requires OnTrack() && ReadingLens() && have == nlen + ndist && |lens| == MAXLENS && r.bits < 8
      modifies this`mode, this`lencode, this`distcode, this`k, this`at
      ensures OnTrack() && Coupled()
    {
      hide Tracks, Ahead, Decoding, Lean, IT.Refused, ToBits, BytesBits, Inflater.Coupled;
      ghost var t := Trees(last, lens[..nlen], lens[nlen..have]);
      ghost var bad := lens[END_BLOCK] == 0 || IT.Refused(IT.LENS, t.ll) || IT.Refused(IT.DISTS, t.dl);
      assert lens[..have][..nlen] == lens[..nlen] && lens[..have][nlen..] == lens[nlen..have];
      Decided(at, T(), lens[..have], last, nlen, have, bl, t, bad);
      if lens[END_BLOCK] == 0 {
        Fail();
        return;
      }
      var ret, l := MakeTable(IT.LENS, lens[..nlen], 9);
      if ret != 0 {
        Fail();
        return;
      }
      var ret2, d := MakeTable(IT.DISTS, lens[nlen..have], 6);
      if ret2 != 0 {
        Fail();
        return;
      }
      SetTables(l, d, t);
    }

    method SetTables(l: Lookup, d: Lookup, ghost t: Trees)
      requires OnTrack() && Tracks(at.(v := Len(t)), T()) && t.last == last && r.bits < 8 && |lens| == MAXLENS
      requires Decoding(IT.LENS, t.ll, l) && Decoding(IT.DISTS, t.dl, d)
      modifies this`mode, this`lencode, this`distcode, this`k, this`at
      ensures OnTrack() && Coupled()
    {
      hide Tracks, Ahead, Decoding, Lean, ToBits, BytesBits;
      FewBits(IT.LENS, t.ll, l, r.hold, r.bits);
      mode, lencode, distcode, k, at := LEN, l, d, t, at.(v := Len(t));
    }

    // -------------------------------------------------------------- literals, lengths, distances

    /** The next literal or length symbol. */
    method DoLen() returns (leave: bool)
      requires OnTrack() && Coupled() && mode == LEN
      modifies this`mode, this`length, this`extra, this`at, r`next, r`hold, r`bits
      ensures OnTrack() && Coupled()
      ensures if leave then Short() && mode == LEN
              else |r.Remaining()| < |old(r.Remaining())| && Toward(old(at), at, T())
    {
      hide Tracks, Ahead, Rest, Decoding, Lean, Says, NextIs, ReadSymbol, Toward, LenNext, FromBits, ToBits, BytesBits;
      ghost var R, s := r.Remaining(), None;
      var ok, e;
      ok, e, s := NextSymbol(r, lencode, IT.LENS, k.ll, T(), at.pos);
      if !ok {
        SymbolShort(at, T());
        return true;
      }
      ghost var a := Spot(LenNext(k, s), at.pos + e.bits, at.out);
      RemainingHead(r);
      EntryBits(IT.LENS, k.ll, s, e);
      TakeLen(at, a, T(), R, s, e.bits);
      r.DropBits(e.bits);
      SetLen(e, s, a);
      leave := false;
    }

    /** Goes on according to the entry of the symbol. */
    method SetLen(e: IT.Entry, ghost s: Option<nat>, ghost a: Spot)
      requires Says(IT.LENS, k.ll, s, e) && a.v == LenNext(k, s) && Tables() && r.bits < 8 && |lens| == MAXLENS
      modifies this`mode, this`length, this`extra, this`at
      ensures at == a && Coupled()
    {
      hide Decoding, Lean, Says, FirstLength, ExtraL, Pow2;
      LenKinds(k.ll, s, e);
      length, at := e.val, a;
      if e.op == 0 { mode := LIT; }
      else if HasBit(e.op, 32) { mode := TYPE; }
      else if HasBit(e.op, 64) { mode := BAD; }
      else {
        LengthFits(s.value - 257);
        mode, extra := LENEXT, e.op % 16;
      }
    }

    /** Extra bits, if any. */
    method TakeExtra(n: nat) returns (ok: bool, x: nat)
      requires r.Valid() && r.bits < n + 8
      modifies r`next, r`hold, r`bits
      ensures r.Valid() && (ok <==> |old(r.Remaining())| >= n)
      ensures ok ==>
              r.Remaining() == old(r.Remaining())[n..] && x == FromBits(old(r.Remaining())[..n]) && x < Pow2(n)
              && r.bits < 8
      ensures !ok ==> r.Remaining() == old(r.Remaining()) && r.bits < n
    {
      hide Pow2, ToBits, BytesBits;
      ok, x := true, 0;
      ghost var R := r.Remaining();
      if n > 0 { ok, x := r.TakeBits(n); }
      if ok { FromBitsBound(R[..n]); }
    }

    /** The extra bits of a length. */
    method DoLenExt() returns (leave: bool)
      requires OnTrack() && Coupled() && mode == LENEXT
      modifies this`mode, this`length, this`at, r`next, r`hold, r`bits
      ensures OnTrack() && Coupled() && |r.Remaining()| <= |old(r.Remaining())|
      ensures if leave then Short() && mode == LENEXT else mode == DIST && Toward(old(at), at, T())
    {
      hide Tracks, Ahead, Rest, Decoding, Lean, Toward, Pow2, FromBits, ToBits, BytesBits, Lens, InPlace, ThreesRead;
      ghost var R := r.Remaining();
      AheadLength(T(), at.pos, R);
      var ok, x := TakeExtra(extra);
      if !ok {
        ExtraShort(at, T());
        return true;
      }
      ghost var a := Spot(Dist(k, length + x), at.pos + extra, at.out);
      TakeLenExt(at, a, T(), R, x);
      FewBits(IT.DISTS, k.dl, distcode, r.hold, r.bits);
      mode, length, at := DIST, length + x, a;
      leave := false;
    }

    /** The next distance symbol. */
    method DoDist() returns (leave: bool)
      requires OnTrack() && Coupled() && mode == DIST
      modifies this`mode, this`offset, this`extra, this`at, r`next, r`hold, r`bits
      ensures OnTrack() && Coupled()
      ensures if leave then Short() && mode == DIST
              else |r.Remaining()| < |old(r.Remaining())| && Toward(old(at), at, T())
    {
      hide Tracks, Ahead, Rest, Decoding, Lean, Says, NextIs, ReadSymbol, Toward, DistNext, FromBits, ToBits, BytesBits;
      ghost var R, s := r.Remaining(), None;
      var ok, e;
      ok, e, s := NextSymbol(r, distcode, IT.DISTS, k.dl, T(), at.pos);
      if !ok {
        SymbolShort(at, T());
        return true;
      }
      ghost var a := Spot(DistNext(k, length, s), at.pos + e.bits, at.out);
      RemainingHead(r);
      EntryBits(IT.DISTS, k.dl, s, e);
      TakeDist(at, a, T(), R, s, e.bits);
      r.DropBits(e.bits);
      SetDist(e, s, a);
      leave := false;
    }

    method SetDist(e: IT.Entry, ghost s: Option<nat>, ghost a: Spot)
      requires Says(IT.DISTS, k.dl, s, e) && a.v == DistNext(k, length, s) && Tables() && r.bits < 8
      requires |lens| == MAXLENS
      requires 3 <= length <= MAX_MATCH
      modifies this`mode, this`offset, this`extra, this`at
      ensures at == a && Coupled()
    {
      hide Decoding, Lean, Says, BaseD, ExtraD, Pow2;
      DistKinds(k.dl, s, e);
      at := a;
      if HasBit(e.op, 64) { mode := BAD; }
      else {
        DistFits(s.value);
        mode, offset, extra := DISTEXT, e.val, e.op % 16;
      }
    }

    /** The extra bits of a distance. */
    method DoDistExt() returns (leave: bool)
      requires OnTrack() && Coupled() && mode == DISTEXT
      modifies this`mode, this`offset, this`at, r`next, r`hold, r`bits
      ensures OnTrack() && Coupled() && |r.Remaining()| <= |old(r.Remaining())|
      ensures if leave then Short() && mode == DISTEXT else mode == MATCH && Toward(old(at), at, T())
    {
      hide Tracks, Ahead, Rest, Decoding, Lean, Toward, Pow2, FromBits, ToBits, BytesBits, Lens, InPlace, ThreesRead;
      ghost var R := r.Remaining();
      AheadLength(T(), at.pos, R);
      var ok, x := TakeExtra(extra);
      if !ok {
        ExtraShort(at, T());
        return true;
      }
      ghost var a := Spot(Matching(k, length, offset + x), at.pos + extra, at.out);
      TakeDistExt(at, a, T(), R, x);
      mode, offset, at := MATCH, offset + x, a;
      leave := false;
    }

    /** Copies a piece of a match, as much as fits. */
    method DoMatch() returns (leave: bool)
      requires OnTrack() && Coupled() && InWindow() && mode == MATCH
      modifies this`mode, this`length, this`cur, this`left, this`at
      ensures OnTrack() && Coupled() && |cur| + left == old(|cur| + left)
      ensures if leave then left == 0 && mode == MATCH
              else Toward(old(at), at, T()) && (left < old(left) || (left == old(left) && mode == BAD))
    {
      hide Tracks, Ahead, Decoding, Lean, Toward, Copy, ToBits, BytesBits, Unrolled, Last;
      if left == 0 { return true; }
      var ok, cur' := CopyMatch(c, cur, offset, length, left);
      if ok {
        TakeCopy(cur', |cur'| - |cur|);
      } else {
        MatchTooFar(at, at.(v := Bad), T());
        TracksToward(at, at.(v := Bad), T());
        Fail();
      }
      leave := false;
    }

    /** Takes over what has been copied. */
    method TakeCopy(cur': seq<Byte>, copy: nat)
      requires OnTrack() && at.v == Matching(k, length, offset) && Tables() && r.bits < 8 && |lens| == MAXLENS
      requires mode == MATCH
      requires 1 <= length <= MAX_MATCH && 1 <= offset <= WSIZE && offset <= |sent + cur|
      requires 1 <= copy <= length && copy <= left && |cur'| == |cur| + copy
      requires sent + cur' == Copy(sent + cur, offset, copy)
      modifies this`mode, this`length, this`cur, this`left, this`at
      ensures OnTrack() && Coupled() && |cur| + left == old(|cur| + left) && left < old(left)
      ensures Toward(old(at), at, T())
    {
      hide Tracks, Ahead, Decoding, Lean, Toward, Copy, ToBits, BytesBits;
      ghost var a := Spot(if copy == length then Len(k) else Matching(k, length - copy, offset), at.pos, sent + cur');
      MatchCopied(at, a, T(), copy);
      TracksToward(at, a, T());
      cur, left, length, at := cur', left - copy, length - copy, a;
      if length == 0 { mode := LEN; }
      FewBits(IT.LENS, k.ll, lencode, r.hold, r.bits);
    }

    /** Writes a literal. */
    method DoLit() returns (leave: bool)
      requires OnTrack() && Coupled() && mode == LIT
      modifies this`mode, this`cur, this`left, this`at
      ensures OnTrack() && Coupled() && |cur| + left == old(|cur| + left)
      ensures if leave then left == 0 && mode == LIT else mode == LEN && Toward(old(at), at, T()) && left < old(left)
    {
      hide Tracks, Ahead, Decoding, Lean, Toward, ToBits, BytesBits;
      if left == 0 { return true; }
      ghost var a := Spot(Len(k), at.pos, at.out + [length]);
      LitToLen(at, a, T());
      TracksToward(at, a, T());
      Appended(sent, cur, [length]);
      cur, left, mode, at := cur + [length], left - 1, LEN, a;
      FewBits(IT.LENS, k.ll, lencode, r.hold, r.bits);
      leave := false;
    }

    // -------------------------------------------------------------- the fast loop

    /** Between two rounds of the fast loop. */
    ghost predicate FastAt()
      reads this`mode, this`at, this`k, this`lencode, this`distcode, this`last
    {
      && Tables() && (mode == LEN || mode == TYPE || mode == BAD)
      && at.v == match mode case LEN => Len(k) case TYPE => Type(last) case _ => Bad
    }

    /** Six bytes from `n0` on are there, and the machine is not far into them. */
    ghost predicate Budget(n0: nat, used: nat)
      reads this`at, r
    {
      r.Valid() && r.bits <= 32 && Ahead(T(), at.pos, r.Remaining()) && at.pos <= 8 * n0 + used
          && r.next <= n0 + 6 <= |r.input|
    }

    /** Two more bytes, if a code word might not be there. */
    method Refill(ghost n0: nat)
      requires Budget(n0, 20)
      modifies r`next, r`hold, r`bits
      ensures Budget(n0, 20) && r.bits >= 15 && r.Remaining() == old(r.Remaining())
      ensures Low(r.hold, old(r.bits)) == old(r.hold)
    {
      hide Ahead, ToBits, BytesBits, Low, Pow2;
      PositionIs(T(), at.pos, r);
      LowSmall(r.hold, r.bits);
      if r.bits < 15 {
        TwoBytesAbove(r.hold, r.bits, r.input[r.next], r.input[r.next + 1]);
        var _ := r.PullByte();
        var _ := r.PullByte();
      }
    }

    /** Extra bits, with one or two more bytes if they are not there. */
    method TakeFast(n: nat, ghost n0: nat, ghost p: nat) returns (x: nat)
      requires Budget(n0, 35) && n <= 13 && p == at.pos + n
      modifies r`next, r`hold, r`bits
      ensures r.Valid() && r.bits <= 32 && r.next <= n0 + 6 && n <= |old(r.Remaining())|
      ensures r.Remaining() == old(r.Remaining())[n..]
      ensures x == FromBits(old(r.Remaining())[..n]) && x < Pow2(n)
    {
      hide Ahead, ToBits, BytesBits, FromBits, Pow2, Low;
      PositionIs(T(), at.pos, r);
      ghost var R := r.Remaining();
      if r.bits < n {
        var _ := r.PullByte();
        if r.bits < n {
          var _ := r.PullByte();
        }
      }
      x := r.Peek(n);
      r.DropBits(n);
      FromBitsBound(R[..n]);
    }

    /** One round of `inflate_fast`: a literal, a whole match, or the end of the block. */
    method FastRound(ghost n0: nat)
      requires OnTrack() && InWindow() && FastAt() && mode == LEN && n0 == r.next && |r.input| - r.next >= 6
      requires left >= 258
      modifies this`mode, this`cur, this`left, this`at, r`next, r`hold, r`bits
      ensures OnTrack() && FastAt() && Toward(old(at), at, T()) && old(at.pos) < at.pos
      ensures r.next <= n0 + 6 && left <= old(left) <= left + 258 && |cur| + left == old(|cur| + left)
      ensures Lean(old(lencode), old(r.hold), old(r.bits)) ==> 8 * n0 < at.pos + 8
    {
      hide Tracks, Ahead, Decoding, Lean, Says, NextIs, Toward, LenNext, Low, Pow2, FromBits, ToBits, BytesBits;
      PositionIs(T(), at.pos, r);
      ghost var hold, bits, R, s := r.hold, r.bits, r.Remaining(), None;
      Refill(n0);
      ghost var more := r.hold;
      var e;
      e, s := FastSymbol(r, lencode, IT.LENS, k.ll, T(), at.pos);
      EntryBits(IT.LENS, k.ll, s, e);
      LeanAgain(lencode, hold, bits, more, e.bits);
      ghost var a, a' := at, Spot(LenNext(k, s), at.pos + e.bits, at.out);
      TakeLen(at, a', T(), R, s, e.bits);
      at := a';
      FastSymbolDone(e, s, n0, a);
    }

    /** Goes on according to the entry of the symbol. */
    method FastSymbolDone(e: IT.Entry, ghost s: Option<nat>, ghost n0: nat, ghost a: Spot)
      requires OnTrack() && InWindow() && Tables() && Budget(n0, 15) && left >= 258 && mode == LEN
      requires Says(IT.LENS, k.ll, s, e) && at.v == LenNext(k, s) && Toward(a, at, T())
      modifies this`mode, this`cur, this`left, this`at, r`next, r`hold, r`bits
      ensures OnTrack() && FastAt() && Toward(a, at, T()) && old(at.pos) <= at.pos
      ensures r.next <= n0 + 6 && left <= old(left) <= left + 258 && |cur| + left == old(|cur| + left)
    {
      hide Tracks, Ahead, Decoding, Says, NextIs, Toward, FirstLength, ExtraL, Pow2, ToBits, BytesBits;
      LenKinds(k.ll, s, e);
      if e.op == 0 {
        ghost var l := at;
        FastLiteral(e.val);
        TowardTwice(a, l, at, T());
      } else if HasBit(e.op, 16) {
        ghost var l := at;
        LengthFits(s.value - 257);
        FastLength(e.val, e.op % 16, n0);
        TowardTwice(a, l, at, T());
      }
      else if HasBit(e.op, 32) { mode := TYPE; }
      else { mode := BAD; }
    }

    method FastLiteral(b: nat)
      requires OnTrack() && Tables() && at.v == Lit(k, b) && b < 256 && left >= 1 && mode == LEN
      modifies this`cur, this`left, this`at
      ensures OnTrack() && FastAt() && Toward(old(at), at, T()) && at.pos == old(at.pos)
      ensures left == old(left) - 1 && |cur| + left == old(|cur| + left)
    {
      hide Tracks, Ahead, Decoding, Toward, ToBits, BytesBits;
      ghost var a := Spot(Len(k), at.pos, at.out + [b]);
      LitToLen(at, a, T());
      TracksToward(at, a, T());
      Appended(sent, cur, [b]);
      cur, left, at := cur + [b], left - 1, a;
    }

    /** The extra bits of the length, and the distance symbol. */
    method FastLength(base: nat, extra: nat, ghost n0: nat)
      requires OnTrack() && InWindow() && Tables() && Budget(n0, 15) && left >= 258 && mode == LEN
      requires at.v == LenExt(k, base, extra) && extra <= 5 && 3 <= base && base + Pow2(extra) <= 259
      modifies this`mode, this`cur, this`left, this`at, r`next, r`hold, r`bits
      ensures OnTrack() && FastAt() && Toward(old(at), at, T()) && old(at.pos) <= at.pos
      ensures r.next <= n0 + 6 && left <= old(left) <= left + 258 && |cur| + left == old(|cur| + left)
    {
      hide Tracks, Ahead, Decoding, Toward, Pow2, FromBits, ToBits, BytesBits;
      ghost var R, a := r.Remaining(), at;
      var x := TakeFast(extra, n0, at.pos + extra);
      at := Spot(Dist(k, base + x), at.pos + extra, at.out);
      TakeLenExt(a, at, T(), R, x);
      ghost var d := at;
      FastDist(base + x, n0);
      TowardTwice(a, d, at, T());
    }

    method FastDist(length: nat, ghost n0: nat)
      requires OnTrack() && InWindow() && Tables() && Budget(n0, 20) && left >= 258 && mode == LEN
      requires at.v == Dist(k, length) && 3 <= length <= MAX_MATCH
      modifies this`mode, this`cur, this`left, this`at, r`next, r`hold, r`bits
      ensures OnTrack() && FastAt() && Toward(old(at), at, T()) && old(at.pos) <= at.pos
      ensures r.next <= n0 + 6 && left <= old(left) <= left + 258 && |cur| + left == old(|cur| + left)
    {
      hide Tracks, Ahead, Decoding, Says, NextIs, Toward, DistNext, Low, Pow2, FromBits, ToBits, BytesBits;
      ghost var R, a, s := r.Remaining(), at, None;
      Refill(n0);
      var e;
      e, s := FastSymbol(r, distcode, IT.DISTS, k.dl, T(), at.pos);
      EntryBits(IT.DISTS, k.dl, s, e);
      at := Spot(DistNext(k, length, s), at.pos + e.bits, at.out);
      TakeDist(a, at, T(), R, s, e.bits);
      FastDistDone(e, s, length, n0, a);
    }

    method FastDistDone(e: IT.Entry, ghost s: Option<nat>, length: nat, ghost n0: nat, ghost a: Spot)
      requires OnTrack() && InWindow() && Tables() && Budget(n0, 35) && left >= 258 && mode == LEN
      requires 3 <= length <= MAX_MATCH
      requires Says(IT.DISTS, k.dl, s, e) && at.v == DistNext(k, length, s) && Toward(a, at, T())
      modifies this`mode, this`cur, this`left, this`at, r`next, r`hold, r`bits
      ensures OnTrack() && FastAt() && Toward(a, at, T()) && old(at.pos) <= at.pos
      ensures r.next <= n0 + 6 && left <= old(left) <= left + 258 && |cur| + left == old(|cur| + left)
    {
      hide Tracks, Ahead, Decoding, Says, NextIs, Toward, BaseD, ExtraD, Pow2, ToBits, BytesBits;
      DistKinds(k.dl, s, e);
      if HasBit(e.op, 16) {
        ghost var d := at;
        DistFits(s.value);
        FastDistance(length, e.val, e.op % 16, n0);
        TowardTwice(a, d, at, T());
      } else {
        mode := BAD;
      }
    }

    /** The extra bits of the distance, and the whole match. */
    method FastDistance(length: nat, base: nat, extra: nat, ghost n0: nat)
      requires OnTrack() && InWindow() && Tables() && Budget(n0, 35) && left >= 258 && mode == LEN
      requires 3 <= length <= MAX_MATCH
      requires at.v == DistExt(k, length, base, extra) && extra <= 13 && 1 <= base && base + Pow2(extra) <= WSIZE + 1
      modifies this`mode, this`cur, this`left, this`at, r`next, r`hold, r`bits
      ensures OnTrack() && FastAt() && Toward(old(at), at, T()) && old(at.pos) <= at.pos
      ensures r.next <= n0 + 6 && left <= old(left) <= left + 258 && |cur| + left == old(|cur| + left)
    {
      hide Tracks, Ahead, Decoding, Toward, Copy, Pow2, FromBits, ToBits, BytesBits;
      ghost var R, a := r.Remaining(), at;
      var x := TakeFast(extra, n0, at.pos + extra);
      at := Spot(Matching(k, length, base + x), at.pos + extra, at.out);
      TakeDistExt(a, at, T(), R, x);
      ghost var m := at;
      FastCopy(length, base + x);
      TowardTwice(a, m, at, T());
    }

    method FastCopy(length: nat, dist: nat)
      requires OnTrack() && InWindow() && Tables() && left >= 258 && mode == LEN
      requires at.v == Matching(k, length, dist) && 3 <= length <= MAX_MATCH && 1 <= dist <= WSIZE
      modifies this`mode, this`cur, this`left, this`at
      ensures OnTrack() && FastAt() && Toward(old(at), at, T()) && at.pos == old(at.pos)
      ensures left <= old(left) <= left + 258 && |cur| + left == old(|cur| + left)
    {
      hide Tracks, Ahead, Decoding, Toward, Copy, ToBits, BytesBits;
      ghost var a := at;
      var ok, cur' := FastMatch(c, cur, dist, length);
      if ok {
        at := Spot(Len(k), at.pos, sent + cur');
        MatchCopied(a, at, T(), length);
        cur, left := cur', left - length;
      } else {
        mode, at := BAD, at.(v := Bad);
        MatchTooFar(a, at, T());
      }
      TracksToward(a, at, T());
    }

    /** Hands back the whole bytes that have not been used. */
    method GiveBack()
      requires OnTrack()
      modifies r`next, r`hold, r`bits
      ensures OnTrack() && r.bits == old(r.bits) % 8 && at.pos + r.bits == 8 * r.next
      ensures r.Remaining() == old(r.Remaining())
    {
      hide Tracks, ToBits, BytesBits, Low, Pow2;
      PositionIs(T(), at.pos, r);
      var len := r.bits / 8;
      HandedBack(at.pos, r.input, r.next, r.hold, r.bits, r.next - len, r.bits % 8);
      LowBound(r.hold, r.bits % 8);
      r.next, r.hold, r.bits := r.next - len, Low(r.hold, r.bits % 8), r.bits % 8;
    }

    /** `inflate_fast`: rounds as long as there is enough of both. No byte is handed back that was read before the
        call. */
    method FastLoop() returns (ghost n: nat)
      requires OnTrack() && Coupled() && InWindow() && mode == LEN && |r.input| - r.next >= 6 && left >= 258
      modifies this`mode, this`cur, this`left, this`at, r`next, r`hold, r`bits
      ensures OnTrack() && Coupled() && r.bits < 8 && r.next >= old(r.next) && n >= 1 && Follows(old(at), at, n, T())
      ensures |r.Remaining()| < |old(r.Remaining())| && left <= old(left) && |cur| + left == old(|cur| + left)
    {
      hide Tracks, Ahead, Decoding, Lean, Follows, ToBits, BytesBits;
      ghost var l := lens;
      n := FastRounds();
      GiveBack();
      if mode == LEN { FewBits(IT.LENS, k.ll, lencode, r.hold, r.bits); }
    }

    method FastRounds() returns (ghost n: nat)
      requires OnTrack() && FastAt() && InWindow() && mode == LEN && |r.input| - r.next >= 6 && left >= 258
      modifies this`mode, this`cur, this`left, this`at, r`next, r`hold, r`bits
      ensures OnTrack() && FastAt() && n >= 1 && Follows(old(at), at, n, T())
      ensures Lean(old(lencode), old(r.hold), old(r.bits)) ==> 8 * old(r.next) < at.pos + 8
      ensures |r.Remaining()| < |old(r.Remaining())| && left <= old(left) && |cur| + left == old(|cur| + left)
    {
      hide Tracks, Ahead, Decoding, Lean, Toward, Follows, InToken, ToBits, BytesBits;
      ghost var a := at;
      AheadLength(T(), at.pos, r.Remaining());
      FastRound(r.next);
      FollowsOne(a, at, T());
      AheadLength(T(), at.pos, r.Remaining());
      n := 1;
      while mode == LEN && |r.input| - r.next > 5 && left > 257
        invariant OnTrack() && FastAt() && n >= 1 && Follows(a, at, n, T())
        invariant Lean(old(lencode), old(r.hold), old(r.bits)) ==> 8 * old(r.next) < at.pos + 8
        invariant |r.Remaining()| < |old(r.Remaining())| && left <= old(left) && |cur| + left == old(|cur| + left)
        decreases |r.Remaining()|
      {
        n := NextRound(a, n);
      }
    }

    method NextRound(ghost a: Spot, ghost n: nat) returns (ghost m: nat)
      requires OnTrack() && FastAt() && InWindow() && mode == LEN && |r.input| - r.next >= 6 && left >= 258
      requires Follows(a, at, n, T())
      modifies this`mode, this`cur, this`left, this`at, r`next, r`hold, r`bits
      ensures OnTrack() && FastAt() && m == n + 1 && Follows(a, at, m, T()) && at.pos > old(at.pos)
      ensures |r.Remaining()| < |old(r.Remaining())| && left <= old(left) && |cur| + left == old(|cur| + left)
    {
      hide Tracks, Ahead, Decoding, Lean, Toward, Follows, InToken, ToBits, BytesBits;
      ghost var b := at;
      m := n + 1;
      AheadLength(T(), at.pos, r.Remaining());
      FastRound(r.next);
      FollowsNext(a, b, at, n, m, T());
      AheadLength(T(), at.pos, r.Remaining());
    }

    // -------------------------------------------------------------- one step

    /** A step makes progress, unless there is nothing more to do in this call. */
    ghost predicate Went(leave: bool, bits0: nat, left0: nat, rank0: nat)
      requires r.Valid()
      reads this, r
    {
      if leave then (Short() || left == 0) else Advanced(|r.Remaining()|, left, Rank(), bits0, left0, rank0)
    }

    method StepBlock() returns (leave: bool)
      requires Valid() && (mode == TYPE || mode == STORED || mode == COPY)
      modifies this`mode, this`last, this`length, this`cur, this`left, this`lencode, this`distcode, this`k, this`at
      modifies r`next, r`hold, r`bits
      ensures Valid() && |cur| + left == old(|cur| + left)
      ensures Went(leave, old(|r.Remaining()|), old(left), old(Rank()))
    {
      hide Tracks, Ahead, Decoding, Lean, Lens, Rest, InPlace, ThreesRead, Unrolled, ToBits, BytesBits;
      if mode == TYPE { leave := DoType(); }
      else if mode == STORED { leave := DoStored(); }
      else { leave := DoCopy(); }
    }

    method StepHeader() returns (leave: bool)
      requires Valid() && (mode == TABLE || mode == LENLENS || mode == CODELENS)
      modifies this`mode, this`nlen, this`ndist, this`ncode, this`have, this`lens, this`threes, this`bl, this`lencode
      modifies this`distcode, this`k, this`at
      modifies r`next, r`hold, r`bits
      ensures Valid() && Went(leave, old(|r.Remaining()|), old(left), old(Rank()))
    {
      hide Tracks, Ahead, Decoding, Lean, Lens, Rest, InPlace, ThreesRead, Unrolled, ToBits, BytesBits;
      if mode == TABLE { leave := DoTable(); }
      else if mode == LENLENS { leave := DoLenLens(); }
      else { leave := DoCodeLens(); }
    }

    method StepToken() returns (leave: bool)
      requires Valid()
      requires (mode == LEN || mode == LENEXT || mode == DIST || mode == DISTEXT || mode == MATCH || mode == LIT)
      modifies this`mode, this`length, this`offset, this`extra, this`cur, this`left, this`at, r`next, r`hold, r`bits
      ensures Valid() && |cur| + left == old(|cur| + left)
      ensures Went(leave, old(|r.Remaining()|), old(left), old(Rank()))
    {
      hide Tracks, Ahead, Decoding, Lean, Rest, Toward, Follows, ToBits, BytesBits, Inflater.Coupled;
      if mode == LEN {
        if |r.input| - r.next >= 6 && left >= 258 {
          var _ := FastLoop();
          leave := false;
        } else {
          leave := DoLen();
        }
      }
      else if mode == LENEXT { leave := DoLenExt(); }
      else if mode == DIST { leave := DoDist(); }
      else if mode == DISTEXT { leave := DoDistExt(); }
      else if mode == MATCH { leave := DoMatch(); }
      else { leave := DoLit(); }
    }

    // -------------------------------------------------------------- one call

    method Step() returns (leave: bool)
      requires Valid() && mode != DONE && mode != BAD
      modifies this`mode, this`last, this`length, this`offset, this`extra, this`nlen, this`ndist, this`ncode, this`have
      modifies this`lens
      modifies this`lencode, this`distcode, this`cur, this`left, this`at, this`threes, this`bl, this`k
      modifies r`next, r`hold, r`bits
      ensures Valid() && |cur| + left == old(|cur| + left) && Went(leave, old(|r.Remaining()|), old(left), old(Rank()))
    {
      hide Tracks, Ahead, Rest, ToBits, BytesBits, Inflater.Coupled, Inflater.OnTrack, Inflater.Fixed;
      if mode == TYPE || mode == STORED || mode == COPY { leave := StepBlock(); }
      else if mode == TABLE || mode == LENLENS || mode == CODELENS { leave := StepHeader(); }
      else { leave := StepToken(); }
    }

    /** Between two calls, with nothing left to hand out. */
    ghost predicate Ready()
      reads this, r, c, c.window
    {
      Valid() && cur == []
    }

    /** More input, and room for more output. */
    method Supply(data: seq<Byte>, room: nat)
      requires Ready()
      modifies this`left, r`input
      ensures Ready() && left == room && r.input == old(r.input) + data
    {
      hide Tracks, Ahead, Decoding, Lean, Lens, ThreesRead, InPlace, ToBits, BytesBits, Unrolled, Last,
          Inflater.InWindow, Inflater.Fixed;
      left := room;
      ghost var T0, R := T(), r.Remaining();
      r.Supply(data);
      BytesBitsConcat(old(r.input), data);
      AheadMore(T0, at.pos, R, BytesBits(data));
      MoreInput(at, T0, T());
      if mode == LENLENS { ThreesMore(T0, T(), at.v.counts.pos, threes, at.pos); }
    }

    /** Keeps the output of this call for later matches, unless the stream is over. */
    method UpdateWindow(finish: bool)
      requires Valid()
      modifies this`sent, this`cur, c, c.window
      ensures Ready() && sent == old(sent) + old(cur)
    {
      hide Tracks, Ahead, Inflater.Coupled, Rest, ToBits, BytesBits, Unrolled, Inflater.Fixed;
      if c.wsize != 0 || (cur != [] && mode != BAD && (mode != DONE || !finish)) {
        c.Update(cur);
      }
      sent, cur := sent + cur, [];
    }

    /** One call of `inflate`: it ends at the end of the stream, with bad data, or when it needs more input or more
        room. */
    method Call(data: seq<Byte>, room: nat, finish: bool) returns (ret: Return, out: seq<Byte>)
      requires Ready()
      modifies this, r, c, c.window
      ensures Ready() && r.input == old(r.input) + data && sent == old(sent) + out && |out| <= room
      ensures (ret == STREAM_END <==> mode == DONE) && (ret == DATA_ERROR <==> mode == BAD)
      ensures ret == BUF_ERROR <==> mode != DONE && mode != BAD && (finish || (r.next == old(r.next) && out == []))
      ensures ret == OK || ret == BUF_ERROR ==> (Short() || |out| == room)
    {
      hide Tracks, Ahead, Rest, ToBits, BytesBits, Inflater.Coupled, Inflater.OnTrack, Inflater.Fixed,
          Inflater.InWindow;
      var in0 := r.next;
      Supply(data, room);
      Loop();
      out := cur;
      UpdateWindow(finish);
      if mode == DONE { ret := STREAM_END; }
      else if mode == BAD { ret := DATA_ERROR; }
      else if (r.next == in0 && out == []) || finish { ret := BUF_ERROR; }
      else { ret := OK; }
    }

    method Loop()
      requires Ready()
      modifies this`mode, this`last, this`length, this`offset, this`extra, this`nlen, this`ndist, this`ncode, this`have
      modifies this`lens
      modifies this`lencode, this`distcode, this`cur, this`left, this`at, this`threes, this`bl, this`k
      modifies r`next, r`hold, r`bits
      ensures Valid() && |cur| + left == old(left)
      ensures mode == DONE || mode == BAD || ((Short() || left == 0))
    {
      hide Tracks, Ahead, Rest, ToBits, BytesBits, Inflater.Coupled, Inflater.Fixed, Inflater.InWindow;
      var leave := false;
      while !leave && mode != DONE && mode != BAD
        invariant Valid() && |cur| + left == old(left) && (leave ==> (Short() || left == 0))
        decreases !leave, |r.Remaining()|, left, Rank()
      {
        leave := Step();
      }
    }
  }

  /** Two more bytes do not change the low bits. */
  lemma TwoBytesAbove(hold: nat, bits: nat, b: Byte, b': Byte)
    requires hold < Pow2(bits)
    ensures var h := hold + Shl(b, bits); Low(h + Shl(b', bits + 8), bits) == hold
  {
    hide Low, Shl, Pow2;
    var h := hold + Shl(b, bits);
    PullByte(hold, bits, b);
    LowStays(h, bits + 8, b', bits);
    LowStays(hold, bits, b, bits);
    LowSmall(hold, bits);
  }

  /** The last bits of the accumulator and the bytes behind them, after whole bytes have been handed back. */
  lemma HandedBack(pos: nat, input: seq<Byte>, next: nat, hold: nat, bits: nat, next': nat, bits': nat)
    requires next <= |input| && hold < Pow2(bits)
    requires Ahead(BytesBits(input), pos, ToBits(hold, bits) + BytesBits(input[next..]))
    requires bits' <= bits && pos + bits' == 8 * next' && next' <= next
    ensures ToBits(Low(hold, bits'), bits') + BytesBits(input[next'..]) == ToBits(hold, bits) + BytesBits(input[next..])
  {
    hide ToBits, BytesBits, Low;
    var T, R := BytesBits(input), ToBits(hold, bits) + BytesBits(input[next..]);
    ToBitsPrefix(hold, bits, bits');
    assert input[..next'] + input[next'..] == input;
    BytesBitsConcat(input[..next'], input[next'..]);
    assert BytesBits(input[next'..]) == T[8 * next'..] == R[bits'..];
    assert ToBits(Low(hold, bits'), bits') == R[..bits'];
    assert R[..bits'] + R[bits'..] == R;
  }

  lemma LeanAgain(t: Lookup, hold: nat, bits: nat, more: nat, n: nat)
    requires Lean(t, hold, bits) ==> IT.WellFormed(t.table, t.root) && n == Need(t, more)
    requires Low(more, bits) == hold
    ensures Lean(t, hold, bits) ==> bits < n + 8
  {
    hide IT.WellFormed;
  }

  lemma AtStart()
    ensures Tracks(Spot(Type(false), 0, []), BytesBits([])) && Ahead(BytesBits([]), 0, [])
  {
  }

  /** Where the position is in bytes and bits. */
  lemma PositionIs(T: Bits, pos: nat, r: BitReader)
    requires r.Valid() && T == BytesBits(r.input) && Ahead(T, pos, r.Remaining())
    ensures pos + r.bits == 8 * r.next
  {
    RemainingLength(r);
  }

  lemma RemainingLength(r: BitReader)
    requires r.Valid()
    ensures |r.Remaining()| == r.bits + 8 * (|r.input| - r.next)
  {
  }

  lemma AlignIs(pos: nat, bits: nat, next: nat)
    requires pos + bits == 8 * next
    ensures Align(pos) == pos + bits % 8 == Align(Align(pos)) && (bits < 8 ==> bits % 8 == bits)
  {
  }

  lemma AheadLength(T: Bits, pos: nat, R: Bits)
    requires Ahead(T, pos, R)
    ensures |T| == pos + |R|
  {
  }

  // ---------------------------------------------------------------- reading code lengths

  lemma RemainingHead(r: BitReader)
    requires r.Valid()
    ensures ToBits(r.hold, r.bits) <= r.Remaining() && r.bits <= |r.Remaining()| && r.hold < Pow2(r.bits)
  {
  }

  lemma SaysOp(bl: seq<nat>, s: Option<nat>, e: IT.Entry)
    requires Says(IT.CODES, bl, s, e)
    ensures 1 <= e.bits && e.val <= 18 && e.val == if s.Some? then s.value else 0
  {
    hide Kraft, Pow2;
  }

  /** Two views of the same bits. */
  lemma SameLow(R: Bits, hold: nat, bits: nat, hold': nat, bits': nat, n: nat)
    requires ToBits(hold, bits) <= R && ToBits(hold', bits') <= R && n <= bits && n <= bits'
    ensures Low(hold, n) == Low(hold', n)
  {
    hide ToBits, FromBits, Low;
    ToBitsPrefix(hold, bits, n);
    ToBitsPrefix(hold', bits', n);
    assert ToBits(hold, bits)[..n] == R[..n] == ToBits(hold', bits')[..n];
    FromToBits(Low(hold, n), n);
    FromToBits(Low(hold', n), n);
    LowLow(hold, n, n);
    LowLow(hold', n, n);
  }

  /** After the symbol has been seen, and while its extra bits are still missing. */
  lemma LeanLater(bl: seq<nat>, t: Lookup, R: Bits, hold: nat, bits: nat, hold': nat, bits': nat)
    requires Decoding(IT.CODES, bl, t) && ToBits(hold, bits) <= R && ToBits(hold', bits') <= R && hold' < Pow2(bits')
    requires IT.WellFormed(t.table, t.root) && Need(t, hold) <= bits <= bits' < Need(t, hold) + 8
    ensures Lean(t, hold', bits')
  {
    hide Decoding, Need, Lean, ToBits, IT.WellFormed;
    SameLow(R, hold, bits, hold', bits', Need(t, hold));
    SameNeed(IT.CODES, bl, t, hold, hold', Need(t, hold));
    LeanMore(IT.CODES, bl, t, hold', bits', 8);
  }

  /** The symbol or its extra bits are not all there. */
  lemma LensShort(a: Spot, T: Bits, R: Bits, bl: seq<nat>, s: Option<nat>, n: nat, m: nat)
    requires a.v == Bad || (a.v.CodeLens? && a.v.bl == bl && |a.v.lens| < a.v.limit)
    requires ReadSymbol(bl, T, a.pos) == None || (Ahead(T, a.pos, R) && NextIs(T, a.pos, bl, s, n) && |R| < n + m)
    requires s.Some? ==> m == CL.ExtraBits(s.value)
    ensures Rest(a, T) == None
  {
    hide ReadSymbol, CL.ExtraBits;
    if a.v != Bad { CodeLensShort(a, T); }
  }

  lemma EntryBits(kind: IT.Kind, lens: seq<nat>, s: Option<nat>, e: IT.Entry)
    requires Says(kind, lens, s, e)
    ensures 1 <= e.bits <= MAXBITS
  {
  }

  lemma NothingMeansNone(bl: seq<nat>, t: Lookup, s: Option<nat>, e: IT.Entry)
    requires Decoding(IT.CODES, bl, t) && Says(IT.CODES, bl, s, e)
    ensures s.None? <==> NoWords(bl)
  {
    hide IT.Decodes, Kraft, Pow2;
  }

  /** Where the machine is after a symbol and its extra bits. */
  lemma OpTaken(a: Spot, T: Bits, R: Bits, s: Option<nat>, e: IT.Entry, bl: seq<nat>, m: nat, x: nat, res: CL.Result)
      returns (a': Spot)
    requires Tracks(a, T) && Ahead(T, a.pos, R) && Says(IT.CODES, bl, s, e) && NextIs(T, a.pos, bl, s, e.bits)
    requires a.v == Bad || (a.v.CodeLens? && a.v.bl == bl && |a.v.lens| < a.v.limit
                            && res == CL.Apply(a.v.lens, CL.Op(e.val, x), a.v.limit))
    requires e.bits + m <= |R| && m == CL.ExtraBits(e.val) && x == FromBits(R[e.bits..e.bits + m])
    ensures a'.pos == a.pos + e.bits + m && a'.out == a.out && Tracks(a', T)
    ensures a'.v == if a.v == Bad || s.None? || res.Bad? then Bad else a.v.(lens := res.lens)
  {
    hide Tracks, Ahead, NextIs, CL.Apply, CL.ExtraBits, FromBits;
    a' := Spot(if a.v == Bad || s.None? || res.Bad? then Bad else a.v.(lens := res.lens), a.pos + e.bits + m, a.out);
    SaysOp(bl, s, e);
    if a.v == Bad { BadAnywhere(a, a', T); }
    else if s.None? {
      NothingAtAll(T, a.pos, bl, e.bits, 0);
      CodeLensNothing(a, a', T);
    }
    else { CodeLensOp(a, a', T, R, s.value, e.bits, m, x, res); }
  }

  lemma LensViews(v: View, got: seq<nat>, last: bool, nlen: nat, limit: nat, bl: seq<nat>)
    requires Lens(v, got, last, nlen, limit, bl)
    ensures v == Bad || v == CodeLens(last, nlen, limit, bl, got)
  {
    hide NoWords;
  }

  lemma ZeroOp(got: seq<nat>, x: nat, limit: nat)
    ensures CL.Apply(got, CL.Op(0, x), limit) == CL.Ok(got + [0])
  {
  }

  lemma LensNext(v: View, v': View, got: seq<nat>, last: bool, nlen: nat, limit: nat, bl: seq<nat>, s: Option<nat>,
                 val: nat, res: CL.Result)
    requires Lens(v, got, last, nlen, limit, bl) && (s.None? <==> NoWords(bl)) && (s.None? ==> val == 0)
    requires |got| < limit
    requires v' == if v == Bad || s.None? || res.Bad? then Bad else v.(lens := res.lens)
    requires (val == 0 ==> res == CL.Ok(got + [0]))
    ensures res.Ok? && res.lens != [] ==> Lens(v', res.lens, last, nlen, limit, bl)
  {
    hide NoWords;
  }

  /** All lengths are there. */
  lemma Decided(a: Spot, T: Bits, got: seq<nat>, last: bool, nlen: nat, limit: nat, bl: seq<nat>, k: Trees,
                refused: bool)
    requires Tracks(a, T) && Lens(a.v, got, last, nlen, limit, bl) && |got| == limit && END_BLOCK < nlen <= limit
    requires k == Trees(last, got[..nlen], got[nlen..])
    requires refused == (got[END_BLOCK] == 0 || IT.Refused(IT.LENS, k.ll) || IT.Refused(IT.DISTS, k.dl))
    ensures Tracks(a.(v := if refused then Bad else Len(k)), T)
  {
    hide Tracks, NoWords, IT.Refused;
    if a.v == Bad {
      assert a.(v := Bad) == a;
    } else {
      CodeLensDecided(a, a.(v := if refused then Bad else Len(k)), T, k, refused);
    }
  }

  lemma LensLength(lens: seq<nat>, v: seq<nat>)
    requires InPlace(lens, v)
    ensures |lens| == MAXLENS && |v| <= |ORDER|
  {
  }

  lemma FourBits(s: Bits)
    requires |s| == 4
    ensures FromBits(s) <= 15
  {
    ToFromBits(s);
    FromToBits(FromBits(s), 4);
    LowBound(FromBits(s), 4);
    assert Pow2(4) == 16;
  }

  lemma ThreeBitsFit(s: Bits)
    requires |s| == 3
    ensures FromBits(s) < 8
  {
    ToFromBits(s);
    FromToBits(FromBits(s), 3);
    LowBound(FromBits(s), 3);
    assert Pow2(3) == 8;
  }

  lemma OneMorePlace(lens: seq<nat>, v: seq<nat>, x: nat, R: Bits)
    requires InPlace(lens, v) && |v| < |ORDER| && |R| >= 3 && x == FromBits(R[..3])
    ensures ORDER[|v|] < |lens| && InPlace(lens[ORDER[|v|] := x], v + [x])
  {
    ThreeBitsFit(R[..3]);
    OrderIsPermutation();
    forall i | 0 <= i < |v| ensures ORDER[i] != ORDER[|v|] { assert INVERSE[ORDER[i]] == i; }
  }

  lemma ZeroPlace(lens: seq<nat>, w: seq<nat>)
    requires InPlace(lens, w) && |w| < |ORDER|
    ensures ORDER[|w|] < |lens| && InPlace(lens[ORDER[|w|] := 0], w + [0])
  {
    OrderIsPermutation();
    forall i | 0 <= i < |w| ensures ORDER[i] != ORDER[|w|] { assert INVERSE[ORDER[i]] == i; }
  }

  lemma AllPlaced(lens: seq<nat>, v: seq<nat>, w: seq<nat>)
    requires InPlace(lens, w) && |w| == |ORDER| && v <= w && forall i :: |v| <= i < |w| ==> w[i] == 0
    ensures lens[..19] == Placed(v, ORDER) && forall i :: 0 <= i < 19 ==> lens[i] < 8
  {
    hide Placed, InPlace;
    LensLength(lens, w);
    forall s: nat | s < 19 ensures lens[s] == Placed(v, ORDER)[s] && lens[s] < 8 {
      OnePlaced(lens, v, w, s);
    }
  }

  lemma OnePlaced(lens: seq<nat>, v: seq<nat>, w: seq<nat>, s: nat)
    requires InPlace(lens, w) && |w| == |ORDER| && v <= w && (forall i :: |v| <= i < |w| ==> w[i] == 0) && s < 19
    ensures s < |lens| && lens[s] == Placed(v, ORDER)[s] && lens[s] < 8
  {
    hide Placed;
    OrderIsPermutation();
    var i := INVERSE[s];
    PlacedAt(v, ORDER, INVERSE, i);
    assert ORDER[i] == s;
  }

  lemma Appended(h: seq<Byte>, c: seq<Byte>, b: seq<Byte>)
    ensures h + (c + b) == (h + c) + b
  {
  }
}

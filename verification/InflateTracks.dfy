/**
  * The transitions of `inflate` (dep/zlib/inflate.c): each of them, made from the bits at hand, keeps what the whole
  * stream stands for, however the input goes on; and when there are not bits enough, the input so far is not a
  * complete stream.
  */
module InflateTracks {
  import opened Arith
  import opened Canonical
  import opened BitStream
  import opened Tokens
  import opened Decoder
  import opened BlockData
  import opened InflateSteps
  import opened SymbolReader
  import opened DecodeTables
  import CL = CodeLengths
  import IT = InflateTable

  /** The bits `R` are what is left of the input `T` from position `pos` on. */
  ghost predicate Ahead(T: Bits, pos: nat, R: Bits)
  {
    pos <= |T| && T[pos..] == R
  }

  lemma AheadAt(T: Bits, all: Bits, pos: nat, R: Bits, n: nat)
    requires Ahead(T, pos, R) && T <= all && n <= |R|
    ensures At(all, pos, R[..n])
  {
    assert all[pos..pos + n] == T[pos..][..n];
  }

  lemma AheadDrop(T: Bits, pos: nat, R: Bits, n: nat, p: nat)
    requires Ahead(T, pos, R) && n <= |R| && p == pos + n
    ensures Ahead(T, p, R[n..])
  {
  }

  lemma AheadMore(T: Bits, pos: nat, R: Bits, more: Bits)
    requires Ahead(T, pos, R)
    ensures Ahead(T + more, pos, R + more) && T <= T + more
  {
  }

  /** A number that is at hand is read. */
  lemma NumberAhead(T: Bits, all: Bits, pos: nat, R: Bits, n: nat, v: nat, p: nat)
    requires Ahead(T, pos, R) && T <= all && n <= |R| && v == FromBits(R[..n]) && p == pos + n
    ensures ReadBits(all, pos, n) == Some(Read(v, p))
  {
    AheadAt(T, all, pos, R, n);
  }

  /** A number that is at hand after another one. */
  lemma NextNumber(T: Bits, all: Bits, pos: nat, R: Bits, m: nat, n: nat, v: nat, p: nat, q: nat)
    requires Ahead(T, pos, R) && T <= all && m + n <= |R| && v == FromBits(R[m..m + n]) && p == pos + m && q == p + n
    ensures ReadBits(all, p, n) == Some(Read(v, q))
  {
    AheadDrop(T, pos, R, m, p);
    assert R[m..][..n] == R[m..m + n];
    NumberAhead(T, all, p, R[m..], n, v, q);
  }

  // ---------------------------------------------------------------- blocks

  lemma TypeToBlock(s: Spot, s': Spot, T: Bits, R: Bits, l: nat, k: nat)
    requires Tracks(s, T) && s.v == Type(false) && Ahead(T, s.pos, R) && |R| >= 3
    requires l == FromBits(R[..1]) && k == FromBits(R[1..3]) && s' == Spot(BlockView(l == 1, k), s.pos + 3, s.out)
    ensures Tracks(s', T)
  {
    hide FromBits, ReadBits, BlockView;
    forall all: Bits | T <= all ensures ReadStream(all, 0, []) == Rest(s', all) {
      NumberAhead(T, all, s.pos, R, 1, l, s.pos + 1);
      NextNumber(T, all, s.pos, R, 1, 2, k, s.pos + 1, s.pos + 3);
      TypeStep(all, s.pos, s'.pos, s.out, l, k);
    }
  }

  lemma BadRest(s: Spot, all: Bits)
    requires s.v == Bad
    ensures Rest(s, all) == None
  {
  }

  lemma TypeRest(s: Spot, all: Bits)
    requires s.v.Type?
    ensures Rest(s, all) == if s.v.last then Some(Whole(s.out, s.pos)) else ReadStream(all, s.pos, s.out)
  {
    hide ReadStream;
  }

  lemma TypeToFinished(s: Spot, s': Spot, T: Bits)
    requires Tracks(s, T) && s.v == Type(true) && s'.v == Finished(s.pos) && s'.out == s.out
    ensures Tracks(s', T)
  {
  }

  /** After bad data it does not matter what else is read. */
  lemma BadAnywhere(s: Spot, s': Spot, T: Bits)
    requires Tracks(s, T) && s.v == Bad == s'.v
    ensures Tracks(s', T)
  {
  }

  /** From one state to another one of the same block. */
  lemma Keeps(s: Spot, s': Spot, T: Bits)
    requires Tracks(s, T) && InBlock(s.v) && InBlock(s'.v) && IsLast(s.v) == IsLast(s'.v)
    requires forall all: Bits {:trigger RestOfBlock(s', all)} :: T <= all ==>
             RestOfBlock(s, all) == RestOfBlock(s', all)
    ensures Tracks(s', T)
  {
    hide Rest, RestOfBlock, InBlock, IsLast;
    forall all: Bits | T <= all ensures ReadStream(all, 0, []) == Rest(s', all) {
      assert RestOfBlock(s, all) == RestOfBlock(s', all);
      BlockRest(s, all);
      BlockRest(s', all);
    }
  }

  lemma Fails(s: Spot, s': Spot, T: Bits)
    requires Tracks(s, T) && InBlock(s.v) && s'.v == Bad
    requires forall all: Bits {:trigger RestOfBlock(s, all)} :: T <= all ==> RestOfBlock(s, all) == Error
    ensures Tracks(s', T)
  {
    hide Rest, RestOfBlock, InBlock, IsLast;
    forall all: Bits | T <= all ensures ReadStream(all, 0, []) == Rest(s', all) {
      assert RestOfBlock(s, all) == Error;
      BlockRest(s, all);
      BadRest(s', all);
    }
  }

  lemma Ends(s: Spot, s': Spot, T: Bits)
    requires Tracks(s, T) && InBlock(s.v) && s'.v == Type(IsLast(s.v))
    requires forall all: Bits {:trigger RestOfBlock(s, all)} :: T <= all ==> RestOfBlock(s, all) == Done(s'.out, s'.pos)
    ensures Tracks(s', T)
  {
    hide Rest, RestOfBlock, InBlock, IsLast;
    forall all: Bits | T <= all ensures ReadStream(all, 0, []) == Rest(s', all) {
      assert RestOfBlock(s, all) == Done(s'.out, s'.pos);
      BlockRest(s, all);
      TypeRest(s', all);
    }
  }

  /** The same for the states that read codes. */
  lemma KeepsHeader(s: Spot, s': Spot, T: Bits)
    requires Tracks(s, T) && InHeader(s.v) && InHeader(s'.v) && s.v.last == s'.v.last && s.out == s'.out
    requires forall all: Bits {:trigger HeaderOf(s'.v, all, s'.pos)} :: T <= all ==>
             HeaderOf(s.v, all, s.pos) == HeaderOf(s'.v, all, s'.pos)
    ensures Tracks(s', T)
  {
    hide HeaderOf, Tracks;
    forall all: Bits | T <= all ensures RestOfBlock(s, all) == RestOfBlock(s', all) {
      assert HeaderOf(s.v, all, s.pos) == HeaderOf(s'.v, all, s'.pos);
    }
    Keeps(s, s', T);
  }

  lemma FailsHeader(s: Spot, s': Spot, T: Bits)
    requires Tracks(s, T) && InHeader(s.v) && s'.v == Bad
    requires forall all: Bits {:trigger HeaderOf(s.v, all, s.pos)} :: T <= all ==> HeaderOf(s.v, all, s.pos) == None
    ensures Tracks(s', T)
  {
    hide HeaderOf, Tracks;
    forall all: Bits | T <= all ensures RestOfBlock(s, all) == Error {
      assert HeaderOf(s.v, all, s.pos) == None;
    }
    Fails(s, s', T);
  }

  // ---------------------------------------------------------------- stored blocks

  lemma StoredAligned(s: Spot, s': Spot, T: Bits)
    requires Tracks(s, T) && s.v.Stored? && s' == s.(pos := Align(s.pos)) && Align(s'.pos) == s'.pos
    ensures Tracks(s', T)
  {
    hide Tracks, Align;
    Keeps(s, s', T);
  }

  /** `R` is what is left at the byte boundary. */
  lemma StoredToCopy(s: Spot, s': Spot, T: Bits, R: Bits, n: nat, c: nat)
    requires Tracks(s, T) && s.v.Stored? && s.pos == Align(s.pos) && Ahead(T, s.pos, R) && |R| >= 32
    requires n == FromBits(R[..16]) && c == FromBits(R[16..32])
    requires s' == Spot(if n + c == 65535 then Copying(s.v.last, n) else Bad, s.pos + 32, s.out)
    ensures Tracks(s', T)
  {
    hide FromBits, ReadBits, Tracks, Align;
    forall all: Bits | T <= all
      ensures RestOfBlock(s, all) == if n + c == 65535 then RestOfBlock(s', all) else Error
    {
      NumberAhead(T, all, s.pos, R, 16, n, s.pos + 16);
      NextNumber(T, all, s.pos, R, 16, 16, c, s.pos + 16, s'.pos);
      StoredStep(all, s.pos, s'.pos, s.out, n, c);
    }
    if n + c == 65535 { Keeps(s, s', T); } else { Fails(s, s', T); }
  }

  lemma CopyPart(s: Spot, s': Spot, T: Bits, R: Bits, b: seq<Byte>)
    requires Tracks(s, T) && s.v.Copying? && Ahead(T, s.pos, R) && BytesBits(b) <= R && |b| <= s.v.n
    requires s' == Spot(Copying(s.v.last, s.v.n - |b|), s.pos + 8 * |b|, s.out + b)
    ensures Tracks(s', T)
  {
    hide BytesBits, Tracks, ReadBytes;
    forall all: Bits | T <= all ensures RestOfBlock(s, all) == RestOfBlock(s', all) {
      BytesAhead(T, all, s.pos, R, b);
      CopyStep(all, s.pos, s'.pos, s.out, s.v.n, b, s'.v.n);
    }
    Keeps(s, s', T);
  }

  lemma BytesAhead(T: Bits, all: Bits, pos: nat, R: Bits, b: seq<Byte>)
    requires Ahead(T, pos, R) && T <= all && BytesBits(b) <= R
    ensures ReadBytes(all, pos, |b|) == Some(b)
  {
    var n := |BytesBits(b)|;
    AheadAt(T, all, pos, R, n);
    BytesAreRead(all, pos, b);
  }

  lemma CopyToType(s: Spot, s': Spot, T: Bits)
    requires Tracks(s, T) && s.v.Copying? && s.v.n == 0 && s.pos <= |T| && s' == Spot(Type(s.v.last), s.pos, s.out)
    ensures Tracks(s', T)
  {
    forall all: Bits | T <= all ensures RestOfBlock(s, all) == Done(s.out, s.pos) {
      assert s.out + [] == s.out;
    }
    Ends(s, s', T);
  }

  // ---------------------------------------------------------------- dynamic codes

  lemma CountsAhead(T: Bits, all: Bits, pos: nat, R: Bits, a: nat, b: nat, c: nat)
    requires Ahead(T, pos, R) && T <= all && |R| >= 14
    requires a == FromBits(R[..5]) && b == FromBits(R[5..10]) && c == FromBits(R[10..14])
    ensures ReadCounts(all, pos) == Some(Counts(a + 257, b + 1, c + 4, pos + 14))
  {
    hide FromBits, ReadBits;
    NumberAhead(T, all, pos, R, 5, a, pos + 5);
    NextNumber(T, all, pos, R, 5, 5, b, pos + 5, pos + 10);
    NextNumber(T, all, pos, R, 10, 4, c, pos + 10, pos + 14);
  }

  lemma TableToLenLens(s: Spot, s': Spot, T: Bits, R: Bits, a: nat, b: nat, c: nat)
    requires Tracks(s, T) && s.v.Table? && Ahead(T, s.pos, R) && |R| >= 14
    requires a == FromBits(R[..5]) && b == FromBits(R[5..10]) && c == FromBits(R[10..14])
    requires s' == Spot(LenLens(s.v.last, Counts(a + 257, b + 1, c + 4, s.pos + 14)), s.pos + 14, s.out)
    ensures Tracks(s', T)
  {
    hide FromBits, ReadCounts, ReadCodes, Tracks;
    forall all: Bits | T <= all ensures HeaderOf(s.v, all, s.pos) == HeaderOf(s'.v, all, s'.pos) {
      CountsAhead(T, all, s.pos, R, a, b, c);
    }
    KeepsHeader(s, s', T);
  }

  lemma LenLensTooMany(s: Spot, s': Spot, T: Bits)
    requires Tracks(s, T) && s.v.LenLens? && (s.v.counts.nlen > 286 || s.v.counts.ndist > 30) && s'.v == Bad
    ensures Tracks(s', T)
  {
    forall all: Bits | T <= all ensures HeaderOf(s.v, all, s.pos) == None { }
    FailsHeader(s, s', T);
  }

  /** The lengths `v` of the code length code have been read from `start` up to `pos`. */
  ghost predicate ThreesRead(T: Bits, start: nat, v: seq<nat>, pos: nat)
  {
    forall all: Bits {:trigger ReadThrees(all, start, |v|)} :: T <= all ==>
        ReadThrees(all, start, |v|) == Some(Lengths(v, pos))
  }

  lemma NoThrees(T: Bits, start: nat)
    ensures ThreesRead(T, start, [], start)
  {
  }

  lemma OneMoreThree(T: Bits, start: nat, v: seq<nat>, v': seq<nat>, pos: nat, p: nat, R: Bits, x: nat)
    requires ThreesRead(T, start, v, pos) && Ahead(T, pos, R) && |R| >= 3 && x == FromBits(R[..3]) && v' == v + [x]
    requires p == pos + 3
    ensures ThreesRead(T, start, v', p)
  {
    hide FromBits, ReadBits;
    forall all: Bits | T <= all ensures ReadThrees(all, start, |v'|) == Some(Lengths(v', p)) {
      NumberAhead(T, all, pos, R, 3, x, p);
      assert |v'| - 1 == |v| && ReadThrees(all, start, |v|) == Some(Lengths(v, pos));
    }
  }

  /** More input does not change what has been read. */
  lemma ThreesMore(T: Bits, T': Bits, start: nat, v: seq<nat>, pos: nat)
    requires ThreesRead(T, start, v, pos) && T <= T'
    ensures ThreesRead(T', start, v, pos)
  {
  }

  /** The state that reads these lengths does not depend on how many have been read. */
  lemma LaterThree(s: Spot, s': Spot, T: Bits)
    requires Tracks(s, T) && s.v.LenLens? && s'.v == s.v && s'.out == s.out
    ensures Tracks(s', T)
  {
    forall all: Bits | T <= all ensures HeaderOf(s.v, all, s.pos) == HeaderOf(s'.v, all, s'.pos) { }
    KeepsHeader(s, s', T);
  }

  /** All lengths of the code length code have been read. */
  lemma LenLensDecided(s: Spot, s': Spot, T: Bits, v: seq<nat>, bl: seq<nat>, limit: nat, refused: bool)
    requires Tracks(s, T) && s.v.LenLens? && ThreesRead(T, s.v.counts.pos, v, s.pos)
    requires |v| == s.v.counts.ncode <= |ORDER|
    requires bl == Placed(v, ORDER) && refused == IT.Refused(IT.CODES, bl)
    requires s.v.counts.nlen <= 286 && s.v.counts.ndist <= 30 && limit == s.v.counts.nlen + s.v.counts.ndist
    requires s' == s.(v := if refused then Bad else CodeLens(s.v.last, s.v.counts.nlen, limit, bl, []))
    ensures Tracks(s', T)
  {
    hide Tracks, IT.Refused, ReadThrees, ReadLens, Placed;
    var c := s.v.counts;
    forall all: Bits | T <= all ensures HeaderOf(s.v, all, s.pos)
        == (if refused then None else HeaderOf(s'.v, all, s.pos)) {
      assert ReadThrees(all, c.pos, |v|) == Some(Lengths(v, s.pos));
    }
    if refused { FailsHeader(s, s', T); } else { KeepsHeader(s, s', T); }
  }

  // ---------------------------------------------------------------- run-length coded lengths

  /** What the machine knows about the next symbol of a code: which one it is, or that there is none. */
  ghost predicate NextIs(T: Bits, pos: nat, lens: seq<nat>, s: Option<nat>, n: nat)
  {
    forall all: Bits {:trigger ReadSymbol(lens, all, pos)} :: T <= all ==>
      ReadSymbol(lens, all, pos) == (if s.None? then None else Some(Read(s.value, pos + n)))
  }

  lemma NextIsSymbol(T: Bits, pos: nat, R: Bits, lens: seq<nat>, i: nat, x: nat, bits: nat)
    requires Ahead(T, pos, R) && ToBits(x, bits) <= R && Used(lens, i) && Accepted(lens)
    requires Low(x, lens[i]) == IT.Huff(lens, i) && lens[i] <= bits
    ensures NextIs(T, pos, lens, Some(i), lens[i])
  {
    hide Accepted, ReadSymbol, IT.Huff, Low, ToBits;
    forall all: Bits | T <= all ensures ReadSymbol(lens, all, pos) == Some(Read(i, pos + lens[i])) {
      AheadAt(T, all, pos, R, bits);
      SymbolIsNext(lens, i, x, bits, all, pos);
    }
  }

  lemma NextIsNothing(T: Bits, pos: nat, R: Bits, lens: seq<nat>, x: nat, bits: nat)
    requires Ahead(T, pos, R) && ToBits(x, bits) <= R && Accepted(lens) && Rev(x, MAXBITS) >= Kraft(lens) && bits >= 1
    ensures NextIs(T, pos, lens, None, 0)
  {
    hide Accepted, ReadSymbol, ToBits;
    forall all: Bits | T <= all ensures ReadSymbol(lens, all, pos) == None {
      AheadAt(T, all, pos, R, bits);
      NothingIsNext(lens, x, bits, all, pos);
    }
  }

  lemma CodeLensOp(s: Spot, s': Spot, T: Bits, R: Bits, sym: nat, n: nat, m: nat, x: nat, r: CL.Result)
    requires Tracks(s, T) && s.v.CodeLens? && |s.v.lens| < s.v.limit && NextIs(T, s.pos, s.v.bl, Some(sym), n)
    requires Ahead(T, s.pos, R) && n + m <= |R| && x == FromBits(R[n..n + m]) && m == CL.ExtraBits(sym)
    requires r == CL.Apply(s.v.lens, CL.Op(sym, x), s.v.limit)
    requires s' == Spot(if r.Bad? then Bad else s.v.(lens := r.lens), s.pos + n + m, s.out)
    ensures Tracks(s', T)
  {
    hide Tracks, ReadSymbol, FromBits, ReadBits, HeaderOf, CL.Apply, CL.ExtraBits;
    forall all: Bits | T <= all
      ensures HeaderOf(s.v, all, s.pos) == (if r.Bad? then None else HeaderOf(s'.v, all, s'.pos))
    {
      assert ReadSymbol(s.v.bl, all, s.pos) == Some(Read(sym, s.pos + n));
      NextNumber(T, all, s.pos, R, n, m, x, s.pos + n, s'.pos);
      CodeLensStep(s.v, all, s.pos, sym, s.pos + n, x, s'.pos);
    }
    if r.Bad? { FailsHeader(s, s', T); } else { KeepsHeader(s, s', T); }
  }

  /** Without any code the block is bad, whatever is read. */
  lemma CodeLensNothing(s: Spot, s': Spot, T: Bits)
    requires Tracks(s, T) && s.v.CodeLens? && |s.v.lens| < s.v.limit && NextIs(T, s.pos, s.v.bl, None, 0) && s'.v == Bad
    ensures Tracks(s', T)
  {
    hide Tracks, ReadSymbol;
    forall all: Bits | T <= all ensures HeaderOf(s.v, all, s.pos) == None {
      assert ReadSymbol(s.v.bl, all, s.pos) == None;
    }
    FailsHeader(s, s', T);
  }

  /** All lengths have been read: the two codes, unless they are refused. */
  lemma CodeLensDecided(s: Spot, s': Spot, T: Bits, k: Trees, refused: bool)
    requires Tracks(s, T) && s.v.CodeLens? && |s.v.lens| == s.v.limit && END_BLOCK < s.v.nlen <= s.v.limit
    requires k == Trees(s.v.last, s.v.lens[..s.v.nlen], s.v.lens[s.v.nlen..])
    requires refused == (s.v.lens[END_BLOCK] == 0 || IT.Refused(IT.LENS, k.ll) || IT.Refused(IT.DISTS, k.dl))
    requires s' == s.(v := if refused then Bad else Len(k))
    ensures Tracks(s', T)
  {
    hide Tracks, IT.Refused;
    forall all: Bits | T <= all
      ensures HeaderOf(s.v, all, s.pos) == if refused then None else Some(Header(k.ll, k.dl, s.pos)) { }
    if refused { FailsHeader(s, s', T); }
    else {
      forall all: Bits | T <= all ensures RestOfBlock(s, all) == RestOfBlock(s', all) {
        assert HeaderOf(s.v, all, s.pos) == Some(Header(k.ll, k.dl, s.pos));
      }
      Keeps(s, s', T);
    }
  }

  // ---------------------------------------------------------------- literals, lengths, distances

  /** Between two tokens. */
  predicate Between(v: View)
  {
    v.Len? || v.Type? || v.Bad?
  }

  /** The state `s'` is on the way from `s` to the end of the token, or there. */
  ghost predicate Toward(s: Spot, s': Spot, T: Bits)
  {
    && InToken(s.v) && (InToken(s'.v) || Between(s'.v)) && (InToken(s'.v) ==> s'.v.k == s.v.k)
    && forall all: Bits {:trigger TokenEnd(s, all)} :: T <= all ==> TokenEnd(s, all) == Later(s', all)
  }

  function Later(s: Spot, all: Bits): Spot
  {
    if s.v.Bad? then Broken(s.out) else if Between(s.v) then s else TokenEnd(s, all)
  }

  /** One way leads on to the next one. */
  lemma TowardTwice(s: Spot, s': Spot, s'': Spot, T: Bits)
    requires Toward(s, s', T) && Toward(s', s'', T) && !Between(s'.v)
    ensures Toward(s, s'', T)
  {
    hide TokenEnd;
    forall all: Bits | T <= all ensures TokenEnd(s, all) == Later(s'', all) {
      assert TokenEnd(s', all) == Later(s'', all);
    }
  }

  /** The rest of the block, for all states of a token. */
  lemma TokenRest(s: Spot, all: Bits)
    requires InToken(s.v)
    ensures RestOfBlock(s, all) == AfterToken(s.v.k, all, TokenEnd(s, all))
  {
    hide Inflate;
    if s.v.Len? { InflateToken(s.v.k, all, s.pos, s.out); }
  }

  lemma LaterRest(s: Spot, all: Bits)
    requires InToken(s.v)
    ensures RestOfBlock(s, all) == AfterToken(s.v.k, all, Later(s, all))
  {
    hide Inflate, TokenEnd;
    if !s.v.Len? { TokenRest(s, all); }
  }

  lemma TracksToward(s: Spot, s': Spot, T: Bits)
    requires Tracks(s, T) && Toward(s, s', T)
    ensures Tracks(s', T)
  {
    hide Tracks, TokenEnd, RestOfBlock;
    forall all: Bits | T <= all
      ensures RestOfBlock(s, all) == AfterToken(s.v.k, all, Later(s', all))
    {
      TokenRest(s, all);
    }
    if s'.v.Bad? {
      Fails(s, s', T);
    } else if s'.v.Type? {
      TypeKeepsLast(s, s', T);
      Ends(s, s', T);
    } else {
      forall all: Bits | T <= all ensures RestOfBlock(s, all) == RestOfBlock(s', all) {
        LaterRest(s', all);
      }
      Keeps(s, s', T);
    }
  }

  lemma TypeKeepsLast(s: Spot, s': Spot, T: Bits)
    requires Toward(s, s', T) && s'.v.Type?
    ensures s'.v == Type(s.v.k.last)
  {
    assert TokenEnd(s, T) == s';
  }

  // ---------------------------------------------------------------- many tokens

  /** Where the machine is after `n` tokens, or at the end of the block if that comes first. */
  function After(s: Spot, n: nat, all: Bits): Spot
  {
    if n == 0 then s
    else
      var p := After(s, n - 1, all);
      if p.v.Len? then TokenEnd(p, all) else p
  }

  /** From `s` on, `n` tokens lead to `s'`, however the input goes on. */
  ghost predicate Follows(s: Spot, s': Spot, n: nat, T: Bits)
  {
    Between(s'.v) && forall all: Bits {:trigger After(s, n, all)} :: T <= all ==> After(s, n, all) == Later(s', all)
  }

  lemma FollowsOne(s: Spot, s': Spot, T: Bits)
    requires s.v.Len? && Toward(s, s', T) && Between(s'.v)
    ensures Follows(s, s', 1, T)
  {
    hide TokenEnd;
    forall all: Bits | T <= all ensures After(s, 1, all) == Later(s', all) {
      assert After(s, 0, all) == s;
      assert TokenEnd(s, all) == Later(s', all);
    }
  }

  lemma FollowsNext(s: Spot, s': Spot, s'': Spot, n: nat, m: nat, T: Bits)
    requires Follows(s, s', n, T) && s'.v.Len? && Toward(s', s'', T) && Between(s''.v) && m == n + 1
    ensures Follows(s, s'', m, T)
  {
    hide TokenEnd;
    forall all: Bits | T <= all ensures After(s, m, all) == Later(s'', all) {
      assert After(s, n, all) == s' && m - 1 == n;
      assert TokenEnd(s', all) == Later(s'', all);
    }
  }

  /** Whatever steps lead to the end of the token, they end in the same place with the same output. */
  lemma SameEnd(s: Spot, a: Spot, b: Spot, T: Bits)
    requires Toward(s, a, T) && Toward(s, b, T) && Between(a.v) && Between(b.v)
    ensures a.out == b.out && a.v == b.v && (a.v != Bad ==> a.pos == b.pos)
  {
    assert TokenEnd(s, T) == Later(a, T) == Later(b, T);
  }

  lemma LenToNext(s: Spot, s': Spot, T: Bits, sym: Option<nat>, n: nat)
    requires s.v.Len? && NextIs(T, s.pos, s.v.k.ll, sym, n)
    requires s'.out == s.out && (s'.v != Bad ==> s'.pos == s.pos + n)
    requires s'.v == if sym.None? || sym.value >= L_CODES then Bad
                     else if sym.value < LITERALS then Lit(s.v.k, sym.value)
                     else if sym.value == END_BLOCK then Type(s.v.k.last)
                     else LenExt(s.v.k, FirstLength(sym.value - 257), ExtraL(sym.value - 257))
    ensures Toward(s, s', T)
  {
    hide ReadSymbol, EndLenExt, FirstLength, ExtraL;
    forall all: Bits | T <= all ensures TokenEnd(s, all) == Later(s', all) {
      var r := ReadSymbol(s.v.k.ll, all, s.pos);
    }
  }

  lemma LitToLen(s: Spot, s': Spot, T: Bits)
    requires s.v.Lit? && s.v.b < 256 && s' == Spot(Len(s.v.k), s.pos, s.out + [s.v.b])
    ensures Toward(s, s', T)
  {
  }

  lemma LenExtToDist(s: Spot, s': Spot, T: Bits, R: Bits, x: nat)
    requires s.v.LenExt? && Ahead(T, s.pos, R) && s.v.extra <= |R| && x == FromBits(R[..s.v.extra])
    requires s' == Spot(Dist(s.v.k, s.v.base + x), s.pos + s.v.extra, s.out)
    ensures Toward(s, s', T)
  {
    hide ReadBits, FromBits, EndDist;
    forall all: Bits | T <= all ensures TokenEnd(s, all) == Later(s', all) {
      NumberAhead(T, all, s.pos, R, s.v.extra, x, s'.pos);
    }
  }

  lemma DistToNext(s: Spot, s': Spot, T: Bits, sym: Option<nat>, n: nat)
    requires s.v.Dist? && NextIs(T, s.pos, s.v.k.dl, sym, n)
    requires s'.out == s.out && (s'.v != Bad ==> s'.pos == s.pos + n)
    requires s'.v == if sym.None? || sym.value >= D_CODES then Bad
                     else DistExt(s.v.k, s.v.length, BaseD(sym.value) + 1, ExtraD(sym.value))
    ensures Toward(s, s', T)
  {
    hide ReadSymbol, EndDistExt, BaseD, ExtraD;
    forall all: Bits | T <= all ensures TokenEnd(s, all) == Later(s', all) {
      var r := ReadSymbol(s.v.k.dl, all, s.pos);
    }
  }

  lemma DistExtToMatch(s: Spot, s': Spot, T: Bits, R: Bits, x: nat)
    requires s.v.DistExt? && Ahead(T, s.pos, R) && s.v.extra <= |R| && x == FromBits(R[..s.v.extra])
    requires s' == Spot(Matching(s.v.k, s.v.length, s.v.base + x), s.pos + s.v.extra, s.out)
    ensures Toward(s, s', T)
  {
    hide ReadBits, FromBits, EndMatch;
    forall all: Bits | T <= all ensures TokenEnd(s, all) == Later(s', all) {
      NumberAhead(T, all, s.pos, R, s.v.extra, x, s'.pos);
    }
  }

  lemma MatchTooFar(s: Spot, s': Spot, T: Bits)
    requires s.v.Matching? && s.v.dist > |s.out| && s'.v == Bad && s'.out == s.out
    ensures Toward(s, s', T)
  {
  }

  /** A piece of the match has been copied. */
  lemma MatchCopied(s: Spot, s': Spot, T: Bits, n: nat)
    requires s.v.Matching? && 1 <= s.v.dist <= |s.out| && n <= s.v.length
    requires s'.out == Copy(s.out, s.v.dist, n) && s'.pos == s.pos
    requires s'.v == if n == s.v.length then Len(s.v.k) else Matching(s.v.k, s.v.length - n, s.v.dist)
    ensures Toward(s, s', T)
  {
    CopySplit(s.out, s.v.dist, n, s.v.length - n, s.v.length);
  }

  // ---------------------------------------------------------------- taking the bits

  /** The machine has moved on to `s'` by reading `n` of the bits `R`. */
  ghost predicate Took(s: Spot, s': Spot, T: Bits, R: Bits, n: nat)
  {
    n <= |R| && Ahead(T, s'.pos, R[n..]) && Tracks(s', T) && Toward(s, s', T)
  }

  lemma Taken(s: Spot, s': Spot, T: Bits, R: Bits, n: nat)
    requires Tracks(s, T) && Toward(s, s', T) && Ahead(T, s.pos, R) && n <= |R| && s'.pos == s.pos + n
    ensures Took(s, s', T, R, n)
  {
    hide Tracks, Toward;
    AheadDrop(T, s.pos, R, n, s'.pos);
    TracksToward(s, s', T);
  }

  /** The state after a literal or length symbol. */
  function LenNext(k: Trees, sym: Option<nat>): View
  {
    if sym.None? || sym.value >= L_CODES then Bad
    else if sym.value < LITERALS then Lit(k, sym.value)
    else if sym.value == END_BLOCK then Type(k.last)
    else LenExt(k, FirstLength(sym.value - 257), ExtraL(sym.value - 257))
  }

  lemma TakeLen(s: Spot, s': Spot, T: Bits, R: Bits, sym: Option<nat>, n: nat)
    requires s.v.Len? && Tracks(s, T) && Ahead(T, s.pos, R) && NextIs(T, s.pos, s.v.k.ll, sym, n) && n <= |R|
    requires s' == Spot(LenNext(s.v.k, sym), s.pos + n, s.out)
    ensures Took(s, s', T, R, n)
  {
    hide Tracks, Ahead, NextIs, Toward, FirstLength, ExtraL;
    LenToNext(s, s', T, sym, n);
    Taken(s, s', T, R, n);
  }

  lemma TakeLenExt(s: Spot, s': Spot, T: Bits, R: Bits, x: nat)
    requires s.v.LenExt? && Tracks(s, T) && Ahead(T, s.pos, R) && s.v.extra <= |R| && x == FromBits(R[..s.v.extra])
    requires s' == Spot(Dist(s.v.k, s.v.base + x), s.pos + s.v.extra, s.out)
    ensures Took(s, s', T, R, s.v.extra)
  {
    hide Tracks, Ahead, Toward, FromBits;
    LenExtToDist(s, s', T, R, x);
    Taken(s, s', T, R, s.v.extra);
  }

  /** The state after a distance symbol. */
  function DistNext(k: Trees, length: nat, sym: Option<nat>): View
  {
    if sym.None? || sym.value >= D_CODES then Bad else DistExt(k, length, BaseD(sym.value) + 1, ExtraD(sym.value))
  }

  lemma TakeDist(s: Spot, s': Spot, T: Bits, R: Bits, sym: Option<nat>, n: nat)
    requires s.v.Dist? && Tracks(s, T) && Ahead(T, s.pos, R) && NextIs(T, s.pos, s.v.k.dl, sym, n) && n <= |R|
    requires s' == Spot(DistNext(s.v.k, s.v.length, sym), s.pos + n, s.out)
    ensures Took(s, s', T, R, n)
  {
    hide Tracks, Ahead, NextIs, Toward, BaseD, ExtraD;
    DistToNext(s, s', T, sym, n);
    Taken(s, s', T, R, n);
  }

  lemma TakeDistExt(s: Spot, s': Spot, T: Bits, R: Bits, x: nat)
    requires s.v.DistExt? && Tracks(s, T) && Ahead(T, s.pos, R) && s.v.extra <= |R| && x == FromBits(R[..s.v.extra])
    requires s' == Spot(Matching(s.v.k, s.v.length, s.v.base + x), s.pos + s.v.extra, s.out)
    ensures Took(s, s', T, R, s.v.extra)
  {
    hide Tracks, Ahead, Toward, FromBits;
    DistExtToMatch(s, s', T, R, x);
    Taken(s, s', T, R, s.v.extra);
  }

  // ---------------------------------------------------------------- running out of input

  lemma TypeShort(s: Spot, T: Bits)
    requires s.v == Type(false) && |T| < s.pos + 3
    ensures Rest(s, T) == None
  {
  }

  lemma StoredShort(s: Spot, T: Bits)
    requires s.v.Stored? && s.pos == Align(s.pos) && |T| < s.pos + 32
    ensures Rest(s, T) == None
  {
  }

  lemma CopyShort(s: Spot, T: Bits)
    requires s.v.Copying? && s.v.n > 0 && |T| < s.pos + 8
    ensures Rest(s, T) == None
  {
  }

  lemma HeaderShort(s: Spot, T: Bits)
    requires InHeader(s.v) && HeaderOf(s.v, T, s.pos) == None
    ensures Rest(s, T) == None
  {
  }

  lemma TableShort(s: Spot, T: Bits)
    requires s.v.Table? && |T| < s.pos + 14
    ensures Rest(s, T) == None
  {
    HeaderShort(s, T);
  }

  lemma LenLensShort(s: Spot, T: Bits, v: seq<nat>)
    requires s.v.LenLens? && ThreesRead(T, s.v.counts.pos, v, s.pos) && |v| < s.v.counts.ncode && |T| < s.pos + 3
    ensures Rest(s, T) == None
  {
    assert ReadThrees(T, s.v.counts.pos, |v|) == Some(Lengths(v, s.pos));
    HeaderShort(s, T);
  }

  lemma CodeLensShort(s: Spot, T: Bits)
    requires s.v.CodeLens? && |s.v.lens| < s.v.limit
    requires var r := ReadSymbol(s.v.bl, T, s.pos); r.None? || |T| < r.value.pos + CL.ExtraBits(r.value.value)
    ensures Rest(s, T) == None
  {
    hide ReadSymbol, CL.ExtraBits;
    HeaderShort(s, T);
  }

  lemma TokenShort(s: Spot, T: Bits)
    requires InToken(s.v) && TokenEnd(s, T).v.Bad?
    ensures Rest(s, T) == None
  {
    hide TokenEnd, RestOfBlock;
    TokenRest(s, T);
  }

  lemma SymbolShort(s: Spot, T: Bits)
    requires s.v.Len? || s.v.Dist?
    requires ReadSymbol(if s.v.Len? then s.v.k.ll else s.v.k.dl, T, s.pos) == None
    ensures Rest(s, T) == None
  {
    hide ReadSymbol, Rest;
    TokenShort(s, T);
  }

  lemma ExtraShort(s: Spot, T: Bits)
    requires (s.v.LenExt? || s.v.DistExt?) && |T| < s.pos + s.v.extra
    ensures Rest(s, T) == None
  {
    hide Rest;
    TokenShort(s, T);
  }
}

/**
  * The states of `inflate` (dep/zlib/inflate.c) and what each of them still has to read. The value of `Rest` is what
  * the whole stream stands for; no step of the machine changes it. Within a literal or a match the steps are finer,
  * and `TokenEnd` says where they lead.
  */
module InflateSteps {
  import opened Arith
  import opened Canonical
  import opened BitStream
  import opened Tokens
  import opened Decoder
  import CL = CodeLengths
  import IT = InflateTable

  /** The codes of the current block, and whether it is the last one. */
  datatype Trees = Trees(last: bool, ll: seq<nat>, dl: seq<nat>)

  /** A state with everything that it depends on. */
  datatype View =
    | Type(last: bool)
    | Stored(last: bool)
    | Copying(last: bool, n: nat)
    | Table(last: bool)
    | LenLens(last: bool, counts: Counts)
    | CodeLens(last: bool, nlen: nat, limit: nat, bl: seq<nat>, lens: seq<nat>)
    | Len(k: Trees)
    | LenExt(k: Trees, base: nat, extra: nat)
    | Dist(k: Trees, length: nat)
    | DistExt(k: Trees, length: nat, base: nat, extra: nat)
    | Matching(k: Trees, length: nat, dist: nat)
    | Lit(k: Trees, b: nat)
    | Finished(end: nat)
    | Bad

  /** Where the machine is: its state, its position in the stream and its output. */
  datatype Spot = Spot(v: View, pos: nat, out: seq<Byte>)

  // ---------------------------------------------------------------- literals and matches

  /** The states within a literal or a match, and before one. */
  predicate InToken(v: View)
  {
    v.Len? || v.LenExt? || v.Dist? || v.DistExt? || v.Matching? || v.Lit?
  }

  /** Bad data; where they were found does not matter. */
  function Broken(out: seq<Byte>): Spot
  {
    Spot(Bad, 0, out)
  }

  function EndMatch(k: Trees, pos: nat, out: seq<Byte>, length: nat, dist: nat): Spot
  {
    if dist < 1 || dist > |out| then Broken(out) else Spot(Len(k), pos, Copy(out, dist, length))
  }

  function EndDistExt(k: Trees, out: seq<Byte>, length: nat, base: nat, x: Option<Read>): Spot
  {
    if x.None? then Broken(out) else EndMatch(k, x.value.pos, out, length, base + x.value.value)
  }

  function EndDist(k: Trees, all: Bits, out: seq<Byte>, length: nat, d: Option<Read>): Spot
  {
    if d.None? || d.value.value >= D_CODES then Broken(out)
    else
      var c := d.value.value;
      EndDistExt(k, out, length, BaseD(c) + 1, ReadBits(all, d.value.pos, ExtraD(c)))
  }

  function EndLenExt(k: Trees, all: Bits, out: seq<Byte>, base: nat, x: Option<Read>): Spot
  {
    if x.None? then Broken(out)
    else EndDist(k, all, out, base + x.value.value, ReadSymbol(k.dl, all, x.value.pos))
  }

  function EndLen(k: Trees, all: Bits, out: seq<Byte>, s: Option<Read>): Spot
  {
    if s.None? || s.value.value >= L_CODES then Broken(out)
    else if s.value.value < LITERALS then Spot(Len(k), s.value.pos, out + [s.value.value])
    else if s.value.value == END_BLOCK then Spot(Type(k.last), s.value.pos, out)
    else
      var c := s.value.value - 257;
      EndLenExt(k, all, out, FirstLength(c), ReadBits(all, s.value.pos, ExtraL(c)))
  }

  /** The end of the literal or match that the machine is about to read, or in the middle of. */
  function TokenEnd(s: Spot, all: Bits): Spot
  {
    match s.v
    case Len(k) => EndLen(k, all, s.out, ReadSymbol(k.ll, all, s.pos))
    case LenExt(k, base, extra) => EndLenExt(k, all, s.out, base, ReadBits(all, s.pos, extra))
    case Dist(k, length) => EndDist(k, all, s.out, length, ReadSymbol(k.dl, all, s.pos))
    case DistExt(k, length, base, extra) => EndDistExt(k, s.out, length, base, ReadBits(all, s.pos, extra))
    case Matching(k, length, dist) => EndMatch(k, s.pos, s.out, length, dist)
    case Lit(k, b) => if b < 256 then Spot(Len(k), s.pos, s.out + [b]) else Broken(s.out)
    case _ => Broken(s.out)
  }

  /** What follows a token. */
  function AfterToken(k: Trees, all: Bits, s: Spot): Result
  {
    if s.v.Len? then Inflate(k.ll, k.dl, all, s.pos, s.out)
    else if s.v.Type? then Done(s.out, s.pos)
    else Error
  }

  /** The decoder reads one token and goes on. */
  lemma InflateToken(k: Trees, all: Bits, pos: nat, out: seq<Byte>)
    ensures Inflate(k.ll, k.dl, all, pos, out) == AfterToken(k, all, EndLen(k, all, out, ReadSymbol(k.ll, all, pos)))
  {
    var s := ReadSymbol(k.ll, all, pos);
    if s.Some? && END_BLOCK < s.value.value < L_CODES {
      var c := s.value.value - 257;
      InflateMatch(k, all, pos, out, s.value.value, s.value.pos, ReadBits(all, s.value.pos, ExtraL(c)));
    }
  }

  lemma InflateMatch(k: Trees, all: Bits, pos: nat, out: seq<Byte>, s: nat, p: nat, x: Option<Read>)
    requires ReadSymbol(k.ll, all, pos) == Some(Read(s, p)) && END_BLOCK < s < L_CODES
    requires x == ReadBits(all, p, ExtraL(s - 257))
    ensures Inflate(k.ll, k.dl, all, pos, out) == AfterToken(k, all, EndLenExt(k, all, out, FirstLength(s - 257), x))
  {
    hide ReadSymbol, FirstLength;
    if x.Some? { InflateDist(k, all, x.value.pos, out, FirstLength(s - 257) + x.value.value); }
  }

  /** The decoder reads a distance and copies. */
  lemma InflateDist(k: Trees, all: Bits, pos: nat, out: seq<Byte>, length: nat)
    ensures AfterToken(k, all, EndDist(k, all, out, length, ReadSymbol(k.dl, all, pos)))
            == (var d := ReadDist(k.dl, all, pos);
                if d.None? || d.value.value > |out| then Error
                else Inflate(k.ll, k.dl, all, d.value.pos, Copy(out, d.value.value, length)))
  {
    hide Inflate;
  }

  // ---------------------------------------------------------------- blocks

  /** What follows a block. */
  ghost function AfterBlock(last: bool, all: Bits, r: Result): Option<Whole>
  {
    if r.Error? then None else if last then Some(Whole(r.out, r.pos)) else ReadStream(all, r.pos, r.out)
  }

  function CopyBytes(all: Bits, pos: nat, n: nat, out: seq<Byte>): Result
  {
    var b := ReadBytes(all, pos, n);
    if b.None? then Error else Done(out + b.value, pos + 8 * n)
  }

  ghost function AfterHeader(all: Bits, h: Option<Header>, out: seq<Byte>): Result
  {
    if h.None? then Error else Inflate(h.value.ll, h.value.dl, all, h.value.pos, out)
  }

  /** What follows the lengths of a dynamic block. */
  ghost function AfterLens(nlen: nat, r: Option<Lengths>): Option<Header>
  {
    if r.None? then None else SplitLens(nlen, r.value.lens, r.value.pos)
  }

  /** The codes of a dynamic block, as the states that read them will find them. */
  ghost function HeaderOf(v: View, all: Bits, pos: nat): Option<Header>
  {
    match v
    case Table(_) => ReadHeader(all, pos)
    case LenLens(_, c) => ReadCodes(all, c.pos, c.nlen, c.ndist, c.ncode)
    case CodeLens(_, nlen, limit, bl, lens) => AfterLens(nlen, ReadLens(bl, all, pos, lens, limit))
    case _ => None
  }

  predicate InHeader(v: View)
  {
    v.Table? || v.LenLens? || v.CodeLens?
  }

  /** Within a block. */
  predicate InBlock(v: View)
  {
    v.Stored? || v.Copying? || InHeader(v) || InToken(v)
  }

  predicate IsLast(v: View)
    requires InBlock(v)
  {
    if InToken(v) then v.k.last else v.last
  }

  /** The rest of the current block. */
  ghost function RestOfBlock(s: Spot, all: Bits): Result
  {
    match s.v
    case Stored(_) => ReadStored(all, Align(s.pos), s.out)
    case Copying(_, n) => CopyBytes(all, s.pos, n, s.out)
    case Len(k) => Inflate(k.ll, k.dl, all, s.pos, s.out)
    case _ => if InHeader(s.v) then AfterHeader(all, HeaderOf(s.v, all, s.pos), s.out)
              else if InToken(s.v) then AfterToken(s.v.k, all, TokenEnd(s, all))
              else Error
  }

  /** What the whole stream stands for, as seen from where the machine is. */
  ghost function Rest(s: Spot, all: Bits): Option<Whole>
  {
    match s.v
    case Finished(end) => Some(Whole(s.out, end))
    case Bad => None
    case Type(last) => if last then Some(Whole(s.out, s.pos)) else ReadStream(all, s.pos, s.out)
    case _ => AfterBlock(IsLast(s.v), all, RestOfBlock(s, all))
  }

  lemma BlockRest(s: Spot, all: Bits)
    requires InBlock(s.v)
    ensures Rest(s, all) == AfterBlock(IsLast(s.v), all, RestOfBlock(s, all))
  {
    hide RestOfBlock, AfterBlock;
  }

  /** However the input `T` goes on, the whole stream is what `s` makes of the rest. */
  ghost predicate Tracks(s: Spot, T: Bits)
  {
    forall all: Bits {:trigger ReadStream(all, 0, [])} :: T <= all ==> ReadStream(all, 0, []) == Rest(s, all)
  }

  lemma MoreInput(s: Spot, T: Bits, T': Bits)
    requires Tracks(s, T) && T <= T'
    ensures Tracks(s, T')
  {
  }

  // ---------------------------------------------------------------- block types and stored blocks

  /** The state after the three bits of a block header. */
  function BlockView(last: bool, kind: nat): View
  {
    if kind == 0 then Stored(last)
    else if kind == 1 then Len(Trees(last, FixedL(), FixedD()))
    else if kind == 2 then Table(last)
    else Bad
  }

  lemma TypeStep(all: Bits, pos: nat, p: nat, out: seq<Byte>, l: nat, k: nat)
    requires ReadBits(all, pos, 1) == Some(Read(l, pos + 1)) && ReadBits(all, pos + 1, 2) == Some(Read(k, pos + 3))
    requires p == pos + 3
    ensures ReadStream(all, pos, out) == Rest(Spot(BlockView(l == 1, k), p, out), all)
  {
    hide ReadBits, FixedL, FixedD, Inflate, ReadHeader, ReadStored;
    var r := ReadBody(k, all, p, out);
    assert ReadBlock(all, pos, out) == if r.Error? then BadBlock else Block(l == 1, r.out, r.pos);
  }

  lemma StoredStep(all: Bits, p: nat, q: nat, out: seq<Byte>, n: nat, c: nat)
    requires q == p + 32 && ReadBits(all, p, 16) == Some(Read(n, p + 16))
    requires ReadBits(all, p + 16, 16) == Some(Read(c, q))
    ensures ReadStored(all, p, out) == if n + c == 65535 then CopyBytes(all, q, n, out) else Error
  {
  }

  lemma {:induction false} ReadBytesSplit(all: Bits, pos: nat, p: nat, n: nat, k: nat, m: nat)
    requires ReadBytes(all, pos, k).Some? && p == pos + 8 * k && n == k + m
    ensures ReadBytes(all, pos, n)
            == (var r := ReadBytes(all, p, m); if r.None? then None else Some(ReadBytes(all, pos, k).value + r.value))
    decreases m
  {
    var b := ReadBytes(all, pos, k).value;
    if m == 0 {
      assert b + [] == b;
    } else {
      ReadBytesSplit(all, pos, p, n - 1, k, m - 1);
      assert pos + 8 * (n - 1) == p + 8 * (m - 1);
      var r, x := ReadBytes(all, p, m - 1), ReadBits(all, p + 8 * (m - 1), 8);
      if r.Some? && x.Some? && x.value.value < 256 {
        assert (b + r.value) + [x.value.value] == b + (r.value + [x.value.value]);
      }
    }
  }

  lemma CopyStep(all: Bits, pos: nat, p: nat, out: seq<Byte>, n: nat, b: seq<Byte>, m: nat)
    requires n == |b| + m && p == pos + 8 * |b| && ReadBytes(all, pos, |b|) == Some(b)
    ensures CopyBytes(all, pos, n, out) == CopyBytes(all, p, m, out + b)
  {
    ReadBytesSplit(all, pos, p, n, |b|, m);
    var r := ReadBytes(all, p, m);
    if r.Some? { assert out + (b + r.value) == (out + b) + r.value; }
  }

  // ---------------------------------------------------------------- dynamic codes

  lemma CodeLensStep(v: View, all: Bits, pos: nat, s: nat, p: nat, x: nat, q: nat)
    requires v.CodeLens? && |v.lens| < v.limit
    requires ReadSymbol(v.bl, all, pos) == Some(Read(s, p)) && ReadBits(all, p, CL.ExtraBits(s)) == Some(Read(x, q))
    ensures HeaderOf(v, all, pos)
            == (var r := CL.Apply(v.lens, CL.Op(s, x), v.limit);
                if r.Bad? then None else HeaderOf(v.(lens := r.lens), all, q))
  {
    hide ReadSymbol, ReadBits, SplitLens;
  }
}

/**
  * How many entries a decoding table has (`inflate_table` of dep/zlib/inftrees.c), computed from the lengths of the
  * code alone; and that the limits `ENOUGH_LENS` and `ENOUGH_DISTS` of dep/zlib/inftrees.h are indeed enough for every
  * code that `inflate` accepts.
  */
module TableSize {
  import opened Arith
  import opened Canonical
  import opened InflateTable

  // ---------------------------------------------------------------- positions and numbers of codes

  /** The position of the code of length `l` and rank `r`. */
  function At(lens: seq<nat>, l: nat, r: nat): nat
    requires 1 <= l <= MAXBITS
  {
    Start(lens, l) + Shl(r, MAXBITS - l)
  }

  lemma AtNext(lens: seq<nat>, l: nat, r: nat)
    requires 1 <= l <= MAXBITS && r < Count(lens, l)
    ensures At(lens, l, r + 1) == At(lens, l, r) + Size(l) <= Start(lens, l + 1) <= Kraft(lens)
    ensures r + 1 == Count(lens, l) ==> At(lens, l, r + 1) == Start(lens, l + 1)
  {
    ShlAdd(r, 1, MAXBITS - l);
    ShlOne(MAXBITS - l);
    ShlMono(r + 1, Count(lens, l), MAXBITS - l);
    StartMono(lens, l + 1, MAXBITS + 1);
  }

  lemma AtIsShl(lens: seq<nat>, l: nat, r: nat)
    requires 1 <= l <= MAXBITS
    ensures At(lens, l, r) == Shl(NextCode(lens, l) + r, MAXBITS - l)
    ensures Rev(At(lens, l, r), MAXBITS) == Rev(NextCode(lens, l) + r, l)
  {
    StartIsNextCode(lens, l);
    ShlAdd(NextCode(lens, l), r, MAXBITS - l);
    RevShift(NextCode(lens, l) + r, MAXBITS - l, l);
  }

  /** Sum of the counts of the lengths `1 .. l - 1` over the first `n` symbols. */
  function OffsUpTo(lens: seq<nat>, n: nat, l: nat): nat
    requires n <= |lens| && l >= 1
  {
    if l == 1 then 0 else OffsUpTo(lens, n, l - 1) + Cnt(lens, n, l - 1)
  }

  lemma {:induction false} OffsUpToStep(lens: seq<nat>, n: nat, l: nat)
    requires 1 <= n <= |lens| && l >= 1
    ensures OffsUpTo(lens, n, l) == OffsUpTo(lens, n - 1, l) + (if 1 <= lens[n - 1] < l then 1 else 0)
  {
    if l != 1 { OffsUpToStep(lens, n, l - 1); }
  }

  lemma {:induction false} OffsUpToBound(lens: seq<nat>, n: nat, l: nat)
    requires n <= |lens| && l >= 1
    ensures OffsUpTo(lens, n, l) <= n
    decreases n, l
  {
    if n != 0 { OffsUpToStep(lens, n, l); OffsUpToBound(lens, n - 1, l); }
    else if l != 1 { OffsUpToBound(lens, 0, l - 1); }
  }

  lemma {:induction false} OffsIsUpTo(lens: seq<nat>, l: nat)
    requires 1 <= l <= MAXBITS + 1
    ensures Offs(lens, l) == OffsUpTo(lens, |lens|, l)
  {
    if l != 1 { OffsIsUpTo(lens, l - 1); }
  }

  // ---------------------------------------------------------------- the number of entries

  /** The greatest length up to `l` that occurs; 0 if none does. */
  function MaxLen(lens: seq<nat>, l: nat): (m: nat)
    requires l <= MAXBITS
    ensures m <= l
  {
    if l == 0 then 0 else if Count(lens, l) > 0 then l else MaxLen(lens, l - 1)
  }

  /** The smallest length from `l` on that occurs. */
  function MinLen(lens: seq<nat>, l: nat): (m: nat)
    requires 1 <= l <= MAXBITS + 1
    ensures l <= m <= MAXBITS + 1
    decreases MAXBITS + 1 - l
  {
    if l == MAXBITS + 1 || Count(lens, l) > 0 then l else MinLen(lens, l + 1)
  }

  /** The index bits of the first level, when `bits` are asked for. */
  function Root(lens: seq<nat>, bits: nat): nat
  {
    var min, max := MinLen(lens, 1), MaxLen(lens, MAXBITS);
    var root := if bits > max then max else bits;
    if root < min then min else root
  }

  /** The index bits, `c` or more, of the sub-table that starts at `sub`: enough for the longest code in it. */
  function SubBits(lens: seq<nat>, root: nat, max: nat, sub: nat, c: nat): (r: nat)
    requires root + c <= max <= MAXBITS
    ensures c <= r <= max - root
    decreases max - c
  {
    if root + c == max || Start(lens, root + c + 1) >= sub + Pow2(MAXBITS - root) then c
    else SubBits(lens, root, max, sub, c + 1)
  }

  /** How many prefixes of `root` bits the codes of up to `root` bits take. */
  function FirstLong(lens: seq<nat>, root: nat): nat
    requires root >= 1
  {
    NextCode(lens, root) + Count(lens, root)
  }

  /** The entries of the sub-tables for the prefixes of `root` bits from `q` on. */
  function SubEntries(lens: seq<nat>, root: nat, max: nat, q: nat): nat
    requires root < max <= MAXBITS
    decreases Pow2(root) - q
  {
    if q >= Pow2(root) || Shl(q, MAXBITS - root) >= Kraft(lens) then 0
    else Pow2(SubBits(lens, root, max, Shl(q, MAXBITS - root), 1)) + SubEntries(lens, root, max, q + 1)
  }

  /** All entries. */
  function Entries(lens: seq<nat>, bits: nat): nat
  {
    var root, max := Root(lens, bits), MaxLen(lens, MAXBITS);
    if max == 0 then 2
    else if root >= max || root == 0 then Pow2(root)
    else Pow2(root) + SubEntries(lens, root, max, FirstLong(lens, root))
  }

  predicate TooMuch(kind: Kind, used: nat)
  {
    (kind.LENS? && used > ENOUGH_LENS) || (kind.DISTS? && used > ENOUGH_DISTS)
  }

  lemma {:induction false} MaxLenIs(lens: seq<nat>, l: nat, max: nat)
    requires max <= l <= MAXBITS && (max >= 1 ==> Count(lens, max) > 0)
    requires forall j :: max < j <= l ==> Count(lens, j) == 0
    ensures MaxLen(lens, l) == max
    decreases l
  {
    hide Count;
    if l > max { MaxLenIs(lens, l - 1, max); }
  }

  lemma {:induction false} MinLenIs(lens: seq<nat>, l: nat, min: nat)
    requires 1 <= l <= min <= MAXBITS && Count(lens, min) > 0
    requires forall j :: l <= j < min ==> Count(lens, j) == 0
    ensures MinLen(lens, l) == min
    decreases min - l
  {
    hide Count;
    if l < min { MinLenIs(lens, l + 1, min); }
  }

  /** The prefixes of the short codes take exactly the space of these codes. */
  lemma ShortSpace(lens: seq<nat>, root: nat)
    requires 1 <= root <= MAXBITS
    ensures Start(lens, root + 1) == Shl(FirstLong(lens, root), MAXBITS - root)
  {
    StartIsNextCode(lens, root);
    ShlAdd(NextCode(lens, root), Count(lens, root), MAXBITS - root);
  }

  lemma Shifted(a: nat, b: nat, n: nat)
    requires n == a + b
    ensures Shl(Pow2(a), b) == Pow2(n)
  {
    ShlOne(a);
    ShlShl(1, a, b);
    ShlOne(n);
  }

  // ---------------------------------------------------------------- how many codes a sub-table needs

  /**
    * The codes from rank `r` of length `l` up to the position `e`, which is `u` codes of that length away. The last of
    * them has length `l'`; then there are at least `l' - l` more than `u` of them.
    */
  lemma {:induction false} Walk(lens: seq<nat>, l: nat, r: nat, u: nat, e: nat, m: nat) returns (l': nat, r': nat)
    requires 1 <= l <= m <= MAXBITS && r <= Count(lens, l) && u >= 1
    requires e == At(lens, l, r) + Shl(u, MAXBITS - l) <= Start(lens, m + 1)
    ensures l <= l' <= m && r' <= Count(lens, l') && At(lens, l', r') == e
    ensures Offs(lens, l') + r' >= Offs(lens, l) + r + u + (l' - l)
    ensures Start(lens, l') < e <= Start(lens, l' + 1)
    decreases m - l
  {
    hide Count, Shl;
    var n, k := MAXBITS - l, Count(lens, l);
    var x: nat := k - r;
    ShlAdd(r, x, n);
    ShlOne(n);
    ShlMono(1, u, n);
    if x >= u {
      ShlAdd(r, u, n);
      ShlMono(u, x, n);
      l', r' := l, r + u;
    } else {
      ShlAdd(x, u - x, n);
      ShlMono(1, u - x, n);
      assert l < m;
      var v: nat := 2 * (u - x);
      ShlAdd(u - x, u - x, n - 1);
      ShlTwice(u - x, v, n);
      NextStart(lens, l);
      l', r' := Walk(lens, l + 1, 0, v, e, m);
    }
  }

  lemma ShlTwice(x: nat, v: nat, n: nat)
    requires n >= 1 && v == 2 * x
    ensures Shl(v, n - 1) == Shl(x, n)
  {
    ShlAdd(x, x, n - 1);
  }

  lemma NextStart(lens: seq<nat>, l: nat)
    requires 1 <= l < MAXBITS
    ensures At(lens, l + 1, 0) == Start(lens, l + 1) && Offs(lens, l + 1) == Offs(lens, l) + Count(lens, l)
  {
    ShlOne(MAXBITS - l - 1);
  }

  lemma {:induction false} SubBitsIs(lens: seq<nat>, root: nat, max: nat, sub: nat, c: nat, l: nat)
    requires root + c <= l <= max <= MAXBITS && root + c >= 1
    requires Start(lens, l) < sub + Pow2(MAXBITS - root) <= Start(lens, l + 1)
    ensures SubBits(lens, root, max, sub, c) == l - root
    decreases l - c
  {
    hide Start, Pow2;
    if root + c < l {
      StartMono(lens, root + c + 1, l);
      SubBitsIs(lens, root, max, sub, c + 1, l);
    }
  }

  /** The end of the sub-table for the prefix `q`. */
  lemma SubEnd(lens: seq<nat>, root: nat, l: nat, q: nat, q': nat)
    requires 1 <= root < l <= MAXBITS && q < Pow2(root) && q' == q + 1 && Kraft(lens) == Pow2(MAXBITS)
    ensures Shl(q', MAXBITS - root) == Shl(q, MAXBITS - root) + Pow2(MAXBITS - root) <= Kraft(lens)
    ensures Shl(Pow2(l - root), MAXBITS - l) == Pow2(MAXBITS - root) && Pow2(l - root) == 2 * Pow2(l - root - 1)
  {
    hide Shl, Pow2, Kraft;
    PowNext(l - root);
    var n := MAXBITS - root;
    ShlAdd(q, 1, n);
    ShlOne(n);
    ShlMono(q', Pow2(root), n);
    Shifted(root, n, MAXBITS);
    Shifted(l - root, MAXBITS - l, n);
  }

  /**
    * The sub-tables from `q` on, where the codes from rank `r` of length `l` are: as long as the lengths stay the same,
    * a sub-table has as many entries as codes. They are `c` index bits in the end, and getting there saves codes once.
    */
  lemma {:induction false} SubTables(lens: seq<nat>, root: nat, max: nat, q: nat, l: nat, r: nat)
    returns (y: nat, c: nat)
    requires 1 <= root < l <= max <= MAXBITS && r <= Count(lens, l) && q <= Pow2(root)
    requires Kraft(lens) == Pow2(MAXBITS) == Start(lens, max + 1) && At(lens, l, r) == Shl(q, MAXBITS - root)
    ensures l - root <= c <= max - root && y >= Pow2(root) - q
    ensures SubEntries(lens, root, max, q) + Pow2(l - root) == 2 * y + Pow2(c)
    ensures Offs(lens, max + 1) >= Offs(lens, l) + r + 2 * y + c - (l - root)
    decreases Pow2(root) - q
  {
    hide Count, Shl, Pow2, Kraft, Start, Offs, At, SubBits, SubEntries;
    if q == Pow2(root) {
      StartMono(lens, l + 1, max + 1);
      NoSubTables(lens, root, max, q);
      OffsNext(lens, l);
      y, c := 0, l - root;
    } else {
      var q', e, u := q + 1, Shl(q + 1, MAXBITS - root), Pow2(l - root);
      SubEnd(lens, root, l, q, q');
      Pow2Positive(l - root);
      var l', r' := Walk(lens, l, r, u, e, max);
      SubBitsIs(lens, root, max, Shl(q, MAXBITS - root), 1, l');
      OneSubTable(lens, root, max, q, q', l' - root);
      var y';
      y', c := SubTables(lens, root, max, q', l', r');
      y := y' + Pow2(l - root - 1);
    }
  }

  lemma Pow2Positive(n: nat)
    ensures Pow2(n) >= 1
  {
  }

  lemma OffsNext(lens: seq<nat>, l: nat)
    requires 1 <= l <= MAXBITS
    ensures Offs(lens, l + 1) == Offs(lens, l) + Count(lens, l)
  {
  }

  lemma NoSubTables(lens: seq<nat>, root: nat, max: nat, q: nat)
    requires root < max <= MAXBITS && (q >= Pow2(root) || Shl(q, MAXBITS - root) >= Kraft(lens))
    ensures SubEntries(lens, root, max, q) == 0
  {
  }

  lemma OneSubTable(lens: seq<nat>, root: nat, max: nat, q: nat, q': nat, c: nat)
    requires root < max <= MAXBITS && q < Pow2(root) && Shl(q, MAXBITS - root) < Kraft(lens) && q' == q + 1
    requires c == SubBits(lens, root, max, Shl(q, MAXBITS - root), 1)
    ensures SubEntries(lens, root, max, q) == Pow2(c) + SubEntries(lens, root, max, q')
  {
  }

  // ---------------------------------------------------------------- how much space few codes leave

  lemma Half(f: nat, f': nat, p: nat, p': nat, all: nat)
    requires f' * p >= all && 2 * f >= f' && p' == 2 * p
    ensures f * p' >= all
  {
    assert f * p' == (2 * f) * p;
    MulMono(f', 2 * f, p);
  }

  /** Unless the space is full, every code leaves at least half of what there was. */
  lemma {:induction false} SpaceLeftBy(lens: seq<nat>, l: nat, r: nat)
    requires 1 <= l <= MAXBITS && r <= Count(lens, l) && At(lens, l, r) < Pow2(MAXBITS)
    ensures (Pow2(MAXBITS) - At(lens, l, r)) * Pow2(Offs(lens, l) + r) >= Pow2(MAXBITS)
    decreases l, r
  {
    hide Count, Shl, Pow2, Kraft, Start;
    if r > 0 {
      AtStep(lens, l, r);
      SpaceLeftBy(lens, l, r - 1);
      Half(Pow2(MAXBITS) - At(lens, l, r), Pow2(MAXBITS) - At(lens, l, r - 1), Pow2(Offs(lens, l) + r - 1),
           Pow2(Offs(lens, l) + r), Pow2(MAXBITS)) by { PowNext(Offs(lens, l) + r); }
    } else if l == 1 {
      NothingYet(lens);
    } else {
      var k := Count(lens, l - 1);
      NextStart(lens, l - 1);
      AtEnd(lens, l - 1, k);
      SpaceLeftBy(lens, l - 1, k);
    }
  }

  lemma PowNext(n: nat)
    requires n >= 1
    ensures Pow2(n) == 2 * Pow2(n - 1)
  {
  }

  lemma NothingYet(lens: seq<nat>)
    ensures At(lens, 1, 0) == 0 && Offs(lens, 1) == 0 && Pow2(0) == 1
  {
    ShlOne(MAXBITS - 1);
  }

  lemma AtEnd(lens: seq<nat>, l: nat, k: nat)
    requires 1 <= l <= MAXBITS && k == Count(lens, l)
    ensures At(lens, l, k) == Start(lens, l + 1)
  {
  }

  lemma AtStep(lens: seq<nat>, l: nat, r: nat)
    requires 1 <= l <= MAXBITS && 1 <= r && At(lens, l, r) < Pow2(MAXBITS)
    ensures At(lens, l, r) == At(lens, l, r - 1) + Pow2(MAXBITS - l)
    ensures Pow2(MAXBITS) - At(lens, l, r) >= Pow2(MAXBITS - l)
  {
    hide Start, Count, Shl, Pow2, NextCode;
    var n := MAXBITS - l;
    ShlAdd(r - 1, 1, n);
    ShlOne(n);
    AtIsShl(lens, l, r);
    RoomForOne(NextCode(lens, l) + r, l, n);
  }

  lemma RoomForOne(c: nat, l: nat, n: nat)
    requires l + n == MAXBITS && Shl(c, n) < Pow2(MAXBITS)
    ensures Pow2(MAXBITS) - Shl(c, n) >= Pow2(n)
  {
    hide Shl, Pow2;
    Shifted(l, n, MAXBITS);
    if c >= Pow2(l) { ShlMono(Pow2(l), c, n); }
    ShlMono(c + 1, Pow2(l), n);
    ShlAdd(c, 1, n);
    ShlOne(n);
  }

  // ---------------------------------------------------------------- the limits are enough

  lemma SmallPowers()
    ensures Pow2(0) == 1 && Pow2(1) == 2 && Pow2(2) == 4 && Pow2(3) == 8 && Pow2(4) == 16 && Pow2(5) == 32
    ensures Pow2(6) == 64 && Pow2(7) == 128 && Pow2(8) == 256 && Pow2(9) == 512 && Pow2(13) == 8192
    ensures Pow2(14) == 16384 && Pow2(15) == 32768
  {
    assert Pow2(4) == 2 * Pow2(3) && Pow2(8) == 2 * Pow2(7) && Pow2(12) == 2 * Pow2(11);
  }

  /** What the sub-tables of a complete code with long codes come to. */
  lemma Summary(lens: seq<nat>, root: nat, max: nat) returns (y: nat, c: nat)
    requires 1 <= root < max <= MAXBITS && Kraft(lens) == Pow2(MAXBITS) == Start(lens, max + 1)
    requires Count(lens, max) > 0
    ensures var q, s := FirstLong(lens, root), Offs(lens, root + 1);
      && 1 <= c <= max - root && y >= Pow2(root) - q
      && SubEntries(lens, root, max, q) + 2 == 2 * y + Pow2(c) && |lens| >= s + 2 * y + c - 1
      && Shl(q, MAXBITS - root) < Pow2(MAXBITS)
      && (Pow2(MAXBITS) - Shl(q, MAXBITS - root)) * Pow2(s) >= Pow2(MAXBITS)
  {
    hide Count, Kraft, Start, Offs, At, SubEntries, FirstLong, Shl, Pow2;
    var q, s := FirstLong(lens, root), Offs(lens, root + 1);
    ShortSpace(lens, root);
    NextStart(lens, root);
    LongLeft(lens, root, max);
    Shifted(root, MAXBITS - root, MAXBITS);
    if q > Pow2(root) { ShlMono(Pow2(root), q, MAXBITS - root); }
    y, c := SubTables(lens, root, max, q, root + 1, 0);
    PowNext(1);
    NothingYet(lens);
    SpaceLeftBy(lens, root + 1, 0);
    OffsAtMost(lens, max + 1);
  }

  lemma OffsAtMost(lens: seq<nat>, l: nat)
    requires 1 <= l <= MAXBITS + 1
    ensures Offs(lens, l) <= |lens|
  {
    OffsIsUpTo(lens, l);
    OffsUpToBound(lens, |lens|, l);
  }

  /** Long codes need space. */
  lemma LongLeft(lens: seq<nat>, root: nat, max: nat)
    requires 1 <= root < max <= MAXBITS && Count(lens, max) > 0
    ensures Start(lens, root + 1) < Start(lens, max + 1)
  {
    StartMono(lens, root + 1, max);
    ShlMono(1, Count(lens, max), MAXBITS - max);
    ShlOne(MAXBITS - max);
  }

  /** The space that no code, one or two codes leave. */
  lemma FewLeave(s: nat, ps: nat, free: int)
    requires ps == Pow2(s) && free * ps >= 32768
    ensures s == 0 ==> free >= 32768
    ensures s == 1 ==> free >= 16384
    ensures s == 2 ==> free >= 8192
  {
    if s <= 2 {
      SmallPowers();
      assert free * ps == if s == 0 then free else if s == 1 then free * 2 else free * 4;
    }
  }

  /** 286 symbols and nine index bits; that `2 * y` is even decides. */
  lemma LensSum(y: nat, c: nat, q: nat, s: nat, n: nat, sub: nat, pc: nat, free: int)
    requires 1 <= c <= 6 && y >= 512 - q && sub + 2 == 2 * y + pc && 286 >= n >= s + 2 * y + c - 1
    requires pc == Pow2(c) && free == 32768 - 64 * q && (s == 0 ==> free >= 32768) && (s == 1 ==> free >= 16384)
    ensures 512 + sub <= ENOUGH_LENS && s >= 1
  {
    SmallPowers();
  }

  /** 30 symbols and six index bits. */
  lemma DistsSum(y: nat, c: nat, q: nat, s: nat, n: nat, sub: nat, pc: nat, free: int)
    requires 1 <= c <= 9 && y >= 64 - q && sub + 2 == 2 * y + pc && 30 >= n >= s + 2 * y + c - 1
    requires pc == Pow2(c) && free == 32768 - 512 * q && (s == 0 ==> free >= 32768) && (s == 1 ==> free >= 16384)
    requires s == 2 ==> free >= 8192
    ensures 64 + sub <= ENOUGH_DISTS && s >= 1
  {
    SmallPowers();
  }

  /** If short codes exist, the first level has the index bits that were asked for. */
  lemma {:induction false} SomeShort(lens: seq<nat>, l: nat, m: nat)
    requires 1 <= l <= m <= MAXBITS && Offs(lens, m + 1) > Offs(lens, l)
    ensures MinLen(lens, l) <= m
    decreases m - l
  {
    hide Count;
    if Count(lens, l) == 0 {
      OffsNext(lens, l);
      if l < m { SomeShort(lens, l + 1, m); }
    }
  }

  /** The codes that `inflate` accepts, and the index bits that it asks for. */
  predicate Admitted(kind: Kind, lens: seq<nat>, bits: nat)
  {
    match kind
    case CODES => true
    case LENS => |lens| <= 286 && bits == 9
    case DISTS => |lens| <= 30 && bits == 6
  }

  /** Without codes longer than the index bits there are no sub-tables. */
  lemma FirstLevelOnly(lens: seq<nat>, bits: nat)
    requires 1 <= bits && MaxLen(lens, MAXBITS) <= bits
    ensures Entries(lens, bits) <= Pow2(bits)
  {
    hide SubEntries, FirstLong;
    var max := MaxLen(lens, MAXBITS);
    MaxLenFacts(lens, MAXBITS);
    Pow2Mono(max, bits);
    Pow2Mono(1, bits);
    assert Pow2(1) == 2 * Pow2(0);
    if max > 0 { MinAtMost(lens, 1, max); }
  }

  lemma MaxLenAtMost(lens: seq<nat>, bits: nat)
    requires forall i :: 0 <= i < |lens| ==> lens[i] <= bits
    ensures MaxLen(lens, MAXBITS) <= bits
  {
    MaxLenFacts(lens, MAXBITS);
    var max := MaxLen(lens, MAXBITS);
    if max > 0 { var i := FindRank(lens, |lens|, max, 0); }
  }

  /** No table of an accepted code is too big. */
  lemma EnoughIsEnough(kind: Kind, lens: seq<nat>, bits: nat)
    requires Admitted(kind, lens, bits) && !Refused(kind, lens)
    ensures !TooMuch(kind, Entries(lens, bits))
  {
    hide Count, Kraft, Start, Offs, SubEntries, FirstLong, Refused, Shl, Pow2;
    var max := MaxLen(lens, MAXBITS);
    MaxLenFacts(lens, MAXBITS);
    SmallPowers();
    if max > bits && !kind.CODES? {
      LongMeansComplete(kind, lens, max);
      AfterMax(lens, max, MAXBITS);
      var y, c := Summary(lens, bits, max);
      var q, s := FirstLong(lens, bits), Offs(lens, bits + 1);
      var sub := SubEntries(lens, bits, max, q);
      ShlMul(q, MAXBITS - bits);
      var free := Pow2(MAXBITS) - Shl(q, MAXBITS - bits);
      FewLeave(s, Pow2(s), free);
      if kind.LENS? {
        LensSum(y, c, q, s, |lens|, sub, Pow2(c), free);
      } else {
        DistsSum(y, c, q, s, |lens|, sub, Pow2(c), free);
      }
      NothingYet(lens);
      SomeShort(lens, 1, bits);
    } else if !kind.CODES? {
      FirstLevelOnly(lens, bits);
    }
  }

  lemma {:induction false} MinAtMost(lens: seq<nat>, l: nat, max: nat)
    requires 1 <= l <= max <= MAXBITS && Count(lens, max) > 0
    ensures MinLen(lens, l) <= max
    decreases max - l
  {
    hide Count;
    if l < max { MinAtMost(lens, l + 1, max); }
  }

  lemma {:induction false} MaxLenFacts(lens: seq<nat>, l: nat)
    requires l <= MAXBITS
    ensures var max := MaxLen(lens, l);
      && (max >= 1 ==> Count(lens, max) > 0) && forall j :: max < j <= l ==> Count(lens, j) == 0
  {
    hide Count;
    if l > 0 { MaxLenFacts(lens, l - 1); }
  }

  lemma {:induction false} AfterMax(lens: seq<nat>, max: nat, l: nat)
    requires 1 <= max <= l <= MAXBITS && forall j :: max < j <= l ==> Count(lens, j) == 0
    ensures Start(lens, max + 1) == Start(lens, l + 1) && (l == MAXBITS ==> Start(lens, max + 1) == Kraft(lens))
    decreases l
  {
    hide Count;
    if max < l {
      AfterMax(lens, max, l - 1);
      ShlOne(MAXBITS - l);
    }
  }

  lemma LongMeansComplete(kind: Kind, lens: seq<nat>, max: nat)
    requires !Refused(kind, lens) && 1 < max <= MAXBITS && Count(lens, max) > 0
    ensures Kraft(lens) == Pow2(MAXBITS)
  {
    var i := FindRank(lens, |lens|, max, 0);
    assert Used(lens, i) && lens[i] > 1;
  }
}

/**
  * Decoding tables for canonical Huffman codes (dep/zlib/inftrees.c).
  *
  * A table answers, for the next bits of the stream, which symbol comes first and how many bits it takes. The bits
  * are a natural number `x` whose least significant bit comes first. `Rev(x, 15)` is the same 15 bits with the first
  * one most significant, so a symbol comes first exactly when `Rev(x, 15)` lies in its interval.
  */
module InflateTable {
  import opened Arith
  import opened Canonical

  datatype Kind = CODES | LENS | DISTS

  /** `op` 0: literal; 1..15: link to a sub-table of that many index bits; 16..: base with extra bits;
      32 set: end of block; 64 set: invalid. */
  datatype Entry = Entry(op: nat, bits: nat, val: nat)

  const ENOUGH_LENS: nat := 852
  const ENOUGH_DISTS: nat := 592

  const LBASE: seq<nat> := [3, 4, 5, 6, 7, 8, 9, 10, 11, 13, 15, 17, 19, 23, 27, 31,
                            35, 43, 51, 59, 67, 83, 99, 115, 131, 163, 195, 227, 258, 0, 0]
  const LEXT: seq<nat> := [16, 16, 16, 16, 16, 16, 16, 16, 17, 17, 17, 17, 18, 18, 18, 18,
                           19, 19, 19, 19, 20, 20, 20, 20, 21, 21, 21, 21, 16, 72, 78]
  const DBASE: seq<nat> := [1, 2, 3, 4, 5, 7, 9, 13, 17, 25, 33, 49, 65, 97, 129, 193,
                            257, 385, 513, 769, 1025, 1537, 2049, 3073, 4097, 6145,
                            8193, 12289, 16385, 24577, 0, 0]
  const DEXT: seq<nat> := [16, 16, 16, 16, 17, 17, 18, 18, 19, 19, 20, 20, 21, 21, 22, 22,
                           23, 23, 24, 24, 25, 25, 26, 26, 27, 27, 28, 28, 29, 29, 64, 64]

  function MaxSymbols(kind: Kind): nat
  {
    match kind case CODES => 19 case LENS => 288 case DISTS => 32
  }

  function SymbolOp(kind: Kind, sym: nat): nat
    requires sym < MaxSymbols(kind)
  {
    match kind
    case CODES => 0
    case LENS => if sym < 256 then 0 else if sym == 256 then 96 else LEXT[sym - 257]
    case DISTS => DEXT[sym]
  }

  function SymbolVal(kind: Kind, sym: nat): nat
    requires sym < MaxSymbols(kind)
  {
    match kind
    case CODES => sym
    case LENS => if sym < 256 then sym else if sym == 256 then 0 else LBASE[sym - 257]
    case DISTS => DBASE[sym]
  }

  /** The table entry of a symbol whose code ends after `bits` more bits. */
  function SymbolEntry(kind: Kind, sym: nat, bits: nat): Entry
    requires sym < MaxSymbols(kind)
  {
    Entry(SymbolOp(kind, sym), bits, SymbolVal(kind, sym))
  }

  const INVALID := Entry(64, 1, 0)

  predicate IsLink(e: Entry)
  {
    0 < e.op < 16
  }

  lemma SymbolIsNoLink(kind: Kind, sym: nat, bits: nat)
    requires sym < MaxSymbols(kind)
    ensures !IsLink(SymbolEntry(kind, sym, bits))
    ensures SymbolEntry(kind, sym, bits).bits == bits
  {
    if kind.LENS? && sym > 256 { assert LEXT[sym - 257] >= 16; }
    if kind.DISTS? { assert DEXT[sym] >= 16; }
  }

  /** Every index that the two look-ups use lies inside the table; the first level uses `root` bits. */
  ghost predicate WellFormed(t: seq<Entry>, root: nat)
  {
    && Pow2(root) <= |t|
    && forall x: nat {:trigger t[x]} :: x < Pow2(root) && IsLink(t[x]) ==>
        t[x].bits == root && t[x].val + Pow2(t[x].op) <= |t|
  }

  /** Decoding one symbol: at most two look-ups; `bits` of the result is the number of bits used. */
  function Lookup(t: seq<Entry>, root: nat, x: nat): Entry
    requires WellFormed(t, root)
  {
    LowBound(x, root);
    var e := t[Low(x, root)];
    if IsLink(e) then
      LowBound(High(x, root), e.op);
      var e2 := t[e.val + Low(High(x, root), e.op)];
      Entry(e2.op, e.bits + e2.bits, e2.val)
    else e
  }

  /** What it means for a table to decode a code. */
  ghost predicate Decodes(kind: Kind, lens: seq<nat>, t: seq<Entry>, root: nat)
    requires |lens| <= MaxSymbols(kind)
  {
    && WellFormed(t, root)
    && (forall i: nat, x: nat :: Used(lens, i) && InInterval(lens, i, Rev(x, MAXBITS)) ==>
        Lookup(t, root, x) == SymbolEntry(kind, i, lens[i]))
    && (forall x: nat :: Rev(x, MAXBITS) >= Kraft(lens) ==> Lookup(t, root, x) == INVALID)
  }

  /** Sets of lengths that are refused: over-subscribed, or incomplete with anything but a lone one-bit code. */
  ghost predicate Refused(kind: Kind, lens: seq<nat>)
  {
    && (exists i: nat :: Used(lens, i))
    && (Kraft(lens) > Pow2(MAXBITS)
        || (Kraft(lens) < Pow2(MAXBITS) && (kind.CODES? || exists i: nat :: Used(lens, i) && lens[i] > 1)))
  }

  // ---------------------------------------------------------------- codes and indices

  /** The code of symbol `i` as it appears in the stream. */
  function Huff(lens: seq<nat>, i: nat): nat
    requires Used(lens, i)
  {
    Rev(Pos(lens, i), MAXBITS)
  }

  lemma HuffIsRevCode(lens: seq<nat>, i: nat)
    requires Used(lens, i) && Kraft(lens) <= Pow2(MAXBITS)
    ensures Huff(lens, i) == Rev(Code(lens, i), lens[i]) < Pow2(lens[i])
    ensures Code(lens, i) < Pow2(lens[i])
  {
    var l := lens[i];
    PosIsCode(lens, i);
    RevShift(Code(lens, i), MAXBITS - l, l);
    RevBound(Code(lens, i), l);
    PosBounds(lens, i);
    if Code(lens, i) >= Pow2(l) {
      ShlMono(Pow2(l), Code(lens, i), MAXBITS - l);
      ShlOne(l);
      ShlShl(1, l, MAXBITS - l);
      ShlOne(MAXBITS);
    }
  }

  /** The stream starts with symbol `i` exactly when its low bits are the reversed code. */
  lemma Match(lens: seq<nat>, i: nat, x: nat)
    requires Used(lens, i) && Kraft(lens) <= Pow2(MAXBITS)
    ensures InInterval(lens, i, Rev(x, MAXBITS)) <==> Low(x, lens[i]) == Huff(lens, i)
  {
    var l, c := lens[i], Code(lens, i);
    InIntervalIsPrefix(lens, i, Rev(x, MAXBITS));
    HuffIsRevCode(lens, i);
    RevHighBits(x, MAXBITS, l);
    RevTwice(x, l);
    RevLow(x, l);
    RevTwice(c, l);
    LowSmall(c, l);
  }

  /** Two symbols never match the same bits. */
  lemma NoClash(lens: seq<nat>, i: nat, j: nat, x: nat)
    requires Used(lens, i) && Used(lens, j) && i != j && Kraft(lens) <= Pow2(MAXBITS)
    ensures !(Low(x, lens[i]) == Huff(lens, i) && Low(x, lens[j]) == Huff(lens, j))
  {
    Match(lens, i, x);
    Match(lens, j, x);
    if InInterval(lens, i, Rev(x, MAXBITS)) && InInterval(lens, j, Rev(x, MAXBITS)) {
      UniqueSymbol(lens, i, j, Rev(x, MAXBITS));
    }
  }

  // ---------------------------------------------------------------- the table invariant

  /** All entries of the code `h` of length `l` are in place. */
  ghost predicate Filled(t: seq<Entry>, root: nat, used: nat, l: nat, h: nat, op: nat, val: nat)
    requires Pow2(root) <= used <= |t|
  {
    if l <= root then
      forall x: nat :: x < Pow2(root) && Low(x, l) == h ==> t[x] == Entry(op, l, val)
    else
      LowBound(h, root);
      Linked(t, root, used, Low(h, root)) && SubFilled(t, t[Low(h, root)], l - root, High(h, root), op, val)
  }

  ghost predicate Linked(t: seq<Entry>, root: nat, used: nat, low: nat)
    requires low < Pow2(root) <= used <= |t|
  {
    var e := t[low];
    IsLink(e) && e.bits == root && Pow2(root) <= e.val && e.val + Pow2(e.op) <= used
  }

  /** The sub-table behind the link `e` holds the last `l` bits `h` of a code. */
  ghost predicate SubFilled(t: seq<Entry>, e: Entry, l: nat, h: nat, op: nat, val: nat)
    requires e.val + Pow2(e.op) <= |t|
  {
    && l <= e.op
    && (forall z :: e.val <= z < e.val + Pow2(e.op) && Low(z - e.val, l) == h ==>
        t[z] == Entry(op, l, val))
  }

  /** All symbols before position `pos` are entered. */
  ghost predicate Entered(kind: Kind, lens: seq<nat>, t: seq<Entry>, root: nat, used: nat, pos: nat)
    requires |lens| <= MaxSymbols(kind) && Pow2(root) <= used <= |t|
  {
    forall i: nat :: Used(lens, i) && Pos(lens, i) < pos ==>
      Filled(t, root, used, lens[i], Huff(lens, i), SymbolOp(kind, i), SymbolVal(kind, i))
  }

  lemma FilledLookup(t: seq<Entry>, root: nat, used: nat, l: nat, h: nat, op: nat, val: nat, x: nat)
    requires Pow2(root) <= used <= |t| && Filled(t, root, used, l, h, op, val)
    requires WellFormed(t, root) && !(0 < op < 16)
    requires Low(x, l) == h
    ensures Lookup(t, root, x) == Entry(op, l, val)
  {
    if l <= root { RootLookup(t, root, used, l, op, val, x); }
    else { LinkFound(t, root, used, l, op, val, x); LinkLookup(t, root, l, op, val, x, t[Low(x, root)]); }
  }

  lemma RootLookup(t: seq<Entry>, root: nat, used: nat, l: nat, op: nat, val: nat, x: nat)
    requires Pow2(root) <= used <= |t| && l <= root && Filled(t, root, used, l, Low(x, l), op, val)
    requires WellFormed(t, root) && !(0 < op < 16)
    ensures Lookup(t, root, x) == Entry(op, l, val)
  {
    LowBound(x, root);
    LowLow(x, l, root);
  }

  lemma LinkLookup(t: seq<Entry>, root: nat, l: nat, op: nat, val: nat, x: nat, e: Entry)
    requires WellFormed(t, root) && root < l
    requires Low(x, root) < Pow2(root) && e == t[Low(x, root)] && IsLink(e) && e.bits == root
    requires SubFilled(t, e, l - root, Low(High(x, root), l - root), op, val)
    ensures Lookup(t, root, x) == Entry(op, l, val)
  {
    SubLookup(t, e, l - root, High(x, root), op, val);
  }

  lemma LinkFound(t: seq<Entry>, root: nat, used: nat, l: nat, op: nat, val: nat, x: nat)
    requires Pow2(root) <= used <= |t| && root < l && Filled(t, root, used, l, Low(x, l), op, val)
    ensures Low(x, root) < Pow2(root)
    ensures var e := t[Low(x, root)];
            && IsLink(e) && e.bits == root && e.val + Pow2(e.op) <= |t|
            && SubFilled(t, e, l - root, Low(High(x, root), l - root), op, val)
  {
    LowBound(x, root);
    LowLow(x, root, l);
    HighLow(x, root, l);
  }

  lemma SubLookup(t: seq<Entry>, e: Entry, l: nat, x: nat, op: nat, val: nat)
    requires e.val + Pow2(e.op) <= |t| && SubFilled(t, e, l, Low(x, l), op, val)
    ensures Low(x, e.op) < Pow2(e.op)
    ensures t[e.val + Low(x, e.op)] == Entry(op, l, val)
  {
    LowBound(x, e.op);
    LowLow(x, l, e.op);
    var z := e.val + Low(x, e.op);
    assert z - e.val == Low(x, e.op);
  }
}

/**
  * The loops of dep/zlib/inflate.c that pull bytes until the next symbol can be decoded, with one or two look-ups.
  */
module SymbolDecoder {
  import opened Arith
  import opened Canonical
  import opened BitStream
  import opened Tokens
  import opened Decoder
  import opened BlockData
  import opened SymbolReader
  import opened InflateTracks
  import opened DecodeTables
  import IT = InflateTable
  import TB = TableBuilder

  // ---------------------------------------------------------------- how many bits a symbol needs

  /** The bits that the next symbol takes, if the stream goes on with `x`. */
  function Need(t: Lookup, x: nat): nat
    requires IT.WellFormed(t.table, t.root)
  {
    IT.Lookup(t.table, t.root, x).bits
  }

  lemma NeedBounds(kind: IT.Kind, lens: seq<nat>, t: Lookup, x: nat)
    requires Decoding(kind, lens, t)
    ensures 1 <= Need(t, x) <= MAXBITS
  {
    NotRefused(kind, lens);
    var s := SymbolOf(kind, lens, t.table, t.root, x);
  }

  /** A symbol that fits into the low `n` bits is the same for all words with these low bits. */
  lemma SameNeed(kind: IT.Kind, lens: seq<nat>, t: Lookup, x: nat, y: nat, n: nat)
    requires Decoding(kind, lens, t) && Low(x, n) == Low(y, n) && Need(t, x) <= n
    ensures Need(t, y) == Need(t, x)
  {
    hide IT.Refused, IT.WellFormed, Kraft, Low;
    NotRefused(kind, lens);
    var i := SymbolOf(kind, lens, t.table, t.root, x);
    var j := SymbolOf(kind, lens, t.table, t.root, y);
    if i.Some? {
      LowAgrees(x, y, lens[i.value], n);
      IT.Match(lens, i.value, y);
    } else if j.Some? {
      RevBound(x, MAXBITS);
      assert lens[j.value] == 1;
    }
  }

  lemma LowAgrees(x: nat, y: nat, m: nat, n: nat)
    requires m <= n && Low(x, n) == Low(y, n)
    ensures Low(x, m) == Low(y, m)
  {
    LowLow(x, m, n);
    LowLow(y, m, n);
  }

  /** However the stream goes on after the `bits` bits of `hold`, fewer than eight of them are left after the next
      symbol. */
  ghost predicate Lean(t: Lookup, hold: nat, bits: nat)
  {
    IT.WellFormed(t.table, t.root) && forall y: nat {:trigger Need(t, y)} :: Low(y, bits) == hold ==>
        bits < Need(t, y) + 8
  }

  lemma FewBits(kind: IT.Kind, lens: seq<nat>, t: Lookup, hold: nat, bits: nat)
    requires Decoding(kind, lens, t) && bits < 8
    ensures Lean(t, hold, bits)
  {
  }

  lemma LeanNow(t: Lookup, hold: nat, bits: nat)
    requires Lean(t, hold, bits) && hold < Pow2(bits)
    ensures bits < Need(t, hold) + 8
  {
    LowSmall(hold, bits);
  }

  /** There is never more than the longest word and a byte. */
  lemma LeanBits(kind: IT.Kind, lens: seq<nat>, t: Lookup, hold: nat, bits: nat)
    requires Decoding(kind, lens, t) && Lean(t, hold, bits) && hold < Pow2(bits)
    ensures bits < MAXBITS + 8
  {
    hide Decoding, Lean, Pow2, Need;
    assert IT.WellFormed(t.table, t.root) by { DecodingIs(kind, lens, t); }
    NeedBounds(kind, lens, t, hold);
    LeanNow(t, hold, bits);
  }

  /** After a symbol that does not fit, another byte does not change that. */
  lemma StillLean(kind: IT.Kind, lens: seq<nat>, t: Lookup, hold: nat, bits: nat, hold': nat, bits': nat)
    requires Decoding(kind, lens, t) && hold < Pow2(bits) && Need(t, hold) > bits && bits' == bits + 8
    requires Low(hold', bits) == hold
    ensures Lean(t, hold', bits')
  {
    hide Decoding, Need;
    LowSmall(hold, bits);
    assert IT.WellFormed(t.table, t.root) by { DecodingIs(kind, lens, t); }
    forall y: nat | Low(y, bits') == hold' ensures bits' < Need(t, y) + 8 {
      LowLow(y, bits, bits');
      if Need(t, y) <= bits { SameNeed(kind, lens, t, y, hold, bits); }
    }
  }

  lemma DecodingIs(kind: IT.Kind, lens: seq<nat>, t: Lookup)
    requires Decoding(kind, lens, t)
    ensures IT.WellFormed(t.table, t.root) && (kind.CODES? ==> TB.Flat(t.table, t.root))
  {
  }

  /** A symbol that fits, and up to seven bits more: the next symbol and the bits behind it. */
  lemma LeanMore(kind: IT.Kind, lens: seq<nat>, t: Lookup, hold: nat, bits: nat, more: nat)
    requires Decoding(kind, lens, t) && hold < Pow2(bits) && Need(t, hold) <= bits < Need(t, hold) + more && more <= 8
    ensures Lean(t, hold, bits)
  {
    hide Decoding, Need;
    LowSmall(hold, bits);
    assert IT.WellFormed(t.table, t.root) by { DecodingIs(kind, lens, t); }
    forall y: nat | Low(y, bits) == hold ensures bits < Need(t, y) + 8 {
      SameNeed(kind, lens, t, hold, y, bits);
    }
  }

  /** When all that is left are the bits of `hold`, and the next symbol does not fit, then there is none. */
  lemma NoneLeft(kind: IT.Kind, lens: seq<nat>, t: Lookup, T: Bits, pos: nat, hold: nat, bits: nat)
    requires Decoding(kind, lens, t) && Ahead(T, pos, ToBits(hold, bits)) && Need(t, hold) > bits
    ensures ReadSymbol(lens, T, pos) == None
  {
    NotRefused(kind, lens);
    var r := ReadSymbol(lens, T, pos);
    if r.Some? {
      var i := r.value.value;
      WordIsHuff(lens, T, pos, i);
      FromToBits(hold, bits);
      LowLow(hold, lens[i], bits);
      IT.Match(lens, i, hold);
      assert false;
    }
  }

  // ---------------------------------------------------------------- the two look-ups

  /** More bits above do not change the low ones. */
  lemma LowStays(hold: nat, bits: nat, b: nat, n: nat)
    requires hold < Pow2(bits) && n <= bits
    ensures Low(hold + Shl(b, bits), n) == Low(hold, n)
  {
    Concat(hold, b, bits);
    LowLow(hold + Shl(b, bits), n, bits);
  }

  /** What the first look-up finds. */
  ghost predicate FirstEntry(t: Lookup, x: nat, here: IT.Entry)
  {
    IT.WellFormed(t.table, t.root) && Low(x, t.root) < |t.table| && here == t.table[Low(x, t.root)]
  }

  /** What the second look-up finds behind the link `link`. */
  ghost predicate SecondEntry(t: Lookup, x: nat, link: IT.Entry, here: IT.Entry)
  {
    && FirstEntry(t, x, link) && IT.IsLink(link) && link.val + Low(High(x, link.bits), link.op) < |t.table|
    && here == t.table[link.val + Low(High(x, link.bits), link.op)]
  }

  lemma FirstLookup(kind: IT.Kind, lens: seq<nat>, t: Lookup, x: nat)
    requires Decoding(kind, lens, t)
    ensures Low(x, t.root) < |t.table| && FirstEntry(t, x, t.table[Low(x, t.root)])
    ensures t.table[Low(x, t.root)].bits <= Need(t, x)
    ensures !IT.IsLink(t.table[Low(x, t.root)]) ==> IT.Lookup(t.table, t.root, x) == t.table[Low(x, t.root)]
    ensures IT.IsLink(t.table[Low(x, t.root)]) ==> !kind.CODES? && t.table[Low(x, t.root)].bits == t.root
  {
    hide IT.Refused;
    LowBound(x, t.root);
    var i: nat := Low(x, t.root);
    if IT.IsLink(t.table[i]) {
      LowBound(High(x, t.root), t.table[i].op);
      var here := t.table[t.table[i].val + Low(High(x, t.root), t.table[i].op)];
      assert Need(t, x) == t.table[i].bits + here.bits;
    }
  }

  lemma SecondLookup(kind: IT.Kind, lens: seq<nat>, t: Lookup, x: nat, link: IT.Entry)
    requires Decoding(kind, lens, t) && FirstEntry(t, x, link) && IT.IsLink(link)
    ensures var i := link.val + Low(High(x, link.bits), link.op);
      && i < |t.table| && SecondEntry(t, x, link, t.table[i]) && link.bits == t.root
      && IT.Lookup(t.table, t.root, x) == IT.Entry(t.table[i].op, link.bits + t.table[i].bits, t.table[i].val)
  {
    hide IT.Refused;
    LowBound(x, t.root);
    LowBound(High(x, t.root), link.op);
  }

  /** Another byte, when the symbol does not fit. */
  lemma PullKeeps(kind: IT.Kind, lens: seq<nat>, t: Lookup, hold: nat, bits: nat, b: Byte)
    requires Decoding(kind, lens, t) && hold < Pow2(bits) && Need(t, hold) > bits
    ensures Lean(t, hold + Shl(b, bits), bits + 8)
    ensures forall here :: FirstEntry(t, hold, here) && t.root <= bits ==> FirstEntry(t, hold + Shl(b, bits), here)
  {
    hide Decoding, Lean, Need;
    Concat(hold, b, bits);
    StillLean(kind, lens, t, hold, bits, hold + Shl(b, bits), bits + 8);
    if t.root <= bits { LowStays(hold, bits, b, t.root); }
  }

  /** Pulls a byte because the symbol does not fit. */
  method PullFor(r: BitReader, t: Lookup, ghost kind: IT.Kind, ghost lens: seq<nat>) returns (ok: bool)
    requires r.Valid() && Decoding(kind, lens, t) && IT.WellFormed(t.table, t.root) && Need(t, r.hold) > r.bits
    requires Lean(t, r.hold, r.bits)
    modifies r`next, r`hold, r`bits
    ensures r.Valid() && r.Remaining() == old(r.Remaining()) && Lean(t, r.hold, r.bits)
    ensures forall here :: FirstEntry(t, old(r.hold), here) && t.root <= old(r.bits) ==> FirstEntry(t, r.hold, here)
    ensures if ok then r.next == old(r.next) + 1 && r.bits == old(r.bits) + 8 && r.next <= |r.input|
            else r.next == |r.input| && r.hold == old(r.hold) && r.bits == old(r.bits)
  {
    hide Decoding, Lean, Need, FirstEntry, IT.WellFormed, ToBits, BytesBits;
    if r.next < |r.input| { PullKeeps(kind, lens, t, r.hold, r.bits, r.input[r.next]); }
    ok := r.PullByte();
  }

  /** The first level: an entry that needs no more bits than there are, unless the input ends. */
  method FirstLevel(r: BitReader, t: Lookup, ghost kind: IT.Kind, ghost lens: seq<nat>)
      returns (ok: bool, here: IT.Entry)
    requires r.Valid() && Decoding(kind, lens, t) && Lean(t, r.hold, r.bits)
    modifies r`next, r`hold, r`bits
    ensures r.Valid() && r.Remaining() == old(r.Remaining()) && Lean(t, r.hold, r.bits) && FirstEntry(t, r.hold, here)
    ensures if ok then here.bits <= r.bits else
            r.next == |r.input| && IT.WellFormed(t.table, t.root)
            && Need(t, r.hold) > r.bits
  {
    hide Decoding, Lean, Need, Low, ToBits, BytesBits, IT.WellFormed, Pow2;
    FirstLookup(kind, lens, t, r.hold);
    here := t.table[r.Peek(t.root)];
    while here.bits > r.bits
      invariant r.Valid() && r.Remaining() == old(r.Remaining()) && Lean(t, r.hold, r.bits)
      invariant FirstEntry(t, r.hold, here)
      decreases |r.input| - r.next
    {
      FirstLookup(kind, lens, t, r.hold);
      ok := PullFor(r, t, kind, lens);
      if !ok { return false, here; }
      FirstLookup(kind, lens, t, r.hold);
      here := t.table[r.Peek(t.root)];
    }
    ok := true;
  }

  method SecondLevel(r: BitReader, t: Lookup, link: IT.Entry, ghost kind: IT.Kind, ghost lens: seq<nat>)
      returns (ok: bool, here: IT.Entry)
    requires r.Valid() && Decoding(kind, lens, t) && Lean(t, r.hold, r.bits) && FirstEntry(t, r.hold, link)
    requires IT.IsLink(link) && link.bits <= r.bits
    modifies r`next, r`hold, r`bits
    ensures r.Valid() && r.Remaining() == old(r.Remaining()) && Lean(t, r.hold, r.bits)
    ensures SecondEntry(t, r.hold, link, here)
    ensures if ok then link.bits + here.bits <= r.bits
            else r.next == |r.input| && IT.WellFormed(t.table, t.root) && Need(t, r.hold) > r.bits
  {
    hide Decoding, Lean, Low, High, ToBits, BytesBits, IT.WellFormed, IT.Lookup, Pow2, FirstEntry;
    SecondLookup(kind, lens, t, r.hold, link);
    here := t.table[link.val + Low(High(r.hold, link.bits), link.op)];
    while link.bits + here.bits > r.bits
      invariant r.Valid() && r.Remaining() == old(r.Remaining()) && Lean(t, r.hold, r.bits)
      invariant SecondEntry(t, r.hold, link, here) && t.root == link.bits <= r.bits
      decreases |r.input| - r.next
    {
      SecondLookup(kind, lens, t, r.hold, link);
      WellFormedLink(t, r.hold, link);
      ok := PullFor(r, t, kind, lens);
      if !ok { return false, here; }
      SecondLookup(kind, lens, t, r.hold, link);
      here := t.table[link.val + Low(High(r.hold, link.bits), link.op)];
    }
    ok := true;
  }

  lemma WellFormedLink(t: Lookup, x: nat, link: IT.Entry)
    requires FirstEntry(t, x, link)
    ensures IT.WellFormed(t.table, t.root)
  {
  }

  /** The table entry of the next symbol, over one or two levels, when there are bits enough for it. */
  method NextEntry(r: BitReader, t: Lookup, ghost kind: IT.Kind, ghost lens: seq<nat>) returns (ok: bool, e: IT.Entry)
    requires r.Valid() && Decoding(kind, lens, t) && Lean(t, r.hold, r.bits)
    modifies r`next, r`hold, r`bits
    ensures r.Valid() && r.Remaining() == old(r.Remaining()) && Lean(t, r.hold, r.bits)
    ensures IT.WellFormed(t.table, t.root)
    ensures if ok then e.bits <= r.bits && e == IT.Lookup(t.table, t.root, r.hold)
            else r.next == |r.input| && Need(t, r.hold) > r.bits
  {
    hide Decoding, Lean, Low, High, ToBits, BytesBits, IT.WellFormed, IT.Lookup, Pow2;
    DecodingIs(kind, lens, t);
    var here;
    ok, here := FirstLevel(r, t, kind, lens);
    e := here;
    if ok && IT.IsLink(here) {
      var here2;
      ok, here2 := SecondLevel(r, t, here, kind, lens);
      SecondLookup(kind, lens, t, r.hold, here);
      e := IT.Entry(here2.op, here.bits + here2.bits, here2.val);
    } else if ok {
      FirstLookup(kind, lens, t, r.hold);
    }
  }

  /** What an entry says about the next symbol. */
  ghost predicate Says(kind: IT.Kind, lens: seq<nat>, s: Option<nat>, e: IT.Entry)
  {
    |lens| <= IT.MaxSymbols(kind) && 1 <= e.bits <= MAXBITS &&
    if s.Some? then Used(lens, s.value) && e == IT.SymbolEntry(kind, s.value, e.bits) && e.bits == lens[s.value]
    else e == IT.INVALID && Kraft(lens) < Pow2(MAXBITS)
  }

  lemma EntrySays(kind: IT.Kind, lens: seq<nat>, t: Lookup, T: Bits, pos: nat, R: Bits, x: nat, bits: nat)
      returns (s: Option<nat>)
    requires Decoding(kind, lens, t) && Ahead(T, pos, R) && ToBits(x, bits) <= R
    requires IT.Lookup(t.table, t.root, x).bits <= bits
    ensures Says(kind, lens, s, IT.Lookup(t.table, t.root, x))
    ensures NextIs(T, pos, lens, s, IT.Lookup(t.table, t.root, x).bits)
  {
    NotRefused(kind, lens);
    s := SymbolOf(kind, lens, t.table, t.root, x);
    if s.Some? {
      IT.SymbolIsNoLink(kind, s.value, lens[s.value]);
      NextIsSymbol(T, pos, R, lens, s.value, x, bits);
    } else {
      RevBound(x, MAXBITS);
      NextIsNothing(T, pos, R, lens, x, bits);
      NothingAtAll(T, pos, lens, 0, IT.INVALID.bits);
    }
  }

  lemma NothingAtAll(T: Bits, pos: nat, lens: seq<nat>, m: nat, n: nat)
    requires NextIs(T, pos, lens, None, m)
    ensures NextIs(T, pos, lens, None, n)
  {
  }

  /** What is known about the next symbol after looking for it. */
  ghost predicate Found(ok: bool, kind: IT.Kind, lens: seq<nat>, s: Option<nat>, e: IT.Entry, T: Bits, pos: nat)
  {
    if ok then Says(kind, lens, s, e) && NextIs(T, pos, lens, s, e.bits) else ReadSymbol(lens, T, pos) == None
  }

  /** Finds the next symbol, without consuming it; otherwise the input so far ends within it. */
  method NextSymbol(r: BitReader, t: Lookup, ghost kind: IT.Kind, ghost lens: seq<nat>, ghost T: Bits, ghost pos: nat)
    returns (ok: bool, e: IT.Entry, ghost s: Option<nat>)
    requires r.Valid() && Decoding(kind, lens, t) && Lean(t, r.hold, r.bits) && Ahead(T, pos, r.Remaining())
    modifies r`next, r`hold, r`bits
    ensures r.Valid() && r.Remaining() == old(r.Remaining()) && Lean(t, r.hold, r.bits)
    ensures Found(ok, kind, lens, s, e, T, pos) && r.bits < MAXBITS + 8
    ensures ok ==> e.bits <= r.bits < e.bits + 8
  {
    hide Decoding, Lean, Low, High, ToBits, BytesBits, IT.WellFormed, IT.Lookup, Pow2, Ahead, Says, NextIs;
    ok, e := NextEntry(r, t, kind, lens);
    LeanBits(kind, lens, t, r.hold, r.bits);
    s := SymbolFound(ok, kind, lens, t, r.hold, r.bits, r.input[r.next..], e, T, pos);
  }

  /** The same with a single look-up, for a table that has only one level. */
  method NextFlat(r: BitReader, t: Lookup, ghost lens: seq<nat>, ghost T: Bits, ghost pos: nat)
    returns (ok: bool, e: IT.Entry, ghost s: Option<nat>)
    requires r.Valid() && Decoding(IT.CODES, lens, t) && Lean(t, r.hold, r.bits) && Ahead(T, pos, r.Remaining())
    modifies r`next, r`hold, r`bits
    ensures r.Valid() && r.Remaining() == old(r.Remaining()) && Lean(t, r.hold, r.bits)
    ensures Found(ok, IT.CODES, lens, s, e, T, pos) && IT.WellFormed(t.table, t.root) && r.bits < MAXBITS + 8
    ensures ok ==> e.bits <= r.bits < e.bits + 8 && e.bits == Need(t, r.hold)
  {
    hide Decoding, Lean, Low, High, ToBits, BytesBits, IT.WellFormed, IT.Lookup, Pow2, Ahead, Says, NextIs;
    ok, e := FirstLevel(r, t, IT.CODES, lens);
    DecodingIs(IT.CODES, lens, t);
    FirstLookup(IT.CODES, lens, t, r.hold);
    LeanBits(IT.CODES, lens, t, r.hold, r.bits);
    s := SymbolFound(ok, IT.CODES, lens, t, r.hold, r.bits, r.input[r.next..], e, T, pos);
  }

  lemma SymbolFound(ok: bool, kind: IT.Kind, lens: seq<nat>, t: Lookup, hold: nat, bits: nat, rest: seq<Byte>,
                    e: IT.Entry, T: Bits, pos: nat)
    returns (s: Option<nat>)
    requires Decoding(kind, lens, t) && IT.WellFormed(t.table, t.root) && hold < Pow2(bits) && Lean(t, hold, bits)
    requires Ahead(T, pos, ToBits(hold, bits) + BytesBits(rest))
    requires if ok then e.bits <= bits && e == IT.Lookup(t.table, t.root, hold) else rest == [] && Need(t, hold) > bits
    ensures Found(ok, kind, lens, s, e, T, pos) && (ok ==> bits < e.bits + 8)
  {
    hide Decoding, Lean, ToBits, IT.WellFormed, IT.Lookup, Pow2;
    if ok {
      LeanNow(t, hold, bits);
      s := EntrySays(kind, lens, t, T, pos, ToBits(hold, bits) + BytesBits(rest), hold, bits);
    } else {
      assert BytesBits([]) == [] && ToBits(hold, bits) + [] == ToBits(hold, bits);
      NoneLeft(kind, lens, t, T, pos, hold, bits);
      s := None;
    }
  }

  // ---------------------------------------------------------------- what entries mean

  /** Whether the bit with the value `b` is set. */
  predicate HasBit(op: nat, b: nat)
    requires b > 0
  {
    op / b % 2 == 1
  }

  lemma LengthFits(c: nat)
    requires c <= 28
    ensures ExtraL(c) <= 5 && 3 <= FirstLength(c) && FirstLength(c) + Pow2(ExtraL(c)) <= 259
  {
    hide BaseD, ExtraD;
    LengthSpace();
    if c < 28 { BaseMono(c + 1, 28); } else { assert Pow2(0) == 1; }
  }

  lemma DistFits(c: nat)
    requires c < D_CODES
    ensures ExtraD(c) <= 13 && BaseD(c) + Pow2(ExtraD(c)) <= 32768
  {
    hide Pow2;
    DistSpace(15, 30);
    BaseMono(c + 1, 30);
    MaxWindow();
  }

  lemma MaxWindow()
    ensures Pow2(15) == 32768
  {
    assert Pow2(10) == 1024;
  }

  /** The bits of `op` tell literals, the end of the block, lengths and bad codes apart. */
  lemma LenKinds(lens: seq<nat>, s: Option<nat>, e: IT.Entry)
    requires Says(IT.LENS, lens, s, e)
    ensures e.op == 0 <==> s.Some? && s.value < LITERALS
    ensures e.op == 0 ==> e.val == s.value
    ensures e.op != 0 ==> (HasBit(e.op, 32) <==> s == Some(END_BLOCK))
    ensures HasBit(e.op, 16) <==> s.Some? && END_BLOCK < s.value < L_CODES
    ensures HasBit(e.op, 16) ==>
            !HasBit(e.op, 64) && e.val == FirstLength(s.value - 257)
            && e.op % 16 == ExtraL(s.value - 257)
    ensures e.op != 0 && !HasBit(e.op, 16) ==> HasBit(e.op, 64) && !IT.IsLink(e)
    ensures HasBit(e.op, 16) ==> !IT.IsLink(e)
  {
    hide Kraft, Pow2, FirstLength, ExtraL;
    if s.Some? && END_BLOCK < s.value < L_CODES {
      var c := s.value - 257;
      LengthTable(c);
      LengthFits(c);
    }
  }

  lemma DistKinds(lens: seq<nat>, s: Option<nat>, e: IT.Entry)
    requires Says(IT.DISTS, lens, s, e)
    ensures HasBit(e.op, 64) <==> s.None? || s.value >= D_CODES
    ensures HasBit(e.op, 16) <==> s.Some? && s.value < D_CODES
    ensures HasBit(e.op, 16) ==> e.val == BaseD(s.value) + 1 && e.op % 16 == ExtraD(s.value)
    ensures !IT.IsLink(e)
  {
    hide Kraft, Pow2, BaseD, ExtraD;
    if s.Some? && s.value < D_CODES {
      DistTable(s.value);
      DistFits(s.value);
    }
  }

  lemma {:induction false} FromBitsBound(s: Bits)
    ensures FromBits(s) < Pow2(|s|)
  {
    if s != [] { FromBitsBound(s[1..]); }
  }

  // ---------------------------------------------------------------- symbols in the fast loop

  /** The next symbol, when fifteen bits are at hand; its bits are taken. */
  method FastSymbol(r: BitReader, t: Lookup, ghost kind: IT.Kind, ghost lens: seq<nat>, ghost T: Bits, ghost pos: nat)
    returns (e: IT.Entry, ghost s: Option<nat>)
    requires r.Valid() && Decoding(kind, lens, t) && Ahead(T, pos, r.Remaining()) && r.bits >= MAXBITS
    modifies r`hold, r`bits
    ensures r.Valid() && Says(kind, lens, s, e) && NextIs(T, pos, lens, s, e.bits)
    ensures IT.WellFormed(t.table, t.root) && e.bits == Need(t, old(r.hold))
    ensures r.bits == old(r.bits) - e.bits && e.bits <= |old(r.Remaining())|
    ensures r.Remaining() == old(r.Remaining())[e.bits..]
  {
    hide Decoding, Low, High, ToBits, BytesBits, IT.WellFormed, IT.Lookup, Pow2, Ahead, Says, NextIs, FromBits,
        FirstEntry;
    DecodingIs(kind, lens, t);
    FirstLookup(kind, lens, t, r.hold);
    NeedBounds(kind, lens, t, r.hold);
    s := EntrySays(kind, lens, t, T, pos, r.Remaining(), r.hold, r.bits);
    e := t.table[r.Peek(t.root)];
    if IT.IsLink(e) {
      e := FastSecond(r, t, e, kind, lens);
    } else {
      r.DropBits(e.bits);
    }
  }

  /** The second level; the bits of both are taken. */
  method FastSecond(r: BitReader, t: Lookup, link: IT.Entry, ghost kind: IT.Kind, ghost lens: seq<nat>)
      returns (e: IT.Entry)
    requires r.Valid() && Decoding(kind, lens, t) && FirstEntry(t, r.hold, link) && IT.IsLink(link)
    requires IT.WellFormed(t.table, t.root) && Need(t, r.hold) <= r.bits
    modifies r`hold, r`bits
    ensures r.Valid() && e == IT.Lookup(t.table, t.root, old(r.hold))
    ensures r.bits == old(r.bits) - e.bits && e.bits <= |old(r.Remaining())|
    ensures r.Remaining() == old(r.Remaining())[e.bits..]
  {
    hide Decoding, Low, High, ToBits, BytesBits, IT.WellFormed, IT.Lookup, Pow2, FromBits, FirstEntry;
    SecondLookup(kind, lens, t, r.hold, link);
    ghost var R := r.Remaining();
    r.DropBits(link.bits);
    var here := t.table[link.val + r.Peek(link.op)];
    r.DropBits(here.bits);
    SliceSlice(R, link.bits, here.bits);
    e := IT.Entry(here.op, link.bits + here.bits, here.val);
  }
}

/**
  * Decoding a symbol from the bits at hand (dep/zlib/inflate.c, states CODELENS, LEN and DIST): a table look-up that
  * needs no more bits than there are gives the symbol that comes next in the stream.
  */
module SymbolReader {
  import opened Arith
  import opened Canonical
  import opened BitStream
  import opened Decoder
  import opened BlockData
  import IT = InflateTable

  /** Codes that `inflate_table` accepts: complete, or with at most one-bit words. */
  ghost predicate Accepted(lens: seq<nat>)
  {
    Kraft(lens) <= Pow2(MAXBITS) && (Kraft(lens) < Pow2(MAXBITS) ==> forall i: nat :: Used(lens, i) ==> lens[i] == 1)
  }

  lemma NotRefused(kind: IT.Kind, lens: seq<nat>)
    requires !IT.Refused(kind, lens)
    ensures Accepted(lens)
  {
    if forall i: nat :: !Used(lens, i) {
      NoSymbols(lens, MAXBITS + 1);
    } else if Kraft(lens) < Pow2(MAXBITS) {
      forall i: nat | Used(lens, i) ensures lens[i] == 1 { }
    }
  }

  lemma {:induction false} NoSymbols(lens: seq<nat>, l: nat)
    requires 1 <= l <= MAXBITS + 1 && forall i: nat :: !Used(lens, i)
    ensures Start(lens, l) == 0
  {
    if l != 1 {
      NoSymbols(lens, l - 1);
      if Count(lens, l - 1) > 0 {
        var i := FindRank(lens, |lens|, l - 1, 0);
        assert Used(lens, i);
      }
      ShlOne(MAXBITS + 1 - l);
    }
  }

  /** The symbol whose code word starts the bits `x`, if any. */
  lemma SymbolOf(kind: IT.Kind, lens: seq<nat>, t: seq<IT.Entry>, root: nat, x: nat) returns (s: Option<nat>)
    requires |lens| <= IT.MaxSymbols(kind) && IT.Decodes(kind, lens, t, root) && Accepted(lens)
    ensures s.Some? ==> Used(lens, s.value) && Low(x, lens[s.value]) == IT.Huff(lens, s.value)
                        && IT.Lookup(t, root, x) == IT.SymbolEntry(kind, s.value, lens[s.value])
    ensures s.None? ==> IT.Lookup(t, root, x) == IT.INVALID && Rev(x, MAXBITS) >= Kraft(lens)
  {
    var y := Rev(x, MAXBITS);
    if y < Kraft(lens) {
      var i := Covered(lens, y);
      IT.Match(lens, i, x);
      s := Some(i);
    } else {
      s := None;
    }
  }

  lemma {:induction false} ToBitsPrefix(x: nat, bits: nat, l: nat)
    requires l <= bits
    ensures ToBits(x, bits)[..l] == ToBits(Low(x, l), l)
  {
    if l != 0 {
      ToBitsPrefix(x / 2, bits - 1, l - 1);
      assert ToBits(x, bits)[..l] == [x % 2 == 1] + ToBits(x / 2, bits - 1)[..l - 1];
    }
  }

  /** The word of the symbol is in the stream. */
  lemma WordIsThere(lens: seq<nat>, i: nat, x: nat, bits: nat, all: Bits, pos: nat)
    requires Used(lens, i) && Kraft(lens) <= Pow2(MAXBITS) && Low(x, lens[i]) == IT.Huff(lens, i) && lens[i] <= bits
    requires At(all, pos, ToBits(x, bits))
    ensures At(all, pos, Word(lens, i))
  {
    var l := lens[i];
    IT.HuffIsRevCode(lens, i);
    ToBitsPrefix(x, bits, l);
    assert all[pos..pos + l] == all[pos..pos + bits][..l];
  }

  lemma SymbolIsNext(lens: seq<nat>, i: nat, x: nat, bits: nat, all: Bits, pos: nat)
    requires Used(lens, i) && Accepted(lens) && Low(x, lens[i]) == IT.Huff(lens, i) && lens[i] <= bits
    requires At(all, pos, ToBits(x, bits))
    ensures ReadSymbol(lens, all, pos) == Some(Read(i, pos + lens[i]))
  {
    WordIsThere(lens, i, x, bits, all, pos);
    KraftUnambiguous(lens);
    ReadWord(lens, all, pos, i);
  }

  lemma {:induction false} NoneFound(lens: seq<nat>, all: Bits, pos: nat, n: nat)
    requires n <= |lens| && forall i: nat {:trigger Used(lens, i)} :: i < n && Used(lens, i) ==>
             !At(all, pos, Word(lens, i))
    ensures FindSymbol(lens, all, pos, n) == None
  {
    if n != 0 { NoneFound(lens, all, pos, n - 1); }
  }

  /** A one-bit word that is in the stream would be in its interval. */
  lemma OneBitWord(lens: seq<nat>, i: nat, x: nat, bits: nat, all: Bits, pos: nat)
    requires Used(lens, i) && Accepted(lens) && lens[i] <= bits && At(all, pos, ToBits(x, bits))
    requires At(all, pos, Word(lens, i))
    ensures Rev(x, MAXBITS) < Kraft(lens)
  {
    var l := lens[i];
    WordIsHuff(lens, all, pos, i);
    AtLow(x, bits, all, pos, l);
    IT.Match(lens, i, x);
    PosBounds(lens, i);
  }

  lemma AtLow(x: nat, bits: nat, all: Bits, pos: nat, l: nat)
    requires l <= bits && At(all, pos, ToBits(x, bits))
    ensures Low(FromBits(all[pos..]), l) == Low(x, l)
  {
    ToBitsPrefix(x, bits, l);
    FromBitsLow(all[pos..], l);
    assert all[pos..][..l] == all[pos..pos + bits][..l];
    FromToBits(Low(x, l), l);
    LowLow(x, l, l);
  }

  /** No symbol is next when the look-up says so. */
  lemma NothingIsNext(lens: seq<nat>, x: nat, bits: nat, all: Bits, pos: nat)
    requires Accepted(lens) && Rev(x, MAXBITS) >= Kraft(lens) && bits >= 1 && At(all, pos, ToBits(x, bits))
    ensures ReadSymbol(lens, all, pos) == None
  {
    RevBound(x, MAXBITS);
    forall i: nat | i < |lens| && Used(lens, i) ensures !At(all, pos, Word(lens, i)) {
      if At(all, pos, Word(lens, i)) { OneBitWord(lens, i, x, bits, all, pos); }
    }
    NoneFound(lens, all, pos, |lens|);
  }
}

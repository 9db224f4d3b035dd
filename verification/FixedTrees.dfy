/**
  * The fixed codes (section 3.2.6 of RFC 1951) and the static trees that hold them (`tr_static_init` of
  * dep/zlib/trees.c).
  */
module FixedTrees {
  import opened Arith
  import opened Canonical
  import opened BitStream
  import opened Decoder
  import opened BlockData
  import opened BlockWriter
  import GC = GenCodes

  lemma {:induction false} CntRun(lens: seq<nat>, a: nat, b: nat, v: nat, l: nat)
    requires a <= b <= |lens| && forall i :: a <= i < b ==> lens[i] == v
    ensures Cnt(lens, b, l) == Cnt(lens, a, l) + (if l == v then b - a else 0)
    decreases b
  {
    if a < b { CntRun(lens, a, b - 1, v, l); }
  }

  lemma FixedCounts(l: nat)
    ensures Count(FixedL(), l) == if l == 7 then 24 else if l == 8 then 152 else if l == 9 then 112 else 0
    ensures Count(FixedD(), l) == if l == 5 then 32 else 0
  {
    var f := FixedL();
    CntRun(f, 0, 144, 8, l);
    CntRun(f, 144, 256, 9, l);
    CntRun(f, 256, 280, 7, l);
    CntRun(f, 280, 288, 8, l);
    CntRun(FixedD(), 0, 32, 5, l);
  }

  /** Lengths without codes do not move the start. */
  lemma {:induction false} StartStays(lens: seq<nat>, a: nat, b: nat)
    requires 1 <= a <= b <= MAXBITS + 1 && forall c :: a <= c < b ==> Count(lens, c) == 0
    ensures Start(lens, b) == Start(lens, a)
    decreases b
  {
    if a < b {
      StartStays(lens, a, b - 1);
      ShlOne(MAXBITS + 1 - b);
    }
  }

  lemma StartMoves(lens: seq<nat>, a: nat, n: nat, k: nat)
    requires 1 <= a <= MAXBITS && Count(lens, a) == n && k == MAXBITS - a
    ensures Start(lens, a + 1) == Start(lens, a) + n * Pow2(k)
  {
    ShlMul(n, k);
  }

  /** Both fixed codes are complete. */
  lemma FixedComplete()
    ensures Kraft(FixedL()) == Pow2(MAXBITS) && Kraft(FixedD()) == Pow2(MAXBITS)
  {
    FixedLComplete();
    FixedDComplete();
  }

  lemma FixedLComplete()
    ensures Kraft(FixedL()) == Pow2(MAXBITS)
  {
    var f := FixedL();
    forall l ensures Count(f, l) == if l == 7 then 24 else if l == 8 then 152 else if l == 9 then 112
        else 0 { FixedCounts(l); }
    StartStays(f, 1, 7);
    StartMoves(f, 7, 24, 8);
    StartMoves(f, 8, 152, 7);
    StartMoves(f, 9, 112, 6);
    StartStays(f, 10, MAXBITS + 1);
    assert Pow2(8) == 256 && Pow2(7) == 128 && Pow2(6) == 64 && Pow2(15) == 32768 by { assert Pow2(10) == 1024; }
  }

  lemma FixedDComplete()
    ensures Kraft(FixedD()) == Pow2(MAXBITS)
  {
    var f := FixedD();
    forall l ensures Count(f, l) == if l == 5 then 32 else 0 { FixedCounts(l); }
    StartStays(f, 1, 5);
    StartMoves(f, 5, 32, 10);
    StartStays(f, 6, MAXBITS + 1);
    assert Pow2(10) == 1024 && Pow2(15) == 32768;
  }

  lemma FixedUnambiguous()
    ensures PrefixCodes(FixedL(), FixedD())
  {
    FixedComplete();
    KraftUnambiguous(FixedL());
    KraftUnambiguous(FixedD());
  }

  /** The distance codes are the distance symbols themselves. */
  lemma FixedDCode(n: nat)
    requires n < 32
    ensures Code(FixedD(), n) == n
  {
    var f := FixedD();
    forall l ensures Count(f, l) == if l == 5 then 32 else 0 { FixedCounts(l); }
    FirstIsZero(f, 5);
    CntRun(f, 0, n, 5, 5);
  }

  lemma {:induction false} FirstIsZero(lens: seq<nat>, l: nat)
    requires forall c :: 1 <= c < l ==> Count(lens, c) == 0
    ensures NextCode(lens, l) == 0
  {
    if l != 0 { FirstIsZero(lens, l - 1); }
  }

  // ---------------------------------------------------------------- building the static trees

  /** Gives the symbols from `from` on, below `to`, the length `l`. */
  method SetLengths(dl: array<nat>, blCount: array<nat>, from: nat, to: nat, l: nat, ghost lens: seq<nat>)
    requires dl != blCount && from <= to <= dl.Length == |lens| && 1 <= l <= MAXBITS < blCount.Length
    requires (forall i :: from <= i < to ==> lens[i] == l) && forall i :: 0 <= i < from ==> dl[i] == lens[i]
    requires blCount[0] == 0 && forall b {:trigger blCount[b]} :: 1 <= b <= MAXBITS ==> blCount[b] == Cnt(lens, from, b)
    modifies dl, blCount
    ensures forall i :: 0 <= i < to ==> dl[i] == lens[i]
    ensures blCount[0] == 0 && forall b {:trigger blCount[b]} :: 1 <= b <= MAXBITS ==> blCount[b] == Cnt(lens, to, b)
  {
    var n: nat := from;
    while n < to
      invariant from <= n <= to && blCount[0] == 0
      invariant forall i :: 0 <= i < n ==> dl[i] == lens[i]
      invariant forall b {:trigger blCount[b]} :: 1 <= b <= MAXBITS ==> blCount[b] == Cnt(lens, n, b)
    {
      dl[n] := l;
      blCount[l] := blCount[l] + 1;
      n := n + 1;
    }
  }

  /** The static literal/length tree. */
  method StaticLTree() returns (t: CodeTree)
    ensures Holds(t, FixedL()) && t.len == FixedL() && |t.code| == 288
  {
    hide Holds, FixedL, ValidLens;
    var fc, dl, blCount := new nat[288], new nat[288], new nat[MAXBITS + 1];
    ghost var lens := FixedL();
    FixedLengths(dl, blCount, lens);
    FixedLComplete();
    CodesOf(fc, dl, blCount, lens);
    t := CodeTree(fc[..], dl[..]);
    assert dl[..] == lens;
    HoldsAll(t, lens);
  }

  method CodesOf(fc: array<nat>, dl: array<nat>, blCount: array<nat>, ghost lens: seq<nat>)
    requires fc != dl && fc != blCount && blCount.Length == MAXBITS + 1 && 1 <= |lens| == dl.Length == fc.Length
    requires ValidLens(lens)
    requires (forall i :: 0 <= i < |lens| ==> dl[i] == lens[i]) && Kraft(lens) == Pow2(MAXBITS)
    requires blCount[0] == 0 && forall b {:trigger blCount[b]} :: 1 <= b <= MAXBITS ==>
             blCount[b] == Cnt(lens, |lens|, b)
    modifies fc
    ensures forall i :: 0 <= i < |lens| && lens[i] != 0 ==> fc[i] == Rev(Code(lens, i), lens[i])
  {
    forall b | 1 <= b <= MAXBITS ensures blCount[b] == Count(lens, b) { }
    GC.GenCodes(fc, dl, dl.Length - 1, blCount, lens);
  }

  method FixedLengths(dl: array<nat>, blCount: array<nat>, ghost lens: seq<nat>)
    requires dl != blCount && dl.Length == 288 && blCount.Length == MAXBITS + 1 && lens == FixedL()
    modifies dl, blCount
    ensures forall i :: 0 <= i < 288 ==> dl[i] == lens[i]
    ensures blCount[0] == 0 && forall b {:trigger blCount[b]} :: 1 <= b <= MAXBITS ==> blCount[b] == Cnt(lens, 288, b)
  {
    for b := 0 to MAXBITS + 1
      invariant forall i :: 0 <= i < b ==> blCount[i] == 0
    {
      blCount[b] := 0;
    }
    SetLengths(dl, blCount, 0, 144, 8, lens);
    SetLengths(dl, blCount, 144, 256, 9, lens);
    SetLengths(dl, blCount, 256, 280, 7, lens);
    SetLengths(dl, blCount, 280, 288, 8, lens);
  }

  lemma HoldsAll(t: CodeTree, lens: seq<nat>)
    requires |t.code| == |lens| && t.len == lens && forall i :: 0 <= i < |lens| && lens[i] != 0 ==>
             t.code[i] == Rev(Code(lens, i), lens[i])
    ensures Holds(t, lens)
  {
    forall i: nat ensures WordFor(t, lens, i) {
      if Used(lens, i) { assert t.code[i] == Rev(Code(lens, i), lens[i]); }
    }
  }

  /** The static distance tree: 30 codes of five bits. */
  method StaticDTree() returns (t: CodeTree)
    ensures Holds(t, FixedD()) && |t.code| == 30 == |t.len| && forall i :: 0 <= i < 30 ==> t.len[i] == 5
  {
    var fc, dl := new nat[30], new nat[30];
    for n := 0 to 30
      invariant forall i :: 0 <= i < n ==> dl[i] == 5
      invariant forall i: nat {:trigger fc[i]} :: i < n ==> fc[i] == Rev(i, 5)
    {
      dl[n] := 5;
      fc[n] := GC.BiReverse(n, 5);
    }
    t := CodeTree(fc[..], dl[..]);
    forall i: nat ensures WordFor(t, FixedD(), i) {
      if Used(FixedD(), i) && i < 30 { FixedDCode(i); assert fc[i] == Rev(i, 5); }
    }
  }
}

/**
  * Code lengths from a Huffman tree (`gen_bitlen` of dep/zlib/trees.c): clamped depths, the repair of lengths that
  * are too long, and the exact cost in bits.
  */
module BitLengths {
  import opened Arith
  import opened Optimal
  import opened Forest
  import opened HuffmanTree
  import opened TreeDepth
  import LengthCounts

  // ---------------------------------------------------------------- leaves and their lengths

  function Mark(id: nat, l: nat, elems: nat, b: nat): nat
  {
    if id < elems && l == b then 1 else 0
  }

  function Marks(ids: seq<nat>, ls: seq<nat>, elems: nat, b: nat): (r: seq<nat>)
    requires |ids| == |ls|
    ensures |r| == |ids| && forall q :: 0 <= q < |ids| ==> r[q] == Mark(ids[q], ls[q], elems, b)
  {
    seq(|ids|, q requires 0 <= q < |ids| => Mark(ids[q], ls[q], elems, b))
  }

  /** How many leaves have length `b`. */
  function LeafCount(ids: seq<nat>, ls: seq<nat>, elems: nat, b: nat): nat
    requires |ids| == |ls|
  {
    Sum(Marks(ids, ls, elems, b))
  }

  /** The bits for all occurrences of one symbol: code and extra bits. */
  function SymbolBits(id: nat, l: nat, elems: nat, f: seq<nat>, x: seq<nat>): nat
  {
    if id < elems then Get(f, id) * (l + Get(x, id)) else 0
  }

  function AllBits(ids: seq<nat>, ls: seq<nat>, elems: nat, f: seq<nat>, x: seq<nat>): (r: seq<nat>)
    requires |ids| == |ls|
    ensures |r| == |ids| && forall q :: 0 <= q < |ids| ==> r[q] == SymbolBits(ids[q], ls[q], elems, f, x)
  {
    seq(|ids|, q requires 0 <= q < |ids| => SymbolBits(ids[q], ls[q], elems, f, x))
  }

  /** The bits for all symbols. */
  function BitCost(ids: seq<nat>, ls: seq<nat>, elems: nat, f: seq<nat>, x: seq<nat>): nat
    requires |ids| == |ls|
  {
    Sum(AllBits(ids, ls, elems, f, x))
  }

  lemma SumLast(s: seq<nat>, t: seq<nat>, x: nat)
    requires t == s + [x]
    ensures Sum(t) == Sum(s) + x
  {
    SumConcat(s, [x]);
    SumOne(x);
  }

  lemma LeafCountNext(ids: seq<nat>, ls: seq<nat>, id: nat, l: nat, elems: nat, b: nat)
    requires |ids| == |ls|
    ensures LeafCount(ids + [id], ls + [l], elems, b) == LeafCount(ids, ls, elems, b) + Mark(id, l, elems, b)
  {
    SumLast(Marks(ids, ls, elems, b), Marks(ids + [id], ls + [l], elems, b), Mark(id, l, elems, b));
  }

  lemma BitCostNext(ids: seq<nat>, ls: seq<nat>, id: nat, l: nat, elems: nat, f: seq<nat>, x: seq<nat>)
    requires |ids| == |ls|
    ensures BitCost(ids + [id], ls + [l], elems, f, x) == BitCost(ids, ls, elems, f, x) + SymbolBits(id, l, elems, f, x)
  {
    SumLast(AllBits(ids, ls, elems, f, x), AllBits(ids + [id], ls + [l], elems, f, x), SymbolBits(id, l, elems, f, x));
  }

  /** The counts of all lengths `0 .. m`. */
  function Counts(ids: seq<nat>, ls: seq<nat>, elems: nat, m: nat): (bl: seq<nat>)
    requires |ids| == |ls|
    ensures |bl| == m + 1 && forall b :: 0 <= b <= m ==> bl[b] == LeafCount(ids, ls, elems, b)
  {
    seq(m + 1, b requires 0 <= b <= m => LeafCount(ids, ls, elems, b))
  }

  function LeafSpaces(ids: seq<nat>, ls: seq<nat>, elems: nat, m: nat): (r: seq<nat>)
    requires |ids| == |ls|
    ensures |r| == |ids| && forall q :: 0 <= q < |ids| ==>
            r[q] == if ids[q] < elems then Pow2(m - Min2(ls[q], m)) else 0
  {
    seq(|ids|, q requires 0 <= q < |ids| => if ids[q] < elems then Pow2(m - Min2(ls[q], m)) else 0)
  }

  function Leaves01(ids: seq<nat>, elems: nat): (r: seq<nat>)
    ensures |r| == |ids| && forall q :: 0 <= q < |ids| ==> r[q] == if ids[q] < elems then 1 else 0
  {
    seq(|ids|, q requires 0 <= q < |ids| => if ids[q] < elems then 1 else 0)
  }

  /** The space and the number of the counts are those of the leaves themselves. */
  lemma {:induction false} CountsAreLeaves(ids: seq<nat>, ls: seq<nat>, elems: nat, m: nat)
    requires |ids| == |ls| && m >= 1
    requires forall q :: 0 <= q < |ids| && ids[q] < elems ==> 1 <= ls[q] <= m
    ensures LengthCounts.Space(Counts(ids, ls, elems, m), m, m) == Sum(LeafSpaces(ids, ls, elems, m))
    ensures LengthCounts.Total(Counts(ids, ls, elems, m), m) == Sum(Leaves01(ids, elems))
    decreases |ids|
  {
    hide *;
    if ids == [] { NoLeaves(ids, ls, elems, m); }
    else {
      var n := |ids| - 1;
      var ids', ls' := ids[..n], ls[..n];
      assert ids == ids' + [ids[n]] && ls == ls' + [ls[n]];
      CountsAreLeaves(ids', ls', elems, m);
      LeafSumsNext(ids', ls', ids[n], ls[n], elems, m);
      CountsNext(ids', ls', ids[n], ls[n], elems, m);
    }
  }

  lemma NoLeaves(ids: seq<nat>, ls: seq<nat>, elems: nat, m: nat)
    requires ids == [] && ls == [] && m >= 1
    ensures LengthCounts.Space(Counts(ids, ls, elems, m), m, m) == Sum(LeafSpaces(ids, ls, elems, m))
    ensures LengthCounts.Total(Counts(ids, ls, elems, m), m) == Sum(Leaves01(ids, elems))
  {
    var bl := Counts(ids, ls, elems, m);
    forall b | 0 <= b <= m ensures bl[b] == 0 { assert Marks(ids, ls, elems, b) == []; }
    NoCounts(bl, m, m);
  }

  lemma LeafSumsNext(ids: seq<nat>, ls: seq<nat>, id: nat, l: nat, elems: nat, m: nat)
    requires |ids| == |ls| && (id < elems ==> 1 <= l <= m)
    ensures Sum(LeafSpaces(ids + [id], ls + [l], elems, m)) == Sum(LeafSpaces(ids, ls, elems, m))
            + (if id < elems then Pow2(m - l) else 0)
    ensures Sum(Leaves01(ids + [id], elems)) == Sum(Leaves01(ids, elems)) + (if id < elems then 1 else 0)
  {
    SumLast(LeafSpaces(ids, ls, elems, m), LeafSpaces(ids + [id], ls + [l], elems, m), if id < elems then Pow2(m - l)
            else 0);
    SumLast(Leaves01(ids, elems), Leaves01(ids + [id], elems), if id < elems then 1 else 0);
  }

  lemma {:induction false} NoCounts(bl: seq<nat>, m: nat, b: nat)
    requires b <= m < |bl| && forall j :: 0 <= j <= b ==> bl[j] == 0
    ensures LengthCounts.Space(bl, m, b) == 0 && LengthCounts.Total(bl, b) == 0
  {
    if b != 0 {
      NoCounts(bl, m, b - 1);
      ShlOne(m - b);
    }
  }

  lemma CountsNext(ids: seq<nat>, ls: seq<nat>, id: nat, l: nat, elems: nat, m: nat)
    requires |ids| == |ls| && m >= 1 && (id < elems ==> 1 <= l <= m)
    ensures var bl, bl' := Counts(ids, ls, elems, m), Counts(ids + [id], ls + [l], elems, m);
      if id < elems then
        LengthCounts.Space(bl', m, m) == LengthCounts.Space(bl, m, m) + Pow2(m - l)
            && LengthCounts.Total(bl', m) == LengthCounts.Total(bl, m) + 1
      else
        LengthCounts.Space(bl', m, m) == LengthCounts.Space(bl, m, m)
            && LengthCounts.Total(bl', m) == LengthCounts.Total(bl, m)
  {
    var bl, bl' := Counts(ids, ls, elems, m), Counts(ids + [id], ls + [l], elems, m);
    forall b | 0 <= b <= m ensures bl'[b] == bl[b] + Mark(id, l, elems, b) {
      LeafCountNext(ids, ls, id, l, elems, b);
    }
    if id < elems { LengthCounts.SpaceAdd(bl, bl', m, m, l); }
    else { LengthCounts.SpaceFrame(bl, bl', m, m); }
  }
}

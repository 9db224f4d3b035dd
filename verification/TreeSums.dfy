/**
  * Sums over the nodes of a tree, over its leaves and over all symbols: the same quantity seen by `gen_bitlen`, by
  * the Huffman tree, and by the code that uses the lengths.
  */
module TreeSums {
  import opened Arith
  import opened Optimal
  import opened Forest
  import opened HuffmanTree
  import opened TreeDepth
  import opened BitLengths
  import Canonical

  /** Nodes from `elems` on contribute nothing. */
  ghost predicate OnLeaves(table: seq<nat>, elems: nat)
  {
    forall x: nat {:trigger Get(table, x)} :: x >= elems ==> Get(table, x) == 0
  }

  lemma OverLeaves(order: seq<nat>, syms: seq<nat>, elems: nat, node: nat, table: seq<nat>)
    requires elems <= node && multiset(order) == multiset(syms) + multiset(Range(elems, node)) && OnLeaves(table, elems)
    ensures Sum(Weights(order, table)) == Sum(Weights(syms, table))
  {
    var r := Range(elems, node);
    assert multiset(order) == multiset(syms + r);
    WeightsMultiset(order, syms + r, table);
    SumMultiset(Weights(order, table), Weights(syms + r, table));
    WeightsConcat(syms, r, table);
    SumConcat(Weights(syms, table), Weights(r, table));
    NoCost(Weights(r, table));
  }

  /** The symbols below `n` that occur, in ascending order. */
  function Occurring(f: seq<nat>, n: nat): (r: seq<nat>)
    ensures forall x :: x in r <==> 0 <= x < n && Get(f, x) != 0
  {
    if n == 0 then [] else if Get(f, n - 1) != 0 then Occurring(f, n - 1) + [n - 1] else Occurring(f, n - 1)
  }

  lemma {:induction false} OccurringNoDup(f: seq<nat>, n: nat)
    ensures NoDup(Occurring(f, n))
  {
    if n != 0 {
      OccurringNoDup(f, n - 1);
      var s := Occurring(f, n - 1);
      assert forall i :: 0 <= i < |s| ==> s[i] in s;
    }
  }

  lemma SameElements(a: seq<nat>, b: seq<nat>)
    requires NoDup(a) && NoDup(b) && forall x :: x in a <==> x in b
    ensures multiset(a) == multiset(b)
  {
    forall x ensures multiset(a)[x] == multiset(b)[x] {
      OnceIn(a, x);
      OnceIn(b, x);
      assert x in a <==> x in multiset(a);
      assert x in b <==> x in multiset(b);
    }
  }

  /** The sum of the first `n` entries. */
  function Prefix(table: seq<nat>, n: nat): nat
  {
    if n == 0 then 0 else Prefix(table, n - 1) + Get(table, n - 1)
  }

  lemma {:induction false} OverOccurring(f: seq<nat>, n: nat, table: seq<nat>)
    requires forall x: nat {:trigger Get(table, x)} :: x < n && Get(f, x) == 0 ==> Get(table, x) == 0
    ensures Sum(Weights(Occurring(f, n), table)) == Prefix(table, n)
  {
    if n != 0 {
      OverOccurring(f, n - 1, table);
      if Get(f, n - 1) != 0 {
        SumLast(Weights(Occurring(f, n - 1), table), Weights(Occurring(f, n), table), Get(table, n - 1));
      }
    }
  }

  /** `syms` lists the symbols that occur. */
  ghost predicate Lists(syms: seq<nat>, f: seq<nat>, elems: nat)
  {
    NoDup(syms) && forall x: nat :: x in syms <==> x < elems && Get(f, x) != 0
  }

  lemma OverSymbols(syms: seq<nat>, f: seq<nat>, elems: nat, table: seq<nat>)
    requires Lists(syms, f, elems)
    requires forall x: nat {:trigger Get(table, x)} :: x < elems && Get(f, x) == 0 ==> Get(table, x) == 0
    ensures Sum(Weights(syms, table)) == Prefix(table, elems)
  {
    var o := Occurring(f, elems);
    OccurringNoDup(f, elems);
    SameElements(syms, o);
    WeightsMultiset(syms, o, table);
    SumMultiset(Weights(syms, table), Weights(o, table));
    OverOccurring(f, elems, table);
  }

  // ---------------------------------------------------------------- the tables

  function MarkTable(len: seq<nat>, elems: nat, b: nat): (r: seq<nat>)
    ensures |r| == elems && forall x: nat :: Get(r, x) == Mark(x, Get(len, x), elems, b)
  {
    seq(elems, x requires 0 <= x < elems => Mark(x, Get(len, x), elems, b))
  }

  lemma MarksAreTable(order: seq<nat>, len: seq<nat>, elems: nat, b: nat)
    ensures Marks(order, Weights(order, len), elems, b) == Weights(order, MarkTable(len, elems, b))
  {
  }

  function BitsTable(len: seq<nat>, elems: nat, f: seq<nat>, x: seq<nat>): (r: seq<nat>)
    ensures |r| == elems && forall n: nat :: Get(r, n) == SymbolBits(n, Get(len, n), elems, f, x)
  {
    seq(elems, n requires 0 <= n < elems => SymbolBits(n, Get(len, n), elems, f, x))
  }

  lemma BitsAreTable(order: seq<nat>, len: seq<nat>, elems: nat, f: seq<nat>, x: seq<nat>)
    ensures AllBits(order, Weights(order, len), elems, f, x) == Weights(order, BitsTable(len, elems, f, x))
  {
  }

  function SpacesTable(len: seq<nat>, elems: nat, m: nat): (r: seq<nat>)
    ensures |r| == elems && forall n: nat :: Get(r, n) == if n < elems then Pow2(m - Min2(Get(len, n), m)) else 0
  {
    seq(elems, n requires 0 <= n < elems => Pow2(m - Min2(Get(len, n), m)))
  }

  lemma SpacesAreTable(order: seq<nat>, len: seq<nat>, elems: nat, m: nat)
    ensures LeafSpaces(order, Weights(order, len), elems, m) == Weights(order, SpacesTable(len, elems, m))
  {
  }

  function OnesTable(elems: nat): (r: seq<nat>)
    ensures |r| == elems && forall n: nat :: Get(r, n) == if n < elems then 1 else 0
  {
    seq(elems, n requires 0 <= n < elems => 1)
  }

  lemma {:induction false} OnesSum(s: seq<nat>)
    requires forall i :: 0 <= i < |s| ==> s[i] == 1
    ensures Sum(s) == |s|
    decreases |s|
  {
    if s != [] { OnesSum(s[..|s| - 1]); }
  }

  /** The number of leaves is the number of symbols. */
  lemma LeafNumber(order: seq<nat>, syms: seq<nat>, elems: nat, node: nat)
    requires elems <= node && multiset(order) == multiset(syms) + multiset(Range(elems, node))
    requires forall x :: x in syms ==> x < elems
    ensures Sum(Leaves01(order, elems)) == |syms|
  {
    var table := OnesTable(elems);
    assert Leaves01(order, elems) == Weights(order, table);
    OverLeaves(order, syms, elems, node, table);
    assert forall i :: 0 <= i < |syms| ==> syms[i] in syms;
    OnesSum(Weights(syms, table));
  }

  // ---------------------------------------------------------------- sums over all symbols

  /** Bits for all occurrences of the symbols below `n`: the frequency times code and extra bits. */
  function TotalBits(f: seq<nat>, len: seq<nat>, x: seq<nat>, n: nat): nat
  {
    if n == 0 then 0 else TotalBits(f, len, x, n - 1) + Get(f, n - 1) * (Get(len, n - 1) + Get(x, n - 1))
  }

  lemma {:induction false} TotalIsPrefix(f: seq<nat>, len: seq<nat>, x: seq<nat>, elems: nat, n: nat)
    requires n <= elems
    ensures TotalBits(f, len, x, n) == Prefix(BitsTable(len, elems, f, x), n)
  {
    if n != 0 { TotalIsPrefix(f, len, x, elems, n - 1); }
  }

  lemma {:induction false} CntIsPrefix(len: seq<nat>, lens: seq<nat>, elems: nat, b: nat, n: nat)
    requires n <= elems == |lens| && forall i :: 0 <= i < elems ==> lens[i] == Get(len, i)
    ensures Canonical.Cnt(lens, n, b) == Prefix(MarkTable(len, elems, b), n)
  {
    if n != 0 { CntIsPrefix(len, lens, elems, b, n - 1); }
  }

  lemma CostIsTotal(order: seq<nat>, syms: seq<nat>, elems: nat, node: nat, len: seq<nat>, f: seq<nat>, x: seq<nat>)
    requires elems <= node && multiset(order) == multiset(syms) + multiset(Range(elems, node)) && Lists(syms, f, elems)
    ensures BitCost(order, Weights(order, len), elems, f, x) == TotalBits(f, len, x, elems)
  {
    var table := BitsTable(len, elems, f, x);
    BitsAreTable(order, len, elems, f, x);
    OverLeaves(order, syms, elems, node, table);
    forall n: nat | n < elems && Get(f, n) == 0 ensures Get(table, n)
        == 0 { assert Get(table, n) == Get(f, n) * (Get(len, n) + Get(x, n)); }
    OverSymbols(syms, f, elems, table);
    TotalIsPrefix(f, len, x, elems, elems);
  }

  lemma CountIsCnt(order: seq<nat>, syms: seq<nat>, elems: nat, node: nat, len: seq<nat>, f: seq<nat>, lens: seq<nat>,
                   b: nat)
    requires elems <= node && multiset(order) == multiset(syms) + multiset(Range(elems, node)) && Lists(syms, f, elems)
    requires |lens| == elems && forall i :: 0 <= i < elems ==>
             lens[i] == Get(len, i) && (Get(f, i) == 0 ==> lens[i] == 0)
    requires b >= 1
    ensures LeafCount(order, Weights(order, len), elems, b) == Canonical.Count(lens, b)
  {
    var table := MarkTable(len, elems, b);
    MarksAreTable(order, len, elems, b);
    OverLeaves(order, syms, elems, node, table);
    OverSymbols(syms, f, elems, table);
    CntIsPrefix(len, lens, elems, b, elems);
  }
}

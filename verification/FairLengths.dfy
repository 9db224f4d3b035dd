/**
  * Rarer symbols get the longer codes (`gen_bitlen` of dep/zlib/trees.c): because the lengths cost as little as
  * Huffman's merges, or, where codes had to be shortened, because the lengths are handed out in the order of the
  * merges.
  */
module FairLengths {
  import opened Arith
  import opened Optimal
  import opened Forest
  import opened HuffmanTree
  import opened BitLengths
  import opened TreeSums
  import opened GenBitlen
  import RA = Reassign
  import LC = LengthCounts

  /** Of two of the symbols, the more frequent one has no longer code. */
  ghost predicate Fair(syms: seq<nat>, f: seq<nat>, len: seq<nat>)
  {
    forall a, b {:trigger a in syms, b in syms} :: a in syms && b in syms && Get(f, b) < Get(f, a) ==>
      Get(len, a) <= Get(len, b)
  }

  /** The tree's nodes are the symbols and the inner nodes. */
  ghost predicate Listed(order: seq<nat>, syms: seq<nat>, elems: nat, node: nat)
  {
    && elems <= node && multiset(order) == multiset(syms) + multiset(Range(elems, node))
    && forall x :: x in syms ==> x < elems
  }

  lemma Place(order: seq<nat>, syms: seq<nat>, elems: nat, node: nat, a: nat) returns (p: nat)
    requires Listed(order, syms, elems, node) && a in syms
    ensures p < |order| && order[p] == a < elems
  {
    assert a in multiset(syms);
    assert a in multiset(order);
    p :| 0 <= p < |order| && order[p] == a;
  }

  lemma Earlier(order: seq<nat>, f: seq<nat>, p: nat, q: nat)
    requires Descending(order, f) && p < |order| && q < |order| && Get(f, order[q]) < Get(f, order[p])
    ensures p < q
  {
  }

  /** Where the lengths rise along the order of the merges. */
  lemma RisingIsFair(order: seq<nat>, syms: seq<nat>, elems: nat, node: nat, f: seq<nat>, len: seq<nat>)
    requires Listed(order, syms, elems, node) && Descending(order, f) && RA.Rising(order, len, elems, 1)
    ensures Fair(syms, f, len)
  {
    hide Listed;
    forall a, b | a in syms && b in syms && Get(f, b) < Get(f, a) ensures Get(len, a) <= Get(len, b) {
      var p := Place(order, syms, elems, node, a);
      var q := Place(order, syms, elems, node, b);
      Earlier(order, f, p, q);
    }
  }

  /** Exchanging the lengths of a frequent and a rare symbol would save bits. */
  lemma Exchanged(ws: seq<nat>, ls: seq<nat>, m: nat, i: nat, k: nat)
    requires |ws| == |ls| && i < |ls| && k < |ls| && ws[k] < ws[i] && Codeable(ls, m)
    requires Cost(ws, ls) == Huffman(multiset(ws))
    ensures ls[i] <= ls[k]
  {
    hide Codeable, Cost, Huffman, KraftSum;
    var u, v := ls[i], ls[k];
    var l1 := ls[i := v];
    var l2 := l1[k := u];
    CostUpdate(ws, ls, i, v);
    CostUpdate(ws, l1, k, u);
    StillCodeable(ls, m, i, k);
    LowerBound(ws, l2, m);
    if u > v { Gain(ws[i], ws[k], u, v); }
  }

  lemma StillCodeable(ls: seq<nat>, m: nat, i: nat, k: nat)
    requires i < |ls| && k < |ls| && i != k && Codeable(ls, m)
    ensures Codeable(ls[i := ls[k]][k := ls[i]], m)
  {
    SpaceUpdate(ls, m, i, ls[k]);
    SpaceUpdate(ls[i := ls[k]], m, k, ls[i]);
  }

  lemma Gain(a: nat, b: nat, u: nat, v: nat)
    requires b < a && v < u
    ensures a * v + b * u < a * u + b * v
  {
    assert (a - b) * (u - v) > 0;
    assert (a - b) * (u - v) == a * u - a * v - b * u + b * v;
  }

  /** The lengths of the symbols form a code. */
  lemma SymbolsCodeable(order: seq<nat>, syms: seq<nat>, elems: nat, node: nat, len: seq<nat>, bl: seq<nat>, m: nat)
    requires Listed(order, syms, elems, node) && Lengthened(order, len, bl, elems, m)
    ensures Codeable(Weights(syms, len), m)
  {
    var ls, table := Weights(syms, len), SpacesTable(len, elems, m);
    forall i | 0 <= i < |syms| ensures ls[i] <= m && Spaces(ls, m)[i] == Weights(syms, table)[i] {
      assert syms[i] in syms;
      var p := Place(order, syms, elems, node, syms[i]);
      assert order[p] == syms[i];
    }
    CountsSpace(order, len, elems, m, bl);
    SpacesAreTable(order, len, elems, m);
    OverLeaves(order, syms, elems, node, table);
    assert Spaces(ls, m) == Weights(syms, table);
  }

  /** The cost of the symbols. */
  lemma SymbolsCost(order: seq<nat>, syms: seq<nat>, elems: nat, node: nat, len: seq<nat>, f: seq<nat>)
    requires Listed(order, syms, elems, node)
    ensures Cost(Weights(syms, f), Weights(syms, len)) == BitCost(order, Weights(order, len), elems, f, [])
  {
    var table := BitsTable(len, elems, f, []);
    BitsAreTable(order, len, elems, f, []);
    OverLeaves(order, syms, elems, node, table);
    assert forall i :: 0 <= i < |syms| ==> syms[i] in syms;
    assert Products(Weights(syms, f), Weights(syms, len)) == Weights(syms, table);
  }

  /** Where the lengths are optimal. */
  lemma OptimalIsFair(order: seq<nat>, syms: seq<nat>, elems: nat, node: nat, f: seq<nat>, len: seq<nat>, bl: seq<nat>,
                      m: nat)
    requires Listed(order, syms, elems, node) && Lengthened(order, len, bl, elems, m)
    requires BitCost(order, Weights(order, len), elems, f, []) == Huffman(multiset(Weights(syms, f)))
    ensures Fair(syms, f, len)
  {
    hide Listed, Lengthened, Codeable, Cost, Huffman;
    SymbolsCodeable(order, syms, elems, node, len, bl, m);
    SymbolsCost(order, syms, elems, node, len, f);
    forall a, b | a in syms && b in syms && Get(f, b) < Get(f, a) ensures Get(len, a) <= Get(len, b) {
      var i :| 0 <= i < |syms| && syms[i] == a;
      var k :| 0 <= k < |syms| && syms[k] == b;
      Exchanged(Weights(syms, f), Weights(syms, len), m, i, k);
    }
  }
}

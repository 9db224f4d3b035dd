/**
  * Depths in a Huffman tree, clamped to the longest length that may be sent: what the first pass of `gen_bitlen`
  * (dep/zlib/trees.c) computes, read off the tree.
  */
module TreeDepth {
  import opened Arith
  import opened Optimal
  import opened Forest

  function Min2(a: nat, b: nat): nat
  {
    if a <= b then a else b
  }

  /** `len` holds the clamped depth of every node of the subtree at depth `d`. */
  ghost predicate LensAre(t: Tree, d: nat, m: nat, len: seq<nat>)
  {
    Get(len, t.id) == Min2(d, m) && (t.Node? ==> LensAre(t.left, d + 1, m, len) && LensAre(t.right, d + 1, m, len))
  }

  /** Every son is one deeper than its father, unless the limit is reached. */
  ghost predicate StepsDown(t: Tree, m: nat, len: seq<nat>)
  {
    t.Node? ==>
      && Get(len, t.left.id) == Min2(Get(len, t.id) + 1, m) == Get(len, t.right.id)
      && StepsDown(t.left, m, len) && StepsDown(t.right, m, len)
  }

  lemma {:induction false} DepthsFollow(t: Tree, d: nat, m: nat, len: seq<nat>)
    requires StepsDown(t, m, len) && Get(len, t.id) == Min2(d, m)
    ensures LensAre(t, d, m, len)
  {
    if t.Node? {
      DepthsFollow(t.left, d + 1, m, len);
      DepthsFollow(t.right, d + 1, m, len);
    }
  }

  // ---------------------------------------------------------------- quantities over all nodes

  /** The code space that the leaves take with clamped depths, in units of 2^-m. */
  function LeafSpace(t: Tree, d: nat, m: nat): nat
  {
    match t
    case Leaf(_) => Pow2(m - Min2(d, m))
    case Node(_, l, r) => LeafSpace(l, d + 1, m) + LeafSpace(r, d + 1, m)
  }

  /** The number of nodes below the limit. */
  function Overflow(t: Tree, d: nat, m: nat): nat
  {
    (if d > m then 1 else 0)
    + (match t case Leaf(_) => 0 case Node(_, l, r) => Overflow(l, d + 1, m) + Overflow(r, d + 1, m))
  }

  /** The number of leaves that get the longest length. */
  function Deepest(t: Tree, d: nat, m: nat): nat
  {
    match t
    case Leaf(_) => if d >= m then 1 else 0
    case Node(_, l, r) => Deepest(l, d + 1, m) + Deepest(r, d + 1, m)
  }

  /** Weight times depth over the leaves. */
  function LeafBits(t: Tree, d: nat, f: seq<nat>): nat
  {
    match t
    case Leaf(id) => Get(f, id) * d
    case Node(_, l, r) => LeafBits(l, d + 1, f) + LeafBits(r, d + 1, f)
  }

  /** Clamping creates an excess of exactly half the number of overflowing nodes. */
  lemma {:induction false} ExcessIsHalfOverflow(t: Tree, d: nat, m: nat)
    ensures d <= m ==> 2 * LeafSpace(t, d, m) == 2 * Pow2(m - d) + Overflow(t, d, m)
    ensures d > m ==> 2 * LeafSpace(t, d, m) == Overflow(t, d, m) + 1
  {
    if t.Node? {
      ExcessIsHalfOverflow(t.left, d + 1, m);
      ExcessIsHalfOverflow(t.right, d + 1, m);
    }
  }

  /** There are enough leaves of the longest length to repair the excess. */
  lemma {:induction false} DeepestSuffice(t: Tree, d: nat, m: nat)
    ensures d <= m ==> 2 * Deepest(t, d, m) >= Overflow(t, d, m) + (if Overflow(t, d, m) > 0 then 2 else 0)
    ensures d > m ==> 2 * Deepest(t, d, m) == Overflow(t, d, m) + 1
  {
    if t.Node? {
      DeepestSuffice(t.left, d + 1, m);
      DeepestSuffice(t.right, d + 1, m);
    }
  }

  /** The bits spent on the leaves are the frequencies of the inner nodes. */
  lemma {:induction false} BitsAreCost(t: Tree, d: nat, f: seq<nat>, dad: seq<nat>, elems: nat, node: nat)
    requires Good(t, f, dad, elems, node)
    ensures LeafBits(t, d, f) == TreeCost(t, f) + Get(f, t.id) * d
  {
    if t.Node? {
      BitsAreCost(t.left, d + 1, f, dad, elems, node);
      BitsAreCost(t.right, d + 1, f, dad, elems, node);
      OneDeeper(Get(f, t.left.id), Get(f, t.right.id), d);
    }
  }

  lemma OneDeeper(a: nat, b: nat, d: nat)
    ensures a * (d + 1) + b * (d + 1) == (a + b) * d + (a + b)
  {
  }

  // ---------------------------------------------------------------- sums over the nodes in any order

  /** Sums over the nodes do not depend on the order. */
  lemma SumOverTree(t: Tree, order: seq<nat>, table: seq<nat>)
    requires multiset(IdList(t)) == multiset(order)
    ensures Sum(Weights(order, table)) == Sum(Weights(IdList(t), table))
  {
    WeightsMultiset(order, IdList(t), table);
    SumMultiset(Weights(order, table), Weights(IdList(t), table));
  }

  lemma NodeSum(t: Tree, table: seq<nat>)
    ensures t.Leaf? ==> Sum(Weights(IdList(t), table)) == Get(table, t.id)
    ensures t.Node? ==> Sum(Weights(IdList(t), table))
                        == Get(table, t.id) + Sum(Weights(IdList(t.left), table)) + Sum(Weights(IdList(t.right), table))
  {
    SumOne(Get(table, t.id));
    assert Weights([t.id], table) == [Get(table, t.id)];
    if t.Node? {
      var a, b := IdList(t.left), IdList(t.right);
      WeightsConcat([t.id], a + b, table);
      WeightsConcat(a, b, table);
      SumConcat(Weights([t.id], table), Weights(a + b, table));
      SumConcat(Weights(a, table), Weights(b, table));
    }
  }

  /** A table that gives every leaf its space and every inner node nothing. */
  ghost predicate SpaceTable(table: seq<nat>, len: seq<nat>, elems: nat, m: nat)
  {
    forall x: nat {:trigger Get(table, x)} :: Get(table, x) == if x < elems then Pow2(m - Min2(Get(len, x), m)) else 0
  }

  ghost predicate DeepTable(table: seq<nat>, len: seq<nat>, elems: nat, m: nat)
  {
    forall x: nat {:trigger Get(table, x)} :: Get(table, x) == if x < elems && Get(len, x) == m then 1 else 0
  }

  ghost predicate OverTable(t: Tree, d: nat, m: nat, table: seq<nat>)
  {
    Get(table, t.id) == (if d > m then 1 else 0)
        && (t.Node? ==> OverTable(t.left, d + 1, m, table) && OverTable(t.right, d + 1, m, table))
  }

  lemma {:induction false} SpaceSum(t: Tree, d: nat, m: nat, len: seq<nat>, table: seq<nat>, f: seq<nat>, dad: seq<nat>,
                                    elems: nat, node: nat)
    requires LensAre(t, d, m, len) && SpaceTable(table, len, elems, m) && Good(t, f, dad, elems, node)
    ensures Sum(Weights(IdList(t), table)) == LeafSpace(t, d, m)
  {
    NodeSum(t, table);
    if t.Node? {
      SpaceSum(t.left, d + 1, m, len, table, f, dad, elems, node);
      SpaceSum(t.right, d + 1, m, len, table, f, dad, elems, node);
    }
  }

  lemma {:induction false} DeepSum(t: Tree, d: nat, m: nat, len: seq<nat>, table: seq<nat>, f: seq<nat>, dad: seq<nat>,
                                   elems: nat, node: nat)
    requires LensAre(t, d, m, len) && DeepTable(table, len, elems, m) && Good(t, f, dad, elems, node)
    ensures Sum(Weights(IdList(t), table)) == Deepest(t, d, m)
  {
    NodeSum(t, table);
    if t.Node? {
      DeepSum(t.left, d + 1, m, len, table, f, dad, elems, node);
      DeepSum(t.right, d + 1, m, len, table, f, dad, elems, node);
    }
  }

  lemma {:induction false} OverSum(t: Tree, d: nat, m: nat, table: seq<nat>)
    requires OverTable(t, d, m, table)
    ensures Sum(Weights(IdList(t), table)) == Overflow(t, d, m)
  {
    NodeSum(t, table);
    if t.Node? {
      OverSum(t.left, d + 1, m, table);
      OverSum(t.right, d + 1, m, table);
    }
  }

  /** Without overflow the clamped depths are the depths. */
  lemma {:induction false} BitsSum(t: Tree, d: nat, m: nat, len: seq<nat>, table: seq<nat>, f: seq<nat>, dad: seq<nat>,
                                   elems: nat, node: nat)
    requires LensAre(t, d, m, len) && Good(t, f, dad, elems, node) && Overflow(t, d, m) == 0
    requires forall x: nat {:trigger Get(table, x)} :: Get(table, x) == if x < elems then Get(f, x) * Get(len, x) else 0
    ensures Sum(Weights(IdList(t), table)) == LeafBits(t, d, f)
  {
    NodeSum(t, table);
    if t.Node? {
      BitsSum(t.left, d + 1, m, len, table, f, dad, elems, node);
      BitsSum(t.right, d + 1, m, len, table, f, dad, elems, node);
    }
  }
}

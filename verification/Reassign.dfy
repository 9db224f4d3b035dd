/**
  * The second pass of `gen_bitlen` (dep/zlib/trees.c), after a repair of the counts: the leaves are visited backwards
  * and get the lengths that the counts prescribe, the longest first.
  */
module Reassign {
  import opened Arith
  import opened Optimal
  import opened Forest
  import opened TreeDepth
  import opened BitLengths
  import opened LengthCounts

  function LeavesIn(ids: seq<nat>, elems: nat): nat
  {
    Sum(Leaves01(ids, elems))
  }

  /** The count of leaves of each length among the visited ones: full above `b`, all but `n` at `b`. */
  ghost predicate Level(ids: seq<nat>, len: seq<nat>, elems: nat, bl: seq<nat>, m: nat, b: nat, n: nat)
    requires m < |bl|
  {
    forall c :: 1 <= c <= m ==>
      LeafCount(ids, Weights(ids, len), elems, c) == (if c > b then bl[c] else if c == b then bl[c] - n else 0)
  }

  ghost predicate LeafLens(ids: seq<nat>, len: seq<nat>, elems: nat, m: nat)
  {
    forall q :: 0 <= q < |ids| && ids[q] < elems ==> 1 <= Get(len, ids[q]) <= m
  }

  /** No leaf has a longer code than one behind it, and all have at least `b` bits. */
  ghost predicate Rising(ids: seq<nat>, len: seq<nat>, elems: nat, b: nat)
  {
    && (forall q {:trigger ids[q]} :: 0 <= q < |ids| && ids[q] < elems ==> b <= Get(len, ids[q]))
    && forall p, q {:trigger ids[p], ids[q]} :: 0 <= p < q < |ids| && ids[p] < elems && ids[q] < elems ==>
      Get(len, ids[p]) <= Get(len, ids[q])
  }

  /** Another node in front; a leaf must be as short as possible. */
  lemma RisingFront(id: nat, ids: seq<nat>, len: seq<nat>, elems: nat, b: nat)
    requires Rising(ids, len, elems, b) && (id < elems ==> Get(len, id) == b)
    ensures Rising([id] + ids, len, elems, b)
  {
    hide Get;
    var all := [id] + ids;
    forall q | 0 <= q < |all| && all[q] < elems ensures b <= Get(len, all[q]) {
      if q > 0 { assert all[q] == ids[q - 1]; }
    }
    forall p, q | 0 <= p < q < |all| && all[p] < elems && all[q] < elems ensures Get(len, all[p]) <= Get(len, all[q]) {
      assert all[q] == ids[q - 1];
      if p > 0 { assert all[p] == ids[p - 1]; }
    }
  }

  lemma RisingNext(id: nat, ids: seq<nat>, len: seq<nat>, len': seq<nat>, elems: nat, b: nat)
    requires Rising(ids, len, elems, b) && id < |len| && id !in ids && len' == len[id := b]
    ensures Rising([id] + ids, len', elems, b)
  {
    forall q | 0 <= q < |ids| ensures Get(len', ids[q]) == Get(len, ids[q]) { assert ids[q] in ids; }
    RisingSame(ids, len, len', elems, b);
    RisingFront(id, ids, len', elems, b);
  }

  lemma RisingSame(ids: seq<nat>, len: seq<nat>, len': seq<nat>, elems: nat, b: nat)
    requires Rising(ids, len, elems, b) && forall q :: 0 <= q < |ids| ==> Get(len', ids[q]) == Get(len, ids[q])
    ensures Rising(ids, len', elems, b)
  {
    hide Get;
  }

  lemma RisingLess(ids: seq<nat>, len: seq<nat>, elems: nat, b: nat, c: nat)
    requires Rising(ids, len, elems, b) && c <= b
    ensures Rising(ids, len, elems, c)
  {
  }

  /** In front of the leaves there are inner nodes only. */
  lemma RisingAll(a: seq<nat>, b: seq<nat>, len: seq<nat>, elems: nat, c: nat)
    requires Rising(b, len, elems, c) && forall q :: 0 <= q < |a| ==> a[q] >= elems
    ensures Rising(a + b, len, elems, c)
  {
    var all := a + b;
    forall q | 0 <= q < |all| && all[q] < elems ensures c <= Get(len, all[q]) { assert all[q] == b[q - |a|]; }
    forall p, q | 0 <= p < q < |all| && all[p] < elems && all[q] < elems ensures Get(len, all[p]) <= Get(len, all[q]) {
      assert all[q] == b[q - |a|] && all[p] == b[p - |a|];
    }
  }

  lemma LeafCountFirst(id: nat, ids: seq<nat>, l: nat, ls: seq<nat>, elems: nat, b: nat)
    requires |ids| == |ls|
    ensures LeafCount([id] + ids, [l] + ls, elems, b) == Mark(id, l, elems, b) + LeafCount(ids, ls, elems, b)
  {
    assert Marks([id] + ids, [l] + ls, elems, b) == [Mark(id, l, elems, b)] + Marks(ids, ls, elems, b);
    SumConcat([Mark(id, l, elems, b)], Marks(ids, ls, elems, b));
    SumOne(Mark(id, l, elems, b));
  }

  lemma LeavesLast(ids: seq<nat>, id: nat, elems: nat)
    ensures LeavesIn(ids + [id], elems) == LeavesIn(ids, elems) + (if id < elems then 1 else 0)
  {
    SumLast(Leaves01(ids, elems), Leaves01(ids + [id], elems), if id < elems then 1 else 0);
  }

  lemma WeightsFirst(id: nat, ids: seq<nat>, len: seq<nat>, len': seq<nat>, l: nat)
    requires id < |len| && id !in ids && len' == len[id := l]
    ensures Weights([id] + ids, len') == [l] + Weights(ids, len)
  {
    assert forall i :: 0 <= i < |ids| ==> ids[i] in ids;
  }

  /** Giving one more leaf the length `b`. */
  lemma LevelNext(id: nat, ids: seq<nat>, len: seq<nat>, len': seq<nat>, elems: nat, bl: seq<nat>, m: nat, b: nat,
                  n: nat, n': nat)
    requires id < |len| && id !in ids && m < |bl| && 1 <= b <= m && n == n' + 1 && Level(ids, len, elems, bl, m, b, n)
    requires id < elems && len' == len[id := b] && LeafLens(ids, len, elems, m)
    ensures Level([id] + ids, len', elems, bl, m, b, n') && LeafLens([id] + ids, len', elems, m)
  {
    WeightsFirst(id, ids, len, len', b);
    forall c | 1 <= c <= m
      ensures LeafCount([id] + ids, Weights([id] + ids, len'), elems, c)
              == (if c > b then bl[c] else if c == b then bl[c] - n' else 0)
    {
      LeafCountFirst(id, ids, b, Weights(ids, len), elems, c);
    }
    assert forall i :: 0 <= i < |ids| ==> ids[i] in ids;
  }

  /** Inner nodes are skipped. */
  lemma LevelSkip(id: nat, ids: seq<nat>, len: seq<nat>, elems: nat, bl: seq<nat>, m: nat, b: nat, n: nat)
    requires m < |bl| && Level(ids, len, elems, bl, m, b, n) && LeafLens(ids, len, elems, m) && id >= elems
    ensures Level([id] + ids, len, elems, bl, m, b, n) && LeafLens([id] + ids, len, elems, m)
  {
    assert Weights([id] + ids, len) == [Get(len, id)] + Weights(ids, len);
    forall c | 1 <= c <= m
      ensures LeafCount([id] + ids, Weights([id] + ids, len), elems, c)
              == (if c > b then bl[c] else if c == b then bl[c] - n else 0)
    {
      LeafCountFirst(id, ids, Get(len, id), Weights(ids, len), elems, c);
    }
  }

  /** The cost changes by the frequency times the change of the length. */
  lemma CostChange(order: seq<nat>, p: nat, len: seq<nat>, len': seq<nat>, elems: nat, f: seq<nat>, x: seq<nat>, b: nat)
    requires p < |order| && NoDup(order) && order[p] < |len| && order[p] < elems && len' == len[order[p] := b]
    ensures BitCost(order, Weights(order, len'), elems, f, x)
            == BitCost(order, Weights(order, len), elems, f, x) + (b - Get(len, order[p])) * Get(f, order[p])
  {
    var n := order[p];
    var s, s' := AllBits(order, Weights(order, len), elems, f, x), AllBits(order, Weights(order, len'), elems, f, x);
    var v := SymbolBits(n, b, elems, f, x);
    assert s' == s[p := v];
    SumUpdate(s, p, v);
    Difference(Get(f, n), b, Get(len, n), Get(x, n));
  }

  lemma Difference(f: nat, b: nat, l: nat, x: nat)
    ensures f * (b + x) == f * (l + x) + (b - l) * f
  {
  }

  /** The whole state of the pass: `p` nodes are still to be visited. */
  ghost predicate Assigning(order: seq<nat>, p: nat, len: seq<nat>, elems: nat, bl: seq<nat>, m: nat, b: nat, n: nat)
  {
    && p <= |order| && m < |bl| && 1 <= b <= m
    && Level(order[p..], len, elems, bl, m, b, n) && LeafLens(order[p..], len, elems, m)
    && LeavesIn(order[..p], elems) == Total(bl, b - 1) + n && Rising(order[p..], len, elems, b)
  }

  /** As long as leaves are missing, there are nodes to visit. */
  lemma MoreNodes(order: seq<nat>, p: nat, len: seq<nat>, elems: nat, bl: seq<nat>, m: nat, b: nat, n: nat)
    requires Assigning(order, p, len, elems, bl, m, b, n) && n > 0
    ensures p > 0
  {
  }

  lemma Suffix(order: seq<nat>, p: nat, q: nat)
    requires q == p + 1 <= |order|
    ensures order[p..] == [order[p]] + order[q..] && order[..q] == order[..p] + [order[p]]
  {
  }

  lemma NotAfter(order: seq<nat>, p: nat)
    requires NoDup(order) && p < |order|
    ensures order[p] !in order[p + 1..]
  {
  }

  /** One step of the inner loop. */
  lemma AssignStep(order: seq<nat>, p: nat, q: nat, len: seq<nat>, len': seq<nat>, elems: nat, bl: seq<nat>, m: nat,
                   b: nat, n: nat, n': nat)
    requires NoDup(order) && q == p + 1 && Assigning(order, q, len, elems, bl, m, b, n) && n > 0 && order[p] < |len|
    requires order[p] < elems ==> len' == len[order[p] := b] && n == n' + 1
    requires order[p] >= elems ==> len' == len && n == n'
    ensures Assigning(order, p, len', elems, bl, m, b, n')
  {
    hide Level, LeafLens, Rising, NoDup, LeavesIn;
    Suffix(order, p, q);
    NotAfter(order, p);
    LeavesLast(order[..p], order[p], elems);
    if order[p] < elems {
      LevelNext(order[p], order[q..], len, len', elems, bl, m, b, n, n');
      RisingNext(order[p], order[q..], len, len', elems, b);
    } else {
      LevelSkip(order[p], order[q..], len, elems, bl, m, b, n);
      RisingFront(order[p], order[q..], len, elems, b);
    }
  }

  /** The lengths above `b` are assigned. */
  ghost predicate AtLevel(order: seq<nat>, p: nat, len: seq<nat>, elems: nat, bl: seq<nat>, m: nat, b: nat)
  {
    if b == 0 then Assigning(order, p, len, elems, bl, m, 1, 0)
    else b < |bl| && Assigning(order, p, len, elems, bl, m, b, bl[b])
  }

  /** When all leaves of length `b` are assigned, the next shorter length is next. */
  lemma AssignLevel(order: seq<nat>, p: nat, len: seq<nat>, elems: nat, bl: seq<nat>, m: nat, b: nat, n: nat, c: nat)
    requires Assigning(order, p, len, elems, bl, m, b, n) && n == 0 && c == b - 1
    ensures AtLevel(order, p, len, elems, bl, m, c)
  {
    hide Rising, LeavesIn, LeafLens;
    RisingLess(order[p..], len, elems, b, c);
  }

  lemma AssignStart(order: seq<nat>, len: seq<nat>, elems: nat, bl: seq<nat>, m: nat)
    requires 1 <= m < |bl| && LeavesIn(order, elems) == Total(bl, m)
    ensures AtLevel(order, |order|, len, elems, bl, m, m)
  {
    assert order[|order|..] == [] && order[..|order|] == order;
    forall c | 1 <= c <= m ensures LeafCount([], Weights([], len), elems, c) == 0 {
      assert Marks([], Weights([], len), elems, c) == [];
    }
  }

  lemma {:induction false} NoLeafCount(ids: seq<nat>, ls: seq<nat>, elems: nat, c: nat)
    requires |ids| == |ls| && LeavesIn(ids, elems) == 0
    ensures LeafCount(ids, ls, elems, c) == 0 && forall q :: 0 <= q < |ids| ==> ids[q] >= elems
    decreases |ids|
  {
    if ids != [] {
      var n := |ids| - 1;
      assert ids == ids[..n] + [ids[n]] && ls == ls[..n] + [ls[n]];
      LeavesLast(ids[..n], ids[n], elems);
      NoLeafCount(ids[..n], ls[..n], elems, c);
      LeafCountNext(ids[..n], ls[..n], ids[n], ls[n], elems, c);
    } else {
      assert Marks(ids, ls, elems, c) == [];
    }
  }

  lemma LeafCountConcat(a: seq<nat>, b: seq<nat>, la: seq<nat>, lb: seq<nat>, elems: nat, c: nat)
    requires |a| == |la| && |b| == |lb|
    ensures LeafCount(a + b, la + lb, elems, c) == LeafCount(a, la, elems, c) + LeafCount(b, lb, elems, c)
  {
    assert Marks(a + b, la + lb, elems, c) == Marks(a, la, elems, c) + Marks(b, lb, elems, c);
    SumConcat(Marks(a, la, elems, c), Marks(b, lb, elems, c));
  }

  /** At the end every leaf has a length, and the counts are those of the lengths. */
  lemma AssignEnd(order: seq<nat>, p: nat, len: seq<nat>, elems: nat, bl: seq<nat>, m: nat, z: nat)
    requires AtLevel(order, p, len, elems, bl, m, z) && z == 0
    ensures LeafLens(order, len, elems, m) && Rising(order, len, elems, 1)
    ensures forall c :: 1 <= c <= m ==> LeafCount(order, Weights(order, len), elems, c) == bl[c]
  {
    hide Rising, LeafLens;
    var a, b := order[..p], order[p..];
    assert order == a + b;
    WeightsConcat(a, b, len);
    forall c | 1 <= c <= m ensures LeafCount(order, Weights(order, len), elems, c) == bl[c] {
      NoLeafCount(a, Weights(a, len), elems, c);
      LeafCountConcat(a, b, Weights(a, len), Weights(b, len), elems, c);
    }
    NoLeafLens(a, len, elems, m);
    LeafLensConcat(a, b, len, elems, m);
    NoLeafCount(a, Weights(a, len), elems, 1);
    RisingAll(a, b, len, elems, 1);
  }

  lemma NoLeafLens(ids: seq<nat>, len: seq<nat>, elems: nat, m: nat)
    requires LeavesIn(ids, elems) == 0
    ensures LeafLens(ids, len, elems, m)
  {
    NoLeafCount(ids, Weights(ids, len), elems, 1);
  }

  lemma LeafLensConcat(a: seq<nat>, b: seq<nat>, len: seq<nat>, elems: nat, m: nat)
    requires LeafLens(a, len, elems, m) && LeafLens(b, len, elems, m)
    ensures LeafLens(a + b, len, elems, m)
  {
  }
}

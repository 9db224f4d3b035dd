/**
  * The first pass of `gen_bitlen` (dep/zlib/trees.c): every node of the tree is visited after its father and gets a
  * length one greater, clamped to the limit.
  */
module LengthPass {
  import opened Arith
  import opened Optimal
  import opened Forest
  import opened HuffmanTree
  import opened TreeDepth
  import opened BitLengths
  import opened LengthCounts

  /** What does not change: the visiting order, fathers, frequencies, extra bits and static lengths. */
  datatype Job = Job(order: seq<nat>, dad: seq<nat>, elems: nat, m: nat, f: seq<nat>, x: seq<nat>, st: seq<nat>)

  /** Where the pass is: `p` nodes visited, lengths, counts and sums so far. `ov` marks overflowing nodes. */
  datatype Pass = Pass(p: nat, len: seq<nat>, bl: seq<nat>, ov: seq<nat>, overflow: nat, bits: nat, fixed: nat)

  ghost predicate Nodes(j: Job)
  {
    && 1 <= |j.order| && NoDup(j.order) && j.elems <= j.order[0]
    && (forall q :: 0 <= q < |j.order| ==> j.order[q] < |j.dad|)
    && (forall p {:trigger Father(j.order, j.dad, p)} :: 1 <= p < |j.order| ==>
        Before(j.order, p, Father(j.order, j.dad, p)))
  }

  function One(b: bool): nat
  {
    if b then 1 else 0
  }

  ghost predicate Stepped(j: Job, len: seq<nat>, ov: seq<nat>, q: nat)
    requires q < |j.order|
  {
    var l := Get(len, Father(j.order, j.dad, q)) + 1;
    Get(len, j.order[q]) == Min2(l, j.m) && Get(ov, j.order[q]) == One(l > j.m)
  }

  ghost predicate AllStepped(j: Job, len: seq<nat>, ov: seq<nat>, p: nat)
    requires 1 <= p <= |j.order|
  {
    && Get(len, j.order[0]) == 0 == Get(ov, j.order[0])
    && forall q {:trigger Stepped(j, len, ov, q)} :: 1 <= q < p ==> Stepped(j, len, ov, q)
  }

  /** Nodes not visited yet still hold their fathers. */
  ghost predicate Unvisited(j: Job, len: seq<nat>, p: nat)
    requires p <= |j.order|
  {
    forall q :: p <= q < |j.order| ==> Get(len, j.order[q]) == Get(j.dad, j.order[q])
  }

  /** Nothing outside the tree is touched. */
  ghost predicate Outside(j: Job, len: seq<nat>)
  {
    forall x: nat :: x !in j.order ==> Get(len, x) == Get(j.dad, x)
  }

  ghost predicate Counted(ids: seq<nat>, ls: seq<nat>, elems: nat, bl: seq<nat>)
    requires |ids| == |ls|
  {
    forall b :: 0 <= b < |bl| ==> bl[b] == LeafCount(ids, ls, elems, b)
  }

  ghost predicate Summed(j: Job, s: Pass, ids: seq<nat>)
  {
    && Counted(ids, Weights(ids, s.len), j.elems, s.bl)
    && s.overflow == Sum(Weights(ids, s.ov))
    && s.bits == BitCost(ids, Weights(ids, s.len), j.elems, j.f, j.x)
    && s.fixed == BitCost(ids, Weights(ids, j.st), j.elems, j.f, j.x)
  }

  ghost predicate Passed(j: Job, s: Pass)
  {
    && Nodes(j) && 1 <= s.p <= |j.order| && |s.len| == |j.dad| == |s.ov| && j.m < |s.bl|
    && AllStepped(j, s.len, s.ov, s.p)
    && Unvisited(j, s.len, s.p) && Outside(j, s.len)
    && Summed(j, s, j.order[..s.p])
  }

  // ---------------------------------------------------------------- one node

  /** Visiting node `n`. */
  function Visit(j: Job, s: Pass): (s': Pass)
    requires s.p < |j.order| && j.order[s.p] < |s.len| == |s.ov| && j.m < |s.bl|
  {
    var n := j.order[s.p];
    var l := Get(s.len, Get(s.len, n)) + 1;
    var bits := Min2(l, j.m);
    Pass(s.p + 1, s.len[n := bits],
         if n < j.elems then s.bl[bits := s.bl[bits] + 1] else s.bl,
         s.ov[n := One(l > j.m)], s.overflow + One(l > j.m),
         s.bits + SymbolBits(n, bits, j.elems, j.f, j.x), s.fixed + SymbolBits(n, Get(j.st, n), j.elems, j.f, j.x))
  }

  lemma NotYet(order: seq<nat>, p: nat, q: nat)
    requires NoDup(order) && q < p < |order|
    ensures order[q] != order[p]
  {
  }

  lemma VisitSteps(j: Job, s: Pass, len': seq<nat>, ov': seq<nat>, n: nat, l: nat)
    requires Nodes(j) && 1 <= s.p < |j.order| && |s.len| == |j.dad| == |s.ov|
    requires AllStepped(j, s.len, s.ov, s.p) && n == j.order[s.p] && l == Get(s.len, Father(j.order, j.dad, s.p)) + 1
    requires len' == s.len[n := Min2(l, j.m)] && ov' == s.ov[n := One(l > j.m)]
    ensures AllStepped(j, len', ov', s.p + 1)
  {
    NotYet(j.order, s.p, 0);
    forall q | 1 <= q < s.p + 1 ensures Stepped(j, len', ov', q) {
      var y := Father(j.order, j.dad, q);
      assert Before(j.order, q, y);
      var k :| 0 <= k < q && j.order[k] == y;
      NotYet(j.order, s.p, k);
      if q < s.p {
        NotYet(j.order, s.p, q);
        assert Stepped(j, s.len, s.ov, q);
      }
    }
  }

  lemma CountNext(ids: seq<nat>, ls: seq<nat>, n: nat, l: nat, elems: nat, bl: seq<nat>, bl': seq<nat>)
    requires |ids| == |ls| && l < |bl| && Counted(ids, ls, elems, bl)
    requires bl' == if n < elems then bl[l := bl[l] + 1] else bl
    ensures Counted(ids + [n], ls + [l], elems, bl')
  {
    forall b | 0 <= b < |bl'| ensures bl'[b] == LeafCount(ids + [n], ls + [l], elems, b) {
      LeafCountNext(ids, ls, n, l, elems, b);
    }
  }

  /** Updating the next node adds its entry to the list. */
  lemma WeightsNext(ids: seq<nat>, n: nat, t: seq<nat>, t': seq<nat>, v: nat)
    requires n < |t| && n !in ids && t' == t[n := v]
    ensures Weights(ids + [n], t') == Weights(ids, t) + [v]
  {
    assert forall i :: 0 <= i < |ids| ==> ids[i] in ids;
  }

  lemma VisitSums(j: Job, s: Pass, s': Pass, ids: seq<nat>, n: nat, l: nat)
    requires Summed(j, s, ids) && n !in ids && n < |s.len| == |s.ov| && j.m < |s.bl|
    requires s'.len == s.len[n := Min2(l, j.m)] && s'.ov == s.ov[n := One(l > j.m)]
    requires s'.bl == if n < j.elems then s.bl[Min2(l, j.m) := s.bl[Min2(l, j.m)] + 1] else s.bl
    requires s'.overflow == s.overflow + One(l > j.m)
    requires s'.bits == s.bits + SymbolBits(n, Min2(l, j.m), j.elems, j.f, j.x)
    requires s'.fixed == s.fixed + SymbolBits(n, Get(j.st, n), j.elems, j.f, j.x)
    ensures Summed(j, s', ids + [n])
  {
    var b := Min2(l, j.m);
    WeightsNext(ids, n, s.len, s'.len, b);
    WeightsNext(ids, n, s.ov, s'.ov, One(l > j.m));
    WeightsConcat(ids, [n], j.st);
    assert Weights([n], j.st) == [Get(j.st, n)];
    CountNext(ids, Weights(ids, s.len), n, b, j.elems, s.bl, s'.bl);
    SumLast(Weights(ids, s.ov), Weights(ids + [n], s'.ov), One(l > j.m));
    BitCostNext(ids, Weights(ids, s.len), n, b, j.elems, j.f, j.x);
    BitCostNext(ids, Weights(ids, j.st), n, Get(j.st, n), j.elems, j.f, j.x);
  }

  lemma NotAmong(order: seq<nat>, p: nat)
    requires NoDup(order) && p < |order|
    ensures order[p] !in order[..p] && order[..p + 1] == order[..p] + [order[p]] && order[p] in order
  {
  }

  /** The pass goes on: the father of the next node already has its length. */
  lemma VisitPassed(j: Job, s: Pass)
    requires Passed(j, s) && s.p < |j.order|
    ensures Passed(j, Visit(j, s))
  {
    var n, s' := j.order[s.p], Visit(j, s);
    NotAmong(j.order, s.p);
    var y := Get(j.dad, n);
    assert y == Father(j.order, j.dad, s.p) && Get(s.len, n) == y;
    VisitSteps(j, s, s'.len, s'.ov, n, Get(s.len, y) + 1);
    VisitSums(j, s, s', j.order[..s.p], n, Get(s.len, y) + 1);
    assert Unvisited(j, s'.len, s'.p);
    assert Outside(j, s'.len);
  }

  // ---------------------------------------------------------------- what the pass computes

  /** A finished pass is the clamped depth of every node, and marks the nodes below the limit. */
  lemma {:induction false} StepsInTree(t: Tree, j: Job, s: Pass, f: seq<nat>, node: nat)
    requires Passed(j, s) && s.p == |j.order| && Good(t, f, j.dad, j.elems, node)
    requires forall x :: x in IdList(t) && x != t.id ==> Later(j.order, x)
    requires NoDup(IdList(t))
    ensures StepsDown(t, j.m, s.len)
    ensures SonsMarked(t, j.m, s.len, s.ov)
  {
    hide Passed, Later;
    if t.Node? {
      var l, r := t.left, t.right;
      NoDupParts(t.id, IdList(l), IdList(r));
      RootListed(l);
      RootListed(r);
      SonStepped(j, s, l.id);
      SonStepped(j, s, r.id);
      StepsInTree(l, j, s, f, node);
      StepsInTree(r, j, s, f, node);
    }
  }

  /** `x` is in the order, but not as its first element. */
  ghost predicate Later(order: seq<nat>, x: nat)
  {
    exists q :: 1 <= q < |order| && order[q] == x
  }

  ghost predicate SonsMarked(t: Tree, m: nat, len: seq<nat>, ov: seq<nat>)
  {
    t.Node? ==>
      && Get(ov, t.left.id) == One(Get(len, t.id) + 1 > m) == Get(ov, t.right.id)
      && SonsMarked(t.left, m, len, ov) && SonsMarked(t.right, m, len, ov)
  }

  lemma SonStepped(j: Job, s: Pass, x: nat)
    requires Passed(j, s) && s.p == |j.order| && Later(j.order, x)
    ensures var l := Get(s.len, Get(j.dad, x)) + 1; Get(s.len, x) == Min2(l, j.m) && Get(s.ov, x) == One(l > j.m)
  {
    var q :| 1 <= q < |j.order| && j.order[q] == x;
    assert Stepped(j, s.len, s.ov, q);
    assert Father(j.order, j.dad, q) == Get(j.dad, x);
  }

  lemma {:induction false} MarksAreOverflow(t: Tree, d: nat, m: nat, len: seq<nat>, ov: seq<nat>)
    requires LensAre(t, d, m, len) && SonsMarked(t, m, len, ov) && Get(ov, t.id) == One(d > m)
    ensures OverTable(t, d, m, ov)
  {
    if t.Node? {
      MarksAreOverflow(t.left, d + 1, m, len, ov);
      MarksAreOverflow(t.right, d + 1, m, len, ov);
    }
  }

  lemma LaterInOrder(ids: seq<nat>, order: seq<nat>, x: nat)
    requires multiset(ids) == multiset(order) && x in ids && x != order[0] && |order| >= 1
    ensures Later(order, x)
  {
    assert x in multiset(order);
    var q :| 0 <= q < |order| && order[q] == x;
  }

  /** After the pass: depths, and the number of overflowing nodes. */
  lemma PassDone(t: Tree, j: Job, s: Pass, node: nat)
    requires Good(t, j.f, j.dad, j.elems, node) && multiset(IdList(t)) == multiset(j.order) && NoDup(j.order)
    requires Passed(j, s) && s.p == |j.order| && j.order[0] == t.id
    ensures LensAre(t, 0, j.m, s.len) && s.overflow == Overflow(t, 0, j.m)
  {
    NoDupMultiset(j.order, IdList(t));
    forall x | x in IdList(t) && x != t.id ensures Later(j.order, x) { LaterInOrder(IdList(t), j.order, x); }
    StepsInTree(t, j, s, j.f, node);
    DepthsFollow(t, 0, j.m, s.len);
    OverflowIsSum(t, j, s);
  }

  lemma OverflowIsSum(t: Tree, j: Job, s: Pass)
    requires multiset(IdList(t)) == multiset(j.order) && Get(s.ov, t.id) == 0
    requires LensAre(t, 0, j.m, s.len) && SonsMarked(t, j.m, s.len, s.ov) && s.p == |j.order|
    requires Summed(j, s, j.order[..s.p])
    ensures s.overflow == Overflow(t, 0, j.m)
  {
    MarksAreOverflow(t, 0, j.m, s.len, s.ov);
    OverSum(t, 0, j.m, s.ov);
    SumOverTree(t, j.order, s.ov);
    assert j.order[..|j.order|] == j.order;
  }
}

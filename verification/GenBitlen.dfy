/**
  * Computing the code lengths of a Huffman tree in place (`gen_bitlen` of dep/zlib/trees.c).
  *
  * `dl` holds the fathers of the nodes on entry and their lengths on exit; `heap[max..]` lists the nodes, the root
  * first.
  */
module GenBitlen {
  import opened Arith
  import opened Optimal
  import opened Forest
  import opened HuffmanTree
  import opened TreeDepth
  import opened BitLengths
  import opened TreeSums
  import LP = LengthPass
  import RA = Reassign
  import LC = LengthCounts

  /** The extra bits of symbol `n`. */
  function ExtraBits(extra: seq<nat>, base: nat, elems: nat): (x: seq<nat>)
    requires elems <= base + |extra|
    ensures |x| == elems && forall n: nat :: n < elems ==> Get(x, n) == if n >= base then extra[n - base] else 0
  {
    seq(elems, n requires 0 <= n < elems => if n >= base then extra[n - base] else 0)
  }

  // ---------------------------------------------------------------- the first pass

  lemma PassStart(j: LP.Job, s: LP.Pass)
    requires LP.Nodes(j) && j.order[0] < |j.dad| && j.m < |s.bl| && forall b :: 0 <= b < |s.bl| ==> s.bl[b] == 0
    requires s.p == 1 && s.len == j.dad[j.order[0] := 0] && |s.ov| == |j.dad|
    requires (forall i :: 0 <= i < |s.ov| ==> s.ov[i] == 0)
    requires s.overflow == 0 && s.bits == 0 && s.fixed == 0
    ensures LP.Passed(j, s)
  {
    var ids := j.order[..1];
    assert ids == [j.order[0]];
    SumOne(0);
    assert Weights(ids, s.ov) == [0];
    assert AllBits(ids, Weights(ids, s.len), j.elems, j.f, j.x) == [0];
    assert AllBits(ids, Weights(ids, j.st), j.elems, j.f, j.x) == [0];
    forall b | 0 <= b < |s.bl| ensures LeafCount(ids, Weights(ids, s.len), j.elems, b) == 0 {
      assert Marks(ids, Weights(ids, s.len), j.elems, b) == [0];
    }
    assert j.order[0] in j.order;
  }

  /** Fills in the lengths from the root down. */
  method FirstPass(heap: array<nat>, max: nat, fc: array<nat>, dl: array<nat>, blCount: array<nat>, maxCode: nat,
                   m: nat, extra: seq<nat>, base: nat, hasStatic: bool, stree: seq<nat>, optLen0: int, staticLen0: int,
                   ghost j: LP.Job)
    returns (overflow: nat, optLen: int, staticLen: int, ghost s: LP.Pass)
    requires heap != fc && heap != dl && heap != blCount && fc != dl && fc != blCount && dl != blCount
    requires max < heap.Length && blCount.Length == LC.MAX_BITS + 1 && m <= LC.MAX_BITS
    requires LP.Nodes(j) && j.order == heap[max..] && j.dad == dl[..] && j.f == fc[..] && |j.f| == |j.dad| && j.m == m
    requires maxCode < j.elems <= base + |extra| && j.x == ExtraBits(extra, base, j.elems)
    requires forall q :: 0 <= q < |j.order| ==> j.order[q] <= maxCode || j.order[q] >= j.elems
    requires hasStatic ==> j.elems <= |stree| && j.st == stree
    modifies dl, blCount
    ensures LP.Passed(j, s) && s.p == |j.order| && s.len == dl[..] && s.bl == blCount[..] && s.overflow == overflow
    ensures optLen == optLen0 + s.bits && staticLen == if hasStatic then staticLen0 + s.fixed else staticLen0
  {
    ClearCounts(blCount);
    assert j.order[0] == heap[max];
    dl[heap[max]] := 0;
    assert dl[..] == j.dad[j.order[0] := 0];
    overflow, optLen, staticLen := 0, optLen0, staticLen0;
    s := LP.Pass(1, dl[..], blCount[..], seq(|j.dad|, i => 0), 0, 0, 0);
    PassStart(j, s);
    var h := max + 1;
    while h < heap.Length
      invariant max + 1 <= h <= heap.Length && s.p == h - max
      invariant LP.Passed(j, s) && s.len == dl[..] && s.bl == blCount[..] && |s.bl| == LC.MAX_BITS + 1
      invariant s.overflow == overflow
      invariant optLen == optLen0 + s.bits && staticLen == if hasStatic then staticLen0 + s.fixed else staticLen0
    {
      assert heap[h] == j.order[s.p];
      overflow, optLen, staticLen, s :=
        VisitNext(heap[h], fc, dl, blCount, maxCode, m, extra, base, hasStatic, stree, overflow, optLen0, optLen,
                  staticLen0, staticLen, j, s);
      h := h + 1;
    }
  }

  lemma NextNode(j: LP.Job, s: LP.Pass)
    requires LP.Passed(j, s) && s.p < |j.order|
    ensures var n := j.order[s.p]; n < |j.dad| && Get(s.len, n) < |j.dad| && Get(s.len, n) == s.len[n]
  {
    var y := Father(j.order, j.dad, s.p);
    assert Before(j.order, s.p, y);
  }

  method ClearCounts(blCount: array<nat>)
    modifies blCount
    ensures forall b :: 0 <= b < blCount.Length ==> blCount[b] == 0
  {
    for bits := 0 to blCount.Length
      invariant forall b :: 0 <= b < bits ==> blCount[b] == 0
    {
      blCount[bits] := 0;
    }
  }

  method VisitNext(n: nat, fc: array<nat>, dl: array<nat>, blCount: array<nat>, maxCode: nat, m: nat, extra: seq<nat>,
                   base: nat, hasStatic: bool, stree: seq<nat>, overflow0: nat, ghost optStart: int, optLen0: int,
                   ghost staticStart: int, staticLen0: int, ghost j: LP.Job, ghost s: LP.Pass)
    returns (overflow: nat, optLen: int, staticLen: int, ghost s': LP.Pass)
    requires fc != dl && fc != blCount && dl != blCount
    requires blCount.Length == LC.MAX_BITS + 1 && m <= LC.MAX_BITS
    requires LP.Passed(j, s) && s.p < |j.order| && n == j.order[s.p] && s.len == dl[..] && s.bl == blCount[..]
    requires j.f == fc[..] && |j.f| == |j.dad| && j.m == m
    requires maxCode < j.elems <= base + |extra| && j.x == ExtraBits(extra, base, j.elems)
    requires n <= maxCode || n >= j.elems
    requires hasStatic ==> j.elems <= |stree| && j.st == stree
    requires s.overflow == overflow0 && optLen0 == optStart + s.bits
    requires staticLen0 == if hasStatic then staticStart + s.fixed else staticStart
    modifies dl, blCount
    ensures LP.Passed(j, s') && s'.p == s.p + 1 && s'.len == dl[..] && s'.bl == blCount[..] && s'.overflow == overflow
    ensures optLen == optStart + s'.bits
    ensures staticLen == if hasStatic then staticStart + s'.fixed else staticStart
  {
    NextNode(j, s);
    LP.VisitPassed(j, s);
    s' := LP.Visit(j, s);
    var over;
    over, optLen, staticLen := VisitNode(n, fc, dl, blCount, maxCode, m, extra, base, hasStatic, stree, optLen0,
                                         staticLen0, j, s);
    overflow := if over then overflow0 + 1 else overflow0;
  }

  /** The body of the first loop, for node `n`. */
  method VisitNode(n: nat, fc: array<nat>, dl: array<nat>, blCount: array<nat>, maxCode: nat, m: nat, extra: seq<nat>,
                   base: nat, hasStatic: bool, stree: seq<nat>, optLen0: int, staticLen0: int, ghost j: LP.Job,
                   ghost s: LP.Pass)
    returns (over: bool, optLen: int, staticLen: int)
    requires fc != dl && fc != blCount && dl != blCount
    requires blCount.Length == LC.MAX_BITS + 1 && m <= LC.MAX_BITS
    requires s.p < |j.order| && n == j.order[s.p] && s.len == dl[..] && s.bl == blCount[..] && |s.ov| == |s.len|
    requires n < fc.Length == dl.Length && dl[n] < dl.Length && j.f == fc[..] && j.m == m
    requires maxCode < j.elems <= base + |extra| && j.x == ExtraBits(extra, base, j.elems)
    requires n <= maxCode || n >= j.elems
    requires hasStatic ==> j.elems <= |stree| && j.st == stree
    modifies dl, blCount
    ensures var s' := LP.Visit(j, s);
      && s'.len == dl[..] && s'.bl == blCount[..] && s'.overflow == s.overflow + LP.One(over)
      && optLen == optLen0 + (s'.bits - s.bits)
      && staticLen == if hasStatic then staticLen0 + (s'.fixed - s.fixed) else staticLen0
  {
    optLen, staticLen := optLen0, staticLen0;
    var bits := dl[dl[n]] + 1;
    over := bits > m;
    if over { bits := m; }
    dl[n] := bits;
    if n <= maxCode {
      blCount[bits] := blCount[bits] + 1;
      var xbits := if n >= base then extra[n - base] else 0;
      var f := fc[n];
      assert f == Get(j.f, n) && xbits == Get(j.x, n);
      optLen := optLen + f * (bits + xbits);
      if hasStatic { staticLen := staticLen + f * (stree[n] + xbits); }
    }
  }

  // ---------------------------------------------------------------- what the counts are worth

  lemma PassLens(j: LP.Job, s: LP.Pass)
    requires LP.Passed(j, s) && s.p == |j.order| && j.m >= 1
    ensures RA.LeafLens(j.order, s.len, j.elems, j.m)
  {
    forall q | 0 <= q < |j.order| && j.order[q] < j.elems ensures 1 <= Get(s.len, j.order[q]) <= j.m {
      assert LP.Stepped(j, s.len, s.ov, q);
    }
  }

  lemma CountsSpace(order: seq<nat>, len: seq<nat>, elems: nat, m: nat, bl: seq<nat>)
    requires RA.LeafLens(order, len, elems, m) && 1 <= m < |bl|
    requires forall b :: 1 <= b <= m ==> bl[b] == LeafCount(order, Weights(order, len), elems, b)
    ensures LC.Space(bl, m, m) == Sum(LeafSpaces(order, Weights(order, len), elems, m))
    ensures LC.Total(bl, m) == RA.LeavesIn(order, elems)
  {
    var ls := Weights(order, len);
    CountsAreLeaves(order, ls, elems, m);
    LC.SpaceFrame(bl, Counts(order, ls, elems, m), m, m);
  }

  lemma SpaceOfTree(t: Tree, order: seq<nat>, len: seq<nat>, elems: nat, m: nat, f: seq<nat>, dad: seq<nat>, node: nat)
    requires Good(t, f, dad, elems, node) && multiset(IdList(t)) == multiset(order) && LensAre(t, 0, m, len)
    ensures 2 * Sum(LeafSpaces(order, Weights(order, len), elems, m)) == 2 * Pow2(m) + Overflow(t, 0, m)
  {
    var table := SpacesTable(len, elems, m);
    SpacesAreTable(order, len, elems, m);
    SumOverTree(t, order, table);
    SpaceSum(t, 0, m, len, table, f, dad, elems, node);
    ExcessIsHalfOverflow(t, 0, m);
  }

  lemma DeepestOfTree(t: Tree, order: seq<nat>, len: seq<nat>, elems: nat, m: nat, f: seq<nat>, dad: seq<nat>,
                      node: nat)
    requires Good(t, f, dad, elems, node) && multiset(IdList(t)) == multiset(order) && LensAre(t, 0, m, len)
    ensures Overflow(t, 0, m) > 0 ==> 2 * LeafCount(order, Weights(order, len), elems, m) >= Overflow(t, 0, m) + 2
  {
    var table := MarkTable(len, elems, m);
    MarksAreTable(order, len, elems, m);
    SumOverTree(t, order, table);
    DeepSum(t, 0, m, len, table, f, dad, elems, node);
    DeepestSuffice(t, 0, m);
  }

  lemma NoZeroLens(order: seq<nat>, len: seq<nat>, elems: nat, m: nat)
    requires RA.LeafLens(order, len, elems, m)
    ensures LeafCount(order, Weights(order, len), elems, 0) == 0
  {
    NoCost(Marks(order, Weights(order, len), elems, 0));
  }

  /** The counts after the first pass: half of the overflow is the excess, and enough leaves are longest. */
  lemma PassSpace(t: Tree, j: LP.Job, s: LP.Pass, node: nat)
    requires Good(t, j.f, j.dad, j.elems, node) && multiset(IdList(t)) == multiset(j.order) && NoDup(j.order)
    requires LP.Passed(j, s) && s.p == |j.order| && j.order[0] == t.id && 1 <= j.m
    ensures RA.LeafLens(j.order, s.len, j.elems, j.m) && s.bl[0] == 0
    ensures 2 * LC.Space(s.bl, j.m, j.m) == 2 * Pow2(j.m) + s.overflow
    ensures s.overflow > 0 ==> 2 * s.bl[j.m] >= s.overflow + 2
    ensures LC.Total(s.bl, j.m) == RA.LeavesIn(j.order, j.elems)
    ensures forall b :: 0 <= b < |s.bl| ==> s.bl[b] == LeafCount(j.order, Weights(j.order, s.len), j.elems, b)
    ensures LensAre(t, 0, j.m, s.len) && s.overflow == Overflow(t, 0, j.m)
  {
    assert j.order[..|j.order|] == j.order;
    LP.PassDone(t, j, s, node);
    PassLens(j, s);
    CountsSpace(j.order, s.len, j.elems, j.m, s.bl);
    SpaceOfTree(t, j.order, s.len, j.elems, j.m, j.f, j.dad, node);
    DeepestOfTree(t, j.order, s.len, j.elems, j.m, j.f, j.dad, node);
    NoZeroLens(j.order, s.len, j.elems, j.m);
  }

  // ---------------------------------------------------------------- the second pass

  /** Gives the leaves their new lengths, and corrects the cost. */
  method SecondPass(heap: array<nat>, max: nat, fc: array<nat>, dl: array<nat>, blCount: array<nat>, maxCode: nat,
                    m: nat, optLen0: int, ghost order: seq<nat>, ghost elems: nat, ghost f: seq<nat>, ghost x: seq<nat>)
    returns (optLen: int, ghost len: seq<nat>)
    requires heap != dl && fc != dl && dl != blCount && max <= heap.Length && order == heap[max..] && NoDup(order)
    requires 1 <= m < blCount.Length && fc.Length == dl.Length && maxCode < elems && f == fc[..]
    requires forall q :: 0 <= q < |order| ==> order[q] < dl.Length && (order[q] <= maxCode || order[q] >= elems)
    requires RA.LeavesIn(order, elems) == LC.Total(blCount[..], m)
    modifies dl
    ensures len == dl[..] && RA.LeafLens(order, len, elems, m) && RA.Rising(order, len, elems, 1)
    ensures forall c :: 1 <= c <= m ==> LeafCount(order, Weights(order, len), elems, c) == blCount[c]
    ensures forall n :: 0 <= n < dl.Length && n !in order ==> dl[n] == old(dl[n])
    ensures optLen - BitCost(order, Weights(order, len), elems, f, x)
            == optLen0 - BitCost(order, Weights(order, old(dl[..])), elems, f, x)
  {
    len := dl[..];
    ghost var bl, c0, p: nat := blCount[..], BitCost(order, Weights(order, len), elems, f, x), |order|;
    var bits: nat, h: nat := m, heap.Length;
    optLen := optLen0;
    RA.AssignStart(order, len, elems, bl, m);
    while bits != 0
      invariant bits <= m && p <= |order| && h == max + p
      invariant len == dl[..] && RA.AtLevel(order, p, len, elems, bl, m, bits)
      invariant forall n :: 0 <= n < dl.Length && n !in order ==> dl[n] == old(dl[n])
      invariant optLen - BitCost(order, Weights(order, len), elems, f, x) == optLen0 - c0
    {
      var next: nat := bits - 1;
      h, optLen, p, len := AssignBits(heap, max, fc, dl, maxCode, m, bits, blCount[bits], h, optLen, order, p, len,
                                      elems, bl, f, x, next);
      bits := next;
    }
    RA.AssignEnd(order, p, len, elems, bl, m, bits);
  }

  /** The inner loop: `n0` leaves get the length `bits`. */
  method AssignBits(heap: array<nat>, max: nat, fc: array<nat>, dl: array<nat>, maxCode: nat, m: nat, bits: nat,
                    n0: nat, h0: nat, optLen0: int, ghost order: seq<nat>, ghost p0: nat, ghost len0: seq<nat>,
                    ghost elems: nat, ghost bl: seq<nat>, ghost f: seq<nat>, ghost x: seq<nat>, ghost next: nat)
    returns (h: nat, optLen: int, ghost p: nat, ghost len: seq<nat>)
    requires heap != dl && fc != dl && max <= heap.Length && h0 == max + p0 && p0 <= |order| && order == heap[max..]
    requires NoDup(order)
    requires fc.Length == dl.Length && maxCode < elems && f == fc[..] && len0 == dl[..]
    requires forall q :: 0 <= q < |order| ==> order[q] < dl.Length && (order[q] <= maxCode || order[q] >= elems)
    requires 1 <= bits < |bl| && n0 == bl[bits] && RA.AtLevel(order, p0, len0, elems, bl, m, bits) && next == bits - 1
    modifies dl
    ensures h == max + p && p <= |order| && len == dl[..] && RA.AtLevel(order, p, len, elems, bl, m, next)
    ensures forall n :: 0 <= n < dl.Length && n !in order ==> dl[n] == old(dl[n])
    ensures optLen - BitCost(order, Weights(order, len), elems, f, x)
            == optLen0 - BitCost(order, Weights(order, len0), elems, f, x)
  {
    var n := n0;
    h, optLen, p, len := h0, optLen0, p0, len0;
    while n != 0
      invariant h == max + p && p <= |order| && len == dl[..] && RA.Assigning(order, p, len, elems, bl, m, bits, n)
      invariant forall n :: 0 <= n < dl.Length && n !in order ==> dl[n] == old(dl[n])
      invariant optLen - BitCost(order, Weights(order, len), elems, f, x)
                == optLen0 - BitCost(order, Weights(order, len0), elems, f, x)
      decreases h
    {
      RA.MoreNodes(order, p, len, elems, bl, m, bits, n);
      ghost var q: nat := p - 1;
      h := h - 1;
      n, optLen, len := AssignNode(heap[h], fc, dl, maxCode, m, bits, n, optLen, order, q, p, len, elems, bl, f, x);
      p := q;
    }
    RA.AssignLevel(order, p, len, elems, bl, m, bits, n, next);
  }

  method NewCost(optLen0: int, bits: nat, l: nat, freq: nat, ghost order: seq<nat>, ghost p: nat, ghost len: seq<nat>,
                 ghost len': seq<nat>, ghost elems: nat, ghost f: seq<nat>, ghost x: seq<nat>) returns (optLen: int)
    requires p < |order| && NoDup(order) && order[p] < |len| && order[p] < elems && len' == len[order[p] := bits]
    requires l == Get(len, order[p]) && freq == Get(f, order[p])
    ensures optLen - BitCost(order, Weights(order, len'), elems, f, x)
            == optLen0 - BitCost(order, Weights(order, len), elems, f, x)
  {
    RA.CostChange(order, p, len, len', elems, f, x, bits);
    optLen := if l != bits then optLen0 + (bits - l) * freq else optLen0;
  }

  /** One step of the inner loop. */
  method AssignNode(node: nat, fc: array<nat>, dl: array<nat>, maxCode: nat, ghost m: nat, bits: nat, n0: nat,
                    optLen0: int, ghost order: seq<nat>, ghost p: nat, ghost q: nat, ghost len0: seq<nat>,
                    ghost elems: nat, ghost bl: seq<nat>, ghost f: seq<nat>, ghost x: seq<nat>)
    returns (n: nat, optLen: int, ghost len: seq<nat>)
    requires fc != dl && fc.Length == dl.Length && maxCode < elems && NoDup(order) && q == p + 1 <= |order|
    requires order[p] == node < dl.Length
    requires f == fc[..] && len0 == dl[..]
    requires (node <= maxCode || node >= elems) && n0 > 0 && RA.Assigning(order, q, len0, elems, bl, m, bits, n0)
    modifies dl
    ensures len == dl[..] && RA.Assigning(order, p, len, elems, bl, m, bits, n)
    ensures forall i :: 0 <= i < dl.Length && i != node ==> dl[i] == old(dl[i])
    ensures optLen - BitCost(order, Weights(order, len), elems, f, x)
            == optLen0 - BitCost(order, Weights(order, len0), elems, f, x)
  {
    n, optLen, len := n0, optLen0, len0;
    if node <= maxCode {
      len := len0[node := bits];
      optLen := NewCost(optLen0, bits, dl[node], fc[node], order, p, len0, len, elems, f, x);
      if dl[node] != bits { dl[node] := bits; }
      assert dl[..] == len;
      n := n - 1;
    }
    RA.AssignStep(order, p, q, len0, len, elems, bl, m, bits, n0, n);
  }

  // ---------------------------------------------------------------- the whole computation

  /** What `gen_bitlen` needs to know about the tree. */
  ghost predicate Wood(t: Tree, j: LP.Job, syms: seq<nat>, node: nat)
  {
    && Good(t, j.f, j.dad, j.elems, node) && multiset(IdList(t)) == multiset(j.order) && NoDup(j.order)
    && |j.order| >= 3 && j.order[0] == t.id
    && j.elems <= node <= |j.dad| && multiset(j.order) == multiset(syms) + multiset(Range(j.elems, node))
    && (forall x :: x in syms ==> x < j.elems)
  }

  lemma BuiltWood(t: Tree, j: LP.Job, syms: seq<nat>, node: nat)
    requires Built(t, j.order, j.f, j.dad, syms, j.elems) && node == j.elems + |syms| - 1
    ensures Wood(t, j, syms, node) && TreeCost(t, j.f) == Huffman(multiset(Weights(syms, j.f)))
    ensures forall p {:trigger Father(j.order, j.dad, p)} :: 1 <= p < |j.order| ==>
            Before(j.order, p, Father(j.order, j.dad, p))
  {
    hide Descending, Huffman, Good;
    BuiltNoDup(j.order, syms, j.elems, node);
  }

  lemma WoodIds(t: Tree, j: LP.Job, syms: seq<nat>, node: nat, maxCode: nat, q: nat)
    requires Wood(t, j, syms, node) && maxCode < j.elems && (forall x :: x in syms ==> x <= maxCode) && q < |j.order|
    ensures j.order[q] < |j.dad| && (j.order[q] <= maxCode || j.order[q] >= j.elems)
  {
    var r := Range(j.elems, node);
    assert j.order[q] in multiset(j.order);
    assert j.order[q] in syms || j.order[q] in r;
  }

  lemma WoodNodes(t: Tree, j: LP.Job, syms: seq<nat>, node: nat, maxCode: nat)
    requires Wood(t, j, syms, node) && maxCode < j.elems && (forall x :: x in syms ==> x <= maxCode)
    requires forall p {:trigger Father(j.order, j.dad, p)} :: 1 <= p < |j.order| ==>
             Before(j.order, p, Father(j.order, j.dad, p))
    ensures LP.Nodes(j)
    ensures forall q :: 0 <= q < |j.order| ==> j.order[q] <= maxCode || j.order[q] >= j.elems
  {
    forall q | 0 <= q < |j.order|
      ensures j.order[q] < |j.dad| && (j.order[q] <= maxCode || j.order[q] >= j.elems)
    {
      WoodIds(t, j, syms, node, maxCode, q);
    }
    RootIsInner(t, j.order, j.f, j.dad, j.elems, node);
  }

  lemma BuiltNoDup(order: seq<nat>, syms: seq<nat>, elems: nat, node: nat)
    requires elems <= node && multiset(order) == multiset(syms) + multiset(Range(elems, node)) && NoDup(syms)
    requires forall x :: x in syms ==> x < elems
    ensures NoDup(order)
  {
    var s := syms + Range(elems, node);
    assert forall i :: 0 <= i < |syms| ==> syms[i] in syms;
    assert NoDup(s);
    NoDupMultiset(s, order);
  }

  lemma RootIsInner(t: Tree, order: seq<nat>, f: seq<nat>, dad: seq<nat>, elems: nat, node: nat)
    requires Good(t, f, dad, elems, node) && multiset(IdList(t)) == multiset(order) && |order| >= 3
    ensures t.id >= elems
  {
    assert |multiset(IdList(t))| == |multiset(order)|;
    assert |IdList(t)| == |order|;
  }

  /** Without overflow the lengths cost what Huffman's merges cost. */
  lemma PassOptimal(t: Tree, order: seq<nat>, len: seq<nat>, elems: nat, m: nat, f: seq<nat>, dad: seq<nat>, node: nat)
    requires Good(t, f, dad, elems, node) && multiset(IdList(t)) == multiset(order) && LensAre(t, 0, m, len)
    requires Overflow(t, 0, m) == 0
    ensures BitCost(order, Weights(order, len), elems, f, []) == TreeCost(t, f)
  {
    var table := BitsTable(len, elems, f, []);
    BitsAreTable(order, len, elems, f, []);
    SumOverTree(t, order, table);
    BitsSum(t, 0, m, len, table, f, dad, elems, node);
    BitsAreCost(t, 0, f, dad, elems, node);
  }

  /** The lengths that `gen_bitlen` leaves behind: a complete code whose counts and cost are exact. */
  ghost predicate Lengthened(order: seq<nat>, len: seq<nat>, bl: seq<nat>, elems: nat, m: nat)
  {
    && 1 <= m < |bl| && RA.LeafLens(order, len, elems, m) && LC.Space(bl, m, m) == Pow2(m)
    && (forall c :: 1 <= c <= m ==> LeafCount(order, Weights(order, len), elems, c) == bl[c])
    && (forall c :: m < c < |bl| ==> bl[c] == 0) && bl[0] == 0
  }

  lemma NoLongLens(order: seq<nat>, len: seq<nat>, elems: nat, m: nat, c: nat)
    requires RA.LeafLens(order, len, elems, m) && c > m
    ensures LeafCount(order, Weights(order, len), elems, c) == 0
  {
    NoCost(Marks(order, Weights(order, len), elems, c));
  }

  lemma CountsEnd(order: seq<nat>, len: seq<nat>, bl: seq<nat>, elems: nat, m: nat)
    requires RA.LeafLens(order, len, elems, m) && m < |bl|
    requires forall b :: 0 <= b < |bl| ==> bl[b] == LeafCount(order, Weights(order, len), elems, b)
    ensures forall c :: m < c < |bl| ==> bl[c] == 0
  {
    forall c | m < c < |bl| ensures bl[c] == 0 { NoLongLens(order, len, elems, m, c); }
  }

  /** Computes all lengths; `overflow` is the number of nodes that are too deep in the tree. */
  method GenBitlen(heap: array<nat>, max: nat, fc: array<nat>, dl: array<nat>, blCount: array<nat>, maxCode: nat,
                   m: nat, extra: seq<nat>, base: nat, hasStatic: bool, stree: seq<nat>, optLen0: int, staticLen0: int,
                   ghost t: Tree, ghost j: LP.Job, ghost syms: seq<nat>)
    returns (optLen: int, staticLen: int, overflow: nat, ghost len: seq<nat>)
    requires heap != fc && heap != dl && heap != blCount && fc != dl && fc != blCount && dl != blCount
    requires max < heap.Length && blCount.Length == LC.MAX_BITS + 1 && 2 <= m <= LC.MAX_BITS
    requires Built(t, j.order, j.f, j.dad, syms, j.elems) && (forall x :: x in syms ==> x <= maxCode)
    requires |syms| <= Pow2(m)
    requires j.order == heap[max..] && j.dad == dl[..] && j.f == fc[..] && j.m == m
    requires maxCode < j.elems <= base + |extra| && j.x == ExtraBits(extra, base, j.elems)
    requires hasStatic ==> j.elems <= |stree| && j.st == stree
    modifies dl, blCount
    ensures len == dl[..] && Lengthened(j.order, len, blCount[..], j.elems, m)
    ensures Kept(j.order, j.dad, len)
    ensures optLen == optLen0 + BitCost(j.order, Weights(j.order, len), j.elems, j.f, j.x)
    ensures staticLen == if hasStatic then staticLen0 + BitCost(j.order, Weights(j.order, j.st), j.elems, j.f, j.x)
            else staticLen0
    ensures overflow == Overflow(t, 0, m)
    ensures overflow == 0 ==>
            BitCost(j.order, Weights(j.order, len), j.elems, j.f, [])
            == Huffman(multiset(Weights(syms, j.f)))
    ensures overflow > 0 ==> RA.Rising(j.order, len, j.elems, 1)
  {
    ghost var node: nat := j.elems + |syms| - 1;
    BuiltWood(t, j, syms, node);
    WoodNodes(t, j, syms, node, maxCode);
    optLen, staticLen, overflow, len :=
      BothPasses(heap, max, fc, dl, blCount, maxCode, m, extra, base, hasStatic, stree, optLen0, staticLen0, t, j,
                 syms, node);
  }

  method BothPasses(heap: array<nat>, max: nat, fc: array<nat>, dl: array<nat>, blCount: array<nat>, maxCode: nat,
                    m: nat, extra: seq<nat>, base: nat, hasStatic: bool, stree: seq<nat>, optLen0: int, staticLen0: int,
                    ghost t: Tree, ghost j: LP.Job, ghost syms: seq<nat>, ghost node: nat)
    returns (optLen: int, staticLen: int, overflow: nat, ghost len: seq<nat>)
    requires heap != fc && heap != dl && heap != blCount && fc != dl && fc != blCount && dl != blCount
    requires max < heap.Length && blCount.Length == LC.MAX_BITS + 1 && 2 <= m <= LC.MAX_BITS
    requires LP.Nodes(j) && Wood(t, j, syms, node) && |j.f| == |j.dad| && |syms| <= Pow2(m)
    requires forall q :: 0 <= q < |j.order| ==> j.order[q] <= maxCode || j.order[q] >= j.elems
    requires j.order == heap[max..] && j.dad == dl[..] && j.f == fc[..] && j.m == m
    requires maxCode < j.elems <= base + |extra| && j.x == ExtraBits(extra, base, j.elems)
    requires hasStatic ==> j.elems <= |stree| && j.st == stree
    modifies dl, blCount
    ensures len == dl[..] && Lengthened(j.order, len, blCount[..], j.elems, m)
    ensures Kept(j.order, j.dad, len)
    ensures optLen == optLen0 + BitCost(j.order, Weights(j.order, len), j.elems, j.f, j.x)
    ensures staticLen == if hasStatic then staticLen0 + BitCost(j.order, Weights(j.order, j.st), j.elems, j.f, j.x)
            else staticLen0
    ensures overflow == Overflow(t, 0, m)
    ensures overflow == 0 ==> BitCost(j.order, Weights(j.order, len), j.elems, j.f, []) == TreeCost(t, j.f)
    ensures overflow > 0 ==> RA.Rising(j.order, len, j.elems, 1)
  {
    hide Lengthened, Wood, RA.Rising;
    overflow, optLen, staticLen, len :=
      FirstLengths(heap, max, fc, dl, blCount, maxCode, m, extra, base, hasStatic, stree, optLen0, staticLen0, t, j,
                   syms, node);
    if overflow != 0 {
      ghost var first := len;
      optLen, len := RepairLengths(heap, max, fc, dl, blCount, maxCode, m, overflow, optLen, j.order, j.elems, len,
                                   j.f, j.x);
      KeptTwice(j.order, j.dad, first, len);
    }
  }

  method FirstLengths(heap: array<nat>, max: nat, fc: array<nat>, dl: array<nat>, blCount: array<nat>, maxCode: nat,
                      m: nat, extra: seq<nat>, base: nat, hasStatic: bool, stree: seq<nat>, optLen0: int,
                      staticLen0: int, ghost t: Tree, ghost j: LP.Job, ghost syms: seq<nat>, ghost node: nat)
    returns (overflow: nat, optLen: int, staticLen: int, ghost len: seq<nat>)
    requires heap != fc && heap != dl && heap != blCount && fc != dl && fc != blCount && dl != blCount
    requires max < heap.Length && blCount.Length == LC.MAX_BITS + 1 && 2 <= m <= LC.MAX_BITS
    requires LP.Nodes(j) && Wood(t, j, syms, node) && |j.f| == |j.dad| && |syms| <= Pow2(m)
    requires forall q :: 0 <= q < |j.order| ==> j.order[q] <= maxCode || j.order[q] >= j.elems
    requires j.order == heap[max..] && j.dad == dl[..] && j.f == fc[..] && j.m == m
    requires maxCode < j.elems <= base + |extra| && j.x == ExtraBits(extra, base, j.elems)
    requires hasStatic ==> j.elems <= |stree| && j.st == stree
    modifies dl, blCount
    ensures len == dl[..] && First(t, j, len, blCount[..], overflow)
    ensures optLen == optLen0 + BitCost(j.order, Weights(j.order, len), j.elems, j.f, j.x)
    ensures staticLen == if hasStatic then staticLen0 + BitCost(j.order, Weights(j.order, j.st), j.elems, j.f, j.x)
            else staticLen0
  {
    hide Wood, First, LP.Passed, LP.Nodes, BitCost, Weights, ExtraBits;
    ghost var s;
    overflow, optLen, staticLen, s :=
      FirstPass(heap, max, fc, dl, blCount, maxCode, m, extra, base, hasStatic, stree, optLen0, staticLen0, j);
    len := s.len;
    FirstDone(t, j, s, syms, node);
  }

  /** The state after the first pass. */
  ghost predicate First(t: Tree, j: LP.Job, len: seq<nat>, bl: seq<nat>, overflow: nat)
  {
    && RepairNeeded(bl, j.order, j.elems, j.m, overflow) && Kept(j.order, j.dad, len) && overflow == Overflow(t, 0, j.m)
    && (overflow == 0 ==>
      && Lengthened(j.order, len, bl, j.elems, j.m)
      && BitCost(j.order, Weights(j.order, len), j.elems, j.f, []) == TreeCost(t, j.f))
  }

  lemma FirstDone(t: Tree, j: LP.Job, s: LP.Pass, syms: seq<nat>, node: nat)
    requires Wood(t, j, syms, node) && |syms| <= Pow2(j.m)
    requires LP.Passed(j, s) && s.p == |j.order| && 1 <= j.m
    ensures First(t, j, s.len, s.bl, s.overflow)
    ensures s.bits == BitCost(j.order, Weights(j.order, s.len), j.elems, j.f, j.x)
    ensures s.fixed == BitCost(j.order, Weights(j.order, j.st), j.elems, j.f, j.x)
  {
    AfterFirst(t, j, s, syms, node);
    SameOutside(j, s);
    OptimalFirst(t, j, s, syms, node);
  }

  /** Only the nodes of the tree have changed. */
  ghost predicate Kept(order: seq<nat>, a: seq<nat>, b: seq<nat>)
  {
    |a| == |b| && forall n :: 0 <= n < |a| && n !in order ==> b[n] == a[n]
  }

  lemma KeptTwice(order: seq<nat>, a: seq<nat>, b: seq<nat>, c: seq<nat>)
    requires Kept(order, a, b) && Kept(order, b, c)
    ensures Kept(order, a, c)
  {
  }

  lemma SameOutside(j: LP.Job, s: LP.Pass)
    requires LP.Passed(j, s)
    ensures Kept(j.order, j.dad, s.len)
  {
    forall x | 0 <= x < |j.dad| && x !in j.order ensures s.len[x] == j.dad[x] { assert Get(s.len, x) == Get(j.dad, x); }
  }

  /** Repairs the counts, and then the lengths. */
  method RepairLengths(heap: array<nat>, max: nat, fc: array<nat>, dl: array<nat>, blCount: array<nat>, maxCode: nat,
                       m: nat, overflow: nat, optLen0: int, ghost order: seq<nat>, ghost elems: nat,
                       ghost len0: seq<nat>, ghost f: seq<nat>, ghost x: seq<nat>)
    returns (optLen: int, ghost len: seq<nat>)
    requires heap != dl && fc != dl && dl != blCount && heap != blCount && fc != blCount
    requires max <= heap.Length && order == heap[max..] && NoDup(order)
    requires 2 <= m < blCount.Length && fc.Length == dl.Length && maxCode < elems && f == fc[..] && len0 == dl[..]
    requires forall q :: 0 <= q < |order| ==> order[q] < dl.Length && (order[q] <= maxCode || order[q] >= elems)
    requires overflow > 0 && RepairNeeded(blCount[..], order, elems, m, overflow)
    modifies dl, blCount
    ensures len == dl[..] && Lengthened(order, len, blCount[..], elems, m)
    ensures Kept(order, len0, len) && RA.Rising(order, len, elems, 1)
    ensures blCount[..] == LC.Moved(old(blCount[..]), m, overflow / 2)
    ensures optLen - BitCost(order, Weights(order, len), elems, f, x)
            == optLen0 - BitCost(order, Weights(order, len0), elems, f, x)
  {
    LC.Repair(blCount, m, overflow);
    optLen, len := SecondPass(heap, max, fc, dl, blCount, maxCode, m, optLen0, order, elems, f, x);
  }

  /** The counts of a tree that is too deep. */
  ghost predicate RepairNeeded(bl: seq<nat>, order: seq<nat>, elems: nat, m: nat, overflow: nat)
  {
    && 1 <= m < |bl| && bl[0] == 0 && 2 * LC.Space(bl, m, m) == 2 * Pow2(m) + overflow
    && (overflow > 0 ==> 2 * bl[m] >= overflow + 2)
    && LC.Total(bl, m) == RA.LeavesIn(order, elems) <= Pow2(m)
    && (forall c :: m < c < |bl| ==> bl[c] == 0)
  }

  /** What the first pass guarantees, on its own or as the start of the repair. */
  lemma AfterFirst(t: Tree, j: LP.Job, s: LP.Pass, syms: seq<nat>, node: nat)
    requires Wood(t, j, syms, node) && |syms| <= Pow2(j.m)
    requires LP.Passed(j, s) && s.p == |j.order| && 1 <= j.m
    ensures s.overflow == Overflow(t, 0, j.m)
    ensures RepairNeeded(s.bl, j.order, j.elems, j.m, s.overflow)
    ensures s.bits == BitCost(j.order, Weights(j.order, s.len), j.elems, j.f, j.x)
    ensures s.fixed == BitCost(j.order, Weights(j.order, j.st), j.elems, j.f, j.x)
  {
    assert j.order[..|j.order|] == j.order;
    PassSpace(t, j, s, node);
    LeafNumber(j.order, syms, j.elems, node);
    CountsEnd(j.order, s.len, s.bl, j.elems, j.m);
  }

  lemma OptimalFirst(t: Tree, j: LP.Job, s: LP.Pass, syms: seq<nat>, node: nat)
    requires Wood(t, j, syms, node) && RepairNeeded(s.bl, j.order, j.elems, j.m, s.overflow)
    requires LP.Passed(j, s) && s.p == |j.order| && 1 <= j.m
    ensures s.overflow == 0 ==> Lengthened(j.order, s.len, s.bl, j.elems, j.m)
    ensures s.overflow == 0 ==> BitCost(j.order, Weights(j.order, s.len), j.elems, j.f, []) == TreeCost(t, j.f)
  {
    PassSpace(t, j, s, node);
    if s.overflow == 0 { PassOptimal(t, j.order, s.len, j.elems, j.m, j.f, j.dad, node); }
  }
}

/**
  * `build_tree` of dep/zlib/trees.c: from frequencies to code lengths and codes.
  */
module BuildTree {
  import opened Arith
  import opened Optimal
  import opened Forest
  import opened HuffmanHeap
  import opened HuffmanTree
  import opened TreeDepth
  import opened BitLengths
  import opened TreeSums
  import opened GenBitlen
  import opened FairLengths
  import opened Canonical
  import LP = LengthPass
  import RA = Reassign
  import LC = LengthCounts
  import GC = GenCodes

  // ---------------------------------------------------------------- the initial heap

  /** Collects the symbols that occur; the others get length 0. */
  method InitHeap(heap: array<nat>, fc: array<nat>, dl: array<nat>, depth: array<nat>, elems: nat)
    returns (len: nat, maxCode: int)
    requires heap != fc && heap != dl && heap != depth && fc != dl && fc != depth && dl != depth
    requires elems < heap.Length && elems <= fc.Length == dl.Length == depth.Length
    modifies heap, dl, depth
    ensures len <= elems && Live(heap[..], len) == Occurring(fc[..], elems)
    ensures forall n :: 0 <= n < elems && fc[n] == 0 ==> dl[n] == 0
    ensures maxCode == if len == 0 then -1 else heap[len]
  {
    ghost var f := fc[..];
    var n := 0;
    len, maxCode := 0, -1;
    while n < elems
      invariant 0 <= n <= elems && len <= n && Live(heap[..], len) == Occurring(f, n)
      invariant forall i :: 0 <= i < n && fc[i] == 0 ==> dl[i] == 0
      invariant maxCode == if len == 0 then -1 else heap[len]
    {
      if fc[n] != 0 {
        ghost var h := heap[..];
        len := len + 1;
        heap[len], maxCode := n, n;
        depth[n] := 0;
        LiveNext(h, heap[..], len - 1);
      } else {
        dl[n] := 0;
      }
      n := n + 1;
    }
  }

  lemma LiveNext(h: seq<nat>, h': seq<nat>, len: nat)
    requires len + 1 < |h| == |h'| && forall i :: 1 <= i <= len ==> h'[i] == h[i]
    ensures Live(h', len + 1) == Live(h, len) + [h'[len + 1]]
  {
  }

  // ---------------------------------------------------------------- forced codes

  /** The symbols that get a frequency of one so that at least two codes exist. */
  function Forced(occ: seq<nat>): seq<nat>
  {
    if |occ| == 0 then [0, 1] else if |occ| == 1 then [if occ[0] < 2 then occ[0] + 1 else 0] else []
  }

  /** The frequencies with those symbols counted once. */
  function OnesAt(f: seq<nat>, ids: seq<nat>): (r: seq<nat>)
    ensures |r| == |f|
  {
    if ids == [] then f
    else
      var r, n := OnesAt(f, ids[..|ids| - 1]), ids[|ids| - 1];
      if n < |f| then r[n := 1] else r
  }

  /** What forcing has done so far. */
  ghost predicate Forcing(f: seq<nat>, occ: seq<nat>, forced: seq<nat>, live: seq<nat>, g: seq<nat>, maxCode: int)
  {
    && g == OnesAt(f, forced) && live == occ + forced && forced <= Forced(occ)
    && -1 <= maxCode && (forced == [] ==> maxCode == if occ == [] then -1 else occ[|occ| - 1])
    && (forced != [] ==> maxCode == if occ == [] then |forced| - 1 else if occ[0] < 2 then occ[0] + 1 else occ[0])
  }

  method ForceCodes(heap: array<nat>, fc: array<nat>, depth: array<nat>, len0: nat, maxCode0: int, elems: nat,
                    optLen0: int, hasStatic: bool, stree: seq<nat>, staticLen0: int, ghost f: seq<nat>,
                    ghost occ: seq<nat>)
    returns (len: nat, maxCode: int, optLen: int, staticLen: int, ghost forced: seq<nat>)
    requires heap != fc && heap != depth && fc != depth
    requires 3 <= elems < heap.Length && elems <= fc.Length == depth.Length && (hasStatic ==> elems <= |stree|)
    requires len0 <= elems && occ == Live(heap[..], len0) && (forall x :: x in occ ==> x < elems) && f == fc[..]
    requires maxCode0 == if len0 == 0 then -1 else heap[len0]
    modifies heap, fc, depth
    ensures len == |occ| + |forced| >= 2 && len < heap.Length
    ensures forced == Forced(occ) && Forcing(f, occ, forced, Live(heap[..], len), fc[..], maxCode)
    ensures optLen == optLen0 - |forced|
    ensures staticLen == if hasStatic then staticLen0 - Sum(Weights(forced, stree)) else staticLen0
  {
    len, maxCode, optLen, staticLen, forced := len0, maxCode0, optLen0, staticLen0, [];
    assert forall i :: 0 <= i < |occ| ==> occ[i] in occ;
    assert Live(heap[..], len) == occ + [];
    while len < 2
      invariant len == |occ| + |forced| && |forced| <= |Forced(occ)| && len <= elems
      invariant Forcing(f, occ, forced, Live(heap[..], len), fc[..], maxCode)
      invariant optLen == optLen0 - |forced|
      invariant staticLen == if hasStatic then staticLen0 - Sum(Weights(forced, stree)) else staticLen0
    {
      ghost var node0 := NextForced(maxCode);
      ForceStep(f, occ, forced, Live(heap[..], len), fc[..], maxCode, node0);
      maxCode, optLen, staticLen := ForceOne(heap, fc, depth, len, maxCode, optLen, hasStatic, stree, staticLen);
      ForcedSum(forced, node0, stree);
      len, forced := len + 1, forced + [node0];
    }
  }

  lemma ForcedSum(forced: seq<nat>, node: nat, stree: seq<nat>)
    ensures Sum(Weights(forced + [node], stree)) == Sum(Weights(forced, stree)) + Get(stree, node)
  {
    SumLast(Weights(forced, stree), Weights(forced + [node], stree), Get(stree, node));
  }

  function NextForced(maxCode: int): nat
    requires -1 <= maxCode
  {
    if maxCode < 2 then maxCode + 1 else 0
  }

  lemma ForceStep(f: seq<nat>, occ: seq<nat>, forced: seq<nat>, live: seq<nat>, g: seq<nat>, maxCode: int, node: nat)
    requires Forcing(f, occ, forced, live, g, maxCode) && |occ| + |forced| < 2 && 3 <= |f|
    requires node == NextForced(maxCode)
    ensures Forcing(f, occ, forced + [node], live + [node], g[node := 1], if maxCode < 2 then node else maxCode)
  {
    var forced' := forced + [node];
    assert forced'[..|forced|] == forced;
    assert forced' <= Forced(occ) by {
      if |forced| == 1 { assert forced == [0]; }
    }
    assert live + [node] == occ + forced';
  }

  /** The body of the loop. */
  method ForceOne(heap: array<nat>, fc: array<nat>, depth: array<nat>, len: nat, maxCode0: int, optLen0: int,
                  hasStatic: bool, stree: seq<nat>, staticLen0: int)
    returns (maxCode: int, optLen: int, staticLen: int)
    requires heap != fc && heap != depth && fc != depth && len + 1 < heap.Length && 3 <= fc.Length == depth.Length
    requires (hasStatic ==> 3 <= |stree|)
    requires -1 <= maxCode0
    modifies heap, fc, depth
    ensures var node := NextForced(maxCode0);
      && Live(heap[..], len + 1) == old(Live(heap[..], len)) + [node]
      && fc[..] == old(fc[..])[node := 1]
      && maxCode == (if maxCode0 < 2 then node else maxCode0)
      && staticLen == (if hasStatic then staticLen0 - Get(stree, node) else staticLen0)
    ensures optLen == optLen0 - 1
  {
    maxCode, optLen, staticLen := maxCode0, optLen0, staticLen0;
    var node: nat;
    if maxCode < 2 { maxCode := maxCode + 1; node := maxCode; } else { node := 0; }
    ghost var h := heap[..];
    heap[len + 1] := node;
    fc[node] := 1;
    depth[node] := 0;
    optLen := optLen - 1;
    if hasStatic { staticLen := staticLen - stree[node]; }
    LiveNext(h, heap[..], len);
  }

  // ---------------------------------------------------------------- what forcing means

  /** Forced symbols did not occur, and each is forced once. */
  lemma ForcedNew(f: seq<nat>, elems: nat)
    requires 3 <= elems
    ensures var occ, forced := Occurring(f, elems), Forced(Occurring(f, elems));
      NoDup(occ + forced) && forall x :: x in forced ==> x < 3 && x !in occ
  {
    OccurringNoDup(f, elems);
    var occ := Occurring(f, elems);
    assert forall i :: 0 <= i < |occ| ==> occ[i] in occ;
  }

  lemma {:induction false} OnesAtGet(f: seq<nat>, ids: seq<nat>, x: nat)
    requires forall i :: 0 <= i < |ids| ==> ids[i] < |f|
    ensures Get(OnesAt(f, ids), x) == if x in ids then 1 else Get(f, x)
    decreases |ids|
  {
    if ids != [] {
      var n := |ids| - 1;
      OnesAtGet(f, ids[..n], x);
      assert ids == ids[..n] + [ids[n]];
    }
  }

  lemma ForcedLists(f: seq<nat>, elems: nat, forced: seq<nat>, g: seq<nat>, syms: seq<nat>)
    requires 3 <= elems <= |f| && forced == Forced(Occurring(f, elems)) && g == OnesAt(f, forced)
    requires syms == Occurring(f, elems) + forced
    ensures Lists(syms, g, elems) && |syms| >= 2 && (forced != [] ==> |syms| == 2)
  {
    ForcedNew(f, elems);
    assert forall i :: 0 <= i < |forced| ==> forced[i] in forced;
    forall x: nat ensures x in syms <==> x < elems && Get(g, x) != 0 { OnesAtGet(f, forced, x); }
  }

  lemma {:induction false} OccurringLast(f: seq<nat>, n: nat)
    requires Occurring(f, n) != []
    ensures var occ := Occurring(f, n); forall x :: x in occ ==> x <= occ[|occ| - 1]
  {
    if Get(f, n - 1) == 0 { OccurringLast(f, n - 1); }
  }

  /** `maxCode` is the greatest symbol of the tree. */
  lemma MaxIsGreatest(f: seq<nat>, elems: nat, forced: seq<nat>, live: seq<nat>, g: seq<nat>, maxCode: int)
    requires 3 <= elems && forced == Forced(Occurring(f, elems))
    requires Forcing(f, Occurring(f, elems), forced, live, g, maxCode)
    ensures 0 <= maxCode < elems && maxCode in live && forall x :: x in live ==> x <= maxCode
  {
    var occ := Occurring(f, elems);
    if occ != [] { OccurringLast(f, elems); assert occ[|occ| - 1] in occ; }
    forall x | x in live ensures x <= maxCode {
      assert x in occ || x in forced;
      if |occ| == 1 { assert occ == [occ[0]]; }
    }
    if occ == [] { assert forced[1] == 1; }
    if |occ| == 1 { assert forced == [if occ[0] < 2 then occ[0] + 1 else 0]; assert forced[0] in forced; }
  }

  // ---------------------------------------------------------------- forced codes cost nothing

  lemma {:induction false} TotalUpdate(f: seq<nat>, g: seq<nat>, id: nat, len: seq<nat>, x: seq<nat>, n: nat)
    requires Get(f, id) == 0 && Get(g, id) == 1 && forall k: nat {:trigger Get(g, k)} :: k != id ==>
             Get(g, k) == Get(f, k)
    ensures TotalBits(g, len, x, n) == TotalBits(f, len, x, n) + (if id < n then Get(len, id) + Get(x, id) else 0)
  {
    if n != 0 { TotalUpdate(f, g, id, len, x, n - 1); }
  }

  /** Counting a symbol once costs its length. */
  lemma {:induction false} TotalForced(f: seq<nat>, ids: seq<nat>, len: seq<nat>, x: seq<nat>, n: nat)
    requires NoDup(ids) && forall i :: 0 <= i < |ids| ==>
             ids[i] < n && ids[i] < |f| && f[ids[i]] == 0 && Get(x, ids[i]) == 0
    ensures TotalBits(OnesAt(f, ids), len, x, n) == TotalBits(f, len, x, n) + Sum(Weights(ids, len))
    decreases |ids|
  {
    if ids == [] { assert Weights(ids, len) == []; }
    else {
      var k := |ids| - 1;
      var head, id := ids[..k], ids[k];
      assert ids == head + [id];
      TotalForced(f, head, len, x, n);
      ForcedSum(head, id, len);
      OnesAtGet(f, head, id);
      forall y: nat | y != id ensures Get(OnesAt(f, ids), y)
          == Get(OnesAt(f, head), y) { OnesAtGet(f, ids, y); OnesAtGet(f, head, y); }
      OnesAtGet(f, ids, id);
      TotalUpdate(OnesAt(f, head), OnesAt(f, ids), id, len, x, n);
    }
  }

  /** A complete code with two symbols has two words of one bit. */
  lemma TwoWords(a: nat, b: nat, m: nat)
    requires 1 <= a <= m && 1 <= b <= m && Pow2(m - a) + Pow2(m - b) == Pow2(m)
    ensures a == 1 == b
  {
    Pow2Mono(m - a, m - 1);
    Pow2Mono(m - b, m - 1);
    if a > 1 { Pow2Mono(m - a, m - 2); }
    if b > 1 { Pow2Mono(m - b, m - 2); }
  }

  lemma TwoSymbols(order: seq<nat>, syms: seq<nat>, elems: nat, node: nat, len: seq<nat>, bl: seq<nat>, m: nat)
    requires elems <= node && multiset(order) == multiset(syms) + multiset(Range(elems, node))
    requires Lengthened(order, len, bl, elems, m)
    requires |syms| == 2 && forall x :: x in syms ==> x < elems
    ensures Get(len, syms[0]) == 1 == Get(len, syms[1])
  {
    hide Range, Sum;
    var table := SpacesTable(len, elems, m);
    assert syms[0] in syms && syms[1] in syms;
    CountsSpace(order, len, elems, m, bl);
    SpacesAreTable(order, len, elems, m);
    OverLeaves(order, syms, elems, node, table);
    SymbolLens(order, syms, elems, node, len, m, 0);
    SymbolLens(order, syms, elems, node, len, m, 1);
    SumTwo(Weights(syms, table));
    TwoWords(Get(len, syms[0]), Get(len, syms[1]), m);
  }

  lemma SumTwo(s: seq<nat>)
    requires |s| == 2
    ensures Sum(s) == s[0] + s[1]
  {
    assert s == [s[0]] + [s[1]];
    SumConcat([s[0]], [s[1]]);
    SumOne(s[0]);
    SumOne(s[1]);
  }

  lemma SymbolLens(order: seq<nat>, syms: seq<nat>, elems: nat, node: nat, len: seq<nat>, m: nat, i: nat)
    requires elems <= node && multiset(order) == multiset(syms) + multiset(Range(elems, node))
    requires RA.LeafLens(order, len, elems, m)
    requires i < |syms| && syms[i] < elems
    ensures 1 <= Get(len, syms[i]) <= m
  {
    assert syms[i] in multiset(syms);
    assert syms[i] in multiset(order);
    var q :| 0 <= q < |order| && order[q] == syms[i];
  }

  // ---------------------------------------------------------------- counts and Kraft's equality

  lemma {:induction false} StartIsSpace(lens: seq<nat>, bl: seq<nat>, m: nat, b: nat)
    requires b <= m <= MAXBITS && m < |bl| && forall c {:trigger bl[c]} :: 1 <= c <= m ==> bl[c] == Count(lens, c)
    ensures Start(lens, b + 1) == Shl(LC.Space(bl, m, b), MAXBITS - m)
  {
    if b == 0 { ShlOne(MAXBITS - m); }
    else {
      StartIsSpace(lens, bl, m, b - 1);
      ShlAdd(LC.Space(bl, m, b - 1), Shl(bl[b], m - b), MAXBITS - m);
      ShlShl(bl[b], m - b, MAXBITS - m);
    }
  }

  lemma {:induction false} StartFlat(lens: seq<nat>, m: nat, b: nat)
    requires m <= b <= MAXBITS && forall c :: m < c <= b ==> Count(lens, c) == 0
    ensures Start(lens, b + 1) == Start(lens, m + 1)
    decreases b
  {
    if m < b {
      StartFlat(lens, m, b - 1);
      ShlOne(MAXBITS - b);
    }
  }

  lemma {:induction false} CntBound(lens: seq<nat>, m: nat, c: nat, n: nat)
    requires n <= |lens| && c > m && forall i :: 0 <= i < |lens| ==> lens[i] <= m
    ensures Cnt(lens, n, c) == 0
  {
    if n != 0 { CntBound(lens, m, c, n - 1); }
  }

  lemma KraftComplete(lens: seq<nat>, bl: seq<nat>, m: nat)
    requires m <= MAXBITS && m < |bl| && LC.Space(bl, m, m) == Pow2(m) && forall i :: 0 <= i < |lens| ==> lens[i] <= m
    requires forall c {:trigger bl[c]} :: 1 <= c <= m ==> bl[c] == Count(lens, c)
    ensures Kraft(lens) == Pow2(MAXBITS)
  {
    StartIsSpace(lens, bl, m, m);
    forall c | m < c <= MAXBITS ensures Count(lens, c) == 0 { CntBound(lens, m, c, |lens|); }
    FlatTo(lens, m, MAXBITS);
    Shifted(m, MAXBITS - m, MAXBITS);
  }

  lemma FlatTo(lens: seq<nat>, m: nat, n: nat)
    requires m <= n == MAXBITS && forall c :: m < c <= n ==> Count(lens, c) == 0
    ensures Kraft(lens) == Start(lens, m + 1)
  {
    StartFlat(lens, m, n);
  }

  lemma Shifted(m: nat, k: nat, n: nat)
    requires n == m + k
    ensures Shl(Pow2(m), k) == Pow2(n)
  {
    ShlOne(m);
    ShlShl(1, m, k);
    ShlOne(n);
  }

  lemma {:induction false} CntPrefix(all: seq<nat>, lens: seq<nat>, b: nat, n: nat)
    requires lens <= all && n <= |all| && b >= 1 && forall i :: |lens| <= i < |all| ==> all[i] == 0
    ensures Cnt(all, n, b) == Cnt(lens, if n <= |lens| then n else |lens|, b)
  {
    if n != 0 { CntPrefix(all, lens, b, n - 1); }
  }

  /** A complete code for all symbols that occur; `lens` goes up to the last symbol with a code. */
  ghost predicate Coded(f: seq<nat>, lens: seq<nat>, elems: nat, m: nat)
  {
    && 1 <= |lens| <= elems && lens[|lens| - 1] != 0 && (forall i :: 0 <= i < |lens| ==> lens[i] <= m)
    && (forall i: nat {:trigger Get(f, i)} :: i < elems && Get(f, i) != 0 ==> i < |lens| && lens[i] != 0)
    && Kraft(lens) == Pow2(MAXBITS)
  }

  /** The lengths outside of the tree are zero, those inside are not. */
  lemma AllLens(order: seq<nat>, syms: seq<nat>, elems: nat, node: nat, len: seq<nat>, dad: seq<nat>, g: seq<nat>,
                m: nat, n: nat)
    requires elems <= node && multiset(order) == multiset(syms) + multiset(Range(elems, node))
    requires RA.LeafLens(order, len, elems, m)
    requires Lists(syms, g, elems) && Kept(order, dad, len) && n < elems <= |len|
    requires (Get(g, n) == 0 ==> Get(dad, n) == 0)
    ensures Get(len, n) <= m && (Get(len, n) == 0 <==> Get(g, n) == 0)
  {
    if Get(g, n) != 0 {
      assert n in syms;
      var i :| 0 <= i < |syms| && syms[i] == n;
      SymbolLens(order, syms, elems, node, len, m, i);
    } else {
      assert n !in syms && n !in Range(elems, node);
      assert n !in multiset(order);
    }
  }

  // ---------------------------------------------------------------- the tree

  /** `g` has the frequencies `f`, with forced ones counted once, and frequencies of inner nodes from `elems` on. */
  ghost predicate Weighed(f: seq<nat>, forced: seq<nat>, g: seq<nat>, elems: nat)
  {
    elems <= |f| == |g| && forall x: nat {:trigger Get(g, x)} :: x < elems ==> Get(g, x) == Get(OnesAt(f, forced), x)
  }

  /** Symbols without a code have no length. */
  ghost predicate NoCodes(syms: seq<nat>, dad: seq<nat>, elems: nat)
  {
    forall x: nat {:trigger Get(dad, x)} :: x < elems && x !in syms ==> Get(dad, x) == 0
  }

  lemma GrownLists(syms: seq<nat>, f: seq<nat>, forced: seq<nat>, g: seq<nat>, elems: nat)
    requires Lists(syms, OnesAt(f, forced), elems) && Weighed(f, forced, g, elems)
    ensures Lists(syms, g, elems)
  {
    forall x: nat ensures x in syms <==> x < elems && Get(g, x) != 0 {
      if x < elems { assert Get(g, x) == Get(OnesAt(f, forced), x); }
    }
  }

  lemma GrownDads(dad: seq<nat>, dad': seq<nat>, syms: seq<nat>, g: seq<nat>, elems: nat)
    requires DadsKept(dad, dad', syms, elems) && Lists(syms, g, elems)
    requires forall x: nat {:trigger Get(dad, x)} :: x < elems && Get(g, x) == 0 ==> Get(dad, x) == 0
    ensures NoCodes(syms, dad', elems)
  {
    forall x: nat | x < elems && x !in syms ensures Get(dad', x) == 0 { assert Get(dad', x) == Get(dad, x); }
  }

  /** The tree over the symbols, as `build_tree` hands it to `gen_bitlen`. */
  ghost predicate Planted(t: Tree, j: LP.Job, syms: seq<nat>, forced: seq<nat>, f: seq<nat>)
  {
    && Built(t, j.order, j.f, j.dad, syms, j.elems) && 3 <= j.elems
    && forced == Forced(Occurring(f, j.elems)) && syms == Occurring(f, j.elems) + forced
    && Weighed(f, forced, j.f, j.elems) && NoCodes(syms, j.dad, j.elems)
  }

  /** The frequencies become a tree. */
  method PlantTree(heap: array<nat>, fc: array<nat>, dl: array<nat>, depth: array<nat>, elems: nat, hasStatic: bool,
                   stree: seq<nat>, optLen0: int, staticLen0: int, ghost f: seq<nat>, ghost m: nat, ghost x: seq<nat>)
    returns (max: nat, maxCode: nat, optLen: int, staticLen: int, ghost t: Tree, ghost j: LP.Job, ghost syms: seq<nat>,
             ghost forced: seq<nat>)
    requires heap != fc && heap != dl && heap != depth && fc != dl && fc != depth && dl != depth
    requires 3 <= elems && heap.Length == 2 * elems + 1 && 2 * elems <= fc.Length == dl.Length == depth.Length
    requires (hasStatic ==> elems <= |stree|)
    requires f == fc[..]
    modifies heap, fc, dl, depth
    ensures max < heap.Length && Planted(t, j, syms, forced, f)
    ensures j == LP.Job(heap[max..], dl[..], elems, m, fc[..], x, stree)
    ensures maxCode < elems && maxCode in syms && forall x :: x in syms ==> x <= maxCode
    ensures optLen == optLen0 - |forced|
    ensures staticLen == if hasStatic then staticLen0 - Sum(Weights(forced, stree)) else staticLen0
  {
    var len;
    ghost var g, dad;
    len, maxCode, optLen, staticLen, syms, forced, g, dad :=
        FillHeap(heap, fc, dl, depth, elems, hasStatic, stree, optLen0, staticLen0, f);
    max, t := GrowTree(heap, fc, dl, depth, len, syms, elems);
    j := LP.Job(heap[max..], dl[..], elems, m, fc[..], x, stree);
    PlantedTree(t, j, syms, forced, f, g, dad);
  }

  lemma PlantedTree(t: Tree, j: LP.Job, syms: seq<nat>, forced: seq<nat>, f: seq<nat>, g: seq<nat>, dad: seq<nat>)
    requires Built(t, j.order, j.f, j.dad, syms, j.elems) && DadsKept(dad, j.dad, syms, j.elems) && 3 <= j.elems
    requires j.elems <= |f| == |g| == |j.f| && (forall x :: 0 <= x < j.elems ==> j.f[x] == g[x])
    requires Filled(f, g, dad, j.elems, syms, forced)
    ensures Planted(t, j, syms, forced, f)
  {
    GrownFrequencies(f, forced, g, j.f, j.elems);
    GrownDads(dad, j.dad, syms, g, j.elems);
  }

  /** The heap of all symbols that occur or are forced. */
  method FillHeap(heap: array<nat>, fc: array<nat>, dl: array<nat>, depth: array<nat>, elems: nat, hasStatic: bool,
                  stree: seq<nat>, optLen0: int, staticLen0: int, ghost f: seq<nat>)
    returns (len: nat, maxCode: nat, optLen: int, staticLen: int, ghost syms: seq<nat>, ghost forced: seq<nat>,
             ghost g: seq<nat>, ghost dad: seq<nat>)
    requires heap != fc && heap != dl && heap != depth && fc != dl && fc != depth && dl != depth
    requires 3 <= elems && heap.Length == 2 * elems + 1 && 2 * elems <= fc.Length == dl.Length == depth.Length
    requires (hasStatic ==> elems <= |stree|)
    requires f == fc[..]
    modifies heap, fc, dl, depth
    ensures 2 <= len <= elems && syms == Live(heap[..], len) && g == fc[..] && dad == dl[..]
    ensures Filled(f, g, dad, elems, syms, forced)
    ensures maxCode < elems && maxCode in syms && forall x :: x in syms ==> x <= maxCode
    ensures optLen == optLen0 - |forced|
    ensures staticLen == if hasStatic then staticLen0 - Sum(Weights(forced, stree)) else staticLen0
  {
    var mc;
    len, mc := InitHeap(heap, fc, dl, depth, elems);
    ghost var occ := Occurring(f, elems);
    len, mc, optLen, staticLen, forced := ForceCodes(heap, fc, depth, len, mc, elems, optLen0, hasStatic, stree,
                                                     staticLen0, f, occ);
    syms := Live(heap[..], len);
    g, dad := fc[..], dl[..];
    FilledHeap(f, g, dad, elems, syms, forced, mc);
    maxCode := mc;
  }

  /** The symbols of the heap, with the forced ones, and no lengths for the others. */
  ghost predicate Filled(f: seq<nat>, g: seq<nat>, dad: seq<nat>, elems: nat, syms: seq<nat>, forced: seq<nat>)
  {
    && elems <= |f| && g == OnesAt(f, forced) && Lists(syms, g, elems)
    && forced == Forced(Occurring(f, elems)) && syms == Occurring(f, elems) + forced
    && forall x: nat {:trigger Get(dad, x)} :: x < elems && Get(g, x) == 0 ==> Get(dad, x) == 0
  }

  lemma FilledHeap(f: seq<nat>, g: seq<nat>, dad: seq<nat>, elems: nat, syms: seq<nat>, forced: seq<nat>, mc: int)
    requires 3 <= elems <= |f| == |dad| && forced == Forced(Occurring(f, elems))
    requires Forcing(f, Occurring(f, elems), forced, syms, g, mc)
    requires forall n :: 0 <= n < elems && f[n] == 0 ==> dad[n] == 0
    ensures 2 <= |syms| <= elems && 0 <= mc < elems && mc in syms && (forall x :: x in syms ==> x <= mc)
    ensures Filled(f, g, dad, elems, syms, forced)
  {
    ForcedLists(f, elems, forced, g, syms);
    MaxIsGreatest(f, elems, forced, syms, g, mc);
    SymbolNumber(syms, g, elems);
    ForcedNew(f, elems);
    ForcedDads(f, forced, g, dad, elems);
  }

  lemma GrownFrequencies(f: seq<nat>, forced: seq<nat>, g: seq<nat>, g': seq<nat>, elems: nat)
    requires elems <= |f| == |g| == |g'| && g == OnesAt(f, forced) && forall x :: 0 <= x < elems ==> g'[x] == g[x]
    ensures Weighed(f, forced, g', elems)
  {
  }

  lemma ForcedDads(f: seq<nat>, forced: seq<nat>, g: seq<nat>, dad: seq<nat>, elems: nat)
    requires elems <= |f| == |g| == |dad| && g == OnesAt(f, forced) && (forall x :: x in forced ==> x < elems)
    requires forall n :: 0 <= n < elems && f[n] == 0 ==> dad[n] == 0
    ensures forall x: nat {:trigger Get(dad, x)} :: x < elems && Get(g, x) == 0 ==> Get(dad, x) == 0
  {
    assert forall i :: 0 <= i < |forced| ==> forced[i] in forced;
    forall x: nat | x < elems && Get(g, x) == 0 ensures Get(dad, x) == 0 { OnesAtGet(f, forced, x); }
  }

  lemma SymbolNumber(syms: seq<nat>, g: seq<nat>, elems: nat)
    requires Lists(syms, g, elems)
    ensures |syms| <= elems
  {
    var o := Occurring(g, elems);
    OccurringNoDup(g, elems);
    SameElements(syms, o);
    assert |multiset(syms)| == |multiset(o)|;
    OccurringNumber(g, elems);
  }

  lemma {:induction false} OccurringNumber(g: seq<nat>, n: nat)
    ensures |Occurring(g, n)| <= n
  {
    if n != 0 { OccurringNumber(g, n - 1); }
  }

  // ---------------------------------------------------------------- lengths and costs

  /** The tree and the lengths that belong to it, as values. */
  datatype Lengths = Lengths(order: seq<nat>, syms: seq<nat>, forced: seq<nat>, g: seq<nat>, dad: seq<nat>,
                             len: seq<nat>, bl: seq<nat>, node: nat)

  ghost predicate Measured(r: Lengths, f: seq<nat>, elems: nat, m: nat)
  {
    && elems <= r.node && multiset(r.order) == multiset(r.syms) + multiset(Range(elems, r.node))
    && r.forced == Forced(Occurring(f, elems)) && r.syms == Occurring(f, elems) + r.forced
        && Weighed(f, r.forced, r.g, elems)
    && Lengthened(r.order, r.len, r.bl, elems, m) && Kept(r.order, r.dad, r.len) && NoCodes(r.syms, r.dad, elems)
        && elems <= |r.len|
    && |r.bl| == MAXBITS + 1 && 3 <= elems
  }

  lemma MeasuredLists(r: Lengths, f: seq<nat>, elems: nat, m: nat)
    requires Measured(r, f, elems, m)
    ensures Lists(r.syms, r.g, elems) && |r.syms| >= 2 && (r.forced != [] ==> |r.syms| == 2)
    ensures forall x: nat :: x < elems && Get(f, x) != 0 ==> Get(r.g, x) != 0
  {
    ForcedLists(f, elems, r.forced, OnesAt(f, r.forced), r.syms);
    GrownLists(r.syms, f, r.forced, r.g, elems);
    forall x: nat | x < elems && Get(f, x) != 0 ensures Get(r.g, x) != 0 { assert x in Occurring(f, elems);
                                                                          assert x in r.syms; }
  }

  lemma MeasuredLens(r: Lengths, f: seq<nat>, elems: nat, m: nat, n: nat)
    requires Measured(r, f, elems, m) && n < elems
    ensures Get(r.len, n) <= m && (Get(r.len, n) == 0 <==> Get(r.g, n) == 0)
  {
    MeasuredLists(r, f, elems, m);
    AllLens(r.order, r.syms, elems, r.node, r.len, r.dad, r.g, m, n);
  }

  /** `lens` are the lengths of the symbols up to the last one with a code. */
  ghost predicate Cut(r: Lengths, lens: seq<nat>, maxCode: nat, elems: nat)
  {
    && maxCode < elems && maxCode in r.syms && (forall x :: x in r.syms ==> x <= maxCode)
    && |lens| == maxCode + 1 && forall i :: 0 <= i < |lens| ==> lens[i] == Get(r.len, i)
  }

  lemma CutLens(r: Lengths, lens: seq<nat>, maxCode: nat, f: seq<nat>, elems: nat, m: nat, n: nat)
    requires Measured(r, f, elems, m) && Cut(r, lens, maxCode, elems) && n < elems
    ensures Get(lens, n) == Get(r.len, n) <= m && (Get(lens, n) != 0 <==> n in r.syms)
    ensures Get(f, n) != 0 ==> Get(lens, n) != 0
  {
    MeasuredLists(r, f, elems, m);
    MeasuredLens(r, f, elems, m, n);
  }

  lemma CutCounts(r: Lengths, lens: seq<nat>, maxCode: nat, f: seq<nat>, elems: nat, m: nat, b: nat)
    requires Measured(r, f, elems, m) && Cut(r, lens, maxCode, elems) && b >= 1
    ensures Count(lens, b) == LeafCount(r.order, Weights(r.order, r.len), elems, b)
  {
    var all := seq(elems, i requires 0 <= i < elems => Get(r.len, i));
    MeasuredLists(r, f, elems, m);
    forall i: nat | i < elems ensures all[i] == Get(lens, i) && (Get(r.g, i) == 0 ==> all[i] == 0) {
      CutLens(r, lens, maxCode, f, elems, m, i);
      MeasuredLens(r, f, elems, m, i);
    }
    CountIsCnt(r.order, r.syms, elems, r.node, r.len, r.g, all, b);
    PrefixOf(lens, all);
    CntPrefix(all, lens, b, elems);
  }

  lemma PrefixOf(lens: seq<nat>, all: seq<nat>)
    requires |lens| <= |all| && forall i: nat :: i < |all| ==> all[i] == Get(lens, i)
    ensures lens <= all && forall i :: |lens| <= i < |all| ==> all[i] == 0
  {
    assert lens == all[..|lens|] by {
      forall i | 0 <= i < |lens| ensures lens[i] == all[i] { assert all[i] == Get(lens, i); }
    }
  }

  /** The lengths form a complete code, and the counts are theirs. */
  lemma CutCoded(r: Lengths, lens: seq<nat>, maxCode: nat, f: seq<nat>, elems: nat, m: nat)
    requires Measured(r, f, elems, m) && Cut(r, lens, maxCode, elems) && m <= MAXBITS
    ensures Coded(f, lens, elems, m) && forall b :: 1 <= b <= MAXBITS ==> r.bl[b] == Count(lens, b)
  {
    forall n: nat | n < elems
      ensures Get(lens, n) <= m && (Get(f, n) != 0 ==> Get(lens, n) != 0)
    {
      CutLens(r, lens, maxCode, f, elems, m, n);
    }
    CutLens(r, lens, maxCode, f, elems, m, maxCode);
    assert forall i :: 0 <= i < |lens| ==> lens[i] == Get(lens, i);
    CutBl(r, lens, maxCode, f, elems, m);
    KraftComplete(lens, r.bl, m);
  }

  lemma CutBl(r: Lengths, lens: seq<nat>, maxCode: nat, f: seq<nat>, elems: nat, m: nat)
    requires Measured(r, f, elems, m) && Cut(r, lens, maxCode, elems) && m <= MAXBITS
    ensures forall b :: 1 <= b <= MAXBITS ==> r.bl[b] == Count(lens, b)
  {
    forall b | 1 <= b <= MAXBITS ensures r.bl[b] == Count(lens, b) {
      CutCounts(r, lens, maxCode, f, elems, m, b);
      if b > m { NoLongLens(r.order, r.len, elems, m, b); }
    }
  }

  lemma {:induction false} TotalFrame(f: seq<nat>, g: seq<nat>, len: seq<nat>, len': seq<nat>, x: seq<nat>, n: nat)
    requires forall k: nat :: k < n ==> Get(f, k) == Get(g, k) && Get(len, k) == Get(len', k)
    ensures TotalBits(f, len, x, n) == TotalBits(g, len', x, n)
  {
    if n != 0 { TotalFrame(f, g, len, len', x, n - 1); }
  }

  /** The cost of the tree is that of the lengths, for any table of lengths. */
  lemma MeasuredCost(r: Lengths, ls: seq<nat>, f: seq<nat>, elems: nat, m: nat, x: seq<nat>)
    requires Measured(r, f, elems, m) && elems <= |f| && forall i: nat :: i < 3 ==> Get(x, i) == 0
    ensures BitCost(r.order, Weights(r.order, ls), elems, r.g, x) == TotalBits(f, ls, x, elems)
            + Sum(Weights(r.forced, ls))
  {
    MeasuredLists(r, f, elems, m);
    CostIsTotal(r.order, r.syms, elems, r.node, ls, r.g, x);
    TotalFrame(r.g, OnesAt(f, r.forced), ls, ls, x, elems);
    ForcedNew(f, elems);
    ForcedZero(f, elems);
    TotalForced(f, r.forced, ls, x, elems);
  }

  lemma ForcedZero(f: seq<nat>, elems: nat)
    requires 3 <= elems <= |f|
    ensures var forced := Forced(Occurring(f, elems)); NoDup(forced) && forall i :: 0 <= i < |forced| ==>
            forced[i] < 3 && f[forced[i]] == 0
  {
    ForcedNew(f, elems);
    var forced := Forced(Occurring(f, elems));
    assert forall i :: 0 <= i < |forced| ==> forced[i] in forced;
  }

  /** Forced symbols have codes of one bit, so they cost what was deducted for them. */
  lemma ForcedOneBit(r: Lengths, f: seq<nat>, elems: nat, m: nat)
    requires Measured(r, f, elems, m)
    ensures Sum(Weights(r.forced, r.len)) == |r.forced|
  {
    MeasuredLists(r, f, elems, m);
    if r.forced == [] { assert Weights(r.forced, r.len) == []; }
    else {
      TwoSymbols(r.order, r.syms, elems, r.node, r.len, r.bl, m);
      forall i | 0 <= i < |r.forced| ensures Weights(r.forced, r.len)[i] == 1 {
        assert r.forced[i] == r.syms[|Occurring(f, elems)| + i];
      }
      OnesSum(Weights(r.forced, r.len));
    }
  }

  /** What is added to `opt_len` is the cost of the symbols that really occur. */
  lemma CutCost(r: Lengths, lens: seq<nat>, maxCode: nat, f: seq<nat>, elems: nat, m: nat, x: seq<nat>)
    requires Measured(r, f, elems, m) && Cut(r, lens, maxCode, elems) && elems <= |f| && forall i: nat :: i < 3 ==>
             Get(x, i) == 0
    ensures BitCost(r.order, Weights(r.order, r.len), elems, r.g, x) - |r.forced| == TotalBits(f, lens, x, elems)
  {
    MeasuredCost(r, r.len, f, elems, m, x);
    ForcedOneBit(r, f, elems, m);
    forall n: nat | n < elems ensures Get(lens, n) == Get(r.len, n) { CutLens(r, lens, maxCode, f, elems, m, n); }
    TotalFrame(f, f, r.len, lens, x, elems);
  }

  // ---------------------------------------------------------------- optimality

  /** The symbols that get a code, and how often each is counted. */
  function Alphabet(f: seq<nat>, elems: nat): seq<nat>
  {
    Occurring(f, elems) + Forced(Occurring(f, elems))
  }

  function Frequencies(f: seq<nat>, elems: nat): seq<nat>
  {
    OnesAt(f, Forced(Occurring(f, elems)))
  }

  /** No prefix code for the same symbols takes fewer bits than the lengths `lens`. */
  ghost predicate Minimal(f: seq<nat>, lens: seq<nat>, elems: nat)
  {
    forall code: seq<Word> :: PrefixFree(code) && |code| == |Alphabet(f, elems)| ==>
      TotalBits(Frequencies(f, elems), lens, [], elems) <= Cost(Weights(Alphabet(f, elems), Frequencies(f, elems)),
                                                                Optimal.Lengths(code))
  }

  lemma MinimalLengths(r: Lengths, lens: seq<nat>, maxCode: nat, f: seq<nat>, elems: nat, m: nat)
    requires Measured(r, f, elems, m) && Cut(r, lens, maxCode, elems)
    requires BitCost(r.order, Weights(r.order, r.len), elems, r.g, []) == Huffman(multiset(Weights(r.syms, r.g)))
    ensures Minimal(f, lens, elems)
  {
    var h := Frequencies(f, elems);
    MeasuredLists(r, f, elems, m);
    CostIsTotal(r.order, r.syms, elems, r.node, r.len, r.g, []);
    forall n: nat | n < elems ensures Get(lens, n) == Get(r.len, n) { CutLens(r, lens, maxCode, f, elems, m, n); }
    TotalFrame(r.g, h, r.len, lens, [], elems);
    SameWeights(r.syms, r.g, h, elems);
    forall code: seq<Word> | PrefixFree(code) && |code| == |Alphabet(f, elems)|
      ensures TotalBits(h, lens, [], elems) <= Cost(Weights(r.syms, h), Optimal.Lengths(code))
    {
      OptimalAmongPrefixCodes(Weights(r.syms, h), code);
    }
  }

  lemma SameWeights(syms: seq<nat>, g: seq<nat>, h: seq<nat>, elems: nat)
    requires Lists(syms, g, elems) && forall x: nat {:trigger Get(g, x)} :: x < elems ==> Get(g, x) == Get(h, x)
    ensures Weights(syms, g) == Weights(syms, h)
  {
    assert forall i :: 0 <= i < |syms| ==> syms[i] in syms;
    WeightsFrame(syms, g, h);
  }

  // ---------------------------------------------------------------- rare symbols

  /** Of two symbols with codes, the more frequent one has no longer code. */
  ghost predicate FairCode(f: seq<nat>, lens: seq<nat>, elems: nat)
  {
    forall a: nat, b: nat {:trigger Get(lens, a), Get(lens, b)} ::
      (a < elems && b < elems && Get(lens, a) != 0 && Get(lens, b) != 0 && Get(f, b) < Get(f, a)) ==>
        Get(lens, a) <= Get(lens, b)
  }

  /** A symbol that was forced has a code of one bit, like the only other one. */
  lemma FairInside(r: Lengths, lens: seq<nat>, maxCode: nat, f: seq<nat>, elems: nat, m: nat)
    requires Measured(r, f, elems, m) && Cut(r, lens, maxCode, elems) && Fair(r.syms, r.g, r.len)
    ensures FairCode(f, lens, elems)
  {
    hide Measured, Cut, Fair;
    forall a: nat, b: nat | a < elems && b < elems && Get(lens, a) != 0 && Get(lens, b) != 0 && Get(f, b) < Get(f, a)
      ensures Get(lens, a) <= Get(lens, b)
    {
      CutLens(r, lens, maxCode, f, elems, m, a);
      CutLens(r, lens, maxCode, f, elems, m, b);
      FairPair(r, f, elems, m, a, b);
    }
  }

  lemma FairPair(r: Lengths, f: seq<nat>, elems: nat, m: nat, a: nat, b: nat)
    requires Measured(r, f, elems, m) && Fair(r.syms, r.g, r.len)
    requires a in r.syms && b in r.syms && a < elems && b < elems && Get(f, b) < Get(f, a)
    ensures Get(r.len, a) <= Get(r.len, b)
  {
    hide Lengthened, Kept, NoCodes;
    MeasuredLists(r, f, elems, m);
    if r.forced == [] {
      assert Get(r.g, a) == Get(f, a) && Get(r.g, b) == Get(f, b) by { Unforced(r, f, elems, m, a, b); }
    } else {
      TwoSymbols(r.order, r.syms, elems, r.node, r.len, r.bl, m);
    }
  }

  lemma Unforced(r: Lengths, f: seq<nat>, elems: nat, m: nat, a: nat, b: nat)
    requires Measured(r, f, elems, m) && r.forced == [] && a < elems && b < elems
    ensures Get(r.g, a) == Get(f, a) && Get(r.g, b) == Get(f, b)
  {
    assert OnesAt(f, []) == f;
  }

  // ---------------------------------------------------------------- all together

  /** What is left in the arrays and counters for the lengths `r`. */
  ghost predicate Billed(r: Lengths, f: seq<nat>, elems: nat, m: nat, x: seq<nat>, hasStatic: bool, stree: seq<nat>,
                         optLen: int, staticLen: int, overflow: nat)
  {
    && Measured(r, f, elems, m)
    && optLen == BitCost(r.order, Weights(r.order, r.len), elems, r.g, x) - |r.forced|
    && staticLen == (if hasStatic then BitCost(r.order, Weights(r.order, stree), elems, r.g,
                                               x) - Sum(Weights(r.forced, stree)) else 0)
    && (overflow == 0 ==>
        BitCost(r.order, Weights(r.order, r.len), elems, r.g, [])
        == Huffman(multiset(Weights(r.syms, r.g))))
    && Fair(r.syms, r.g, r.len)
  }

  /** The lengths of the tree over the symbols in `fc`. */
  method TreeLengths(fc: array<nat>, dl: array<nat>, blCount: array<nat>, elems: nat, m: nat, extra: seq<nat>,
                     base: nat, hasStatic: bool, stree: seq<nat>, optLen0: int, staticLen0: int, ghost f: seq<nat>,
                     ghost x: seq<nat>)
    returns (maxCode: nat, optLen: int, staticLen: int, overflow: nat, ghost r: Lengths)
    requires fc != dl && fc != blCount && dl != blCount && blCount.Length == MAXBITS + 1
    requires 3 <= elems <= Pow2(m) && 2 * elems <= fc.Length == dl.Length && 2 <= m <= MAXBITS
    requires elems <= base + |extra| && (hasStatic ==> elems <= |stree|) && f == fc[..]
    requires x == ExtraBits(extra, base, elems)
    modifies fc, dl, blCount
    ensures r.len == dl[..] && r.bl == blCount[..] && maxCode < elems && maxCode in r.syms
    ensures (forall n :: n in r.syms ==> n <= maxCode)
    ensures Billed(r, f, elems, m, x, hasStatic, stree, optLen - optLen0, staticLen - staticLen0, overflow)
  {
    var heap, depth := new nat[2 * elems + 1], new nat[fc.Length];
    var max;
    ghost var t, j, syms, forced;
    max, maxCode, optLen, staticLen, t, j, syms, forced :=
        PlantTree(heap, fc, dl, depth, elems, hasStatic, stree, optLen0, staticLen0, f, m, x);
    SymbolsFit(t, j, syms, forced, f);
    ghost var len, optLen1, staticLen1 := [], optLen, staticLen;
    optLen, staticLen, overflow, len :=
      GenBitlen.GenBitlen(heap, max, fc, dl, blCount, maxCode, m, extra, base, hasStatic, stree, optLen, staticLen, t,
                          j, syms);
    r := Assembled(t, j, syms, forced, f, len, blCount[..], m);
    MadeFair(t, j, syms, forced, f, len, blCount[..], m, overflow);
  }

  /** The lengths are fair, whether or not they had to be repaired. */
  lemma MadeFair(t: Tree, j: LP.Job, syms: seq<nat>, forced: seq<nat>, f: seq<nat>, len: seq<nat>, bl: seq<nat>,
                 m: nat, overflow: nat)
    requires Planted(t, j, syms, forced, f) && Lengthened(j.order, len, bl, j.elems, m)
    requires overflow == 0 ==>
             BitCost(j.order, Weights(j.order, len), j.elems, j.f, []) == Huffman(multiset(Weights(syms, j.f)))
    requires overflow > 0 ==> RA.Rising(j.order, len, j.elems, 1)
    ensures Fair(syms, j.f, len)
  {
    hide Good, Huffman, TreeCost, Lengthened, RA.Rising, Descending, Fair;
    var node: nat := j.elems + |syms| - 1;
    if overflow == 0 {
      OptimalIsFair(j.order, syms, j.elems, node, j.f, len, bl, m);
    } else {
      RisingIsFair(j.order, syms, j.elems, node, j.f, len);
    }
  }

  lemma Assembled(t: Tree, j: LP.Job, syms: seq<nat>, forced: seq<nat>, f: seq<nat>, len: seq<nat>, bl: seq<nat>,
                  m: nat) returns (r: Lengths)
    requires Planted(t, j, syms, forced, f)
    requires Lengthened(j.order, len, bl, j.elems, m) && Kept(j.order, j.dad, len) && |bl| == MAXBITS + 1
    ensures r == Lengths(j.order, syms, forced, j.f, j.dad, len, bl, r.node) && Measured(r, f, j.elems, m)
  {
    hide Get, Huffman, Weights, Sum;
    r := Lengths(j.order, syms, forced, j.f, j.dad, len, bl, j.elems + |syms| - 1);
  }

  lemma SymbolsFit(t: Tree, j: LP.Job, syms: seq<nat>, forced: seq<nat>, f: seq<nat>)
    requires Planted(t, j, syms, forced, f)
    ensures |syms| <= j.elems && Built(t, j.order, j.f, j.dad, syms, j.elems)
  {
    ForcedLists(f, j.elems, forced, OnesAt(f, forced), syms);
    SymbolNumber(syms, OnesAt(f, forced), j.elems);
  }

  /**
    * Builds the code for the frequencies in `fc`. Afterwards `dl` holds the code lengths and `fc` the code words. The
    * cost of the symbols is exact, and minimal unless a code word had to be shortened.
    */
  method BuildTree(fc: array<nat>, dl: array<nat>, elems: nat, m: nat, extra: seq<nat>, base: nat, hasStatic: bool,
                   stree: seq<nat>, optLen0: int, staticLen0: int)
    returns (maxCode: nat, optLen: int, staticLen: int, overflow: nat, ghost lens: seq<nat>)
    requires fc != dl && 3 <= elems <= Pow2(m) && 2 * elems <= fc.Length == dl.Length && 2 <= m <= MAXBITS
    requires elems <= base + |extra| && (hasStatic ==> elems <= |stree|)
    requires forall i: nat :: i < 3 ==> Get(ExtraBits(extra, base, elems), i) == 0
    modifies fc, dl
    ensures maxCode < elems && lens == dl[..maxCode + 1] && Coded(old(fc[..]), lens, elems, m)
    ensures forall n :: maxCode < n < elems ==> dl[n] == 0
    ensures forall i :: 0 <= i <= maxCode && lens[i] != 0 ==> fc[i] == Rev(Code(lens, i), lens[i])
    ensures optLen == optLen0 + TotalBits(old(fc[..]), lens, ExtraBits(extra, base, elems), elems)
    ensures staticLen == if hasStatic then staticLen0
            + TotalBits(old(fc[..]), stree, ExtraBits(extra, base, elems), elems) else staticLen0
    ensures overflow == 0 ==> Minimal(old(fc[..]), lens, elems)
    ensures FairCode(old(fc[..]), lens, elems)
  {
    hide Coded, Minimal, FairCode, TotalBits, Kraft, Count, Rev, Code, ValidLens;
    var blCount := new nat[MAXBITS + 1];
    maxCode, optLen, staticLen, overflow, lens :=
        LengthsFor(fc, dl, blCount, elems, m, extra, base, hasStatic, stree, optLen0, staticLen0, fc[..]);
    GC.GenCodes(fc, dl, maxCode, blCount, lens);
  }

  /** The code lengths, without the code words. */
  method LengthsFor(fc: array<nat>, dl: array<nat>, blCount: array<nat>, elems: nat, m: nat, extra: seq<nat>, base: nat,
                    hasStatic: bool, stree: seq<nat>, optLen0: int, staticLen0: int, ghost f: seq<nat>)
    returns (maxCode: nat, optLen: int, staticLen: int, overflow: nat, ghost lens: seq<nat>)
    requires fc != dl && fc != blCount && dl != blCount && blCount.Length == MAXBITS + 1 && f == fc[..]
    requires 3 <= elems <= Pow2(m) && 2 * elems <= fc.Length == dl.Length && 2 <= m <= MAXBITS
    requires elems <= base + |extra| && (hasStatic ==> elems <= |stree|)
    requires forall i: nat :: i < 3 ==> Get(ExtraBits(extra, base, elems), i) == 0
    modifies fc, dl, blCount
    ensures maxCode < elems && lens == dl[..maxCode + 1] && Coded(f, lens, elems, m) && ValidLens(lens)
    ensures Kraft(lens) <= Pow2(MAXBITS)
    ensures blCount[0] == 0 && forall b {:trigger blCount[b]} :: 1 <= b <= MAXBITS ==> blCount[b] == Count(lens, b)
    ensures forall n :: maxCode < n < elems ==> dl[n] == 0
    ensures optLen == optLen0 + TotalBits(f, lens, ExtraBits(extra, base, elems), elems)
    ensures staticLen == if hasStatic then staticLen0 + TotalBits(f, stree, ExtraBits(extra, base, elems), elems)
            else staticLen0
    ensures overflow == 0 ==> Minimal(f, lens, elems)
    ensures FairCode(f, lens, elems)
  {
    hide Billed, Coded, Minimal, FairCode, TotalBits, Kraft, Count, ValidLens;
    ghost var x, r := ExtraBits(extra, base, elems), Lengths([], [], [], [], [], [], [], 0);
    maxCode, optLen, staticLen, overflow, r :=
      TreeLengths(fc, dl, blCount, elems, m, extra, base, hasStatic, stree, optLen0, staticLen0, f, x);
    lens := dl[..maxCode + 1];
    TreeDone(r, lens, maxCode, f, elems, m, x, hasStatic, stree, optLen - optLen0, staticLen - staticLen0, overflow);
  }

  lemma TreeDone(r: Lengths, lens: seq<nat>, maxCode: nat, f: seq<nat>, elems: nat, m: nat, x: seq<nat>,
                 hasStatic: bool, stree: seq<nat>, optLen: int, staticLen: int, overflow: nat)
    requires Billed(r, f, elems, m, x, hasStatic, stree, optLen, staticLen, overflow) && elems <= |f| && m <= MAXBITS
    requires maxCode < elems && maxCode in r.syms && (forall n :: n in r.syms ==> n <= maxCode)
    requires lens == r.len[..maxCode + 1]
    requires forall i: nat :: i < 3 ==> Get(x, i) == 0
    ensures Coded(f, lens, elems, m) && ValidLens(lens) && Kraft(lens) <= Pow2(MAXBITS)
    ensures r.bl[0] == 0 && forall b :: 1 <= b <= MAXBITS ==> r.bl[b] == Count(lens, b)
    ensures forall n :: maxCode < n < elems ==> r.len[n] == 0
    ensures overflow == 0 ==> Minimal(f, lens, elems)
    ensures FairCode(f, lens, elems)
    ensures optLen == TotalBits(f, lens, x, elems)
    ensures staticLen == if hasStatic then TotalBits(f, stree, x, elems) else 0
  {
    CutCoded(r, lens, maxCode, f, elems, m);
    CutCost(r, lens, maxCode, f, elems, m, x);
    MeasuredCost(r, stree, f, elems, m, x);
    forall n | maxCode < n < elems ensures r.len[n] == 0 { CutLens(r, lens, maxCode, f, elems, m, n); }
    if overflow == 0 { MinimalLengths(r, lens, maxCode, f, elems, m); }
    FairInside(r, lens, maxCode, f, elems, m);
  }
}

/**
  * The frequencies in dep/zlib/trees.c are counted in 16 bits (`ct_data` of dep/zlib/deflate.h). Here they are
  * natural numbers; this shows that none of them ever needs more.
  */
module Counters {
  import opened Tokens
  import opened Forest
  import opened TreeSums
  import opened BlockData
  import opened BlockCost
  import opened BuildTree
  import HT = HuffmanTree
  import GB = GenBitlen
  import LP = LengthPass

  /** All frequencies of the symbols below `n` that are in `ids`. */
  function Mass(ids: set<nat>, f: seq<nat>, n: nat): nat
  {
    if n == 0 then 0 else Mass(ids, f, n - 1) + if n - 1 in ids then Get(f, n - 1) else 0
  }

  /** The frequencies of all symbols below `n`. */
  function Total(f: seq<nat>, n: nat): nat
  {
    if n == 0 then 0 else Total(f, n - 1) + Get(f, n - 1)
  }

  lemma {:induction false} MassJoin(a: set<nat>, b: set<nat>, f: seq<nat>, n: nat)
    requires a !! b
    ensures Mass(a + b, f, n) == Mass(a, f, n) + Mass(b, f, n)
  {
    if n != 0 { MassJoin(a, b, f, n - 1); }
  }

  lemma {:induction false} MassOne(id: nat, f: seq<nat>, n: nat)
    ensures Mass({id}, f, n) == if id < n then Get(f, id) else 0
  {
    if n != 0 { MassOne(id, f, n - 1); }
  }

  lemma {:induction false} MassAtMost(ids: set<nat>, f: seq<nat>, n: nat)
    ensures Mass(ids, f, n) <= Total(f, n)
  {
    if n != 0 { MassAtMost(ids, f, n - 1); }
  }

  // ---------------------------------------------------------------- trees

  function LeafIds(t: Tree): set<nat>
  {
    match t case Leaf(id) => {id} case Node(_, l, r) => LeafIds(l) + LeafIds(r)
  }

  lemma {:induction false} LeafIdsListed(t: Tree, x: nat)
    requires x in LeafIds(t)
    ensures x in IdList(t)
  {
    if t.Node? { if x in LeafIds(t.left) { LeafIdsListed(t.left, x); } else { LeafIdsListed(t.right, x); } }
  }

  lemma PartsApart(x: nat, a: seq<nat>, b: seq<nat>)
    requires NoDup([x] + (a + b))
    ensures NoDup(a) && NoDup(b) && forall y :: y in a ==> y !in b
  {
    NoDupParts(x, a, b);
    var s := [x] + (a + b);
    forall y | y in a ensures y !in b {
      var i :| 0 <= i < |a| && a[i] == y;
      assert s[1 + i] == y && forall j :: 0 <= j < |b| ==> b[j] == s[1 + |a| + j];
    }
  }

  /** The frequency of the root is that of all leaves together, and no node has more. */
  lemma {:induction false} RootHasAll(t: Tree, f: seq<nat>, dad: seq<nat>, elems: nat, node: nat)
    requires Good(t, f, dad, elems, node) && NoDup(IdList(t))
    ensures Get(f, t.id) == Mass(LeafIds(t), f, elems) && forall id :: id in IdList(t) ==> Get(f, id) <= Get(f, t.id)
  {
    match t
    case Leaf(id) => MassOne(id, f, elems);
    case Node(id, l, r) =>
      PartsApart(id, IdList(l), IdList(r));
      RootHasAll(l, f, dad, elems, node);
      RootHasAll(r, f, dad, elems, node);
      forall x | x in LeafIds(l) ensures x !in LeafIds(r) {
        LeafIdsListed(l, x);
        if x in LeafIds(r) { LeafIdsListed(r, x); }
      }
      MassJoin(LeafIds(l), LeafIds(r), f, elems);
  }

  // ---------------------------------------------------------------- frequencies of a block

  lemma {:induction false} TotalSame(f: seq<nat>, g: seq<nat>, n: nat)
    requires forall x: nat :: x < n ==> Get(f, x) == Get(g, x)
    ensures Total(f, n) == Total(g, n)
  {
    if n != 0 { TotalSame(f, g, n - 1); }
  }

  lemma {:induction false} TotalSet(f: seq<nat>, s: nat, v: nat, n: nat)
    requires s < |f|
    ensures Total(f[s := v], n) + (if s < n then f[s] else 0) == Total(f, n) + (if s < n then v else 0)
  {
    if n != 0 { TotalSet(f, s, v, n - 1); }
  }

  /** Forced symbols add at most one each. */
  lemma {:induction false} TotalForced(f: seq<nat>, forced: seq<nat>, n: nat)
    ensures Total(OnesAt(f, forced), n) <= Total(f, n) + |forced|
  {
    if forced != [] {
      var k := |forced| - 1;
      TotalForced(f, forced[..k], n);
      var r, s := OnesAt(f, forced[..k]), forced[k];
      if s < |r| { TotalSet(r, s, 1, n); }
    }
  }

  lemma {:induction false} TotalZeros(n: nat, m: nat)
    ensures Total(Zeros(n), m) == 0
  {
    if m != 0 { TotalZeros(n, m - 1); }
  }

  lemma TotalBumped(f: seq<nat>, s: nat, n: nat)
    requires s < n <= |f|
    ensures Total(Bump(f, s), n) == Total(f, n) + 1
  {
    TotalSet(f, s, f[s] + 1, n);
  }

  /** A block of `k` tokens has `k + 1` literal and length symbols, and at most `k` distance symbols. */
  lemma {:induction false} BlockTotals(ts: seq<Token>)
    requires forall i :: 0 <= i < |ts| ==> ValidToken(ts[i])
    ensures Total(LFreqs(ts), L_CODES) == |ts| + 1 && Total(DFreqs(ts), D_CODES) <= |ts|
  {
    hide Bump, LSymbol, DSymbol, Total, ValidToken;
    TotalZeros(L_CODES, L_CODES);
    TotalZeros(D_CODES, D_CODES);
    if ts == [] {
      TotalBumped(Zeros(L_CODES), END_BLOCK, L_CODES);
    } else {
      var k, t := |ts| - 1, ts[|ts| - 1];
      BlockTotals(ts[..k]);
      TotalBumped(LFreqs(ts[..k]), LSymbol(t), L_CODES);
      if t.Match? { TotalBumped(DFreqs(ts[..k]), DSymbol(t), D_CODES); }
    }
  }

  // ---------------------------------------------------------------- nodes of the tree that is built

  lemma NodesAtMost(t: Tree, j: LP.Job, syms: seq<nat>, forced: seq<nat>, f: seq<nat>)
    requires Planted(t, j, syms, forced, f)
    ensures forall id :: id in j.order ==> Get(j.f, id) <= Total(f, j.elems) + |forced|
  {
    hide *;
    PlantedParts(t, j, syms, forced, f);
    RootHasAll(t, j.f, j.dad, j.elems, j.elems + |syms| - 1);
    MassAtMost(LeafIds(t), j.f, j.elems);
    TotalSame(j.f, OnesAt(f, forced), j.elems);
    TotalForced(f, forced, j.elems);
    forall id | id in j.order ensures Get(j.f, id) <= Total(f, j.elems) + |forced| {
      assert id in multiset(j.order);
      assert id in multiset(IdList(t));
    }
  }

  lemma PlantedParts(t: Tree, j: LP.Job, syms: seq<nat>, forced: seq<nat>, f: seq<nat>)
    requires Planted(t, j, syms, forced, f)
    ensures |syms| >= 2 && Good(t, j.f, j.dad, j.elems, j.elems + |syms| - 1) && NoDup(IdList(t))
    ensures multiset(IdList(t)) == multiset(j.order)
    ensures forall x: nat :: x < j.elems ==> Get(j.f, x) == Get(OnesAt(f, forced), x)
  {
    hide HT.Built, NoCodes, OnesAt, Forced, Occurring;
    BuiltParts(t, j.order, j.f, j.dad, syms, j.elems);
  }

  lemma BuiltParts(t: Tree, order: seq<nat>, f: seq<nat>, dad: seq<nat>, syms: seq<nat>, elems: nat)
    requires HT.Built(t, order, f, dad, syms, elems)
    ensures |syms| >= 2 && Good(t, f, dad, elems, elems + |syms| - 1) && NoDup(IdList(t))
    ensures multiset(IdList(t)) == multiset(order)
  {
    hide Good, IdList, TreeCost, Weights, HT.Before, HT.Father;
    GB.BuiltNoDup(order, syms, elems, elems + |syms| - 1);
    NoDupMultiset(order, IdList(t));
  }

  /** All frequencies in the trees of a block fit into 16 bits, if the block has fewer than 2^15 tokens. */
  lemma CountersFit(t: Tree, j: LP.Job, syms: seq<nat>, forced: seq<nat>, f: seq<nat>, g: seq<nat>, ts: seq<Token>)
    requires |ts| < 32768 && (forall i :: 0 <= i < |ts| ==> ValidToken(ts[i])) && Planted(t, j, syms, forced, f)
    requires (g == LFreqs(ts) && j.elems == L_CODES) || (g == DFreqs(ts) && j.elems == D_CODES)
    requires forall x: nat :: x < j.elems ==> Get(f, x) == Get(g, x)
    ensures forall id :: id in j.order ==> Get(j.f, id) < 65536
  {
    hide Total, LFreqs, DFreqs, Occurring, ValidToken;
    BlockTotals(ts);
    TotalSame(f, g, j.elems);
    NodesAtMost(t, j, syms, forced, f);
    AtMostTwo(f, j.elems);
  }

  lemma AtMostTwo(f: seq<nat>, elems: nat)
    ensures |Forced(Occurring(f, elems))| <= 2
  {
  }
}

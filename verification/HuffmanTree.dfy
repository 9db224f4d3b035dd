/**
  * Building a Huffman tree in place (`build_tree` of dep/zlib/trees.c, up to the call of `gen_bitlen`).
  *
  * The arrays of the tree are those of the source: `fc` holds frequencies (later codes), `dl` holds fathers (later
  * lengths). The upper part of `heap`, from `heapMax` on, collects the merged nodes.
  */
module HuffmanTree {
  import opened Arith
  import opened Optimal
  import opened Forest
  import opened HuffmanHeap

  function Range(a: nat, b: nat): (r: seq<nat>)
    requires a <= b
    ensures |r| == b - a && forall i :: 0 <= i < |r| ==> r[i] == a + i
  {
    seq(b - a, i => a + i)
  }

  function Father(ord: seq<nat>, dad: seq<nat>, p: nat): nat
    requires p < |ord|
  {
    Get(dad, ord[p])
  }

  /** `x` is one of the first `p` elements. */
  ghost predicate Before(s: seq<nat>, p: nat, x: nat)
  {
    exists q :: 0 <= q < p && q < |s| && s[q] == x
  }

  /** The father of every merged node is still a root, or it was merged later. */
  ghost predicate FathersFirst(ord: seq<nat>, live: seq<nat>, dad: seq<nat>)
  {
    forall p {:trigger Father(ord, dad, p)} :: 0 <= p < |ord| ==>
        Father(ord, dad, p) in live
        || Before(ord, p, Father(ord, dad, p))
  }

  /** What the arrays mean: a forest over the symbols `syms`, its roots in the heap, all other nodes in `ord`. */
  ghost predicate Growing(fs: seq<Tree>, live: seq<nat>, ord: seq<nat>, f: seq<nat>, dad: seq<nat>, syms: seq<nat>,
                          elems: nat, node: nat)
  {
    && elems <= node
    && multiset(Roots(fs)) == multiset(live)
    && (forall t :: t in fs ==> Good(t, f, dad, elems, node))
    && multiset(AllIds(fs)) == multiset(live) + multiset(ord)
    && multiset(AllIds(fs)) == multiset(syms) + multiset(Range(elems, node))
    && FathersFirst(ord, live, dad)
    && NoDup(syms) && (forall x :: x in syms ==> x < elems)
  }

  /** No node is more frequent than one before it. */
  ghost predicate Descending(ord: seq<nat>, f: seq<nat>)
  {
    forall p, q {:trigger ord[p], ord[q]} :: 0 <= p < q < |ord| ==> Get(f, ord[q]) <= Get(f, ord[p])
  }

  /** The merged nodes are in order of their frequencies, and none is more frequent than a root. */
  ghost predicate Falling(ord: seq<nat>, live: seq<nat>, f: seq<nat>)
  {
    && Descending(ord, f)
    && forall x, p {:trigger x in live, ord[p]} :: x in live && 0 <= p < |ord| ==> Get(f, ord[p]) <= Get(f, x)
  }

  /** The next two nodes are as frequent as all before them, and their father is at least as frequent. */
  lemma FallingNext(ord: seq<nat>, live: seq<nat>, rest: seq<nat>, live': seq<nat>, f: seq<nat>, g: seq<nat>,
                    node: nat, n: nat, m: nat)
    requires Falling(ord, live, f) && forall x :: x in live || x in ord ==> x < node
    requires multiset(rest) + multiset{n} == multiset(live)
    requires multiset(live') + multiset{m} == multiset(rest) + multiset{node}
    requires Least(live, f, n) && Least(rest, f, m)
    requires (forall x: nat :: x < node ==> Get(f, x) == Get(g, x)) && Get(g, node) == Get(f, n) + Get(f, m)
    ensures Falling([m, n] + ord, live', g)
  {
    hide Descending, Least;
    var ord' := [m, n] + ord;
    SecondInLive(live, rest, f, n, m);
    forall p | 0 <= p < |ord| ensures ord[p] < node && Get(g, ord[p]) <= Get(g, n) { assert ord[p] in ord; }
    FallingOrder(ord, f, g, n, m);
    forall x, p | x in live' && 0 <= p < |ord'| ensures Get(g, ord'[p]) <= Get(g, x) {
      StillRoot(live, rest, live', n, m, node, x);
      if x != node { LeastIs(rest, f, m, x); }
      if p >= 2 { assert ord'[p] == ord[p - 2]; }
    }
  }

  lemma LeastIs(live: seq<nat>, f: seq<nat>, n: nat, x: nat)
    requires Least(live, f, n) && x in live
    ensures Get(f, n) <= Get(f, x)
  {
  }

  lemma SecondInLive(live: seq<nat>, rest: seq<nat>, f: seq<nat>, n: nat, m: nat)
    requires multiset(rest) + multiset{n} == multiset(live) && Least(live, f, n) && Least(rest, f, m)
    ensures n in live && m in live && Get(f, n) <= Get(f, m)
  {
    assert m in multiset(rest) + multiset{n};
    assert m in multiset(live);
    LeastIs(live, f, n, m);
  }

  lemma FallingOrder(ord: seq<nat>, f: seq<nat>, g: seq<nat>, n: nat, m: nat)
    requires Descending(ord, f) && Get(g, n) <= Get(g, m)
    requires forall p :: 0 <= p < |ord| ==> Get(f, ord[p]) == Get(g, ord[p]) <= Get(g, n)
    ensures Descending([m, n] + ord, g)
  {
    var ord' := [m, n] + ord;
    forall p, q | 0 <= p < q < |ord'| ensures Get(g, ord'[q]) <= Get(g, ord'[p]) {
      if q >= 2 { assert ord'[q] == ord[q - 2]; }
      if p >= 2 { assert ord'[p] == ord[p - 2] && Get(f, ord[q - 2]) <= Get(f, ord[p - 2]); }
    }
  }

  lemma StillRoot(live: seq<nat>, rest: seq<nat>, live': seq<nat>, n: nat, m: nat, node: nat, x: nat)
    requires multiset(rest) + multiset{n} == multiset(live)
    requires multiset(live') + multiset{m} == multiset(rest) + multiset{node} && x in live'
    ensures x == node || (x in rest && x in live)
  {
    assert x in multiset(live') + multiset{m};
    assert x in multiset(rest) + multiset{node};
    if x != node {
      assert x in multiset(rest);
      assert x in multiset(rest) + multiset{n};
      assert x in multiset(live);
    }
  }

  /** The merges made so far and the ones to come add up to Huffman's cost for the symbols. */
  ghost predicate OnBudget(fs: seq<Tree>, live: seq<nat>, f: seq<nat>, syms: seq<nat>)
  {
    Sum(Costs(fs, f)) + Huffman(multiset(Weights(live, f))) == Huffman(multiset(Weights(syms, f)))
  }

  lemma RangeNext(a: nat, b: nat)
    requires a <= b
    ensures Range(a, b + 1) == Range(a, b) + [b]
  {
  }

  lemma GrowingNoDup(fs: seq<Tree>, live: seq<nat>, ord: seq<nat>, f: seq<nat>, dad: seq<nat>, syms: seq<nat>,
                     elems: nat, node: nat)
    requires Growing(fs, live, ord, f, dad, syms, elems, node)
    ensures NoDup(AllIds(fs)) && forall x :: x in AllIds(fs) ==> x < node
    ensures forall x :: x in live || x in ord ==> x in AllIds(fs)
  {
    var s := syms + Range(elems, node);
    assert forall i :: 0 <= i < |syms| ==> syms[i] in syms;
    assert NoDup(s);
    NoDupMultiset(s, AllIds(fs));
    forall x | x in AllIds(fs) ensures x < node {
      assert x in multiset(AllIds(fs));
      assert x in s;
    }
    forall x | x in live || x in ord ensures x in AllIds(fs) {
      assert x in multiset(live) + multiset(ord);
    }
  }

  lemma FindRoot(fs: seq<Tree>, live: seq<nat>, x: nat) returns (i: nat)
    requires multiset(Roots(fs)) == multiset(live) && x in live
    ensures i < |fs| && fs[i].id == x
  {
    assert x in multiset(live);
    assert x in Roots(fs);
    i :| 0 <= i < |fs| && Roots(fs)[i] == x;
  }

  /** All trees survive the creation of node `node` above `n` and `m`. */
  lemma TreesKept(fs: seq<Tree>, k: nat, f: seq<nat>, g: seq<nat>, dad: seq<nat>, dad': seq<nat>, elems: nat, node: nat,
                  n: nat, m: nat)
    requires k < |fs| && Good(fs[k], f, dad, elems, node) && elems <= node
    requires NoDup(AllIds(fs)) && forall x :: x in AllIds(fs) ==> x < node
    requires forall x: nat :: x < node ==> Get(f, x) == Get(g, x)
    requires forall x: nat :: x < node && x != n && x != m ==> Get(dad, x) == Get(dad', x)
    requires forall x :: x in IdList(fs[k]) && x != fs[k].id ==> x != n && x != m
    ensures Good(fs[k], g, dad', elems, node + 1) && TreeCost(fs[k], g) == TreeCost(fs[k], f)
  {
    NoDupAllIds(fs, k);
    GoodFrame(fs[k], f, g, dad, dad', elems, node, node + 1);
  }

  /** A root is not below another node. */
  lemma {:induction false} RootsAreNotInside(fs: seq<Tree>, i: nat, k: nat)
    requires NoDup(AllIds(fs)) && i < |fs| && k < |fs|
    ensures fs[i].id in IdList(fs[k]) ==> i == k
    decreases |fs|
  {
    var last := |fs| - 1;
    var a, b := AllIds(fs[..last]), IdList(fs[last]);
    assert AllIds(fs) == a + b;
    assert NoDup(a) by { assert forall i :: 0 <= i < |a| ==> a[i] == (a + b)[i]; }
    RootListed(fs[i]);
    if i < last && k < last {
      RootsAreNotInside(fs[..last], i, k);
    } else if i < last {
      assert fs[..last][i] == fs[i];
      NoDupAllIds(fs[..last], i);
      Separate(a, b, fs[i].id);
    } else if k < last {
      assert fs[..last][k] == fs[k];
      NoDupAllIds(fs[..last], k);
      Separate(a, b, fs[i].id);
    }
  }

  lemma RootListed(t: Tree)
    ensures t.id in IdList(t)
  {
    assert IdList(t)[0] == t.id;
  }

  lemma Separate(a: seq<nat>, b: seq<nat>, x: nat)
    requires NoDup(a + b)
    ensures !(x in a && x in b)
  {
    forall i, j | 0 <= i < |a| && 0 <= j < |b|
      ensures a[i] != b[j]
    {
      assert (a + b)[i] == a[i] && (a + b)[|a| + j] == b[j];
    }
  }

  // ---------------------------------------------------------------- one merge

  /** How frequencies and fathers change when `node` is created above `n` and `m`. */
  ghost predicate Created(f: seq<nat>, g: seq<nat>, dad: seq<nat>, dad': seq<nat>, node: nat, n: nat, m: nat)
  {
    && n < node && m < node && n != m
    && (forall x: nat :: x < node ==> Get(f, x) == Get(g, x))
    && Get(g, node) == Get(f, n) + Get(f, m)
    && (forall x: nat :: x < node && x != n && x != m ==> Get(dad, x) == Get(dad', x))
    && Get(dad', n) == node == Get(dad', m)
  }

  lemma MergedTreesGood(fs: seq<Tree>, f: seq<nat>, g: seq<nat>, dad: seq<nat>, dad': seq<nat>, elems: nat, node: nat,
                        i: nat, j: nat)
    requires i < |fs| && j < |fs| && i != j && elems <= node
    requires forall t :: t in fs ==> Good(t, f, dad, elems, node)
    requires NoDup(AllIds(fs)) && forall x :: x in AllIds(fs) ==> x < node
    requires Created(f, g, dad, dad', node, fs[i].id, fs[j].id)
    ensures forall k :: 0 <= k < |fs| ==>
            Good(fs[k], g, dad', elems, node + 1)
            && TreeCost(fs[k], g) == TreeCost(fs[k], f)
    ensures Good(Node(node, fs[i], fs[j]), g, dad', elems, node + 1)
  {
    forall k | 0 <= k < |fs|
      ensures Good(fs[k], g, dad', elems, node + 1) && TreeCost(fs[k], g) == TreeCost(fs[k], f)
    {
      RootsAreNotInside(fs, i, k);
      RootsAreNotInside(fs, j, k);
      TreesKept(fs, k, f, g, dad, dad', elems, node, fs[i].id, fs[j].id);
    }
  }

  lemma MergedFathers(ord: seq<nat>, live: seq<nat>, live': seq<nat>, dad: seq<nat>, dad': seq<nat>, node: nat, n: nat,
                      m: nat)
    requires FathersFirst(ord, live, dad)
    requires multiset(live') + multiset{n, m} == multiset(live) + multiset{node}
    requires Get(dad', n) == node == Get(dad', m)
    requires forall x :: x in ord ==> x != n && x != m && Get(dad, x) == Get(dad', x)
    requires n != node && m != node
    ensures FathersFirst([m, n] + ord, live', dad')
  {
    var ord' := [m, n] + ord;
    assert node in live' by { assert node in multiset(live') + multiset{n, m}; assert node in multiset(live'); }
    forall p | 0 <= p < |ord'|
      ensures Father(ord', dad', p) in live' || Before(ord', p, Father(ord', dad', p))
    {
      if p >= 2 {
        var y := Father(ord', dad', p);
        assert y == Father(ord, dad, p - 2) by { assert ord[p - 2] in ord; }
        assert ord'[0] == m && ord'[1] == n;
        if Before(ord, p - 2, y) {
          var q :| 0 <= q < p - 2 && ord[q] == y;
          assert ord'[q + 2] == y;
        }
        if y in live && y != n && y != m {
          assert y in multiset(live) + multiset{node};
          assert y in multiset(live') + multiset{n, m};
          assert y in multiset(live');
        }
      }
    }
  }

  lemma MergedBudget(fs: seq<Tree>, live: seq<nat>, live': seq<nat>, f: seq<nat>, g: seq<nat>, syms: seq<nat>, i: nat,
                     j: nat, t: Tree)
    requires i < j < |fs| && t.Node? && OnBudget(fs, live, f, syms)
    requires forall k :: 0 <= k < |fs| ==> TreeCost(fs[k], g) == TreeCost(fs[k], f)
    requires TreeCost(t, g) == Get(g, t.id) + TreeCost(fs[i], g) + TreeCost(fs[j], g)
    requires Huffman(multiset(Weights(live, f))) == Get(g, t.id) + Huffman(multiset(Weights(live', g)))
    requires Weights(syms, f) == Weights(syms, g)
    ensures OnBudget(Merge(fs, i, j, t), live', g, syms)
  {
    hide Sum, Costs, Huffman, Weights, Get, TreeCost;
    CostsMerge(fs, i, j, t, g);
    assert Costs(fs, g) == Costs(fs, f);
    MergeSum(Costs(fs, g), i, j, TreeCost(t, g));
  }

  /** Removing the two least nodes and adding their father is one step of Huffman's algorithm. */
  lemma MergedHuffman(live: seq<nat>, rest: seq<nat>, live': seq<nat>, f: seq<nat>, g: seq<nat>, node: nat, n: nat,
                      m: nat)
    requires multiset(rest) + multiset{n} == multiset(live)
    requires multiset(live') + multiset{m} == multiset(rest) + multiset{node}
    requires n in live && forall x :: x in live ==> Get(f, n) <= Get(f, x)
    requires m in rest && forall x :: x in rest ==> Get(f, m) <= Get(f, x)
    requires forall x :: x in rest ==> Get(f, x) == Get(g, x)
    requires Get(g, node) == Get(f, n) + Get(f, m)
    ensures Huffman(multiset(Weights(live, f))) == Get(g, node) + Huffman(multiset(Weights(live', g)))
  {
    LeastWeight(live, n, f);
    LeastWeight(rest, m, f);
    SplitWeights(live, rest, n, f);
    NewWeight(rest, live', f, g, node, m);
    HuffmanParts(multiset(Weights(live, f)), multiset(Weights(rest, f)), multiset(Weights(live', g)), Get(f, n),
                 Get(f, m));
  }

  lemma NewWeight(rest: seq<nat>, live': seq<nat>, f: seq<nat>, g: seq<nat>, node: nat, m: nat)
    requires multiset(live') + multiset{m} == multiset(rest) + multiset{node} && m in rest
    requires forall x :: x in rest ==> Get(f, x) == Get(g, x)
    ensures multiset(Weights(live', g)) + multiset{Get(f, m)} == multiset(Weights(rest, f)) + multiset{Get(g, node)}
  {
    assert multiset(rest + [node]) == multiset(rest) + multiset{node};
    SplitWeights(rest + [node], live', m, g);
    WeightsConcat(rest, [node], g);
    assert forall i :: 0 <= i < |rest| ==> rest[i] in rest;
    WeightsFrame(rest, f, g);
    assert Weights([node], g) == [Get(g, node)];
  }

  lemma HuffmanParts(w: multiset<nat>, rest: multiset<nat>, r: multiset<nat>, a: nat, b: nat)
    requires w == rest + multiset{a} && r + multiset{b} == rest + multiset{a + b}
    requires IsMin(w, a) && IsMin(rest, b)
    ensures Huffman(w) == a + b + Huffman(r)
  {
    assert w - multiset{a} == rest;
    assert r + multiset{a, b} == w + multiset{a + b};
    HuffmanTo(w, a, b, r);
  }

  lemma LeastWeight(live: seq<nat>, n: nat, f: seq<nat>)
    requires n in live && forall x :: x in live ==> Get(f, n) <= Get(f, x)
    ensures IsMin(multiset(Weights(live, f)), Get(f, n))
  {
    var i :| 0 <= i < |live| && live[i] == n;
    assert Weights(live, f)[i] == Get(f, n);
    forall x | x in multiset(Weights(live, f)) ensures Get(f, n) <= x {
      assert x in Weights(live, f);
      var k :| 0 <= k < |live| && Weights(live, f)[k] == x;
      assert live[k] in live;
    }
  }

  lemma SplitWeights(live: seq<nat>, rest: seq<nat>, n: nat, f: seq<nat>)
    requires multiset(rest) + multiset{n} == multiset(live)
    ensures multiset(Weights(live, f)) == multiset(Weights(rest, f)) + multiset{Get(f, n)}
    ensures multiset(Weights(live, f)) - multiset{Get(f, n)} == multiset(Weights(rest, f))
  {
    WeightsMultiset(live, rest + [n], f);
    WeightsConcat(rest, [n], f);
    assert Weights([n], f) == [Get(f, n)];
  }

  lemma SyntheticRest(live: seq<nat>, rest: seq<nat>, live': seq<nat>, n: nat, m: nat, node: nat)
    requires multiset(rest) + multiset{n} == multiset(live)
    requires multiset(live') + multiset{m} == multiset(rest) + multiset{node}
    ensures multiset(live') + multiset{n, m} == multiset(live) + multiset{node}
    ensures n in live && forall x :: x in rest ==> x in live
  {
    assert n in multiset(live);
    forall x | x in rest ensures x in live { assert x in multiset(rest) + multiset{n}; assert x in multiset(live); }
    Regroup(multiset(live'), multiset(rest), multiset(live), n, m, node);
  }

  lemma Regroup(a: multiset<nat>, r: multiset<nat>, w: multiset<nat>, n: nat, m: nat, node: nat)
    requires r + multiset{n} == w && a + multiset{m} == r + multiset{node}
    ensures a + multiset{n, m} == w + multiset{node}
  {
    forall x ensures (a + multiset{n, m})[x] == (w + multiset{node})[x] {
      assert (r + multiset{n})[x] == w[x];
      assert (a + multiset{m})[x] == (r + multiset{node})[x];
    }
  }

  /** Nothing that was merged before is a root, so it keeps its father. */
  lemma MergedApart(ids: seq<nat>, live: seq<nat>, ord: seq<nat>, n: nat)
    requires NoDup(ids) && multiset(ids) == multiset(live) + multiset(ord) && n in live
    ensures n !in ord
  {
    OnceIn(ids, n);
    assert multiset(ids)[n] == multiset(live)[n] + multiset(ord)[n];
    assert n in multiset(live);
  }

  lemma MergedIds(ids: multiset<nat>, live: seq<nat>, live': seq<nat>, ord: seq<nat>, syms: seq<nat>, elems: nat,
                  node: nat, n: nat, m: nat)
    requires elems <= node
    requires ids == multiset(live) + multiset(ord) && ids == multiset(syms) + multiset(Range(elems, node))
    requires multiset(live') + multiset{n, m} == multiset(live) + multiset{node}
    ensures ids + multiset{node} == multiset(live') + multiset([m, n] + ord)
    ensures ids + multiset{node} == multiset(syms) + multiset(Range(elems, node + 1))
  {
    RangeNext(elems, node);
    assert multiset([m, n] + ord) == multiset{m, n} + multiset(ord);
    forall x ensures (ids + multiset{node})[x] == (multiset(live') + (multiset{m, n} + multiset(ord)))[x] {
      assert (multiset(live') + multiset{n, m})[x] == (multiset(live) + multiset{node})[x];
    }
  }

  lemma MergedRoots(fs: seq<Tree>, live: seq<nat>, live': seq<nat>, i: nat, j: nat, t: Tree)
    requires i < j < |fs| && multiset(Roots(fs)) == multiset(live)
    requires multiset(live') + multiset{fs[i].id, fs[j].id} == multiset(live) + multiset{t.id}
    ensures multiset(Roots(Merge(fs, i, j, t))) == multiset(live')
  {
    RootsMerge(fs, i, j, t);
    MergeMultiset(Roots(fs), i, j, t.id);
    var a, b := fs[i].id, fs[j].id;
    var u := multiset(Roots(Merge(fs, i, j, t)));
    assert u + multiset{a, b} == multiset(live') + multiset{a, b};
    Cancel(u, multiset(live'), multiset{a, b});
  }

  lemma Cancel(a: multiset<nat>, b: multiset<nat>, c: multiset<nat>)
    requires a + c == b + c
    ensures a == b
  {
    assert a == (a + c) - c && b == (b + c) - c;
  }

  lemma MergedAllGood(fs: seq<Tree>, i: nat, j: nat, t: Tree, g: seq<nat>, dad: seq<nat>, elems: nat, node: nat)
    requires i < j < |fs| && Good(t, g, dad, elems, node)
    requires forall k :: 0 <= k < |fs| ==> Good(fs[k], g, dad, elems, node)
    ensures forall u :: u in Merge(fs, i, j, t) ==> Good(u, g, dad, elems, node)
  {
    forall u | u in Merge(fs, i, j, t) ensures Good(u, g, dad, elems, node) {
      assert u == t || u in fs;
    }
  }

  lemma MergedGrowing(fs: seq<Tree>, live: seq<nat>, live': seq<nat>, ord: seq<nat>, f: seq<nat>, g: seq<nat>,
                      dad: seq<nat>, dad': seq<nat>, syms: seq<nat>, elems: nat, node: nat, n: nat, m: nat, i: nat,
                      j: nat, t: Tree)
    requires Growing(fs, live, ord, f, dad, syms, elems, node)
    requires multiset(live') + multiset{n, m} == multiset(live) + multiset{node}
    requires FathersFirst([m, n] + ord, live', dad')
    requires i < j < |fs| && multiset{fs[i].id, fs[j].id} == multiset{n, m}
    requires t.Node? && t.id == node && ((t.left == fs[i] && t.right == fs[j]) || (t.left == fs[j] && t.right == fs[i]))
    requires Good(t, g, dad', elems, node + 1) && forall k :: 0 <= k < |fs| ==> Good(fs[k], g, dad', elems, node + 1)
    ensures Growing(Merge(fs, i, j, t), live', [m, n] + ord, g, dad', syms, elems, node + 1)
  {
    var fs' := Merge(fs, i, j, t);
    assert forall u :: u in fs' ==> Good(u, g, dad', elems,
                                         node + 1) by { MergedAllGood(fs, i, j, t, g, dad', elems, node + 1); }
    assert multiset(Roots(fs')) == multiset(live') by { MergedRoots(fs, live, live', i, j, t); }
    assert multiset(AllIds(fs')) == multiset(AllIds(fs)) + multiset{node} by { AllIdsMerge(fs, i, j, t); }
    MergedIds(multiset(AllIds(fs)), live, live', ord, syms, elems, node, n, m);
  }

  lemma MergedOrder(ids: seq<nat>, live: seq<nat>, live': seq<nat>, ord: seq<nat>, f: seq<nat>, g: seq<nat>,
                    dad: seq<nat>, dad': seq<nat>, node: nat, n: nat, m: nat)
    requires NoDup(ids) && multiset(ids) == multiset(live) + multiset(ord) && n in live && m in live
    requires FathersFirst(ord, live, dad) && Created(f, g, dad, dad', node, n, m) && forall x :: x in ord ==> x < node
    requires multiset(live') + multiset{n, m} == multiset(live) + multiset{node}
    ensures FathersFirst([m, n] + ord, live', dad')
  {
    MergedApart(ids, live, ord, n);
    MergedApart(ids, live, ord, m);
    MergedFathers(ord, live, live', dad, dad', node, n, m);
  }

  /** The forest after one merge. */
  lemma MergedForest(fs: seq<Tree>, live: seq<nat>, rest: seq<nat>, live': seq<nat>, ord: seq<nat>, f: seq<nat>,
                     g: seq<nat>, dad: seq<nat>, dad': seq<nat>, syms: seq<nat>, elems: nat, node: nat, n: nat, m: nat)
    returns (fs': seq<Tree>)
    requires Growing(fs, live, ord, f, dad, syms, elems, node) && OnBudget(fs, live, f, syms)
    requires multiset(rest) + multiset{n} == multiset(live)
    requires multiset(live') + multiset{m} == multiset(rest) + multiset{node}
    requires Least(live, f, n) && Least(rest, f, m) && Created(f, g, dad, dad', node, n, m)
    ensures Growing(fs', live', [m, n] + ord, g, dad', syms, elems, node + 1) && OnBudget(fs', live', g, syms)
    ensures |fs'| == |fs| - 1
  {
    hide OnBudget, Good, FathersFirst, NoDup, Huffman, Sum, Costs, Weights, AllIds, Roots, Range;
    SyntheticRest(live, rest, live', n, m, node);
    GrowingNoDup(fs, live, ord, f, dad, syms, elems, node);
    var x := FindRoot(fs, live, n);
    var y := FindRoot(fs, live, m);
    var t := Node(node, fs[x], fs[y]);
    MergedTreesGood(fs, f, g, dad, dad', elems, node, x, y);
    var i, j := if x < y then x else y, if x < y then y else x;
    fs' := Merge(fs, i, j, t);
    MergedOrder(AllIds(fs), live, live', ord, f, g, dad, dad', node, n, m);
    MergedGrowing(fs, live, live', ord, f, g, dad, dad', syms, elems, node, n, m, i, j, t);
    SymsKept(syms, elems, f, g);
    MergedHuffman(live, rest, live', f, g, node, n, m);
    MergedBudget(fs, live, live', f, g, syms, i, j, t);
  }

  lemma SymsKept(syms: seq<nat>, elems: nat, f: seq<nat>, g: seq<nat>)
    requires forall x :: x in syms ==> x < elems
    requires forall x: nat :: x < elems ==> Get(f, x) == Get(g, x)
    ensures Weights(syms, f) == Weights(syms, g)
  {
    assert forall i :: 0 <= i < |syms| ==> syms[i] in syms;
    WeightsFrame(syms, f, g);
  }

  // ---------------------------------------------------------------- all merges

  /** The whole state of the construction between two merges, as a value. */
  datatype Stage = Stage(fs: seq<Tree>, live: seq<nat>, ord: seq<nat>, heap: seq<nat>, len: nat, max: nat,
                         f: seq<nat>, d: seq<nat>, dad: seq<nat>, node: nat)

  ghost predicate Building(s: Stage, syms: seq<nat>, elems: nat)
  {
    && Nodes(s.heap, s.len, s.f, s.d) && HeapFrom(s.heap, s.len, s.f, s.d, 1)
    && 1 <= s.len < s.max <= |s.heap| && s.len == |s.fs|
    && s.live == Live(s.heap, s.len) && s.ord == s.heap[s.max..]
    && s.node + s.len == elems + |syms| && |s.heap| - s.max == 2 * (s.node - elems) && 2 * |syms| <= |s.heap|
    && elems + |syms| <= |s.f| && |s.f| == |s.dad| == |s.d|
    && Growing(s.fs, s.live, s.ord, s.f, s.dad, syms, elems, s.node)
    && OnBudget(s.fs, s.live, s.f, syms) && Falling(s.ord, s.live, s.f)
  }

  lemma LiveBounds(s: Stage, syms: seq<nat>, elems: nat)
    requires Building(s, syms, elems)
    ensures s.len < |s.heap| && NoDup(Live(s.heap, s.len))
    ensures forall i :: 0 <= i < s.len ==> Live(s.heap, s.len)[i] < s.node
    ensures Nodes(s.heap, s.len, s.f, s.d) && HeapFrom(s.heap, s.len, s.f, s.d, 1)
    ensures s.len >= 2 ==> s.len + 2 <= s.max <= |s.heap| && s.node < |s.f| == |s.dad| == |s.d| && elems <= s.node
  {
    GrowingNoDup(s.fs, s.live, s.ord, s.f, s.dad, syms, elems, s.node);
    forall i | 0 <= i < s.len ensures s.live[i] < s.node {
      assert s.live[i] in s.live;
    }
    LiveNoDup(AllIds(s.fs), s.live, s.ord);
  }

  /** What one merge does to the arrays, as a value: `n` and `m` leave the heap, `node` enters. */
  datatype Change = Change(live: seq<nat>, ord: seq<nat>, heap: seq<nat>, f: seq<nat>, d: seq<nat>, dad: seq<nat>,
                           n: nat, m: nat, rest: seq<nat>)

  ghost predicate Merged(live: seq<nat>, ord: seq<nat>, f: seq<nat>, dad: seq<nat>, len: nat, max: nat, node: nat,
                         c: Change)
  {
    && 2 <= len < max <= |c.heap| && |c.f| == |f| && |c.dad| == |dad|
    && Nodes(c.heap, len - 1, c.f, c.d) && HeapFrom(c.heap, len - 1, c.f, c.d, 1)
    && c.live == Live(c.heap, len - 1) && c.ord == c.heap[max - 2..] == [c.m, c.n] + ord
    && multiset(c.rest) + multiset{c.n} == multiset(live)
    && multiset(c.live) + multiset{c.m} == multiset(c.rest) + multiset{node}
    && Least(live, f, c.n) && Least(c.rest, f, c.m) && Created(f, c.f, dad, c.dad, node, c.n, c.m)
  }

  lemma NextStage(s: Stage, c: Change, syms: seq<nat>, elems: nat) returns (s': Stage)
    requires Building(s, syms, elems) && Merged(s.live, s.ord, s.f, s.dad, s.len, s.max, s.node, c)
    requires |c.d| == |s.d| && |c.heap| == |s.heap|
    ensures Building(s', syms, elems) && s'.heap == c.heap && s'.f == c.f && s'.d == c.d && s'.dad == c.dad
    ensures s'.len == s.len - 1 && s'.max == s.max - 2 && s'.node == s.node + 1
  {
    var fs', node := NextForest(s, c, syms, elems);
    s' := StageAfter(s, c, fs', node, syms, elems);
  }

  lemma NextForest(s: Stage, c: Change, syms: seq<nat>, elems: nat) returns (fs': seq<Tree>, node: nat)
    requires Building(s, syms, elems) && Merged(s.live, s.ord, s.f, s.dad, s.len, s.max, s.node, c)
    ensures Grown(fs', c, syms, elems, node) && |fs'| == |s.fs| - 1 && node == s.node + 1
  {
    node := s.node + 1;
    fs' := ChangedForest(s.fs, s.live, s.ord, s.f, s.dad, c, syms, elems, s.node, node);
  }

  lemma StageAfter(s: Stage, c: Change, fs': seq<Tree>, node: nat, syms: seq<nat>, elems: nat) returns (s': Stage)
    requires 2 <= s.len < s.max <= |c.heap| == |s.heap| && s.len == |s.fs|
    requires s.node + s.len == elems + |syms| && |s.heap| - s.max == 2 * (s.node - elems) && 2 * |syms| <= |s.heap|
    requires elems + |syms| <= |c.f| && |c.f| == |c.dad| == |c.d|
    requires Nodes(c.heap, s.len - 1, c.f, c.d) && HeapFrom(c.heap, s.len - 1, c.f, c.d, 1)
    requires c.live == Live(c.heap, s.len - 1) && c.ord == c.heap[s.max - 2..]
    requires Grown(fs', c, syms, elems, node) && |fs'| == |s.fs| - 1 && node == s.node + 1
    ensures Building(s', syms, elems) && s'.heap == c.heap && s'.f == c.f && s'.d == c.d && s'.dad == c.dad
    ensures s'.len == s.len - 1 && s'.max == s.max - 2 && s'.node == node
  {
    hide Growing, OnBudget, Falling, Nodes, HeapFrom, Live;
    s' := MakeStage(fs', c, s.len - 1, s.max - 2, node, syms, elems);
  }

  lemma MakeStage(fs: seq<Tree>, c: Change, len: nat, max: nat, node: nat, syms: seq<nat>, elems: nat)
      returns (s: Stage)
    requires Nodes(c.heap, len, c.f, c.d) && HeapFrom(c.heap, len, c.f, c.d, 1)
    requires 1 <= len < max <= |c.heap| && len == |fs|
    requires c.live == Live(c.heap, len) && c.ord == c.heap[max..]
    requires node + len == elems + |syms| && |c.heap| - max == 2 * (node - elems) && 2 * |syms| <= |c.heap|
    requires elems + |syms| <= |c.f| && |c.f| == |c.dad| == |c.d|
    requires Grown(fs, c, syms, elems, node)
    ensures Building(s, syms, elems) && s.heap == c.heap && s.f == c.f && s.d == c.d && s.dad == c.dad
    ensures s.len == len && s.max == max && s.node == node
  {
    s := Stage(fs, c.live, c.ord, c.heap, len, max, c.f, c.d, c.dad, node);
  }

  /** `Growing` and `OnBudget` for the arrays after a merge. */
  ghost predicate Grown(fs: seq<Tree>, c: Change, syms: seq<nat>, elems: nat, node: nat)
  {
    && Growing(fs, c.live, c.ord, c.f, c.dad, syms, elems, node) && OnBudget(fs, c.live, c.f, syms)
    && Falling(c.ord, c.live, c.f)
  }

  lemma ChangedForest(fs: seq<Tree>, live: seq<nat>, ord: seq<nat>, f: seq<nat>, dad: seq<nat>, c: Change,
                      syms: seq<nat>, elems: nat, node: nat, node': nat)
    returns (fs': seq<Tree>)
    requires Growing(fs, live, ord, f, dad, syms, elems, node) && OnBudget(fs, live, f, syms) && Falling(ord, live, f)
    requires c.ord == [c.m, c.n] + ord && node' == node + 1
    requires multiset(c.rest) + multiset{c.n} == multiset(live)
    requires multiset(c.live) + multiset{c.m} == multiset(c.rest) + multiset{node}
    requires Least(live, f, c.n) && Least(c.rest, f, c.m) && Created(f, c.f, dad, c.dad, node, c.n, c.m)
    ensures Grown(fs', c, syms, elems, node') && |fs'| == |fs| - 1
  {
    hide Growing, OnBudget, Least, Falling;
    InOrder(fs, live, ord, f, dad, syms, elems, node);
    FallingNext(ord, live, c.rest, c.live, f, c.f, node, c.n, c.m);
    fs' := MergedForest(fs, live, c.rest, c.live, ord, f, c.f, dad, c.dad, syms, elems, node, c.n, c.m);
  }

  lemma InOrder(fs: seq<Tree>, live: seq<nat>, ord: seq<nat>, f: seq<nat>, dad: seq<nat>, syms: seq<nat>, elems: nat,
                node: nat)
    requires Growing(fs, live, ord, f, dad, syms, elems, node)
    ensures forall x :: x in live || x in ord ==> x < node
  {
    GrowingNoDup(fs, live, ord, f, dad, syms, elems, node);
  }

  /** Symbols that are not in the tree have no father. */
  ghost predicate DadsKept(dad: seq<nat>, dad': seq<nat>, syms: seq<nat>, elems: nat)
  {
    forall x: nat {:trigger Get(dad', x)} :: x < elems && x !in syms ==> Get(dad', x) == Get(dad, x)
  }

  lemma DadsKeptTwice(dad: seq<nat>, dad1: seq<nat>, dad2: seq<nat>, syms: seq<nat>, elems: nat)
    requires DadsKept(dad, dad1, syms, elems) && DadsKept(dad1, dad2, syms, elems)
    ensures DadsKept(dad, dad2, syms, elems)
  {
    forall x: nat | x < elems && x !in syms ensures Get(dad2, x) == Get(dad, x) { assert Get(dad1, x) == Get(dad, x); }
  }

  lemma LiveInTree(ids: multiset<nat>, live: seq<nat>, ord: seq<nat>, syms: seq<nat>, elems: nat, node: nat, n: nat)
    requires elems <= node && ids == multiset(live) + multiset(ord)
    requires ids == multiset(syms) + multiset(Range(elems, node)) && n in live
    ensures n in syms || n >= elems
  {
    assert n in ids;
    assert n in syms || n in Range(elems, node);
  }

  lemma NextDads(fs: seq<Tree>, live: seq<nat>, ord: seq<nat>, f: seq<nat>, dad: seq<nat>, c: Change, syms: seq<nat>,
                 elems: nat, node: nat)
    requires Growing(fs, live, ord, f, dad, syms, elems, node)
    requires multiset(c.rest) + multiset{c.n} == multiset(live)
    requires multiset(c.live) + multiset{c.m} == multiset(c.rest) + multiset{node}
    requires Least(c.rest, f, c.m) && Created(f, c.f, dad, c.dad, node, c.n, c.m)
    ensures DadsKept(dad, c.dad, syms, elems)
  {
    SyntheticRest(live, c.rest, c.live, c.n, c.m, node);
    LiveInTree(multiset(AllIds(fs)), live, ord, syms, elems, node, c.n);
    LiveInTree(multiset(AllIds(fs)), live, ord, syms, elems, node, c.m);
  }

  lemma StageDads(s: Stage, c: Change, syms: seq<nat>, elems: nat)
    requires Building(s, syms, elems) && Merged(s.live, s.ord, s.f, s.dad, s.len, s.max, s.node, c)
    ensures DadsKept(s.dad, c.dad, syms, elems)
  {
    NextDads(s.fs, s.live, s.ord, s.f, s.dad, c, syms, elems, s.node);
  }

  lemma LiveNoDup(ids: seq<nat>, live: seq<nat>, ord: seq<nat>)
    requires NoDup(ids) && multiset(ids) == multiset(live) + multiset(ord)
    ensures NoDup(live)
  {
    assert multiset(live + ord) == multiset(ids);
    NoDupMultiset(ids, live + ord);
    assert forall i :: 0 <= i < |live| ==> live[i] == (live + ord)[i];
  }

  /** The heap property depends on the frequencies and depths of the nodes in the heap only. */
  lemma HeapFrame(heap: seq<nat>, heap': seq<nat>, len: nat, f: seq<nat>, g: seq<nat>, d: seq<nat>, d': seq<nat>,
                  node: nat, lo: nat)
    requires Nodes(heap, len, f, d) && HeapFrom(heap, len, f, d, lo)
    requires |heap'| == |heap| && |g| == |f| && |d'| == |d|
    requires forall i :: 1 <= i <= len ==> heap'[i] == heap[i] < node
    requires forall x :: 0 <= x < node && x < |f| ==> g[x] == f[x]
    requires forall x :: 0 <= x < node && x < |d| ==> d'[x] == d[x]
    ensures Nodes(heap', len, g, d') && HeapFrom(heap', len, g, d', lo)
  {
    forall i | 2 <= i <= len && lo <= i / 2 ensures Ordered(heap', g, d', i) {
      assert Ordered(heap, f, d, i);
    }
  }

  lemma CreatedBy(f: seq<nat>, g: seq<nat>, dad: seq<nat>, dad': seq<nat>, node: nat, n: nat, m: nat)
    requires n < node < |f| && m < node && n != m && |f| == |dad| == |g| == |dad'|
    requires g[node] == f[n] + f[m] && forall x :: 0 <= x < |f| && x != node ==> g[x] == f[x]
    requires dad'[n] == dad'[m] == node && forall x :: 0 <= x < |dad| && x != n && x != m ==> dad'[x] == dad[x]
    ensures Created(f, g, dad, dad', node, n, m)
  {
  }

  lemma SecondLeast(live: seq<nat>, rest: seq<nat>, n: nat, m: nat)
    requires NoDup(live) && multiset(rest) + multiset{n} == multiset(live) && m in rest
    ensures n != m
  {
    OnceIn(live, n);
    assert multiset(live)[n] == multiset(rest)[n] + 1;
    assert m in multiset(rest);
  }

  /** Takes the two least nodes out of the heap, and puts their new father in. */
  method MergeNodes(heap: array<nat>, fc: array<nat>, dl: array<nat>, depth: array<nat>, len: nat, max: nat, node: nat)
    returns (ghost c: Change)
    requires heap != fc && heap != dl && heap != depth && fc != dl && fc != depth && dl != depth
    requires Nodes(heap[..], len, fc[..], depth[..]) && HeapFrom(heap[..], len, fc[..], depth[..], 1)
    requires 2 <= len && len + 2 <= max <= heap.Length && node < fc.Length == dl.Length == depth.Length
    requires NoDup(Live(heap[..], len)) && forall i :: 0 <= i < len ==> Live(heap[..], len)[i] < node
    modifies heap, fc, dl, depth
    ensures c.heap == heap[..] && c.f == fc[..] && c.d == depth[..] && c.dad == dl[..]
    ensures Merged(old(Live(heap[..], len)), old(heap[max..]), old(fc[..]), old(dl[..]), len, max, node, c)
    ensures forall x :: 0 <= x < fc.Length && x != node ==> fc[x] == old(fc[x])
  {
    hide NoDup, HeapFrom, Created, Least, Live, Nodes;
    ghost var h, f, d := heap[..], fc[..], depth[..];
    var n, m;
    ghost var rest;
    n, m, rest := TakeTwo(heap, len, fc, depth, node);
    ghost var h1 := heap[..];
    RecordMerge(heap, fc, dl, depth, max, node, n, m);
    RestHeap(h1, heap[..], len - 1, f, fc[..], d, depth[..], node);
    ReplaceTop(heap, len - 1, fc, depth, node);
    OrdGrows(h, heap[..], max, n, m);
    c := Change(Live(heap[..], len - 1), heap[max - 2..], heap[..], fc[..], depth[..], dl[..], n, m, rest);
  }

  /** Removes the least node `n`; the next one, `m`, stays on top. */
  method TakeTwo(heap: array<nat>, len: nat, fc: array<nat>, depth: array<nat>, ghost node: nat)
      returns (n: nat, m: nat, ghost rest: seq<nat>)
    requires Nodes(heap[..], len, fc[..], depth[..]) && heap != fc && heap != depth && len >= 2
    requires HeapFrom(heap[..], len, fc[..], depth[..], 1)
    requires NoDup(Live(heap[..], len)) && forall i :: 0 <= i < len ==> Live(heap[..], len)[i] < node
    modifies heap
    ensures Nodes(heap[..], len - 1, fc[..], depth[..]) && HeapFrom(heap[..], len - 1, fc[..], depth[..], 1)
    ensures rest == Live(heap[..], len - 1) && |rest| == len - 1
    ensures multiset(rest) + multiset{n} == multiset(old(Live(heap[..], len)))
    ensures Least(old(Live(heap[..], len)), fc[..], n) && Least(rest, fc[..], m) && m == heap[1]
    ensures n != m && n < node && m < node && forall i :: 0 <= i < |rest| ==> rest[i] < node
    ensures forall i :: len < i < heap.Length ==> heap[i] == old(heap[i])
  {
    ghost var live := Live(heap[..], len);
    n := PqRemove(heap, len, fc, depth);
    m := heap[1];
    rest := Live(heap[..], len - 1);
    TopLeast(heap[..], len - 1, fc[..], depth[..]);
    SecondLeast(live, rest, n, m);
    RestBelow(live, rest, n, node);
    assert rest[0] == m;
  }

  lemma OrdGrows(h: seq<nat>, h': seq<nat>, max: nat, n: nat, m: nat)
    requires |h'| == |h| && 2 <= max <= |h| && h'[max - 2] == m && h'[max - 1] == n
    requires forall i :: max <= i < |h| ==> h'[i] == h[i]
    ensures h'[max - 2..] == [m, n] + h[max..]
  {
  }

  /** Keeps the merged nodes sorted, and creates their father. */
  method RecordMerge(heap: array<nat>, fc: array<nat>, dl: array<nat>, depth: array<nat>, max: nat, node: nat, n: nat,
                     m: nat)
    requires heap != fc && heap != dl && heap != depth && fc != dl && fc != depth && dl != depth
    requires 2 <= max <= heap.Length && n < node && m < node && n != m
    requires node < fc.Length == dl.Length == depth.Length
    modifies heap, fc, dl, depth
    ensures heap[max - 2] == m && heap[max - 1] == n
    ensures forall i :: 0 <= i < heap.Length && i != max - 2 && i != max - 1 ==> heap[i] == old(heap[i])
    ensures forall x :: 0 <= x < fc.Length && x != node ==> fc[x] == old(fc[x])
    ensures forall x :: 0 <= x < depth.Length && x != node ==> depth[x] == old(depth[x])
    ensures Created(old(fc[..]), fc[..], old(dl[..]), dl[..], node, n, m)
  {
    heap[max - 1] := n;
    heap[max - 2] := m;
    fc[node] := fc[n] + fc[m];
    depth[node] := ((if depth[n] >= depth[m] then depth[n] else depth[m]) + 1) % 256;
    dl[n] := node;
    dl[m] := node;
    CreatedBy(old(fc[..]), fc[..], old(dl[..]), dl[..], node, n, m);
  }

  lemma RestBelow(live: seq<nat>, rest: seq<nat>, n: nat, node: nat)
    requires multiset(rest) + multiset{n} == multiset(live) && forall i :: 0 <= i < |live| ==> live[i] < node
    ensures n < node && forall i :: 0 <= i < |rest| ==> rest[i] < node
  {
    assert n in multiset(live);
    forall i | 0 <= i < |rest| ensures rest[i] < node {
      assert rest[i] in multiset(rest) + multiset{n};
      assert rest[i] in multiset(live);
    }
  }

  lemma RestHeap(h1: seq<nat>, h2: seq<nat>, len: nat, f: seq<nat>, g: seq<nat>, d: seq<nat>, d': seq<nat>, node: nat)
    requires Nodes(h1, len, f, d) && HeapFrom(h1, len, f, d, 1)
    requires |h2| == |h1| && |g| == |f| && |d'| == |d|
    requires forall i :: 0 <= i <= len ==> h2[i] == h1[i]
    requires forall i :: 0 <= i < len ==> Live(h1, len)[i] < node
    requires forall x :: 0 <= x < |f| && x != node ==> g[x] == f[x]
    requires forall x :: 0 <= x < |d| && x != node ==> d'[x] == d[x]
    ensures Nodes(h2, len, g, d') && HeapFrom(h2, len, g, d', 2) && Live(h2, len) == Live(h1, len)
  {
    forall i | 1 <= i <= len ensures h1[i] < node {
      assert Live(h1, len)[i - 1] == h1[i];
    }
    HeapFrame(h1, h2, len, f, g, d, d', node, 2);
  }

  // ---------------------------------------------------------------- the whole construction

  /** The finished tree, and the order in which `gen_bitlen` visits it: the root first, fathers before sons. */
  ghost predicate Built(t: Tree, order: seq<nat>, f: seq<nat>, dad: seq<nat>, syms: seq<nat>, elems: nat)
  {
    && |syms| >= 2 && NoDup(syms) && (forall x :: x in syms ==> x < elems)
    && elems + |syms| <= |f| == |dad|
    && Good(t, f, dad, elems, elems + |syms| - 1)
    && multiset(IdList(t)) == multiset(order)
    && multiset(order) == multiset(syms) + multiset(Range(elems, elems + |syms| - 1))
    && |order| == 2 * |syms| - 1 && order[0] == t.id
    && (forall p {:trigger Father(order, dad, p)} :: 1 <= p < |order| ==> Before(order, p, Father(order, dad, p)))
    && TreeCost(t, f) == Huffman(multiset(Weights(syms, f))) && Descending(order, f)
  }

  lemma LastTree(fs: seq<Tree>, live: seq<nat>, ord: seq<nat>, f: seq<nat>, dad: seq<nat>, syms: seq<nat>, elems: nat)
    requires |syms| >= 2 && Growing(fs, live, ord, f, dad, syms, elems, elems + |syms| - 1)
    requires OnBudget(fs, live, f, syms) && Falling(ord, live, f)
    requires |fs| == 1 && |live| == 1 && elems + |syms| <= |f| == |dad|
    ensures Built(fs[0], [live[0]] + ord, f, dad, syms, elems)
  {
    var t, order := fs[0], [live[0]] + ord;
    assert fs == [t];
    assert live == [live[0]];
    assert multiset(order) == multiset(live) + multiset(ord);
    assert multiset(IdList(t)) == multiset(order) by { AllIdsOne(t); }
    OrderLength(order, syms, Range(elems, elems + |syms| - 1));
    LastRoot(t, live);
    LastCost(fs, live, f);
    LastFathers(ord, live, dad);
    LastFalls(ord, live, f);
  }

  lemma LastFalls(ord: seq<nat>, live: seq<nat>, f: seq<nat>)
    requires |live| == 1 && Falling(ord, live, f)
    ensures Descending([live[0]] + ord, f)
  {
    var order := [live[0]] + ord;
    assert live[0] in live;
    forall p, q | 0 <= p < q < |order| ensures Get(f, order[q]) <= Get(f, order[p]) {
      if p >= 1 { assert Get(f, ord[q - 1]) <= Get(f, ord[p - 1]); }
    }
  }

  lemma LastRoot(t: Tree, live: seq<nat>)
    requires |live| == 1 && multiset(Roots([t])) == multiset(live)
    ensures live[0] == t.id
  {
    assert Roots([t]) == [t.id];
    assert live == [live[0]];
    assert t.id in multiset(live);
  }

  lemma OrderLength(order: seq<nat>, a: seq<nat>, b: seq<nat>)
    requires multiset(order) == multiset(a) + multiset(b)
    ensures |order| == |a| + |b|
  {
    assert |multiset(order)| == |multiset(a)| + |multiset(b)|;
  }

  lemma LastCost(fs: seq<Tree>, live: seq<nat>, f: seq<nat>)
    requires |fs| == 1 && |live| == 1
    ensures Sum(Costs(fs, f)) + Huffman(multiset(Weights(live, f))) == TreeCost(fs[0], f)
  {
    assert Costs(fs, f) == [TreeCost(fs[0], f)];
    SumOne(TreeCost(fs[0], f));
    assert |multiset(Weights(live, f))| == 1;
    HuffmanSmall(multiset(Weights(live, f)));
  }

  lemma LastFathers(ord: seq<nat>, live: seq<nat>, dad: seq<nat>)
    requires |live| == 1 && FathersFirst(ord, live, dad)
    ensures var order := [live[0]] + ord;
            forall p {:trigger Father(order, dad, p)} :: 1 <= p < |order| ==> Before(order, p, Father(order, dad, p))
  {
    var order := [live[0]] + ord;
    forall p | 1 <= p < |order| ensures Before(order, p, Father(order, dad, p)) {
      assert Father(order, dad, p) == Father(ord, dad, p - 1);
      var y := Father(order, dad, p);
      assert order[0] == live[0];
      if Before(ord, p - 1, y) {
        var q :| 0 <= q < p - 1 && ord[q] == y;
        assert order[q + 1] == y;
      }
    }
  }

  function Leaves(syms: seq<nat>): (fs: seq<Tree>)
    ensures |fs| == |syms| && forall i :: 0 <= i < |syms| ==> fs[i] == Leaf(syms[i])
  {
    seq(|syms|, i requires 0 <= i < |syms| => Leaf(syms[i]))
  }

  lemma {:induction false} LeavesIds(syms: seq<nat>)
    ensures AllIds(Leaves(syms)) == syms && Roots(Leaves(syms)) == syms
    decreases |syms|
  {
    if syms != [] {
      var n := |syms| - 1;
      LeavesIds(syms[..n]);
      assert Leaves(syms)[..n] == Leaves(syms[..n]);
      assert syms == syms[..n] + [syms[n]];
    }
  }

  lemma {:induction false} NoCost(fs: seq<nat>)
    requires forall i :: 0 <= i < |fs| ==> fs[i] == 0
    ensures Sum(fs) == 0
    decreases |fs|
  {
    if fs != [] { NoCost(fs[..|fs| - 1]); }
  }

  lemma FirstForest(live: seq<nat>, f: seq<nat>, dad: seq<nat>, syms: seq<nat>, elems: nat)
    requires multiset(live) == multiset(syms) && NoDup(syms) && forall x :: x in syms ==> x < elems
    ensures Growing(Leaves(syms), live, [], f, dad, syms, elems, elems) && OnBudget(Leaves(syms), live, f, syms)
  {
    LeavesIds(syms);
    NoCost(Costs(Leaves(syms), f));
    WeightsMultiset(live, syms, f);
    assert Range(elems, elems) == [];
    forall t | t in Leaves(syms) ensures Good(t, f, dad, elems, elems) {
      var i :| 0 <= i < |syms| && Leaves(syms)[i] == t;
      assert syms[i] in syms;
    }
  }

  /** Builds the tree over the symbols in `heap[1..len]`. */
  method GrowTree(heap: array<nat>, fc: array<nat>, dl: array<nat>, depth: array<nat>, len0: nat, ghost syms: seq<nat>,
                  elems: nat)
    returns (max: nat, ghost t: Tree)
    requires heap != fc && heap != dl && heap != depth && fc != dl && fc != depth && dl != depth
    requires 2 <= len0 && 2 * len0 <= heap.Length && elems + len0 <= fc.Length == dl.Length == depth.Length
    requires syms == Live(heap[..], len0) && NoDup(syms) && forall x :: x in syms ==> x < elems
    modifies heap, fc, dl, depth
    ensures max == heap.Length - (2 * len0 - 1)
    ensures Built(t, heap[max..], fc[..], dl[..], syms, elems)
    ensures DadsKept(old(dl[..]), dl[..], syms, elems)
    ensures forall x :: 0 <= x < elems ==> fc[x] == old(fc[x])
  {
    Heapify(heap, fc, depth, len0, syms, elems);
    ghost var s;
    max, s := MergeAll(heap, fc, dl, depth, len0, syms, elems);
    t := LastStage(s, syms, elems);
    assert max == s.max;
    PushRoot(heap, max);
    max := max - 1;
  }

  method PushRoot(heap: array<nat>, max: nat)
    requires 1 < max <= heap.Length
    modifies heap
    ensures heap[max - 1..] == [old(heap[1])] + old(heap[max..])
  {
    ghost var h := heap[..];
    heap[max - 1] := heap[1];
    LastOrder(h, heap[..], max - 1);
  }

  lemma LastStage(s: Stage, syms: seq<nat>, elems: nat) returns (t: Tree)
    requires Building(s, syms, elems) && s.len == 1 && |syms| >= 2
    ensures |s.live| == 1 && Built(t, [s.live[0]] + s.ord, s.f, s.dad, syms, elems)
    ensures 1 < s.max <= |s.heap| && s.live[0] == s.heap[1] && s.ord == s.heap[s.max..]
  {
    hide Growing, OnBudget, Built, Good;
    t := s.fs[0];
    LastTree(s.fs, s.live, s.ord, s.f, s.dad, syms, elems);
  }

  lemma LastOrder(h: seq<nat>, h': seq<nat>, max: nat)
    requires 1 <= max < |h| == |h'| && h'[max] == h[1] && forall i :: max < i < |h| ==> h'[i] == h[i]
    ensures h'[max..] == [h[1]] + h[max + 1..]
  {
  }

  method MergeAll(heap: array<nat>, fc: array<nat>, dl: array<nat>, depth: array<nat>, len0: nat, ghost syms: seq<nat>,
                  elems: nat)
    returns (max: nat, ghost s: Stage)
    requires heap != fc && heap != dl && heap != depth && fc != dl && fc != depth && dl != depth
    requires 2 <= len0 == |syms| && 2 * len0 <= heap.Length && elems + len0 <= fc.Length == dl.Length == depth.Length
    requires Nodes(heap[..], len0, fc[..], depth[..]) && HeapFrom(heap[..], len0, fc[..], depth[..], 1)
    requires multiset(Live(heap[..], len0)) == multiset(syms) && NoDup(syms) && forall x :: x in syms ==> x < elems
    modifies heap, fc, dl, depth
    ensures max == heap.Length - 2 * (len0 - 1) == s.max
    ensures Building(s, syms, elems) && s.len == 1
    ensures s.heap == heap[..] && s.f == fc[..] && s.dad == dl[..] && DadsKept(old(dl[..]), s.dad, syms, elems)
    ensures forall x :: 0 <= x < elems ==> fc[x] == old(fc[x])
  {
    hide Building, Nodes, HeapFrom, Live, NoDup;
    ghost var dad := dl[..];
    s := FirstStage(heap[..], len0, fc[..], depth[..], dl[..], syms, elems);
    var len, node := len0, elems;
    max := heap.Length;
    while len >= 2
      invariant 1 <= len <= len0 && node == elems + len0 - len && max == heap.Length - 2 * (len0 - len)
      invariant s.heap == heap[..] && s.f == fc[..] && s.d == depth[..] && s.dad == dl[..]
      invariant s.len == len && s.max == max && s.node == node
      invariant Building(s, syms, elems) && DadsKept(dad, s.dad, syms, elems)
      invariant forall x :: 0 <= x < elems ==> fc[x] == old(fc[x])
    {
      ghost var before := s.dad;
      s := MergeOnce(heap, fc, dl, depth, len, max, node, s, syms, elems);
      DadsKeptTwice(dad, before, s.dad, syms, elems);
      len, max, node := len - 1, max - 2, node + 1;
    }
  }

  method MergeOnce(heap: array<nat>, fc: array<nat>, dl: array<nat>, depth: array<nat>, len: nat, max: nat, node: nat,
                   ghost s: Stage, ghost syms: seq<nat>, ghost elems: nat) returns (ghost s': Stage)
    requires heap != fc && heap != dl && heap != depth && fc != dl && fc != depth && dl != depth
    requires s.heap == heap[..] && s.f == fc[..] && s.d == depth[..] && s.dad == dl[..]
    requires s.len == len >= 2 && s.max == max && s.node == node && Building(s, syms, elems)
    modifies heap, fc, dl, depth
    ensures Building(s', syms, elems)
    ensures s'.heap == heap[..] && s'.f == fc[..] && s'.d == depth[..] && s'.dad == dl[..]
    ensures s'.len == len - 1 && s'.max == max - 2 && s'.node == node + 1
    ensures DadsKept(s.dad, s'.dad, syms, elems)
    ensures forall x :: 0 <= x < elems ==> fc[x] == old(fc[x])
  {
    hide Growing, OnBudget, Nodes, HeapFrom, Merged, DadsKept;
    LiveBounds(s, syms, elems);
    ghost var c := MergeNodes(heap, fc, dl, depth, len, max, node);
    s' := NextStage(s, c, syms, elems);
    StageDads(s, c, syms, elems);
  }

  lemma FirstStage(heap: seq<nat>, len: nat, f: seq<nat>, d: seq<nat>, dad: seq<nat>, syms: seq<nat>, elems: nat)
      returns (s: Stage)
    requires 2 <= len == |syms| && 2 * len <= |heap| && elems + len <= |f| == |dad| == |d|
    requires Nodes(heap, len, f, d) && HeapFrom(heap, len, f, d, 1)
    requires multiset(Live(heap, len)) == multiset(syms) && NoDup(syms) && forall x :: x in syms ==> x < elems
    ensures s == Stage(Leaves(syms), Live(heap, len), [], heap, len, |heap|, f, d, dad, elems)
    ensures Building(s, syms, elems)
  {
    hide Growing, OnBudget;
    s := Stage(Leaves(syms), Live(heap, len), [], heap, len, |heap|, f, d, dad, elems);
    FirstForest(Live(heap, len), f, dad, syms, elems);
    assert heap[|heap|..] == [];
  }

  method Heapify(heap: array<nat>, fc: array<nat>, depth: array<nat>, len: nat, ghost syms: seq<nat>, ghost elems: nat)
    requires heap != fc && heap != depth && 2 <= len < heap.Length && elems <= fc.Length == depth.Length
    requires syms == Live(heap[..], len) && forall x :: x in syms ==> x < elems
    modifies heap
    ensures Nodes(heap[..], len, fc[..], depth[..]) && HeapFrom(heap[..], len, fc[..], depth[..], 1)
    ensures multiset(Live(heap[..], len)) == multiset(syms)
  {
    forall i | 1 <= i <= len ensures heap[i] < elems { assert syms[i - 1] == heap[i]; assert syms[i - 1] in syms; }
    var n := len / 2;
    while n >= 1
      invariant 0 <= n <= len / 2
      invariant Nodes(heap[..], len, fc[..], depth[..]) && HeapFrom(heap[..], len, fc[..], depth[..], n + 1)
      invariant multiset(Live(heap[..], len)) == multiset(syms)
    {
      PqDownHeap(heap, len, fc, depth, n);
      n := n - 1;
    }
  }
}

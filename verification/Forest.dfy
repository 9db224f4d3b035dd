/**
  * The trees that Huffman's algorithm grows while it merges nodes, as values: what the arrays of `build_tree`
  * (dep/zlib/trees.c) mean after every merge.
  */
module Forest {
  import opened Optimal

  datatype Tree = Leaf(id: nat) | Node(id: nat, left: Tree, right: Tree)

  /** Array access that is total. */
  function Get(s: seq<nat>, i: nat): nat
  {
    if i < |s| then s[i] else 0
  }

  function Weights(ids: seq<nat>, f: seq<nat>): (r: seq<nat>)
    ensures |r| == |ids| && forall i :: 0 <= i < |ids| ==> r[i] == Get(f, ids[i])
  {
    seq(|ids|, i requires 0 <= i < |ids| => Get(f, ids[i]))
  }

  lemma WeightsMultiset(a: seq<nat>, b: seq<nat>, f: seq<nat>)
    requires multiset(a) == multiset(b)
    ensures multiset(Weights(a, f)) == multiset(Weights(b, f))
  {
    var g := (x: nat) => Get(f, x);
    MapMultiset(a, b, g);
    assert Map(a, g) == Weights(a, f) && Map(b, g) == Weights(b, f);
  }

  lemma WeightsConcat(a: seq<nat>, b: seq<nat>, f: seq<nat>)
    ensures Weights(a + b, f) == Weights(a, f) + Weights(b, f)
  {
  }

  lemma WeightsFrame(a: seq<nat>, f: seq<nat>, g: seq<nat>)
    requires forall i :: 0 <= i < |a| ==> Get(f, a[i]) == Get(g, a[i])
    ensures Weights(a, f) == Weights(a, g)
  {
  }

  // ---------------------------------------------------------------- trees

  function IdList(t: Tree): seq<nat>
  {
    match t
    case Leaf(id) => [id]
    case Node(id, l, r) => [id] + (IdList(l) + IdList(r))
  }

  /** Frequencies add up, fathers are recorded, leaves are symbols and inner nodes are numbered from `elems`. */
  ghost predicate Good(t: Tree, f: seq<nat>, dad: seq<nat>, elems: nat, node: nat)
  {
    match t
    case Leaf(id) => id < elems
    case Node(id, l, r) =>
      && elems <= id < node
      && Get(f, id) == Get(f, l.id) + Get(f, r.id)
      && Get(dad, l.id) == id == Get(dad, r.id)
      && Good(l, f, dad, elems, node) && Good(r, f, dad, elems, node)
  }

  /** The frequencies of all inner nodes. */
  function TreeCost(t: Tree, f: seq<nat>): nat
  {
    match t
    case Leaf(id) => 0
    case Node(id, l, r) => Get(f, id) + TreeCost(l, f) + TreeCost(r, f)
  }

  lemma {:induction false} GoodIds(t: Tree, f: seq<nat>, dad: seq<nat>, elems: nat, node: nat)
    requires Good(t, f, dad, elems, node) && elems <= node
    ensures forall x :: x in IdList(t) ==> x < node
    ensures t.id in IdList(t)
  {
    if t.Node? {
      GoodIds(t.left, f, dad, elems, node);
      GoodIds(t.right, f, dad, elems, node);
    }
  }

  /** Changes to other nodes do not matter; the father of the root does not matter either. */
  lemma {:induction false} GoodFrame(t: Tree, f: seq<nat>, g: seq<nat>, dad: seq<nat>, dad': seq<nat>, elems: nat,
                                     node: nat, node': nat)
    requires Good(t, f, dad, elems, node) && elems <= node <= node'
    requires forall x :: x in IdList(t) ==> Get(f, x) == Get(g, x)
    requires forall x :: x in IdList(t) && x != t.id ==> Get(dad, x) == Get(dad', x)
    requires NoDup(IdList(t))
    ensures Good(t, g, dad', elems, node') && TreeCost(t, g) == TreeCost(t, f)
  {
    if t.Node? {
      var l, r := t.left, t.right;
      GoodIds(l, f, dad, elems, node);
      GoodIds(r, f, dad, elems, node);
      GoodIds(t, f, dad, elems, node);
      NoDupParts(t.id, IdList(l), IdList(r));
      assert l.id in IdList(l) && r.id in IdList(r);
      GoodFrame(l, f, g, dad, dad', elems, node, node');
      GoodFrame(r, f, g, dad, dad', elems, node, node');
    }
  }

  ghost predicate NoDup(s: seq<nat>)
  {
    forall i, j :: 0 <= i < j < |s| ==> s[i] != s[j]
  }

  lemma NoDupParts(x: nat, a: seq<nat>, b: seq<nat>)
    requires NoDup([x] + (a + b))
    ensures NoDup(a) && NoDup(b) && x !in a && x !in b
  {
    var s := [x] + (a + b);
    assert s[0] == x;
    assert forall i :: 0 <= i < |a| ==> a[i] == s[1 + i];
    assert forall i :: 0 <= i < |b| ==> b[i] == s[1 + |a| + i];
  }

  // ---------------------------------------------------------------- forests

  function Roots(fs: seq<Tree>): (r: seq<nat>)
    ensures |r| == |fs| && forall i :: 0 <= i < |fs| ==> r[i] == fs[i].id
  {
    seq(|fs|, i requires 0 <= i < |fs| => fs[i].id)
  }

  function AllIds(fs: seq<Tree>): seq<nat>
  {
    if fs == [] then [] else AllIds(fs[..|fs| - 1]) + IdList(fs[|fs| - 1])
  }

  function Costs(fs: seq<Tree>, f: seq<nat>): (r: seq<nat>)
    ensures |r| == |fs| && forall i :: 0 <= i < |fs| ==> r[i] == TreeCost(fs[i], f)
  {
    seq(|fs|, i requires 0 <= i < |fs| => TreeCost(fs[i], f))
  }

  lemma {:induction false} AllIdsConcat(a: seq<Tree>, b: seq<Tree>)
    ensures AllIds(a + b) == AllIds(a) + AllIds(b)
  {
    hide IdList;
    if b == [] { assert a + b == a; }
    else {
      assert (a + b)[..|a + b| - 1] == a + b[..|b| - 1];
      AllIdsConcat(a, b[..|b| - 1]);
    }
  }

  lemma AllIdsOne(t: Tree)
    ensures AllIds([t]) == IdList(t)
  {
    assert [t][..0] == [];
    assert AllIds([t][..0]) == [];
  }

  lemma AllIdsRemove(fs: seq<Tree>, i: nat)
    requires i < |fs|
    ensures multiset(AllIds(fs)) == multiset(AllIds(Remove(fs, i))) + multiset(IdList(fs[i]))
  {
    var a, b := fs[..i], fs[i + 1..];
    assert fs == a + ([fs[i]] + b);
    AllIdsConcat(a, [fs[i]] + b);
    AllIdsConcat([fs[i]], b);
    AllIdsConcat(a, b);
    AllIdsOne(fs[i]);
  }

  /** Merging two trees under a new root adds just that node. */
  lemma IdsOfNode(t: Tree)
    requires t.Node?
    ensures multiset(IdList(t)) == multiset{t.id} + multiset(IdList(t.left)) + multiset(IdList(t.right))
  {
  }

  lemma AllIdsMerge(fs: seq<Tree>, i: nat, j: nat, t: Tree)
    requires i < j < |fs| && t.Node? && ((t.left == fs[i] && t.right == fs[j]) || (t.left == fs[j] && t.right == fs[i]))
    ensures multiset(AllIds(Merge(fs, i, j, t))) == multiset(AllIds(fs)) + multiset{t.id}
  {
    hide AllIds, IdList;
    AllIdsRemove(fs, j);
    AllIdsRemove(Remove(fs, j), i);
    AllIdsConcat(Remove(Remove(fs, j), i), [t]);
    AllIdsOne(t);
    IdsOfNode(t);
  }

  lemma RootsMerge(fs: seq<Tree>, i: nat, j: nat, t: Tree)
    requires i < j < |fs|
    ensures Roots(Merge(fs, i, j, t)) == Merge(Roots(fs), i, j, t.id)
  {
  }

  lemma CostsMerge(fs: seq<Tree>, i: nat, j: nat, t: Tree, f: seq<nat>)
    requires i < j < |fs|
    ensures Costs(Merge(fs, i, j, t), f) == Merge(Costs(fs, f), i, j, TreeCost(t, f))
  {
  }

  lemma {:induction false} NoDupMultiset(a: seq<nat>, b: seq<nat>)
    requires multiset(a) == multiset(b) && NoDup(a)
    ensures NoDup(b)
    decreases |a|
  {
    forall i, j | 0 <= i < j < |b|
      ensures b[i] != b[j]
    {
      if b[i] == b[j] {
        TwiceIn(b, i, j);
        OnceIn(a, b[i]);
      }
    }
  }

  lemma TwiceIn(s: seq<nat>, i: nat, j: nat)
    requires 0 <= i < j < |s| && s[i] == s[j]
    ensures multiset(s)[s[i]] >= 2
  {
    assert s == s[..j] + [s[j]] + s[j + 1..];
    assert s[..j][i] == s[i];
    assert s[i] in multiset(s[..j]);
  }

  lemma {:induction false} OnceIn(s: seq<nat>, x: nat)
    requires NoDup(s)
    ensures multiset(s)[x] <= 1
    decreases |s|
  {
    if s != [] {
      var n := |s| - 1;
      assert s == s[..n] + [s[n]];
      OnceIn(s[..n], x);
      if s[n] == x {
        assert x !in s[..n];
        assert x !in multiset(s[..n]);
      }
    }
  }

  lemma {:induction false} NoDupAllIds(fs: seq<Tree>, k: nat)
    requires NoDup(AllIds(fs)) && k < |fs|
    ensures NoDup(IdList(fs[k]))
    ensures forall x :: x in IdList(fs[k]) ==> x in AllIds(fs)
    decreases |fs|
  {
    var n := |fs| - 1;
    var a, b := AllIds(fs[..n]), IdList(fs[n]);
    assert AllIds(fs) == a + b;
    if k == n {
      assert forall i :: 0 <= i < |b| ==> b[i] == (a + b)[|a| + i];
    } else {
      assert forall i :: 0 <= i < |a| ==> a[i] == (a + b)[i];
      NoDupAllIds(fs[..n], k);
      assert fs[..n][k] == fs[k];
    }
  }
}

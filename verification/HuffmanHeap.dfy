/**
  * The priority queue of dep/zlib/trees.c: node numbers in `heap[1..len]`, least frequency first, the sons of
  * `heap[n]` at `heap[2n]` and `heap[2n + 1]`.
  */
module HuffmanHeap {

  /** Lower frequency first, then lower depth. */
  predicate Smaller(f: seq<nat>, d: seq<nat>, n: nat, m: nat)
    requires n < |f| && n < |d| && m < |f| && m < |d|
  {
    f[n] < f[m] || (f[n] == f[m] && d[n] <= d[m])
  }

  ghost predicate Nodes(heap: seq<nat>, len: nat, f: seq<nat>, d: seq<nat>)
  {
    len < |heap| && forall i :: 1 <= i <= len ==> heap[i] < |f| && heap[i] < |d|
  }

  /** The node at `i` is not before its father. */
  ghost predicate Ordered(heap: seq<nat>, f: seq<nat>, d: seq<nat>, i: nat)
    requires i < |heap| && heap[i / 2] < |f| && heap[i / 2] < |d| && heap[i] < |f| && heap[i] < |d|
  {
    Smaller(f, d, heap[i / 2], heap[i])
  }

  /** The heap property below the fathers `lo ..`. */
  ghost predicate HeapFrom(heap: seq<nat>, len: nat, f: seq<nat>, d: seq<nat>, lo: nat)
    requires Nodes(heap, len, f, d)
  {
    forall i {:trigger Ordered(heap, f, d, i)} :: 2 <= i <= len && lo <= i / 2 ==> Ordered(heap, f, d, i)
  }

  /** The heap property with a hole at `k` that `v` may fill. */
  ghost predicate Hole(heap: seq<nat>, len: nat, f: seq<nat>, d: seq<nat>, lo: nat, k: nat, v: nat)
    requires Nodes(heap, len, f, d) && v < |f| && v < |d|
  {
    && 1 <= lo <= k <= len
    && (forall i {:trigger Ordered(heap, f, d, i)} ::
          2 <= i <= len && lo <= i / 2 && i / 2 != k && i != k ==> Ordered(heap, f, d, i))
    && (k / 2 >= lo ==> Smaller(f, d, heap[k / 2], v)
                        && forall i :: 2 <= i <= len && i / 2 == k ==> Smaller(f, d, heap[k / 2], heap[i]))
  }

  lemma HoleMoves(heap: seq<nat>, len: nat, f: seq<nat>, d: seq<nat>, lo: nat, k: nat, v: nat, j: nat)
    requires Nodes(heap, len, f, d) && v < |f| && v < |d| && Hole(heap, len, f, d, lo, k, v)
    requires j / 2 == k && j <= len && !Smaller(f, d, v, heap[j])
    requires forall i :: 2 <= i <= len && i / 2 == k ==> Smaller(f, d, heap[j], heap[i])
    ensures Nodes(heap[k := heap[j]], len, f, d) && Hole(heap[k := heap[j]], len, f, d, lo, j, v)
  {
    var h := heap[k := heap[j]];
    forall i | 2 <= i <= len && lo <= i / 2 && i / 2 != j && i != j
      ensures Ordered(h, f, d, i)
    {
      if i / 2 != k && i != k { assert Ordered(heap, f, d, i); }
    }
    forall i | 2 <= i <= len && i / 2 == j ensures Smaller(f, d, h[k], h[i]) {
      assert Ordered(heap, f, d, i);
    }
  }

  lemma HoleFilled(heap: seq<nat>, len: nat, f: seq<nat>, d: seq<nat>, lo: nat, k: nat, v: nat)
    requires Nodes(heap, len, f, d) && v < |f| && v < |d| && Hole(heap, len, f, d, lo, k, v)
    requires forall i :: 2 <= i <= len && i / 2 == k ==> Smaller(f, d, v, heap[i])
    ensures Nodes(heap[k := v], len, f, d) && HeapFrom(heap[k := v], len, f, d, lo)
  {
    forall i | 2 <= i <= len && lo <= i / 2 ensures Ordered(heap[k := v], f, d, i) {
      if i / 2 != k && i != k { assert Ordered(heap, f, d, i); }
    }
  }

  lemma HoleStart(heap: seq<nat>, len: nat, f: seq<nat>, d: seq<nat>, k: nat)
    requires Nodes(heap, len, f, d) && 1 <= k <= len && HeapFrom(heap, len, f, d, k + 1)
    ensures Hole(heap, len, f, d, k, k, heap[k])
  {
    forall i | 2 <= i <= len && k <= i / 2 && i / 2 != k && i != k ensures Ordered(heap, f, d, i) {
    }
  }

  /** Replacing the first node only concerns its sons. */
  lemma HeapBelowTop(heap: seq<nat>, len: nat, len': nat, f: seq<nat>, d: seq<nat>, x: nat)
    requires Nodes(heap, len, f, d) && HeapFrom(heap, len, f, d, 2) && 1 <= len' <= len && x < |f| && x < |d|
    ensures Nodes(heap[1 := x], len', f, d) && HeapFrom(heap[1 := x], len', f, d, 2)
  {
    forall i | 2 <= i <= len' && 2 <= i / 2 ensures Ordered(heap[1 := x], f, d, i) {
      assert Ordered(heap, f, d, i);
    }
  }

  lemma SonsAbove(heap: seq<nat>, len: nat, f: seq<nat>, d: seq<nat>, k: nat, j: nat, v: nat)
    requires Nodes(heap, len, f, d) && v < |f| && v < |d| && 1 <= j <= len && Smaller(f, d, v, heap[j])
    requires forall i :: 2 <= i <= len && i / 2 == k ==> Smaller(f, d, heap[j], heap[i])
    ensures forall i :: 2 <= i <= len && i / 2 == k ==> Smaller(f, d, v, heap[i])
  {
  }

  lemma SwapMultiset(s: seq<nat>, i: nat, j: nat)
    requires i < |s| && j < |s| && i != j
    ensures multiset(s[i := s[j]][j := s[i]]) == multiset(s)
  {
  }

  /** Moving the hole moves `v`, and nothing gets lost. */
  lemma HoleMultiset(s: seq<nat>, k: nat, j: nat, v: nat)
    requires k < |s| && j < |s| && k != j
    ensures multiset(s[k := s[j]][j := v]) == multiset(s[k := v])
  {
    var u := s[k := v];
    SwapMultiset(u, k, j);
    assert u[k := u[j]][j := u[k]] == s[k := s[j]][j := v];
  }

  function Live(heap: seq<nat>, len: nat): seq<nat>
    requires len < |heap|
  {
    heap[1..len + 1]
  }

  /** Restores the heap property by moving the node at `k0` down. */
  method PqDownHeap(heap: array<nat>, len: nat, f: array<nat>, d: array<nat>, k0: nat)
    requires Nodes(heap[..], len, f[..], d[..]) && heap != f && heap != d
    requires 1 <= k0 <= len && HeapFrom(heap[..], len, f[..], d[..], k0 + 1)
    modifies heap
    ensures Nodes(heap[..], len, f[..], d[..]) && HeapFrom(heap[..], len, f[..], d[..], k0)
    ensures multiset(Live(heap[..], len)) == old(multiset(Live(heap[..], len)))
    ensures forall i :: len < i < heap.Length ==> heap[i] == old(heap[i])
  {
    ghost var h0, fs, ds := heap[..], f[..], d[..];
    ghost var h := h0;
    var v, k, j := heap[k0], k0, 2 * k0;
    assert h0[k0 := v] == h0;
    HoleStart(h0, len, fs, ds, k0);
    while j <= len
      invariant k0 <= k <= len && j == 2 * k && f[..] == fs && d[..] == ds && h == heap[..]
      invariant Nodes(h, len, fs, ds) && Hole(h, len, fs, ds, k0, k, v)
      invariant multiset(Live(h[k := v], len)) == multiset(Live(h0, len))
      invariant forall i :: len < i < heap.Length ==> h[i] == h0[i]
    {
      j := SmallestSon(heap, len, f, d, j);
      if f[v] < f[heap[j]] || (f[v] == f[heap[j]] && d[v] <= d[heap[j]]) {
        SonsAbove(h, len, fs, ds, k, j, v);
        break;
      }
      HoleMoves(h, len, fs, ds, k0, k, v, j);
      LiveMove(h, len, k, j, v);
      heap[k] := heap[j];
      h := h[k := h[j]];
      k := j;
      j := 2 * j;
    }
    HoleFilled(h, len, fs, ds, k0, k, v);
    heap[k] := v;
    assert heap[..] == h[k := v];
  }

  /** The smaller one of the sons at `j` and `j + 1`. */
  method SmallestSon(heap: array<nat>, len: nat, f: array<nat>, d: array<nat>, j: nat) returns (s: nat)
    requires Nodes(heap[..], len, f[..], d[..]) && 2 <= j <= len && j % 2 == 0
    ensures s / 2 == j / 2 && j <= s <= len
    ensures forall i :: 2 <= i <= len && i / 2 == j / 2 ==> Smaller(f[..], d[..], heap[s], heap[i])
  {
    s := j;
    if j < len && (f[heap[j + 1]] < f[heap[j]] || (f[heap[j + 1]] == f[heap[j]] && d[heap[j + 1]] <= d[heap[j]])) {
      s := j + 1;
    }
    assert forall i :: 2 <= i <= len && i / 2 == j / 2 ==> i == j || i == j + 1;
  }

  lemma LiveMove(h: seq<nat>, len: nat, k: nat, j: nat, v: nat)
    requires 1 <= k < j <= len < |h|
    ensures multiset(Live(h[k := h[j]][j := v], len)) == multiset(Live(h[k := v], len))
  {
    var s := Live(h, len);
    HoleMultiset(s, k - 1, j - 1, v);
    assert Live(h[k := h[j]][j := v], len) == s[k - 1 := s[j - 1]][j - 1 := v];
    assert Live(h[k := v], len) == s[k - 1 := v];
  }

  /** The first node has the least frequency. */
  lemma {:induction false} TopIsLeast(heap: seq<nat>, len: nat, f: seq<nat>, d: seq<nat>, i: nat)
    requires Nodes(heap, len, f, d) && HeapFrom(heap, len, f, d, 1) && 1 <= i <= len
    ensures f[heap[1]] <= f[heap[i]]
    decreases i
  {
    if i > 1 {
      TopIsLeast(heap, len, f, d, i / 2);
      assert Ordered(heap, f, d, i);
    }
  }

  ghost predicate Least(live: seq<nat>, f: seq<nat>, n: nat)
  {
    n in live && n < |f| && forall x :: x in live ==> x < |f| && f[n] <= f[x]
  }

  lemma TopLeast(heap: seq<nat>, len: nat, f: seq<nat>, d: seq<nat>)
    requires Nodes(heap, len, f, d) && HeapFrom(heap, len, f, d, 1) && 1 <= len
    ensures Least(Live(heap, len), f, heap[1])
  {
    var live := Live(heap, len);
    assert live[0] == heap[1];
    forall x | x in live ensures x < |f| && f[heap[1]] <= f[x] {
      var i :| 0 <= i < |live| && live[i] == x;
      assert heap[i + 1] == x;
      TopIsLeast(heap, len, f, d, i + 1);
    }
  }

  lemma LiveWithoutTop(h: seq<nat>, len: nat)
    requires 2 <= len < |h|
    ensures multiset(Live(h[1 := h[len]], len - 1)) + multiset{h[1]} == multiset(Live(h, len))
  {
    var mid := h[2..len];
    assert Live(h[1 := h[len]], len - 1) == [h[len]] + mid;
    assert Live(h, len) == [h[1]] + (mid + [h[len]]);
  }

  /** Removes the least node. */
  method PqRemove(heap: array<nat>, len: nat, f: array<nat>, d: array<nat>) returns (n: nat)
    requires Nodes(heap[..], len, f[..], d[..]) && heap != f && heap != d && len >= 2
    requires HeapFrom(heap[..], len, f[..], d[..], 1)
    modifies heap
    ensures Nodes(heap[..], len - 1, f[..], d[..]) && HeapFrom(heap[..], len - 1, f[..], d[..], 1)
    ensures multiset(Live(heap[..], len - 1)) + multiset{n} == multiset(old(Live(heap[..], len)))
    ensures Least(old(Live(heap[..], len)), f[..], n)
    ensures forall i :: len < i < heap.Length ==> heap[i] == old(heap[i])
  {
    hide Live, Least, Ordered;
    ghost var h := heap[..];
    TopLeast(h, len, f[..], d[..]);
    LiveWithoutTop(h, len);
    HeapBelowTop(h, len, len - 1, f[..], d[..], h[len]);
    n := heap[1];
    heap[1] := heap[len];
    assert heap[..] == h[1 := h[len]];
    PqDownHeap(heap, len - 1, f, d, 1);
  }

  lemma LiveNewTop(h: seq<nat>, len: nat, node: nat)
    requires 1 <= len < |h|
    ensures multiset(Live(h[1 := node], len)) + multiset{h[1]} == multiset(Live(h, len)) + multiset{node}
  {
    var s := Live(h, len);
    assert Live(h[1 := node], len) == s[0 := node];
    assert s == [s[0]] + s[1..] && s[0 := node] == [node] + s[1..];
  }

  /** Replaces the first node. */
  method ReplaceTop(heap: array<nat>, len: nat, f: array<nat>, d: array<nat>, node: nat)
    requires Nodes(heap[..], len, f[..], d[..]) && heap != f && heap != d && len >= 1
    requires HeapFrom(heap[..], len, f[..], d[..], 2) && node < f.Length && node < d.Length
    modifies heap
    ensures Nodes(heap[..], len, f[..], d[..]) && HeapFrom(heap[..], len, f[..], d[..], 1)
    ensures multiset(Live(heap[..], len)) + multiset{old(heap[1])} == multiset(old(Live(heap[..], len)))
            + multiset{node}
    ensures forall i :: len < i < heap.Length ==> heap[i] == old(heap[i])
  {
    ghost var h := heap[..];
    LiveNewTop(h, len, node);
    HeapBelowTop(h, len, len, f[..], d[..], node);
    heap[1] := node;
    assert heap[..] == h[1 := node];
    PqDownHeap(heap, len, f, d, 1);
  }
}

/**
  * What Huffman's algorithm achieves: merging two least weights over and over costs no more than any assignment of
  * code lengths that satisfies the Kraft inequality, hence no more than any prefix code.
  */
module Optimal {
  import opened Arith

  // ---------------------------------------------------------------- sums and merges of sequences

  function Sum(s: seq<nat>): nat
  {
    if s == [] then 0 else Sum(s[..|s| - 1]) + s[|s| - 1]
  }

  lemma {:induction false} SumConcat(a: seq<nat>, b: seq<nat>)
    ensures Sum(a + b) == Sum(a) + Sum(b)
  {
    if b == [] { assert a + b == a; }
    else {
      assert (a + b)[..|a + b| - 1] == a + b[..|b| - 1];
      SumConcat(a, b[..|b| - 1]);
    }
  }

  lemma SumOne(x: nat)
    ensures Sum([x]) == x
  {
    assert [x][..0] == [];
    assert Sum([x][..0]) == 0;
  }

  function Remove<T>(s: seq<T>, i: nat): seq<T>
    requires i < |s|
  {
    s[..i] + s[i + 1..]
  }

  lemma SumRemove(s: seq<nat>, i: nat)
    requires i < |s|
    ensures Sum(s) == Sum(Remove(s, i)) + s[i]
  {
    hide Sum;
    assert s == s[..i] + ([s[i]] + s[i + 1..]);
    SumMiddle(s[..i], s[i], s[i + 1..]);
  }

  lemma SumMiddle(a: seq<nat>, x: nat, b: seq<nat>)
    ensures Sum(a + ([x] + b)) == Sum(a + b) + x
  {
    SumConcat(a, [x] + b);
    SumConcat([x], b);
    SumConcat(a, b);
    SumOne(x);
  }

  lemma SumUpdate(s: seq<nat>, i: nat, x: nat)
    requires i < |s|
    ensures Sum(s[i := x]) + s[i] == Sum(s) + x
  {
    SumRemove(s, i);
    SumRemove(s[i := x], i);
    assert Remove(s[i := x], i) == Remove(s, i);
  }

  lemma RemoveMultiset<T>(s: seq<T>, i: nat)
    requires i < |s|
    ensures multiset(s) == multiset(Remove(s, i)) + multiset{s[i]}
  {
    assert s == s[..i] + ([s[i]] + s[i + 1..]);
  }

  /** Replaces the elements at `i < j` by `x`. */
  function Merge<T>(s: seq<T>, i: nat, j: nat, x: T): seq<T>
    requires i < j < |s|
  {
    Remove(Remove(s, j), i) + [x]
  }

  lemma MergeSum(s: seq<nat>, i: nat, j: nat, x: nat)
    requires i < j < |s|
    ensures Sum(Merge(s, i, j, x)) + s[i] + s[j] == Sum(s) + x
  {
    SumRemove(s, j);
    SumRemove(Remove(s, j), i);
    SumConcat(Remove(Remove(s, j), i), [x]);
    SumOne(x);
  }

  lemma MergeMultiset<T>(s: seq<T>, i: nat, j: nat, x: T)
    requires i < j < |s|
    ensures multiset(Merge(s, i, j, x)) + multiset{s[i], s[j]} == multiset(s) + multiset{x}
  {
    RemoveMultiset(s, j);
    RemoveMultiset(Remove(s, j), i);
  }

  function Map<A, B>(s: seq<A>, f: A -> B): (r: seq<B>)
    ensures |r| == |s| && forall i :: 0 <= i < |s| ==> r[i] == f(s[i])
  {
    seq(|s|, i requires 0 <= i < |s| => f(s[i]))
  }

  /** A permutation stays one under a map. */
  lemma {:induction false} MapMultiset<A, B>(a: seq<A>, b: seq<A>, f: A -> B)
    requires multiset(a) == multiset(b)
    ensures multiset(Map(a, f)) == multiset(Map(b, f))
    decreases |a|
  {
    hide Remove;
    if a == [] {
      assert |multiset(b)| == 0;
      assert Map(a, f) == [] && Map(b, f) == [];
    } else {
      var x := a[0];
      assert x in multiset(b);
      var j :| 0 <= j < |b| && b[j] == x;
      RemoveMultiset(a, 0);
      RemoveMultiset(b, j);
      assert multiset(Remove(a, 0)) == multiset(a) - multiset{x};
      assert multiset(Remove(b, j)) == multiset(b) - multiset{x};
      MapMultiset(Remove(a, 0), Remove(b, j), f);
      RemoveMultiset(Map(a, f), 0);
      RemoveMultiset(Map(b, f), j);
      MapRemove(a, 0, f);
      MapRemove(b, j, f);
    }
  }

  lemma MapRemove<A, B>(s: seq<A>, i: nat, f: A -> B)
    requires i < |s|
    ensures Map(Remove(s, i), f) == Remove(Map(s, f), i)
  {
    assert Map(Remove(s, i), f) == Remove(Map(s, f), i);
  }

  lemma {:induction false} SumMultiset(a: seq<nat>, b: seq<nat>)
    requires multiset(a) == multiset(b)
    ensures Sum(a) == Sum(b)
    decreases |a|
  {
    if a == [] {
      assert |multiset(b)| == 0;
    } else {
      var x := a[0];
      assert x in multiset(b);
      var j :| 0 <= j < |b| && b[j] == x;
      RemoveMultiset(a, 0);
      RemoveMultiset(b, j);
      assert multiset(Remove(a, 0)) == multiset(a) - multiset{x};
      assert multiset(Remove(b, j)) == multiset(b) - multiset{x};
      SumMultiset(Remove(a, 0), Remove(b, j));
      SumRemove(a, 0);
      SumRemove(b, j);
    }
  }

  // ---------------------------------------------------------------- Huffman's cost

  ghost predicate IsMin(ws: multiset<nat>, a: nat)
  {
    a in ws && forall x :: x in ws ==> a <= x
  }

  lemma {:induction false} MinExists(ws: multiset<nat>) returns (a: nat)
    requires |ws| > 0
    ensures IsMin(ws, a)
    decreases |ws|
  {
    var x :| x in ws;
    var rest := ws - multiset{x};
    if |rest| == 0 { a := x; }
    else {
      var b := MinExists(rest);
      a := if x <= b then x else b;
    }
    forall y | y in ws ensures a <= y { if y != x { assert y in rest; } }
  }

  lemma HasMin(ws: multiset<nat>)
    requires |ws| > 0
    ensures exists a :: IsMin(ws, a)
  {
    var a := MinExists(ws);
  }

  ghost function Min(ws: multiset<nat>): (a: nat)
    requires |ws| > 0
    ensures IsMin(ws, a)
  {
    HasMin(ws);
    var a :| IsMin(ws, a);
    a
  }

  /** What is left when `a` and `b` are merged. */
  ghost function Reduced(ws: multiset<nat>, a: nat, b: nat): (r: multiset<nat>)
    requires a in ws && b in ws - multiset{a}
    ensures |r| == |ws| - 1
  {
    ws - multiset{a} - multiset{b} + multiset{a + b}
  }

  /** The total weight of all merges, always taking two least weights. */
  ghost function Huffman(ws: multiset<nat>): nat
    decreases |ws|
  {
    if |ws| <= 1 then 0
    else
      var a := Min(ws);
      var b := Min(ws - multiset{a});
      a + b + Huffman(Reduced(ws, a, b))
  }

  lemma MinUnique(ws: multiset<nat>, a: nat)
    requires IsMin(ws, a)
    ensures |ws| > 0 && a == Min(ws)
  {
    assert multiset{a} <= ws;
    assert |ws - multiset{a}| == |ws| - 1;
  }

  /** One step, for any two least weights. */
  lemma HuffmanStep(ws: multiset<nat>, a: nat, b: nat)
    requires IsMin(ws, a) && IsMin(ws - multiset{a}, b)
    ensures Huffman(ws) == a + b + Huffman(Reduced(ws, a, b))
  {
    MinUnique(ws, a);
    MinUnique(ws - multiset{a}, b);
    assert |ws - multiset{a}| == |ws| - 1;
  }

  // ---------------------------------------------------------------- any other code

  function Products(ws: seq<nat>, ls: seq<nat>): (r: seq<nat>)
    requires |ws| == |ls|
    ensures |r| == |ws| && forall i :: 0 <= i < |ws| ==> r[i] == ws[i] * ls[i]
  {
    seq(|ws|, i requires 0 <= i < |ws| => ws[i] * ls[i])
  }

  /** Total number of bits: weight times length, over all symbols. */
  function Cost(ws: seq<nat>, ls: seq<nat>): nat
    requires |ws| == |ls|
  {
    Sum(Products(ws, ls))
  }

  /** The share of the code space taken by a word of length `l`, in units of `2^-m`. */
  function Space(l: nat, m: nat): nat
  {
    if l <= m then Pow2(m - l) else 0
  }

  function Spaces(ls: seq<nat>, m: nat): (r: seq<nat>)
    ensures |r| == |ls| && forall i :: 0 <= i < |ls| ==> r[i] == Space(ls[i], m)
  {
    seq(|ls|, i requires 0 <= i < |ls| => Space(ls[i], m))
  }

  /** The Kraft sum in units of `2^-m`. */
  function KraftSum(ls: seq<nat>, m: nat): nat
  {
    Sum(Spaces(ls, m))
  }

  ghost predicate Codeable(ls: seq<nat>, m: nat)
  {
    (forall i :: 0 <= i < |ls| ==> ls[i] <= m) && KraftSum(ls, m) <= Pow2(m)
  }

  lemma {:induction false} SumDouble(a: seq<nat>, b: seq<nat>)
    requires |a| == |b| && forall i :: 0 <= i < |a| ==> a[i] == 2 * b[i]
    ensures Sum(a) == 2 * Sum(b)
    decreases |a|
  {
    if a != [] { SumDouble(a[..|a| - 1], b[..|b| - 1]); }
  }

  /** No code of the full length: the unit can be doubled. */
  lemma Coarser(ls: seq<nat>, m: nat)
    requires m >= 1 && Codeable(ls, m) && forall i :: 0 <= i < |ls| ==> ls[i] < m
    ensures Codeable(ls, m - 1)
  {
    SumDouble(Spaces(ls, m), Spaces(ls, m - 1));
  }

  /** A lone code of the full length can lose its last bit. */
  lemma Shorten(ls: seq<nat>, m: nat, p: nat)
    requires m >= 1 && Codeable(ls, m) && p < |ls| && ls[p] == m
    requires forall i :: 0 <= i < |ls| && i != p ==> ls[i] < m
    ensures Codeable(ls[p := m - 1], m - 1)
  {
    var ls' := ls[p := m - 1];
    var s, s' := Spaces(ls, m), Spaces(ls', m);
    assert s' == s[p := 2] by { assert Pow2(1) == 2 * Pow2(0); }
    SumUpdate(s, p, 2);
    SumDouble(s', Spaces(ls', m - 1));
  }

  lemma CostUpdate(ws: seq<nat>, ls: seq<nat>, i: nat, x: nat)
    requires |ws| == |ls| && i < |ls|
    ensures Cost(ws, ls[i := x]) + ws[i] * ls[i] == Cost(ws, ls) + ws[i] * x
  {
    var c := Products(ws, ls);
    var y := ws[i] * x;
    SumUpdate(c, i, y);
    assert Products(ws, ls[i := x]) == c[i := y];
  }

  lemma SpaceUpdate(ls: seq<nat>, m: nat, i: nat, x: nat)
    requires i < |ls|
    ensures KraftSum(ls[i := x], m) + Space(ls[i], m) == KraftSum(ls, m) + Space(x, m)
  {
    var s := Spaces(ls, m);
    SumUpdate(s, i, Space(x, m));
    assert Spaces(ls[i := x], m) == s[i := Space(x, m)];
  }

  /** Exchanging two lengths keeps the Kraft sum, and helps if the heavier symbol gets the shorter code. */
  lemma Exchange(ws: seq<nat>, ls: seq<nat>, m: nat, i: nat, p: nat)
    requires |ws| == |ls| && i < |ls| && p < |ls| && i != p
    requires Codeable(ls, m) && ls[p] == m && ws[i] <= ws[p]
    ensures Codeable(ls[i := m][p := ls[i]], m)
    ensures Cost(ws, ls[i := m][p := ls[i]]) <= Cost(ws, ls)
  {
    SpaceUpdate(ls, m, i, m);
    SpaceUpdate(ls[i := m], m, p, ls[i]);
    CostUpdate(ws, ls, i, m);
    CostUpdate(ws, ls[i := m], p, ls[i]);
    ExchangeGain(ws[i], ws[p], ls[i], m);
  }

  lemma ExchangeGain(a: nat, b: nat, x: nat, m: nat)
    requires a <= b && x <= m
    ensures a * m + b * x <= a * x + b * m
  {
    assert (b - a) * (m - x) >= 0;
    assert (b - a) * (m - x) == b * m - b * x - a * m + a * x;
  }

  lemma CostMerge(ws: seq<nat>, ls: seq<nat>, i: nat, j: nat, w: nat, l: nat)
    requires |ws| == |ls| && i < j < |ls|
    ensures |Merge(ws, i, j, w)| == |Merge(ls, i, j, l)|
    ensures Cost(Merge(ws, i, j, w), Merge(ls, i, j, l)) + ws[i] * ls[i] + ws[j] * ls[j] == Cost(ws, ls) + w * l
  {
    var c, x := Products(ws, ls), w * l;
    MergeSum(c, i, j, x);
    assert Products(Merge(ws, i, j, w), Merge(ls, i, j, l)) == Merge(c, i, j, x);
  }

  lemma MergeBound(ls: seq<nat>, m: nat, i: nat, j: nat, l: nat)
    requires i < j < |ls| && l <= m && forall i :: 0 <= i < |ls| ==> ls[i] <= m
    ensures forall k :: 0 <= k < |Merge(ls, i, j, l)| ==> Merge(ls, i, j, l)[k] <= m
  {
    var ls' := Merge(ls, i, j, l);
    forall k | 0 <= k < |ls'| ensures ls'[k] <= m {
      assert ls'[k] in ls || ls'[k] == l;
    }
  }

  lemma SpaceMerge(ls: seq<nat>, m: nat, i: nat, j: nat, l: nat)
    requires i < j < |ls|
    ensures KraftSum(Merge(ls, i, j, l), m) + Space(ls[i], m) + Space(ls[j], m) == KraftSum(ls, m) + Space(l, m)
  {
    var s := Spaces(ls, m);
    MergeSum(s, i, j, Space(l, m));
    assert Spaces(Merge(ls, i, j, l), m) == Merge(s, i, j, Space(l, m));
  }

  /** Two symbols of the full length merge into one of a bit less. */
  lemma MergeCodes(ws: seq<nat>, ls: seq<nat>, m: nat, i: nat, j: nat, w: nat, l: nat)
    requires |ws| == |ls| && i < j < |ls| && m == l + 1 && w == ws[i] + ws[j]
    requires Codeable(ls, m) && ls[i] == ls[j] == m
    ensures |Merge(ws, i, j, w)| == |Merge(ls, i, j, l)| == |ws| - 1
    ensures Codeable(Merge(ls, i, j, l), m)
    ensures Cost(ws, ls) == Cost(Merge(ws, i, j, w), Merge(ls, i, j, l)) + w
  {
    MergeBound(ls, m, i, j, l);
    SpaceMerge(ls, m, i, j, l);
    assert Pow2(1) == 2 * Pow2(0);
    CostMerge(ws, ls, i, j, w, l);
    OneBitMore(ws[i], ws[j], l);
  }

  lemma OneBitMore(a: nat, b: nat, l: nat)
    ensures a * (l + 1) + b * (l + 1) == (a + b) * l + (a + b)
  {
  }

  // ---------------------------------------------------------------- the lower bound

  /** Positions of two least weights. */
  ghost predicate TwoLeast(ws: seq<nat>, i: nat, j: nat)
  {
    && i < |ws| && j < |ws| && i != j
    && (forall k :: 0 <= k < |ws| ==> ws[i] <= ws[k])
    && (forall k :: 0 <= k < |ws| && k != i ==> ws[j] <= ws[k])
  }

  lemma {:induction false} LeastFrom(ws: seq<nat>, skip: int) returns (i: nat)
    requires |ws| >= 2 || (|ws| == 1 && skip != 0)
    ensures i < |ws| && i != skip && forall k :: 0 <= k < |ws| && k != skip ==> ws[i] <= ws[k]
    decreases |ws|
  {
    var n := |ws| - 1;
    if n == 0 || (n == 1 && skip == 0) { i := n; }
    else {
      i := LeastFrom(ws[..n], skip);
      if n != skip && ws[n] < ws[i] { i := n; }
    }
  }

  lemma FromRest(s: seq<nat>, i: nat, x: nat) returns (k: nat)
    requires i < |s| && x in Remove(s, i)
    ensures k < |s| && k != i && s[k] == x
  {
    var q :| 0 <= q < |s| - 1 && Remove(s, i)[q] == x;
    k := if q < i then q else q + 1;
  }

  lemma StillThere(s: seq<nat>, i: nat, j: nat)
    requires i < |s| && j < |s| && i != j
    ensures s[j] in Remove(s, i)
  {
    assert s[j] == Remove(s, i)[if j < i then j else j - 1];
  }

  lemma TwoLeastMultiset(ws: seq<nat>, i: nat, j: nat)
    requires TwoLeast(ws, i, j)
    ensures IsMin(multiset(ws), ws[i]) && IsMin(multiset(ws) - multiset{ws[i]}, ws[j])
  {
    hide Remove;
    RemoveMultiset(ws, i);
    var rest := Remove(ws, i);
    assert multiset(rest) == multiset(ws) - multiset{ws[i]};
    StillThere(ws, i, j);
    assert forall x :: x in multiset(ws) ==> x in ws;
    forall x | x in multiset(rest) ensures ws[j] <= x {
      assert x in rest;
      var k := FromRest(ws, i, x);
    }
  }

  lemma HuffmanAt(ws: seq<nat>, i: nat, j: nat, r: multiset<nat>)
    requires TwoLeast(ws, i, j) && r + multiset{ws[i], ws[j]} == multiset(ws) + multiset{ws[i] + ws[j]}
    ensures Huffman(multiset(ws)) == ws[i] + ws[j] + Huffman(r)
  {
    TwoLeastMultiset(ws, i, j);
    HuffmanTo(multiset(ws), ws[i], ws[j], r);
  }

  lemma HuffmanTo(ws: multiset<nat>, a: nat, b: nat, r: multiset<nat>)
    requires IsMin(ws, a) && IsMin(ws - multiset{a}, b)
    requires r + multiset{a, b} == ws + multiset{a + b}
    ensures Huffman(ws) == a + b + Huffman(r)
  {
    HuffmanStep(ws, a, b);
    ReducedIs(ws, a, b, r);
  }

  lemma ReducedIs(ws: multiset<nat>, a: nat, b: nat, r: multiset<nat>)
    requires a in ws && b in ws - multiset{a}
    requires r + multiset{a, b} == ws + multiset{a + b}
    ensures r == Reduced(ws, a, b)
  {
    hide Huffman;
    forall x ensures r[x] == Reduced(ws, a, b)[x] {
      assert (r + multiset{a, b})[x] == (ws + multiset{a + b})[x];
    }
  }

  /** Moves the full length to position `i`. */
  lemma GiveLongest(ws: seq<nat>, ls: seq<nat>, m: nat, i: nat, p: nat) returns (ls': seq<nat>)
    requires |ws| == |ls| && i < |ls| && p < |ls| && Codeable(ls, m) && ls[p] == m && ws[i] <= ws[p]
    ensures |ls'| == |ls| && Codeable(ls', m) && ls'[i] == m && Cost(ws, ls') <= Cost(ws, ls)
    ensures forall k :: 0 <= k < |ls| && k != i && k != p ==> ls'[k] == ls[k]
    ensures ls'[p] == ls[i] || i == p
  {
    if i == p { ls' := ls; }
    else {
      Exchange(ws, ls, m, i, p);
      ls' := ls[i := m][p := ls[i]];
    }
  }

  /** No lengths that satisfy the Kraft inequality cost less than Huffman's merges. */
  lemma {:induction false} LowerBound(ws: seq<nat>, ls: seq<nat>, m: nat)
    requires |ws| == |ls| >= 1 && Codeable(ls, m)
    ensures Cost(ws, ls) >= Huffman(multiset(ws))
    decreases |ws|, m, 1
  {
    if |ws| == 1 {
      HuffmanSmall(multiset(ws));
    } else {
      TwoCodesNeedABit(ls, m);
      if p :| 0 <= p < |ls| && ls[p] == m {
        if q :| 0 <= q < |ls| && q != p && ls[q] == m { LowerBoundMerge(ws, ls, m, p, q); }
        else { LowerBoundShorten(ws, ls, m, p); }
      } else {
        Coarser(ls, m);
        LowerBound(ws, ls, m - 1);
      }
    }
  }

  lemma {:induction false} LowerBoundShorten(ws: seq<nat>, ls: seq<nat>, m: nat, p: nat)
    requires |ws| == |ls| >= 2 && Codeable(ls, m) && m >= 1 && p < |ls| && ls[p] == m
    requires forall k :: 0 <= k < |ls| && k != p ==> ls[k] < m
    ensures Cost(ws, ls) >= Huffman(multiset(ws))
    decreases |ws|, m, 0
  {
    var l: nat := m - 1;
    Shorten(ls, m, p);
    ShortenCost(ws, ls, p, l);
    LowerBound(ws, ls[p := l], l);
  }

  lemma HuffmanSmall(ws: multiset<nat>)
    requires |ws| <= 1
    ensures Huffman(ws) == 0
  {
  }

  lemma ShortenCost(ws: seq<nat>, ls: seq<nat>, p: nat, x: nat)
    requires |ws| == |ls| && p < |ls| && x <= ls[p]
    ensures Cost(ws, ls[p := x]) <= Cost(ws, ls)
  {
    CostUpdate(ws, ls, p, x);
    MulMono(x, ls[p], ws[p]);
  }

  lemma TwoCodesNeedABit(ls: seq<nat>, m: nat)
    requires |ls| >= 2 && Codeable(ls, m)
    ensures m >= 1
  {
    var s := Spaces(ls, m);
    SumRemove(s, 0);
    SumRemove(Remove(s, 0), 0);
  }

  lemma {:induction false} LowerBoundMerge(ws: seq<nat>, ls: seq<nat>, m: nat, p: nat, q: nat)
    requires |ws| == |ls| >= 2 && Codeable(ls, m) && m >= 1
    requires p < |ls| && q < |ls| && p != q && ls[p] == ls[q] == m
    ensures Cost(ws, ls) >= Huffman(multiset(ws))
    decreases |ws|, m, 0
  {
    var i := LeastFrom(ws, -1);
    var j := LeastFrom(ws, i);
    var ls1 := GiveLongest(ws, ls, m, i, p);
    var q' := if q == i then p else q;
    var ls2 := GiveLongest(ws, ls1, m, j, q');
    if i < j { MergeStep(ws, ls2, m, i, j); }
    else { MergeStep(ws, ls2, m, j, i); }
  }

  /** Both merges, of positions and of least weights, agree. */
  lemma HuffmanMerge(ws: seq<nat>, i: nat, j: nat, w: nat)
    requires i < j && (TwoLeast(ws, i, j) || TwoLeast(ws, j, i)) && w == ws[i] + ws[j]
    ensures Huffman(multiset(ws)) == w + Huffman(multiset(Merge(ws, i, j, w)))
  {
    hide Huffman, Merge;
    MergeMultiset(ws, i, j, w);
    var r := multiset(Merge(ws, i, j, w));
    if TwoLeast(ws, i, j) { HuffmanAt(ws, i, j, r); }
    else { HuffmanAt(ws, j, i, r); }
  }

  lemma {:induction false} MergeStep(ws: seq<nat>, ls: seq<nat>, m: nat, i: nat, j: nat)
    requires |ws| == |ls| >= 2 && Codeable(ls, m) && m >= 1
    requires i < j && (TwoLeast(ws, i, j) || TwoLeast(ws, j, i)) && ls[i] == ls[j] == m
    ensures Cost(ws, ls) >= Huffman(multiset(ws))
    decreases |ws|, 0
  {
    var w: nat, l: nat := ws[i] + ws[j], m - 1;
    MergeCodes(ws, ls, m, i, j, w, l);
    HuffmanMerge(ws, i, j, w);
    LowerBound(Merge(ws, i, j, w), Merge(ls, i, j, l), m);
  }

  // ---------------------------------------------------------------- prefix codes

  type Word = seq<bool>

  ghost predicate Apart(c: Word, code: seq<Word>)
  {
    forall k :: 0 <= k < |code| ==> !(c <= code[k]) && !(code[k] <= c)
  }

  /** No word is a prefix of another one. */
  ghost predicate PrefixFree(code: seq<Word>)
  {
    code == [] || (PrefixFree(code[..|code| - 1]) && Apart(code[|code| - 1], code[..|code| - 1]))
  }

  function Lengths(code: seq<Word>): (ls: seq<nat>)
    ensures |ls| == |code| && forall i :: 0 <= i < |code| ==> ls[i] == |code[i]|
  {
    seq(|code|, i requires 0 <= i < |code| => |code[i]|)
  }

  /** The words that start with `b`, without that bit. */
  function Tails(code: seq<Word>, b: bool): seq<Word>
  {
    if code == [] then []
    else
      var c, rest := code[|code| - 1], Tails(code[..|code| - 1], b);
      if c != [] && c[0] == b then rest + [c[1..]] else rest
  }

  lemma PrefixTail(c: Word, d: Word)
    requires c != [] && d != [] && c[0] == d[0]
    ensures c[1..] <= d[1..] ==> c <= d
  {
    assert c == [c[0]] + c[1..] && d == [d[0]] + d[1..];
  }

  lemma {:induction false} TailsApart(c: Word, code: seq<Word>)
    requires c != [] && Apart(c, code)
    ensures Apart(c[1..], Tails(code, c[0]))
    decreases |code|
  {
    if code != [] {
      var d, rest := code[|code| - 1], code[..|code| - 1];
      assert forall k :: 0 <= k < |rest| ==> rest[k] == code[k];
      TailsApart(c, rest);
      if d != [] && d[0] == c[0] {
        PrefixTail(c, d);
        PrefixTail(d, c);
      }
    }
  }

  lemma {:induction false} TailsPrefixFree(code: seq<Word>, b: bool)
    requires PrefixFree(code)
    ensures PrefixFree(Tails(code, b))
    decreases |code|
  {
    if code != [] {
      var c, rest := code[|code| - 1], code[..|code| - 1];
      TailsPrefixFree(rest, b);
      if c != [] && c[0] == b {
        TailsApart(c, rest);
        assert Tails(code, b)[..|Tails(code, b)| - 1] == Tails(rest, b);
      }
    }
  }

  function WordSpace(code: seq<Word>, m: nat): nat
  {
    KraftSum(Lengths(code), m)
  }

  lemma WordSpaceLast(code: seq<Word>, m: nat)
    requires code != []
    ensures WordSpace(code, m) == WordSpace(code[..|code| - 1], m) + Space(|code[|code| - 1]|, m)
  {
    var s := Spaces(Lengths(code), m);
    assert s[..|s| - 1] == Spaces(Lengths(code[..|code| - 1]), m);
  }

  lemma WordSpaceAppend(code: seq<Word>, c: Word, m: nat)
    ensures WordSpace(code + [c], m) == WordSpace(code, m) + Space(|c|, m)
  {
    WordSpaceLast(code + [c], m);
    assert (code + [c])[..|code|] == code;
  }

  lemma {:induction false} TailsSpace(code: seq<Word>, m: nat)
    requires m >= 1 && forall k :: 0 <= k < |code| ==> code[k] != []
    ensures WordSpace(code, m) == WordSpace(Tails(code, false), m - 1) + WordSpace(Tails(code, true), m - 1)
    decreases |code|
  {
    if code != [] {
      var c, rest := code[|code| - 1], code[..|code| - 1];
      TailsSpace(rest, m);
      WordSpaceLast(code, m);
      WordSpaceAppend(Tails(rest, c[0]), c[1..], m - 1);
    }
  }

  lemma NotApart(c: Word, code: seq<Word>, k: nat)
    requires k < |code| && (c == [] || code[k] == [])
    ensures !Apart(c, code)
  {
    assert c <= code[k] || code[k] <= c;
  }

  lemma {:induction false} EmptyWordIsAlone(code: seq<Word>, k: nat)
    requires PrefixFree(code) && k < |code| && code[k] == []
    ensures |code| == 1
    decreases |code|
  {
    var n := |code| - 1;
    if n != 0 {
      if k == n { NotApart(code[n], code[..n], 0); }
      else { NotApart(code[n], code[..n], k); }
    }
  }

  /** The Kraft inequality: a prefix code takes at most the whole code space. */
  lemma {:induction false} PrefixCodeKraft(code: seq<Word>, m: nat)
    requires PrefixFree(code)
    ensures WordSpace(code, m) <= Pow2(m)
    decreases m
  {
    if k :| 0 <= k < |code| && code[k] == [] {
      EmptyWordIsAlone(code, k);
      WordSpaceLast(code, m);
      assert code[..0] == [];
      assert WordSpace(code[..0], m) == 0;
    } else if m == 0 {
      NoSpace(code);
    } else {
      TailsSpace(code, m);
      TailsPrefixFree(code, false);
      TailsPrefixFree(code, true);
      PrefixCodeKraft(Tails(code, false), m - 1);
      PrefixCodeKraft(Tails(code, true), m - 1);
    }
  }

  lemma {:induction false} NoSpace(code: seq<Word>)
    requires forall k :: 0 <= k < |code| ==> code[k] != []
    ensures WordSpace(code, 0) == 0
    decreases |code|
  {
    if code != [] {
      WordSpaceLast(code, 0);
      NoSpace(code[..|code| - 1]);
    }
  }

  /** Huffman's merges cost no more than any prefix code for the same weights. */
  lemma OptimalAmongPrefixCodes(ws: seq<nat>, code: seq<Word>)
    requires |ws| == |code| >= 1 && PrefixFree(code)
    ensures Huffman(multiset(ws)) <= Cost(ws, Lengths(code))
  {
    var ls := Lengths(code);
    var m := Longest(ls);
    PrefixCodeKraft(code, m);
    LowerBound(ws, ls, m);
  }

  function Longest(ls: seq<nat>): (m: nat)
    ensures forall i :: 0 <= i < |ls| ==> ls[i] <= m
  {
    if ls == [] then 0
    else
      var m, x := Longest(ls[..|ls| - 1]), ls[|ls| - 1];
      assert forall i :: 0 <= i < |ls| - 1 ==> ls[i] == ls[..|ls| - 1][i];
      if x > m then x else m
  }
}

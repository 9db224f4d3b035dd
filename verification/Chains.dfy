/**
  * The hash chains of dep/zlib/deflate.c: `head` and `prev` hold window positions, which move with every slide of the
  * window. Strings are named here by their position in the whole input, which does not change: a window position `p`
  * stands for the input position `off + p`.
  */
module Chains {
  import opened Arith
  import opened BitStream
  import opened Hashing

  /** The hash of the three bytes at input position `a`. */
  function HashAt(p: Params, inp: seq<Byte>, a: nat): nat
    requires a + 3 <= |inp|
  {
    Hash3(p, inp[a], inp[a + 1], inp[a + 2])
  }

  /** What the chains are about: the input, where the window starts, its size, and the strings inserted. */
  datatype Text = Text(p: Params, inp: seq<Byte>, off: nat, wsize: nat, ins: set<nat>)

  /** The strings from `a` to before `b` are inserted as well. */
  ghost function Added(ins: set<nat>, a: nat, b: nat): set<nat>
  {
    if b <= a then ins else Added(ins, a, b - 1) + {b - 1}
  }

  lemma AddedNone(ins: set<nat>, a: nat, b: nat)
    requires b <= a
    ensures Added(ins, a, b) == ins
  {
  }

  lemma AddedNext(ins: set<nat>, a: nat, b: nat, c: nat)
    requires a <= b && c == b + 1
    ensures Added(ins, a, b) + {b} == Added(ins, a, c)
  {
  }

  /** Inserted strings are complete and come before `next`. */
  ghost predicate Inserted(t: Text, next: nat)
  {
    forall a: nat {:trigger a in t.ins} :: a in t.ins ==> a < next && a + 3 <= |t.inp|
  }

  /** Window position `q` is empty, or an inserted string with hash `h`. */
  ghost predicate Names(t: Text, q: nat, h: nat)
  {
    q == 0 || (t.off + q in t.ins && t.off + q + 3 <= |t.inp| && HashAt(t.p, t.inp, t.off + q) == h)
  }

  /** No inserted string with hash `h` lies between window position `q` and the input position `end`; position 0 of the
      window does not count. */
  ghost predicate Newest(t: Text, q: nat, h: nat, end: nat)
  {
    forall a: nat {:trigger a in t.ins} ::
      (a in t.ins && t.off < a < end && a + 3 <= |t.inp| && HashAt(t.p, t.inp, a) == h) ==> a <= t.off + q
  }

  /** The strings with hash `h` that were inserted after input position `a`, up to `b`. */
  ghost function Between(t: Text, a: nat, b: nat, h: nat): set<nat>
  {
    set c | c in t.ins && a < c <= b && c + 3 <= |t.inp| && HashAt(t.p, t.inp, c) == h
  }

  lemma {:induction false} FewerIn(a: set<nat>, b: set<nat>)
    requires a <= b
    ensures |a| <= |b|
  {
    if a != {} {
      var x :| x in a;
      FewerIn(a - {x}, b - {x});
    }
  }

  /** One string less, and those behind it. */
  lemma BetweenNext(t: Text, a: nat, q: nat, b: nat, h: nat)
    requires a <= q < b && b in t.ins && b + 3 <= |t.inp| && HashAt(t.p, t.inp, b) == h
    ensures |Between(t, a, q, h)| + 1 <= |Between(t, a, b, h)|
  {
    hide HashAt;
    assert b in Between(t, a, b, h);
    FewerIn(Between(t, a, q, h), Between(t, a, b, h) - {b});
  }

  lemma BetweenMore(t: Text, a: nat, b: nat, b': nat, h: nat)
    requires b <= b'
    ensures |Between(t, a, b, h)| <= |Between(t, a, b', h)|
  {
    hide HashAt;
    FewerIn(Between(t, a, b, h), Between(t, a, b', h));
  }

  /** Every head is the newest string of its own hash. */
  ghost predicate Heads(t: Text, head: seq<nat>)
  {
    && |head| == Pow2(t.p.bits)
    && (forall h: nat {:trigger Names(t, head[h], h)} :: h < |head| ==> Names(t, head[h], h))
    && forall h: nat {:trigger Newest(t, head[h], h, |t.inp|)} :: h < |head| ==> Newest(t, head[h], h, |t.inp|)
  }

  /** The link of window position `x` goes to the next older string of the same hash. */
  ghost predicate Link(t: Text, prev: seq<nat>, x: nat)
    requires t.wsize == |prev| > 0 && t.off + x + 3 <= |t.inp|
  {
    var q := prev[x % t.wsize];
    && (q == 0 || (q < x && Names(t, q, HashAt(t.p, t.inp, t.off + x))))
    && Newest(t, q, HashAt(t.p, t.inp, t.off + x), t.off + x)
  }

  /** Strings less than a window before `top` have correct links. */
  ghost predicate Links(t: Text, prev: seq<nat>, top: nat)
  {
    && t.wsize == |prev| > 0
    && forall a: nat {:trigger a in t.ins} :: a in t.ins && t.off <= a && a + t.wsize > t.off + top ==>
        a + 3 <= |t.inp| && Link(t, prev, a - t.off)
  }

  ghost predicate Chained(t: Text, head: seq<nat>, prev: seq<nat>, top: nat)
  {
    Inserted(t, t.off + top) && Heads(t, head) && Links(t, prev, top)
  }

  // ---------------------------------------------------------------- more input

  lemma MoreNames(t: Text, u: Text, q: nat, h: nat)
    requires Names(t, q, h) && t.inp <= u.inp && u == t.(inp := u.inp)
    ensures Names(u, q, h)
  {
  }

  /** The strings that are inserted are complete already. */
  lemma MoreNewest(t: Text, u: Text, q: nat, h: nat, top: nat)
    requires Newest(t, q, h, |t.inp|) && t.inp <= u.inp && u == t.(inp := u.inp) && Inserted(t, t.off + top)
    ensures Newest(u, q, h, |u.inp|)
  {
    forall a: nat | a in u.ins && u.off < a < |u.inp| && a + 3 <= |u.inp| && HashAt(u.p, u.inp, a) == h
      ensures a <= u.off + q
    {
      assert a in t.ins;
    }
  }

  lemma MoreText(t: Text, u: Text, head: seq<nat>, prev: seq<nat>, top: nat)
    requires Chained(t, head, prev, top) && t.inp <= u.inp && u == t.(inp := u.inp)
    ensures Chained(u, head, prev, top)
  {
    hide Pow2, Link, Names, Newest;
    forall h: nat | h < |head| ensures Names(u, head[h], h) && Newest(u, head[h], h, |u.inp|) {
      assert Names(t, head[h], h) && Newest(t, head[h], h, |t.inp|);
      MoreNames(t, u, head[h], h);
      MoreNewest(t, u, head[h], h, top);
    }
    forall a: nat | a in u.ins && u.off <= a && a + u.wsize > u.off + top ensures a + 3 <= |u.inp|
        && Link(u, prev, a - u.off) {
      assert a in t.ins;
      MoreLink(t, u, prev, a - t.off, top);
    }
  }

  lemma MoreLink(t: Text, u: Text, prev: seq<nat>, x: nat, top: nat)
    requires t.inp <= u.inp && u == t.(inp := u.inp) && t.wsize == |prev| > 0 && t.off + x + 3 <= |t.inp|
    requires Link(t, prev, x) && Inserted(t, t.off + top)
    ensures Link(u, prev, x)
  {
    hide HashAt;
    var q, h := prev[x % t.wsize], HashAt(t.p, t.inp, t.off + x);
    assert h == HashAt(u.p, u.inp, u.off + x) by { SameHash(t, u, t.off + x); }
    if q != 0 { SameHash(t, u, t.off + q); }
    forall a: nat | a in u.ins && u.off < a < u.off + x && a + 3 <= |u.inp| && HashAt(u.p, u.inp, a) == h
      ensures a <= u.off + q
    {
      assert a in t.ins;
      SameHash(t, u, a);
    }
  }

  lemma SameHash(t: Text, u: Text, a: nat)
    requires a + 3 <= |t.inp| && t.inp <= u.inp && u == t.(inp := u.inp)
    ensures HashAt(t.p, t.inp, a) == HashAt(u.p, u.inp, a)
  {
  }

  // ---------------------------------------------------------------- moving on

  lemma LaterTop(t: Text, head: seq<nat>, prev: seq<nat>, top: nat, top': nat)
    requires Chained(t, head, prev, top) && top <= top'
    ensures Chained(t, head, prev, top')
  {
    hide Heads, Link, HashAt;
    forall a: nat | a in t.ins && t.off <= a && a + t.wsize > t.off + top' ensures a + 3 <= |t.inp|
        && Link(t, prev, a - t.off) {
      assert a in t.ins;
    }
  }

  // ---------------------------------------------------------------- inserting a string

  lemma SameSlot(x: nat, s: nat, n: nat)
    requires n > 0 && x < s < x + n
    ensures x % n != s % n
  {
    if x % n == s % n {
      var q, r := x / n, s / n;
      assert s - x == (r - q) * n;
      if r <= q { MulMono(r - q, 0, n); } else { MulMono(1, r - q, n); }
    }
  }

  /** Inserts the string at window position `s`, whose hash is `h`. */
  lemma InsertKeeps(t: Text, u: Text, head: seq<nat>, head': seq<nat>, prev: seq<nat>, prev': seq<nat>, s: nat, s': nat,
                    h: nat)
    requires Chained(t, head, prev, s) && t.off + s + 3 <= |t.inp| && h == HashAt(t.p, t.inp, t.off + s) < |head|
    requires u == t.(ins := t.ins + {t.off + s}) && head' == head[h := s] && prev' == prev[s % t.wsize := head[h]]
    requires s' == s + 1
    ensures Chained(u, head', prev', s')
  {
    InsertHeads(t, u, head, head', s, h);
    InsertLinks(t, u, head, prev, prev', s, s', h);
    OneMore(t, u, s, s');
  }

  lemma OneMore(t: Text, u: Text, s: nat, s': nat)
    requires Inserted(t, t.off + s) && t.off + s + 3 <= |t.inp| && u == t.(ins := t.ins + {t.off + s}) && s' == s + 1
    ensures Inserted(u, u.off + s')
  {
    forall a: nat | a in u.ins ensures a < u.off + s' && a + 3 <= |u.inp| { assert a in t.ins || a == t.off + s; }
  }

  lemma InsertLinks(t: Text, u: Text, head: seq<nat>, prev: seq<nat>, prev': seq<nat>, s: nat, s': nat, h: nat)
    requires Chained(t, head, prev, s) && t.off + s + 3 <= |t.inp| && h == HashAt(t.p, t.inp, t.off + s) < |head|
    requires u == t.(ins := t.ins + {t.off + s}) && prev' == prev[s % t.wsize := head[h]] && s' == s + 1
    ensures Links(u, prev', s')
  {
    hide HashAt, Link, Heads, Inserted;
    forall a: nat | a in u.ins && u.off <= a && a + u.wsize > u.off + s' ensures a + 3 <= |u.inp|
        && Link(u, prev', a - u.off) {
      InsertLink(t, u, head, prev, prev', s, h, a - u.off);
    }
  }

  lemma InsertHeads(t: Text, u: Text, head: seq<nat>, head': seq<nat>, s: nat, h: nat)
    requires Heads(t, head) && t.off + s + 3 <= |t.inp| && h == HashAt(t.p, t.inp, t.off + s) < |head|
    requires u == t.(ins := t.ins + {t.off + s}) && head' == head[h := s] && Inserted(t, t.off + s)
    ensures Heads(u, head')
  {
    hide HashAt, Pow2;
    forall g: nat | g < |head'| ensures Names(u, head'[g], g) && Newest(u, head'[g], g, |u.inp|) {
      assert Names(t, head[g], g) && Newest(t, head[g], g, |t.inp|);
      forall a: nat | a in u.ins && u.off < a < |u.inp| && a + 3 <= |u.inp| && HashAt(u.p, u.inp, a) == g
        ensures a <= u.off + head'[g]
      {
        assert a == t.off + s || a in t.ins;
      }
    }
  }

  lemma InsertNewest(t: Text, u: Text, q: nat, h: nat, end: nat, end': nat, s: nat)
    requires Newest(t, q, h, end) && u == t.(ins := t.ins + {t.off + s}) && end' <= end && end' <= t.off + s
    ensures Newest(u, q, h, end')
  {
    forall a: nat | a in u.ins && u.off < a < end' && a + 3 <= |u.inp| && HashAt(u.p, u.inp, a) == h
      ensures a <= u.off + q
    {
      assert a in t.ins;
    }
  }

  lemma InsertLink(t: Text, u: Text, head: seq<nat>, prev: seq<nat>, prev': seq<nat>, s: nat, h: nat, x: nat)
    requires Chained(t, head, prev, s) && t.off + s + 3 <= |t.inp| && h == HashAt(t.p, t.inp, t.off + s) < |head|
    requires u == t.(ins := t.ins + {t.off + s}) && prev' == prev[s % t.wsize := head[h]]
    requires t.off + x in u.ins && x + t.wsize > s
    ensures t.off + x + 3 <= |t.inp| && Link(u, prev', x)
  {
    hide HashAt, Pow2, Newest;
    if x == s {
      assert Names(t, head[h], h) && Newest(t, head[h], h, |t.inp|);
      if head[h] != 0 { assert t.off + head[h] in t.ins; }
      InsertNewest(t, u, head[h], h, |t.inp|, t.off + s, s);
    } else {
      assert t.off + x in t.ins;
      assert Link(t, prev, x);
      SameSlot(x, s, t.wsize);
      var g := HashAt(t.p, t.inp, t.off + x);
      InsertNewest(t, u, prev[x % t.wsize], g, t.off + x, t.off + x, s);
    }
  }

  // ---------------------------------------------------------------- sliding the window

  function Slid(q: nat, wsize: nat): nat
  {
    if q >= wsize then q - wsize else 0
  }

  /** All entries of a table, moved down by a window. */
  function SlidAll(s: seq<nat>, wsize: nat): (r: seq<nat>)
    ensures |r| == |s| && forall i :: 0 <= i < |s| ==> r[i] == Slid(s[i], wsize)
  {
    seq(|s|, i requires 0 <= i < |s| => Slid(s[i], wsize))
  }

  lemma SlideNames(t: Text, u: Text, q: nat, h: nat)
    requires Names(t, q, h) && u == t.(off := t.off + t.wsize)
    ensures Names(u, Slid(q, t.wsize), h)
  {
    if q > t.wsize { assert u.off + Slid(q, t.wsize) == t.off + q; }
  }

  lemma SlideNewest(t: Text, u: Text, q: nat, h: nat, end: nat)
    requires Newest(t, q, h, end) && u == t.(off := t.off + t.wsize)
    ensures Newest(u, Slid(q, t.wsize), h, end)
  {
    forall a: nat | a in u.ins && u.off < a < end && a + 3 <= |u.inp| && HashAt(u.p, u.inp, a) == h
      ensures a <= u.off + Slid(q, t.wsize)
    {
      assert a in t.ins;
    }
  }

  lemma SlideLink(t: Text, u: Text, prev: seq<nat>, prev': seq<nat>, x: nat, y: nat)
    requires t.wsize == |prev| > 0 && t.off + y + 3 <= |t.inp| && Link(t, prev, y) && y == x + t.wsize
    requires u == t.(off := t.off + t.wsize)
    requires |prev'| == |prev| && forall i :: 0 <= i < |prev| ==> prev'[i] == Slid(prev[i], t.wsize)
    ensures Link(u, prev', x)
  {
    ModAdd(x, t.wsize, 1);
    assert y % t.wsize == x % t.wsize;
    var q := prev[y % t.wsize];
    assert u.off + x == t.off + y;
    SlideNames(t, u, q, HashAt(t.p, t.inp, t.off + y));
    SlideNewest(t, u, q, HashAt(t.p, t.inp, t.off + y), t.off + y);
  }

  /** All positions move down by a window; what falls out becomes empty. */
  lemma SlideKeeps(t: Text, u: Text, head: seq<nat>, head': seq<nat>, prev: seq<nat>, prev': seq<nat>, top: nat,
                   top': nat)
    requires Chained(t, head, prev, top) && u == t.(off := t.off + t.wsize) && top == top' + t.wsize
    requires head' == SlidAll(head, t.wsize) && prev' == SlidAll(prev, t.wsize)
    ensures Chained(u, head', prev', top')
  {
    hide Pow2, HashAt, Newest, Names, Link, Slid;
    forall h: nat | h < |head'| ensures Names(u, head'[h], h) && Newest(u, head'[h], h, |u.inp|) {
      assert Names(t, head[h], h) && Newest(t, head[h], h, |t.inp|);
      SlideNames(t, u, head[h], h);
      SlideNewest(t, u, head[h], h, |t.inp|);
    }
    forall a: nat | a in u.ins && u.off <= a && a + u.wsize > u.off + top' ensures a + 3 <= |u.inp|
        && Link(u, prev', a - u.off) {
      assert a in t.ins;
      assert Link(t, prev, a - t.off);
      SlideLink(t, u, prev, prev', a - u.off, a - t.off);
    }
  }
}

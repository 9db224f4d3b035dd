/**
  * The search for the longest match (`longest_match` of dep/zlib/deflate.c).
  */
module LongestMatch {
  import opened Arith
  import opened BitStream
  import opened Tokens
  import opened Hashing
  import opened Chains

  const MIN_LOOKAHEAD: nat := 262

  function MaxDist(wsize: nat): nat
    requires wsize >= 512
  {
    wsize - MIN_LOOKAHEAD
  }

  /** The first `end` bytes of the window are the last `end` bytes of the input. */
  ghost predicate Shows(win: seq<Byte>, t: Text, end: nat)
  {
    && t.off + end == |t.inp| && end <= |win|
    && forall i :: 0 <= i < end ==> win[i] == t.inp[t.off + i]
  }

  /** The bytes at `a` and at `b` agree for `n` bytes. */
  ghost predicate Same(win: seq<Byte>, a: nat, b: nat, n: nat)
  {
    a + n <= |win| && b + n <= |win| && win[a..a + n] == win[b..b + n]
  }

  lemma SameNext(win: seq<Byte>, a: nat, b: nat, n: nat, n': nat)
    requires Same(win, a, b, n) && a <= b && b + n < |win| && win[a + n] == win[b + n] && n' == n + 1
    ensures Same(win, a, b, n')
  {
    assert win[a..a + n'] == win[a..a + n] + [win[a + n]];
    assert win[b..b + n'] == win[b..b + n] + [win[b + n]];
  }

  lemma SameLess(win: seq<Byte>, a: nat, b: nat, n: nat, m: nat)
    requires Same(win, a, b, n) && m <= n
    ensures Same(win, a, b, m)
  {
    assert win[a..a + m] == win[a..a + n][..m];
    assert win[b..b + m] == win[b..b + n][..m];
  }

  /** Where the bytes differ, the agreement ends. */
  lemma SameStops(win: seq<Byte>, a: nat, b: nat, m: nat, n: nat)
    requires a + m < |win| && b + m < |win| && win[a + m] != win[b + m] && Same(win, a, b, n)
    ensures n <= m
  {
    if n > m { SameAt(win, a, b, n, m); }
  }

  lemma SameAt(win: seq<Byte>, a: nat, b: nat, n: nat, m: nat)
    requires Same(win, a, b, n) && m < n
    ensures win[a + m] == win[b + m]
  {
    assert win[a..a + n][m] == win[a + m] && win[b..b + n][m] == win[b + m];
  }

  /** No more than `len` bytes agree, as far as a match may go. */
  ghost predicate NoneLonger(win: seq<Byte>, a: nat, b: nat, len: nat)
  {
    forall n: nat {:trigger Same(win, a, b, n)} :: n <= MAX_MATCH && Same(win, a, b, n) ==> n <= len
  }

  /** Eight comparisons, as long as they succeed. Position `k` agrees. */
  method CompareEight(window: array<Byte>, match0: nat, scan0: nat, k0: nat) returns (k: nat, go: bool)
    requires match0 <= scan0 && scan0 + k0 + 8 < window.Length && Same(window[..], match0, scan0, k0 + 1)
    ensures k0 < k <= k0 + 8 && Same(window[..], match0, scan0, k)
    ensures if go then k == k0 + 8 && Same(window[..], match0, scan0, k + 1)
            else window[match0 + k] != window[scan0 + k]
  {
    k, go := k0, true;
    SameLess(window[..], match0, scan0, k0 + 1, k0);
    var j := 0;
    while j < 8 && go
      invariant 0 <= j <= 8 && k == k0 + j && (j == 0 ==> go)
      invariant Same(window[..], match0, scan0, k)
      invariant if go then Same(window[..], match0, scan0, k + 1) else window[match0 + k] != window[scan0 + k]
    {
      k := k + 1;
      if window[scan0 + k] == window[match0 + k] { SameNext(window[..], match0, scan0, k, k + 1); }
      else { go := false; }
      j := j + 1;
    }
  }

  /** How many bytes agree, knowing that three do. The end is only tested after every eighth byte. */
  method Compare(window: array<Byte>, match0: nat, scan0: nat) returns (len: nat)
    requires match0 <= scan0 && scan0 + MAX_MATCH < window.Length && Same(window[..], match0, scan0, 3)
    ensures 3 <= len <= MAX_MATCH && Same(window[..], match0, scan0, len) && NoneLonger(window[..], match0, scan0, len)
  {
    len := 2;
    var go := true;
    ghost var n := 0;
    while go
      invariant len <= MAX_MATCH && (go ==> len == 2 + 8 * n && len < MAX_MATCH)
      invariant !go ==> len >= 3
      invariant Same(window[..], match0, scan0, if go then len + 1 else len)
      invariant !go && len < MAX_MATCH ==> window[match0 + len] != window[scan0 + len]
      decreases MAX_MATCH - len, if go then 1 else 0
    {
      len, go := CompareEight(window, match0, scan0, len);
      n := n + 1;
      if len >= MAX_MATCH { go := false; }
    }
    if len < MAX_MATCH { EndsAt(window[..], match0, scan0, len); }
  }

  lemma EndsAt(win: seq<Byte>, a: nat, b: nat, m: nat)
    requires a + m < |win| && b + m < |win| && win[a + m] != win[b + m]
    ensures NoneLonger(win, a, b, m)
  {
    forall n: nat | n <= MAX_MATCH && Same(win, a, b, n) ensures n <= m { SameStops(win, a, b, m, n); }
  }

  /** The string at `a` in the window, which agrees with the one at `s` in two bytes and in the hash, agrees in
      three. */
  lemma ThreeAgree(win: seq<Byte>, t: Text, end: nat, a: nat, s: nat)
    requires Suitable(t.p) && Shows(win, t, end) && a <= s && s + 3 <= end && win[a] == win[s]
    requires win[a + 1] == win[s + 1]
    requires HashAt(t.p, t.inp, t.off + a) == HashAt(t.p, t.inp, t.off + s)
    ensures Same(win, a, s, 3)
  {
    ThirdByte(t.p, win[a], win[a + 1], win[a + 2], win[s + 2]);
    assert win[a..a + 3] == [win[a], win[a + 1], win[a + 2]];
    assert win[s..s + 3] == [win[s], win[s + 1], win[s + 2]];
  }

  /** A string on the chain of the current one, not too far away. */
  ghost predicate OnChain(t: Text, cur: nat, s: nat)
  {
    && 512 <= t.wsize && 0 < cur < s && s - cur <= MaxDist(t.wsize)
    && t.off + cur in t.ins && t.off + s + 3 <= |t.inp| && t.off + cur + 3 <= |t.inp|
    && HashAt(t.p, t.inp, t.off + cur) == HashAt(t.p, t.inp, t.off + s)
  }

  /** The next string on the chain. */
  lemma NextOnChain(t: Text, prev: seq<nat>, top: nat, cur: nat, s: nat, limit: nat)
    requires OnChain(t, cur, s) && Links(t, prev, top) && top <= s + 1 && limit >= s - MaxDist(t.wsize)
    ensures var q := prev[cur % t.wsize]; q < cur && (q > limit ==> OnChain(t, q, s))
  {
    assert t.off + cur in t.ins;
    assert Link(t, prev, cur);
  }

  /** The best match so far, if it is better than the previous one. */
  ghost predicate Best(win: seq<Byte>, s: nat, maxDist: nat, prevLength: nat, len: nat, matchStart: nat)
  {
    prevLength <= len <= MAX_MATCH && (len > prevLength ==>
                                       matchStart < s && s - matchStart <= maxDist && Same(win, matchStart, s, len))
  }

  // ---------------------------------------------------------------- the strings on the chain

  /** The string `k` links behind `cur`; 0 when the chain ends before, at `limit` or below. */
  function Hop(prev: seq<nat>, limit: nat, cur: nat, k: nat): nat
    requires |prev| > 0
    decreases k
  {
    if k == 0 then cur
    else
      var q := prev[cur % |prev|];
      if q <= limit then 0 else Hop(prev, limit, q, k - 1)
  }

  lemma HopNone(prev: seq<nat>, limit: nat, cur: nat)
    requires |prev| > 0
    ensures Hop(prev, limit, cur, 0) == cur
  {
  }

  lemma HopFirst(prev: seq<nat>, limit: nat, cur: nat, k: nat, q: nat)
    requires |prev| > 0 && q == prev[cur % |prev|] > limit
    ensures Hop(prev, limit, cur, k + 1) == Hop(prev, limit, q, k)
  {
  }

  /** The links of the string `i` links behind. */
  lemma {:induction false} HopNext(prev: seq<nat>, limit: nat, cur: nat, i: nat, c: nat, j: nat)
    requires |prev| > 0 && Hop(prev, limit, cur, i) == c && (i > 0 ==> c > 0) && j > i
    ensures var q := prev[c % |prev|];
      Hop(prev, limit, cur, j) == if q <= limit then 0 else Hop(prev, limit, q, j - i - 1)
    decreases i
  {
    if i > 0 {
      var q := prev[cur % |prev|];
      HopNext(prev, limit, q, i - 1, c, j - 1);
    }
  }

  /** How many strings may be looked at; after a good match only a quarter. Counting down from zero wraps around. */
  function Allowed(maxChain: nat, prevLength: nat, goodMatch: nat): (a: nat)
    ensures a >= 1
  {
    var c := if prevLength >= goodMatch then maxChain / 4 else maxChain;
    if c == 0 then 0x1_0000_0000 else c
  }

  /** None of the first `i` strings agrees in more than `len` bytes. */
  ghost predicate Tried(win: seq<Byte>, prev: seq<nat>, limit: nat, cur: nat, s: nat, i: nat, len: nat)
    requires |prev| > 0
  {
    forall k: nat {:trigger Hop(prev, limit, cur, k)} :: k < i && Hop(prev, limit, cur, k) > 0 ==>
      NoneLonger(win, Hop(prev, limit, cur, k), s, len)
  }

  lemma TriedNext(win: seq<Byte>, prev: seq<nat>, limit: nat, cur: nat, s: nat, i: nat, len: nat, len': nat, i': nat)
    requires |prev| > 0 && Tried(win, prev, limit, cur, s, i, len) && len <= len' && i' == i + 1
    requires NoneLonger(win, Hop(prev, limit, cur, i), s, len')
    ensures Tried(win, prev, limit, cur, s, i', len')
  {
    forall k: nat | k < i' && Hop(prev, limit, cur, k) > 0 ensures NoneLonger(win, Hop(prev, limit, cur, k), s, len') {
      if k < i { assert NoneLonger(win, Hop(prev, limit, cur, k), s, len); }
    }
  }

  /** Where the chain ends, all of it has been tried. */
  lemma TriedAll(win: seq<Byte>, prev: seq<nat>, limit: nat, cur: nat, s: nat, i: nat, c: nat, len: nat, m: nat)
    requires |prev| > 0 && Tried(win, prev, limit, cur, s, i + 1, len) && Hop(prev, limit, cur, i) == c > 0
    requires prev[c % |prev|] <= limit
    ensures Tried(win, prev, limit, cur, s, m, len)
  {
    forall k: nat | k < m && Hop(prev, limit, cur, k) > 0 ensures NoneLonger(win, Hop(prev, limit, cur, k), s, len) {
      if k > i { HopNext(prev, limit, cur, i, c, k); }
    }
  }

  /**
    * The result of a search: no string that may be looked at agrees in more bytes, unless the match is long enough to
    * stop early. Bytes beyond the lookahead do not count.
    */
  ghost predicate Longest(win: seq<Byte>, prev: seq<nat>, limit: nat, cur: nat, s: nat, lookahead: nat, allowed: nat,
                          nice: nat, len: nat)
    requires |prev| > 0
  {
    len >= nice ||
    forall k: nat, n: nat {:trigger Same(win, Hop(prev, limit, cur, k), s, n)} ::
      (k < allowed && Hop(prev, limit, cur, k) > 0 && n <= lookahead && n <= MAX_MATCH
       && Same(win, Hop(prev, limit, cur, k), s, n)) ==> n <= len
  }

  lemma LongestFound(win: seq<Byte>, prev: seq<nat>, limit: nat, cur: nat, s: nat, lookahead: nat, allowed: nat,
                     nice: nat, best: nat, len: nat)
    requires |prev| > 0 && len == (if best <= lookahead then best else lookahead)
    requires best >= nice || best >= lookahead || Tried(win, prev, limit, cur, s, allowed, best)
    ensures Longest(win, prev, limit, cur, s, lookahead, allowed, nice, len)
  {
    if len < nice {
      forall k: nat, n: nat | k < allowed && Hop(prev, limit, cur, k) > 0 && n <= lookahead && n <= MAX_MATCH
          && Same(win, Hop(prev, limit, cur, k), s, n)
        ensures n <= len
      {
        if best < lookahead { assert NoneLonger(win, Hop(prev, limit, cur, k), s, best); }
      }
    }
  }

  // ---------------------------------------------------------------- the search

  /** Tests one string: a quick look at the bytes that would make the match longer, then a full comparison. */
  method TryMatch(window: array<Byte>, cur: nat, s: nat, best: nat, matchStart0: nat, ghost t: Text, ghost end: nat,
                  ghost prevLength: nat)
    returns (len: nat, matchStart: nat)
    requires Suitable(t.p) && s + MAX_MATCH < window.Length && Shows(window[..], t, end) && s + 3 <= end
    requires OnChain(t, cur, s)
    requires 1 <= best && Best(window[..], s, MaxDist(t.wsize), prevLength, best, matchStart0)
    ensures best <= len && Best(window[..], s, MaxDist(t.wsize), prevLength, len, matchStart)
    ensures NoneLonger(window[..], cur, s, len)
    ensures matchStart == matchStart0 || matchStart < s
  {
    len, matchStart := best, matchStart0;
    QuickLook(window[..], cur, s, best);
    if window[cur + best] == window[s + best] && window[cur + best - 1] == window[s + best - 1]
       && window[cur] == window[s] && window[cur + 1] == window[s + 1]
    {
      ThreeAgree(window[..], t, end, cur, s);
      var n := Compare(window, cur, s);
      if n > best { len, matchStart := n, cur; }
    }
  }

  /** If the quick look fails, the string cannot make the match longer. */
  lemma QuickLook(win: seq<Byte>, a: nat, b: nat, best: nat)
    requires a < b && 1 <= best && b + best < |win|
    ensures (win[a + best] != win[b + best] || win[a + best - 1] != win[b + best - 1] || win[a] != win[b]
             || win[a + 1] != win[b + 1]) ==> NoneLonger(win, a, b, best)
  {
    forall n: nat | n <= MAX_MATCH && Same(win, a, b, n)
      ensures (win[a + best] != win[b + best] || win[a + best - 1] != win[b + best - 1] || win[a] != win[b]
               || win[a + 1] != win[b + 1]) ==> n <= best
    {
      if win[a + best] != win[b + best] { SameStops(win, a, b, best, n); }
      if win[a + best - 1] != win[b + best - 1] { SameStops(win, a, b, best - 1, n); }
      if win[a] != win[b] { SameStops(win, a, b, 0, n); }
      if win[a + 1] != win[b + 1] { SameStops(win, a, b, 1, n); }
    }
  }

  /** Strings this far back, or further, are not looked at. */
  function Limit(s: nat, wsize: nat): nat
    requires wsize >= 512
  {
    if s > MaxDist(wsize) then s - MaxDist(wsize) else 0
  }

  /**
    * Searches the chain from `cur0` for the longest match. A match that is not longer than `prevLength` does not
    * count; `matchStart` means nothing then. Bytes beyond the lookahead may be read but do not count.
    */
  method Search(window: array<Byte>, prev: array<nat>, wsize: nat, cur0: nat, s: nat, lookahead: nat, prevLength: nat,
                matchStart0: nat, maxChain: nat, goodMatch: nat, niceMatch0: nat, ghost t: Text, ghost top: nat)
    returns (len: nat, matchStart: nat)
    requires 512 <= wsize == t.wsize && Suitable(t.p) && s + MIN_LOOKAHEAD <= window.Length
    requires Shows(window[..], t, s + lookahead) && lookahead >= MIN_MATCH && 1 <= prevLength <= MAX_MATCH
    requires Links(t, prev[..], top) && top <= s + 1 && OnChain(t, cur0, s)
    ensures len <= lookahead && len <= MAX_MATCH && len >= (if prevLength <= lookahead then prevLength else lookahead)
    ensures matchStart == matchStart0 || matchStart < s
    ensures len > prevLength ==>
            matchStart < s && s - matchStart <= MaxDist(wsize)
            && Same(window[..], matchStart, s, len)
    ensures prev.Length > 0 && Longest(window[..], prev[..], Limit(s, wsize), cur0, s, lookahead,
                                       Allowed(maxChain, prevLength, goodMatch), niceMatch0, len)
  {
    hide Suitable, Shows, Same, NoneLonger, OnChain, Link, Hop, Tried, Longest;
    var best: nat, cur: nat, chain: nat := prevLength, cur0, maxChain;
    matchStart := matchStart0;
    var limit := if s > MaxDist(wsize) then s - MaxDist(wsize) else 0;
    if prevLength >= goodMatch { chain := chain / 4; }
    var niceMatch := if niceMatch0 > lookahead then lookahead else niceMatch0;
    ghost var w, pv, allowed, i: nat := window[..], prev[..], Allowed(maxChain, prevLength, goodMatch), 0;
    HopNone(pv, limit, cur0);
    TriedNone(w, pv, limit, cur0, s, best);
    while true
      invariant matchStart == matchStart0 || matchStart < s
      invariant OnChain(t, cur, s) && 1 <= best && Best(w, s, MaxDist(wsize), prevLength, best, matchStart)
      invariant Hop(pv, limit, cur0, i) == cur && Tried(w, pv, limit, cur0, s, i, best)
      invariant i < allowed && (i > 0 ==> chain == allowed - i) && (i == 0 && chain > 0 ==> chain == allowed)
      invariant i == 0 && chain == 0 ==> allowed == 0x1_0000_0000
      decreases cur
    {
      var n;
      n, matchStart := TryMatch(window, cur, s, best, matchStart, t, s + lookahead, prevLength);
      TriedNext(w, pv, limit, cur0, s, i, best, n, i + 1);
      if n > best {
        best := n;
        if n >= niceMatch { break; }
      }
      NextOnChain(t, pv, top, cur, s, limit);
      var next: nat := prev[cur % wsize];
      HopOne(pv, limit, cur0, i, cur);
      if next <= limit {
        TriedAll(w, pv, limit, cur0, s, i, cur, best, allowed);
        break;
      }
      cur := next;
      chain := if chain == 0 then 0xffff_ffff else chain - 1;
      i := i + 1;
      if chain == 0 { break; }
    }
    len := if best <= lookahead then best else lookahead;
    LongestFound(w, pv, limit, cur0, s, lookahead, allowed, niceMatch0, best, len);
    if len > prevLength { SameLess(w, matchStart, s, best, len); }
  }

  lemma TriedNone(win: seq<Byte>, prev: seq<nat>, limit: nat, cur: nat, s: nat, best: nat)
    requires |prev| > 0
    ensures Tried(win, prev, limit, cur, s, 0, best)
  {
  }

  lemma HopOne(prev: seq<nat>, limit: nat, cur0: nat, i: nat, cur: nat)
    requires |prev| > 0 && Hop(prev, limit, cur0, i) == cur > 0
    ensures var q := prev[cur % |prev|]; q > limit ==> Hop(prev, limit, cur0, i + 1) == q
  {
    HopNext(prev, limit, cur0, i, cur, i + 1);
  }

  // ---------------------------------------------------------------- every string in the window

  /** Every inserted string of the same hash is on the chain, behind the newer ones. */
  lemma {:induction false} Reachable(t: Text, prev: seq<nat>, top: nat, limit: nat, cur: nat, s: nat, y: nat, h: nat)
    returns (k: nat)
    requires OnChain(t, cur, s) && Links(t, prev, top) && top <= s + 1 && limit >= s - MaxDist(t.wsize)
    requires |prev| == t.wsize && limit < y <= cur && t.off + y in t.ins && t.off + y + 3 <= |t.inp|
    requires HashAt(t.p, t.inp, t.off + y) == h == HashAt(t.p, t.inp, t.off + s)
    ensures Hop(prev, limit, cur, k) == y && k <= |Between(t, t.off + y, t.off + cur, h)|
    decreases cur
  {
    hide HashAt, Between, Links, Hop;
    if cur == y {
      HopNone(prev, limit, cur);
      return 0;
    }
    NextOnChain(t, prev, top, cur, s, limit);
    NotSkipped(t, prev, top, cur, s, y);
    var q := prev[cur % t.wsize];
    k := Reachable(t, prev, top, limit, q, s, y, h);
    BetweenNext(t, t.off + y, t.off + q, t.off + cur, h);
    HopFirst(prev, limit, cur, k, q);
    k := k + 1;
  }

  lemma NotSkipped(t: Text, prev: seq<nat>, top: nat, cur: nat, s: nat, y: nat)
    requires OnChain(t, cur, s) && Links(t, prev, top) && top <= s + 1
    requires 0 < y < cur && t.off + y in t.ins && t.off + y + 3 <= |t.inp|
    requires HashAt(t.p, t.inp, t.off + y) == HashAt(t.p, t.inp, t.off + s)
    ensures y <= prev[cur % t.wsize]
  {
    hide HashAt;
    assert t.off + cur in t.ins;
    assert Link(t, prev, cur);
  }

  lemma NewestCovers(t: Text, q: nat, s: nat, y: nat)
    requires t.off + s + 3 <= |t.inp| && Newest(t, q, HashAt(t.p, t.inp, t.off + s), t.off + s)
    requires 0 < y < s && t.off + y in t.ins && t.off + y + 3 <= |t.inp|
    requires HashAt(t.p, t.inp, t.off + y) == HashAt(t.p, t.inp, t.off + s)
    ensures y <= q
  {
    hide HashAt;
  }

  lemma SameHashes(win: seq<Byte>, t: Text, end: nat, y: nat, s: nat, n: nat)
    requires Shows(win, t, end) && y < s && s + n <= end && n >= 3 && Same(win, y, s, n)
    ensures t.off + y + 3 <= |t.inp| && HashAt(t.p, t.inp, t.off + y) == HashAt(t.p, t.inp, t.off + s)
  {
    SameAt(win, y, s, n, 0);
    SameAt(win, y, s, n, 1);
    SameAt(win, y, s, n, 2);
  }

  /**
    * The match found is the longest of all in the window: any inserted string `y` that agrees with the current one in
    * `n` bytes is one of those looked at, unless there are too many newer ones of the same hash.
    */
  lemma LongestOfAll(win: seq<Byte>, t: Text, prev: seq<nat>, top: nat, s: nat, lookahead: nat, cur: nat, allowed: nat,
                     nice: nat, len: nat, y: nat, n: nat)
    requires Suitable(t.p) && Shows(win, t, s + lookahead) && Links(t, prev, top) && top <= s + 1 && OnChain(t, cur, s)
    requires Newest(t, cur, HashAt(t.p, t.inp, t.off + s), t.off + s)
    requires Longest(win, prev, Limit(s, t.wsize), cur, s, lookahead, allowed, nice, len)
    requires t.off + y in t.ins && Limit(s, t.wsize) < y < s && MIN_MATCH <= n <= lookahead && n <= MAX_MATCH
    requires Same(win, y, s, n)
    requires |Between(t, t.off + y, t.off + s - 1, HashAt(t.p, t.inp, t.off + s))| < allowed
    ensures n <= len || len >= nice
  {
    hide HashAt, Shows, Same, Between, Link, Suitable, Hop, Newest;
    SameHashes(win, t, s + lookahead, y, s, n);
    NewestCovers(t, cur, s, y);
    var h := HashAt(t.p, t.inp, t.off + s);
    var k := Reachable(t, prev, top, Limit(s, t.wsize), cur, s, y, h);
    BetweenMore(t, t.off + y, t.off + cur, t.off + s - 1, h);
  }
}

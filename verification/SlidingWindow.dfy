/**
  * The sliding window of dep/zlib/deflate.c: `fill_window`, `INSERT_STRING`, and the window's part of
  * `longest_match`. The ghost field `text` holds everything that was ever read; the window shows the end of it.
  */
module SlidingWindow {
  import opened Arith
  import opened BitStream
  import opened Tokens
  import opened Hashing
  import opened Chains
  import opened LongestMatch

  /** The hash has taken in the two bytes `a` and `b` last. */
  ghost predicate Primed(p: Params, h: nat, a: Byte, b: Byte)
  {
    exists g: nat :: h == Roll(p, Roll(p, g, a), b)
  }

  lemma PrimedNext(p: Params, h: nat, a: Byte, b: Byte, c: Byte)
    requires Suitable(p) && Primed(p, h, a, b)
    ensures Roll(p, h, c) == Hash3(p, a, b, c) && Primed(p, Roll(p, h, c), b, c)
  {
    var g: nat :| h == Roll(p, Roll(p, g, a), b);
    RollThree(p, g, a, b, c);
    var g' := Roll(p, g, a);
    assert Roll(p, h, c) == Roll(p, Roll(p, g', b), c);
  }

  /** An older string with the same hash. */
  ghost predicate ChainHead(t: Text, h: nat, s: nat)
  {
    && 0 < h < s && t.off + h in t.ins && t.off + s + 3 <= |t.inp| && t.off + h + 3 <= |t.inp|
    && HashAt(t.p, t.inp, t.off + h) == HashAt(t.p, t.inp, t.off + s)
  }

  /** The input agrees at `a` and at `x` for `n` bytes. */
  ghost predicate Agree(inp: seq<Byte>, a: nat, x: nat, n: nat)
  {
    a < x && x + n <= |inp| && inp[a..a + n] == inp[x..x + n]
  }

  /** An inserted string at `a`, not too far from `x`, with fewer than `allowed` newer ones of the same hash. */
  ghost predicate Candidate(t: Text, a: nat, x: nat, allowed: nat)
    requires t.wsize >= 512
  {
    && a in t.ins && t.off < a < x && x - a < MaxDist(t.wsize) && x + 3 <= |t.inp|
    && |Between(t, a, x - 1, HashAt(t.p, t.inp, x))| < allowed
  }

  /** No candidate agrees with the string at `x` in more than `len` bytes, unless these are enough to stop early. */
  ghost predicate Thorough(t: Text, x: nat, ahead: nat, allowed: nat, nice: nat, len: nat)
    requires t.wsize >= 512
  {
    len >= nice ||
    forall a: nat, n: nat {:trigger Agree(t.inp, a, x, n)} ::
      (Candidate(t, a, x, allowed) && MIN_MATCH <= n <= ahead && n <= MAX_MATCH && Agree(t.inp, a, x, n)) ==> n <= len
  }

  /** Only the strings before `x` matter. */
  lemma ThoroughBefore(t: Text, u: Text, x: nat, ahead: nat, allowed: nat, nice: nat, len: nat)
    requires u.wsize >= 512 && Thorough(u, x, ahead, allowed, nice, len) && u == t.(ins := u.ins) && x >= 1
    requires forall a :: a < x ==> (a in t.ins <==> a in u.ins)
    ensures Thorough(t, x, ahead, allowed, nice, len)
  {
    hide HashAt;
    forall a: nat | a < x && x + 3 <= |t.inp| && Candidate(t, a, x, allowed) ensures Candidate(u, a, x, allowed) {
      assert Between(t, a, x - 1, HashAt(t.p, t.inp, x)) == Between(u, a, x - 1, HashAt(t.p, t.inp, x));
    }
  }

  /** Without a string of the same hash that is near enough there are no candidates. */
  lemma NoCandidates(t: Text, q: nat, s: nat, ahead: nat, allowed: nat, nice: nat, len: nat)
    requires t.wsize >= 512 && t.off + s + ahead == |t.inp|
    requires ahead >= 3 ==> Newest(t, q, HashAt(t.p, t.inp, t.off + s), t.off + s)
    requires q == 0 || s - q > MaxDist(t.wsize)
    ensures Thorough(t, t.off + s, ahead, allowed, nice, len)
  {
    hide HashAt;
    var x := t.off + s;
    forall a: nat, n: nat ensures !(Candidate(t, a, x, allowed) && MIN_MATCH <= n <= ahead && Agree(t.inp, a, x, n)) {
      if Candidate(t, a, x, allowed) && MIN_MATCH <= n <= ahead && Agree(t.inp, a, x, n) { AgreeHash(t, a, x, n); }
    }
  }

  lemma AgreeHash(t: Text, a: nat, x: nat, n: nat)
    requires Agree(t.inp, a, x, n) && n >= 3
    ensures a + 3 <= |t.inp| && HashAt(t.p, t.inp, a) == HashAt(t.p, t.inp, x)
  {
    var v, w := t.inp[a..a + n], t.inp[x..x + n];
    assert v[0] == w[0] && v[1] == w[1] && v[2] == w[2];
  }

  /** In terms of the input, the search is thorough. */
  lemma SearchIsThorough(win: seq<Byte>, t: Text, prev: seq<nat>, top: nat, s: nat, ahead: nat, cur: nat, allowed: nat,
                         nice: nat, len: nat)
    requires Suitable(t.p) && Shows(win, t, s + ahead) && Links(t, prev, top) && top <= s + 1 && OnChain(t, cur, s)
    requires Newest(t, cur, HashAt(t.p, t.inp, t.off + s), t.off + s)
    requires Longest(win, prev, Limit(s, t.wsize), cur, s, ahead, allowed, nice, len)
    ensures Thorough(t, t.off + s, ahead, allowed, nice, len)
  {
    hide HashAt, Shows, Same, Between, Links, Longest, Suitable, Newest;
    var x := t.off + s;
    if len < nice {
      forall a: nat, n: nat | Candidate(t, a, x, allowed) && MIN_MATCH <= n <= ahead && n <= MAX_MATCH
          && Agree(t.inp, a, x, n)
        ensures n <= len
      {
        var y: nat := a - t.off;
        AgreeShown(win, t, s + ahead, y, s, n);
        LongestOfAll(win, t, prev, top, s, ahead, cur, allowed, nice, len, y, n);
      }
    }
  }

  lemma AgreeShown(win: seq<Byte>, t: Text, end: nat, y: nat, s: nat, n: nat)
    requires Shows(win, t, end) && y < s && s + n <= end && Agree(t.inp, t.off + y, t.off + s, n)
    ensures Same(win, y, s, n)
  {
    assert win[y..y + n] == t.inp[t.off + y..t.off + y + n];
    assert win[s..s + n] == t.inp[t.off + s..t.off + s + n];
  }

  class Window {
    const p: Params
    const wsize: nat
    const window: array<Byte>
    const head: array<nat>
    const prev: array<nat>
    var insH: nat
    var strstart: nat
    var lookahead: nat
    var input: seq<Byte>
    var highWater: nat
    /** Everything read, where the window starts in it, and the strings inserted. */
    ghost var text: Text
    /** The next string to insert, and the string that the hash is ready for. */
    ghost var top: nat
    ghost var primed: nat

    ghost predicate Sizes()
    {
      && Suitable(p) && 512 <= wsize <= 32768 && head != prev
      && window.Length == 2 * wsize && head.Length == Pow2(p.bits) && prev.Length == wsize
    }

    ghost predicate Primes(end: nat)
      reads this, window
    {
      primed + 2 <= end <= window.Length ==> Primed(p, insH, window[primed], window[primed + 1])
    }

    /** The window shows the input, the chains are sound, and the hash is where `primed` says. */
    ghost predicate Core(end: nat)
      reads this, window, head, prev
    {
      && Sizes() && text.p == p && text.wsize == wsize && Shows(window[..], text, end)
          && Chained(text, head[..], prev[..], top) && Primes(end)
      && strstart <= end && top <= strstart + 1 && highWater <= window.Length
    }

    /**
      * Between two steps: the hash is ready to insert the next string. Specifications below say `Valid()` where the
      * invariant is best proved in one piece.
      */
    ghost predicate Valid()
      reads this, window, head, prev
    {
      Core(strstart + lookahead) && top <= strstart && (lookahead >= MIN_MATCH ==> primed == strstart)
    }

    constructor (p: Params, wsize: nat)
      requires Suitable(p) && 512 <= wsize <= 32768
      ensures Valid() && text.inp == [] && text.off == 0 && strstart == 0 && lookahead == 0 && input == []
      ensures this.p == p && this.wsize == wsize && fresh(window) && fresh(head) && fresh(prev)
    {
      this.p, this.wsize := p, wsize;
      window, head, prev := new Byte[2 * wsize](i => 0), new nat[Pow2(p.bits)](i => 0), new nat[wsize];
      insH, strstart, lookahead, highWater := 0, 0, 0, 0;
      input, text, top, primed := [], Text(p, [], 0, wsize, {}), 0, 0;
      new;
      assert Heads(text, head[..]);
    }

    /** Inserts the string at `strstart` and returns the previous head of its chain. */
    method InsertString(ghost end: nat) returns (hashHead: nat)
      requires Core(end) && primed == strstart && top <= strstart && strstart + MIN_MATCH <= end
      modifies this`insH, this`text, this`top, this`primed, head, prev
      ensures Core(end) && primed == strstart + 1 == top && text.inp == old(text).inp && text.off == old(text).off
      ensures hashHead > 0 ==> ChainHead(text, hashHead, strstart)
      ensures text == old(text).(ins := old(text).ins + {text.off + strstart})
      ensures Heading(hashHead, strstart)
    {
      hide Chained, Shows, Newest, Primed, Suitable, Pow2, HashAt;
      ghost var t, hd: seq<nat>, pv: seq<nat>, w, next: nat := text, head[..], prev[..], window[..], strstart + 1;
      ghost var u := t.(ins := t.ins + {t.off + strstart});
      Fit(w, t, end);
      ghost var h := Roll(p, insH, window[strstart + 2]);
      StringInserted(t, u, hd, pv, w, insH, h, strstart, next, end, top);
      insH := Roll(p, insH, window[strstart + 2]);
      hashHead := head[insH];
      prev[strstart % wsize] := hashHead;
      head[insH] := strstart;
      text, top, primed := u, next, next;
      assert head[..] == hd[h := strstart] && prev[..] == pv[strstart % wsize := hd[h]] && window[..] == w;
    }

    /** `q` is the newest string with the same hash as the one at `s`. */
    ghost predicate Heading(q: nat, s: nat)
      reads this`text
    {
      q <= s && text.off + s + 3 <= |text.inp|
      && Newest(text, q, HashAt(text.p, text.inp, text.off + s), text.off + s)
    }

    /** Moves the upper half of the window to the lower half. */
    method Slide(ghost end: nat, ghost end': nat)
      requires Core(end) && top <= strstart && strstart >= wsize + MaxDist(wsize) && end == end' + wsize
      modifies this`strstart, this`text, this`top, this`primed, window, head, prev
      ensures text == old(text).(off := old(text).off + wsize) && strstart == old(strstart) - wsize
      ensures Core(end') && top == strstart
      ensures primed == if old(primed) >= wsize then old(primed) - wsize else end
    {
      ghost var t, hd, pv, w := text, head[..], prev[..], window[..];
      ghost var u, w', s': nat, pr: nat :=
        t.(off := t.off + wsize), w[wsize..] + w[wsize..], strstart - wsize, if primed >= wsize then primed - wsize
            else end;
      LaterTop(t, hd, pv, top, strstart);
      SlideKeeps(t, u, hd, SlidAll(hd, wsize), pv, SlidAll(pv, wsize), strstart, s');
      SlideShows(w, w', t, u, end, end');
      SlidePrimed(p, insH, w, w', primed, pr, wsize, end);
      MoveDown(window, head, prev, wsize);
      strstart := strstart - wsize;
      text, top, primed := u, s', pr;
    }

    /** Reads as much input as fits behind the lookahead. */
    method ReadBuf(more: nat)
      requires Core(strstart + lookahead) && more == window.Length - lookahead - strstart
      modifies this`lookahead, this`input, this`text, this`primed, window
      ensures Core(strstart + lookahead)
      ensures var n := if |old(input)| < more then |old(input)| else more;
        lookahead == old(lookahead) + n && text == old(text).(inp := old(text).inp + old(input)[..n])
            && input == old(input)[n..]
      ensures forall i :: 0 <= i < strstart + old(lookahead) ==> window[i] == old(window[i])
    {
      hide Shows, Chained, Primed;
      var n: nat := if |input| < more then |input| else more;
      ghost var t, w, end: nat, end': nat := text, window[..], strstart + lookahead, strstart + lookahead + n;
      ghost var u := t.(inp := t.inp + input[..n]);
      MoreText(t, u, head[..], prev[..], top);
      CopyIn(window, strstart + lookahead, input[..n]);
      lookahead, input := lookahead + n, input[n..];
      text, primed := u, if n == 0 then primed else end';
      MoreShows(w, window[..], t, u, end, end');
    }

    /** Starts the hash over. */
    method Rehash()
      requires Core(strstart + lookahead) && lookahead >= MIN_MATCH
      modifies this`insH, this`primed
      ensures Core(strstart + lookahead) && primed == strstart
    {
      FirstByte(p, window[strstart]);
      insH := window[strstart];
      insH := Roll(p, insH, window[strstart + 1]);
      primed := strstart;
      assert Primed(p, insH, window[primed], window[primed + 1]);
    }

    /** Slides if the window is almost full; returns the room behind the lookahead. */
    method MakeRoom() returns (more: nat, slid: bool)
      requires Valid() && lookahead < MIN_LOOKAHEAD
      modifies this`strstart, this`text, this`top, this`primed, window, head, prev
      ensures Valid() && more == window.Length - lookahead - strstart && more >= 2
      ensures strstart + MIN_LOOKAHEAD <= window.Length && strstart < wsize + MaxDist(wsize)
      ensures Moved(slid, old(text).off, text.off, old(strstart), strstart, wsize)
      ensures old(strstart) < wsize + MaxDist(wsize) ==> !slid
      ensures text == old(text).(off := text.off)
    {
      more := window.Length - lookahead - strstart;
      slid := strstart >= wsize + MaxDist(wsize);
      if slid {
        Slide(strstart + lookahead, strstart + lookahead - wsize);
        more := more + wsize;
      }
    }

    /** Reads once, and starts the hash over. */
    method ReadMore(more: nat)
      requires Valid() && input != [] && more == window.Length - lookahead - strstart && more >= 2
      modifies this`lookahead, this`input, this`text, this`insH, this`primed, window
      ensures Valid() && |input| < |old(input)| && lookahead > old(lookahead) && text.off == old(text).off
      ensures old(text).inp <= text.inp && text.inp + input == old(text).inp + old(input) && text.ins == old(text).ins
    {
      ghost var i0, n0 := text.inp, input;
      ReadBuf(more);
      Joined(i0, n0, text.inp, input, |n0| - |input|);
      if lookahead >= MIN_MATCH { Rehash(); }
    }

    /** Fills the window when the lookahead is too short. */
    method FillWindow() returns (slid: bool)
      requires Valid() && lookahead < MIN_LOOKAHEAD
      modifies this, window, head, prev
      ensures Valid() && strstart + MIN_LOOKAHEAD <= window.Length
      ensures Moved(slid, old(text).off, text.off, old(strstart), strstart, wsize)
      ensures old(text).inp <= text.inp && text.inp + input == old(text).inp + old(input) && text.ins == old(text).ins
      ensures lookahead < MIN_LOOKAHEAD ==> input == []
      ensures lookahead >= old(lookahead)
    {
      hide Shows, Chained, Primed, Window.Primes;
      var done;
      done, slid := FillStep();
      while !done
        invariant Valid() && strstart < wsize + MaxDist(wsize) && (!done ==> lookahead < MIN_LOOKAHEAD)
        invariant Moved(slid, old(text).off, text.off, old(strstart), strstart, wsize)
        invariant old(text).inp <= text.inp && text.inp + input == old(text).inp + old(input)
        invariant text.ins == old(text).ins
        invariant done && lookahead < MIN_LOOKAHEAD ==> input == []
        invariant lookahead >= old(lookahead)
        decreases |input|, if done then 0 else 1
      {
        var again;
        done, again := FillStep();
        assert !again;
      }
      ZeroAhead();
    }

    /** One round of the loop; true when there is enough lookahead or no more input. */
    method FillStep() returns (done: bool, slid: bool)
      requires Valid() && lookahead < MIN_LOOKAHEAD
      modifies this, window, head, prev
      ensures Valid() && strstart < wsize + MaxDist(wsize)
      ensures Moved(slid, old(text).off, text.off, old(strstart), strstart, wsize)
      ensures old(strstart) < wsize + MaxDist(wsize) ==> !slid
      ensures old(text).inp <= text.inp && text.inp + input == old(text).inp + old(input) && text.ins == old(text).ins
      ensures lookahead >= old(lookahead)
      ensures if done then lookahead < MIN_LOOKAHEAD ==>
              input == [] else lookahead < MIN_LOOKAHEAD && |input| < |old(input)|
    {
      var more;
      more, slid := MakeRoom();
      if input == [] { return true, slid; }
      ReadMore(more);
      done := lookahead >= MIN_LOOKAHEAD || input == [];
    }

    /** Searches for a match of the string at `strstart`, which has just been inserted. */
    method FindMatch(hashHead: nat, prevLength: nat, maxChain: nat, goodMatch: nat, niceMatch: nat, matchStart0: nat,
                     ghost done: nat)
      returns (len: nat, matchStart: nat)
      requires Core(strstart + lookahead) && strstart + MIN_LOOKAHEAD <= window.Length && lookahead >= MIN_MATCH
      requires 1 <= prevLength <= MAX_MATCH
      requires ChainHead(text, hashHead, strstart) && strstart - hashHead <= MaxDist(wsize)
      requires Heading(hashHead, strstart)
      requires done == text.off + strstart
      ensures len <= lookahead && len <= MAX_MATCH && len >= (if prevLength <= lookahead then prevLength else lookahead)
      ensures matchStart == matchStart0 || matchStart < strstart
      ensures len > prevLength ==>
              matchStart < strstart && strstart - matchStart <= MaxDist(wsize)
              && Repeats(text.inp, done, strstart - matchStart, len)
      ensures Thorough(text, done, lookahead, Allowed(maxChain, prevLength, goodMatch), niceMatch, len)
    {
      hide HashAt, Shows, Longest, Thorough, Links, Heads, Inserted, Newest, Repeats, Same, Suitable;
      ghost var t := text;
      len, matchStart :=
        Search(window, prev, wsize, hashHead, strstart, lookahead, prevLength, matchStart0, maxChain, goodMatch,
               niceMatch, t, top);
      SearchIsThorough(window[..], t, prev[..], top, strstart, lookahead, hashHead,
                       Allowed(maxChain, prevLength, goodMatch), niceMatch, len);
      if len > prevLength { ShownRepeats(window[..], t, strstart + lookahead, matchStart, strstart, len); }
    }

    /** Inserts the next string, if there are three bytes of it. The result is the head of its chain, or 0. */
    method Enter() returns (hashHead: nat)
      requires Valid()
      modifies this`insH, this`text, this`top, this`primed, head, prev
      ensures Core(strstart + lookahead) && text.inp == old(text).inp && text.off == old(text).off
      ensures lookahead >= MIN_MATCH ==> primed == strstart + 1 == top
      ensures hashHead > 0 ==> lookahead >= MIN_MATCH && ChainHead(text, hashHead, strstart)
      ensures lookahead >= MIN_MATCH ==> Heading(hashHead, strstart)
      ensures text == if lookahead >= MIN_MATCH then old(text).(ins := old(text).ins + {text.off + strstart})
                      else old(text)
    {
      hide Shows, Chained, Newest, Primed, Suitable, HashAt;
      hashHead := 0;
      if lookahead >= MIN_MATCH { hashHead := InsertString(strstart + lookahead); }
    }

    /** The byte at window position `i`. */
    method ByteAt(i: nat, ghost end: nat) returns (b: Byte)
      requires Core(end) && i < end
      ensures text.off + i < |text.inp| && b == text.inp[text.off + i]
    {
      b := window[i];
    }

    /** Moves on by one byte. */
    method StepOne()
      requires Core(strstart + lookahead) && lookahead >= 1 && (lookahead > MIN_MATCH ==> primed == strstart + 1)
      modifies this`strstart, this`lookahead
      ensures Valid() && strstart == old(strstart) + 1 && lookahead == old(lookahead) - 1
    {
      lookahead := lookahead - 1;
      strstart := strstart + 1;
    }

    /** Moves on behind a match of length `len`, and inserts all its strings. */
    method SkipInserting(len: nat)
      requires Core(strstart + lookahead + len) && primed == strstart + 1 == top && len >= 2 && lookahead >= MIN_MATCH
      modifies this`strstart, this`insH, this`text, this`top, this`primed, head, prev
      ensures Valid() && strstart == old(strstart) + len
      ensures text == old(text).(ins := Added(old(text).ins, text.off + old(strstart) + 1, text.off + strstart))
    {
      hide Shows, Chained, Added, Newest, HashAt;
      ghost var end := strstart + lookahead + len;
      ghost var ins, a: nat, next: nat := text.ins, text.off + strstart + 1, text.off + strstart + 1;
      AddedNone(ins, a, next);
      var n := len - 1;
      while n != 0
        invariant 0 <= n < len && strstart + n == old(strstart) + len - 1 && Core(end) && primed == strstart + 1 == top
        invariant text == old(text).(ins := Added(ins, a, next)) && next == text.off + strstart + 1
        decreases n
      {
        strstart := strstart + 1;
        var _ := InsertString(end);
        AddedNext(ins, a, next, next + 1);
        n, next := n - 1, next + 1;
      }
      strstart := strstart + 1;
    }

    /** Moves on by `n + 1` bytes, and inserts all strings on the way that have three bytes. */
    method SkipLazy(n0: nat)
      requires Core(strstart + lookahead + n0 + 1) && n0 >= 1
      requires strstart + MIN_MATCH <= strstart + lookahead + n0 + 1 ==> primed == strstart + 1 == top
      modifies this`strstart, this`insH, this`text, this`top, this`primed, head, prev
      ensures Valid() && strstart == old(strstart) + n0 + 1
      ensures text == old(text).(ins := Added(old(text).ins, text.off + old(strstart) + 1,
                                              Within(text.off + strstart, |text.inp|)))
    {
      hide Shows, Chained, Primed, Added, Newest, HashAt;
      ghost var end := strstart + lookahead + n0 + 1;
      Fit(window[..], text, end);
      ghost var ins, a: nat, next: nat := text.ins, text.off + strstart + 1, text.off + strstart + 1;
      ghost var size := |text.inp|;
      AddedNone(ins, a, Within(next, size));
      var maxInsert, n: nat := strstart + lookahead + n0 + 1 - MIN_MATCH, n0;
      while n != 0
        invariant n <= n0 && strstart + n == old(strstart) + n0 && Core(end)
        invariant strstart + MIN_MATCH <= end ==> primed == strstart + 1 == top
        invariant text == old(text).(ins := Added(ins, a, Within(next, size))) && next == text.off + strstart + 1
        decreases n
      {
        strstart := strstart + 1;
        if strstart <= maxInsert {
          var _ := InsertString(end);
          AddedNext(ins, a, next, next + 1);
        }
        n, next := n - 1, next + 1;
      }
      strstart := strstart + 1;
    }

    /** Moves on behind a long match; the hash starts over. */
    method SkipOver(len: nat)
      requires Core(strstart + lookahead + len) && top <= strstart + 1 && len >= 1 && strstart + len + 1 < window.Length
      modifies this`strstart, this`insH, this`primed
      ensures Valid() && strstart == old(strstart) + len
    {
      strstart := strstart + len;
      FirstByte(p, window[strstart]);
      insH := window[strstart];
      insH := Roll(p, insH, window[strstart + 1]);
      primed := strstart;
      assert Primed(p, insH, window[primed], window[primed + 1]);
    }

    /** Clears bytes behind the data that were never written. */
    method ZeroAhead()
      requires Valid()
      modifies this`highWater, window
      ensures Valid()
    {
      hide Shows, Chained, Primed;
      Fit(window[..], text, strstart + lookahead);
      if highWater < window.Length {
        var curr := strstart + lookahead;
        ghost var w := window[..];
        if highWater < curr {
          var init := if window.Length - curr > MAX_MATCH then MAX_MATCH else window.Length - curr;
          ZeroBytes(window, curr, init);
          highWater := curr + init;
        } else if highWater < curr + MAX_MATCH {
          var init := curr + MAX_MATCH - highWater;
          if init > window.Length - highWater { init := window.Length - highWater; }
          ZeroBytes(window, highWater, init);
          highWater := highWater + init;
        }
        StillShows(w, window[..], text, curr);
      }
    }
  }

  /** Everything about inserting the string at `s`: `h` is its hash, and `hd[h]` the head of its chain. */
  lemma StringInserted(t: Text, u: Text, hd: seq<nat>, pv: seq<nat>, w: seq<Byte>, h0: nat, h: nat, s: nat, next: nat,
                       end: nat, top: nat)
    requires Suitable(t.p) && Shows(w, t, end) && Chained(t, hd, pv, top) && top <= s && s + 3 <= end && t.wsize > 0
    requires Primed(t.p, h0, w[s], w[s + 1]) && h == Roll(t.p, h0, w[s + 2]) && |hd| == Pow2(t.p.bits)
    requires u == t.(ins := t.ins + {t.off + s}) && next == s + 1 && |pv| == t.wsize
    ensures h < |hd| && Chained(u, hd[h := s], pv[s % t.wsize := hd[h]], next) && Primed(t.p, h, w[s + 1], w[s + 2])
    ensures Shows(w, u, end) && (hd[h] > 0 ==> ChainHead(u, hd[h], s)) && t.off + s + 3 <= |t.inp|
    ensures hd[h] <= s && Newest(u, hd[h], HashAt(u.p, u.inp, u.off + s), u.off + s)
  {
    hide Links, Newest, Primed, Pow2, Suitable;
    PrimedNext(t.p, h0, w[s], w[s + 1], w[s + 2]);
    LaterTop(t, hd, pv, top, s);
    HashIs(w, t, end, s, h);
    HashFits(t, s);
    InsertKeeps(t, u, hd, hd[h := s], pv, pv[s % t.wsize := hd[h]], s, next, h);
    HeadIsNewest(t, u, hd, s, h);
  }

  lemma HashIs(w: seq<Byte>, t: Text, end: nat, s: nat, h: nat)
    requires Shows(w, t, end) && s + 3 <= end && h == Hash3(t.p, w[s], w[s + 1], w[s + 2])
    ensures t.off + s + 3 <= |t.inp| && h == HashAt(t.p, t.inp, t.off + s)
  {
  }

  lemma HashFits(t: Text, s: nat)
    requires t.off + s + 3 <= |t.inp|
    ensures HashAt(t.p, t.inp, t.off + s) < Pow2(t.p.bits)
  {
  }

  lemma HeadIsNewest(t: Text, u: Text, head: seq<nat>, s: nat, h: nat)
    requires Heads(t, head) && Inserted(t, t.off + s) && h < |head| && u == t.(ins := t.ins + {t.off + s})
    requires t.off + s + 3 <= |t.inp| && h == HashAt(t.p, t.inp, t.off + s)
    ensures Newest(u, head[h], HashAt(u.p, u.inp, u.off + s), u.off + s)
    ensures head[h] <= s && (head[h] > 0 ==> ChainHead(u, head[h], s))
  {
    hide HashAt;
    assert Newest(t, head[h], h, |t.inp|) && Names(t, head[h], h);
    InsertNewest(t, u, head[h], h, |t.inp|, t.off + s, s);
    if head[h] != 0 { assert t.off + head[h] in t.ins; }
  }

  /** Before `b`, and with three bytes before the end of the input. */
  function Within(b: nat, size: nat): nat
  {
    if b + 2 <= size then b else if size >= 2 then size - 2 else 0
  }

  /** From `x` on, `n` bytes of the input repeat those `dist` before. */
  ghost predicate Repeats(inp: seq<Byte>, x: nat, dist: nat, n: nat)
  {
    1 <= dist <= x && x + n <= |inp| && inp[x - dist..x - dist + n] == inp[x..x + n]
  }

  lemma ShownRepeats(w: seq<Byte>, t: Text, end: nat, m: nat, s: nat, n: nat)
    requires Shows(w, t, end) && m < s && s + n <= end && Same(w, m, s, n)
    ensures Repeats(t.inp, t.off + s, s - m, n)
  {
    assert t.inp[t.off + m..t.off + m + n] == w[m..m + n];
    assert t.inp[t.off + s..t.off + s + n] == w[s..s + n];
  }

  /** Copying a repetition gives the input itself. */
  lemma {:induction false} CopyIsInput(inp: seq<Byte>, x: nat, dist: nat, n: nat)
    requires Repeats(inp, x, dist, n)
    ensures Copy(inp[..x], dist, n) == inp[..x + n]
    decreases n
  {
    if n != 0 {
      assert inp[x] == inp[x..x + n][0] == inp[x - dist..x - dist + n][0] == inp[x - dist];
      assert inp[..x] + [inp[x]] == inp[..x + 1];
      assert inp[x + 1..x + n] == inp[x..x + n][1..];
      assert inp[x + 1 - dist..x - dist + n] == inp[x - dist..x - dist + n][1..];
      CopyIsInput(inp, x + 1, dist, n - 1);
    }
  }

  /** How positions change when the window slides. */
  ghost predicate Moved(slid: bool, off: nat, off': nat, s: nat, s': nat, wsize: nat)
  {
    if slid then off' == off + wsize && s == s' + wsize && s' >= 1 else off' == off && s' == s
  }

  lemma Joined(i0: seq<Byte>, n0: seq<Byte>, i1: seq<Byte>, n1: seq<Byte>, k: nat)
    requires k <= |n0| && i1 == i0 + n0[..k] && n1 == n0[k..]
    ensures i1 + n1 == i0 + n0 && i0 <= i1
  {
  }

  method ZeroBytes(window: array<Byte>, from: nat, n: nat)
    requires from + n <= window.Length
    modifies window
    ensures forall i :: 0 <= i < from ==> window[i] == old(window[i])
  {
    forall i | from <= i < from + n { window[i] := 0; }
  }

  lemma Fit(w: seq<Byte>, t: Text, end: nat)
    requires Shows(w, t, end)
    ensures end <= |w| && t.off + end == |t.inp|
  {
  }

  lemma StillShows(w: seq<Byte>, w': seq<Byte>, t: Text, end: nat)
    requires Shows(w, t, end) && |w'| == |w| && forall i :: 0 <= i < end ==> w'[i] == w[i]
    ensures Shows(w', t, end)
  {
  }

  method MoveDown(window: array<Byte>, head: array<nat>, prev: array<nat>, wsize: nat)
    requires head != prev && window.Length == 2 * wsize
    modifies window, head, prev
    ensures window[..] == old(window[wsize..]) + old(window[wsize..])
    ensures head[..] == SlidAll(old(head[..]), wsize) && prev[..] == SlidAll(old(prev[..]), wsize)
  {
    CopyDown(window, wsize);
    SlideTable(head, wsize);
    SlideTable(prev, wsize);
  }

  method CopyDown(window: array<Byte>, wsize: nat)
    requires window.Length == 2 * wsize
    modifies window
    ensures window[..] == old(window[wsize..]) + old(window[wsize..])
  {
    forall i | 0 <= i < wsize { window[i] := window[i + wsize]; }
  }

  method CopyIn(window: array<Byte>, from: nat, data: seq<Byte>)
    requires from + |data| <= window.Length
    modifies window
    ensures forall i :: 0 <= i < from ==> window[i] == old(window[i])
    ensures window[from..from + |data|] == data
  {
    forall i | 0 <= i < |data| { window[from + i] := data[i]; }
  }

  lemma MoreShows(w: seq<Byte>, w': seq<Byte>, t: Text, u: Text, end: nat, end': nat)
    requires Shows(w, t, end) && u == t.(inp := u.inp) && t.inp <= u.inp && end <= end' <= |w| == |w'|
    requires |u.inp| == |t.inp| + (end' - end)
    requires forall i :: 0 <= i < end ==> w'[i] == w[i]
    requires w'[end..end'] == u.inp[|t.inp|..]
    ensures Shows(w', u, end')
  {
    forall i | 0 <= i < end' ensures w'[i] == u.inp[u.off + i] {
      if i < end { assert w'[i] == w[i] == t.inp[t.off + i]; }
      else { assert w'[i] == w'[end..end'][i - end] == u.inp[|t.inp|..][i - end]; }
    }
  }

  lemma FirstByte(p: Params, a: Byte)
    requires Suitable(p)
    ensures Roll(p, 0, a) == a
  {
    ShlOne(p.shift);
    Pow2Mono(8, p.bits);
    assert Pow2(8) == 256;
    LowSmall(a, p.bits);
  }

  /** Positions move down by a window; those that fall out become empty. */
  method SlideTable(a: array<nat>, wsize: nat)
    modifies a
    ensures a[..] == SlidAll(old(a[..]), wsize)
  {
    var n := a.Length;
    while n > 0
      invariant 0 <= n <= a.Length
      invariant forall i :: 0 <= i < n ==> a[i] == old(a[i])
      invariant forall i :: n <= i < a.Length ==> a[i] == Slid(old(a[i]), wsize)
    {
      n := n - 1;
      var m := a[n];
      a[n] := if m >= wsize then m - wsize else 0;
    }
  }

  lemma SlidePrimed(p: Params, h: nat, w: seq<Byte>, w': seq<Byte>, pr: nat, pr': nat, wsize: nat, end: nat)
    requires wsize <= end <= |w| == 2 * wsize == |w'| && (pr + 2 <= end ==> Primed(p, h, w[pr], w[pr + 1]))
    requires w' == w[wsize..] + w[wsize..] && pr' == if pr >= wsize then pr - wsize else end
    ensures pr' + 2 <= end - wsize ==> Primed(p, h, w'[pr'], w'[pr' + 1])
  {
  }

  lemma SlideShows(w: seq<Byte>, w': seq<Byte>, t: Text, u: Text, end: nat, end': nat)
    requires Shows(w, t, end) && u == t.(off := t.off + t.wsize) && end == end' + t.wsize
    requires end <= |w| == 2 * t.wsize == |w'|
    requires w' == w[t.wsize..] + w[t.wsize..]
    ensures Shows(w', u, end')
  {
  }
}

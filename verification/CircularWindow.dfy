/**
  * The circular window of `inflate` (`updatewindow` and the copies from the window in state MATCH,
  * dep/zlib/inflate.c): it always holds the last bytes of the output.
  */
module CircularWindow {
  import opened BitStream
  import opened Tokens

  /** The last `n` bytes, or all of them if there are fewer. */
  function Last(s: seq<Byte>, n: nat): (r: seq<Byte>)
    ensures |r| == if |s| <= n then |s| else n
  {
    if |s| <= n then s else s[|s| - n..]
  }

  /** What the window holds, oldest byte first. */
  function Unrolled(w: seq<Byte>, next: nat, have: nat): seq<Byte>
    requires next <= |w| && have <= |w|
  {
    if have < |w| then w[..have] else w[next..] + w[..next]
  }

  lemma LastAppend(h: seq<Byte>, b: seq<Byte>, n: nat)
    ensures Last(h + b, n) == Last(Last(h, n) + b, n)
  {
    if |h| > n { SameSuffix(h, h[|h| - n..], b, n); }
  }

  lemma SameSuffix(h: seq<Byte>, l: seq<Byte>, b: seq<Byte>, n: nat)
    requires |h| > n && l == h[|h| - n..]
    ensures (h + b)[|h + b| - n..] == (l + b)[|l + b| - n..]
  {
  }

  lemma LastOnly(h: seq<Byte>, b: seq<Byte>, n: nat)
    requires |b| >= n
    ensures Last(h + b, n) == b[|b| - n..]
  {
  }

  class Circular {
    const size: nat
    const window: array<Byte>
    var wsize: nat
    var whave: nat
    var wnext: nat
    /** All output before the current call. */
    ghost var hist: seq<Byte>

    ghost predicate Valid()
      reads this, window
    {
      && 0 < size == window.Length && (wsize == 0 || wsize == size)
      && whave <= size && wnext < size && (whave < size ==> wnext == whave) && (wsize == 0 ==> hist == [])
      && Unrolled(window[..], wnext, whave) == Last(hist, size)
    }

    constructor (size: nat)
      requires size > 0
      ensures Valid() && hist == [] && this.size == size && fresh(window)
    {
      this.size := size;
      window := new Byte[size](i => 0);
      wsize, whave, wnext, hist := 0, 0, 0, [];
    }

    /** Takes in the bytes `out` that were written in a call; only the last ones are copied. */
    method Update(out: seq<Byte>)
      requires Valid()
      modifies this, window
      ensures Valid() && hist == old(hist) + out
    {
      ghost var h, w := hist, window[..];
      if wsize == 0 { wsize, wnext, whave := size, 0, 0; }
      hist := hist + out;
      if |out| >= wsize {
        LastOnly(h, out, size);
        CopyTo(window, 0, out[|out| - wsize..]);
        wnext, whave := 0, wsize;
      } else {
        LastAppend(h, out, size);
        UpdatePart(out, Last(h, size));
      }
    }

    /** Less than a window: at most two pieces. */
    method UpdatePart(out: seq<Byte>, ghost l: seq<Byte>)
      requires 0 < size == window.Length && wsize == size && |out| < size && whave <= size && wnext < size
      requires (whave < size ==> wnext == whave)
      requires Unrolled(window[..], wnext, whave) == l
      modifies this`whave, this`wnext, window
      ensures whave <= size && wnext < size && (whave < size ==> wnext == whave)
      ensures Unrolled(window[..], wnext, whave) == Last(l + out, size)
    {
      hide Unrolled, Last;
      ghost var w, n, v := window[..], wnext, whave;
      var dist := wsize - wnext;
      if dist > |out| { dist := |out|; }
      CopyTo(window, wnext, out[..dist]);
      var copy := |out| - dist;
      if copy > 0 {
        CopyTo(window, 0, out[|out| - copy..]);
        wnext, whave := copy, wsize;
      } else {
        wnext := wnext + dist;
        if wnext == wsize { wnext := 0; }
        if whave < wsize { whave := whave + dist; }
      }
      PartsJoin(w, window[..], n, v, wnext, whave, out, dist);
    }
  }

  method CopyTo(window: array<Byte>, at: nat, data: seq<Byte>)
    requires at + |data| <= window.Length
    modifies window
    ensures window[..] == old(window[..at]) + data + old(window[at + |data|..])
  {
    var i := 0;
    while i < |data|
      invariant 0 <= i <= |data|
      invariant window[..] == old(window[..at]) + data[..i] + old(window[at + i..])
    {
      window[at + i] := data[i];
      i := i + 1;
    }
  }

  /** The last `n` bytes of what is left when `k` bytes at the front are dropped. */
  lemma LastDrops(a: seq<Byte>, b: seq<Byte>, n: nat)
    requires |b| == n
    ensures Last(a + b, n) == b
  {
  }

  /** The bytes reach the end of the window: the rest goes to its start. */
  lemma PartsWrap(w: seq<Byte>, w': seq<Byte>, n: nat, v: nat, out: seq<Byte>, dist: nat, k: nat)
    requires 0 < |w| == |w'| && |out| < |w| && v <= |w| && n < |w| && (v < |w| ==> n == v)
    requires dist == |w| - n < |out| && k == |out| - dist
    requires w' == out[dist..] + (w[..n] + out[..dist])[k..]
    ensures k < |w| && Unrolled(w', k, |w|) == Last(Unrolled(w, n, v) + out, |w|)
  {
    hide Last;
    var x := w[..n] + out;
    assert x == (w[..n] + out[..dist]) + out[dist..];
    assert Unrolled(w', k, |w|) == x[k..];
    if v < |w| {
      LastDrops(x[..k], x[k..], |w|);
      assert x == x[..k] + x[k..];
    } else {
      LastDrops(w[n..] + x[..k], x[k..], |w|);
      assert Unrolled(w, n, v) + out == (w[n..] + x[..k]) + x[k..];
    }
  }

  /** There is room up to the end of the window. */
  lemma PartsFit(w: seq<Byte>, w': seq<Byte>, n: nat, v: nat, n': nat, v': nat, out: seq<Byte>)
    requires 0 < |w| == |w'| && |out| < |w| && v <= |w| && n < |w| && (v < |w| ==> n == v) && n + |out| <= |w|
    requires n' == (if n + |out| == |w| then 0 else n + |out|) && v' == (if v < |w| then v + |out| else v)
    requires w' == w[..n] + out + w[n + |out|..]
    ensures v' <= |w| && n' < |w| && (v' < |w| ==> n' == v')
    ensures Unrolled(w', n', v') == Last(Unrolled(w, n, v) + out, |w|)
  {
    var m := n + |out|;
    if v < |w| {
      assert Unrolled(w', n', v') == w[..n] + out;
    } else {
      LastDrops(w[n..m], w[m..] + w[..n] + out, |w|);
      assert Unrolled(w, n, v) + out == w[n..m] + (w[m..] + w[..n] + out);
      assert Unrolled(w', n', v') == w[m..] + w[..n] + out;
    }
  }

  /** Where the pieces are after a partial update. */
  lemma PartsJoin(w: seq<Byte>, w': seq<Byte>, n: nat, v: nat, n': nat, v': nat, out: seq<Byte>, dist: nat)
    requires 0 < |w| == |w'| && |out| < |w| && v <= |w| && n < |w| && (v < |w| ==> n == v)
    requires dist == if |w| - n > |out| then |out| else |w| - n
    requires dist < |out| ==>
             n' == |out| - dist && v' == |w|
             && w' == out[dist..] + (w[..n] + out[..dist])[|out| - dist..]
    requires dist == |out| ==>
             n' == (if n + dist == |w| then 0 else n + dist)
             && v' == (if v < |w| then v + dist else v)
                               && w' == w[..n] + out + w[n + dist..]
    ensures v' <= |w| && n' < |w| && (v' < |w| ==> n' == v')
    ensures Unrolled(w', n', v') == Last(Unrolled(w, n, v) + out, |w|)
  {
    hide *;
    if dist < |out| { PartsWrap(w, w', n, v, out, dist, n'); }
    else { PartsFit(w, w', n, v, n', v', out); }
  }

  // ---------------------------------------------------------------- copying matches

  /** The byte `k` before the end of the output, as it is found in the window. */
  lemma WindowByte(w: seq<Byte>, next: nat, have: nat, hist: seq<Byte>, k: nat)
    requires 0 < |w| && have <= |w| && next < |w| && (have < |w| ==> next == have)
    requires Unrolled(w, next, have) == Last(hist, |w|) && 1 <= k <= have
    ensures k <= |hist| && hist[|hist| - k] == if k <= next then w[next - k] else w[|w| - (k - next)]
  {
    var u := Unrolled(w, next, have);
    assert |u| == have && u[have - k] == hist[|hist| - k];
  }

  /** Copying from far enough back copies what is there. */
  lemma {:induction false} CopyPlain(out: seq<Byte>, d: nat, n: nat)
    requires 1 <= d <= |out| && n <= d
    ensures Copy(out, d, n) == out + out[|out| - d..|out| - d + n]
  {
    if n != 0 {
      CopyPlain(out, d, n - 1);
      CopyLast(out, d, n - 1, n);
      var c := out + out[|out| - d..|out| - d + n - 1];
      assert c[|c| - d] == out[|out| - d + n - 1];
      assert out[|out| - d..|out| - d + n] == out[|out| - d..|out| - d + n - 1] + [out[|out| - d + n - 1]];
    }
  }

  lemma {:induction false} CopyLast(out: seq<Byte>, d: nat, n: nat, m: nat)
    requires 1 <= d <= |out| && m == n + 1
    ensures Copy(out, d, m) == Copy(out, d, n) + [Copy(out, d, n)[|Copy(out, d, n)| - d]]
    decreases n
  {
    if n == 0 {
      assert Copy(out, d, 0) == out;
      assert Copy(out, d, 1) == Copy(out + [out[|out| - d]], d, 0);
    } else {
      CopyLast(out + [out[|out| - d]], d, n - 1, m - 1);
    }
  }

  /** Copies `n` bytes within the output of this call. */
  method CopyFromOutput(cur: seq<Byte>, offset: nat, n: nat, ghost hist: seq<Byte>) returns (cur': seq<Byte>)
    requires 1 <= offset <= |cur|
    ensures |cur'| == |cur| + n && hist + cur' == Copy(hist + cur, offset, n)
  {
    cur' := cur;
    var i := 0;
    while i < n
      invariant 0 <= i <= n && |cur'| == |cur| + i && hist + cur' == Copy(hist + cur, offset, i)
    {
      CopyLast(hist + cur, offset, i, i + 1);
      var b := cur'[|cur'| - offset];
      assert (hist + cur')[|hist + cur'| - offset] == b;
      assert hist + (cur' + [b]) == (hist + cur') + [b];
      cur' := cur' + [b];
      i := i + 1;
    }
  }

  /** The bytes of the window from `from` on are those `k` before the current call. */
  lemma WindowBytes(w: seq<Byte>, next: nat, have: nat, hist: seq<Byte>, k: nat, from: nat, n: nat)
    requires 0 < |w| && have <= |w| && next < |w| && (have < |w| ==> next == have)
    requires Unrolled(w, next, have) == Last(hist, |w|) && 1 <= k <= have
    requires if k <= next then from == next - k && n <= k else from == |w| - (k - next) && n <= k - next
    ensures from + n <= |w| && n <= k <= |hist| && w[from..from + n] == hist[|hist| - k..|hist| - k + n]
  {
    WindowByte(w, next, have, hist, k);
    var a, b := w[from..from + n], hist[|hist| - k..|hist| - k + n];
    forall i | 0 <= i < n ensures a[i] == b[i] {
      WindowByte(w, next, have, hist, k - i);
    }
  }

  lemma CopyOld(hist: seq<Byte>, cur: seq<Byte>, offset: nat, k: nat, n: nat, b: seq<Byte>)
    requires |cur| < offset && k == offset - |cur| && n <= k <= |hist| && b == hist[|hist| - k..|hist| - k + n]
    ensures hist + (cur + b) == Copy(hist + cur, offset, n)
  {
    var out := hist + cur;
    CopyPlain(out, offset, n);
    assert out[|out| - offset..|out| - offset + n] == b;
    assert hist + (cur + b) == out + b;
  }

  /** Copies up to `max` bytes from the window, from `k` bytes before the current call; the end of the window may
      come first. */
  method CopyFromWindow(c: Circular, k: nat, max: nat) returns (b: seq<Byte>)
    requires c.Valid() && 1 <= k <= c.whave && max >= 1
    ensures 1 <= |b| <= max && |b| <= k <= |c.hist| && b == c.hist[|c.hist| - k..|c.hist| - k + |b|]
  {
    var from: nat, n: nat;
    if k > c.wnext { from, n := c.size - (k - c.wnext), k - c.wnext; } else { from, n := c.wnext - k, k; }
    if n > max { n := max; }
    WindowBytes(c.window[..], c.wnext, c.whave, c.hist, k, from, n);
    b := c.window[from..from + n];
  }

  /** The window has all bytes that a distance may reach. */
  lemma Reachable(c: Circular, cur: seq<Byte>, offset: nat)
    requires c.Valid() && offset <= c.size
    ensures offset - |cur| <= c.whave <==> offset <= |c.hist| + |cur|
  {
    assert |Unrolled(c.window[..], c.wnext, c.whave)| == c.whave;
  }

  /** Copies a piece of a match, from the window or from the output of this call; fails if the distance is too far
      back. */
  method CopyMatch(c: Circular, cur: seq<Byte>, offset: nat, length: nat, left: nat) returns (ok: bool, cur': seq<Byte>)
    requires c.Valid() && 1 <= offset <= c.size && length >= 1 && left >= 1
    ensures ok <==> offset <= |c.hist| + |cur|
    ensures ok ==>
            |cur| < |cur'| <= |cur| + length && |cur'| <= |cur| + left
            && c.hist + cur' == Copy(c.hist + cur, offset, |cur'| - |cur|)
  {
    Reachable(c, cur, offset);
    cur' := cur;
    var max: nat := if length > left then left else length;
    if offset > |cur| {
      var k: nat := offset - |cur|;
      if k > c.whave { return false, cur; }
      var b := CopyFromWindow(c, k, max);
      CopyOld(c.hist, cur, offset, k, |b|, b);
      cur' := cur + b;
    } else {
      cur' := CopyFromOutput(cur, offset, max, c.hist);
    }
    ok := true;
  }

  // ---------------------------------------------------------------- copying in the fast loop

  /** Copies `n` bytes within the output of this call, three at a time. */
  method CopyTriples(cur: seq<Byte>, offset: nat, n: nat, ghost hist: seq<Byte>) returns (cur': seq<Byte>)
    requires 1 <= offset <= |cur|
    ensures |cur'| == |cur| + n && hist + cur' == Copy(hist + cur, offset, n)
  {
    hide Copy;
    cur' := cur;
    var len := n;
    NothingCopied(hist + cur, offset);
    while len > 2
      invariant 0 <= len <= n && |cur'| == |cur| + (n - len) && hist + cur' == Copy(hist + cur, offset, n - len)
    {
      CopySplit(hist + cur, offset, n - len, 3, n - len + 3);
      cur' := CopyFromOutput(cur', offset, 3, hist);
      len := len - 3;
    }
    if len > 0 {
      CopySplit(hist + cur, offset, n - len, len, n);
      cur' := CopyFromOutput(cur', offset, len, hist);
    }
  }

  lemma NothingCopied(out: seq<Byte>, d: nat)
    requires 1 <= d <= |out|
    ensures Copy(out, d, 0) == out
  {
  }

  /** Copies `n` bytes of the window, those from `k` before the current call on. */
  method TakeWindow(c: Circular, cur: seq<Byte>, from: nat, n: nat, ghost offset: nat, ghost k: nat)
      returns (cur': seq<Byte>)
    requires c.Valid() && 1 <= k <= c.whave && k == offset - |cur|
    requires if k <= c.wnext then from == c.wnext - k && n <= k else from == c.size - (k - c.wnext) && n <= k - c.wnext
    ensures |cur'| == |cur| + n && n <= k && offset <= |c.hist| + |cur|
    ensures c.hist + cur' == Copy(c.hist + cur, offset, n)
  {
    hide Copy, Unrolled, Last;
    WindowBytes(c.window[..], c.wnext, c.whave, c.hist, k, from, n);
    assert c.window[from..from + n] == c.window[..][from..from + n];
    CopyOld(c.hist, cur, offset, k, n, c.window[from..from + n]);
    cur' := cur + c.window[from..from + n];
  }

  /** One piece of a copy after another. */
  lemma CopyOn(h: seq<Byte>, cur: seq<Byte>, cur1: seq<Byte>, cur2: seq<Byte>, d: nat, a: nat, b: nat, n: nat)
    requires 1 <= d <= |h + cur| && h + cur1 == Copy(h + cur, d, a) && h + cur2 == Copy(h + cur1, d, b) && n == a + b
    ensures h + cur2 == Copy(h + cur, d, n)
  {
    CopySplit(h + cur, d, a, b, n);
  }

  /** Copies a whole match: from the window, which may have to be taken from both ends, and from the output of this
      call. */
  method FastMatch(c: Circular, cur: seq<Byte>, dist: nat, length: nat) returns (ok: bool, cur': seq<Byte>)
    requires c.Valid() && 1 <= dist <= c.size && length >= 1
    ensures ok <==> dist <= |c.hist| + |cur|
    ensures if ok then |cur'| == |cur| + length && c.hist + cur' == Copy(c.hist + cur, dist, length) else cur' == cur
  {
    hide Copy, Unrolled, Last;
    Reachable(c, cur, dist);
    if dist <= |cur| {
      cur' := CopyTriples(cur, dist, length, c.hist);
      return true, cur';
    }
    var op: nat := dist - |cur|;
    if op > c.whave { return false, cur; }
    ok := true;
    if c.wnext == 0 {
      cur' := FromWindow(c, cur, c.size - op, op, dist, length);
    } else if c.wnext < op {
      var n: nat := op - c.wnext;
      if n < length {
        var cur1 := TakeWindow(c, cur, c.size - n, n, dist, op);
        cur' := FromWindow(c, cur1, 0, c.wnext, dist, length - n);
        CopyOn(c.hist, cur, cur1, cur', dist, n, length - n, length);
      } else {
        cur' := TakeWindow(c, cur, c.size - n, length, dist, op);
      }
    } else {
      cur' := FromWindow(c, cur, c.wnext - op, op, dist, length);
    }
  }

  /** The `k` bytes before the current call are in one piece: those that are needed, and the rest from the output. */
  method FromWindow(c: Circular, cur: seq<Byte>, from: nat, k: nat, dist: nat, length: nat) returns (cur': seq<Byte>)
    requires c.Valid() && 1 <= k <= c.whave && k == dist - |cur| && length >= 1
    requires if k <= c.wnext then from == c.wnext - k else c.wnext == 0 && from == c.size - k
    ensures |cur'| == |cur| + length && dist <= |c.hist| + |cur| && c.hist + cur' == Copy(c.hist + cur, dist, length)
  {
    hide Copy, Unrolled, Last;
    if k < length {
      var cur1 := TakeWindow(c, cur, from, k, dist, k);
      cur' := CopyTriples(cur1, dist, length - k, c.hist);
      CopyOn(c.hist, cur, cur1, cur', dist, k, length - k, length);
    } else {
      cur' := TakeWindow(c, cur, from, length, dist, k);
    }
  }
}

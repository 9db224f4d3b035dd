/**
  * Run-length coding of code lengths (section 3.2.7 of RFC 1951): `scan_tree` and `send_tree` of dep/zlib/trees.c on
  * one side, the CODELENS state of dep/zlib/inflate.c on the other.
  */
module CodeLengths {

  const REP_3_6: nat := 16
  const REPZ_3_10: nat := 17
  const REPZ_11_138: nat := 18
  const GUARD: nat := 0xffff

  /** One symbol of the code length alphabet with its extra bits. */
  datatype Op = Op(sym: nat, extra: nat)

  function ExtraBits(sym: nat): nat
  {
    if sym == REP_3_6 then 2 else if sym == REPZ_3_10 then 3 else if sym == REPZ_11_138 then 7 else 0
  }

  ghost predicate ValidOp(op: Op)
  {
    && op.sym <= 18
    && op.extra < (if op.sym == REP_3_6 then 4 else if op.sym == REPZ_3_10 then 8
                   else if op.sym == REPZ_11_138 then 128 else 1)
  }

  ghost predicate ValidOps(ops: seq<Op>)
  {
    forall i :: 0 <= i < |ops| ==> ValidOp(ops[i])
  }

  function Copies(v: nat, n: nat): (s: seq<nat>)
    ensures |s| == n
  {
    seq(n, i => v)
  }

  datatype Result = Ok(lens: seq<nat>) | Bad

  /** What one symbol adds to the lengths read so far; `Bad` is an "invalid bit length repeat". */
  function Apply(have: seq<nat>, op: Op, limit: nat): Result
  {
    if op.sym < 16 then
      Ok(have + [op.sym])
    else if op.sym == REP_3_6 && have == [] then
      Bad
    else
      var len := if op.sym == REP_3_6 then have[|have| - 1] else 0;
      var copy := (if op.sym == REPZ_11_138 then 11 else 3) + op.extra;
      if |have| + copy > limit then Bad else Ok(have + Copies(len, copy))
  }

  /** The CODELENS loop over a whole sequence of symbols. */
  function Expand(have: seq<nat>, ops: seq<Op>, limit: nat): Result
    decreases |ops|
  {
    if ops == [] then Ok(have)
    else
      var r := Apply(have, ops[0], limit);
      if r.Bad? then Bad else Expand(r.lens, ops[1..], limit)
  }

  lemma {:induction false} ExpandConcat(have: seq<nat>, a: seq<Op>, b: seq<Op>, limit: nat)
    requires Expand(have, a, limit).Ok?
    ensures Expand(have, a + b, limit) == Expand(Expand(have, a, limit).lens, b, limit)
    decreases |a|
  {
    if a == [] { assert a + b == b; }
    else {
      assert (a + b)[1..] == a[1..] + b;
      ExpandConcat(Apply(have, a[0], limit).lens, a[1..], b, limit);
    }
  }

  /** The longest and the shortest run to be coded as a repeat of `curlen` after `prevlen`. */
  function MaxCount(prevlen: int, curlen: nat): nat
  {
    if curlen == 0 then 138 else if prevlen == curlen then 6 else 7
  }

  function MinCount(prevlen: int, curlen: nat): nat
  {
    if curlen == 0 then 3 else if prevlen == curlen then 3 else 4
  }

  /** The symbols for a run of `count` lengths `curlen`. */
  function RunOps(prevlen: int, curlen: nat, count: nat): seq<Op>
    requires 1 <= count <= MaxCount(prevlen, curlen)
  {
    if count < MinCount(prevlen, curlen) then seq(count, i => Op(curlen, 0))
    else if curlen != 0 then
      if curlen != prevlen then [Op(curlen, 0), Op(REP_3_6, count - 4)] else [Op(REP_3_6, count - 3)]
    else if count <= 10 then [Op(REPZ_3_10, count - 3)]
    else [Op(REPZ_11_138, count - 11)]
  }

  function NextLen(lens: seq<nat>, n: nat): nat
    requires n < |lens|
  {
    if n + 1 < |lens| then lens[n + 1] else GUARD
  }

  /** Whether the run that `lens[n]` belongs to ends at `n`, when `count` of its lengths came before. */
  predicate RunEnds(lens: seq<nat>, n: nat, prevlen: int, count: nat)
    requires n < |lens|
  {
    !(count + 1 < MaxCount(prevlen, lens[n]) && lens[n] == NextLen(lens, n))
  }

  /** All symbols for `lens[n..]`, when the `count` lengths before `n` are still to be coded. */
  function Rle(lens: seq<nat>, n: nat, prevlen: int, count: nat): seq<Op>
    requires n <= |lens| && (n < |lens| ==> count < MaxCount(prevlen, lens[n]))
    decreases |lens| - n
  {
    if n == |lens| then []
    else if !RunEnds(lens, n, prevlen, count) then Rle(lens, n + 1, prevlen, count + 1)
    else RunOps(prevlen, lens[n], count + 1) + Rle(lens, n + 1, lens[n], 0)
  }

  /** The symbols that transmit a whole vector of lengths. */
  function Encode(lens: seq<nat>): seq<Op>
  {
    Rle(lens, 0, -1, 0)
  }

  /** How often a symbol occurs. */
  function Occurs(ops: seq<Op>, sym: nat): nat
  {
    if ops == [] then 0 else (if ops[0].sym == sym then 1 else 0) + Occurs(ops[1..], sym)
  }

  lemma {:induction false} OccursConcat(a: seq<Op>, b: seq<Op>, sym: nat)
    ensures Occurs(a + b, sym) == Occurs(a, sym) + Occurs(b, sym)
  {
    if a == [] { assert a + b == b; }
    else {
      assert (a + b)[1..] == a[1..] + b;
      OccursConcat(a[1..], b, sym);
    }
  }

  // ---------------------------------------------------------------- round trip

  lemma {:induction false} ExpandPlain(have: seq<nat>, v: nat, n: nat, limit: nat)
    requires v < 16
    ensures Expand(have, seq(n, i => Op(v, 0)), limit) == Ok(have + Copies(v, n))
    decreases n
  {
    var ops := seq(n, i => Op(v, 0));
    if n == 0 {
      assert have + Copies(v, 0) == have;
    } else {
      assert ops[1..] == seq(n - 1, i => Op(v, 0));
      ExpandPlain(have + [v], v, n - 1, limit);
      assert (have + [v]) + Copies(v, n - 1) == have + Copies(v, n);
    }
  }

  /** The symbols of one run expand to that run. */
  lemma ExpandRun(have: seq<nat>, prevlen: int, curlen: nat, count: nat, limit: nat)
    requires curlen < 16 && 1 <= count <= MaxCount(prevlen, curlen) && |have| + count <= limit
    requires prevlen >= 0 ==> have != [] && have[|have| - 1] == prevlen
    ensures Expand(have, RunOps(prevlen, curlen, count), limit) == Ok(have + Copies(curlen, count))
    ensures ValidOps(RunOps(prevlen, curlen, count))
  {
    var ops := RunOps(prevlen, curlen, count);
    if count < MinCount(prevlen, curlen) {
      ExpandPlain(have, curlen, count, limit);
    } else if curlen != 0 && curlen != prevlen {
      var h := have + [curlen];
      assert ops[1..] == [Op(REP_3_6, count - 4)] && ops[1..][1..] == [];
      assert Expand(h, ops[1..], limit) == Expand(h + Copies(curlen, count - 1), [], limit);
      assert h + Copies(curlen, count - 1) == have + Copies(curlen, count);
    } else {
      assert ops[1..] == [];
    }
  }

  lemma CopiesAppend(v: nat, n: nat)
    ensures Copies(v, n) + [v] == Copies(v, n + 1)
  {
  }

  /** The run so far: the `count` lengths before `n` all equal `lens[n]`. */
  ghost predicate InRun(lens: seq<nat>, n: nat, prevlen: int, count: nat)
  {
    && count <= n <= |lens|
    && (n == |lens| ==> count == 0)
    && (n < |lens| ==> count < MaxCount(prevlen, lens[n]) && lens[n - count..n] == Copies(lens[n], count))
    && (prevlen >= 0 ==> n - count > 0 && lens[n - count - 1] == prevlen)
  }

  lemma InRunNext(lens: seq<nat>, n: nat, prevlen: int, count: nat)
    requires n < |lens| && InRun(lens, n, prevlen, count) && lens[n] < 16
    ensures !RunEnds(lens, n, prevlen, count) ==> InRun(lens, n + 1, prevlen, count + 1)
    ensures RunEnds(lens, n, prevlen, count) ==> InRun(lens, n + 1, lens[n], 0)
    ensures lens[..n + 1] == lens[..n - count] + Copies(lens[n], count + 1)
  {
    CopiesAppend(lens[n], count);
    assert lens[..n + 1] == lens[..n - count] + (lens[n - count..n] + [lens[n]]);
    if !RunEnds(lens, n, prevlen, count) {
      assert lens[n + 1 - (count + 1)..n + 1] == lens[n - count..n] + [lens[n]];
    }
  }

  lemma {:induction false} RleExpands(pre: seq<nat>, lens: seq<nat>, n: nat, prevlen: int, count: nat, limit: nat)
    requires InRun(lens, n, prevlen, count) && |pre| + |lens| <= limit
    requires forall i :: 0 <= i < |lens| ==> lens[i] < 16
    ensures Expand(pre + lens[..n - count], Rle(lens, n, prevlen, count), limit) == Ok(pre + lens)
    ensures ValidOps(Rle(lens, n, prevlen, count))
    decreases |lens| - n
  {
    hide RunEnds, Apply, RunOps, Copies;
    if n == |lens| {
      assert lens[..n - count] == lens;
    } else {
      InRunNext(lens, n, prevlen, count);
      if !RunEnds(lens, n, prevlen, count) {
        RleExpands(pre, lens, n + 1, prevlen, count + 1, limit);
        assert n + 1 - (count + 1) == n - count;
      } else {
        RleExpands(pre, lens, n + 1, lens[n], 0, limit);
        RleStep(pre, lens, n, prevlen, count, limit);
      }
    }
  }

  lemma RleStep(pre: seq<nat>, lens: seq<nat>, n: nat, prevlen: int, count: nat, limit: nat)
    requires n < |lens| && InRun(lens, n, prevlen, count) && |pre| + |lens| <= limit && lens[n] < 16
    requires RunEnds(lens, n, prevlen, count)
    requires lens[..n + 1] == lens[..n - count] + Copies(lens[n], count + 1)
    ensures count + 1 <= MaxCount(prevlen, lens[n]) && ValidOps(RunOps(prevlen, lens[n], count + 1))
    ensures Expand(pre + lens[..n - count], Rle(lens, n, prevlen, count), limit)
            == Expand(pre + lens[..n + 1 - 0], Rle(lens, n + 1, lens[n], 0), limit)
  {
    var have, ops := pre + lens[..n - count], RunOps(prevlen, lens[n], count + 1);
    ExpandRun(have, prevlen, lens[n], count + 1, limit);
    ExpandConcat(have, ops, Rle(lens, n + 1, lens[n], 0), limit);
    assert have + Copies(lens[n], count + 1) == pre + (lens[..n - count] + Copies(lens[n], count + 1));
  }

  lemma EncodeExpands(pre: seq<nat>, lens: seq<nat>, limit: nat)
    requires |pre| + |lens| <= limit
    requires forall i :: 0 <= i < |lens| ==> lens[i] < 16
    ensures Expand(pre, Encode(lens), limit) == Ok(pre + lens)
    ensures ValidOps(Encode(lens))
  {
    RleExpands(pre, lens, 0, -1, 0, limit);
    assert pre + lens[..0 - 0] == pre;
  }

  /** Decoding the symbols for the literal lengths and then those for the distance lengths gives both vectors back. */
  lemma RoundTrip(l: seq<nat>, d: seq<nat>)
    requires forall i :: 0 <= i < |l| ==> l[i] < 16
    requires forall i :: 0 <= i < |d| ==> d[i] < 16
    ensures Expand([], Encode(l) + Encode(d), |l| + |d|) == Ok(l + d)
    ensures ValidOps(Encode(l) + Encode(d))
  {
    var limit := |l| + |d|;
    EncodeExpands([], l, limit);
    EncodeExpands(l, d, limit);
    ExpandConcat([], Encode(l), Encode(d), limit);
    assert [] + l == l;
  }

  // ---------------------------------------------------------------- counting the symbols

  lemma {:induction false} OccursPlain(v: nat, n: nat, sym: nat)
    ensures Occurs(seq(n, i => Op(v, 0)), sym) == if sym == v then n else 0
    decreases n
  {
    var ops := seq(n, i => Op(v, 0));
    if n != 0 {
      assert ops[1..] == seq(n - 1, i => Op(v, 0));
      OccursPlain(v, n - 1, sym);
    }
  }

  /** What `scan_tree` adds to the frequency of `sym` for one run. */
  function RunFreq(prevlen: int, curlen: nat, count: nat, sym: nat): nat
  {
    if count < MinCount(prevlen, curlen) then (if sym == curlen then count else 0)
    else if curlen != 0 then (if sym == curlen && curlen != prevlen then 1 else 0) + (if sym == REP_3_6 then 1 else 0)
    else if count <= 10 then (if sym == REPZ_3_10 then 1 else 0)
    else (if sym == REPZ_11_138 then 1 else 0)
  }

  lemma RunFreqIsOccurs(prevlen: int, curlen: nat, count: nat, sym: nat)
    requires curlen < 16 && 1 <= count <= MaxCount(prevlen, curlen)
    ensures Occurs(RunOps(prevlen, curlen, count), sym) == RunFreq(prevlen, curlen, count, sym)
  {
    var ops := RunOps(prevlen, curlen, count);
    if count < MinCount(prevlen, curlen) {
      OccursPlain(curlen, count, sym);
    } else if curlen != 0 && curlen != prevlen {
      assert ops[1..] == [Op(REP_3_6, count - 4)] && ops[1..][1..] == [];
      assert Occurs(ops[1..], sym) == (if REP_3_6 == sym then 1 else 0) + Occurs([], sym);
    } else {
      assert ops[1..] == [];
    }
  }

  method CountRun(freq: array<nat>, prevlen: int, curlen: nat, count: nat, minCount: nat)
    requires freq.Length >= 19 && curlen < 16 && 1 <= count <= MaxCount(prevlen, curlen)
    requires minCount == MinCount(prevlen, curlen)
    modifies freq
    ensures forall s :: 0 <= s < freq.Length ==> freq[s] == old(freq[s]) + RunFreq(prevlen, curlen, count, s)
  {
    if count < minCount {
      freq[curlen] := freq[curlen] + count;
    } else if curlen != 0 {
      if curlen != prevlen { freq[curlen] := freq[curlen] + 1; }
      freq[REP_3_6] := freq[REP_3_6] + 1;
    } else if count <= 10 {
      freq[REPZ_3_10] := freq[REPZ_3_10] + 1;
    } else {
      freq[REPZ_11_138] := freq[REPZ_11_138] + 1;
    }
  }

  /** Counts every symbol exactly as often as it will be sent. */
  method ScanTree(freq: array<nat>, lens: seq<nat>)
    requires freq.Length >= 19 && |lens| >= 1 && forall i :: 0 <= i < |lens| ==> lens[i] < 16
    modifies freq
    ensures forall s: nat :: s < freq.Length ==> freq[s] == old(freq[s]) + Occurs(Encode(lens), s)
  {
    hide RunOps, RunFreq;
    var prevlen: int, nextlen: nat, count: nat, maxCount: nat, minCount: nat := -1, lens[0], 0, 7, 4;
    if nextlen == 0 { maxCount, minCount := 138, 3; }
    var n := 0;
    while n < |lens|
      invariant 0 <= n <= |lens| && 0 <= count && InRun(lens, n, prevlen, count)
      invariant n < |lens| ==> nextlen == lens[n]
      invariant n < |lens| ==> maxCount == MaxCount(prevlen, nextlen) && minCount == MinCount(prevlen, nextlen)
      invariant forall s: nat :: s < freq.Length ==>
        freq[s] + Occurs(Rle(lens, n, prevlen, count), s) == old(freq[s]) + Occurs(Encode(lens), s)
    {
      var curlen := nextlen;
      nextlen := NextLen(lens, n);
      count := count + 1;
      InRunNext(lens, n, prevlen, count - 1);
      if count < maxCount && curlen == nextlen {
        n := n + 1;
        continue;
      }
      forall s: nat | s < freq.Length
        ensures Occurs(Rle(lens, n, prevlen, count - 1), s) == RunFreq(prevlen, curlen, count, s)
                + Occurs(Rle(lens, n + 1, curlen, 0), s)
      {
        OccursConcat(RunOps(prevlen, curlen, count), Rle(lens, n + 1, curlen, 0), s);
        RunFreqIsOccurs(prevlen, curlen, count, s);
      }
      CountRun(freq, prevlen, curlen, count, minCount);
      count, prevlen := 0, curlen;
      if nextlen == 0 { maxCount, minCount := 138, 3; }
      else if curlen == nextlen { maxCount, minCount := 6, 3; }
      else { maxCount, minCount := 7, 4; }
      n := n + 1;
    }
  }
}

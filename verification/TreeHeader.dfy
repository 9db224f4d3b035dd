/**
  * The header of a block with dynamic codes (section 3.2.7 of RFC 1951): what `send_all_trees` of dep/zlib/trees.c
  * sends, and that the decoder gets both codes back.
  */
module TreeHeader {
  import opened Arith
  import opened Canonical
  import opened BitStream
  import opened Tokens
  import opened Decoder
  import opened BlockData
  import IT = InflateTable
  import CL = CodeLengths

  // ---------------------------------------------------------------- run-length symbols

  function OpBits(bl: seq<nat>, op: CL.Op): Bits
    requires Used(bl, op.sym)
  {
    Word(bl, op.sym) + ToBits(op.extra, CL.ExtraBits(op.sym))
  }

  ghost predicate UsableOps(bl: seq<nat>, ops: seq<CL.Op>)
  {
    forall i :: 0 <= i < |ops| ==> Used(bl, ops[i].sym) && CL.ValidOp(ops[i])
  }

  ghost function OpsBits(bl: seq<nat>, ops: seq<CL.Op>): Bits
    requires UsableOps(bl, ops)
    decreases |ops|
  {
    if ops == [] then [] else OpBits(bl, ops[0]) + OpsBits(bl, ops[1..])
  }

  lemma ExtraFits(op: CL.Op)
    requires CL.ValidOp(op)
    ensures op.extra < Pow2(CL.ExtraBits(op.sym))
  {
    assert Pow2(2) == 4 && Pow2(3) == 8 && Pow2(7) == 128;
  }

  lemma OpIsRead(bl: seq<nat>, all: Bits, pos: nat, op: CL.Op)
    requires Unambiguous(bl) && Used(bl, op.sym) && CL.ValidOp(op) && At(all, pos, OpBits(bl, op))
    ensures ReadSymbol(bl, all, pos) == Some(Read(op.sym, pos + bl[op.sym]))
    ensures ReadBits(all, pos + bl[op.sym], CL.ExtraBits(op.sym)) == Some(Read(op.extra, pos + |OpBits(bl, op)|))
  {
    AtSplit(all, pos, Word(bl, op.sym), ToBits(op.extra, CL.ExtraBits(op.sym)));
    ReadWord(bl, all, pos, op.sym);
    ExtraFits(op);
    ReadNumber(all, pos + bl[op.sym], op.extra, CL.ExtraBits(op.sym));
  }

  lemma {:induction false} ExpandGrows(have: seq<nat>, ops: seq<CL.Op>, limit: nat)
    requires CL.Expand(have, ops, limit).Ok?
    ensures |CL.Expand(have, ops, limit).lens| >= |have| + |ops|
    decreases |ops|
  {
    if ops != [] { ExpandGrows(CL.Apply(have, ops[0], limit).lens, ops[1..], limit); }
  }

  /** The decoder expands exactly the symbols that were sent. */
  lemma {:induction false} OpsAreRead(bl: seq<nat>, all: Bits, pos: nat, ops: seq<CL.Op>, have: seq<nat>, limit: nat)
    requires Unambiguous(bl) && UsableOps(bl, ops) && At(all, pos, OpsBits(bl, ops))
    requires CL.Expand(have, ops, limit).Ok? && |CL.Expand(have, ops, limit).lens| == limit
    ensures ReadLens(bl, all, pos, have, limit)
            == Some(Lengths(CL.Expand(have, ops, limit).lens, pos + |OpsBits(bl, ops)|))
    decreases |ops|
  {
    hide Unambiguous, ReadSymbol, ReadBits, OpBits;
    if ops != [] {
      ExpandGrows(have, ops, limit);
      var a, b := OpBits(bl, ops[0]), OpsBits(bl, ops[1..]);
      AtSplit(all, pos, a, b);
      OpIsRead(bl, all, pos, ops[0]);
      OpsAreRead(bl, all, pos + |a|, ops[1..], CL.Apply(have, ops[0], limit).lens, limit);
    }
  }

  // ---------------------------------------------------------------- the lengths of the code length code

  function Threes(v: seq<nat>): (b: Bits)
    ensures |b| == 3 * |v|
  {
    if v == [] then [] else Threes(v[..|v| - 1]) + ToBits(v[|v| - 1], 3)
  }

  lemma {:induction false} ThreesAreRead(all: Bits, pos: nat, v: seq<nat>)
    requires At(all, pos, Threes(v)) && forall i :: 0 <= i < |v| ==> v[i] < 8
    ensures ReadThrees(all, pos, |v|) == Some(Lengths(v, pos + 3 * |v|))
    decreases |v|
  {
    if v != [] {
      var k := |v| - 1;
      AtSplit(all, pos, Threes(v[..k]), ToBits(v[k], 3));
      ThreesAreRead(all, pos, v[..k]);
      assert Pow2(3) == 8;
      ReadNumber(all, pos + 3 * k, v[k], 3);
      assert v == v[..k] + [v[k]];
    }
  }

  /** The lengths in the order in which they are sent. */
  function Picked(bl: seq<nat>, order: seq<nat>, n: nat): (v: seq<nat>)
    requires n <= |order| && forall i :: 0 <= i < |order| ==> order[i] < |bl|
    ensures |v| == n && forall i :: 0 <= i < n ==> v[i] == bl[order[i]]
  {
    seq(n, i requires 0 <= i < n => bl[order[i]])
  }

  /** `order` and `inv` are inverse permutations. */
  ghost predicate Inverse(order: seq<nat>, inv: seq<nat>)
  {
    |order| == |inv| && forall i :: 0 <= i < |order| ==>
        order[i] < |order| && inv[i] < |order| && inv[order[i]] == i && order[inv[i]] == i
  }

  lemma {:induction false} PlacedAt(v: seq<nat>, order: seq<nat>, inv: seq<nat>, i: nat)
    requires |v| <= |order| && Inverse(order, inv) && i < |order|
    ensures Placed(v, order)[order[i]] == if i < |v| then v[i] else 0
    decreases |v|
  {
    if v != [] {
      var k := |v| - 1;
      PlacedAt(v[..k], order, inv, i);
      assert inv[order[k]] == k && inv[order[i]] == i;
    }
  }

  /** Lengths that are zero need not be sent. */
  lemma PlacedBack(bl: seq<nat>, order: seq<nat>, inv: seq<nat>, n: nat)
    requires Inverse(order, inv) && n <= |order| == |bl| && forall i :: n <= i < |order| ==> bl[order[i]] == 0
    ensures Placed(Picked(bl, order, n), order) == bl
  {
    var r := Placed(Picked(bl, order, n), order);
    forall s | 0 <= s < |bl| ensures r[s] == bl[s] {
      PlacedAt(Picked(bl, order, n), order, inv, inv[s]);
      assert order[inv[s]] == s;
    }
  }

  const INVERSE: seq<nat> := [3, 17, 15, 13, 11, 9, 7, 5, 4, 6, 8, 10, 12, 14, 16, 18, 0, 1, 2]

  lemma OrderIsPermutation()
    ensures Inverse(ORDER, INVERSE)
  {
    forall i | 0 <= i < 19
      ensures ORDER[i] < 19 && INVERSE[i] < 19 && INVERSE[ORDER[i]] == i && ORDER[INVERSE[i]] == i
    {
    }
  }

  // ---------------------------------------------------------------- the whole header

  /** Codes that can be sent: `bn` lengths of the code length code `bl` are enough. */
  ghost predicate Sendable(ll: seq<nat>, dl: seq<nat>, bl: seq<nat>, bn: nat)
  {
    && 257 <= |ll| <= 286 && 1 <= |dl| <= 30 && 4 <= bn <= 19 == |bl|
    && (forall i :: 0 <= i < |ll| ==> ll[i] < 16) && (forall i :: 0 <= i < |dl| ==> dl[i] < 16)
    && (forall i :: 0 <= i < |bl| ==> bl[i] < 8) && Unambiguous(bl)
    && UsableOps(bl, CL.Encode(ll) + CL.Encode(dl))
  }

  /** The lengths of the code length code beyond the `bn` first ones, in the order of sending, are zero. */
  ghost predicate Trimmed(bl: seq<nat>, order: seq<nat>, bn: nat)
  {
    forall i :: bn <= i < |order| ==> order[i] < |bl| && bl[order[i]] == 0
  }

  function CountBits(nl: nat, nd: nat, bn: nat): (b: Bits)
    requires nl >= 257 && nd >= 1 && bn >= 4
    ensures |b| == 14
  {
    ToBits(nl - 257, 5) + ToBits(nd - 1, 5) + ToBits(bn - 4, 4)
  }

  /** What `send_all_trees` sends after the counts. */
  ghost function CodeBits(ll: seq<nat>, dl: seq<nat>, bl: seq<nat>, v: seq<nat>): Bits
    requires UsableOps(bl, CL.Encode(ll) + CL.Encode(dl))
  {
    Threes(v) + OpsBits(bl, CL.Encode(ll) + CL.Encode(dl))
  }

  lemma CountsAreRead(all: Bits, pos: nat, nl: nat, nd: nat, bn: nat)
    requires 257 <= nl <= 286 && 1 <= nd <= 30 && 4 <= bn <= 19 && At(all, pos, CountBits(nl, nd, bn))
    ensures ReadCounts(all, pos) == Some(Counts(nl, nd, bn, pos + 14))
  {
    var a, b, c := ToBits(nl - 257, 5), ToBits(nd - 1, 5), ToBits(bn - 4, 4);
    AtSplit(all, pos, a + b, c);
    AtSplit(all, pos, a, b);
    assert Pow2(5) == 32 && Pow2(4) == 16;
    ReadNumber(all, pos, nl - 257, 5);
    ReadNumber(all, pos + 5, nd - 1, 5);
    ReadNumber(all, pos + 10, bn - 4, 4);
  }

  lemma LensAreRead(ll: seq<nat>, dl: seq<nat>, bl: seq<nat>, all: Bits, pos: nat, end: nat)
    requires (forall i :: 0 <= i < |ll| ==> ll[i] < 16) && (forall i :: 0 <= i < |dl| ==> dl[i] < 16) && Unambiguous(bl)
    requires UsableOps(bl, CL.Encode(ll) + CL.Encode(dl)) && At(all, pos, OpsBits(bl, CL.Encode(ll) + CL.Encode(dl)))
    requires end == pos + |OpsBits(bl, CL.Encode(ll) + CL.Encode(dl))|
    ensures ReadLens(bl, all, pos, [], |ll| + |dl|) == Some(Lengths(ll + dl, end))
  {
    CL.RoundTrip(ll, dl);
    OpsAreRead(bl, all, pos, CL.Encode(ll) + CL.Encode(dl), [], |ll| + |dl|);
  }

  /** Codes that the decoder accepts. */
  ghost predicate Acceptable(ll: seq<nat>, dl: seq<nat>, bl: seq<nat>)
  {
    && |ll| > END_BLOCK && ll[END_BLOCK] != 0
    && !IT.Refused(IT.CODES, bl) && !IT.Refused(IT.LENS, ll) && !IT.Refused(IT.DISTS, dl)
  }

  lemma LensAreSplit(ll: seq<nat>, dl: seq<nat>, pos: nat)
    requires |ll| > END_BLOCK && ll[END_BLOCK] != 0 && !IT.Refused(IT.LENS, ll) && !IT.Refused(IT.DISTS, dl)
    ensures SplitLens(|ll|, ll + dl, pos) == Some(Header(ll, dl, pos))
  {
    assert (ll + dl)[..|ll|] == ll && (ll + dl)[|ll|..] == dl;
  }

  lemma CodesFollow(ll: seq<nat>, dl: seq<nat>, bl: seq<nat>, all: Bits, pos: nat, end: nat)
    requires !IT.Refused(IT.CODES, bl) && ReadLens(bl, all, pos, [], |ll| + |dl|) == Some(Lengths(ll + dl, end))
    requires SplitLens(|ll|, ll + dl, end) == Some(Header(ll, dl, end))
    ensures CodesFrom(bl, all, pos, |ll|, |dl|) == Some(Header(ll, dl, end))
  {
  }

  lemma CodesAreRead(ll: seq<nat>, dl: seq<nat>, bl: seq<nat>, bn: nat, v: seq<nat>, all: Bits, pos: nat, end: nat)
    requires Sendable(ll, dl, bl, bn) && Acceptable(ll, dl, bl) && |v| == bn && Placed(v, ORDER) == bl
             && forall i :: 0 <= i < bn ==> v[i] < 8
    requires At(all, pos, CodeBits(ll, dl, bl, v)) && end == pos + |CodeBits(ll, dl, bl, v)|
    ensures ReadCodes(all, pos, |ll|, |dl|, bn) == Some(Header(ll, dl, end))
  {
    AtSplit(all, pos, Threes(v), OpsBits(bl, CL.Encode(ll) + CL.Encode(dl)));
    ThreesAreRead(all, pos, v);
    var p: nat := pos + 3 * bn;
    LensAreRead(ll, dl, bl, all, p, end);
    LensAreSplit(ll, dl, end);
    CodesFollow(ll, dl, bl, all, p, end);
    CodesThen(all, pos, p, |ll|, |dl|, bn, v, bl);
  }

  lemma CodesThen(all: Bits, pos: nat, p: nat, nl: nat, nd: nat, bn: nat, v: seq<nat>, bl: seq<nat>)
    requires nl <= 286 && nd <= 30 && bn <= |ORDER| && ReadThrees(all, pos, bn) == Some(Lengths(v, p))
    requires Placed(v, ORDER) == bl
    ensures ReadCodes(all, pos, nl, nd, bn) == CodesFrom(bl, all, p, nl, nd)
  {
  }

  /** Everything that `send_all_trees` sends. */
  ghost function HeaderBits(ll: seq<nat>, dl: seq<nat>, bl: seq<nat>, bn: nat): Bits
    requires Sendable(ll, dl, bl, bn)
  {
    OrderIsPermutation();
    CountBits(|ll|, |dl|, bn) + CodeBits(ll, dl, bl, Picked(bl, ORDER, bn))
  }

  /** The decoder gets both codes back. */
  lemma HeaderIsRead(ll: seq<nat>, dl: seq<nat>, bl: seq<nat>, bn: nat, all: Bits, pos: nat, end: nat)
    requires Sendable(ll, dl, bl, bn) && Acceptable(ll, dl, bl) && Trimmed(bl, ORDER, bn)
    requires At(all, pos, HeaderBits(ll, dl, bl, bn))
    requires end == pos + |HeaderBits(ll, dl, bl, bn)|
    ensures ReadHeader(all, pos) == Some(Header(ll, dl, end))
  {
    var v := SentLengths(bl, bn);
    HeaderFrom(ll, dl, bl, bn, v, all, pos, end);
  }

  lemma SentLengths(bl: seq<nat>, bn: nat) returns (v: seq<nat>)
    requires bn <= 19 == |bl| && Trimmed(bl, ORDER, bn) && forall i :: 0 <= i < |bl| ==> bl[i] < 8
    ensures Inverse(ORDER, INVERSE) && v == Picked(bl, ORDER, bn) && Placed(v, ORDER) == bl
            && forall i :: 0 <= i < bn ==> v[i] < 8
  {
    OrderIsPermutation();
    v := SentInOrder(bl, ORDER, INVERSE, bn);
  }

  lemma SentInOrder(bl: seq<nat>, order: seq<nat>, inv: seq<nat>, bn: nat) returns (v: seq<nat>)
    requires bn <= |order| == |bl| && Trimmed(bl, order, bn) && Inverse(order, inv) && forall i :: 0 <= i < |bl| ==>
             bl[i] < 8
    ensures v == Picked(bl, order, bn) && Placed(v, order) == bl && forall i :: 0 <= i < bn ==> v[i] < 8
  {
    v := Picked(bl, order, bn);
    PlacedBack(bl, order, inv, bn);
  }

  lemma HeaderFrom(ll: seq<nat>, dl: seq<nat>, bl: seq<nat>, bn: nat, v: seq<nat>, all: Bits, pos: nat, end: nat)
    requires Sendable(ll, dl, bl, bn) && Acceptable(ll, dl, bl) && |v| == bn && Placed(v, ORDER) == bl
             && forall i :: 0 <= i < bn ==> v[i] < 8
    requires At(all, pos, CountBits(|ll|, |dl|, bn) + CodeBits(ll, dl, bl, v))
    requires end == pos + |CountBits(|ll|, |dl|, bn) + CodeBits(ll, dl, bl, v)|
    ensures ReadHeader(all, pos) == Some(Header(ll, dl, end))
  {
    AtSplit(all, pos, CountBits(|ll|, |dl|, bn), CodeBits(ll, dl, bl, v));
    CountsAreRead(all, pos, |ll|, |dl|, bn);
    CodesAreRead(ll, dl, bl, bn, v, all, pos + 14, end);
  }
}

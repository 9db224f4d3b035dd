/**
  * Counting code lengths: the array `bl_count` of dep/zlib/trees.c, and the repair of an over-subscribed set of
  * counts.
  */
module LengthCounts {
  import opened Arith
  import opened Optimal

  const MAX_BITS: nat := 15

  /** The code space taken by the counts of the lengths `1 .. b`, in units of 2^-m. */
  function Space(bl: seq<nat>, m: nat, b: nat): nat
    requires b <= m < |bl|
  {
    if b == 0 then 0 else Space(bl, m, b - 1) + Shl(bl[b], m - b)
  }

  /** The number of codes with a length in `1 .. b`. */
  function Total(bl: seq<nat>, b: nat): nat
    requires b < |bl|
  {
    if b == 0 then 0 else Total(bl, b - 1) + bl[b]
  }

  lemma {:induction false} SpaceFrame(bl: seq<nat>, bl': seq<nat>, m: nat, b: nat)
    requires b <= m < |bl| && m < |bl'| && forall j :: 1 <= j <= b ==> bl[j] == bl'[j]
    ensures Space(bl, m, b) == Space(bl', m, b) && Total(bl, b) == Total(bl', b)
  {
    if b != 0 { SpaceFrame(bl, bl', m, b - 1); }
  }

  /** One more code of length `l`. */
  lemma {:induction false} SpaceAdd(bl: seq<nat>, bl': seq<nat>, m: nat, b: nat, l: nat)
    requires 1 <= l <= b <= m < |bl| && |bl'| == |bl| && bl'[l] == bl[l] + 1
    requires forall j :: 1 <= j <= b && j != l ==> bl'[j] == bl[j]
    ensures Space(bl', m, b) == Space(bl, m, b) + Pow2(m - l) && Total(bl', b) == Total(bl, b) + 1
  {
    if b == l {
      SpaceFrame(bl, bl', m, b - 1);
      ShlAdd(bl[l], 1, m - l);
      ShlOne(m - l);
    } else {
      SpaceAdd(bl, bl', m, b - 1, l);
    }
  }

  /** If only the longest length occurs, every code takes one unit. */
  lemma {:induction false} OnlyLongest(bl: seq<nat>, m: nat, b: nat)
    requires b < m < |bl| && forall j :: 1 <= j <= b ==> bl[j] == 0
    ensures Space(bl, m, b) == 0 && Total(bl, b) == 0
  {
    if b != 0 {
      OnlyLongest(bl, m, b - 1);
      ShlOne(m - b);
    }
  }

  /** Moving one leaf down a level, with an overflowing one as its brother, frees one unit. */
  lemma RepairStep(bl: seq<nat>, bl': seq<nat>, m: nat, b: nat)
    requires 1 <= b < m < |bl| == |bl'| && bl[b] > 0 && bl[m] > 0
    requires forall j :: 1 <= j <= m && j != b && j != b + 1 && j != m ==> bl'[j] == bl[j]
    requires bl'[b] == bl[b] - 1
    requires b + 1 < m ==> bl'[b + 1] == bl[b + 1] + 2 && bl'[m] == bl[m] - 1
    requires b + 1 == m ==> bl'[m] == bl[m] + 1
    ensures Space(bl', m, m) + 1 == Space(bl, m, m) && Total(bl', m) == Total(bl, m)
  {
    var n: nat := bl[b] - 1;
    var x := bl[b := n];
    SpaceAdd(x, bl, m, m, b);
    if b + 1 == m {
      SpaceAdd(x, bl', m, m, m);
      assert Pow2(m - b) == 2 * Pow2(0);
    } else {
      var k, l: nat := bl[b + 1] + 1, bl[m] - 1;
      var y := x[m := l];
      SpaceAdd(y, x, m, m, m);
      var z := y[b + 1 := k];
      SpaceAdd(y, z, m, m, b + 1);
      SpaceAdd(z, bl', m, m, b + 1);
      assert Pow2(m - b) == 2 * Pow2(m - b - 1);
    }
  }

  /** The longest length below `m` that has a code; 0 if there is none. */
  function LastBelow(bl: seq<nat>, m: nat): (b: nat)
    requires m <= |bl|
    ensures b == 0 || (b < m && bl[b] != 0)
    ensures forall j :: b < j < m ==> bl[j] == 0
  {
    if m <= 1 then 0 else if bl[m - 1] != 0 then m - 1 else LastBelow(bl, m - 1)
  }

  /**
    * The longest leaf that is not at the bottom moves down a level, and one leaf from the bottom becomes its brother.
    */
  function MoveDown(bl: seq<nat>, m: nat): (r: seq<nat>)
    requires m < |bl|
    ensures |r| == |bl|
  {
    var b := LastBelow(bl, m);
    if b == 0 || bl[m] == 0 then bl
    else
      var c := bl[b := bl[b] - 1];
      var d := c[b + 1 := c[b + 1] + 2];
      d[m := d[m] - 1]
  }

  /** The counts after `n` such moves. */
  function Moved(bl: seq<nat>, m: nat, n: nat): (r: seq<nat>)
    requires m < |bl|
    ensures |r| == |bl|
  {
    if n == 0 then bl else MoveDown(Moved(bl, m, n - 1), m)
  }

  /** The longest length below `m` that still has a code. */
  method FindShorter(blCount: array<nat>, m: nat) returns (bits: nat)
    requires 2 <= m < blCount.Length && blCount[0] == 0
    requires exists j :: 1 <= j < m && blCount[j] != 0
    ensures 1 <= bits < m && bits == LastBelow(blCount[..], m)
  {
    bits := m - 1;
    while blCount[bits] == 0
      invariant 1 <= bits < m && exists j :: 1 <= j <= bits && blCount[j] != 0
      invariant LastBelow(blCount[..], m) == LastBelow(blCount[..], bits + 1)
      decreases bits
    {
      bits := bits - 1;
    }
  }

  lemma SomeShorter(bl: seq<nat>, m: nat)
    requires 1 <= m < |bl| && Space(bl, m, m) > Pow2(m) && Total(bl, m) <= Pow2(m)
    ensures exists j :: 1 <= j < m && bl[j] != 0
  {
    if forall j :: 1 <= j < m ==> bl[j] == 0 {
      OnlyLongest(bl, m, m - 1);
    }
  }

  lemma MovedNone(bl: seq<nat>, m: nat)
    requires m < |bl|
    ensures Moved(bl, m, 0) == bl
  {
  }

  lemma MovedNext(bl0: seq<nat>, m: nat, n: nat, bl: seq<nat>, bl': seq<nat>, b: nat)
    requires m < |bl0| && bl == Moved(bl0, m, n) && |bl'| == |bl| && b == LastBelow(bl, m) && 1 <= b < m && bl[m] > 0
    requires forall j :: 0 <= j < |bl| && j != b && j != b + 1 && j != m ==> bl'[j] == bl[j]
    requires bl'[b] == bl[b] - 1
    requires b + 1 < m ==> bl'[b + 1] == bl[b + 1] + 2 && bl'[m] == bl[m] - 1
    requires b + 1 == m ==> bl'[m] == bl[m] + 1
    ensures Moved(bl0, m, n + 1) == bl'
  {
    assert MoveDown(bl, m) == bl';
  }

  /** Repairs the counts until the code is complete; the number of codes stays the same. */
  method Repair(blCount: array<nat>, m: nat, overflow0: int)
    requires 2 <= m < blCount.Length && blCount[0] == 0 && overflow0 > 0
    requires 2 * Space(blCount[..], m, m) == 2 * Pow2(m) + overflow0
    requires 2 * blCount[m] >= overflow0 + 2 && Total(blCount[..], m) <= Pow2(m)
    modifies blCount
    ensures blCount[0] == 0 && Space(blCount[..], m, m) == Pow2(m)
    ensures Total(blCount[..], m) == old(Total(blCount[..], m))
    ensures forall j :: m < j < blCount.Length ==> blCount[j] == old(blCount[j])
    ensures blCount[..] == Moved(old(blCount[..]), m, overflow0 / 2)
  {
    hide Space, Total, Pow2, Moved, MoveDown;
    var overflow := overflow0;
    ghost var n: nat := 0;
    MovedNone(blCount[..], m);
    while overflow > 0
      invariant 0 <= overflow && blCount[0] == 0
      invariant 2 * Space(blCount[..], m, m) == 2 * Pow2(m) + overflow
      invariant overflow > 0 ==> 2 * blCount[m] >= overflow + 2
      invariant Total(blCount[..], m) == old(Total(blCount[..], m))
      invariant forall j :: m < j < blCount.Length ==> blCount[j] == old(blCount[j])
      invariant overflow0 == overflow + 2 * n && blCount[..] == Moved(old(blCount[..]), m, n)
    {
      ghost var bl := blCount[..];
      SomeShorter(bl, m);
      assert exists j :: 1 <= j < m && blCount[j] != 0 by {
        var j :| 1 <= j < m && bl[j] != 0;
        assert blCount[j] != 0;
      }
      var bits := FindShorter(blCount, m);
      blCount[bits] := blCount[bits] - 1;
      blCount[bits + 1] := blCount[bits + 1] + 2;
      blCount[m] := blCount[m] - 1;
      RepairStep(bl, blCount[..], m, bits);
      MovedNext(old(blCount[..]), m, n, bl, blCount[..], bits);
      overflow, n := overflow - 2, n + 1;
    }
  }
}

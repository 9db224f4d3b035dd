/**
  * The construction of a decoding table (function `inflate_table` of dep/zlib/inftrees.c), step by step.
  */
module TableBuilder {
  import opened Arith
  import opened Canonical
  import opened InflateTable
  import opened TableSize

  // ---------------------------------------------------------------- writing entries

  /** `u` is `t` with `here` at every index of the table at `base` whose low `l` bits are `h`. */
  ghost predicate Written(t: seq<Entry>, u: seq<Entry>, base: nat, curr: nat, l: nat, h: nat, here: Entry)
  {
    && |u| == |t|
    && forall x :: 0 <= x < |t| ==>
         u[x] == if base <= x < base + Pow2(curr) && Low(x - base, l) == h then here else t[x]
  }

  lemma LowStep(x: nat, l: nat, h: nat, fill: nat, m: nat)
    requires h < Pow2(l) && fill == Shl(m, l)
    requires fill <= x < fill + Pow2(l)
    ensures Low(x, l) == h <==> x == fill + h
  {
    Concat(x - fill, m, l);
  }

  /** Replicates `here` over all indices with low `l` bits `h`, from the last one down. */
  method Replicate(table: array<Entry>, base: nat, curr: nat, l: nat, h: nat, here: Entry)
    requires l <= curr && h < Pow2(l) && base + Pow2(curr) <= table.Length
    modifies table
    ensures Written(old(table[..]), table[..], base, curr, l, h, here)
  {
    var incr, fill := Pow2(l), Pow2(curr);
    ghost var m := Pow2(curr - l);
    ShlOne(curr - l);
    ShlShl(1, curr - l, l);
    ShlOne(curr);
    while fill != 0
      invariant fill <= Pow2(curr) && fill == Shl(m, l)
      invariant forall x :: 0 <= x < table.Length ==>
        table[x] == if base + fill <= x < base + Pow2(curr) && Low(x - base, l) == h
                    then here else old(table[x])
    {
      if m == 0 { ShlOne(l); }
      ShlAdd(m - 1, 1, l);
      ShlOne(l);
      fill, m := fill - incr, m - 1;
      forall x | fill <= x < fill + incr
        ensures Low(x, l) == h <==> x == fill + h
      {
        LowStep(x, l, h, fill, m);
      }
      table[base + h + fill] := here;
    }
  }

  // ---------------------------------------------------------------- stepping through the codes

  /** Adds one to a code stored with its first bit lowest. */
  method BackIncrement(huff: nat, len: nat, ghost c: nat) returns (h: nat)
    requires len >= 1 && huff == Rev(c, len)
    ensures h == Rev(c + 1, len)
  {
    hide Low, High;
    var t := len;                       // incr is 1 << (t - 1), or 0 when t is 0
    ghost var d := c;
    RevBound(c, len);
    LowSmall(huff, len);
    while t != 0 && High(huff, t - 1) % 2 == 1
      invariant t <= len
      invariant Low(huff, t) == Rev(d, t) && Rev(c + 1, len) == Rev(d + 1, t)
    {
      TopBit(huff, t, d);
      t, d := t - 1, d / 2;
    }
    if t != 0 {
      TopBit(huff, t, d);
      h := Low(huff, t - 1) + Pow2(t - 1);
    } else {
      h := 0;
    }
  }

  lemma TopBit(huff: nat, t: nat, d: nat)
    requires t >= 1 && Low(huff, t) == Rev(d, t)
    ensures High(huff, t - 1) % 2 == d % 2
    ensures Low(huff, t - 1) == Rev(d / 2, t - 1)
  {
    HighLow(huff, t - 1, t);
    assert Low(High(huff, t - 1), 1) == High(huff, t - 1) % 2 + 2 * Low(High(huff, t - 1) / 2, 0);
    RevHighBits(d, t, 1);
    assert Rev(d, 1) == (if d % 2 == 1 then Pow2(0) else 0) + Rev(d / 2, 0);
    LowLow(huff, t - 1, t);
    RevBound(d / 2, t - 1);
    LowSmall(Rev(d / 2, t - 1), t - 1);
    AddPow(Rev(d / 2, t - 1), t - 1, t - 1);
  }

  lemma {:induction false} SkipEmpty(lens: seq<nat>, l: nat, m: nat)
    requires 1 <= l <= m <= MAXBITS + 1
    requires forall j :: l <= j < m ==> Count(lens, j) == 0
    ensures Start(lens, l) == Start(lens, m) && Offs(lens, l) == Offs(lens, m)
    decreases m
  {
    if l < m {
      SkipEmpty(lens, l, m - 1);
      ShlOne(MAXBITS + 1 - m);
    }
  }

  // ---------------------------------------------------------------- counting, checking and sorting

  method CountLengths(lens: seq<nat>) returns (count: array<nat>)
    requires ValidLens(lens)
    ensures fresh(count) && count.Length == MAXBITS + 1
    ensures forall l :: 0 <= l <= MAXBITS ==> count[l] == Count(lens, l)
  {
    count := new nat[MAXBITS + 1](i => 0);
    for sym := 0 to |lens|
      invariant forall l :: 0 <= l <= MAXBITS ==> count[l] == Cnt(lens, sym, l)
    {
      count[lens[sym]] := count[lens[sym]] + 1;
    }
  }

  /** How much of the code space is unused, in units of 2^-15; negative when it is over-subscribed. */
  method SpaceLeft(lens: seq<nat>, count: array<nat>) returns (left: int)
    requires count.Length == MAXBITS + 1
    requires forall l :: 0 <= l <= MAXBITS ==> count[l] == Count(lens, l)
    ensures left < 0 <==> Kraft(lens) > Pow2(MAXBITS)
    ensures left >= 0 ==> left == Pow2(MAXBITS) - Kraft(lens)
  {
    hide Pow2, Count;
    left := 1;
    ShlOne(MAXBITS);
    for len := 1 to MAXBITS + 1
      invariant left >= 0 && Shl(left, MAXBITS + 1 - len) + Start(lens, len) == Pow2(MAXBITS)
    {
      SpaceStep(lens, left, len);
      left := 2 * left - count[len];
      if left < 0 {
        StartMono(lens, len + 1, MAXBITS + 1);
        return;
      }
    }
  }

  lemma SpaceStep(lens: seq<nat>, left: nat, len: nat)
    requires 1 <= len <= MAXBITS
    ensures var total := Shl(left, MAXBITS + 1 - len) + Start(lens, len);
            var left' := 2 * left - Count(lens, len);
            if left' < 0 then Start(lens, len + 1) > total
            else Shl(left', MAXBITS - len) + Start(lens, len + 1) == total
  {
    var n, c := MAXBITS - len, Count(lens, len);
    ShlAdd(left, left, n);
    if 2 * left < c {
      ShlMono(2 * left + 1, c, n);
      ShlAdd(2 * left, 1, n);
      ShlOne(n);
    } else {
      ShlAdd(2 * left - c, c, n);
    }
  }

  /** The slot of a symbol in the order by length, then by symbol. */
  function Slot(lens: seq<nat>, i: nat): nat
    requires Used(lens, i)
  {
    Offs(lens, lens[i]) + Rank(lens, i)
  }

  lemma SlotDistinct(lens: seq<nat>, i: nat, j: nat)
    requires Used(lens, i) && Used(lens, j) && i < j
    ensures Slot(lens, i) != Slot(lens, j)
  {
    CntMono(lens, i, |lens|, lens[i]);
    CntMono(lens, j, |lens|, lens[j]);
    if lens[i] < lens[j] { StartMono(lens, lens[i] + 1, lens[j]); }
    else if lens[i] > lens[j] { StartMono(lens, lens[j] + 1, lens[i]); }
    else { CntMono(lens, i, j, lens[i]); }
  }

  lemma SlotBound(lens: seq<nat>, i: nat)
    requires Used(lens, i)
    ensures Slot(lens, i) < |lens|
  {
    CntMono(lens, i, |lens|, lens[i]);
    OffsIsUpTo(lens, lens[i] + 1);
    OffsUpToBound(lens, |lens|, lens[i] + 1);
  }

  ghost predicate Sorted(lens: seq<nat>, work: seq<nat>)
  {
    |work| == |lens| &&
    forall i: nat :: Used(lens, i) ==> Slot(lens, i) < |work| && work[Slot(lens, i)] == i
  }

  /** Sorts the used symbols by length, by symbol within each length. */
  method SortSymbols(lens: seq<nat>, count: array<nat>) returns (work: array<nat>)
    requires ValidLens(lens) && count.Length == MAXBITS + 1
    requires forall l :: 0 <= l <= MAXBITS ==> count[l] == Count(lens, l)
    ensures fresh(work) && Sorted(lens, work[..])
  {
    var offs := new nat[MAXBITS + 2](i => 0);
    for len := 1 to MAXBITS
      invariant forall l {:trigger Offs(lens, l)} :: 1 <= l <= len ==> offs[l] == Offs(lens, l)
    {
      offs[len + 1] := offs[len] + count[len];
    }
    work := new nat[|lens|](i => 0);
    for sym := 0 to |lens|
      invariant forall l {:trigger Offs(lens, l)} {:trigger Cnt(lens, sym, l)} ::
        1 <= l <= MAXBITS ==> offs[l] == Offs(lens, l) + Cnt(lens, sym, l)
      invariant forall i: nat :: i < sym && Used(lens, i) ==> Slot(lens, i) < |lens| && work[Slot(lens, i)] == i
    {
      if lens[sym] != 0 {
        SlotBound(lens, sym);
        forall i: nat | i < sym && Used(lens, i)
          ensures Slot(lens, i) != Slot(lens, sym)
        {
          SlotDistinct(lens, i, sym);
        }
        work[offs[lens[sym]]] := sym;
        offs[lens[sym]] := offs[lens[sym]] + 1;
      }
    }
  }

  /** The symbol at a given length and rank. */
  lemma SymbolAt(lens: seq<nat>, work: seq<nat>, l: nat, r: nat)
    requires Sorted(lens, work) && 1 <= l <= MAXBITS && r < Count(lens, l)
    ensures Offs(lens, l) + r < |work|
    ensures var k := work[Offs(lens, l) + r]; Used(lens, k) && lens[k] == l && Pos(lens, k) == At(lens, l, r)
  {
    var i := FindRank(lens, |lens|, l, r);
    assert Slot(lens, i) == Offs(lens, l) + r;
  }

  // ---------------------------------------------------------------- entering one code

  lemma KeepRoot(lens: seq<nat>, t: seq<Entry>, u: seq<Entry>, root: nat, used: nat, k: nat, i: nat, op: nat, val: nat,
                 here: Entry)
    requires Used(lens, k) && Used(lens, i) && i != k && lens[k] <= root && lens[i] <= root
    requires Kraft(lens) <= Pow2(MAXBITS) && Pow2(root) <= used <= |t|
    requires Filled(t, root, used, lens[i], Huff(lens, i), op, val)
    requires Written(t, u, 0, root, lens[k], Huff(lens, k), here)
    ensures Filled(u, root, used, lens[i], Huff(lens, i), op, val)
  {
    forall x: nat | x < Pow2(root) && Low(x, lens[i]) == Huff(lens, i)
      ensures u[x] == t[x]
    {
      NoClash(lens, i, k, x);
    }
  }

  /** A word is determined by its low bits and the rest. */
  lemma LowJoin(x: nat, root: nat, l: nat, h: nat)
    requires root <= l && Low(x, root) == Low(h, root) && Low(High(x, root), l - root) == High(h, root)
    ensures Low(x, l) == h
  {
    Split(h, root);
    Split(Low(x, l), root);
    LowLow(x, root, l);
    HighLow(x, root, l);
  }

  lemma SameSubTable(lens: seq<nat>, t: seq<Entry>, u: seq<Entry>, root: nat, e: Entry, k: nat, i: nat, op: nat,
                     val: nat, here: Entry)
    requires Used(lens, k) && Used(lens, i) && i != k && lens[k] > root && lens[i] > root
    requires Kraft(lens) <= Pow2(MAXBITS) && e.val + Pow2(e.op) <= |t|
    requires Low(Huff(lens, i), root) == Low(Huff(lens, k), root)
    requires SubFilled(t, e, lens[i] - root, High(Huff(lens, i), root), op, val)
    requires Written(t, u, e.val, e.op, lens[k] - root, High(Huff(lens, k), root), here)
    ensures SubFilled(u, e, lens[i] - root, High(Huff(lens, i), root), op, val)
  {
    forall z | e.val <= z < e.val + Pow2(e.op) && Low(z - e.val, lens[i] - root) == High(Huff(lens, i), root)
      ensures u[z] == t[z]
    {
      NoSubClash(lens, i, k, root, z - e.val);
    }
  }

  lemma NoSubClash(lens: seq<nat>, i: nat, k: nat, root: nat, y: nat)
    requires Used(lens, k) && Used(lens, i) && i != k && lens[k] > root && lens[i] > root
    requires Kraft(lens) <= Pow2(MAXBITS)
    requires Low(Huff(lens, i), root) == Low(Huff(lens, k), root)
    ensures !(Low(y, lens[i] - root) == High(Huff(lens, i), root)
              && Low(y, lens[k] - root) == High(Huff(lens, k), root))
  {
    var low := Low(Huff(lens, k), root);
    var x := low + Shl(y, root);
    LowBound(Huff(lens, k), root);
    Concat(low, y, root);
    NoClash(lens, i, k, x);
    if Low(y, lens[i] - root) == High(Huff(lens, i), root) { LowJoin(x, root, lens[i], Huff(lens, i)); }
    if Low(y, lens[k] - root) == High(Huff(lens, k), root) { LowJoin(x, root, lens[k], Huff(lens, k)); }
  }

  /** Writing outside what a code uses leaves it in place. */
  lemma Untouched(t: seq<Entry>, u: seq<Entry>, root: nat, used: nat, next: nat, l: nat, h: nat, op: nat, val: nat)
    requires Pow2(root) <= next <= used <= |t| && |u| == |t|
    requires Filled(t, root, used, l, h, op, val)
    requires l > root ==> (LowBound(h, root); Linked(t, root, next, Low(h, root)))
    requires forall x :: 0 <= x < next ==> u[x] == t[x]
    ensures Filled(u, root, used, l, h, op, val)
  {
    LowBound(h, root);
  }

  ghost predicate CurrentTable(t: seq<Entry>, root: nat, used: nat, next: nat, curr: nat, low: int)
  {
    && Pow2(root) <= used == next + Pow2(curr) <= |t|
    && (low < 0 ==> next == 0 && curr == root)
    && (low >= 0 ==> low < Pow2(root) <= next && 0 < curr < 16 && t[low] == Entry(curr, root, next))
  }

  /** Every sub-table entered so far, except the one behind `low`, ends at or before `next`. */
  ghost predicate OthersBelow(lens: seq<nat>, t: seq<Entry>, root: nat, next: nat, low: int, pos: nat)
    requires low >= 0 ==> Pow2(root) <= next <= |t|
  {
    forall i: nat :: Used(lens, i) && Pos(lens, i) < pos && lens[i] > root ==>
      && low >= 0
      && (LowBound(Huff(lens, i), root);
          Low(Huff(lens, i), root) != low ==> Linked(t, root, next, Low(Huff(lens, i), root)))
  }

  ghost predicate Tables(kind: Kind, lens: seq<nat>, t: seq<Entry>, root: nat, used: nat, next: nat, curr: nat,
                         low: int, pos: nat)
    requires |lens| <= MaxSymbols(kind)
  {
    && CurrentTable(t, root, used, next, curr, low)
    && OthersBelow(lens, t, root, next, low, pos)
    && Entered(kind, lens, t, root, used, pos)
  }

  /** Whether code `k` belongs into the current table. */
  ghost predicate Fits(lens: seq<nat>, k: nat, root: nat, curr: nat, low: int)
    requires Used(lens, k)
  {
    if low < 0 then lens[k] <= root
    else root < lens[k] <= root + curr && Low(Huff(lens, k), root) == low
  }

  lemma OnlyOneAt(lens: seq<nat>, k: nat, i: nat)
    requires Used(lens, k) && Used(lens, i) && Pos(lens, k) <= Pos(lens, i) < Pos(lens, k) + Size(lens[k])
    ensures i == k
  {
    UniqueSymbol(lens, i, k, Pos(lens, i));
  }

  lemma KeptCode(kind: Kind, lens: seq<nat>, t: seq<Entry>, u: seq<Entry>, root: nat, used: nat, next: nat, curr: nat,
                 low: int, k: nat, i: nat, here: Entry)
    requires |lens| <= MaxSymbols(kind) && Kraft(lens) <= Pow2(MAXBITS) && Used(lens, k) && Used(lens, i) && i != k
    requires Tables(kind, lens, t, root, used, next, curr, low, Pos(lens, k)) && Pos(lens, i) < Pos(lens, k)
    requires Fits(lens, k, root, curr, low)
    requires low < 0 ==> Written(t, u, 0, root, lens[k], Huff(lens, k), here)
    requires low >= 0 ==> Written(t, u, next, curr, lens[k] - root, High(Huff(lens, k), root), here)
    ensures Filled(u, root, used, lens[i], Huff(lens, i), SymbolOp(kind, i), SymbolVal(kind, i))
  {
    var op, val, h := SymbolOp(kind, i), SymbolVal(kind, i), Huff(lens, i);
    LowBound(h, root);
    if low < 0 {
      KeepRoot(lens, t, u, root, used, k, i, op, val, here);
    } else if lens[i] <= root || Low(h, root) != low {
      Untouched(t, u, root, used, next, lens[i], h, op, val);
    } else {
      SameSubTable(lens, t, u, root, t[low], k, i, op, val, here);
      assert u[low] == t[low];
    }
  }

  lemma NewCode(t: seq<Entry>, u: seq<Entry>, root: nat, used: nat, next: nat, curr: nat, low: int, l: nat, h: nat,
                op: nat, val: nat)
    requires CurrentTable(t, root, used, next, curr, low)
    requires if low < 0 then l <= root else root < l <= root + curr && Low(h, root) == low
    requires low < 0 ==> Written(t, u, 0, root, l, h, Entry(op, l, val))
    requires low >= 0 ==> Written(t, u, next, curr, l - root, High(h, root), Entry(op, l - root, val))
    ensures Pow2(root) <= used <= |u|
    ensures Filled(u, root, used, l, h, op, val)
  {
    LowBound(h, root);
    if low >= 0 { assert u[low] == t[low]; }
  }

  /** Creates the table entries of code `k` in the current table. */
  method EnterCode(kind: Kind, lens: seq<nat>, table: array<Entry>, ghost root: nat, ghost used: nat, next: nat,
                   curr: nat, ghost low: int, drop: nat, len: nat, huff: nat, k: nat)
    requires |lens| <= MaxSymbols(kind) && Kraft(lens) <= Pow2(MAXBITS) && Used(lens, k)
    requires len == lens[k] && huff == Huff(lens, k) && drop == (if low < 0 then 0 else root)
    requires Tables(kind, lens, table[..], root, used, next, curr, low, Pos(lens, k))
    requires Fits(lens, k, root, curr, low)
    modifies table
    ensures Tables(kind, lens, table[..], root, used, next, curr, low, Pos(lens, k) + Size(len))
  {
    ghost var t := table[..];
    var here := SymbolEntry(kind, k, len - drop);
    HuffIsRevCode(lens, k);
    ShiftBound(huff, drop, len);
    Replicate(table, next, curr, len - drop, High(huff, drop), here);
    ghost var u := table[..];
    EnteredOne(kind, lens, t, u, root, used, next, curr, low, k);
  }

  lemma {:induction false} ShiftBound(h: nat, d: nat, l: nat)
    requires d <= l && h < Pow2(l)
    ensures High(h, d) < Pow2(l - d)
  {
    if d != 0 { ShiftBound(h / 2, d - 1, l - 1); }
  }

  lemma EnteredAll(kind: Kind, lens: seq<nat>, t: seq<Entry>, u: seq<Entry>, root: nat, used: nat, next: nat, curr: nat,
                   low: int, k: nat, here: Entry)
    requires |lens| <= MaxSymbols(kind) && Kraft(lens) <= Pow2(MAXBITS) && Used(lens, k)
    requires Tables(kind, lens, t, root, used, next, curr, low, Pos(lens, k))
    requires Fits(lens, k, root, curr, low)
    requires here == Entry(SymbolOp(kind, k), lens[k] - (if low < 0 then 0 else root), SymbolVal(kind, k))
    requires low < 0 ==> Written(t, u, 0, root, lens[k], Huff(lens, k), here)
    requires low >= 0 ==> Written(t, u, next, curr, lens[k] - root, High(Huff(lens, k), root), here)
    ensures Entered(kind, lens, u, root, used, Pos(lens, k) + Size(lens[k]))
  {
    hide Pos, Size, Huff, SymbolOp, SymbolVal, Kraft, Filled, High, Written, Low;
    NewCode(t, u, root, used, next, curr, low, lens[k], Huff(lens, k), SymbolOp(kind, k), SymbolVal(kind, k));
    var pos := Pos(lens, k) + Size(lens[k]);
    forall i: nat | Used(lens, i) && Pos(lens, i) < pos
      ensures Filled(u, root, used, lens[i], Huff(lens, i), SymbolOp(kind, i), SymbolVal(kind, i))
    {
      if Pos(lens, k) <= Pos(lens, i) { OnlyOneAt(lens, k, i); }
      else { KeptCode(kind, lens, t, u, root, used, next, curr, low, k, i, here); }
    }
  }

  lemma EnteredOne(kind: Kind, lens: seq<nat>, t: seq<Entry>, u: seq<Entry>, root: nat, used: nat, next: nat, curr: nat,
                   low: int, k: nat)
    requires |lens| <= MaxSymbols(kind) && Kraft(lens) <= Pow2(MAXBITS) && Used(lens, k)
    requires Tables(kind, lens, t, root, used, next, curr, low, Pos(lens, k))
    requires Fits(lens, k, root, curr, low)
    requires var op, val := SymbolOp(kind, k), SymbolVal(kind, k);
             && (low < 0 ==> Written(t, u, 0, root, lens[k], Huff(lens, k), Entry(op, lens[k], val)))
             && (low >= 0 ==> Written(t, u, next, curr, lens[k] - root, High(Huff(lens, k), root),
                                      Entry(op, lens[k] - root, val)))
    ensures Tables(kind, lens, u, root, used, next, curr, low, Pos(lens, k) + Size(lens[k]))
  {
    hide Pos, Size, Huff, SymbolOp, SymbolVal, Kraft, Filled, OthersBelow, Entered, High, Low;
    var op, val := SymbolOp(kind, k), SymbolVal(kind, k);
    var here := Entry(op, lens[k] - (if low < 0 then 0 else root), val);
    if low >= 0 { assert u[low] == t[low]; }
    EnteredAll(kind, lens, t, u, root, used, next, curr, low, k, here);
    StillBelow(lens, t, u, root, next, curr, low, k, here);
  }

  lemma StillBelow(lens: seq<nat>, t: seq<Entry>, u: seq<Entry>, root: nat, next: nat, curr: nat, low: int, k: nat,
                   here: Entry)
    requires Used(lens, k) && Fits(lens, k, root, curr, low) && |u| == |t|
    requires low >= 0 ==>
             Pow2(root) <= next <= |t|
             && Written(t, u, next, curr, lens[k] - root, High(Huff(lens, k), root), here)
    requires OthersBelow(lens, t, root, next, low, Pos(lens, k))
    ensures OthersBelow(lens, u, root, next, low, Pos(lens, k) + Size(lens[k]))
  {
    forall i: nat | Used(lens, i) && Pos(lens, i) < Pos(lens, k) + Size(lens[k]) && lens[i] > root
      ensures && low >= 0
              && (LowBound(Huff(lens, i), root);
                  Low(Huff(lens, i), root) != low ==> Linked(u, root, next, Low(Huff(lens, i), root)))
    {
      LowBound(Huff(lens, i), root);
      if Pos(lens, k) <= Pos(lens, i) { OnlyOneAt(lens, k, i); }
      else if Low(Huff(lens, i), root) != low {
        assert Linked(t, root, next, Low(Huff(lens, i), root));
        assert u[Low(Huff(lens, i), root)] == t[Low(Huff(lens, i), root)];
      }
    }
  }

  // ---------------------------------------------------------------- moving to the next code

  /** The loop variables stand at the code of length `len` and rank `r`. */
  ghost predicate Cursor(lens: seq<nat>, count: seq<nat>, max: nat, len: nat, r: nat, sym: nat, huff: nat)
  {
    && |count| == MAXBITS + 1 && 1 <= len <= max <= MAXBITS
    && r < Count(lens, len) && sym == Offs(lens, len) + r
    && huff == Rev(At(lens, len, r), MAXBITS)
    && count[len] == Count(lens, len) - r
    && forall l :: len < l <= MAXBITS ==> count[l] == Count(lens, l)
  }

  ghost predicate Longest(lens: seq<nat>, max: nat)
  {
    1 <= max <= MAXBITS && Count(lens, max) > 0 && forall l :: max < l <= MAXBITS ==> Count(lens, l) == 0
  }

  lemma {:induction false} NextLength(lens: seq<nat>, l: nat, max: nat) returns (m: nat)
    requires 1 <= l <= max <= MAXBITS && Count(lens, max) > 0
    ensures l <= m <= max && Count(lens, m) > 0 && Start(lens, m) == Start(lens, l) && Offs(lens, m) == Offs(lens, l)
    decreases max - l
  {
    if Count(lens, l) > 0 { m := l; }
    else {
      m := NextLength(lens, l + 1, max);
      ShlOne(MAXBITS - l);
    }
  }

  lemma HuffNext(lens: seq<nat>, l: nat, r: nat)
    requires 1 <= l <= MAXBITS && r < Count(lens, l)
    ensures At(lens, l, r + 1) == At(lens, l, r) + Size(l)
    ensures r + 1 == Count(lens, l) ==> At(lens, l, r) + Size(l) == Start(lens, l + 1)
    ensures Rev(At(lens, l, r), MAXBITS) == Rev(NextCode(lens, l) + r, l)
    ensures Rev(At(lens, l, r) + Size(l), MAXBITS) == Rev(NextCode(lens, l) + r + 1, l)
  {
    AtNext(lens, l, r);
    AtIsShl(lens, l, r);
    AtIsShl(lens, l, r + 1);
  }

  method Advance(lens: seq<nat>, count: array<nat>, work: array<nat>, max: nat, len: nat, sym: nat, huff: nat,
                 ghost r: nat)
    returns (more: bool, len': nat, sym': nat, huff': nat, ghost r': nat)
    requires Sorted(lens, work[..]) && Longest(lens, max) && count != work
    requires Cursor(lens, count[..], max, len, r, sym, huff)
    modifies count
    ensures !more ==>
            At(lens, len, r) + Size(len) == Kraft(lens) && huff' == Rev(Kraft(lens), MAXBITS)
            && len' == len == max
    ensures more ==> len <= len' && Cursor(lens, count[..], max, len', r', sym', huff')
                     && At(lens, len', r') == At(lens, len, r) + Size(len)
  {
    hide Sorted, Start, Pow2, Rev, Count, NextCode;
    HuffNext(lens, len, r);
    huff' := BackIncrement(huff, len, NextCode(lens, len) + r);
    sym', len', r', more := sym + 1, len, r + 1, true;
    count[len] := count[len] - 1;
    if count[len] == 0 {
      if len == max {
        SkipEmpty(lens, max + 1, MAXBITS + 1);
        more := false;
        return;
      }
      ghost var m := NextLength(lens, len + 1, max);
      SymbolAt(lens, work[..], m, 0);
      ShlOne(MAXBITS - m);
      len', r' := lens[work[sym']], 0;
    }
  }

  /** A sub-table of `curr` index bits that starts at `sub` holds every code with the same root bits. */
  ghost predicate Room(lens: seq<nat>, root: nat, max: nat, curr: nat, sub: nat)
    requires root <= MAXBITS && max <= MAXBITS
  {
    root + curr <= max && (root + curr == max || Start(lens, root + curr + 1) >= sub + Pow2(MAXBITS - root))
  }

  lemma RoomStep(lens: seq<nat>, len: nat, r: nat, l: nat, left: nat, total: nat)
    requires 1 <= len <= l <= MAXBITS && r <= Count(lens, len)
    requires Shl(left, MAXBITS - l) + (if l == len then At(lens, len, r) else Start(lens, l)) == total
    ensures var c := if l == len then Count(lens, len) - r else Count(lens, l);
            if left <= c then Start(lens, l + 1) >= total
            else Shl(left - c, MAXBITS - l) + Start(lens, l + 1) == total
  {
    var c := if l == len then Count(lens, len) - r else Count(lens, l);
    if l == len { ShlAdd(r, c, MAXBITS - l); }
    if left <= c { ShlMono(left, c, MAXBITS - l); }
    else { ShlAdd(left - c, c, MAXBITS - l); }
  }

  lemma ShlDouble(x: nat, n: nat)
    requires n >= 1
    ensures Shl(2 * x, n - 1) == Shl(x, n)
  {
    ShlAdd(x, x, n - 1);
  }

  /** No sub-table is smaller than its first code needs. */
  lemma {:induction false} SubBitsFrom(lens: seq<nat>, root: nat, max: nat, len: nat, r: nat, c: nat)
    requires root + c <= len <= max <= MAXBITS && root + c >= 1 && 1 <= len
    ensures SubBits(lens, root, max, At(lens, len, r), c) == SubBits(lens, root, max, At(lens, len, r), len - root)
    decreases len - c
  {
    hide Start, Pow2;
    if root + c < len {
      StartMono(lens, root + c + 1, len);
      SubBitsFrom(lens, root, max, len, r, c + 1);
    }
  }

  lemma SubBitsStep(lens: seq<nat>, root: nat, max: nat, sub: nat, c: nat, l: nat)
    requires root + c == l < max <= MAXBITS && l >= 1
    ensures SubBits(lens, root, max, sub, c)
            == if Start(lens, l + 1) >= sub + Pow2(MAXBITS - root) then c else SubBits(lens, root, max, sub, c + 1)
  {
  }

  /** Looks ahead in the remaining counts for the index bits of a new sub-table. */
  method SubTableBits(ghost lens: seq<nat>, count: array<nat>, root: nat, max: nat, len: nat, ghost r: nat,
                      ghost sym: nat, ghost huff: nat) returns (curr: nat)
    requires root < len && Cursor(lens, count[..], max, len, r, sym, huff)
    ensures len - root <= curr && Room(lens, root, max, curr, At(lens, len, r))
    ensures curr == SubBits(lens, root, max, At(lens, len, r), 1)
  {
    hide Start, Count, Shl, Pow2, Cnt, SubBits;
    curr := len - root;
    var left: int := Pow2(curr);
    ghost var sub := At(lens, len, r);
    ghost var total := Pow2(MAXBITS - root) + sub;
    ShlOne(len - root);
    ShlShl(1, len - root, MAXBITS - len);
    ShlOne(MAXBITS - root);
    SubBitsFrom(lens, root, max, len, r, 1);
    while curr + root < max
      invariant len <= curr + root <= max && left > 0
      invariant Shl(left, MAXBITS - curr - root)
                + (if curr + root == len then At(lens, len, r) else Start(lens, curr + root)) == total
      invariant SubBits(lens, root, max, sub, 1) == SubBits(lens, root, max, sub, curr)
    {
      RoomStep(lens, len, r, curr + root, left, total);
      SubBitsStep(lens, root, max, sub, curr, curr + root);
      left := left - count[curr + root];
      if left <= 0 { return; }
      ShlMono(1, left, MAXBITS - curr - root);
      ShlOne(MAXBITS - curr - root);
      ShlDouble(left, MAXBITS - curr - root);
      curr := curr + 1;
      left := 2 * left;
    }
    SubBitsLast(lens, root, max, sub, curr);
  }

  lemma SubBitsLast(lens: seq<nat>, root: nat, max: nat, sub: nat, c: nat)
    requires root + c == max <= MAXBITS
    ensures SubBits(lens, root, max, sub, c) == c
  {
  }

  // ---------------------------------------------------------------- opening a sub-table

  /** The root bits of a code, most significant first. */
  function Prefix(p: nat, root: nat): nat
    requires root <= MAXBITS
  {
    High(p, MAXBITS - root)
  }

  lemma PrefixIsLow(p: nat, root: nat)
    requires root <= MAXBITS && p < Pow2(MAXBITS)
    ensures Low(Rev(p, MAXBITS), root) == Rev(Prefix(p, root), root)
    ensures Prefix(p, root) < Pow2(root)
  {
    var x := Rev(p, MAXBITS);
    RevTwice(p, MAXBITS);
    LowSmall(p, MAXBITS);
    RevHighBits(x, MAXBITS, root);
    RevTwice(x, root);
    RevBound(x, root);
  }

  lemma DifferentLow(p: nat, q: nat, root: nat)
    requires root <= MAXBITS && p < Pow2(MAXBITS) && q < Pow2(MAXBITS)
    requires Low(Rev(p, MAXBITS), root) == Low(Rev(q, MAXBITS), root)
    ensures Prefix(p, root) == Prefix(q, root)
  {
    PrefixIsLow(p, root);
    PrefixIsLow(q, root);
    RevTwice(Prefix(p, root), root);
    RevTwice(Prefix(q, root), root);
    LowSmall(Prefix(p, root), root);
    LowSmall(Prefix(q, root), root);
  }

  /** No long code before `pos` has root bits beyond `q`. */
  ghost predicate PrefixesUpTo(lens: seq<nat>, root: nat, pos: nat, q: nat)
    requires root <= MAXBITS
  {
    forall i: nat :: Used(lens, i) && Pos(lens, i) < pos && lens[i] > root ==> Prefix(Pos(lens, i), root) <= q
  }

  lemma PosBelow(lens: seq<nat>, i: nat)
    requires Used(lens, i) && Kraft(lens) <= Pow2(MAXBITS)
    ensures Pos(lens, i) < Pow2(MAXBITS)
  {
    PosBounds(lens, i);
  }

  /** Linking a new sub-table at the root bits of code `k` disturbs no code entered before. */
  lemma LinkKeeps(lens: seq<nat>, t: seq<Entry>, root: nat, used: nat, k: nat, i: nat, e: Entry, op: nat, val: nat)
    requires Used(lens, k) && Used(lens, i) && i != k && root < lens[k] && root <= MAXBITS
    requires Kraft(lens) <= Pow2(MAXBITS) && Pow2(root) <= used <= |t|
    requires Filled(t, root, used, lens[i], Huff(lens, i), op, val)
    requires lens[i] > root ==> Prefix(Pos(lens, i), root) != Prefix(Pos(lens, k), root)
    requires Low(Huff(lens, k), root) < Pow2(root)
    ensures Filled(t[Low(Huff(lens, k), root) := e], root, used, lens[i], Huff(lens, i), op, val)
    ensures lens[i] > root ==> Low(Huff(lens, i), root) != Low(Huff(lens, k), root)
  {
    var low := Low(Huff(lens, k), root);
    PosBelow(lens, i);
    PosBelow(lens, k);
    if lens[i] <= root {
      HuffIsRevCode(lens, k);
      LowSmall(Huff(lens, k), lens[k]);
      NoClash(lens, i, k, Huff(lens, k));
      LowLow(Huff(lens, k), lens[i], root);
    } else {
      if Low(Huff(lens, i), root) == low { DifferentLow(Pos(lens, i), Pos(lens, k), root); }
      LinkElsewhere(t, root, used, lens[i], Huff(lens, i), op, val, low, e);
    }
  }

  lemma LinkElsewhere(t: seq<Entry>, root: nat, used: nat, l: nat, h: nat, op: nat, val: nat, low: nat, e: Entry)
    requires low < Pow2(root) <= used <= |t| && root < l
    requires Filled(t, root, used, l, h, op, val) && Low(h, root) != low
    ensures Filled(t[low := e], root, used, l, h, op, val)
  {
    LowBound(h, root);
  }

  /** More room behind the used part changes nothing. */
  lemma FilledMore(t: seq<Entry>, root: nat, used: nat, used': nat, l: nat, h: nat, op: nat, val: nat)
    requires Pow2(root) <= used <= used' <= |t| && Filled(t, root, used, l, h, op, val)
    ensures Filled(t, root, used', l, h, op, val)
    ensures l > root ==> (LowBound(h, root); Linked(t, root, used, Low(h, root)))
  {
    LowBound(h, root);
  }

  lemma SubTableOpened(kind: Kind, lens: seq<nat>, t: seq<Entry>, root: nat, used: nat, k: nat, curr: nat)
    requires |lens| <= MaxSymbols(kind) && Kraft(lens) <= Pow2(MAXBITS) && Used(lens, k)
    requires root < lens[k] && root <= MAXBITS && 0 < curr < 16
    requires Pow2(root) <= used && used + Pow2(curr) <= |t|
    requires Entered(kind, lens, t, root, used, Pos(lens, k))
    requires forall i: nat :: Used(lens, i) && Pos(lens, i) < Pos(lens, k) && lens[i] > root ==>
               Prefix(Pos(lens, i), root) < Prefix(Pos(lens, k), root)
    ensures var low := Low(Huff(lens, k), root);
            low < |t| && Tables(kind, lens, t[low := Entry(curr, root, used)], root, used + Pow2(curr), used, curr,
                                low, Pos(lens, k))
  {
    var low, pos, e := Low(Huff(lens, k), root), Pos(lens, k), Entry(curr, root, used);
    LowBound(Huff(lens, k), root);
    var u := t[low := e];
    forall i: nat | Used(lens, i) && Pos(lens, i) < pos
      ensures Filled(u, root, used + Pow2(curr), lens[i], Huff(lens, i), SymbolOp(kind, i), SymbolVal(kind, i))
      ensures lens[i] > root ==>
                (LowBound(Huff(lens, i), root);
                 Low(Huff(lens, i), root) != low && Linked(u, root, used, Low(Huff(lens, i), root)))
    {
      LinkKeeps(lens, t, root, used, k, i, e, SymbolOp(kind, i), SymbolVal(kind, i));
      FilledMore(u, root, used, used + Pow2(curr), lens[i], Huff(lens, i), SymbolOp(kind, i), SymbolVal(kind, i));
    }
  }

  // ---------------------------------------------------------------- all codes

  /** The code at hand belongs into the current table. */
  ghost predicate Ready(lens: seq<nat>, root: nat, max: nat, curr: nat, low: int, len: nat, pos: nat, q: nat, sub: nat)
    requires root <= MAXBITS && max <= MAXBITS
  {
    if low < 0 then len <= root
    else
      && root < len && low == Low(Rev(pos, MAXBITS), root) == Low(Rev(sub, MAXBITS), root)
      && sub <= pos && Prefix(sub, root) == q == Prefix(pos, root)
      && PrefixesUpTo(lens, root, pos, q) && Room(lens, root, max, curr, sub)
  }

  lemma ReadyFits(lens: seq<nat>, root: nat, max: nat, curr: nat, low: int, k: nat, q: nat, sub: nat)
    requires root <= MAXBITS && max <= MAXBITS && Used(lens, k) && lens[k] <= max
    requires Ready(lens, root, max, curr, low, lens[k], Pos(lens, k), q, sub)
    ensures Fits(lens, k, root, curr, low)
  {
    hide Pos, Start, Pow2, Kraft, Low, Rev, PrefixesUpTo;
    if low >= 0 && lens[k] > root + curr {
      PosBounds(lens, k);
      StartMono(lens, root + curr + 1, lens[k]);
      AddPow(sub, MAXBITS - root, MAXBITS - root);
      HighMono(sub + Pow2(MAXBITS - root), Pos(lens, k), MAXBITS - root);
    }
  }

  lemma PrefixesNext(lens: seq<nat>, root: nat, k: nat, q: nat)
    requires root <= MAXBITS && Used(lens, k) && PrefixesUpTo(lens, root, Pos(lens, k), q)
    requires Prefix(Pos(lens, k), root) <= q
    ensures PrefixesUpTo(lens, root, Pos(lens, k) + Size(lens[k]), q)
  {
    forall i: nat | Used(lens, i) && Pos(lens, i) < Pos(lens, k) + Size(lens[k]) && lens[i] > root
      ensures Prefix(Pos(lens, i), root) <= q
    {
      if Pos(lens, k) <= Pos(lens, i) { OnlyOneAt(lens, k, i); }
    }
  }

  /** If the root bits changed, they grew. */
  lemma PrefixGrows(lens: seq<nat>, root: nat, sub: nat, k: nat, low: nat, q: nat)
    requires root <= MAXBITS && Used(lens, k) && Kraft(lens) <= Pow2(MAXBITS)
    requires sub <= Pos(lens, k) && Prefix(sub, root) == q
    requires low == Low(Rev(sub, MAXBITS), root) && Low(Huff(lens, k), root) != low
    requires PrefixesUpTo(lens, root, Pos(lens, k), q)
    ensures forall i: nat :: Used(lens, i) && Pos(lens, i) < Pos(lens, k) && lens[i] > root ==>
              Prefix(Pos(lens, i), root) < Prefix(Pos(lens, k), root)
  {
    PosBelow(lens, k);
    HighMono(sub, Pos(lens, k), MAXBITS - root);
    PrefixIsLow(sub, root);
    PrefixIsLow(Pos(lens, k), root);
  }

  lemma {:induction false} RevZero(n: nat)
    ensures Rev(0, n) == 0
  {
    if n != 0 { RevZero(n - 1); }
  }

  lemma StartCursor(lens: seq<nat>, min: nat)
    requires 1 <= min <= MAXBITS && forall l :: 1 <= l < min ==> Count(lens, l) == 0
    ensures At(lens, min, 0) == 0 && Offs(lens, min) == 0 && Rev(0, MAXBITS) == 0
  {
    SkipEmpty(lens, 1, min);
    ShlOne(MAXBITS - min);
    RevZero(MAXBITS);
  }

  /** The next code keeps to the current table, unless its root bits changed. */
  lemma ReadyNext(lens: seq<nat>, root: nat, max: nat, curr: nat, low: int, len: nat, pos: nat, pos': nat, len': nat,
                  q: nat, sub: nat)
    requires root <= MAXBITS && max <= MAXBITS && pos <= pos' < Pow2(MAXBITS) && len <= len'
    requires Ready(lens, root, max, curr, low, len, pos, q, sub)
    requires low >= 0 ==> PrefixesUpTo(lens, root, pos', q)
    requires !(len' > root && Low(Rev(pos', MAXBITS), root) != low)
    ensures Ready(lens, root, max, curr, low, len', pos', q, sub)
  {
    if low >= 0 { DifferentLow(sub, pos', root); }
    else if len' > root { LowBound(Rev(pos', MAXBITS), root); }
  }

  lemma ReadyFirst(lens: seq<nat>, root: nat, max: nat, curr: nat, len: nat, k: nat)
    requires root <= MAXBITS && max <= MAXBITS && Used(lens, k) && root < len
    requires forall i: nat :: Used(lens, i) && Pos(lens, i) < Pos(lens, k) && lens[i] > root ==>
               Prefix(Pos(lens, i), root) < Prefix(Pos(lens, k), root)
    requires Room(lens, root, max, curr, Pos(lens, k))
    ensures var pos := Pos(lens, k);
            Ready(lens, root, max, curr, Low(Rev(pos, MAXBITS), root), len, pos, Prefix(pos, root), pos)
  {
  }

  /** The room that the caller must provide. */
  predicate Space(kind: Kind, length: nat)
  {
    (kind.LENS? ==> length >= ENOUGH_LENS) && (kind.DISTS? ==> length >= ENOUGH_DISTS)
  }

  /** Opens the sub-table for code `k`, behind the used part, and points the root entry to it. */
  method OpenSubTable(kind: Kind, lens: seq<nat>, table: array<Entry>, count: array<nat>, root: nat, max: nat,
                      used: nat, len: nat, huff: nat, ghost r: nat, ghost sym: nat, ghost k: nat)
    returns (ok: bool, curr: nat, low: nat, used': nat)
    requires |lens| <= MaxSymbols(kind) && Kraft(lens) <= Pow2(MAXBITS) && Used(lens, k)
    requires Cursor(lens, count[..], max, len, r, sym, huff) && 1 <= root < len
    requires lens[k] == len && Pos(lens, k) == At(lens, len, r)
    requires Pow2(root) <= used <= table.Length && Space(kind, table.Length) && !kind.CODES?
    requires Entered(kind, lens, table[..], root, used, Pos(lens, k))
    requires forall i: nat :: Used(lens, i) && Pos(lens, i) < Pos(lens, k) && lens[i] > root ==>
               Prefix(Pos(lens, i), root) < Prefix(Pos(lens, k), root)
    modifies table
    ensures root + 1 <= max && curr == SubBits(lens, root, max, Pos(lens, k), 1) && used' == used + Pow2(curr)
    ensures ok <==> !TooMuch(kind, used')
    ensures ok ==> low == Low(huff, root) && Room(lens, root, max, curr, Pos(lens, k))
                   && Tables(kind, lens, table[..], root, used', used, curr, low, Pos(lens, k))
  {
    hide SubBits, Start, Shl, Kraft;
    curr := SubTableBits(lens, count, root, max, len, r, sym, huff);
    used', low, ok := used + Pow2(curr), Low(huff, root), false;
    if TooMuch(kind, used') { return; }
    LowBound(huff, root);
    SubTableOpened(kind, lens, table[..], root, used, k, curr);
    ghost var t := table[..];
    table[low] := Entry(curr, root, used);
    assert table[..] == t[low := Entry(curr, root, used)];
    ok := true;
  }

  // ---------------------------------------------------------------- counting the entries

  /** The codes behind the current table start where the prefixes that it holds end. */
  ghost predicate Borders(lens: seq<nat>, root: nat, low: int, q: nat, len: nat, pos: nat)
    requires root <= MAXBITS
  {
    && (low < 0 && len > root ==> pos == Start(lens, root + 1))
    && (low >= 0 ==> pos <= Shl(q + 1, MAXBITS - root))
  }

  /** A code does not reach beyond its prefix. */
  lemma WithinPrefix(lens: seq<nat>, root: nat, len: nat, r: nat, q: nat, q': nat)
    requires root < len <= MAXBITS && Prefix(At(lens, len, r), root) == q && q' == q + 1
    ensures At(lens, len, r) + Size(len) <= Shl(q', MAXBITS - root)
  {
    hide Start, Shl, Pow2, High, NextCode;
    var n, m := MAXBITS - len, len - root;
    var c := NextCode(lens, len) + r;
    AtIsShl(lens, len, r);
    Block(q, MAXBITS - root, Shl(c, n));
    ShlAdd(q, 1, MAXBITS - root);
    ShlOne(MAXBITS - root);
    ShlShl(q', m, n);
    if c >= Shl(q', m) { ShlMono(Shl(q', m), c, n); }
    ShlMono(c + 1, Shl(q', m), n);
    ShlAdd(c, 1, n);
    ShlOne(n);
  }

  lemma BordersNext(lens: seq<nat>, root: nat, max: nat, curr: nat, low: int, len: nat, r: nat, q: nat, sub: nat,
                    len': nat, r': nat, more: bool)
    requires 1 <= len <= len' <= MAXBITS && root <= MAXBITS && max <= MAXBITS && r < Count(lens, len)
    requires Ready(lens, root, max, curr, low, len, At(lens, len, r), q, sub)
    requires if more then At(lens, len', r') == At(lens, len, r) + Size(len) else len' == len
    ensures Borders(lens, root, low, q, len', At(lens, len, r) + Size(len))
  {
    hide Start, Shl, Pow2, Prefix, Size, Count, PrefixesUpTo, Room, Low, Rev;
    if low >= 0 {
      WithinPrefix(lens, root, len, r, q, q + 1);
    } else if len' > root {
      AtNext(lens, len, r);
      StartMono(lens, len + 1, root + 1);
      StartMono(lens, root + 1, len');
    }
  }

  /** All entries, when the first level has `root` index bits. */
  function AllEntries(lens: seq<nat>, root: nat, max: nat): nat
    requires 1 <= root && max <= MAXBITS
  {
    if root >= max then Pow2(root) else Pow2(root) + SubEntries(lens, root, max, FirstLong(lens, root))
  }

  /** The entries in use, and those of the tables to come. */
  ghost predicate Counted(kind: Kind, lens: seq<nat>, root: nat, max: nat, used: nat, low: int, q: nat)
    requires 1 <= root <= MAXBITS && max <= MAXBITS
  {
    && !TooMuch(kind, used)
    && if root >= max then used == Pow2(root)
        else used + SubEntries(lens, root, max, if low < 0 then FirstLong(lens, root) else q + 1)
             == AllEntries(lens, root, max)
  }

  lemma PrefixOf(q: nat, root: nat, pos: nat)
    requires root <= MAXBITS && pos == Shl(q, MAXBITS - root)
    ensures Prefix(pos, root) == q
  {
    Block(q, MAXBITS - root, pos);
  }

  /** The prefix of the next sub-table is the next one. */
  lemma NextPrefix(lens: seq<nat>, root: nat, low: int, q: nat, len: nat, pos: nat, sub: nat)
    requires 1 <= root < len <= MAXBITS && pos < Pow2(MAXBITS) && Borders(lens, root, low, q, len, pos)
    requires low >= 0 ==> sub <= pos && Prefix(sub, root) == q && low == Low(Rev(sub, MAXBITS), root)
    requires Low(Rev(pos, MAXBITS), root) != low
    ensures var q' := if low < 0 then FirstLong(lens, root) else q + 1;
      pos == Shl(q', MAXBITS - root) && Prefix(pos, root) == q' && q' < Pow2(root)
  {
    hide Start, Shl, Pow2, FirstLong, Low, Rev, Prefix;
    var q' := if low < 0 then FirstLong(lens, root) else q + 1;
    ShortSpace(lens, root);
    PrefixIsLow(pos, root);
    if low >= 0 {
      PrefixMono(sub, pos, root);
      PrefixIsLow(sub, root);
      BeyondPrefix(pos, root, q');
    }
    PrefixOf(q', root, pos);
  }

  lemma PrefixMono(p: nat, q: nat, root: nat)
    requires p <= q && root <= MAXBITS
    ensures Prefix(p, root) <= Prefix(q, root)
  {
    HighMono(p, q, MAXBITS - root);
  }

  lemma BeyondPrefix(pos: nat, root: nat, q: nat)
    requires root <= MAXBITS && Prefix(pos, root) >= q
    ensures pos >= Shl(q, MAXBITS - root)
  {
    Split(pos, MAXBITS - root);
    ShlMono(q, Prefix(pos, root), MAXBITS - root);
  }

  /** A new sub-table is counted; if it is too much, so are all. */
  lemma CountedNext(kind: Kind, lens: seq<nat>, root: nat, max: nat, used: nat, low: int, q: nat, q': nat, pos: nat,
                    curr: nat, used': nat, low': nat)
    requires 1 <= root < max <= MAXBITS && Counted(kind, lens, root, max, used, low, q)
    requires q' == (if low < 0 then FirstLong(lens, root) else q + 1) < Pow2(root)
    requires pos == Shl(q', MAXBITS - root) < Kraft(lens) && curr == SubBits(lens, root, max, pos, 1)
    requires used' == used + Pow2(curr)
    ensures if TooMuch(kind, used') then TooMuch(kind, AllEntries(lens, root, max))
            else Counted(kind, lens, root, max, used', low', q')
  {
    hide SubEntries, FirstLong, Kraft, Pow2, SubBits, AllEntries;
    OneSubTable(lens, root, max, q', q' + 1, curr);
  }

  lemma CountedAll(kind: Kind, lens: seq<nat>, root: nat, max: nat, used: nat, low: int, q: nat, len: nat)
    requires 1 <= root <= MAXBITS && max <= MAXBITS && Counted(kind, lens, root, max, used, low, q)
    requires Borders(lens, root, low, q, len, Kraft(lens)) && len == max && (low < 0 ==> len <= root)
    ensures used == AllEntries(lens, root, max) && !TooMuch(kind, used)
  {
    if root < max { NoSubTables(lens, root, max, q + 1); }
  }

  method EnterAndAdvance(kind: Kind, lens: seq<nat>, count: array<nat>, work: array<nat>, table: array<Entry>,
                         ghost root: nat, max: nat, ghost used: nat, next: nat, curr: nat, ghost low: int, drop: nat,
                         len: nat, sym: nat, huff: nat, ghost r: nat, ghost q: nat, ghost sub: nat)
    returns (more: bool, len': nat, sym': nat, huff': nat, ghost r': nat)
    requires |lens| <= MaxSymbols(kind) && Sorted(lens, work[..]) && Longest(lens, max) && count != work
    requires root <= MAXBITS && Kraft(lens) <= Pow2(MAXBITS)
    requires Cursor(lens, count[..], max, len, r, sym, huff)
    requires Tables(kind, lens, table[..], root, used, next, curr, low, At(lens, len, r))
    requires Ready(lens, root, max, curr, low, len, At(lens, len, r), q, sub)
    requires drop == (if low < 0 then 0 else root)
    modifies table, count
    ensures Tables(kind, lens, table[..], root, used, next, curr, low, At(lens, len, r) + Size(len))
    ensures !more ==> At(lens, len, r) + Size(len) == Kraft(lens) && huff' == Rev(Kraft(lens), MAXBITS)
    ensures low >= 0 ==> root < max
    ensures more ==> len <= len' && Cursor(lens, count[..], max, len', r', sym', huff')
                     && At(lens, len', r') == At(lens, len, r) + Size(len) < Kraft(lens)
    ensures low >= 0 ==> PrefixesUpTo(lens, root, At(lens, len, r) + Size(len), q)
    ensures Borders(lens, root, low, q, if more then len' else len, At(lens, len, r) + Size(len))
    ensures (!more ==> len == max) && (low < 0 ==> len <= root)
  {
    hide Borders;
    SymbolAt(lens, work[..], len, r);
    var k := work[sym];
    ReadyFits(lens, root, max, curr, low, k, q, sub);
    EnterCode(kind, lens, table, root, used, next, curr, low, drop, len, huff, k);
    if low >= 0 { PrefixesNext(lens, root, k, q); }
    more, len', sym', huff', r' := Advance(lens, count, work, max, len, sym, huff, r);
    if more { AtNext(lens, len', r'); }
    BordersNext(lens, root, max, curr, low, len, r, q, sub, if more then len' else len, r', more);
  }

  /** Before the first sub-table no long code has been entered. */
  lemma NoneLong(lens: seq<nat>, t: seq<Entry>, root: nat, next: nat, low: int, pos: nat)
    requires low < 0 && OthersBelow(lens, t, root, next, low, pos)
    ensures forall i: nat :: Used(lens, i) && Pos(lens, i) < pos ==> lens[i] <= root
  {
  }

  /** Starts a new sub-table if the root bits of the code at hand differ from those of the current one. */
  method SwitchTable(kind: Kind, lens: seq<nat>, count: array<nat>, work: array<nat>, table: array<Entry>, root: nat,
                     max: nat, used: nat, next: nat, curr: nat, low: int, drop: nat, ghost len0: nat, len: nat,
                     sym: nat, huff: nat, ghost pos0: nat, ghost r: nat, ghost q: nat, ghost sub: nat)
    returns (ok: bool, used': nat, next': nat, curr': nat, low': int, drop': nat, ghost q': nat, ghost sub': nat)
    requires |lens| <= MaxSymbols(kind) && Sorted(lens, work[..]) && Kraft(lens) <= Pow2(MAXBITS)
    requires 1 <= root <= MAXBITS && Space(kind, table.Length) && (kind.CODES? ==> root == max)
    requires Cursor(lens, count[..], max, len, r, sym, huff) && len0 <= len
    requires Tables(kind, lens, table[..], root, used, next, curr, low, At(lens, len, r))
    requires pos0 <= At(lens, len, r) < Kraft(lens) && Ready(lens, root, max, curr, low, len0, pos0, q, sub)
    requires low >= 0 ==> PrefixesUpTo(lens, root, At(lens, len, r), q)
    requires drop == (if low < 0 then 0 else root)
    requires Counted(kind, lens, root, max, used, low, q) && Borders(lens, root, low, q, len, At(lens, len, r))
    modifies table
    ensures !ok ==> TooMuch(kind, AllEntries(lens, root, max))
    ensures ok ==> Counted(kind, lens, root, max, used', low', q')
    ensures ok ==>
      && drop' == (if low' < 0 then 0 else root)
      && Tables(kind, lens, table[..], root, used', next', curr', low', At(lens, len, r))
      && Ready(lens, root, max, curr', low', len, At(lens, len, r), q', sub')
  {
    hide Counted, Borders, AllEntries, Start, Shl, Pow2, OthersBelow, Entered, SubBits, Room, PrefixesUpTo, Rev, Low,
        Prefix, TooMuch, Kraft;
    ok, used', next', curr', low', drop', q', sub' := true, used, next, curr, low, drop, q, sub;
    ghost var pos := At(lens, len, r);
    if len > root && Low(huff, root) != low {
      SymbolAt(lens, work[..], len, r);
      ghost var k := work[sym];
      if low >= 0 { PrefixGrows(lens, root, sub, k, low, q); }
      else { NoneLong(lens, table[..], root, next, low, pos); }
      NextPrefix(lens, root, low, q, len, pos, sub);
      drop', next' := root, used;
      ok, curr', low', used' := OpenSubTable(kind, lens, table, count, root, max, used, len, huff, r, sym, k);
      CountedNext(kind, lens, root, max, used, low, q, Prefix(pos, root), pos, curr', used', low');
      if ok {
        ReadyFirst(lens, root, max, curr', len, k);
        sub', q' := pos, Prefix(pos, root);
      }
    } else {
      ReadyNext(lens, root, max, curr, low, len0, pos0, pos, len, q, sub);
    }
  }

  lemma CountedFirst(kind: Kind, lens: seq<nat>, root: nat, max: nat, used: nat, q: nat)
    requires 1 <= root <= MAXBITS && max <= MAXBITS && used == Pow2(root) && !TooMuch(kind, used)
    ensures Counted(kind, lens, root, max, used, -1, q)
  {
  }

  lemma TablesFirst(kind: Kind, lens: seq<nat>, count: seq<nat>, t: seq<Entry>, root: nat, min: nat, max: nat,
                    used: nat, q: nat, sub: nat)
    requires |lens| <= MaxSymbols(kind) && 1 <= min <= root <= max <= MAXBITS && used == Pow2(root) <= |t|
    requires Count(lens, min) > 0 && forall l :: 1 <= l < min ==> Count(lens, l) == 0
    requires |count| == MAXBITS + 1 && forall l :: 1 <= l <= MAXBITS ==> count[l] == Count(lens, l)
    ensures Cursor(lens, count, max, min, 0, 0, 0)
    ensures Tables(kind, lens, t, root, used, 0, root, -1, At(lens, min, 0))
    ensures Ready(lens, root, max, root, -1, min, At(lens, min, 0), q, sub)
  {
    hide Count, Pow2, Start, Filled;
    StartCursor(lens, min);
  }

  lemma TablesLast(kind: Kind, lens: seq<nat>, t: seq<Entry>, root: nat, max: nat, used: nat, next: nat, curr: nat,
                   low: int, pos: nat)
    requires |lens| <= MaxSymbols(kind) && Tables(kind, lens, t, root, used, next, curr, low, pos)
    requires low >= 0 ==> root < max
    ensures Pow2(root) <= used <= |t| && Entered(kind, lens, t, root, used, pos)
    ensures root == max ==> low < 0 && next == 0
  {
  }

  /** Enters all codes, unless the tables outgrow the space checked for. */
  method FillTables(kind: Kind, lens: seq<nat>, count: array<nat>, work: array<nat>, table: array<Entry>, root: nat,
                    min: nat, max: nat)
    returns (ok: bool, used: nat, next: nat, drop: nat, huff: nat)
    requires |lens| <= MaxSymbols(kind) && Sorted(lens, work[..]) && Longest(lens, max) && count != work
    requires count.Length == MAXBITS + 1 && forall l :: 1 <= l <= MAXBITS ==> count[l] == Count(lens, l)
    requires 1 <= min <= root <= max && Count(lens, min) > 0 && forall l :: 1 <= l < min ==> Count(lens, l) == 0
    requires Kraft(lens) <= Pow2(MAXBITS)
    requires Space(kind, table.Length) && (kind.CODES? ==> root == max && Pow2(root) <= table.Length)
    modifies table, count
    ensures ok <==> !TooMuch(kind, AllEntries(lens, root, max))
    ensures ok ==> used == AllEntries(lens, root, max)
    ensures ok ==> huff == Rev(Kraft(lens), MAXBITS) && Pow2(root) <= used <= table.Length
                   && Entered(kind, lens, table[..], root, used, Kraft(lens))
                   && (root == max ==> next == drop == 0)
  {
    hide Kraft, Start, Count, Pow2, Rev, Sorted, Counted, Borders, Ready, OthersBelow, Entered, Offs, Shl, SubEntries,
        FirstLong;
    used, next, drop := Pow2(root), 0, 0;
    var len: nat, sym: nat, curr: nat, low: int := min, 0, root, -1;
    huff, ok := 0, false;
    ghost var r: nat, q: nat, sub: nat := 0, 0, 0;
    if TooMuch(kind, used) { return; }
    TablesFirst(kind, lens, count[..], table[..], root, min, max, used, q, sub);
    CountedFirst(kind, lens, root, max, used, q);
    while true
      invariant Cursor(lens, count[..], max, len, r, sym, huff)
      invariant Tables(kind, lens, table[..], root, used, next, curr, low, At(lens, len, r))
      invariant Ready(lens, root, max, curr, low, len, At(lens, len, r), q, sub)
      invariant drop == (if low < 0 then 0 else root) && low < Pow2(root)
      invariant Counted(kind, lens, root, max, used, low, q)
      decreases Kraft(lens) - At(lens, len, r)
    {
      ghost var len0, pos0 := len, At(lens, len, r);
      var more;
      more, len, sym, huff, r := EnterAndAdvance(kind, lens, count, work, table, root, max, used, next, curr, low, drop,
                                                 len, sym, huff, r, q, sub);
      if !more {
        CountedAll(kind, lens, root, max, used, low, q, len0);
        TablesLast(kind, lens, table[..], root, max, used, next, curr, low, Kraft(lens));
        break;
      }
      ok, used, next, curr, low, drop, q, sub :=
        SwitchTable(kind, lens, count, work, table, root, max, used, next, curr, low, drop, len0, len, sym, huff, pos0,
                    r, q, sub);
      if !ok { return; }
    }
    ok := true;
  }

  // ---------------------------------------------------------------- the whole function

  /** There are no sub-tables. */
  ghost predicate Flat(t: seq<Entry>, root: nat)
  {
    Pow2(root) <= |t| && forall x: nat {:trigger t[x]} :: x < Pow2(root) ==> !IsLink(t[x])
  }

  lemma NoLonger(lens: seq<nat>, max: nat, i: nat)
    requires Longest(lens, max) && Used(lens, i)
    ensures lens[i] <= max
  {
    CountUsed(lens, i);
  }

  /** With a first level for the longest codes there are no sub-tables. */
  lemma RootIsEnough(kind: Kind, lens: seq<nat>, t: seq<Entry>, root: nat, used: nat)
    requires |lens| <= MaxSymbols(kind) && Pow2(root) <= used <= |t| && Longest(lens, root)
    requires Entered(kind, lens, t, root, used, Kraft(lens)) && Kraft(lens) == Pow2(MAXBITS)
    ensures Flat(t, root)
  {
    hide Kraft, Rev, Pow2, SymbolOp, SymbolVal;
    forall x: nat | x < Pow2(root) ensures !IsLink(t[x]) {
      RevBound(x, MAXBITS);
      var i := Covered(lens, Rev(x, MAXBITS));
      PosBounds(lens, i);
      Match(lens, i, x);
      SymbolIsNoLink(kind, i, lens[i]);
      NoLonger(lens, root, i);
    }
  }

  lemma RootCovered(kind: Kind, lens: seq<nat>, t: seq<Entry>, root: nat, used: nat, x: nat)
    requires |lens| <= MaxSymbols(kind) && Pow2(root) <= used <= |t| && x < Pow2(root)
    requires Entered(kind, lens, t, root, used, Kraft(lens))
    requires Kraft(lens) == Pow2(MAXBITS)
    ensures IsLink(t[x]) ==> t[x].bits == root && t[x].val + Pow2(t[x].op) <= |t|
  {
    RevBound(x, MAXBITS);
    var i := Covered(lens, Rev(x, MAXBITS));
    PosBounds(lens, i);
    Match(lens, i, x);
    SymbolIsNoLink(kind, i, lens[i]);
    LowSmall(x, root);
    if lens[i] > root { LowLow(x, root, lens[i]); }
  }

  lemma CompleteDecodes(kind: Kind, lens: seq<nat>, t: seq<Entry>, root: nat, used: nat)
    requires |lens| <= MaxSymbols(kind) && Pow2(root) <= used <= |t|
    requires Entered(kind, lens, t, root, used, Kraft(lens))
    requires Kraft(lens) == Pow2(MAXBITS)
    ensures Decodes(kind, lens, t, root)
  {
    forall x: nat | x < Pow2(root) && IsLink(t[x])
      ensures t[x].bits == root && t[x].val + Pow2(t[x].op) <= |t|
    {
      RootCovered(kind, lens, t, root, used, x);
    }
    forall i: nat, x: nat | Used(lens, i) && InInterval(lens, i, Rev(x, MAXBITS))
      ensures Lookup(t, root, x) == SymbolEntry(kind, i, lens[i])
    {
      PosBounds(lens, i);
      Match(lens, i, x);
      SymbolIsNoLink(kind, i, lens[i]);
      FilledLookup(t, root, used, lens[i], Huff(lens, i), SymbolOp(kind, i), SymbolVal(kind, i), x);
    }
    forall x: nat ensures Rev(x, MAXBITS) < Kraft(lens) { RevBound(x, MAXBITS); }
  }

  lemma OneLength(lens: seq<nat>)
    requires Longest(lens, 1) && Kraft(lens) < Pow2(MAXBITS)
    ensures Kraft(lens) == Pow2(MAXBITS - 1) && Count(lens, 1) == 1
  {
    SkipEmpty(lens, 2, MAXBITS + 1);
    ShlOne(MAXBITS - 1);
    if Count(lens, 1) >= 2 {
      ShlMono(2, Count(lens, 1), MAXBITS - 1);
      ShlAdd(1, 1, MAXBITS - 1);
    }
  }

  lemma {:induction false} RevTopOne(n: nat)
    ensures Rev(Pow2(n), n + 1) == 1
  {
    if n != 0 { RevTopOne(n - 1); }
    else { assert Rev(1, 1) == 1 + Rev(0, 0); }
  }

  /** A lone code of one bit. */
  lemma LoneCode(lens: seq<nat>, i: nat)
    requires Used(lens, i) && Longest(lens, 1) && Kraft(lens) < Pow2(MAXBITS)
    ensures lens[i] == 1 && Pos(lens, i) == 0 && Huff(lens, i) == 0
  {
    CountUsed(lens, i);
    assert lens[i] == 1;
    OneLength(lens);
    CntMono(lens, i, |lens|, 1);
    RevZero(MAXBITS);
    ShlOne(MAXBITS - 1);
  }

  lemma LoneDecodes(kind: Kind, lens: seq<nat>, t: seq<Entry>)
    requires |lens| <= MaxSymbols(kind) && 2 <= |t|
    requires Entered(kind, lens, t, 1, 2, Kraft(lens)) && Longest(lens, 1) && Kraft(lens) < Pow2(MAXBITS)
    requires Pow2(1) == 2
    ensures Decodes(kind, lens, t[1 := INVALID], 1)
  {
    var u := t[1 := INVALID];
    var k := FindRank(lens, |lens|, 1, 0);
    LoneCode(lens, k);
    OneLength(lens);
    SymbolIsNoLink(kind, k, 1);
    assert Low(0, 1) == 0 + 2 * Low(0, 0);
    assert u[0] == t[0] == SymbolEntry(kind, k, 1);
    forall x: nat
      ensures Lookup(u, 1, x) == if x % 2 == 0 then SymbolEntry(kind, k, 1) else INVALID
      ensures Rev(x, MAXBITS) >= Kraft(lens) <==> x % 2 == 1
    {
      assert Low(x, 1) == x % 2 + 2 * Low(x / 2, 0);
      RevBound(x / 2, MAXBITS - 1);
    }
    forall i: nat, x: nat | Used(lens, i) && InInterval(lens, i, Rev(x, MAXBITS))
      ensures Lookup(u, 1, x) == SymbolEntry(kind, i, lens[i])
    {
      PosBounds(lens, i);
      LoneCode(lens, i);
      UniqueSymbol(lens, i, k, 0);
    }
  }

  lemma {:induction false} RevFull(n: nat)
    ensures Rev(Pow2(n), n) == 0
  {
    if n != 0 { RevFull(n - 1); }
  }

  lemma CountUsed(lens: seq<nat>, i: nat)
    requires Used(lens, i)
    ensures Count(lens, lens[i]) > 0
  {
    CntMono(lens, i, |lens|, lens[i]);
  }

  /** The largest and the smallest length in use; 0 when there is none. */
  method LengthRange(lens: seq<nat>, count: array<nat>) returns (min: nat, max: nat)
    requires count.Length == MAXBITS + 1 && forall l :: 1 <= l <= MAXBITS ==> count[l] == Count(lens, l)
    ensures max == 0 ==> forall i: nat :: !Used(lens, i)
    ensures max != 0 ==> Longest(lens, max) && 1 <= min <= max && Count(lens, min) > 0
    ensures max != 0 ==> forall l :: 1 <= l < min ==> Count(lens, l) == 0
  {
    min, max := 1, MAXBITS;
    while max >= 1 && count[max] == 0
      invariant max <= MAXBITS && forall l :: max < l <= MAXBITS ==> Count(lens, l) == 0
    {
      max := max - 1;
    }
    if max == 0 {
      forall i: nat | Used(lens, i) ensures false { CountUsed(lens, i); }
      return;
    }
    while min < max && count[min] == 0
      invariant 1 <= min <= max && forall l :: 1 <= l < min ==> Count(lens, l) == 0
    {
      min := min + 1;
    }
  }

  lemma WhenRefused(kind: Kind, lens: seq<nat>, max: nat)
    requires Longest(lens, max)
    ensures Refused(kind, lens) <==>
            (Kraft(lens) > Pow2(MAXBITS) || (Kraft(lens) < Pow2(MAXBITS) && (kind.CODES? || max != 1)))
  {
    var k := FindRank(lens, |lens|, max, 0);
    assert Used(lens, k);
    forall i: nat | Used(lens, i) ensures lens[i] <= max { CountUsed(lens, i); }
  }

  /** The number of entries follows from the lengths. */
  lemma EntriesAre(lens: seq<nat>, bits: nat, min: nat, max: nat, root: nat)
    requires Longest(lens, max) && 1 <= min <= max && Count(lens, min) > 0
    requires forall l :: 1 <= l < min ==> Count(lens, l) == 0
    requires root == (var b := if bits > max then max else bits; if b < min then min else b)
    ensures Entries(lens, bits) == AllEntries(lens, root, max) && Root(lens, bits) == root
    ensures MaxLen(lens, MAXBITS) == max
  {
    hide Count, SubEntries, FirstLong;
    MaxLenIs(lens, MAXBITS, max);
    MinLenIs(lens, 1, min);
  }

  lemma NoEntries(kind: Kind, lens: seq<nat>, bits: nat)
    requires forall i: nat :: !Used(lens, i)
    ensures Entries(lens, bits) == 2 && !TooMuch(kind, 2) && !Refused(kind, lens) && MaxLen(lens, MAXBITS) == 0
  {
    MaxLenFacts(lens, MAXBITS);
    var max := MaxLen(lens, MAXBITS);
    if max > 0 {
      var i := FindRank(lens, |lens|, max, 0);
      assert Used(lens, i);
    }
  }

  /** Builds the decoding table of a canonical code. */
  method BuildTable(kind: Kind, lens: seq<nat>, table: array<Entry>, bits: nat) returns (ret: int, root: nat, used: nat)
    requires ValidLens(lens) && |lens| <= MaxSymbols(kind)
    requires Space(kind, table.Length) && table.Length >= 2
    requires kind.CODES? ==> Pow2(bits) <= table.Length && forall i :: 0 <= i < |lens| ==> lens[i] <= bits
    modifies table
    ensures ret in {0, 1, -1} && (ret == -1 <==> Refused(kind, lens))
    ensures ret == 1 <==> !Refused(kind, lens) && TooMuch(kind, Entries(lens, bits))
    ensures ret == 0 ==> root == if MaxLen(lens, MAXBITS) == 0 then 1 else Root(lens, bits)
    ensures ret == 0 ==> used == Entries(lens, bits) <= table.Length && Decodes(kind, lens, table[..], root)
    ensures ret == 0 && kind.CODES? ==> Flat(table[..], root)
  {
    hide Decodes, Kraft, Start, Pow2, Rev, Entries, AllEntries, Refused, MaxLen, Root;
    var count := CountLengths(lens);
    var min, max := LengthRange(lens, count);
    root, used := if bits > max then max else bits, 0;
    if max == 0 {
      table[0] := INVALID;
      table[1] := INVALID;
      NoCodes(kind, lens, table[..]);
      NoEntries(kind, lens, bits);
      return 0, 1, 2;
    }
    WhenRefused(kind, lens, max);
    if root < min { root := min; }
    var left := SpaceLeft(lens, count);
    if left < 0 || (left > 0 && (kind.CODES? || max != 1)) {
      return -1, root, used;
    }
    if kind.CODES? { RootIsMax(lens, bits, max); }
    EntriesAre(lens, bits, min, max, root);
    var work := SortSymbols(lens, count);
    var ok, next, drop, huff;
    ok, used, next, drop, huff := FillTables(kind, lens, count, work, table, root, min, max);
    if !ok { return 1, root, used; }
    if huff != 0 {
      RevFull(MAXBITS);
      OneLength(lens);
      RevTopOne(MAXBITS - 1);
      ghost var t := table[..];
      table[next + huff] := Entry(64, max - drop, 0);
      assert table[..] == t[1 := INVALID];
      LoneEntered(kind, lens, t, used);
      LoneDecodes(kind, lens, t);
    } else {
      if left > 0 { OneLength(lens); RevTopOne(MAXBITS - 1); }
      CompleteDecodes(kind, lens, table[..], root, used);
      if root == max { RootIsEnough(kind, lens, table[..], root, used); }
    }
    ret := 0;
  }

  lemma RootIsMax(lens: seq<nat>, bits: nat, max: nat)
    requires Longest(lens, max) && forall i :: 0 <= i < |lens| ==> lens[i] <= bits
    ensures max <= bits && Pow2(max) <= Pow2(bits)
  {
    var k := FindRank(lens, |lens|, max, 0);
    Pow2Mono(max, bits);
  }

  lemma NoCodes(kind: Kind, lens: seq<nat>, t: seq<Entry>)
    requires |lens| <= MaxSymbols(kind) && |t| >= 2 && t[0] == t[1] == INVALID
    requires forall i: nat :: !Used(lens, i)
    ensures Decodes(kind, lens, t, 1) && Flat(t, 1)
  {
    assert Pow2(1) == 2 * Pow2(0);
    forall x: nat ensures Lookup(t, 1, x) == INVALID { LowBound(x, 1); }
  }

  lemma LoneEntered(kind: Kind, lens: seq<nat>, t: seq<Entry>, used: nat)
    requires |lens| <= MaxSymbols(kind) && Pow2(1) <= used <= |t|
    requires Longest(lens, 1) && Kraft(lens) < Pow2(MAXBITS) && Entered(kind, lens, t, 1, used, Kraft(lens))
    ensures Pow2(1) == 2 && Entered(kind, lens, t, 1, 2, Kraft(lens))
  {
    assert Pow2(1) == 2 * Pow2(0);
    forall i: nat | Used(lens, i) ensures lens[i] == 1 { LoneCode(lens, i); }
  }
}

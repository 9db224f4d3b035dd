/**
  * The CRC-32 of a concatenation (`crc32_combine_` of dep/zlib/crc32.c): the operator for many zero bits, as a matrix
  * that is squared again and again.
  */
module CrcCombine {
  import opened Crc

  // ---------------------------------------------------------------- vectors

  function Double(v: bv32): bv32 { v << 1 }

  /** The vector with a one at position `k`. */
  function Bit(k: nat): bv32
    requires k < 32
  {
    1 << k
  }

  lemma BitStep(k: nat)
    requires 1 <= k < 32
    ensures Half(Bit(k)) == Bit(k - 1) && Double(Bit(k - 1)) == Bit(k) && !Odd(Bit(k))
  {
  }

  lemma FirstBit()
    ensures Bit(0) == 1 && Odd(1) && Half(1) == 0
  {
  }

  function Up(v: bv32, k: nat): bv32
  {
    if k == 0 then v else Double(Up(v, k - 1))
  }

  function Down(v: bv32, k: nat): bv32
  {
    if k == 0 then v else Half(Down(v, k - 1))
  }

  lemma {:induction false} UpXor(a: bv32, b: bv32, k: nat)
    ensures Up(Xor(a, b), k) == Xor(Up(a, k), Up(b, k))
  {
    hide Xor, Double;
    if k != 0 {
      UpXor(a, b, k - 1);
      DoubleXor(Up(a, k - 1), Up(b, k - 1));
    }
  }

  lemma DoubleXor(a: bv32, b: bv32)
    ensures Double(Xor(a, b)) == Xor(Double(a), Double(b))
  {
  }

  lemma {:induction false} UpDouble(v: bv32, k: nat, m: nat)
    requires m == k + 1
    ensures Up(Double(v), k) == Up(v, m)
  {
    hide Double;
    if k != 0 { UpDouble(v, k - 1, k); }
  }

  lemma {:induction false} UpOne(k: nat)
    requires k < 32
    ensures Up(1, k) == Bit(k)
  {
    hide Double, Bit;
    FirstBit();
    if k != 0 {
      UpOne(k - 1);
      BitStep(k);
    }
  }

  lemma Parts(v: bv32)
    ensures v == if Odd(v) then Xor(1, Double(Half(v))) else Double(Half(v))
  {
  }

  lemma {:induction false} UpAll(v: bv32, k: nat)
    requires k >= 32
    ensures Up(v, k) == 0
  {
    hide Double;
    if k == 32 {
      EightUp(v, 0, 8, v);
      EightUp(v, 8, 16, v << 8);
      EightUp(v, 16, 24, v << 16);
      EightUp(v, 24, 32, v << 24);
      Gone(v);
    } else {
      UpAll(v, k - 1);
      DoubleZero();
    }
  }

  lemma Gone(v: bv32)
    ensures (v << 8) << 8 == v << 16 && (v << 16) << 8 == v << 24 && (v << 24) << 8 == 0
    ensures (v >> 8) >> 8 == v >> 16 && (v >> 16) >> 8 == v >> 24 && (v >> 24) >> 8 == 0
  {
  }

  lemma DoubleZero()
    ensures Double(0) == 0
  {
  }

  lemma EightUp(v: bv32, k: nat, m: nat, w: bv32)
    requires Up(v, k) == w && m == k + 8
    ensures Up(v, m) == w << 8
  {
    hide Double;
    assert Up(v, k + 1) == Double(w);
    assert Up(v, k + 2) == Double(Double(w));
    assert Up(v, k + 3) == Double(Double(Double(w)));
    assert Up(v, k + 4) == Double(Double(Double(Double(w))));
    FourDoubles(w);
    assert Up(v, k + 5) == Double(w << 4);
    assert Up(v, k + 6) == Double(Double(w << 4));
    assert Up(v, k + 7) == Double(Double(Double(w << 4)));
    assert Up(v, k + 8) == Double(Double(Double(Double(w << 4))));
    FourDoubles(w << 4);
    FourAndFour(w);
  }

  lemma FourDoubles(w: bv32)
    ensures Double(Double(Double(Double(w)))) == w << 4
  {
  }

  lemma FourAndFour(w: bv32)
    ensures (w << 4) << 4 == w << 8 && (w >> 4) >> 4 == w >> 8
  {
  }

  lemma DownAll(v: bv32)
    ensures Down(v, 32) == 0
  {
    hide Half;
    EightDown(v, 0, 8, v);
    EightDown(v, 8, 16, v >> 8);
    EightDown(v, 16, 24, v >> 16);
    EightDown(v, 24, 32, v >> 24);
    Gone(v);
  }

  lemma EightDown(v: bv32, k: nat, m: nat, w: bv32)
    requires Down(v, k) == w && m == k + 8
    ensures Down(v, m) == w >> 8
  {
    hide Half;
    assert Down(v, k + 1) == Half(w);
    assert Down(v, k + 2) == Half(Half(w));
    assert Down(v, k + 3) == Half(Half(Half(w)));
    assert Down(v, k + 4) == Half(Half(Half(Half(w))));
    FourHalves(w);
    assert Down(v, k + 5) == Half(w >> 4);
    assert Down(v, k + 6) == Half(Half(w >> 4));
    assert Down(v, k + 7) == Half(Half(Half(w >> 4)));
    assert Down(v, k + 8) == Half(Half(Half(Half(w >> 4))));
    FourHalves(w >> 4);
    FourAndFour(w);
  }

  lemma FourHalves(w: bv32)
    ensures Half(Half(Half(Half(w)))) == w >> 4
  {
  }

  // ---------------------------------------------------------------- matrices

  /** The sum of the columns from `k` on that `v` selects. */
  function Product(mat: seq<bv32>, v: bv32, k: nat): bv32
    requires |mat| == 32
    decreases 32 - k
  {
    if k >= 32 then 0 else Xor(if Odd(v) then mat[k] else 0, Product(mat, Half(v), k + 1))
  }

  lemma {:induction false} NoColumns(mat: seq<bv32>, k: nat)
    requires |mat| == 32
    ensures Product(mat, 0, k) == 0
    decreases 32 - k
  {
    if k < 32 { NoColumns(mat, k + 1); }
  }

  /** `mat` is the operator for `n` zero bits: its columns are where the unit vectors go. */
  ghost predicate Operator(mat: seq<bv32>, n: nat)
  {
    |mat| == 32 && forall k {:trigger mat[k]} :: 0 <= k < 32 ==> mat[k] == Zeros(Bit(k), n)
  }

  /** The product with the matrix is the operator. */
  lemma {:induction false} ProductIs(mat: seq<bv32>, n: nat, v: bv32, k: nat)
    requires Operator(mat, n)
    ensures Product(mat, v, k) == Zeros(Up(v, k), n)
    decreases 32 - k
  {
    hide Xor, Zeros, Half, Odd, Bit, Double;
    if k >= 32 {
      UpAll(v, k);
      ZerosOfZero(n);
    } else {
      var h := Half(v);
      ProductIs(mat, n, h, k + 1);
      Parts(v);
      UpDouble(h, k, k + 1);
      XorZero(Product(mat, h, k + 1));
      if Odd(v) {
        UpXor(1, Double(h), k);
        UpOne(k);
        ZerosLinear(Bit(k), Up(h, k + 1), n);
        assert mat[k] == Zeros(Bit(k), n);
      }
    }
  }

  /** `gf2_matrix_times`. */
  method MatrixTimes(mat: array<bv32>, vec: bv32) returns (sum: bv32)
    requires mat.Length == 32
    ensures sum == Product(mat[..], vec, 0)
  {
    hide Xor, Half, Odd;
    var v, k: nat := vec, 0;
    sum := 0;
    XorZero(Product(mat[..], vec, 0));
    while v != 0
      invariant k <= 32 && v == Down(vec, k) && Xor(sum, Product(mat[..], v, k)) == Product(mat[..], vec, 0)
      decreases 32 - k
    {
      DownAll(vec);
      var next := if Odd(v) then Xor(sum, mat[k]) else sum;
      AddColumn(mat[..], v, k, sum, next);
      sum, v, k := next, Half(v), k + 1;
    }
    NoColumns(mat[..], k);
    XorZero(sum);
  }

  lemma AddColumn(mat: seq<bv32>, v: bv32, k: nat, sum: bv32, next: bv32)
    requires |mat| == 32 && k < 32 && next == if Odd(v) then Xor(sum, mat[k]) else sum
    ensures Xor(next, Product(mat, Half(v), k + 1)) == Xor(sum, Product(mat, v, k))
  {
    hide Xor, Half, Odd;
    var rest := Product(mat, Half(v), k + 1);
    XorZero(rest);
    XorAssoc(sum, mat[k], rest);
  }

  /** `gf2_matrix_square`: twice as many zero bits. */
  method MatrixSquare(square: array<bv32>, mat: array<bv32>, ghost n: nat, ghost m: nat)
    requires square != mat && square.Length == mat.Length == 32 && Operator(mat[..], n) && m == 2 * n
    modifies square
    ensures Operator(square[..], m)
  {
    hide Zeros, Bit, Product;
    var i := 0;
    while i < 32
      invariant 0 <= i <= 32 && Operator(mat[..], n)
      invariant forall k {:trigger square[k]} :: 0 <= k < i ==> square[k] == Zeros(Bit(k), m)
    {
      square[i] := SquareColumn(mat, i, n, m);
      i := i + 1;
    }
  }

  method SquareColumn(mat: array<bv32>, i: nat, ghost n: nat, ghost m: nat) returns (c: bv32)
    requires mat.Length == 32 && i < 32 && Operator(mat[..], n) && m == 2 * n
    ensures c == Zeros(Bit(i), m)
  {
    hide Zeros, Bit, Product;
    ProductIs(mat[..], n, mat[i], 0);
    ZerosAdd(Bit(i), n, n, m);
    c := MatrixTimes(mat, mat[i]);
  }

  /** The operator for one zero bit. */
  method OneZero(odd: array<bv32>)
    requires odd.Length == 32
    modifies odd
    ensures Operator(odd[..], 1)
  {
    hide Zeros, Bit, Double;
    FirstBit();
    odd[0] := POLY;
    FirstColumn();
    var row: bv32, n := 1, 1;
    while n < 32
      invariant 1 <= n <= 32 && (n < 32 ==> row == Bit(n - 1))
      invariant forall k {:trigger odd[k]} :: 0 <= k < n ==> odd[k] == Zeros(Bit(k), 1)
    {
      odd[n] := row;
      NextColumn(n);
      row, n := Double(row), n + 1;
    }
  }

  lemma FirstColumn()
    ensures POLY == Zeros(Bit(0), 1)
  {
    hide Xor, Half, Odd, Bit;
    FirstBit();
    XorZero(POLY);
    assert Zeros(1, 1) == Shift(Zeros(1, 0)) == Shift(1);
  }

  lemma NextColumn(n: nat)
    requires 1 <= n < 32
    ensures Bit(n - 1) == Zeros(Bit(n), 1) && (n < 31 ==> Double(Bit(n - 1)) == Bit(n))
  {
    hide Xor, Half, Odd, Bit, Double;
    BitStep(n);
    assert Zeros(Bit(n), 1) == Shift(Zeros(Bit(n), 0)) == Shift(Bit(n));
  }

  // ---------------------------------------------------------------- combining

  /** The last bit of the length: the operator is applied or not, and the rest counts twice as much. */
  lemma LengthBit(crc: bv32, crc': bv32, p: nat, len: nat, goal: bv32)
    requires goal == Zeros(crc, p * len) && crc' == if len % 2 == 1 then Zeros(crc, p) else crc
    ensures goal == Zeros(crc', (2 * p) * (len / 2))
  {
    hide Zeros;
    assert p * len == (2 * p) * (len / 2) + (if len % 2 == 1 then p else 0);
    if len % 2 == 1 { ZerosAdd(crc, p, (2 * p) * (len / 2), p * len); }
  }

  /** One step: square the operator, and apply it if the last bit of the length is set. */
  method HalfRound(square: array<bv32>, mat: array<bv32>, crc: bv32, len: nat, ghost n: nat, ghost p: nat,
                   ghost goal: bv32)
    returns (crc': bv32)
    requires square != mat && square.Length == mat.Length == 32 && Operator(mat[..], n) && p == 2 * n
    requires goal == Zeros(crc, p * len)
    modifies square
    ensures Operator(square[..], p) && goal == Zeros(crc', (2 * p) * (len / 2))
  {
    hide Zeros, Operator, Product;
    MatrixSquare(square, mat, n, p);
    crc' := crc;
    if len % 2 == 1 {
      ProductIs(square[..], p, crc, 0);
      assert Up(crc, 0) == crc;
      crc' := MatrixTimes(square, crc);
    }
    LengthBit(crc, crc', p, len, goal);
  }

  /** `crc32_combine_`. */
  method Combine(crc1: bv32, crc2: bv32, len2: int) returns (r: bv32)
    ensures r == if len2 <= 0 then crc1 else Xor(Zeros(crc1, 8 * len2), crc2)
  {
    hide Zeros, Operator, Xor;
    if len2 <= 0 { return crc1; }
    var even, odd := new bv32[32], new bv32[32];
    OneZero(odd);
    MatrixSquare(even, odd, 1, 2);
    MatrixSquare(odd, even, 2, 4);
    ghost var goal, p: nat := Zeros(crc1, 8 * len2), 8;
    var crc, len: nat := crc1, len2;
    while true
      invariant len > 0 && p % 2 == 0 && Operator(odd[..], p / 2) && goal == Zeros(crc, p * len) && even != odd
      invariant even.Length == odd.Length == 32
      invariant fresh(even) && fresh(odd)
      decreases len
    {
      crc := HalfRound(even, odd, crc, len, p / 2, p, goal);
      len, p := len / 2, 2 * p;
      if len == 0 { break; }
      crc := HalfRound(odd, even, crc, len, p / 2, p, goal);
      len, p := len / 2, 2 * p;
      if len == 0 { break; }
    }
    assert goal == crc by { NoZeros(crc); }
    r := Xor(crc, crc2);
  }

  /** The checksum of a concatenation is what `crc32_combine_` makes of the two checksums. */
  lemma CombineIsConcat(crc: bv32, a: seq<Octet>, b: seq<Octet>, r: bv32)
    requires r == if |b| <= 0 then Checksum(crc, a) else Xor(Zeros(Checksum(crc, a), 8 * |b|), Checksum(0, b))
    ensures r == Checksum(crc, a + b)
  {
    hide Zeros, Xor, Checksum;
    if b == [] { assert a + b == a; } else { ChecksumConcat(crc, a, b, 8 * |b|); }
  }
}

/**
  * The CRC-32 tables and the loops that use them (dep/zlib/crc32.c): a byte at a time, and four bytes at a time on
  * machines of either byte order.
  */
module CrcTables {
  import opened Crc

  // ---------------------------------------------------------------- bytes of a word

  function Low8(c: bv32): Octet { c & 0xFF }

  function Shr8(c: bv32): bv32 { c >> 8 }

  function Shl8(c: bv32): bv32 { c << 8 }

  function Byte1(c: bv32): Octet { (c >> 8) & 0xFF }

  function Byte2(c: bv32): Octet { (c >> 16) & 0xFF }

  function Top8(c: bv32): Octet { c >> 24 }

  /** ZSWAP32. */
  function Swap(c: bv32): bv32
  {
    ((c >> 24) & 0xFF) + ((c >> 8) & 0xFF00) + ((c & 0xFF00) << 8) + ((c & 0xFF) << 24)
  }

  lemma Halves(c: bv32)
    ensures c == Xor(Low8(c), Shl8(Shr8(c))) && Shr8(Shl8(Shr8(c))) == Shr8(c) && Low8(Shl8(Shr8(c))) == 0
  {
  }

  lemma Bytes(c: bv32)
    ensures Low8(Shr8(c)) == Byte1(c) && Low8(Shr8(Shr8(c))) == Byte2(c) && Shr8(Shr8(Shr8(c))) == Top8(c)
  {
  }

  lemma SwapXor(a: bv32, b: bv32)
    ensures Swap(Xor(a, b)) == Xor(Swap(a), Swap(b))
  {
  }

  lemma SwapTwice(c: bv32)
    ensures Swap(Swap(c)) == c && Swap(Not(c)) == Not(Swap(c))
  {
  }

  lemma SwapBytes(c: bv32)
    ensures Low8(Swap(c)) == Top8(c) && Byte1(Swap(c)) == Byte2(c) && Byte2(Swap(c)) == Byte1(c)
    ensures Top8(Swap(c)) == Low8(c)
    ensures Shl8(Swap(c)) == Swap(Shr8(c))
  {
  }

  lemma Index(x: Octet)
    ensures x as nat < 256 && Word(x as nat) == x
  {
  }

  // ---------------------------------------------------------------- whole bytes of zeros

  lemma EvenStep(c: bv32, n: nat, z: bv32, m: nat)
    requires Zeros(c, n) == z && !Odd(z) && m == n + 1
    ensures Zeros(c, m) == Half(z)
  {
  }

  lemma Evens(c: bv32)
    requires Low8(c) == 0
    ensures !Odd(c) && !Odd(Half(c)) && !Odd(Half(Half(c))) && !Odd(Half(Half(Half(c)))) && !Odd(c >> 4) && !Odd(c >> 5)
    ensures !Odd(c >> 6) && !Odd(c >> 7)
    ensures Half(Half(Half(Half(c)))) == c >> 4 && Half(c >> 4) == c >> 5 && Half(c >> 5) == c >> 6
    ensures Half(c >> 6) == c >> 7 && Half(c >> 7) == Shr8(c)
  {
  }

  /** A byte of zeros passes the low bits on. */
  lemma ZeroByte(c: bv32)
    requires Low8(c) == 0
    ensures Zeros(c, 8) == Shr8(c)
  {
    hide Odd, Half, Zeros, Low8, Shr8;
    Evens(c);
    NoZeros(c);
    EvenStep(c, 0, c, 1);
    EvenStep(c, 1, Half(c), 2);
    EvenStep(c, 2, Half(Half(c)), 3);
    EvenStep(c, 3, Half(Half(Half(c))), 4);
    EvenStep(c, 4, c >> 4, 5);
    EvenStep(c, 5, c >> 5, 6);
    EvenStep(c, 6, c >> 6, 7);
    EvenStep(c, 7, c >> 7, 8);
  }

  /** The entries of table `k`: a byte followed by `k` bytes of zeros. */
  function Entry(k: nat, x: Octet): bv32
  {
    Zeros(x, 8 * k + 8)
  }

  /** A byte by table look-up. */
  lemma ByteByTable(c: bv32)
    ensures Zeros(c, 8) == Xor(Entry(0, Low8(c)), Shr8(c))
  {
    hide Xor, Zeros, Low8, Shr8, Shl8;
    Halves(c);
    ZerosLinear(Low8(c), Shl8(Shr8(c)), 8);
    ZeroByte(Shl8(Shr8(c)));
  }

  /** The low byte and the rest go through zeros apart. */
  lemma Peel(c: bv32, n: nat, t: nat)
    requires t == n + 8
    ensures Zeros(c, t) == Xor(Zeros(Low8(c), t), Zeros(Shr8(c), n))
  {
    hide Xor, Zeros, Low8, Shr8, Shl8;
    Halves(c);
    ZerosLinear(Low8(c), Shl8(Shr8(c)), t);
    ZeroByte(Shl8(Shr8(c)));
    ZerosAdd(Shl8(Shr8(c)), 8, n, t);
  }

  /** What four look-ups give, from the lowest byte on. */
  function FourLookups(b0: Octet, b1: Octet, b2: Octet, b3: Octet): bv32
  {
    Xor(Entry(3, b0), Xor(Entry(2, b1), Xor(Entry(1, b2), Entry(0, b3))))
  }

  /** Four bytes by four table look-ups. */
  lemma WordByTables(c: bv32)
    ensures Zeros(c, 32) == FourLookups(Low8(c), Byte1(c), Byte2(c), Top8(c))
  {
    hide Xor, Zeros, Low8, Shr8, Byte1, Byte2, Top8;
    Bytes(c);
    Peel(c, 24, 32);
    Peel(Shr8(c), 16, 24);
    Peel(Shr8(Shr8(c)), 8, 16);
  }

  // ---------------------------------------------------------------- bytes in memory

  /** Four bytes as a word, on a little-endian machine. */
  function Load(x0: Octet, x1: Octet, x2: Octet, x3: Octet): bv32
  {
    Xor(x0, Shl8(Xor(x1, Shl8(Xor(x2, Shl8(x3))))))
  }

  lemma LoadParts(x1: Octet, x2: Octet, x3: Octet)
    ensures var l2 := Xor(x2, Shl8(x3)); var l1 := Xor(x1, Shl8(l2));
      && Shr8(Shl8(x3)) == x3 && Shr8(Shl8(l2)) == l2 && Shr8(Shl8(l1)) == l1
      && Low8(Shl8(x3)) == Low8(Shl8(l2)) == Low8(Shl8(l1)) == 0
  {
    hide Xor, Shl8, Shr8, Low8;
    var l2 := Xor(x2, Shl8(x3));
    Wider(x2, x3);
    Wider(x1, l2);
    Comes(x3);
    Comes(l2);
    Comes(Xor(x1, Shl8(l2)));
  }

  lemma Wider(x: Octet, l: bv32)
    ensures l < 0x100 ==> Xor(x, Shl8(l)) < 0x1_0000
    ensures l < 0x1_0000 ==> Xor(x, Shl8(l)) < 0x100_0000
  {
  }

  lemma Comes(l: bv32)
    requires l < 0x100_0000
    ensures Shr8(Shl8(l)) == l && Low8(Shl8(l)) == 0
  {
  }

  /** The first byte of a word is taken in, and the others stay ahead of the register. */
  lemma Absorb(c: bv32, x: Octet, l: bv32, n: nat, t: nat)
    requires Shr8(Shl8(l)) == l && Low8(Shl8(l)) == 0 && t == n + 8
    ensures Zeros(Xor(c, Xor(x, Shl8(l))), t) == Zeros(Xor(TakeByte(c, x), l), n)
  {
    hide Xor, Zeros, Low8, Shr8, Shl8;
    XorAssoc(c, x, Shl8(l));
    ZerosLinear(Xor(c, x), Shl8(l), 8);
    ZeroByte(Shl8(l));
    ZerosAdd(Xor(Xor(c, x), Shl8(l)), 8, n, t);
  }

  function TakeFour(c: bv32, x0: Octet, x1: Octet, x2: Octet, x3: Octet): bv32
  {
    TakeByte(TakeByte(TakeByte(TakeByte(c, x0), x1), x2), x3)
  }

  lemma FourBytes(c: bv32, x0: Octet, x1: Octet, x2: Octet, x3: Octet)
    ensures Zeros(Xor(c, Load(x0, x1, x2, x3)), 32) == TakeFour(c, x0, x1, x2, x3)
  {
    hide Xor, Zeros, Low8, Shr8, Shl8;
    LoadParts(x1, x2, x3);
    Absorb(c, x0, Xor(x1, Shl8(Xor(x2, Shl8(x3)))), 24, 32);
    Absorb(TakeByte(c, x0), x1, Xor(x2, Shl8(x3)), 16, 24);
    Absorb(TakeByte(TakeByte(c, x0), x1), x2, x3, 8, 16);
  }

  lemma RegisterNext(c: bv32, buf: seq<Octet>, i: nat, j: nat)
    requires i < |buf| && j == i + 1
    ensures Register(c, buf[..j]) == TakeByte(Register(c, buf[..i]), buf[i])
  {
    hide TakeByte;
    assert buf[..j][..i] == buf[..i];
  }

  lemma RegisterFour(c: bv32, buf: seq<Octet>, i: nat, j: nat)
    requires j == i + 4 <= |buf|
    ensures Register(c, buf[..j]) == TakeFour(Register(c, buf[..i]), buf[i], buf[i + 1], buf[i + 2], buf[i + 3])
  {
    hide TakeByte, Register;
    RegisterNext(c, buf, i, i + 1);
    RegisterNext(c, buf, i + 1, i + 2);
    RegisterNext(c, buf, i + 2, i + 3);
    RegisterNext(c, buf, i + 3, j);
  }

  // ---------------------------------------------------------------- the tables

  function Word(n: nat): Octet
    requires n < 256
  {
    n as bv32
  }

  function Cell(k: nat, n: nat): bv32
    requires k < 8 && n < 256
  {
    if k < 4 then Entry(k, Word(n)) else Swap(Entry(k - 4, Word(n)))
  }

  /** Tables 0 to 3 are for little-endian machines, 4 to 7 the same with bytes swapped. */
  ghost predicate Tables(t: array2<bv32>)
    reads t
  {
    && t.Length0 == 8 && t.Length1 == 256
    && forall k: nat, n: nat {:trigger t[k, n]} :: k < 8 && n < 256 ==>
         t[k, n] == Cell(k, n)
  }

  lemma LookUp(t: array2<bv32>, k: nat, x: Octet)
    requires Tables(t) && k < 8
    ensures t.Length0 == 8 && t.Length1 == 256 && x as nat < 256 && t[k, x as nat] == if k < 4 then Entry(k, x)
            else Swap(Entry(k - 4, x))
  {
    hide Zeros, Swap;
    Index(x);
    assert t[k, x as nat] == Cell(k, x as nat);
  }

  /** 1 << (31 - n). */
  function Term(n: nat): bv32
    requires n <= 31
  {
    1 << (31 - n)
  }

  const TERMS: seq<nat> := [0, 1, 2, 4, 5, 7, 8, 10, 11, 12, 16, 22, 23, 26]

  function Pattern(n: nat): bv32
    requires n <= |TERMS|
  {
    if n == 0 then 0 else Pattern(n - 1) | (if TERMS[n - 1] <= 31 then Term(TERMS[n - 1]) else 0)
  }

  lemma PatternIsPoly()
    ensures Pattern(14) == POLY
  {
    assert Pattern(4) == 0xE800_0000;
    assert Pattern(8) == 0xEDA0_0000;
  }

  /** The tables are filled so far: all columns below `n`, and in column `n` the rows below `k`. */
  ghost predicate Filled(t: array2<bv32>, n: nat, k: nat)
    reads t
  {
    && t.Length0 == 8 && t.Length1 == 256
    && (forall m: nat {:trigger t[0, m]} :: m < 256 ==> t[0, m] == Entry(0, Word(m)))
    && (forall j: nat, m: nat {:trigger t[j, m]} ::
          j < 8 && m < 256 && (m < n || (m == n && (j < k || 4 <= j < k + 4))) ==> t[j, m] == Cell(j, m))
  }

  /** `make_crc_table`. */
  method MakeTables() returns (t: array2<bv32>)
    ensures Tables(t) && fresh(t)
  {
    hide *;
    var poly := MakePolynomial();
    t := new bv32[8, 256];
    FirstTable(t, poly);
    OtherTables(t);
  }

  method MakePolynomial() returns (poly: bv32)
    ensures poly == POLY
  {
    hide Term;
    var i := 0;
    poly := 0;
    while i < |TERMS|
      invariant i <= |TERMS| && poly == Pattern(i)
    {
      poly, i := poly | Term(TERMS[i]), i + 1;
    }
    PatternIsPoly();
  }

  /** A byte of zeros for every byte value, bit by bit. */
  method FirstTable(t: array2<bv32>, poly: bv32)
    requires t.Length0 == 8 && t.Length1 == 256 && poly == POLY
    modifies t
    ensures Filled(t, 0, 0)
  {
    hide Shift, Swap, Odd, Half, Xor, Word;
    var n: nat := 0;
    while n < 256
      invariant n <= 256 && forall m: nat {:trigger t[0, m]} :: m < n ==> t[0, m] == Entry(0, Word(m))
    {
      t[0, n] := EightBits(Word(n), poly);
      n := n + 1;
    }
  }

  method EightBits(x: bv32, poly: bv32) returns (c: bv32)
    requires poly == POLY
    ensures c == Zeros(x, 8)
  {
    hide Odd, Half, Xor;
    c := x;
    var k := 0;
    while k < 8
      invariant 0 <= k <= 8 && c == Zeros(x, k)
    {
      c := if Odd(c) then Xor(poly, Half(c)) else Half(c);
      k := k + 1;
    }
  }

  /** The same followed by one, two and three bytes of zeros, and all of them with their bytes swapped. */
  method OtherTables(t: array2<bv32>)
    requires Filled(t, 0, 0)
    modifies t
    ensures Tables(t)
  {
    hide Entry, Swap, Xor, Low8, Shr8, Word;
    var n: nat := 0;
    while n < 256
      invariant n <= 256 && Filled(t, n, 0)
    {
      Column(t, n, n + 1);
      n := n + 1;
    }
  }

  method Column(t: array2<bv32>, n: nat, ghost m: nat)
    requires n < 256 && m == n + 1 && Filled(t, n, 0)
    modifies t
    ensures Filled(t, m, 0)
  {
    hide Entry, Swap, Xor, Low8, Shr8, Word;
    var c := t[0, n];
    t[4, n] := Swap(c);
    var k: nat := 1;
    while k < 4
      invariant 1 <= k <= 4 && Filled(t, n, k) && c == Entry(k - 1, Word(n))
    {
      c := NextEntry(t, n, k, c);
      t[k, n] := c;
      t[k + 4, n] := Swap(c);
      k := k + 1;
    }
  }

  method NextEntry(t: array2<bv32>, n: nat, k: nat, c: bv32) returns (d: bv32)
    requires t.Length0 == 8 && t.Length1 == 256 && n < 256 && k >= 1 && c == Entry(k - 1, Word(n))
    requires forall m: nat {:trigger t[0, m]} :: m < 256 ==> t[0, m] == Entry(0, Word(m))
    ensures d == Entry(k, Word(n))
  {
    hide Zeros, Swap, Xor, Low8, Shr8, Word;
    Index(Low8(c));
    ByteByTable(c);
    ZerosAdd(Word(n), 8 * (k - 1) + 8, 8, 8 * k + 8);
    d := Xor(t[0, Low8(c) as nat], Shr8(c));
  }

  // ---------------------------------------------------------------- little-endian machines

  /** DO1, and the loops before and after the words. */
  method OneLittle(t: array2<bv32>, c: bv32, x: Octet) returns (d: bv32)
    requires Tables(t)
    ensures d == TakeByte(c, x)
  {
    hide Zeros, Xor, Low8, Shr8, Tables, Entry;
    ByteByTable(Xor(c, x));
    LookUp(t, 0, Low8(Xor(c, x)));
    LowBytesOnly(c, x);
    d := Xor(t[0, Low8(Xor(c, x)) as nat], Shr8(c));
  }

  lemma LowBytesOnly(c: bv32, x: Octet)
    ensures Shr8(Xor(c, x)) == Shr8(c) && Shl8(Xor(c, x)) == Xor(Shl8(c), Shl8(x))
  {
  }

  /** DOLIT4: four bytes at once. */
  method FourLittle(t: array2<bv32>, c: bv32, buf: seq<Octet>, i: nat) returns (d: bv32)
    requires Tables(t) && i + 4 <= |buf|
    ensures d == TakeFour(c, buf[i], buf[i + 1], buf[i + 2], buf[i + 3])
  {
    hide Zeros, Xor, Low8, Byte1, Byte2, Top8, Tables, Entry, Load, TakeByte;
    var w := Xor(c, Load(buf[i], buf[i + 1], buf[i + 2], buf[i + 3]));
    FourBytes(c, buf[i], buf[i + 1], buf[i + 2], buf[i + 3]);
    WordByTables(w);
    LookUp(t, 3, Low8(w));
    LookUp(t, 2, Byte1(w));
    LookUp(t, 1, Byte2(w));
    LookUp(t, 0, Top8(w));
    d := Xor(t[3, Low8(w) as nat], Xor(t[2, Byte1(w) as nat], Xor(t[1, Byte2(w) as nat], t[0, Top8(w) as nat])));
  }

  method OneByte(t: array2<bv32>, c: bv32, buf: seq<Octet>, i: nat, ghost c0: bv32, ghost j: nat) returns (d: bv32)
    requires Tables(t) && j == i + 1 <= |buf| && c == Register(c0, buf[..i])
    ensures d == Register(c0, buf[..j])
  {
    hide TakeByte, Tables, Register;
    RegisterNext(c0, buf, i, j);
    d := OneLittle(t, c, buf[i]);
  }

  /** Four bytes from `i` on, with the register before and after them. */
  method WordLittle(t: array2<bv32>, c: bv32, buf: seq<Octet>, i: nat, ghost c0: bv32, ghost j: nat) returns (d: bv32)
    requires Tables(t) && j == i + 4 <= |buf| && c == Register(c0, buf[..i])
    ensures d == Register(c0, buf[..j])
  {
    hide TakeFour, Tables, Register;
    RegisterFour(c0, buf, i, j);
    d := FourLittle(t, c, buf, i);
  }

  /** DOLIT32. */
  method EightWordsLittle(t: array2<bv32>, c: bv32, buf: seq<Octet>, i: nat, ghost c0: bv32, ghost j: nat)
      returns (d: bv32)
    requires Tables(t) && j == i + 32 <= |buf| && c == Register(c0, buf[..i])
    ensures d == Register(c0, buf[..j])
  {
    hide Tables, Register;
    d := WordLittle(t, c, buf, i, c0, i + 4);
    d := WordLittle(t, d, buf, i + 4, c0, i + 8);
    d := WordLittle(t, d, buf, i + 8, c0, i + 12);
    d := WordLittle(t, d, buf, i + 12, c0, i + 16);
    d := WordLittle(t, d, buf, i + 16, c0, i + 20);
    d := WordLittle(t, d, buf, i + 20, c0, i + 24);
    d := WordLittle(t, d, buf, i + 24, c0, i + 28);
    d := WordLittle(t, d, buf, i + 28, c0, j);
  }

  /** `crc32_little`, for a buffer that starts at the address `addr`. */
  method ChecksumLittle(t: array2<bv32>, crc: bv32, buf: seq<Octet>, addr: nat) returns (r: bv32)
    requires Tables(t)
    ensures r == Checksum(crc, buf)
  {
    hide Tables, Register, Not, TakeByte;
    ghost var c0 := Not(crc);
    var c, i := Not(crc), 0;
    assert c == Register(c0, buf[..0]) by { NothingTaken(c0, buf); }
    while i < |buf| && (addr + i) % 4 != 0
      invariant 0 <= i <= |buf| && c == Register(c0, buf[..i])
    {
      c := OneByte(t, c, buf, i, c0, i + 1);
      i := i + 1;
    }
    while |buf| - i >= 32
      invariant 0 <= i <= |buf| && c == Register(c0, buf[..i])
    {
      c := EightWordsLittle(t, c, buf, i, c0, i + 32);
      i := i + 32;
    }
    while |buf| - i >= 4
      invariant 0 <= i <= |buf| && c == Register(c0, buf[..i])
    {
      c := WordLittle(t, c, buf, i, c0, i + 4);
      i := i + 4;
    }
    while i < |buf|
      invariant 0 <= i <= |buf| && c == Register(c0, buf[..i])
    {
      c := OneByte(t, c, buf, i, c0, i + 1);
      i := i + 1;
    }
    assert buf[..i] == buf;
    r := Not(c);
  }

  lemma NothingTaken(c: bv32, buf: seq<Octet>)
    ensures Register(c, buf[..0]) == c
  {
  }

  // ---------------------------------------------------------------- big-endian machines

  /** The same on the swapped register. */
  method OneBig(t: array2<bv32>, c: bv32, x: Octet) returns (d: bv32)
    requires Tables(t)
    ensures d == Swap(TakeByte(Swap(c), x))
  {
    hide Zeros, Xor, Low8, Top8, Shr8, Shl8, Swap, Tables, Entry;
    var s := Swap(c);
    SwapTwice(c);
    SwapBytes(s);
    LowXorOctet(s, x);
    LookUp(t, 4, Low8(Xor(s, x)));
    ByteByTable(Xor(s, x));
    LowBytesOnly(s, x);
    SwapXor(Entry(0, Low8(Xor(s, x))), Shr8(s));
    d := Xor(t[4, Xor(Top8(c), x) as nat], Shl8(c));
  }

  lemma LowXorOctet(c: bv32, x: Octet)
    ensures Low8(Xor(c, x)) == Xor(Low8(c), x)
  {
  }

  /** DOBIG4: the word in memory is loaded with its bytes swapped. */
  method FourBig(t: array2<bv32>, c: bv32, buf: seq<Octet>, i: nat) returns (d: bv32)
    requires Tables(t) && i + 4 <= |buf|
    ensures d == Swap(TakeFour(Swap(c), buf[i], buf[i + 1], buf[i + 2], buf[i + 3]))
  {
    hide Zeros, Xor, Low8, Byte1, Byte2, Top8, Shl8, Swap, Tables, Entry, Load, TakeByte;
    var load := Load(buf[i], buf[i + 1], buf[i + 2], buf[i + 3]);
    var w := Xor(c, Swap(load));
    ghost var v := Xor(Swap(c), load);
    SwapTwice(c);
    SwapXor(Swap(c), load);
    SwapTwice(v);
    SwapBytes(v);
    FourBytes(Swap(c), buf[i], buf[i + 1], buf[i + 2], buf[i + 3]);
    WordByTables(v);
    LookUp(t, 4, Low8(w));
    LookUp(t, 5, Byte1(w));
    LookUp(t, 6, Byte2(w));
    LookUp(t, 7, Top8(w));
    d := Xor(t[4, Low8(w) as nat], Xor(t[5, Byte1(w) as nat], Xor(t[6, Byte2(w) as nat], t[7, Top8(w) as nat])));
    FourSwapped(Top8(w), Byte2(w), Byte1(w), Low8(w));
  }

  lemma FourSwapped(b0: Octet, b1: Octet, b2: Octet, b3: Octet)
    ensures Swap(FourLookups(b0, b1, b2, b3))
            == Xor(Swap(Entry(0, b3)), Xor(Swap(Entry(1, b2)), Xor(Swap(Entry(2, b1)), Swap(Entry(3, b0)))))
  {
    hide Xor, Swap, Entry;
    var e0, e1, e2, e3 := Entry(0, b3), Entry(1, b2), Entry(2, b1), Entry(3, b0);
    SwapXor(e3, Xor(e2, Xor(e1, e0)));
    SwapXor(e2, Xor(e1, e0));
    SwapXor(e1, e0);
    Reversed(Swap(e3), Swap(e2), Swap(e1), Swap(e0));
  }

  lemma Reversed(a: bv32, b: bv32, c: bv32, d: bv32)
    ensures Xor(a, Xor(b, Xor(c, d))) == Xor(d, Xor(c, Xor(b, a)))
  {
    hide Xor;
    XorCommutes(a, Xor(b, Xor(c, d)));
    XorCommutes(b, Xor(c, d));
    XorCommutes(c, d);
    XorAssoc(Xor(d, c), b, a);
    XorAssoc(d, c, Xor(b, a));
  }

  /** Four bytes from `i` on; `c0` is the register as a little-endian machine would have it at the start. */
  method WordBig(t: array2<bv32>, c: bv32, buf: seq<Octet>, i: nat, ghost c0: bv32, ghost j: nat) returns (d: bv32)
    requires Tables(t) && j == i + 4 <= |buf| && c == Swap(Register(c0, buf[..i]))
    ensures d == Swap(Register(c0, buf[..j]))
  {
    hide TakeFour, Tables, Register, Swap;
    RegisterFour(c0, buf, i, j);
    SwapTwice(Register(c0, buf[..i]));
    d := FourBig(t, c, buf, i);
  }

  /** DOBIG32. */
  method EightWordsBig(t: array2<bv32>, c: bv32, buf: seq<Octet>, i: nat, ghost c0: bv32, ghost j: nat)
      returns (d: bv32)
    requires Tables(t) && j == i + 32 <= |buf| && c == Swap(Register(c0, buf[..i]))
    ensures d == Swap(Register(c0, buf[..j]))
  {
    hide Tables, Register, Swap;
    d := WordBig(t, c, buf, i, c0, i + 4);
    d := WordBig(t, d, buf, i + 4, c0, i + 8);
    d := WordBig(t, d, buf, i + 8, c0, i + 12);
    d := WordBig(t, d, buf, i + 12, c0, i + 16);
    d := WordBig(t, d, buf, i + 16, c0, i + 20);
    d := WordBig(t, d, buf, i + 20, c0, i + 24);
    d := WordBig(t, d, buf, i + 24, c0, i + 28);
    d := WordBig(t, d, buf, i + 28, c0, j);
  }

  /** One byte from `i` on. */
  method ByteBig(t: array2<bv32>, c: bv32, buf: seq<Octet>, i: nat, ghost c0: bv32, ghost j: nat) returns (d: bv32)
    requires Tables(t) && j == i + 1 <= |buf| && c == Swap(Register(c0, buf[..i]))
    ensures d == Swap(Register(c0, buf[..j]))
  {
    hide TakeByte, Tables, Register, Swap;
    RegisterNext(c0, buf, i, j);
    SwapTwice(Register(c0, buf[..i]));
    d := OneBig(t, c, buf[i]);
  }

  /** `crc32_big`, for a buffer that starts at the address `addr`. */
  method ChecksumBig(t: array2<bv32>, crc: bv32, buf: seq<Octet>, addr: nat) returns (r: bv32)
    requires Tables(t)
    ensures r == Checksum(crc, buf)
  {
    hide Tables, Register, Not, TakeByte, Swap;
    ghost var c0 := Not(crc);
    var c, i := Not(Swap(crc)), 0;
    SwapTwice(crc);
    assert c == Swap(Register(c0, buf[..0])) by { NothingTaken(c0, buf); }
    while i < |buf| && (addr + i) % 4 != 0
      invariant 0 <= i <= |buf| && c == Swap(Register(c0, buf[..i]))
    {
      c := ByteBig(t, c, buf, i, c0, i + 1);
      i := i + 1;
    }
    while |buf| - i >= 32
      invariant 0 <= i <= |buf| && c == Swap(Register(c0, buf[..i]))
    {
      c := EightWordsBig(t, c, buf, i, c0, i + 32);
      i := i + 32;
    }
    while |buf| - i >= 4
      invariant 0 <= i <= |buf| && c == Swap(Register(c0, buf[..i]))
    {
      c := WordBig(t, c, buf, i, c0, i + 4);
      i := i + 4;
    }
    while i < |buf|
      invariant 0 <= i <= |buf| && c == Swap(Register(c0, buf[..i]))
    {
      c := ByteBig(t, c, buf, i, c0, i + 1);
      i := i + 1;
    }
    assert buf[..i] == buf;
    SwapTwice(Register(c0, buf));
    r := Swap(Not(c));
    SwapTwice(c);
  }

  // ---------------------------------------------------------------- byte at a time

  /** DO8. */
  method EightBytes(t: array2<bv32>, c: bv32, buf: seq<Octet>, i: nat, ghost c0: bv32, ghost j: nat) returns (d: bv32)
    requires Tables(t) && j == i + 8 <= |buf| && c == Register(c0, buf[..i])
    ensures d == Register(c0, buf[..j])
  {
    hide Tables, Register;
    d := OneByte(t, c, buf, i, c0, i + 1);
    d := OneByte(t, d, buf, i + 1, c0, i + 2);
    d := OneByte(t, d, buf, i + 2, c0, i + 3);
    d := OneByte(t, d, buf, i + 3, c0, i + 4);
    d := OneByte(t, d, buf, i + 4, c0, i + 5);
    d := OneByte(t, d, buf, i + 5, c0, i + 6);
    d := OneByte(t, d, buf, i + 6, c0, i + 7);
    d := OneByte(t, d, buf, i + 7, c0, j);
  }

  /** `crc32` on machines whose byte order is not known, eight bytes a round. */
  method ChecksumBytes(t: array2<bv32>, crc: bv32, buf: seq<Octet>) returns (r: bv32)
    requires Tables(t)
    ensures r == Checksum(crc, buf)
  {
    hide Tables, Register, Xor, Not;
    ghost var c0 := Not(crc);
    NotIs(crc);
    var c, i := Xor(crc, 0xFFFF_FFFF), 0;
    assert c == Register(c0, buf[..0]) by { NothingTaken(c0, buf); }
    while |buf| - i >= 8
      invariant 0 <= i <= |buf| && c == Register(c0, buf[..i])
    {
      c := EightBytes(t, c, buf, i, c0, i + 8);
      i := i + 8;
    }
    while i < |buf|
      invariant 0 <= i <= |buf| && c == Register(c0, buf[..i])
    {
      c := OneByte(t, c, buf, i, c0, i + 1);
      i := i + 1;
    }
    assert buf[..i] == buf;
    NotIs(c);
    r := Xor(c, 0xFFFF_FFFF);
  }
}

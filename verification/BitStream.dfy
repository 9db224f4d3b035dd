/**
  * The bit stream of DEFLATE: bytes are filled from the least significant bit, and numbers are sent least significant
  * bit first (section 3.1.1 of RFC 1951).
  *
  * `BitWriter` is the output side of dep/zlib/trees.c, `BitReader` the bit accumulator of dep/zlib/inflate.c. Both
  * are specified by the plain sequence of bits that they stand for.
  */
module BitStream {
  import opened Arith

  type Bits = seq<bool>
  type Byte = b: nat | b < 256

  /** The low `n` bits of `v`, least significant first. */
  function ToBits(v: nat, n: nat): (s: Bits)
    ensures |s| == n
  {
    if n == 0 then [] else [v % 2 == 1] + ToBits(v / 2, n - 1)
  }

  function FromBits(s: Bits): nat
  {
    if s == [] then 0 else (if s[0] then 1 else 0) + 2 * FromBits(s[1..])
  }

  /** All bits of a sequence of bytes. */
  function BytesBits(s: seq<Byte>): (r: Bits)
    ensures |r| == 8 * |s|
  {
    if s == [] then [] else BytesBits(s[..|s| - 1]) + ToBits(s[|s| - 1], 8)
  }

  lemma {:induction false} BytesBitsConcat(a: seq<Byte>, b: seq<Byte>)
    ensures BytesBits(a + b) == BytesBits(a) + BytesBits(b)
  {
    hide ToBits;
    if b == [] {
      assert a + b == a;
    } else {
      BytesBitsConcat(a, b[..|b| - 1]);
      assert (a + b)[..|a + b| - 1] == a + b[..|b| - 1];
    }
  }

  lemma BytesBitsOne(b: Byte)
    ensures BytesBits([b]) == ToBits(b, 8)
  {
    assert [b][..0] == [];
    assert BytesBits([b][..0]) == [];
  }

  /** Different bytes have different bits. */
  lemma {:induction false} BytesBitsPrefix(a: seq<Byte>, b: seq<Byte>)
    requires BytesBits(a) <= BytesBits(b)
    ensures a <= b
    decreases |b|
  {
    hide ToBits;
    var n, m := |a| - 1, |b| - 1;
    if a != [] && |a| == |b| {
      assert BytesBits(a)[..8 * n] == BytesBits(a[..n]) && BytesBits(b)[..8 * n] == BytesBits(b[..n]);
      assert BytesBits(a)[8 * n..] == ToBits(a[n], 8) && BytesBits(b)[8 * n..] == ToBits(b[n], 8);
      BytesBitsPrefix(a[..n], b[..n]);
      SameByte(a[n], b[n]);
      assert a == a[..n] + [a[n]] && b == b[..n] + [b[n]];
    } else if a != [] {
      assert BytesBits(b)[..8 * m] == BytesBits(b[..m]);
      BytesBitsPrefix(a, b[..m]);
    }
  }

  lemma SameByte(a: Byte, b: Byte)
    requires ToBits(a, 8) == ToBits(b, 8)
    ensures a == b
  {
    FromToBits(a, 8);
    FromToBits(b, 8);
    ByteRange();
    LowSmall(a, 8);
    LowSmall(b, 8);
  }


  /** Numbers and bit strings of a fixed width are the same thing. */
  lemma {:induction false} FromToBits(v: nat, n: nat)
    ensures FromBits(ToBits(v, n)) == Low(v, n)
  {
    if n != 0 { FromToBits(v / 2, n - 1); }
  }

  lemma {:induction false} ToFromBits(s: Bits)
    ensures ToBits(FromBits(s), |s|) == s
  {
    if s != [] { ToFromBits(s[1..]); }
  }

  lemma {:induction false} ToBitsLow(v: nat, n: nat)
    ensures ToBits(Low(v, n), n) == ToBits(v, n)
  {
    if n != 0 { ToBitsLow(v / 2, n - 1); }
  }

  /** Cutting a word into a low and a high part cuts its bit string. */
  lemma {:induction false} ToBitsSplit(v: nat, a: nat, b: nat)
    ensures ToBits(v, a + b) == ToBits(v, a) + ToBits(High(v, a), b)
  {
    if a != 0 { ToBitsSplit(v / 2, a - 1, b); }
  }

  /** Placing `b` above the `n` bits of `a` concatenates the bit strings. */
  lemma ToBitsConcat(a: nat, b: nat, n: nat, m: nat)
    requires a < Pow2(n)
    ensures ToBits(a + Shl(b, n), n + m) == ToBits(a, n) + ToBits(b, m)
  {
    ToBitsSplit(a + Shl(b, n), n, m);
    Concat(a, b, n);
    ToBitsLow(a + Shl(b, n), n);
    LowSmall(a, n);
  }

  /** Bitwise or. */
  function Or(a: nat, b: nat): nat
    decreases a + b
  {
    if a == 0 then b else if b == 0 then a
    else (if a % 2 == 1 || b % 2 == 1 then 1 else 0) + 2 * Or(a / 2, b / 2)
  }

  /** Words without common bits: or is addition. */
  lemma {:induction false} OrDisjoint(a: nat, b: nat, n: nat)
    requires a < Pow2(n)
    ensures Or(a, Shl(b, n)) == a + Shl(b, n)
  {
    if n != 0 && a != 0 && Shl(b, n) != 0 { OrDisjoint(a / 2, b, n - 1); }
  }

  const BUF_SIZE: nat := 16

  /** The low and the high byte of a 16-bit word. */
  lemma ShortBits(w: nat)
    requires w < Pow2(16)
    ensures Low(w, 8) < 256 && High(w, 8) < 256
    ensures ToBits(Low(w, 8), 8) + ToBits(High(w, 8), 8) == ToBits(w, 16)
  {
    LowBound(w, 8);
    assert Pow2(8) == 256;
    HighBound(w, 8, 8);
    ToBitsSplit(w, 8, 8);
    ToBitsLow(w, 8);
  }

  lemma {:induction false} HighBound(w: nat, a: nat, b: nat)
    requires w < Pow2(a + b)
    ensures High(w, a) < Pow2(b)
  {
    if a != 0 { HighBound(w / 2, a - 1, b); }
  }

  lemma ByteRange()
    ensures Pow2(8) == 256
  {
  }

  lemma ShortRange()
    ensures Pow2(16) == 65536
  {
    assert Pow2(10) == 1024;
  }

  class BitWriter {
    var pending: seq<Byte>
    var biBuf: nat
    var biValid: nat

    ghost predicate Valid()
      reads this
    {
      biValid <= BUF_SIZE && biBuf < Pow2(biValid)
    }

    /** Everything sent so far. */
    ghost function Stream(): Bits
      reads this
    {
      BytesBits(pending) + ToBits(biBuf, biValid)
    }

    constructor ()
      ensures Valid() && Stream() == [] && pending == [] && biValid == 0
    {
      pending, biBuf, biValid := [], 0, 0;
    }

    method PutByte(b: Byte)
      modifies this`pending
      ensures pending == old(pending) + [b]
    {
      pending := pending + [b];
    }

    method PutShort(w: nat)
      requires w < Pow2(16)
      modifies this`pending
      ensures |pending| == |old(pending)| + 2
      ensures BytesBits(pending) == BytesBits(old(pending)) + ToBits(w, 16)
    {
      ShortBits(w);
      pending := pending + [Low(w, 8)];
      pending := pending + [High(w, 8)];
      ghost var p := old(pending);
      assert pending == p + ([Low(w, 8)] + [High(w, 8)]);
      BytesBitsConcat(p, [Low(w, 8)] + [High(w, 8)]);
      BytesBitsConcat([Low(w, 8)], [High(w, 8)]);
      BytesBitsOne(Low(w, 8));
      BytesBitsOne(High(w, 8));
    }

    /** Sends `value` in `length` bits. */
    method SendBits(value: nat, length: nat)
      requires Valid() && length <= BUF_SIZE && value < Pow2(length)
      modifies this
      ensures Valid() && Stream() == old(Stream()) + ToBits(value, length)
    {
      hide Low, High, Or, Shl, Pow2, ToBits, BytesBits;
      var w := Low(Or(biBuf, Shl(value, biValid)), BUF_SIZE);
      OrDisjoint(biBuf, value, biValid);
      if biValid > BUF_SIZE - length {
        SpillStream(BytesBits(pending), biBuf, biValid, value, length, BUF_SIZE);
        PutShort(w);
        biBuf := High(value, BUF_SIZE - biValid);
        biValid := biValid + length - BUF_SIZE;
      } else {
        FitBits(biBuf, biValid, value, length, BUF_SIZE);
        Assoc(BytesBits(pending), ToBits(biBuf, biValid), ToBits(value, length));
        biBuf := w;
        biValid := biValid + length;
      }
    }

    /** Moves whole bytes out of the bit buffer; at most 7 bits remain. */
    method BiFlush()
      requires Valid()
      modifies this
      ensures Valid() && biValid < 8 && Stream() == old(Stream())
      ensures old(biValid) < 8 ==> biValid == old(biValid) && pending == old(pending)
    {
      hide Low, High, Pow2, BytesBits;
      if biValid == 16 {
        PutShort(biBuf);
        biBuf, biValid := 0, 0;
      } else if biValid >= 8 {
        ShortFlush(biBuf, biValid);
        BytesBitsConcat(pending, [Low(biBuf, 8)]);
        BytesBitsOne(Low(biBuf, 8));
        PutByte(Low(biBuf, 8));
        biBuf := High(biBuf, 8);
        biValid := biValid - 8;
      }
    }

    /** Pads with zero bits to a byte boundary. */
    method BiWindup()
      requires Valid()
      modifies this
      ensures Valid() && biValid == 0 && biBuf == 0
      ensures Stream() == Padded(old(Stream())) && Stream() == BytesBits(pending)
    {
      hide Pow2, ToBits, BytesBits, Low, Zeros, Padded;
      if biValid > 8 {
        WindupBits(biBuf, biValid, 16);
        Pow2Mono(biValid, 16);
        PadIs(BytesBits(pending), ToBits(biBuf, biValid), 16);
        PutShort(biBuf);
      } else if biValid > 0 {
        WindupBits(biBuf, biValid, 8);
        Pow2Mono(biValid, 8);
        LowSmall(biBuf, 8);
        ByteRange();
        PadIs(BytesBits(pending), ToBits(biBuf, biValid), 8);
        BytesBitsConcat(pending, [Low(biBuf, 8)]);
        BytesBitsOne(Low(biBuf, 8));
        PutByte(Low(biBuf, 8));
      } else {
        PadIs(BytesBits(pending), ToBits(biBuf, biValid), 0);
      }
      biBuf, biValid := 0, 0;
    }

    /** Aligns, sends the length and its one's complement, and copies the bytes. */
    method CopyBlock(buf: seq<Byte>)
      requires Valid() && |buf| < 65536
      modifies this
      ensures Valid() && biValid == 0
      ensures Stream() == Padded(old(Stream())) + ToBits(|buf|, 16) + ToBits(65535 - |buf|, 16) + BytesBits(buf)
    {
      ShortRange();
      BiWindup();
      PutShort(|buf|);
      PutShort(65535 - |buf|);
      PutBytes(buf);
      NoMoreBits(BytesBits(pending), biBuf);
    }

    method PutBytes(buf: seq<Byte>)
      requires biValid == 0
      modifies this`pending
      ensures BytesBits(pending) == BytesBits(old(pending)) + BytesBits(buf)
    {
      var i := 0;
      while i < |buf|
        invariant i <= |buf| && pending == old(pending) + buf[..i]
      {
        PutByte(buf[i]);
        assert buf[..i + 1] == buf[..i] + [buf[i]];
        i := i + 1;
      }
      assert buf[..i] == buf;
      BytesBitsConcat(old(pending), buf);
    }
  }

  function Zeros(n: nat): (z: Bits)
    ensures |z| == n
  {
    if n == 0 then [] else [false] + Zeros(n - 1)
  }

  /** A stream padded with zero bits to the next byte boundary. */
  function Padded(s: Bits): (r: Bits)
    ensures |r| % 8 == 0
  {
    s + Zeros((8 - |s| % 8) % 8)
  }

  lemma {:induction false} ZeroBits(n: nat)
    ensures ToBits(0, n) == Zeros(n)
  {
    if n != 0 { ZeroBits(n - 1); }
  }

  lemma WindupBits(w: nat, n: nat, m: nat)
    requires w < Pow2(n) && n <= m
    ensures ToBits(w, m) == ToBits(w, n) + Zeros(m - n)
  {
    ToBitsSplit(w, n, m - n);
    LowSmall(w, n);
    ZeroBits(m - n);
  }

  lemma PadIs(whole: Bits, rest: Bits, m: nat)
    requires |whole| % 8 == 0 && |rest| <= m < |rest| + 8 && m % 8 == 0
    ensures Padded(whole + rest) == whole + (rest + Zeros(m - |rest|))
  {
  }

  lemma NoMoreBits(a: Bits, v: nat)
    ensures a + ToBits(v, 0) == a
  {
  }

  lemma Assoc(a: Bits, b: Bits, c: Bits)
    ensures (a + b) + c == a + (b + c)
  {
  }

  lemma Join(a: Bits, w: Bits, h: Bits, b: Bits, v: Bits)
    requires w + h == b + v
    ensures (a + w) + h == (a + b) + v
    ensures w == [] ==> a + h == (a + b) + v
  {
    assert (a + w) + h == a + (w + h);
    assert (a + b) + v == a + (b + v);
    if w == [] { assert w + h == h; }
  }

  lemma AboveBound(buf: nat, valid: nat, value: nat, length: nat)
    requires buf < Pow2(valid) && value < Pow2(length)
    ensures buf + Shl(value, valid) < Pow2(valid + length)
  {
    ShlMono(value + 1, Pow2(length), valid);
    ShlAdd(value, 1, valid);
    ShlOne(valid);
    ShlOne(length);
    ShlShl(1, length, valid);
    ShlOne(valid + length);
  }

  lemma FitBits(buf: nat, valid: nat, value: nat, length: nat, size: nat)
    requires buf < Pow2(valid) && value < Pow2(length) && valid + length <= size
    ensures buf + Shl(value, valid) < Pow2(valid + length)
    ensures Low(buf + Shl(value, valid), size) == buf + Shl(value, valid)
    ensures ToBits(buf + Shl(value, valid), valid + length) == ToBits(buf, valid) + ToBits(value, length)
  {
    AboveBound(buf, valid, value, length);
    Pow2Mono(valid + length, size);
    LowSmall(buf + Shl(value, valid), size);
    ToBitsConcat(buf, value, valid, length);
  }

  lemma SpillBits(buf: nat, valid: nat, value: nat, length: nat, size: nat)
    requires buf < Pow2(valid) && value < Pow2(length) && valid <= size < valid + length
    ensures High(value, size - valid) < Pow2(valid + length - size)
    ensures ToBits(Low(buf + Shl(value, valid), size), size) + ToBits(High(value, size - valid), valid + length - size)
         == ToBits(buf, valid) + ToBits(value, length)
  {
    var room := size - valid;
    HighBound(value, room, length - room);
    ToBitsLow(buf + Shl(value, valid), size);
    ToBitsConcat(buf, value, valid, room);
    ToBitsSplit(value, room, length - room);
    Assoc(ToBits(buf, valid), ToBits(value, room), ToBits(High(value, room), length - room));
  }

  lemma SpillStream(p: Bits, buf: nat, valid: nat, value: nat, length: nat, size: nat)
    requires buf < Pow2(valid) && value < Pow2(length) && valid <= size < valid + length
    ensures High(value, size - valid) < Pow2(valid + length - size)
    ensures Low(buf + Shl(value, valid), size) < Pow2(size)
    ensures (p + ToBits(Low(buf + Shl(value, valid), size), size))
            + ToBits(High(value, size - valid), valid + length - size)
         == (p + ToBits(buf, valid)) + ToBits(value, length)
  {
    var w, h, m := Low(buf + Shl(value, valid), size), High(value, size - valid), valid + length - size;
    LowBound(buf + Shl(value, valid), size);
    SpillBits(buf, valid, value, length, size);
    Join(p, ToBits(w, size), ToBits(h, m), ToBits(buf, valid), ToBits(value, length));
  }

  lemma ShortFlush(buf: nat, valid: nat)
    requires buf < Pow2(valid) && 8 <= valid
    ensures Low(buf, 8) < 256 && High(buf, 8) < Pow2(valid - 8)
    ensures ToBits(Low(buf, 8), 8) + ToBits(High(buf, 8), valid - 8) == ToBits(buf, valid)
  {
    LowBound(buf, 8);
    assert Pow2(8) == 256;
    HighBound(buf, 8, valid - 8);
    ToBitsSplit(buf, 8, valid - 8);
    ToBitsLow(buf, 8);
  }

  // ---------------------------------------------------------------- reading

  class BitReader {
    var input: seq<Byte>
    var next: nat
    var hold: nat
    var bits: nat

    ghost predicate Valid()
      reads this
    {
      next <= |input| && hold < Pow2(bits)
    }

    /** Everything not read yet. */
    ghost function Remaining(): Bits
      reads this
      requires Valid()
    {
      ToBits(hold, bits) + BytesBits(input[next..])
    }

    constructor ()
      ensures Valid() && input == [] && Remaining() == [] && bits == 0
    {
      input, next, hold, bits := [], 0, 0, 0;
    }

    /** More input becomes available. */
    method Supply(data: seq<Byte>)
      requires Valid()
      modifies this`input
      ensures Valid() && input == old(input) + data && Remaining() == old(Remaining()) + BytesBits(data)
    {
      ghost var rest := input[next..];
      BytesBitsConcat(rest, data);
      Assoc(ToBits(hold, bits), BytesBits(rest), BytesBits(data));
      input := input + data;
      assert input[next..] == rest + data;
    }

    /** Takes one byte into the accumulator, if there is one. */
    method PullByte() returns (ok: bool)
      requires Valid()
      modifies this`next, this`hold, this`bits
      ensures Valid() && Remaining() == old(Remaining())
      ensures ok == (old(next) < |input|) && bits == (if ok then old(bits) + 8 else old(bits))
      ensures next == (if ok then old(next) + 1 else old(next))
      ensures hold == if ok then old(hold) + Shl(input[old(next)], old(bits)) else old(hold)
    {
      ok := next < |input|;
      if ok {
        PullStream(input, next, hold, bits);
        hold := hold + Shl(input[next], bits);
        next, bits := next + 1, bits + 8;
      }
    }

    /** Makes at least `n` bits available, one byte at a time, unless the input ends first. */
    method NeedBits(n: nat) returns (ok: bool)
      requires Valid()
      modifies this`next, this`hold, this`bits
      ensures Valid() && Remaining() == old(Remaining())
      ensures ok <==> |Remaining()| >= n
      ensures if ok then n <= bits else bits < n && next == |input|
      ensures bits >= old(bits) && (bits == old(bits) || bits < n + 8)
      ensures bits % 8 == old(bits) % 8
    {
      hide Pow2, ToBits, BytesBits;
      while bits < n
        invariant Valid() && Remaining() == old(Remaining()) && bits % 8 == old(bits) % 8
        invariant bits >= old(bits) && (bits == old(bits) || bits < n + 8)
        decreases |input| - next
      {
        if next == |input| {
          assert input[next..] == [];
          return false;
        }
        var _ := PullByte();
      }
      ok := true;
    }

    /** The next `n` bits as a number, without consuming them. */
    function Peek(n: nat): nat
      reads this
    {
      Low(hold, n)
    }

    method DropBits(n: nat)
      requires Valid() && n <= bits
      modifies this`hold, this`bits
      ensures Valid() && bits == old(bits) - n && |old(Remaining())| >= n && Remaining() == old(Remaining())[n..]
      ensures hold == High(old(hold), n)
      ensures FromBits(old(Remaining())[..n]) == old(Peek(n))
    {
      HighBound(hold, n, bits - n);
      ToBitsSplit(hold, n, bits - n);
      ToBitsLow(hold, n);
      FromToBits(hold, n);
      assert Remaining()[..n] == ToBits(hold, n);
      hold, bits := High(hold, n), bits - n;
    }

    /** Takes two numbers, of `m` and of `n` bits, when there are bits enough for both. */
    method TakeTwo(m: nat, n: nat) returns (ok: bool, v: nat, w: nat)
      requires Valid()
      modifies this`next, this`hold, this`bits
      ensures Valid() && (ok <==> |old(Remaining())| >= m + n)
      ensures ok ==>
              Remaining() == old(Remaining())[m + n..] && v == FromBits(old(Remaining())[..m])
              && w == FromBits(old(Remaining())[m..m + n])
      ensures !ok ==> Remaining() == old(Remaining()) && old(bits) <= bits < m + n
      ensures old(bits) < m + n + 8 ==> bits < if ok then 8 else m + n
    {
      hide *;
      ghost var R := Remaining();
      v, w := 0, 0;
      ok := NeedBits(m + n);
      if ok {
        v := Peek(m);
        DropBits(m);
        w := Peek(n);
        DropBits(n);
        SliceSlice(R, m, n);
      }
    }

    /** Takes three numbers, when there are bits enough for all. */
    method TakeThree(k: nat, m: nat, n: nat) returns (ok: bool, u: nat, v: nat, w: nat)
      requires Valid()
      modifies this`next, this`hold, this`bits
      ensures Valid() && (ok <==> |old(Remaining())| >= k + m + n)
      ensures ok ==> Remaining() == old(Remaining())[k + m + n..] && u == FromBits(old(Remaining())[..k])
                     && v == FromBits(old(Remaining())[k..k + m]) && w == FromBits(old(Remaining())[k + m..k + m + n])
      ensures !ok ==> Remaining() == old(Remaining()) && bits < k + m + n
      ensures old(bits) < k + m + n + 8 ==> bits < if ok then 8 else k + m + n
    {
      hide *;
      ghost var R := Remaining();
      u, v, w := 0, 0, 0;
      ok := NeedBits(k + m + n);
      if ok {
        u := Peek(k);
        DropBits(k);
        v := Peek(m);
        DropBits(m);
        w := Peek(n);
        DropBits(n);
        SliceSlice(R, k, m);
        SliceSlice(R, k + m, n);
      }
    }

    /** Drops up to seven bits to get to a byte boundary. */
    method ByteBits() returns (n: nat)
      requires Valid()
      modifies this`hold, this`bits
      ensures Valid() && n == old(bits) % 8 && n <= old(bits) && bits == old(bits) - n && bits % 8 == 0
      ensures n <= |old(Remaining())| && Remaining() == old(Remaining())[n..]
    {
      n := bits % 8;
      DropBits(n);
    }

    /** Takes two numbers of 16 bits, and leaves an empty accumulator. */
    method TakeShorts() returns (ok: bool, v: nat, w: nat)
      requires Valid() && bits % 8 == 0 && bits <= 32
      modifies this`next, this`hold, this`bits
      ensures Valid() && (ok <==> |old(Remaining())| >= 32)
      ensures ok ==>
              bits == 0 && Remaining() == old(Remaining())[32..] && v == FromBits(old(Remaining())[..16])
              && w == FromBits(old(Remaining())[16..32])
      ensures !ok ==> Remaining() == old(Remaining()) && bits % 8 == 0 && bits < 32
    {
      hide *;
      ghost var R := Remaining();
      v, w := 0, 0;
      ok := NeedBits(32);
      if ok {
        FourBytes(bits);
        v := Peek(16);
        DropBits(16);
        w := Peek(16);
        DropBits(16);
        SliceSlice(R, 16, 16);
      }
    }

    /** Takes whole bytes past an empty accumulator. */
    method TakeBytes(n: nat) returns (b: seq<Byte>)
      requires Valid() && bits == 0 && n <= |input| - next
      modifies this`next
      ensures Valid() && |b| == n && next == old(next) + n && BytesBits(b) <= old(Remaining())
      ensures Remaining() == old(Remaining())[8 * n..]
    {
      hide BytesBits, ToBits, Pow2;
      b := input[next..next + n];
      ghost var rest := input[next + n..];
      assert input[next..] == b + rest;
      BytesBitsConcat(b, rest);
      NoMoreBits([], hold);
      assert Remaining() == BytesBits(b) + BytesBits(rest);
      next := next + n;
    }

    /** Takes `n` bits: NEEDBITS, BITS and DROPBITS in a row. */
    method TakeBits(n: nat) returns (ok: bool, v: nat)
      requires Valid()
      modifies this`next, this`hold, this`bits
      ensures Valid() && (ok <==> |old(Remaining())| >= n)
      ensures ok ==> Remaining() == old(Remaining())[n..] && v == FromBits(old(Remaining())[..n])
      ensures !ok ==> Remaining() == old(Remaining()) && bits < n
      ensures old(bits) < n + 8 ==> bits < if ok then 8 else n
    {
      v := 0;
      ok := NeedBits(n);
      if ok {
        v := Peek(n);
        DropBits(n);
      }
    }
  }

  lemma SliceSlice(R: Bits, a: nat, b: nat)
    requires a + b <= |R|
    ensures R[a..][..b] == R[a..a + b] && R[a..][b..] == R[a + b..]
  {
  }

  lemma FourBytes(bits: nat)
    requires bits % 8 == 0 && 32 <= bits < 40
    ensures bits == 32
  {
  }

  lemma PullByte(hold: nat, bits: nat, b: Byte)
    requires hold < Pow2(bits)
    ensures hold + Shl(b, bits) < Pow2(bits + 8)
    ensures ToBits(hold + Shl(b, bits), bits + 8) == ToBits(hold, bits) + ToBits(b, 8)
  {
    assert Pow2(8) == 256;
    AboveBound(hold, bits, b, 8);
    ToBitsConcat(hold, b, bits, 8);
  }

  lemma BytesBitsHead(input: seq<Byte>, next: nat)
    requires next < |input|
    ensures BytesBits(input[next..]) == ToBits(input[next], 8) + BytesBits(input[next + 1..])
  {
    assert input[next..] == [input[next]] + input[next + 1..];
    BytesBitsConcat([input[next]], input[next + 1..]);
    BytesBitsOne(input[next]);
  }

  lemma PullStream(input: seq<Byte>, next: nat, hold: nat, bits: nat)
    requires next < |input| && hold < Pow2(bits)
    ensures hold + Shl(input[next], bits) < Pow2(bits + 8)
    ensures ToBits(hold + Shl(input[next], bits), bits + 8) + BytesBits(input[next + 1..])
            == ToBits(hold, bits) + BytesBits(input[next..])
  {
    var b, rest := input[next], input[next + 1..];
    BytesBitsHead(input, next);
    PullByte(hold, bits, b);
    Assoc(ToBits(hold, bits), ToBits(b, 8), BytesBits(rest));
  }
}

/**
  * `deflate` and `inflate` of dep/zlib together: what one writes, over any calls, the other reads back, over any
  * other calls.
  */
module RoundTrip {
  import opened BitStream
  import opened Arith
  import opened Canonical
  import opened Tokens
  import opened Decoder
  import opened FixedTrees
  import opened DecodeTables
  import opened Inflater
  import opened InflateRuns
  import D = Deflate
  import R = DeflateRuns
  import E = Emitter
  import IT = InflateTable
  import TS = TableSize

  /** The tables of the fixed codes (`fixedtables` of dep/zlib/inflate.c). */
  method FixedTables() returns (l: Lookup, d: Lookup)
    ensures Decoding(IT.LENS, FixedL(), l) && Decoding(IT.DISTS, FixedD(), d)
  {
    hide Decoding, IT.Refused, TS.Entries, FixedLength, ValidLens;
    FixedAccepted();
    var ret, ret2;
    ret, l := MakeTable(IT.LENS, FixedL(), 9);
    ret2, d := MakeTable(IT.DISTS, FixedD(), 5);
  }

  lemma FixedAccepted()
    ensures ValidLens(FixedL()) && ValidLens(FixedD())
    ensures !IT.Refused(IT.LENS, FixedL()) && !IT.Refused(IT.DISTS, FixedD())
    ensures !TS.TooMuch(IT.LENS, TS.Entries(FixedL(), 9)) && !TS.TooMuch(IT.DISTS, TS.Entries(FixedD(), 5))
  {
    hide Kraft, FixedL, FixedD, TS.Entries, TS.MaxLen;
    FixedComplete();
    assert Pow2(9) == 512 && Pow2(5) == 32;
    forall i: nat | i < 288 ensures FixedL()[i] <= 9 { }
    assert Used(FixedL(), 0) && Used(FixedD(), 0);
    TS.MaxLenAtMost(FixedL(), 9);
    TS.MaxLenAtMost(FixedD(), 5);
    TS.FirstLevelOnly(FixedL(), 9);
    TS.FirstLevelOnly(FixedD(), 5);
  }

  method NewInflater() returns (inf: Inflater)
    ensures inf.Ready() && inf.r.input == [] && inf.sent == []
    ensures fresh(inf) && fresh(inf.r) && fresh(inf.c) && fresh(inf.c.window)
  {
    hide Decoding;
    var l, d := FixedTables();
    inf := new Inflater(l, d);
  }

  /** How many bytes of input a call is given, and how much room. */
  datatype Piece = Piece(size: nat, room: nat, finish: bool)

  function Cut(data: seq<Byte>, pieces: seq<Piece>): (calls: seq<Feed>)
    ensures |calls| == |pieces| && forall i :: 0 <= i < |calls| ==> calls[i].room == pieces[i].room
  {
    if pieces == [] then []
    else
      var p := pieces[0];
      var n := if p.size < |data| then p.size else |data|;
      [Feed(data[..n], p.room, p.finish)] + Cut(data[n..], pieces[1..])
  }

  function Sizes(pieces: seq<Piece>): nat
  {
    if pieces == [] then 0 else pieces[0].size + Sizes(pieces[1..])
  }

  lemma {:induction false} FedFirst(call: Feed, calls: seq<Feed>)
    ensures Fed([call] + calls) == call.data + Fed(calls)
  {
    var a := [call] + calls;
    if calls == [] {
      assert a == [call] && a[..0] == [];
    } else {
      var k := |calls| - 1;
      assert a[..|a| - 1] == [call] + calls[..k] && a[|a| - 1] == calls[k];
      FedFirst(call, calls[..k]);
    }
  }

  /** The pieces are the data in order, all of it if they are long enough. */
  lemma {:induction false} CutIsData(data: seq<Byte>, pieces: seq<Piece>, n: nat)
    requires n <= |pieces|
    ensures Fed(Cut(data, pieces)[..n]) <= data
    ensures n == |pieces| && Sizes(pieces) >= |data| ==> Fed(Cut(data, pieces)[..n]) == data
  {
    if n != 0 {
      var p := pieces[0];
      var m := if p.size < |data| then p.size else |data|;
      var rest := Cut(data[m..], pieces[1..]);
      assert Cut(data, pieces)[..n] == [Feed(data[..m], p.room, p.finish)] + rest[..n - 1];
      FedFirst(Feed(data[..m], p.room, p.finish), rest[..n - 1]);
      CutIsData(data[m..], pieces[1..], n - 1);
      assert data == data[..m] + data[m..];
    }
  }

  lemma BitsOfPrefix(a: seq<Byte>, b: seq<Byte>)
    requires a <= b
    ensures BytesBits(a) <= BytesBits(b)
  {
    BytesBitsConcat(a, b[|a|..]);
    assert b == a + b[|a|..];
  }

  /** What a run of `inflate` on the beginning `T` of a complete stream can say. */
  lemma ReadsBack(all: Bits, length: nat, given: seq<Byte>, T: Bits, size: nat, ret: Return, out: seq<Byte>, used: nat,
                  written: nat, room: nat)
    requires E.Complete(all, given) && T <= all && |all| == 8 * length && |T| == 8 * size && used <= size
    requires written <= |out|
    requires Verdict(ret, T, out, used) && Settled(ret, T, written, room)
    ensures ret != DATA_ERROR && out <= given
    ensures ret == STREAM_END ==> out == given && used == size == length
    ensures size == length && room > |given| ==> ret == STREAM_END
  {
    hide *;
    VerdictIs(ret, T, out, used, written, room);
    var w := ReadStream(all, 0, []);
    Stands(all, given, w);
    Tells(T, all, out, used, w);
    if size == length { assert T == all; }
    Concludes(given, length, size, size == length, ret, out, used, written, room, w);
  }

  lemma Concludes(given: seq<Byte>, length: nat, size: nat, all: bool, ret: Return, out: seq<Byte>, used: nat,
                  written: nat, room: nat, w: Option<Whole>)
    requires w.Some? && w.value.out == given && Align(w.value.end) == 8 * length && used <= size <= length
    requires written <= |out|
    requires ret == STREAM_END ==> w.value.out == out && Align(w.value.end) == 8 * used
    requires ret == OK || ret == BUF_ERROR ==> out <= w.value.out && (all ==> written == room)
    requires ret != DATA_ERROR
    ensures ret != DATA_ERROR && out <= given
    ensures ret == STREAM_END ==> out == given && used == size == length
    ensures all && room > |given| ==> ret == STREAM_END
  {
    hide Align;
  }

  lemma VerdictIs(ret: Return, T: Bits, out: seq<Byte>, used: nat, written: nat, room: nat)
    requires Verdict(ret, T, out, used) && Settled(ret, T, written, room)
    ensures (ret == STREAM_END ==> Decoded(T, out, used)) && (ret == DATA_ERROR ==> Refuted(T))
    ensures ret == OK || ret == BUF_ERROR ==> Begun(T, out) && (written == room || ReadStream(T, 0, []) == None)
  {
    hide ReadStream, Decoded, Refuted, Begun;
  }

  lemma Stands(all: Bits, given: seq<Byte>, w: Option<Whole>)
    requires E.Complete(all, given) && w == ReadStream(all, 0, [])
    ensures w.Some? && w.value.out == given && Align(w.value.end) == |all|
  {
    hide ReadStream, Align;
  }

  /** What is known of the input so far, for one way in which it goes on. */
  lemma Tells(T: Bits, all: Bits, out: seq<Byte>, used: nat, w: Option<Whole>)
    requires T <= all && w == ReadStream(all, 0, [])
    ensures Decoded(T, out, used) ==> w.Some? && w.value.out == out && Align(w.value.end) == 8 * used
    ensures Refuted(T) ==> w.None?
    ensures Begun(T, out) && w.Some? ==> out <= w.value.out
  {
    hide ReadStream, Align;
  }

  lemma LastWritten(outs: seq<seq<Byte>>)
    requires outs != []
    ensures |outs[|outs| - 1]| <= |Joined(outs)|
  {
  }

  /** What has been read back of `given`, from a stream of `length` bytes. */
  predicate Recovered(given: seq<Byte>, length: nat, pieces: seq<Piece>, ret: Return, out: seq<Byte>, used: nat)
  {
    && ret != DATA_ERROR && out <= given
    && (ret == STREAM_END ==> out == given && used == length)
    && (pieces != [] && Sizes(pieces) >= length && pieces[|pieces| - 1].room > |given| ==> ret == STREAM_END)
  }

  /**
    * Compressing and decompressing: whatever the calls on both sides, what is read back is the beginning of what was
    * given, and all of it if the last call comes with the last byte and enough room.
    */
  method RoundTrip(d: D.Deflater, calls: seq<R.Request>, room: nat, pieces: seq<Piece>)
    returns (replies: seq<R.Reply>, stream: seq<Byte>, ret: Return, outs: seq<seq<Byte>>, used: nat)
    requires d.Ready([]) && d.delivered == 0 && room > 0
    modifies d, d.win, d.win.window, d.win.head, d.win.prev
    modifies d.em, d.em.block, d.em.block.w, d.em.block.lfc, d.em.block.ldl, d.em.block.dfc, d.em.block.ddl
    modifies d.em.block.bfc, d.em.block.bdl
    ensures |replies| <= |calls| && |outs| <= |pieces| && forall i :: 0 <= i < |outs| ==> |outs[i]| <= pieces[i].room
    ensures Recovered(R.Given(calls, replies), |stream|, pieces, ret, Joined(outs), used)
  {
    hide E.Complete, E.Within, E.StandFor, Verdict, Recovered, Settled, BytesBits, Fed, Joined, Cut, Sizes, R.Given,
        R.Output, R.Answered, D.Deflater.Ready, Inflater.Valid;
    var rest;
    replies, rest := R.RunToEnd(d, calls, room);
    stream := R.Output(replies) + rest;
    var inf := NewInflater();
    var m;
    m, ret, outs := Run(inf, Cut(stream, pieces));
    used := inf.r.next;
    TripDone(stream, R.Given(calls, replies), Fed(Cut(stream, pieces)[..m]), pieces, ret, outs, used);
  }

  lemma TripDone(stream: seq<Byte>, given: seq<Byte>, data: seq<Byte>, pieces: seq<Piece>, ret: Return,
                 outs: seq<seq<Byte>>, used: nat)
    requires E.Complete(BytesBits(stream), given) && |outs| <= |pieces|
    requires (ret == OK || ret == BUF_ERROR ==> |outs| == |pieces|)
    requires data == Fed(Cut(stream, pieces)[..|outs|]) && used <= |data|
    requires Verdict(ret, BytesBits(data), Joined(outs), used)
    requires outs != [] ==> Settled(ret, BytesBits(data), |outs[|outs| - 1]|, pieces[|outs| - 1].room)
    ensures Recovered(given, |stream|, pieces, ret, Joined(outs), used)
  {
    hide E.Complete, Verdict, BytesBits, Cut, Sizes;
    CutIsData(stream, pieces, |outs|);
    BitsOfPrefix(data, stream);
    var last := |outs| - 1;
    if outs != [] { LastWritten(outs); }
    ReadsBack(BytesBits(stream), |stream|, given, BytesBits(data), |data|, ret, Joined(outs), used,
              if outs == [] then 0 else |outs[last]|, if outs == [] then 0 else pieces[last].room);
  }
}

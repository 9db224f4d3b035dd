/**
  * Whole runs of `inflate` (dep/zlib/inflate.c): however the input is cut into pieces and however much room there is
  * for each piece of output, the result is what the format says about the input.
  */
module InflateRuns {
  import opened Arith
  import opened BitStream
  import opened Tokens
  import opened Decoder
  import opened InflateSteps
  import opened InflateTracks
  import opened Inflater
  import IT = InflateTable

  // ---------------------------------------------------------------- the output only grows

  lemma {:induction false} InflateGrows(ll: seq<nat>, dl: seq<nat>, all: Bits, pos: nat, out: seq<Byte>)
    ensures var r := Inflate(ll, dl, all, pos, out); r.Done? ==> out <= r.out
    decreases |all| - pos
  {
    hide ReadSymbol, ReadLength, ReadDist, Copy;
    var s := ReadSymbol(ll, all, pos);
    if s.Some? && s.value.value < 256 {
      InflateGrows(ll, dl, all, s.value.pos, out + [s.value.value]);
    } else if s.Some? && s.value.value != 256 {
      var l := ReadLength(all, s.value.pos, s.value.value);
      if l.Some? {
        var d := ReadDist(dl, all, l.value.pos);
        if d.Some? && d.value.value <= |out| {
          InflateGrows(ll, dl, all, d.value.pos, Copy(out, d.value.value, l.value.value));
        }
      }
    }
  }

  lemma BlockGrows(all: Bits, pos: nat, out: seq<Byte>)
    ensures var b := ReadBlock(all, pos, out); b.Block? ==> out <= b.out
  {
    hide Inflate, ReadHeader, ReadBytes, FixedL, FixedD, Align;
    var k := ReadBits(all, pos + 1, 2);
    InflateGrows(FixedL(), FixedD(), all, pos + 3, out);
    var h := ReadHeader(all, pos + 3);
    if h.Some? { InflateGrows(h.value.ll, h.value.dl, all, h.value.pos, out); }
  }

  lemma {:induction false} StreamGrows(all: Bits, pos: nat, out: seq<Byte>)
    ensures var w := ReadStream(all, pos, out); w.Some? ==> out <= w.value.out
    decreases |all| - pos
  {
    hide ReadBlock;
    BlockGrows(all, pos, out);
    var b := ReadBlock(all, pos, out);
    if b.Block? && !b.last { StreamGrows(all, b.pos, b.out); }
  }

  lemma TokenGrows(s: Spot, all: Bits)
    requires InToken(s.v)
    ensures s.out <= TokenEnd(s, all).out
  {
    hide ReadSymbol, ReadBits, FirstLength, ExtraL, BaseD, ExtraD;
  }

  lemma AfterTokenGrows(k: Trees, all: Bits, s: Spot)
    ensures var r := AfterToken(k, all, s); r.Done? ==> s.out <= r.out
  {
    InflateGrows(k.ll, k.dl, all, s.pos, s.out);
  }

  lemma RestOfBlockGrows(s: Spot, all: Bits)
    ensures var r := RestOfBlock(s, all); r.Done? ==> s.out <= r.out
  {
    hide Inflate, HeaderOf, TokenEnd, AfterToken, ReadBytes, Align, ReadBits;
    if s.v.Len? {
      InflateGrows(s.v.k.ll, s.v.k.dl, all, s.pos, s.out);
    } else if InHeader(s.v) {
      var h := HeaderOf(s.v, all, s.pos);
      if h.Some? { InflateGrows(h.value.ll, h.value.dl, all, h.value.pos, s.out); }
    } else if InToken(s.v) {
      TokenGrows(s, all);
      AfterTokenGrows(s.v.k, all, TokenEnd(s, all));
    }
  }

  /** What has been written is the beginning of what the stream stands for. */
  lemma RestGrows(s: Spot, all: Bits)
    ensures var w := Rest(s, all); w.Some? ==> s.out <= w.value.out
  {
    hide RestOfBlock, ReadStream;
    RestOfBlockGrows(s, all);
    if s.v.Type? { StreamGrows(all, s.pos, s.out); }
    else if InBlock(s.v) {
      var r := RestOfBlock(s, all);
      if r.Done? { StreamGrows(all, r.pos, r.out); }
    }
  }

  // ---------------------------------------------------------------- what a run says about its input

  /** However the input `T` goes on, it is a stream that stands for `out`, and ends in the byte before byte number
      `used`. */
  ghost predicate Decoded(T: Bits, out: seq<Byte>, used: nat)
  {
    forall all: Bits {:trigger ReadStream(all, 0, [])} :: T <= all ==>
      var w := ReadStream(all, 0, []); w.Some? && w.value.out == out && Align(w.value.end) == 8 * used
  }

  /** However the input goes on, it is no stream. */
  ghost predicate Refuted(T: Bits)
  {
    forall all: Bits {:trigger ReadStream(all, 0, [])} :: T <= all ==> ReadStream(all, 0, []) == None
  }

  /** However the input goes on, if it is a stream then `out` is the beginning of what it stands for. */
  ghost predicate Begun(T: Bits, out: seq<Byte>)
  {
    forall all: Bits {:trigger ReadStream(all, 0, [])} :: T <= all ==>
      var w := ReadStream(all, 0, []); w.Some? ==> out <= w.value.out
  }

  lemma AtEnd(a: Spot, T: Bits, used: nat)
    requires Tracks(a, T) && a.v.Finished? && a.pos == Align(a.v.end) == 8 * used
    ensures Decoded(T, a.out, used)
  {
  }

  lemma AtBad(a: Spot, T: Bits)
    requires Tracks(a, T) && a.v.Bad?
    ensures Refuted(T)
  {
  }

  lemma OnTheWay(a: Spot, T: Bits)
    requires Tracks(a, T)
    ensures Begun(T, a.out)
  {
    hide Rest;
    forall all: Bits | T <= all && ReadStream(all, 0, []).Some? ensures a.out <= ReadStream(all, 0, []).value.out {
      RestGrows(a, all);
    }
  }

  /** Two runs that have read beginnings of the same stream to its end agree, however they were cut into calls. */
  lemma SplitsAgree(T: Bits, T': Bits, all: Bits, out: seq<Byte>, out': seq<Byte>, used: nat, used': nat)
    requires Decoded(T, out, used) && Decoded(T', out', used') && T <= all && T' <= all
    ensures out == out' && used == used'
  {
    assert ReadStream(all, 0, []).Some?;
  }

  // ---------------------------------------------------------------- runs

  /** One call: more input, room for output, and whether the caller wants the stream to end. */
  datatype Feed = Feed(data: seq<Byte>, room: nat, finish: bool)

  function Fed(calls: seq<Feed>): seq<Byte>
  {
    if calls == [] then [] else Fed(calls[..|calls| - 1]) + calls[|calls| - 1].data
  }

  function Joined(outs: seq<seq<Byte>>): seq<Byte>
  {
    if outs == [] then [] else Joined(outs[..|outs| - 1]) + outs[|outs| - 1]
  }

  lemma FedNext(calls: seq<Feed>, n: nat, m: nat)
    requires n < |calls| && m == n + 1
    ensures Fed(calls[..m]) == Fed(calls[..n]) + calls[n].data
  {
    assert calls[..m][..n] == calls[..n];
  }

  lemma JoinedNext(outs: seq<seq<Byte>>, out: seq<Byte>)
    ensures Joined(outs + [out]) == Joined(outs) + out
  {
    assert (outs + [out])[..|outs|] == outs;
  }

  /** What the caller learns about the input so far. */
  ghost predicate Verdict(ret: Return, T: Bits, out: seq<Byte>, used: nat)
  {
    && (ret == STREAM_END ==> Decoded(T, out, used))
    && (ret == DATA_ERROR ==> Refuted(T))
    && (ret == OK || ret == BUF_ERROR ==> Begun(T, out))
  }

  /** A call that does not end the stream has filled its room, or the input so far is no complete stream. */
  ghost predicate Settled(ret: Return, T: Bits, written: nat, room: nat)
  {
    ret == OK || ret == BUF_ERROR ==> written == room || ReadStream(T, 0, []) == None
  }

  lemma CallVerdict(inf: Inflater, ret: Return)
    requires inf.Ready() && (ret == STREAM_END <==> inf.mode == DONE) && (ret == DATA_ERROR <==> inf.mode == BAD)
    ensures Verdict(ret, inf.T(), inf.sent, inf.r.next)
  {
    hide Tracks, Ahead, Align, ToBits, BytesBits, Rest, Decoded, Refuted, Begun;
    PositionIs(inf.T(), inf.at.pos, inf.r);
    assert inf.at.out == inf.sent;
    OnTheWay(inf.at, inf.T());
    if inf.mode == DONE { AtEnd(inf.at, inf.T(), inf.r.next); }
    if inf.mode == BAD { AtBad(inf.at, inf.T()); }
  }

  lemma ShortMeansNone(inf: Inflater)
    requires inf.Valid() && inf.Short()
    ensures ReadStream(inf.T(), 0, []) == None
  {
    hide Rest, Ahead;
  }

  /**
    * A run: the calls are made one after the other until the stream has ended or was found to be bad. The first `n`
    * calls are made, and `outs` is what each of them hands out.
    */
  method Run(inf: Inflater, calls: seq<Feed>) returns (n: nat, ret: Return, outs: seq<seq<Byte>>)
    requires inf.Ready() && inf.r.input == [] && inf.sent == []
    modifies inf, inf.r, inf.c, inf.c.window
    ensures n == |outs| <= |calls| && (ret == OK || ret == BUF_ERROR ==> n == |calls|)
    ensures forall i :: 0 <= i < n ==> |outs[i]| <= calls[i].room
    ensures Verdict(ret, BytesBits(Fed(calls[..n])), Joined(outs), inf.r.next)
    ensures inf.r.next <= |Fed(calls[..n])|
    ensures n > 0 ==> Settled(ret, BytesBits(Fed(calls[..n])), |outs[n - 1]|, calls[n - 1].room)
  {
    hide Verdict, Settled, BytesBits, Inflater.Valid, Fed, Joined;
    n, ret, outs := 0, OK, [];
    FreshVerdict(inf);
    while n < |calls| && ret != STREAM_END && ret != DATA_ERROR
      invariant n == |outs| <= |calls| && inf.Ready() && inf.r.input == Fed(calls[..n]) && inf.sent == Joined(outs)
      invariant forall i :: 0 <= i < n ==> |outs[i]| <= calls[i].room
      invariant Verdict(ret, inf.T(), inf.sent, inf.r.next)
      invariant n > 0 ==> Settled(ret, inf.T(), |outs[n - 1]|, calls[n - 1].room)
      decreases |calls| - n
    {
      var out;
      FedNext(calls, n, n + 1);
      ret, out := MakeCall(inf, calls[n]);
      JoinedNext(outs, out);
      outs, n := outs + [out], n + 1;
    }
    InputRead(inf);
  }

  method MakeCall(inf: Inflater, call: Feed) returns (ret: Return, out: seq<Byte>)
    requires inf.Ready()
    modifies inf, inf.r, inf.c, inf.c.window
    ensures inf.Ready() && inf.r.input == old(inf.r.input) + call.data && inf.sent == old(inf.sent) + out
    ensures |out| <= call.room
    ensures Verdict(ret, inf.T(), inf.sent, inf.r.next) && Settled(ret, inf.T(), |out|, call.room)
  {
    hide Verdict, BytesBits, Inflater.Valid, Inflater.Short;
    ret, out := inf.Call(call.data, call.room, call.finish);
    CallVerdict(inf, ret);
    if inf.Short() { ShortMeansNone(inf); }
  }

  lemma FreshVerdict(inf: Inflater)
    requires inf.Ready() && inf.r.input == [] && inf.sent == []
    ensures Verdict(OK, inf.T(), inf.sent, inf.r.next) && inf.sent == Joined([]) && inf.r.input == Fed([])
  {
  }

  lemma InputRead(inf: Inflater)
    requires inf.Valid()
    ensures inf.r.next <= |inf.r.input|
  {
  }
}

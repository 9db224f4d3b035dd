/**
  * Whole runs of `deflate` (dep/zlib/deflate.c): what is handed out, call after call, is the stream for everything
  * that was taken, and finishing calls come to its end.
  */
module DeflateRuns {
  import opened BitStream
  import opened Tokens
  import opened LongestMatch
  import opened Deflate
  import E = Emitter

  /** One call of the user, and the answer. */
  datatype Request = Request(data: seq<Byte>, room: nat, finish: bool)

  datatype Reply = Reply(ret: Return, took: bool, out: seq<Byte>)

  /** The input that was taken. */
  function Given(calls: seq<Request>, replies: seq<Reply>): seq<Byte>
    requires |replies| <= |calls|
  {
    if replies == [] then []
    else
      var n := |replies| - 1;
      Given(calls, replies[..n]) + if replies[n].took then calls[n].data else []
  }

  /** What was handed out. */
  function Output(replies: seq<Reply>): seq<Byte>
  {
    if replies == [] then [] else Output(replies[..|replies| - 1]) + replies[|replies| - 1].out
  }

  lemma GivenNext(calls: seq<Request>, replies: seq<Reply>, r: Reply)
    requires |replies| < |calls|
    ensures Given(calls, replies + [r]) == Given(calls, replies) + if r.took then calls[|replies|].data else []
    ensures Output(replies + [r]) == Output(replies) + r.out
  {
    assert (replies + [r])[..|replies|] == replies;
  }

  /** A call with room for output that is not in error fills the room, unless it has used up the input. */
  predicate Answered(call: Request, r: Reply)
  {
    && |r.out| <= call.room
    && (r.ret == OK || r.ret == STREAM_END ==> call.room > 0)
    && (r.ret == OK && call.finish ==> |r.out| == call.room)
    && (r.ret == STREAM_END ==> call.finish)
    && (r.ret == STREAM_ERROR ==> !call.finish)
    && (r.took ==> r.ret == OK || r.ret == STREAM_END)
  }

  /** What is handed out next follows what was handed out before. */
  lemma OutNext(p0: seq<Byte>, p: seq<Byte>, d0: nat, d: nat, out0: seq<Byte>, out: seq<Byte>)
    requires p0 <= p && d0 <= d <= |p| && d0 <= |p0| && out0 == p0[..d0] && out == p[d0..d]
    ensures out0 + out == p[..d]
  {
    assert p0[..d0] == p[..d0];
  }

  /** A run: the calls are made one after the other, until the stream has ended. */
  method Run(d: Deflater, calls: seq<Request>) returns (replies: seq<Reply>)
    requires d.Ready([]) && d.delivered == 0
    modifies d, d.win, d.win.window, d.win.head, d.win.prev
    modifies d.em, d.em.block, d.em.block.w, d.em.block.lfc, d.em.block.ldl, d.em.block.dfc, d.em.block.ddl
    modifies d.em.block.bfc, d.em.block.bdl
    ensures |replies| <= |calls| && d.Ready(Given(calls, replies))
    ensures forall i :: 0 <= i < |replies| ==> Answered(calls[i], replies[i])
    ensures forall i :: 0 <= i < |replies| - 1 ==> replies[i].ret != STREAM_END
    ensures d.delivered <= |d.em.block.w.pending| && Output(replies) == d.em.block.w.pending[..d.delivered]
    ensures if replies != [] && replies[|replies| - 1].ret == STREAM_END
            then d.finished && d.delivered == |d.em.block.w.pending| else |replies| == |calls|
  {
    hide Deflater.Taken, Deflater.Drained, Deflater.ToDo, Deflater.Position;
    replies := [];
    var n, ended := 0, false;
    while n < |calls| && !ended
      invariant n == |replies| <= |calls| && d.Ready(Given(calls, replies))
      invariant forall i :: 0 <= i < n ==> Answered(calls[i], replies[i])
      invariant forall i :: 0 <= i < |replies| - 1 ==> replies[i].ret != STREAM_END
      invariant d.delivered <= |d.em.block.w.pending| && Output(replies) == d.em.block.w.pending[..d.delivered]
      invariant ended <==> replies != [] && replies[n - 1].ret == STREAM_END
      invariant ended ==> d.finished && d.delivered == |d.em.block.w.pending|
      decreases |calls| - n
    {
      ghost var p0, d0 := d.em.block.w.pending, d.delivered;
      var r := OneCall(d, calls[n], Given(calls, replies));
      OutNext(p0, d.em.block.w.pending, d0, d.delivered, Output(replies), r.out);
      GivenNext(calls, replies, r);
      replies, n, ended := replies + [r], n + 1, r.ret == STREAM_END;
    }
  }

  method OneCall(d: Deflater, call: Request, ghost given: seq<Byte>) returns (r: Reply)
    requires d.Ready(given)
    modifies d, d.win, d.win.window, d.win.head, d.win.prev
    modifies d.em, d.em.block, d.em.block.w, d.em.block.lfc, d.em.block.ldl, d.em.block.dfc, d.em.block.ddl
    modifies d.em.block.bfc, d.em.block.bdl
    ensures d.Ready(given + if r.took then call.data else []) && Answered(call, r)
    ensures d.HandedOut(old(d.em.block.w.pending), old(d.delivered), call.room, r.out)
    ensures r.ret == STREAM_END ==> d.finished && d.delivered == |d.em.block.w.pending|
  {
    hide Deflater.Taken, Deflater.Drained, Deflater.ToDo, Deflater.Position;
    var ret, took, out := d.Call(call.data, call.room, call.finish, given);
    assert given + [] == given;
    r := Reply(ret, took, out);
  }

  /** Finishing calls without more input, each with the same room: they come to the end of the stream. */
  method Drain(d: Deflater, room: nat, ghost given: seq<Byte>) returns (out: seq<Byte>)
    requires d.Ready(given) && room > 0
    modifies d, d.win, d.win.window, d.win.head, d.win.prev
    modifies d.em, d.em.block, d.em.block.w, d.em.block.lfc, d.em.block.ldl, d.em.block.dfc, d.em.block.ddl
    modifies d.em.block.bfc, d.em.block.bdl
    ensures d.Ready(given) && d.finished && d.delivered == |d.em.block.w.pending|
    ensures old(d.em.block.w.pending) <= d.em.block.w.pending && old(d.delivered) <= |d.em.block.w.pending|
    ensures out == d.em.block.w.pending[old(d.delivered)..]
  {
    hide Deflater.Taken, Deflater.Drained, Deflater.ToDo, Deflater.Position;
    out := [];
    ghost var d0 := d.delivered;
    var ret := OK;
    d.FinishedMeans(given);
    while ret != STREAM_END
      invariant d.Ready(given) && d0 <= d.delivered <= |d.em.block.w.pending|
      invariant old(d.em.block.w.pending) <= d.em.block.w.pending && out == d.em.block.w.pending[d0..d.delivered]
      invariant ret == STREAM_END ==> d.finished && d.delivered == |d.em.block.w.pending|
      invariant d.ToDo(given) >= 0
      decreases ret != STREAM_END, d.ToDo(given), |d.em.block.w.pending| - d.delivered
    {
      var took, more;
      ghost var p, n := d.em.block.w.pending, d.delivered;
      ret, took, more := d.Call([], room, true, given);
      assert given + [] == given;
      Continued(p, d.em.block.w.pending, d0, n, d.delivered, out, more);
      d.FinishedMeans(given);
      out := out + more;
    }
  }

  lemma Continued(p: seq<Byte>, p': seq<Byte>, d0: nat, n: nat, n': nat, out: seq<Byte>, more: seq<Byte>)
    requires p <= p' && d0 <= n <= n' <= |p'| && n <= |p| && out == p[d0..n] && more == p'[n..n']
    ensures out + more == p'[d0..n']
  {
    assert p[d0..n] == p'[d0..n];
  }

  /**
    * Any calls, and then as many finishing calls as it takes: what has been handed out is a complete stream that stands
    * for all the input that was taken.
    */
  method RunToEnd(d: Deflater, calls: seq<Request>, room: nat) returns (replies: seq<Reply>, rest: seq<Byte>)
    requires d.Ready([]) && d.delivered == 0 && room > 0
    modifies d, d.win, d.win.window, d.win.head, d.win.prev
    modifies d.em, d.em.block, d.em.block.w, d.em.block.lfc, d.em.block.ldl, d.em.block.dfc, d.em.block.ddl
    modifies d.em.block.bfc, d.em.block.bdl
    ensures |replies| <= |calls| && forall i :: 0 <= i < |replies| ==> Answered(calls[i], replies[i])
    ensures E.Complete(BytesBits(Output(replies) + rest), Given(calls, replies))
    ensures d.win.wsize >= 512 && d.em.maxDist == MaxDist(d.win.wsize) && E.Within(d.em.past, MaxDist(d.win.wsize))
    ensures E.StandFor(d.em.past, Given(calls, replies))
  {
    hide Deflater.Taken, Deflater.Drained, Deflater.ToDo, Deflater.Position, E.Complete, E.Within, E.StandFor;
    replies := Run(d, calls);
    ghost var p0, d0 := d.em.block.w.pending, d.delivered;
    rest := Drain(d, room, Given(calls, replies));
    AllIsThere(d, Given(calls, replies));
    OutNext(p0, d.em.block.w.pending, d0, d.delivered, Output(replies), rest);
    assert d.em.block.w.pending[..d.delivered] == d.em.block.w.pending;
  }

  lemma AllIsThere(d: Deflater, given: seq<Byte>)
    requires d.Ready(given) && d.finished
    ensures E.Complete(BytesBits(d.em.block.w.pending), given) && E.StandFor(d.em.past, given)
    ensures d.win.wsize >= 512 && d.em.maxDist == MaxDist(d.win.wsize) && E.Within(d.em.past, MaxDist(d.win.wsize))
  {
    hide E.Complete, E.Within, E.StandFor;
  }
}

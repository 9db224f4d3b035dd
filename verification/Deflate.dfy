/**
  * `deflate_fast` and `deflate_slow` of dep/zlib/deflate.c, over any sequence of calls: what is sent always stands
  * for exactly the input that has been consumed.
  */
module Deflate {
  import opened Arith
  import opened BitStream
  import opened Tokens
  import opened Hashing
  import opened Chains
  import opened Decoder
  import opened LongestMatch
  import opened SlidingWindow
  import opened TokenRules
  import opened BlockFlush
  import E = Emitter

  const WRAP: nat := 0x1_0000_0000

  type uint32 = x: nat | x < WRAP

  /** Unsigned 32-bit subtraction. */
  function WrapSub(a: nat, b: nat): nat
    requires b <= a + WRAP
  {
    if a >= b then a - b else a + WRAP - b
  }

  /** How the inner loop ended: it needs more input or output, or everything is sent; `FinishStarted` when the output
      is full then. */
  datatype Status = NeedMore | FinishStarted | FinishDone

  datatype Return = OK | STREAM_END | STREAM_ERROR | BUF_ERROR

  /** The flush parameter of the last call; `Unset` after a call that filled the output. */
  datatype Flush = Unset | NoFlush | Finishing

  /** What the loop does next: go on, wait for more input, or send the last block. */
  datatype Action = Again | Wait | Last

  // ---------------------------------------------------------------- what has been sent

  /** The bytes sent are the first `done` bytes of the input; those before the current block are the first `bs`. */
  ghost predicate Emitted(inp: seq<Byte>, done: nat, bs: int, start: seq<Byte>, out: seq<Byte>)
  {
    0 <= bs <= done <= |inp| && out == inp[..done] && start == inp[..bs]
  }

  lemma EmittedMore(inp: seq<Byte>, inp': seq<Byte>, done: nat, bs: int, start: seq<Byte>, out: seq<Byte>)
    requires Emitted(inp, done, bs, start, out) && inp <= inp'
    ensures Emitted(inp', done, bs, start, out)
  {
  }

  lemma EmittedLiteral(inp: seq<Byte>, done: nat, bs: int, start: seq<Byte>, out: seq<Byte>, b: Byte, done': nat)
    requires Emitted(inp, done, bs, start, out) && done < |inp| && b == inp[done] && done' == done + 1
    ensures Emitted(inp, done', bs, start, out + [b])
  {
  }

  lemma EmittedMatch(inp: seq<Byte>, done: nat, bs: int, start: seq<Byte>, out: seq<Byte>, dist: nat, n: nat,
                     done': nat)
    requires Emitted(inp, done, bs, start, out) && Repeats(inp, done, dist, n) && done' == done + n
    ensures dist <= |out| && Emitted(inp, done', bs, start, Copy(out, dist, n))
  {
    CopyIsInput(inp, done, dist, n);
  }

  class Deflater {
    const win: Window
    const em: E.Emitter
    const cfg: Config
    var blockStart: int
    var matchStart: uint32
    var matchLength: nat
    var prevLength: nat
    var prevMatch: uint32
    var matchAvailable: bool
    /** How many of the pending bytes have been handed out, and how much room for output is left in this call. */
    var delivered: nat
    var availOut: nat
    var finished: bool
    var lastFlush: Flush
    /** The distance of the match that is waiting; `matchStart` holds it modulo 2^32. */
    ghost var dist: nat

    /** Window and trees are separate. */
    ghost predicate Apart()
    {
      && win.head != em.block.lfc && win.head != em.block.ldl && win.head != em.block.dfc
      && win.head != em.block.ddl && win.head != em.block.bfc && win.head != em.block.bdl
      && win.prev != em.block.lfc && win.prev != em.block.ldl && win.prev != em.block.dfc
      && win.prev != em.block.ddl && win.prev != em.block.bfc && win.prev != em.block.bdl
      && em.block.level > 0 && win.wsize >= 512 && em.maxDist == MaxDist(win.wsize)
    }

    /** Both parts are sound, and everything up to `done` bytes has been emitted. */
    ghost predicate Sound(done: nat)
      reads this`blockStart, win, win.window, win.head, win.prev, em, em.block, em.block.w, em.block.lfc, em.block.dfc,
            em.block.bfc
    {
      && Apart() && win.Valid() && em.Valid()
      && Emitted(win.text.inp, done, win.text.off + blockStart, em.start, em.out)
    }

    /** The same in the middle of a step, when a string has been inserted but not yet left behind. */
    ghost predicate Half(done: nat)
      reads this`blockStart, win, win.window, win.head, win.prev, em, em.block, em.block.w, em.block.lfc, em.block.dfc,
            em.block.bfc
    {
      && Apart() && win.Core(win.strstart + win.lookahead) && em.Valid()
      && Emitted(win.text.inp, done, win.text.off + blockStart, em.start, em.out)
    }

    /** Either all bytes have been handed out, or there is no more room. */
    ghost predicate Delivering()
      reads this`delivered, this`availOut, em.block.w`pending
    {
      delivered <= |em.block.w.pending| && (availOut > 0 ==> delivered == |em.block.w.pending|)
    }

    /** Nothing that was pending before is lost, and what was handed out took up the room. */
    ghost predicate Flowed(pending0: seq<Byte>, sum0: nat)
      reads this`delivered, this`availOut, em.block.w`pending
    {
      pending0 <= em.block.w.pending && delivered + availOut == sum0 && Delivering()
    }

    /** The stream is complete and stands for `total`, and so do the tokens of all its blocks, whose matches all lie
        in the window. */
    ghost predicate Finished(total: seq<Byte>)
      reads em, em.block, em.block.w
    {
      && win.wsize >= 512 && em.maxDist == MaxDist(win.wsize)
      && em.out == total && em.Logged(em.past) && E.Complete(BytesBits(em.block.w.pending), total)
    }

    constructor (p: Params, wsize: nat, litBufsize: BufSize, level: nat, fixedOnly: bool, cfg: Config)
      requires Suitable(p) && 512 <= wsize <= 32768 && level > 0
      ensures Sound(0) && win.text.inp == [] && win.input == [] && win.strstart == 0 && win.lookahead == 0
      ensures win.text.off == 0
      ensures matchLength == 2 && prevLength == 2 && !matchAvailable && this.cfg == cfg && Ready([])
      ensures delivered == 0 && !finished && lastFlush == NoFlush && em.block.w.pending == []
      ensures em.block.litBufsize == litBufsize && em.block.level == level && em.block.fixedOnly == fixedOnly
      ensures fresh(win) && fresh(em) && fresh(em.block) && fresh(em.block.w)
    {
      hide Window.Core, E.Emitter.Valid, BytesBits, Repeats;
      win := new Window(p, wsize);
      em := new E.Emitter(litBufsize, level, fixedOnly, MaxDist(wsize));
      this.cfg, blockStart, matchStart := cfg, 0, 0;
      matchLength, prevLength, prevMatch, matchAvailable := MIN_MATCH - 1, MIN_MATCH - 1, 0, false;
      delivered, availOut, finished, lastFlush := 0, 0, false, NoFlush;
    }

    /** The bytes of the current block, if the window still has them all. */
    method BlockBuf(ghost done: nat) returns (buf: Option<seq<Byte>>, len: nat)
      requires Half(done) && done == win.text.off + win.strstart && win.strstart < 65536
      ensures buf.Some? ==> |buf.value| == len < 65536 && em.out == em.start + buf.value
      ensures buf.Some? <==> blockStart >= 0
      ensures len == done - (win.text.off + blockStart)
    {
      len := win.strstart - blockStart;
      buf := None;
      if blockStart >= 0 {
        buf := Some(win.window[blockStart..win.strstart]);
        BlockBytes(win.window[..], win.text.inp, win.text.off, blockStart, win.strstart, win.strstart + win.lookahead);
      }
    }

    /** `flush_pending`: hands out as much as there is room for. */
    method FlushPending()
      requires delivered <= |em.block.w.pending|
      modifies this`delivered, this`availOut
      ensures delivered + availOut == old(delivered + availOut) && Delivering()
      ensures delivered >= old(delivered)
    {
      var len := |em.block.w.pending| - delivered;
      if len > availOut { len := availOut; }
      delivered, availOut := delivered + len, availOut - len;
    }

    /** Sends the current block, with its bytes if the window still has them all, and hands it out. */
    method FlushBlock(last: bool, ghost done: nat)
      returns (ghost choice: Choice, ghost c: Codes, ghost buf: Option<seq<Byte>>)
      requires Half(done) && done == win.text.off + win.strstart && win.strstart < 65536 && Delivering()
      modifies this`blockStart, this`delivered, this`availOut
      modifies em, em.block, em.block.w, em.block.lfc, em.block.ldl, em.block.dfc, em.block.ddl
      modifies em.block.bfc, em.block.bdl
      ensures last || (Half(done) && em.block.HasRoom())
      ensures last ==> em.out == old(em.out) && Finished(em.out)
      ensures Flowed(old(em.block.w.pending), old(delivered + availOut)) && em.All() == old(em.All())
      ensures buf.Some? <==> old(blockStart) >= 0
      ensures Predicts(choice, c, old(em.block.tokens))
      ensures Chosen(choice, buf, done - (win.text.off + old(blockStart)), em.block.fixedOnly)
    {
      hide Emitted, ReadStream, E.Emitter.Logged, E.Emitter.Valid, E.Complete, Predicts, Chosen, Written;
      var data, len := BlockBuf(done);
      buf := data;
      EmittedFlushed(win.text.inp, done, win.text.off + blockStart, em.start, em.out);
      ghost var s';
      choice, c, s' := em.Flush(data, len, last);
      blockStart := win.strstart;
      FlushPending();
    }

    /** The string at input position `done` has been inserted, if it has three bytes. */
    ghost predicate Entered(done: nat)
      reads win
    {
      && done == win.text.off + win.strstart && win.lookahead >= 1 && win.strstart + MIN_LOOKAHEAD <= win.window.Length
      && (win.lookahead >= MIN_MATCH ==> win.primed == win.strstart + 1 == win.top)
    }

    /** A match of the string at `strstart`, if `matchLength` is more than `least`. */
    ghost predicate Hit(least: nat, done: nat)
      reads this, win
    {
      matchLength > least ==>
        && MIN_MATCH <= matchLength <= win.lookahead && matchLength <= MAX_MATCH && matchStart < win.strstart
        && win.strstart - matchStart <= em.maxDist
            && Repeats(win.text.inp, done, win.strstart - matchStart, matchLength)
    }

    /** Emits the byte at `strstart` and moves on. */
    method LiteralStep(ghost done: nat, ghost done': nat) returns (full: bool)
      requires Half(done) && Entered(done) && done' == done + 1 && em.block.HasRoom()
      modifies win`strstart, win`lookahead, em, em.block, em.block.lfc
      ensures Sound(done') && win.strstart == old(win.strstart) + 1 && win.lookahead == old(win.lookahead) - 1
      ensures full || em.block.HasRoom()
      ensures done < |win.text.inp| && em.All() == old(em.All()) + [Literal(win.text.inp[done])]
    {
      hide Repeats, Primed, Emitted, E.Emitter.Valid;
      full := SendLiteral(win.strstart, done, done');
      win.StepOne();
    }

    /** Emits the byte at window position `i`. */
    method SendLiteral(i: nat, ghost done: nat, ghost done': nat) returns (full: bool)
      requires Half(done) && i < win.strstart + win.lookahead && done == win.text.off + i && done' == done + 1
      requires em.block.HasRoom()
      modifies em, em.block, em.block.lfc
      ensures Half(done') && (full || em.block.HasRoom())
      ensures done < |win.text.inp| && em.All() == old(em.All()) + [Literal(win.text.inp[done])]
    {
      hide Emitted, Window.Core, Window.Primes, E.Emitter.Valid;
      var b := win.ByteAt(i, win.strstart + win.lookahead);
      EmittedLiteral(win.text.inp, done, win.text.off + blockStart, em.start, em.out, b, done');
      full := em.EmitLiteral(b);
    }

    /** Emits the match that was found at `strstart` and moves on behind it. */
    method MatchStep(ghost done: nat, ghost done': nat) returns (full: bool)
      requires Half(done) && Entered(done) && Hit(MIN_MATCH - 1, done) && matchLength >= MIN_MATCH
      requires done' == done + matchLength
      requires em.block.HasRoom()
      modifies this`matchLength, win, win.head, win.prev, em, em.block, em.block.lfc, em.block.dfc
      ensures Sound(done') && matchLength == 0 && (full || em.block.HasRoom())
      ensures win.strstart == old(win.strstart) + old(matchLength)
      ensures win.lookahead == old(win.lookahead) - old(matchLength)
      ensures win.input == old(win.input)
      ensures win.text == Skipped(old(win.text), done, old(matchLength))
      ensures em.All() == old(em.All()) + [Match(old(matchLength), old(win.strstart) - old(matchStart))]
    {
      hide Repeats, Emitted, E.Emitter.Valid, Added, Window.Primes, Shows, Chained, Primed;
      var len: nat := matchLength;
      full := SendMatch(len, win.strstart - matchStart, done, done');
      SkipMatch(len, done);
    }

    method SendMatch(len: nat, dist: nat, ghost done: nat, ghost done': nat) returns (full: bool)
      requires em.Valid() && em.block.HasRoom()
      requires Emitted(win.text.inp, done, win.text.off + blockStart, em.start, em.out)
      requires MIN_MATCH <= len <= MAX_MATCH && dist <= em.maxDist && Repeats(win.text.inp, done, dist, len)
      requires done' == done + len
      modifies em, em.block, em.block.lfc, em.block.dfc
      ensures em.Valid() && Emitted(win.text.inp, done', win.text.off + blockStart, em.start, em.out)
      ensures (full || em.block.HasRoom()) && em.All() == old(em.All()) + [Match(len, dist)]
    {
      EmittedMatch(win.text.inp, done, win.text.off + blockStart, em.start, em.out, dist, len, done');
      full := em.EmitMatch(dist, len);
    }

    /** The text when a match at `x` is skipped, where the first string is inserted already. */
    ghost function Skipped(t: Text, x: nat, len: nat): Text
    {
      if len <= cfg.maxLazy && x + len + MIN_MATCH <= |t.inp| then t.(ins := Added(t.ins, x + 1, x + len)) else t
    }

    /** Moves on behind a match. */
    method SkipMatch(len: nat, ghost done: nat)
      requires win.Core(win.strstart + win.lookahead) && MIN_MATCH <= len <= win.lookahead && len <= MAX_MATCH
      requires win.primed == win.strstart + 1 == win.top && win.strstart + MIN_LOOKAHEAD <= win.window.Length
      requires done == win.text.off + win.strstart
      modifies this`matchLength, win, win.head, win.prev
      ensures win.Valid() && matchLength == 0
      ensures win.strstart == old(win.strstart) + len && win.lookahead == old(win.lookahead) - len
      ensures win.text == Skipped(old(win.text), done, len) && win.input == old(win.input)
    {
      hide Primed, Added, Shows, Chained, Newest;
      InText(win);
      win.lookahead := win.lookahead - len;
      if len <= cfg.maxLazy && win.lookahead >= MIN_MATCH {
        win.SkipInserting(len);
      } else {
        win.SkipOver(len);
      }
      matchLength := 0;
    }

    /** Fills the window; a slide moves the start of the block and of the last match. */
    method Fill(ghost done: nat) returns (slid: bool)
      requires Sound(done) && win.lookahead < MIN_LOOKAHEAD
      modifies this`blockStart, this`matchStart, win, win.window, win.head, win.prev
      ensures Sound(done) && win.strstart + MIN_LOOKAHEAD <= win.window.Length
      ensures old(win.text).inp <= win.text.inp && win.text.inp + win.input == old(win.text).inp + old(win.input)
      ensures win.text.ins == old(win.text).ins
      ensures win.lookahead < MIN_LOOKAHEAD ==> win.input == []
      ensures win.lookahead >= old(win.lookahead)
      ensures Moved(slid, old(win.text).off, win.text.off, old(win.strstart), win.strstart, win.wsize)
      ensures matchStart == if slid then WrapSub(old(matchStart), win.wsize) else old(matchStart)
    {
      hide Primed, E.Emitter.Valid, Emitted;
      ghost var inp := win.text.inp;
      ghost var bs := win.text.off + blockStart;
      slid := win.FillWindow();
      if slid {
        matchStart := WrapSub(matchStart, win.wsize);
        blockStart := blockStart - win.wsize;
      }
      EmittedMore(inp, win.text.inp, done, bs, em.start, em.out);
    }

    /** Inserts the next string. */
    method EnterNext(ghost done: nat, ghost sent: nat) returns (hashHead: nat)
      requires Sound(sent) && done == win.text.off + win.strstart && win.lookahead >= 1
      requires win.strstart + MIN_LOOKAHEAD <= win.window.Length
      modifies win`insH, win`text, win`top, win`primed, win.head, win.prev
      ensures Half(sent) && Entered(done) && win.text == Inserting(old(win.text), done)
      ensures hashHead > 0 ==> win.lookahead >= MIN_MATCH && ChainHead(win.text, hashHead, win.strstart)
      ensures win.lookahead >= MIN_MATCH ==> win.Heading(hashHead, win.strstart)
    {
      hide Newest, HashAt, Emitted, E.Emitter.Valid, Window.Primes, Shows, Chained;
      InText(win);
      hashHead := win.Enter();
    }

    /** Inserts the next string and searches for a match longer than `least`. */
    method Look(least: nat, ghost done: nat)
      requires Sound(done) && done == win.text.off + win.strstart && win.lookahead >= 1
      requires win.strstart + MIN_LOOKAHEAD <= win.window.Length && matchLength <= least
      requires MIN_MATCH - 1 <= least <= MAX_MATCH
      modifies this`matchLength, this`matchStart, win`insH, win`text, win`top, win`primed, win.head, win.prev
      ensures Half(done) && Entered(done) && Hit(least, done) && win.text == Inserting(old(win.text), done)
      ensures win.text.wsize >= 512 && done <= |win.text.inp| && Searched(cfg, win.text, done, least, matchLength)
    {
      hide Repeats, ChainHead, Window.Primes, E.Emitter.Valid, Emitted, Window.Core, Primed, Thorough, Window.Heading;
      var hashHead := EnterNext(done, done);
      InText(win);
      if hashHead != 0 && win.strstart - hashHead <= MaxDist(win.wsize) {
        InWindow(win, win.strstart + win.lookahead);
        matchLength, matchStart := win.FindMatch(hashHead, least, cfg.maxChain, cfg.goodMatch, cfg.niceMatch,
                                                 matchStart, done);
      } else {
        NoneNear(win, hashHead, done, Allowed(cfg.maxChain, least, cfg.goodMatch), cfg.niceMatch, matchLength);
      }
    }

    /** One round of the loop of `deflate_fast`. */
    method FastStep(ghost done: nat) returns (full: bool, ghost done': nat, ghost token: Token)
      requires Sound(done) && done == win.text.off + win.strstart && win.lookahead >= 1
      requires win.strstart + MIN_LOOKAHEAD <= win.window.Length && matchLength < MIN_MATCH
      requires prevLength == MIN_MATCH - 1 && em.block.HasRoom()
      modifies this`matchLength, this`matchStart, win, win.head, win.prev, em, em.block, em.block.lfc, em.block.dfc
      ensures Sound(done') && done' == win.text.off + win.strstart && matchLength < MIN_MATCH
      ensures (full || em.block.HasRoom()) && win.input == old(win.input)
      ensures done < done' <= done + MAX_MATCH && done' == done + Width(token) && em.All() == old(em.All()) + [token]
      ensures old(win.text).wsize >= 512 && Greedy(cfg, old(win.text), done, token)
      ensures win.text == FastInserts(cfg, old(win.text), done, token)
    {
      hide Searched, Repeats, E.Emitter.Valid, Emitted, Window.Core, Primed, Added;
      ghost var t := win.text;
      Look(prevLength, done);
      InText(win);
      if matchLength >= MIN_MATCH {
        token := Match(matchLength, win.strstart - matchStart);
        TextBefore(cfg, t, win.text, done, prevLength, matchLength, matchLength);
        done' := done + matchLength;
        full := MatchStep(done, done');
      } else {
        TextBefore(cfg, t, win.text, done, prevLength, matchLength, MIN_MATCH - 1);
        done' := done + 1;
        token := Literal(win.text.inp[done]);
        full := LiteralStep(done, done');
      }
    }

    /** The input is used up, and what is left in the window is too little to go on. */
    predicate Drained()
      reads win`input, win`lookahead
    {
      win.input == [] && win.lookahead < MIN_LOOKAHEAD
    }

    /** Makes sure that there is enough lookahead, except at the end of the input. */
    method Refill(finish: bool, ghost done: nat, ghost total: seq<Byte>) returns (next: Action, slid: bool)
      requires Sound(done) && win.text.inp + win.input == total
      modifies this`blockStart, this`matchStart, win, win.window, win.head, win.prev
      ensures Sound(done) && win.text.inp + win.input == total
      ensures Moved(slid, old(win.text).off, win.text.off, old(win.strstart), win.strstart, win.wsize)
      ensures matchStart == if slid then WrapSub(old(matchStart), win.wsize) else old(matchStart)
      ensures next == Again ==> win.lookahead >= 1 && win.strstart + MIN_LOOKAHEAD <= win.window.Length
      ensures next == Last ==>
              finish && win.lookahead == 0 && win.input == []
              && win.strstart + MIN_LOOKAHEAD <= win.window.Length
      ensures next == Wait ==> !finish && Drained()
      ensures win.text.ins == old(win.text).ins
      ensures old(win.text).inp <= win.text.inp && win.lookahead >= old(win.lookahead) && win.strstart <= 65536
    {
      next, slid := Again, false;
      Ahead(win);
      if win.lookahead < MIN_LOOKAHEAD {
        slid := Fill(done);
        if win.lookahead < MIN_LOOKAHEAD && !finish { next := Wait; }
        else if win.lookahead == 0 { next := Last; }
      }
    }

    /** Sends the last block: the stream is complete. */
    method Finish(ghost done: nat, ghost total: seq<Byte>)
      requires Sound(done) && done == win.text.off + win.strstart && win.strstart + MIN_LOOKAHEAD <= win.window.Length
      requires win.lookahead == 0 && win.input == [] && win.text.inp + win.input == total && Delivering()
      modifies this`blockStart, this`delivered, this`availOut
      modifies em, em.block, em.block.w, em.block.lfc, em.block.ldl, em.block.dfc, em.block.ddl
      modifies em.block.bfc, em.block.bdl
      ensures Finished(total) && em.All() == old(em.All())
      ensures Flowed(old(em.block.w.pending), old(delivered + availOut))
    {
      hide Predicts, Chosen;
      Ahead(win);
      AllSent(win.text.inp, win.input, total, done, win.text.off + blockStart, em.start, em.out);
      var _, _, _ := FlushBlock(true, done);
    }

    /** Sends a full block, and stops when there is no more room for output. */
    method FlushIf(full: bool, ghost done: nat) returns (stop: bool)
      requires Sound(done) && done == win.text.off + win.strstart && win.strstart < 65536
      requires (full || em.block.HasRoom()) && Delivering() && availOut > 0
      modifies this`blockStart, this`delivered, this`availOut
      modifies em, em.block, em.block.w, em.block.lfc, em.block.ldl, em.block.dfc, em.block.ddl
      modifies em.block.bfc, em.block.bdl
      ensures Sound(done) && em.block.HasRoom() && em.All() == old(em.All())
      ensures (stop <==> availOut == 0) && Flowed(old(em.block.w.pending), old(delivered + availOut))
    {
      hide Predicts, Chosen, Emitted, E.Emitter.Valid;
      stop := false;
      if full {
        var _, _, _ := FlushBlock(false, done);
        stop := availOut == 0;
      }
    }

    /** One round: fill the window, emit a token, and send the block if it is full. */
    method FastRound(finish: bool, ghost done: nat, ghost total: seq<Byte>)
      returns (next: Action, ghost done': nat, ghost tokens: seq<Token>)
      requires Sound(done) && done == win.text.off + win.strstart && matchLength < MIN_MATCH
      requires prevLength == MIN_MATCH - 1 && Delivering() && availOut > 0
      requires win.text.inp + win.input == total && em.block.HasRoom()
      modifies this`blockStart, this`matchStart, this`matchLength, this`delivered, this`availOut
      modifies win, win.window, win.head, win.prev
      modifies em, em.block, em.block.w, em.block.lfc, em.block.ldl, em.block.dfc, em.block.ddl, em.block.bfc
      modifies em.block.bdl
      ensures Sound(done') && done' == win.text.off + win.strstart && matchLength < MIN_MATCH
      ensures win.text.inp + win.input == total
      ensures em.block.HasRoom() && Flowed(old(em.block.w.pending), old(delivered + availOut))
      ensures next == Again ==> done < done' <= |total| && availOut > 0
      ensures next == Wait ==>
              if done' == done then !finish && Drained() && availOut > 0 else done < done' && availOut == 0
      ensures next == Last ==>
              finish && win.lookahead == 0 && win.input == [] && availOut > 0
              && win.strstart + MIN_LOOKAHEAD <= win.window.Length
      ensures em.All() == old(em.All()) + tokens && FastTokens(done, done', old(win.text), win.text, tokens)
    {
      hide Emitted, E.Emitter.Valid, Greedy, Window.Core;
      var slid;
      next, slid := Refill(finish, done, total);
      done', tokens := done, [];
      if next == Again {
        var full;
        ghost var token;
        full, done', token := FastStep(done);
        tokens := [token];
        Ahead(win);
        var stop := FlushIf(full, done');
        if stop { next := Wait; }
      }
    }

    /** What one round sends: nothing, or the token for the string at `done`, with the strings that were inserted. */
    ghost predicate FastTokens(done: nat, done': nat, t: Text, u: Text, tokens: seq<Token>)
    {
      if done' == done then tokens == [] && u.ins == t.ins
      else
        var v := u.(ins := t.ins);
        |tokens| == 1 && v.wsize >= 512 && Greedy(cfg, v, done, tokens[0]) && u == FastInserts(cfg, v, done, tokens[0])
        && done' == done + Width(tokens[0])
    }

    /** `deflate_fast`: with `finish`, everything is sent; otherwise as much as the lookahead allows. It stops early
        only when the output is full. */
    method DeflateFast(finish: bool, ghost total: seq<Byte>) returns (status: Status, ghost done: nat)
      requires Sound(win.text.off + win.strstart) && matchLength < MIN_MATCH && prevLength == MIN_MATCH - 1
      requires win.text.inp + win.input == total && em.block.HasRoom() && Delivering() && availOut > 0
      modifies this`blockStart, this`matchStart, this`matchLength, this`delivered, this`availOut
      modifies win, win.window, win.head, win.prev
      modifies em, em.block, em.block.w, em.block.lfc, em.block.ldl, em.block.dfc, em.block.ddl, em.block.bfc
      modifies em.block.bdl
      ensures Flowed(old(em.block.w.pending), old(delivered + availOut))
      ensures status == NeedMore ==> Sound(done) && done == win.text.off + win.strstart
                                     && win.text.inp + win.input == total && em.block.HasRoom()
      ensures matchLength < MIN_MATCH && prevLength == MIN_MATCH - 1
      ensures status == NeedMore && availOut > 0 ==> !finish && Drained()
      ensures status == NeedMore && availOut == 0 ==> done > old(win.text.off + win.strstart)
      ensures status == NeedMore ==> done >= old(win.text.off + win.strstart)
      ensures status != NeedMore ==> finish && Finished(total) && win.lookahead == 0 && win.input == []
                                     && (status == FinishStarted <==> availOut == 0)
    {
      hide Emitted, E.Emitter.Valid, Window.Core;
      done := win.text.off + win.strstart;
      ghost var done0 := done;
      while true
        invariant Sound(done) && done == win.text.off + win.strstart && matchLength < MIN_MATCH
        invariant prevLength == MIN_MATCH - 1 && availOut > 0 && done >= done0
        invariant win.text.inp + win.input == total && em.block.HasRoom()
        invariant Flowed(old(em.block.w.pending), old(delivered + availOut))
        decreases |total| - done
      {
        var next;
        ghost var tokens;
        next, done, tokens := FastRound(finish, done, total);
        if next == Wait { return NeedMore, done; }
        if next == Last { break; }
      }
      Finish(done, total);
      status := if availOut == 0 then FinishStarted else FinishDone;
    }

    // -------------------------------------------------------------- lazy matching

    /** The match found at the byte before `strstart`, which is byte `sent` of the input, waits for a better one. */
    ghost predicate Pending(sent: nat)
      reads this`matchLength, this`matchStart, this`matchAvailable, this`dist, win
    {
      && MIN_MATCH - 1 <= matchLength <= MAX_MATCH && (matchAvailable ==> win.strstart >= 1)
          && (!matchAvailable ==> matchLength == MIN_MATCH - 1)
      && (matchLength >= MIN_MATCH ==> Waiting(matchLength, matchStart, sent))
    }

    /** A match of length `len` at the byte before `strstart`. Its start may lie below the window, and wraps around
        then. */
    ghost predicate Waiting(len: nat, start: nat, sent: nat)
      reads this`dist, win
    {
      && win.strstart >= 1 && len <= win.lookahead + 1 && 1 <= dist <= em.maxDist
      && start == WrapSub(win.strstart - 1, dist) && Repeats(win.text.inp, sent, dist, len)
    }

    function Sent(): nat
      reads this`matchAvailable
    {
      if matchAvailable then 1 else 0
    }

    /** Inserts the next string and, unless the waiting match is good enough, searches for a longer one. */
    method LazyLook(ghost done: nat, ghost sent: nat) returns (ghost f: Found)
      requires Sound(sent) && done == win.text.off + win.strstart && win.lookahead >= 1
      requires win.strstart + MIN_LOOKAHEAD <= win.window.Length && MIN_MATCH - 1 <= matchLength <= MAX_MATCH
      modifies this`matchLength, this`matchStart, this`prevLength, this`prevMatch, win`insH, win`text, win`top
      modifies win`primed, win.head, win.prev
      ensures Half(sent) && Entered(done) && Hit(prevLength, done)
      ensures prevLength == old(matchLength) && prevMatch == old(matchStart)
      ensures MIN_MATCH - 1 <= matchLength <= MAX_MATCH
      ensures win.text == Inserting(old(win.text), done) && win.text.wsize >= 512 && done <= |win.text.inp|
      ensures Looked(cfg, win.text, done, prevLength, f) && matchLength == f.kept
      ensures matchLength > prevLength && matchLength >= MIN_MATCH ==> f.dist == win.strstart - matchStart
    {
      hide Emitted, E.Emitter.Valid, Window.Core, Primed, Looked;
      var hashHead := EnterNext(done, sent);
      InText(win);
      f := LazySearch(hashHead, done);
    }

    method LazySearch(hashHead: nat, ghost done: nat) returns (ghost f: Found)
      requires Apart() && win.Core(win.strstart + win.lookahead) && Entered(done)
      requires MIN_MATCH - 1 <= matchLength <= MAX_MATCH
      requires hashHead > 0 ==> win.lookahead >= MIN_MATCH && ChainHead(win.text, hashHead, win.strstart)
      requires win.lookahead >= MIN_MATCH ==> win.Heading(hashHead, win.strstart)
      requires win.text.wsize >= 512 && done <= |win.text.inp|
      modifies this`matchLength, this`matchStart, this`prevLength, this`prevMatch
      ensures prevLength == old(matchLength) && prevMatch == old(matchStart)
      ensures MIN_MATCH - 1 <= matchLength <= MAX_MATCH
      ensures Hit(prevLength, done) && Looked(cfg, win.text, done, prevLength, f) && matchLength == f.kept
      ensures matchLength > prevLength && matchLength >= MIN_MATCH ==> f.dist == win.strstart - matchStart
    {
      hide Repeats, ChainHead, Window.Primes, E.Emitter.Valid, Window.Core, Thorough, Window.Heading, Looked, WrapSub,
          Allowed;
      prevLength, prevMatch := matchLength, matchStart;
      matchLength, f := MIN_MATCH - 1, Found(MIN_MATCH - 1, 0, MIN_MATCH - 1);
      InText(win);
      if hashHead != 0 && prevLength < cfg.maxLazy && win.strstart - hashHead <= MaxDist(win.wsize) {
        InWindow(win, win.strstart + win.lookahead);
        matchLength, matchStart := win.FindMatch(hashHead, prevLength, cfg.maxChain, cfg.goodMatch, cfg.niceMatch,
                                                 matchStart, done);
        WrapAny(win.strstart, matchStart);
        ghost var length := matchLength;
        if matchLength <= 5 && (cfg.filtered || (matchLength == MIN_MATCH
                                                 && WrapSub(win.strstart, matchStart) > TOO_FAR)) {
          matchLength := MIN_MATCH - 1;
        }
        f := Found(length, WrapSub(win.strstart, matchStart), matchLength);
      } else if prevLength < cfg.maxLazy {
        NoneNear(win, hashHead, done, Allowed(cfg.maxChain, prevLength, cfg.goodMatch), cfg.niceMatch, f.length);
      }
      IsLooked(cfg, win.text, done, prevLength, f);
    }

    /** Emits the waiting match. */
    method EmitWaiting(ghost done: nat, ghost sent: nat, ghost sent': nat) returns (full: bool)
      requires Half(sent) && Entered(done) && sent + 1 == done && sent' == sent + prevLength && em.block.HasRoom()
      requires MIN_MATCH <= prevLength <= MAX_MATCH && Waiting(prevLength, prevMatch, sent)
      modifies this`prevLength, this`matchAvailable, this`matchLength, win, win.head, win.prev, em, em.block
      modifies em.block.lfc, em.block.dfc
      ensures Sound(sent') && sent' == win.text.off + win.strstart && !matchAvailable && matchLength == MIN_MATCH - 1
      ensures (full || em.block.HasRoom())
      ensures win.text == SkippedLazy(old(win.text), done, old(prevLength)) && win.input == old(win.input)
      ensures win.strstart <= old(win.strstart) + MAX_MATCH && win.strstart > old(win.strstart)
      ensures em.All() == old(em.All()) + [Match(old(prevLength), dist)]
    {
      hide Emitted, Window.Core, E.Emitter.Valid, Repeats;
      InWindow(win, win.strstart + win.lookahead);
      full := SendWaiting(sent, sent');
      SkipWaiting(prevLength, done);
      prevLength, matchAvailable, matchLength := 0, false, MIN_MATCH - 1;
    }

    method SendWaiting(ghost sent: nat, ghost sent': nat) returns (full: bool)
      requires em.Valid() && em.block.HasRoom()
      requires Emitted(win.text.inp, sent, win.text.off + blockStart, em.start, em.out)
      requires MIN_MATCH <= prevLength <= MAX_MATCH && Waiting(prevLength, prevMatch, sent) && win.strstart <= 65536
      requires sent + 1 == win.text.off + win.strstart && sent' == sent + prevLength
      modifies em, em.block, em.block.lfc, em.block.dfc
      ensures em.Valid() && Emitted(win.text.inp, sent', win.text.off + blockStart, em.start, em.out)
      ensures (full || em.block.HasRoom()) && em.All() == old(em.All()) + [Match(prevLength, dist)]
    {
      hide Repeats, Emitted, E.Emitter.Valid;
      WrapBack(win.strstart - 1, dist);
      full := SendMatch(prevLength, WrapSub(win.strstart - 1, prevMatch), sent, sent');
    }

    /** The text when a match that starts before `x` is skipped, where the first two strings are inserted already. */
    ghost function SkippedLazy(t: Text, x: nat, len: nat): Text
    {
      if len >= 1 then t.(ins := Added(t.ins, x + 1, SlidingWindow.Within(x + len - 1, |t.inp|))) else t
    }

    method SkipWaiting(len: nat, ghost done: nat)
      requires win.Core(win.strstart + win.lookahead) && MIN_MATCH <= len <= win.lookahead + 1
      requires win.lookahead >= MIN_MATCH ==> win.primed == win.strstart + 1 == win.top
      requires done == win.text.off + win.strstart
      modifies win, win.head, win.prev
      ensures win.Valid() && win.strstart == old(win.strstart) + len - 1
      ensures win.text == SkippedLazy(old(win.text), done, len) && win.input == old(win.input)
    {
      hide Added;
      win.lookahead := win.lookahead - (len - 1);
      win.SkipLazy(len - 2);
    }

    /** Moves on by one byte; the match found there, if any, waits. */
    method StepWaiting(ghost done: nat)
      requires win.Core(win.strstart + win.lookahead) && Entered(done) && Hit(prevLength, done)
      requires MIN_MATCH - 1 <= matchLength <= MAX_MATCH && (matchLength >= MIN_MATCH ==> matchLength > prevLength)
      requires win.window.Length <= 65536
      modifies this`matchAvailable, this`dist, win`strstart, win`lookahead
      ensures win.Valid() && Pending(done) && matchAvailable
      ensures win.strstart == old(win.strstart) + 1 && win.lookahead == old(win.lookahead) - 1
      ensures matchLength >= MIN_MATCH ==> dist == old(win.strstart) - matchStart
    {
      if matchLength >= MIN_MATCH {
        dist := win.strstart - matchStart;
        WrapBack(win.strstart, matchStart);
        assert dist == WrapSub(win.strstart, matchStart);
      }
      win.StepOne();
      matchAvailable := true;
    }

    /** Emits the byte before `strstart`: there was no match for it, or there is a better one now. */
    method LazyLiteral(ghost done: nat, ghost sent: nat) returns (stop: bool)
      requires Half(sent) && Entered(done) && sent + 1 == done && Hit(prevLength, done) && win.strstart >= 1
      requires em.block.HasRoom() && Delivering() && availOut > 0
      requires MIN_MATCH - 1 <= matchLength <= MAX_MATCH && (matchLength >= MIN_MATCH ==> matchLength > prevLength)
      requires win.window.Length <= 65536
      modifies this`matchAvailable, this`dist, this`blockStart, this`delivered, this`availOut
      modifies win`strstart, win`lookahead
      modifies em, em.block, em.block.w, em.block.lfc, em.block.ldl, em.block.dfc, em.block.ddl, em.block.bfc
      modifies em.block.bdl
      ensures Sound(done) && Pending(done) && matchAvailable && em.block.HasRoom()
      ensures win.strstart == old(win.strstart) + 1 && win.lookahead == old(win.lookahead) - 1
      ensures matchLength >= MIN_MATCH ==> dist == old(win.strstart) - matchStart
      ensures (stop <==> availOut == 0) && Flowed(old(em.block.w.pending), old(delivered + availOut))
      ensures sent < |win.text.inp| && em.All() == old(em.All()) + [Literal(win.text.inp[sent])]
    {
      hide Emitted, Repeats, E.Emitter.Valid, Primed;
      LiteralAndFlush(done, sent);
      StepWaiting(done);
      stop := availOut == 0;
    }

    method LiteralAndFlush(ghost done: nat, ghost sent: nat)
      requires Half(sent) && done == win.text.off + win.strstart && sent + 1 == done && 1 <= win.strstart < 65536
      requires em.block.HasRoom() && Delivering() && availOut > 0
      modifies this`blockStart, this`delivered, this`availOut
      modifies em, em.block, em.block.w, em.block.lfc, em.block.ldl, em.block.dfc, em.block.ddl
      modifies em.block.bfc, em.block.bdl
      ensures Half(done) && em.block.HasRoom()
      ensures Flowed(old(em.block.w.pending), old(delivered + availOut))
      ensures sent < |win.text.inp| && em.All() == old(em.All()) + [Literal(win.text.inp[sent])]
    {
      hide Predicts, Chosen, Emitted, E.Emitter.Valid, Primed;
      var full := SendLiteral(win.strstart - 1, sent, done);
      if full { var _, _, _ := FlushBlock(false, done); }
    }

    /** Refilling the window keeps the waiting match, even if its start leaves the window. */
    method RefillLazy(finish: bool, ghost sent: nat, ghost total: seq<Byte>) returns (next: Action)
      requires Sound(sent) && Pending(sent) && sent + Sent() == win.text.off + win.strstart
      requires win.text.inp + win.input == total
      modifies this`blockStart, this`matchStart, win, win.window, win.head, win.prev
      ensures Sound(sent) && Pending(sent) && sent + Sent() == win.text.off + win.strstart
      ensures win.text.inp + win.input == total
      ensures next == Again ==> win.lookahead >= 1 && win.strstart + MIN_LOOKAHEAD <= win.window.Length
      ensures next == Last ==>
              finish && win.lookahead == 0 && win.input == []
              && win.strstart + MIN_LOOKAHEAD <= win.window.Length
      ensures (next == Wait ==> !finish && Drained()) && win.text.ins == old(win.text).ins
      ensures win.text.off + win.strstart == old(win.text.off + win.strstart)
    {
      ghost var inp, s, off, m := win.text.inp, win.strstart, win.text.off, matchStart;
      var slid;
      next, slid := Refill(finish, sent, total);
      if matchLength >= MIN_MATCH {
        StillWaiting(inp, win.text.inp, off, win.text.off, s, win.strstart, dist, matchLength, m, matchStart, slid,
                     win.wsize, sent);
      }
    }

    /** What is waiting. */
    ghost function InHand(): Hand
      reads this`matchAvailable, this`matchLength, this`dist
    {
      Hand(matchAvailable, matchLength, dist)
    }

    /** The decision of `deflate_slow`: emit the waiting match, or a literal, or nothing yet. */
    method LazyEmit(ghost done: nat, ghost sent: nat, ghost f: Found)
      returns (stop: bool, ghost sent': nat, ghost tokens: seq<Token>)
      requires Half(sent) && Entered(done) && Hit(prevLength, done) && sent + Sent() == done
      requires win.window.Length <= 65536 && em.block.HasRoom() && Delivering() && availOut > 0
      requires MIN_MATCH - 1 <= matchLength <= MAX_MATCH && prevLength <= MAX_MATCH
      requires (matchAvailable ==> win.strstart >= 1)
      requires prevLength >= MIN_MATCH ==> matchAvailable && Waiting(prevLength, prevMatch, sent)
      requires matchLength == f.kept
      requires matchLength > prevLength && matchLength >= MIN_MATCH ==> f.dist == win.strstart - matchStart
      requires prevLength < MIN_MATCH ==> prevLength == MIN_MATCH - 1
      modifies this`prevLength, this`matchAvailable, this`matchLength, this`blockStart, this`dist
      modifies this`delivered, this`availOut, win, win.head
      modifies win.prev
      modifies em, em.block, em.block.w, em.block.lfc, em.block.ldl, em.block.dfc, em.block.ddl, em.block.bfc
      modifies em.block.bdl
      ensures Sound(sent') && Pending(sent') && sent' + Sent() == win.text.off + win.strstart && em.block.HasRoom()
      ensures win.input == old(win.input) && win.strstart > old(win.strstart)
      ensures sent' >= sent && (stop <==> availOut == 0) && (stop ==> sent' > sent)
      ensures Flowed(old(em.block.w.pending), old(delivered + availOut)) && em.All() == old(em.All()) + tokens
      ensures Lazy(win.text.inp, done, Hand(old(matchAvailable), old(prevLength), old(dist)), f, InHand(), tokens)
      ensures win.text == if tokens != [] && tokens[0].Match? then SkippedLazy(old(win.text), done, tokens[0].length)
                          else old(win.text)
    {
      hide Repeats, E.Emitter.Valid, Emitted, Primed, Window.Primes;
      stop := false;
      if prevLength >= MIN_MATCH && matchLength <= prevLength {
        sent' := sent + prevLength;
        tokens := [Match(prevLength, dist)];
        var full := EmitWaiting(done, sent, sent');
        stop := FlushIf(full, sent');
      } else if matchAvailable {
        sent' := done;
        stop := LazyLiteral(done, sent);
        tokens := [Literal(win.text.inp[sent])];
      } else {
        sent', tokens := sent, [];
        StepWaiting(done);
      }
    }

    /** One step of `deflate_slow`. */
    method SlowStep(ghost done: nat, ghost sent: nat)
      returns (stop: bool, ghost sent': nat, ghost look: Found, ghost tokens: seq<Token>)
      requires Sound(sent) && Pending(sent) && sent + Sent() == done == win.text.off + win.strstart
      requires em.block.HasRoom() && Delivering() && availOut > 0
      requires win.lookahead >= 1 && win.strstart + MIN_LOOKAHEAD <= win.window.Length <= 65536
      modifies this, win, win.head, win.prev
      modifies em, em.block, em.block.w, em.block.lfc, em.block.ldl, em.block.dfc, em.block.ddl, em.block.bfc
      modifies em.block.bdl
      ensures Sound(sent') && Pending(sent') && sent' + Sent() == win.text.off + win.strstart && em.block.HasRoom()
      ensures win.input == old(win.input) && win.strstart > old(win.strstart)
      ensures sent' >= sent && (stop <==> availOut == 0) && (stop ==> sent' > sent)
      ensures Flowed(old(em.block.w.pending), old(delivered + availOut)) && em.All() == old(em.All()) + tokens
      ensures SlowTokens(cfg, old(win.text), done, old(InHand()), look, InHand(), tokens)
      ensures win.text == LazyInserts(old(win.text), done, tokens)
      ensures finished == old(finished) && lastFlush == old(lastFlush)
    {
      hide Repeats, Primed, Emitted, E.Emitter.Valid, Looked, Lazy, Added, Window.Core;
      ghost var t, before := win.text, InHand();
      look := LazyLook(done, sent);
      LookedBefore(cfg, t, win.text, done, prevLength, look);
      stop, sent', tokens := LazyEmit(done, sent, look);
    }

    /** What one round sends: nothing, or what the step for the string at `done` sends, with the strings that were
        inserted. */
    ghost predicate SlowSent(t: Text, done: nat, before: Hand, look: Found, tokens: seq<Token>)
      reads this`matchAvailable, this`matchLength, this`dist, win
    {
      var u := win.text;
      var v := u.(ins := t.ins);
      if u.off + win.strstart == done then tokens == [] && u == v && InHand() == before
      else SlowTokens(cfg, v, done, before, look, InHand(), tokens) && u == LazyInserts(v, done, tokens)
    }

    /** One round of the loop of `deflate_slow`. */
    method SlowRound(finish: bool, ghost sent: nat, ghost total: seq<Byte>)
      returns (next: Action, ghost sent': nat, ghost look: Found, ghost tokens: seq<Token>)
      requires Sound(sent) && Pending(sent) && sent + Sent() == win.text.off + win.strstart
      requires win.text.inp + win.input == total && em.block.HasRoom() && Delivering() && availOut > 0
      modifies this, win, win.window, win.head, win.prev
      modifies em, em.block, em.block.w, em.block.lfc, em.block.ldl, em.block.dfc, em.block.ddl, em.block.bfc
      modifies em.block.bdl
      ensures Sound(sent') && Pending(sent') && sent' + Sent() == win.text.off + win.strstart
      ensures win.text.inp + win.input == total
      ensures em.block.HasRoom() && Flowed(old(em.block.w.pending), old(delivered + availOut))
      ensures sent' >= sent && finished == old(finished) && lastFlush == old(lastFlush)
      ensures next == Again ==>
              old(win.text.off + win.strstart) < win.text.off + win.strstart <= |total| && availOut > 0
      ensures next == Wait ==> if availOut > 0 then !finish && Drained() else sent' > sent
      ensures next == Last ==>
              finish && win.lookahead == 0 && win.input == [] && availOut > 0
              && win.strstart + MIN_LOOKAHEAD <= win.window.Length
      ensures em.All() == old(em.All()) + tokens
      ensures SlowSent(old(win.text), old(win.text.off + win.strstart), old(InHand()), look, tokens)
    {
      hide Emitted, E.Emitter.Valid, Window.Core, Repeats, SlowTokens, LazyInserts;
      next := RefillLazy(finish, sent, total);
      sent', tokens, look := sent, [], Found(0, 0, 0);
      if next == Again {
        Ahead(win);
        ghost var t := win.text;
        var stop;
        stop, sent', look, tokens := SlowStep(win.text.off + win.strstart, sent);
        LazyText(t, win.text, old(win.text.off + win.strstart), tokens);
        Ahead(win);
        if stop { next := Wait; }
      }
    }

    /** Emits the byte that is still waiting at the end of the input. */
    method LastLiteral(ghost sent: nat, ghost done: nat)
      requires Sound(sent) && Pending(sent) && sent + Sent() == done == win.text.off + win.strstart
      requires em.block.HasRoom()
      modifies this`matchAvailable, em, em.block, em.block.lfc
      ensures Sound(done) && !matchAvailable
      ensures if old(matchAvailable)
              then 1 <= done <= |win.text.inp| && em.All() == old(em.All()) + [Literal(win.text.inp[done - 1])]
              else em.All() == old(em.All())
    {
      hide Repeats, E.Emitter.Valid, Emitted, Primed, Shows, Chained;
      if matchAvailable {
        var _ := SendLiteral(win.strstart - 1, sent, done);
        matchAvailable := false;
      }
    }

    /** `deflate_slow`: like `deflate_fast`, but a match waits until it is clear that the next byte has no better
        one. */
    method DeflateSlow(finish: bool, ghost sent0: nat, ghost total: seq<Byte>) returns (status: Status, ghost sent: nat)
      requires Sound(sent0) && Pending(sent0) && sent0 + Sent() == win.text.off + win.strstart
      requires win.text.inp + win.input == total
      requires em.block.HasRoom() && Delivering() && availOut > 0
      modifies this, win, win.window, win.head, win.prev
      modifies em, em.block, em.block.w, em.block.lfc, em.block.ldl, em.block.dfc, em.block.ddl, em.block.bfc
      modifies em.block.bdl
      ensures Flowed(old(em.block.w.pending), old(delivered + availOut))
      ensures finished == old(finished) && lastFlush == old(lastFlush)
      ensures status == NeedMore ==>
              (Sound(sent) && Pending(sent) && sent + Sent() == win.text.off + win.strstart
               && win.text.inp + win.input == total && em.block.HasRoom())
      ensures status == NeedMore && availOut > 0 ==> !finish && Drained()
      ensures status == NeedMore ==> sent >= sent0 && (availOut == 0 ==> sent > sent0)
      ensures status != NeedMore ==> finish && Finished(total) && win.lookahead == 0 && win.input == []
                                     && (status == FinishStarted <==> availOut == 0)
    {
      hide Emitted, E.Emitter.Valid, Window.Core, Repeats, SlowTokens, LazyInserts, E.Complete, E.Emitter.Logged, Lazy,
          Looked;
      sent := sent0;
      while true
        invariant Sound(sent) && Pending(sent) && sent + Sent() == win.text.off + win.strstart
        invariant win.text.inp + win.input == total && sent >= sent0 && availOut > 0
        invariant em.block.HasRoom() && Flowed(old(em.block.w.pending), old(delivered + availOut))
        invariant finished == old(finished) && lastFlush == old(lastFlush)
        decreases |total| - (win.text.off + win.strstart)
      {
        var next;
        ghost var look, tokens;
        next, sent, look, tokens := SlowRound(finish, sent, total);
        if next == Wait { return NeedMore, sent; }
        if next == Last { break; }
      }
      ghost var done: nat := win.text.off + win.strstart;
      LastLiteral(sent, done);
      Finish(done, total);
      status := if availOut == 0 then FinishStarted else FinishDone;
    }

    // -------------------------------------------------------------- calls

    /** How many bytes of the input have been emitted. */
    ghost function Position(): int
      reads this`matchAvailable, win`text, win`strstart
    {
      win.text.off + win.strstart - Sent()
    }

    /** The bytes `given` have been taken in total; all of them are sent when the stream is finished. */
    ghost predicate Taken(given: seq<Byte>)
      reads this`finished, this`blockStart, this`matchLength, this`matchStart, this`prevLength, this`matchAvailable,
            this`dist
      reads win, win.window, win.head, win.prev, em, em.block, em.block.w, em.block.lfc, em.block.dfc, em.block.bfc
    {
      if finished then Finished(given) && win.lookahead == 0 && win.input == []
      else
        && Position() >= 0 && Sound(Position()) && win.text.inp + win.input == given && em.block.HasRoom()
        && (if cfg.lazy then Pending(Position())
            else matchLength < MIN_MATCH && prevLength == MIN_MATCH - 1 && !matchAvailable)
    }

    /** Between two calls, after the bytes `given` have been taken in total. */
    ghost predicate Ready(given: seq<Byte>)
      reads this, win, win.window, win.head, win.prev, em, em.block, em.block.w, em.block.lfc, em.block.dfc,
            em.block.bfc
    {
      delivered <= |em.block.w.pending| && Taken(given)
    }

    /** How much there is to do for a caller who wants to finish the stream. */
    ghost function ToDo(given: seq<Byte>): int
      reads this`matchAvailable, this`finished, win`text, win`strstart
    {
      if finished then 0 else |given| - Position() + 1
    }

    /** What a call hands out: the next pending bytes, in order. */
    ghost predicate HandedOut(pending0: seq<Byte>, delivered0: nat, room: nat, out: seq<Byte>)
      reads this`delivered, em.block.w`pending
    {
      && pending0 <= em.block.w.pending && delivered0 <= delivered <= |em.block.w.pending|
      && out == em.block.w.pending[delivered0..delivered] && |out| <= room
    }

    /**
      * One call of `deflate` with more input and room for output. `took` says whether the input was taken. A call that
      * neither ends the stream nor is in error has filled its room, or has used up its input; at the end of the
      * stream, everything has been handed out.
      */
    method Call(data: seq<Byte>, room: nat, finish: bool, ghost given: seq<Byte>)
      returns (ret: Return, took: bool, out: seq<Byte>)
      requires Ready(given)
      modifies this, win, win.window, win.head, win.prev
      modifies em, em.block, em.block.w, em.block.lfc, em.block.ldl, em.block.dfc, em.block.ddl, em.block.bfc
      modifies em.block.bdl
      ensures Ready(if took then given + data else given)
      ensures took <==> (ret == OK || ret == STREAM_END) && !old(finished)
      ensures HandedOut(old(em.block.w.pending), old(delivered), room, out)
      ensures ret == STREAM_ERROR <==> old(finished) && !finish
      ensures ret != STREAM_ERROR ==> (ret == BUF_ERROR <==>
                if room == 0 then true
                else if old(finished) then data != [] && |out| < room
                else !finish && data == [] && old(win.input) == [] && old(lastFlush) != Unset
                     && old(delivered) == |old(em.block.w.pending)|)
      ensures lastFlush == if ret == STREAM_ERROR || room == 0 then old(lastFlush)
                           else if ret == OK && |out| == room then Unset else if finish then Finishing else NoFlush
      ensures ret == OK ==> |out| == room || (!finish && Drained())
      ensures ret == OK || ret == STREAM_END ==> room > 0
      ensures ret == STREAM_END ==> finish && finished && delivered == |em.block.w.pending|
      ensures room > 0 && finish && data == [] ==>
              ret == STREAM_END || Less(ToDo(given), |em.block.w.pending| - delivered,
                                        old(ToDo(given)), |old(em.block.w.pending)| - old(delivered))
      ensures old(finished) ==> finished
    {
      hide Deflater.Taken, Deflater.Position, Deflater.Drained;
      took, out := false, [];
      if finished && !finish { return STREAM_ERROR, took, out; }
      if room == 0 { return BUF_ERROR, took, out; }
      var oldFlush, from := lastFlush, delivered;
      lastFlush, availOut := if finish then Finishing else NoFlush, room;
      ret, took := Serve(data, finish, oldFlush, given);
      out := em.block.w.pending[from..delivered];
    }

    /** A call with room for output: what is pending is handed out first. */
    method Serve(data: seq<Byte>, finish: bool, oldFlush: Flush, ghost given: seq<Byte>)
      returns (ret: Return, took: bool)
      requires Ready(given) && availOut > 0 && (finished ==> finish)
      modifies this, win, win.window, win.head, win.prev
      modifies em, em.block, em.block.w, em.block.lfc, em.block.ldl, em.block.dfc, em.block.ddl, em.block.bfc
      modifies em.block.bdl
      ensures Ready(if took then given + data else given) && ret != STREAM_ERROR
      ensures took <==> ret != BUF_ERROR && !old(finished)
      ensures old(em.block.w.pending) <= em.block.w.pending && delivered + availOut == old(delivered + availOut)
      ensures old(delivered) <= delivered && (old(finished) ==> finished)
      ensures ret == BUF_ERROR <==>
              if old(finished) then data != [] && availOut > 0
              else !finish && data == [] && old(win.input) == [] && oldFlush != Unset
                   && old(delivered) == |old(em.block.w.pending)|
      ensures ret == BUF_ERROR && !old(finished) ==> delivered == old(delivered)
      ensures lastFlush == if ret == OK && availOut == 0 then Unset else old(lastFlush)
      ensures ret == OK ==> availOut == 0 || (!finish && Drained())
      ensures ret == STREAM_END ==> finish && finished && availOut > 0 && delivered == |em.block.w.pending|
      ensures finish && data == [] && ret != STREAM_END ==>
              ret == OK && Less(ToDo(given), |em.block.w.pending| - delivered, old(ToDo(given)),
                                |old(em.block.w.pending)| - old(delivered))
    {
      hide Deflater.Taken, Deflater.Position, Deflater.Drained;
      NothingGiven(given);
      FinishedMeans(given);
      if !finished { Supply(data, given); }
      if delivered != |em.block.w.pending| {
        FlushPending();
        if availOut == 0 {
          lastFlush := Unset;
          return OK, !finished;
        }
      } else if win.input == [] && !finish && oldFlush != Unset {
        return BUF_ERROR, false;
      }
      if finished && data != [] { return BUF_ERROR, false; }
      took := !finished;
      ret := Work(finish, if took then given + data else given);
    }

    lemma NothingGiven(given: seq<Byte>)
      ensures given + [] == given
    {
    }

    lemma FinishedMeans(given: seq<Byte>)
      requires Taken(given)
      ensures finished ==> win.input == [] && win.lookahead == 0
      ensures (!finished ==> 0 <= Position() <= |given|) && ToDo(given) >= 0
    {
      hide E.Complete, E.Emitter.Logged, E.Emitter.Valid, Window.Core, Repeats;
    }

    /** The part of a call that compresses. */
    method Work(finish: bool, ghost total: seq<Byte>) returns (ret: Return)
      requires Ready(total) && Delivering() && availOut > 0 && (finished ==> finish)
      modifies this, win, win.window, win.head, win.prev
      modifies em, em.block, em.block.w, em.block.lfc, em.block.ldl, em.block.dfc, em.block.ddl, em.block.bfc
      modifies em.block.bdl
      ensures Ready(total) && Flowed(old(em.block.w.pending), old(delivered + availOut))
      ensures ret == OK || ret == STREAM_END
      ensures ret == OK ==> availOut == 0 || (!finish && Drained())
      ensures ret == STREAM_END ==> finish && finished && availOut > 0
      ensures ret == OK && finish ==> ToDo(total) < old(ToDo(total))
      ensures old(finished) ==> finished
      ensures lastFlush == if ret == OK && availOut == 0 then Unset else old(lastFlush)
    {
      hide Deflater.Taken, Deflater.Position, Deflater.Finished;
      FinishedMeans(total);
      if win.input != [] || win.lookahead != 0 || (finish && !finished) {
        var status := Compress(finish, total);
        if status == FinishStarted || status == FinishDone {
          finished := true;
          AllTaken(total);
        }
        if status == NeedMore || status == FinishStarted {
          if availOut == 0 { lastFlush := Unset; }
          return OK;
        }
      }
      ret := if finish then STREAM_END else OK;
    }

    lemma AllTaken(total: seq<Byte>)
      requires finished && Finished(total) && win.lookahead == 0 && win.input == []
      ensures Taken(total)
    {
    }

    /** One of the two loops. `Taken` holds in the end, once the state is changed. */
    method Compress(finish: bool, ghost total: seq<Byte>) returns (status: Status)
      requires Taken(total) && !finished && Delivering() && availOut > 0
      modifies this, win, win.window, win.head, win.prev
      modifies em, em.block, em.block.w, em.block.lfc, em.block.ldl, em.block.dfc, em.block.ddl, em.block.bfc
      modifies em.block.bdl
      ensures Flowed(old(em.block.w.pending), old(delivered + availOut)) && !finished && lastFlush == old(lastFlush)
      ensures status == NeedMore ==> Taken(total) && Position() >= old(Position())
      ensures status == NeedMore ==> if availOut > 0 then !finish && Drained() else Position() > old(Position())
      ensures status != NeedMore ==>
              finish && Finished(total) && win.lookahead == 0 && win.input == []
              && (status == FinishStarted <==> availOut == 0)
    {
      hide Emitted, E.Emitter.Valid, Window.Core, Repeats, E.Complete, E.Emitter.Logged;
      ghost var sent;
      if cfg.lazy {
        status, sent := DeflateSlow(finish, Position(), total);
      } else {
        status, sent := DeflateFast(finish, total);
      }
    }

    /** More input; nothing else changes. */
    method Supply(data: seq<Byte>, ghost given: seq<Byte>)
      requires Taken(given) && !finished
      modifies win`input
      ensures Taken(given + data) && win.input == old(win.input) + data
    {
      hide Emitted, E.Emitter.Valid, Shows, Chained, Primed, Repeats;
      MoreInput(win.text.inp, win.input, data);
      win.input := win.input + data;
    }
  }

  /** In the order of the first numbers, and of the second ones where these are the same. */
  predicate Less(a: int, b: int, a0: int, b0: int)
  {
    a < a0 || (a == a0 && b < b0)
  }

  lemma MoreInput(inp: seq<Byte>, input: seq<Byte>, data: seq<Byte>)
    ensures inp + (input + data) == (inp + input) + data
  {
  }

  lemma StillWaiting(inp: seq<Byte>, inp': seq<Byte>, off: nat, off': nat, s: nat, s': nat, dist: nat, len: nat, m: nat,
                     m': nat, slid: bool, wsize: nat, sent: nat)
    requires 1 <= s <= 65536 && dist <= 32768 && wsize <= 32768 && m == WrapSub(s - 1, dist)
    requires Repeats(inp, sent, dist, len) && inp <= inp'
    requires Moved(slid, off, off', s, s', wsize) && m' == (if slid then WrapSub(m, wsize) else m)
    ensures s' >= 1 && m' == WrapSub(s' - 1, dist) && Repeats(inp', sent, dist, len)
  {
    RepeatsMore(inp, inp', sent, dist, len);
    if slid { WrapShift(s - 1, s' - 1, dist, wsize); }
  }

  lemma RepeatsMore(inp: seq<Byte>, inp': seq<Byte>, x: nat, d: nat, n: nat)
    requires Repeats(inp, x, d, n) && inp <= inp'
    ensures Repeats(inp', x, d, n)
  {
    assert inp'[x..x + n] == inp[x..x + n] && inp'[x - d..x - d + n] == inp[x - d..x - d + n];
  }

  lemma WrapAny(a: nat, d: nat)
    requires d < WRAP
    ensures d <= a ==> WrapSub(a, d) == a - d
  {
  }

  /** The distance to a wrapped position is right all the same. */
  lemma WrapBack(a: nat, d: nat)
    requires d < WRAP && a < WRAP
    ensures WrapSub(a, d) < WRAP && WrapSub(a, WrapSub(a, d)) == d
  {
  }

  /** Moving a wrapped position with the window. */
  lemma WrapShift(a: nat, a': nat, d: nat, w: nat)
    requires a == a' + w && a < WRAP && d <= 32768 && w <= 32768
    ensures WrapSub(a, d) < WRAP && WrapSub(WrapSub(a, d), w) == WrapSub(a', d)
  {
  }

  lemma AllSent(inp: seq<Byte>, input: seq<Byte>, total: seq<Byte>, done: nat, bs: int, start: seq<Byte>,
                out: seq<Byte>)
    requires Emitted(inp, done, bs, start, out) && done == |inp| && input == [] && inp + input == total
    ensures out == total
  {
  }

  /** Without a string of the same hash that is near enough, any search is thorough. */
  lemma NoneNear(w: Window, hashHead: nat, done: nat, allowed: nat, nice: nat, len: nat)
    requires w.Core(w.strstart + w.lookahead) && done == w.text.off + w.strstart && w.lookahead >= 1
    requires w.lookahead >= MIN_MATCH ==> w.Heading(hashHead, w.strstart)
    requires hashHead > 0 ==> w.lookahead >= MIN_MATCH && ChainHead(w.text, hashHead, w.strstart)
    requires hashHead == 0 || w.strstart - hashHead > MaxDist(w.wsize)
    ensures w.text.wsize >= 512 && Thorough(w.text, done, w.lookahead, allowed, nice, len)
  {
    hide Thorough, Newest, HashAt, Shows, Chained;
    InText(w);
    NoCandidates(w.text, hashHead, w.strstart, w.lookahead, allowed, nice, len);
  }

  /** Where the window is in the input. */
  lemma InText(w: Window)
    requires w.Core(w.strstart + w.lookahead)
    ensures w.text.off + w.strstart + w.lookahead == |w.text.inp| && w.text.wsize == w.wsize >= 512
  {
  }

  lemma LazyText(t: Text, u: Text, x: nat, tokens: seq<Token>)
    requires u == LazyInserts(t, x, tokens)
    ensures t == u.(ins := t.ins)
  {
  }

  /** With enough lookahead there is room for a search. */
  lemma Ahead(w: Window)
    requires w.Valid()
    ensures w.strstart + w.lookahead <= w.window.Length <= 65536
    ensures w.text.off + w.strstart + w.lookahead == |w.text.inp|
  {
  }

  lemma InWindow(w: Window, end: nat)
    requires w.Core(end)
    ensures w.strstart <= w.window.Length <= 65536
  {
  }

  lemma EmittedFlushed(inp: seq<Byte>, done: nat, bs: int, start: seq<Byte>, out: seq<Byte>)
    requires Emitted(inp, done, bs, start, out)
    ensures Emitted(inp, done, done, out, out)
  {
  }

  /** The bytes of the block are still in the window. */
  lemma BlockBytes(w: seq<Byte>, inp: seq<Byte>, off: nat, b: nat, s: nat, end: nat)
    requires b <= s <= end <= |w| && off + end == |inp| && forall i :: 0 <= i < end ==> w[i] == inp[off + i]
    ensures inp[..off + s] == inp[..off + b] + w[b..s]
  {
  }
}

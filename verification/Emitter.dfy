/**
  * What has been sent of a stream so far, block after block: the bytes that the decoder has when it gets there
  * (`FLUSH_BLOCK` of dep/zlib/deflate.c on top of dep/zlib/trees.c).
  */
module Emitter {
  import opened Arith
  import opened BitStream
  import opened Tokens
  import opened Decoder
  import opened WholeBlocks
  import opened BlockFlush

  /** However the stream goes on after `s`, the decoder gets to the end of `s` with the output `out`. */
  ghost predicate Reaches(s: Bits, out: seq<Byte>)
  {
    forall all: Bits {:trigger ReadStream(all, 0, [])} :: s <= all ==>
        ReadStream(all, 0, []) == ReadStream(all, |s|, out)
  }

  lemma ReachesNone()
    ensures Reaches([], [])
  {
  }

  lemma OneBlock(all: Bits, pos: nat, out: seq<Byte>, last: bool, out': seq<Byte>, pos': nat)
    requires ReadBlock(all, pos, out) == Block(last, out', pos')
    ensures ReadStream(all, pos, out) == if last then Some(Whole(out', pos')) else ReadStream(all, pos', out')
  {
  }

  lemma ReachesNext(s: Bits, s': Bits, out: seq<Byte>, ts: seq<Token>, stored: Option<seq<Byte>>, out': seq<Byte>)
    requires Reaches(s, out) && s <= s' && Means(s, s', false, ts, stored) && AllFit(out, ts) && out' == Expand(out, ts)
    requires stored.Some? ==> out' == out + stored.value
    ensures Reaches(s', out')
  {
    forall all: Bits | s' <= all ensures ReadStream(all, 0, []) == ReadStream(all, |s'|, out') {
      assert s <= all;
      assert ReadBlock(all, |s|, out) == Block(false, out', |s'|);
      OneBlock(all, |s|, out, false, out', |s'|);
    }
  }

  lemma ReachesLast(s: Bits, s': Bits, all: Bits, out: seq<Byte>, ts: seq<Token>, stored: Option<seq<Byte>>,
                    out': seq<Byte>)
    requires Reaches(s, out) && s <= s' <= all && Means(s, s', true, ts, stored) && AllFit(out, ts)
    requires out' == Expand(out, ts)
    requires stored.Some? ==> out' == out + stored.value
    ensures ReadStream(all, 0, []) == Some(Whole(out', |s'|))
  {
    assert s <= all;
    assert ReadBlock(all, |s|, out) == Block(true, out', |s'|);
    OneBlock(all, |s|, out, true, out', |s'|);
  }

  lemma NoTokens(ts: seq<Token>)
    ensures ts + [] == ts
  {
  }

  lemma NothingTallied(out: seq<Byte>)
    ensures AllFit(out, []) && Expand(out, []) == out
  {
  }

  /** Every match is long enough and short enough, and reaches back at most `maxDist` bytes. */
  ghost predicate Within(ts: seq<Token>, maxDist: nat)
  {
    forall i {:trigger ts[i]} :: 0 <= i < |ts| && ts[i].Match? ==>
      MIN_MATCH <= ts[i].length <= MAX_MATCH && 1 <= ts[i].dist <= maxDist
  }

  /** The tokens stand for exactly these bytes. */
  ghost predicate StandFor(ts: seq<Token>, out: seq<Byte>)
  {
    AllFit([], ts) && Expand([], ts) == out
  }

  /** The stream `s` is complete: it stands for `out`, whatever follows, and ends at the byte boundary after its last
      block. */
  ghost predicate Complete(s: Bits, out: seq<Byte>)
  {
    forall all: Bits {:trigger ReadStream(all, 0, [])} :: s <= all ==> EndsWith(ReadStream(all, 0, []), s, out)
  }

  ghost predicate EndsWith(r: Option<Whole>, s: Bits, out: seq<Byte>)
  {
    r.Some? && r.value.out == out && Align(r.value.end) == |s|
  }

  lemma CompleteIs(s: Bits, s': Bits, p: Bits, out: seq<Byte>, ts: seq<Token>, stored: Option<seq<Byte>>,
                   out': seq<Byte>)
    requires Reaches(s, out) && s <= s' && Means(s, s', true, ts, stored) && AllFit(out, ts) && out' == Expand(out, ts)
    requires (stored.Some? ==> out' == out + stored.value) && p == Padded(s')
    ensures Complete(p, out')
  {
    PaddedAligns(s');
    forall all: Bits | p <= all ensures EndsWith(ReadStream(all, 0, []), p, out') {
      PaddedPrefix(s', p, all);
      ReachesLast(s, s', all, out, ts, stored, out');
    }
  }

  lemma BlockSent(s: Bits, s': Bits, p: Bits, out: seq<Byte>, last: bool, ts: seq<Token>, stored: Option<seq<Byte>>,
                  out': seq<Byte>)
    requires Reaches(s, out) && s <= s' && Means(s, s', last, ts, stored) && AllFit(out, ts) && out' == Expand(out, ts)
    requires (stored.Some? ==> out' == out + stored.value) && (last ==> p == Padded(s'))
    ensures if last then Complete(p, out') else Reaches(s', out')
  {
    hide *;
    if last { CompleteIs(s, s', p, out, ts, stored, out'); } else { ReachesNext(s, s', out, ts, stored, out'); }
  }

  /** One more token. */
  lemma OneMoreToken(ts: seq<Token>, t: Token, out: seq<Byte>, maxDist: nat)
    requires StandFor(ts, out) && Within(ts, maxDist) && Fits(t, |out|) && Within([t], maxDist)
    ensures StandFor(ts + [t], Extend(out, t)) && Within(ts + [t], maxDist)
  {
    ExpandAppend([], ts, t);
    assert [t][0] == t;
  }

  lemma PendingFirst(w: BitWriter)
    ensures BytesBits(w.pending) <= w.Stream()
  {
  }

  lemma StreamGrew(s: Bits, s': Bits, t: Bits, last: bool)
    requires s <= s' && t == if last then Padded(s') else s'
    ensures s <= t
  {
  }

  /** What is pending stays so when more is sent. */
  lemma PendingGrew(p: seq<Byte>, s: Bits, w: BitWriter)
    requires w.Valid() && w.biValid < 8 && BytesBits(p) <= s <= w.Stream()
    ensures p <= w.pending
  {
    var a, b, t := BytesBits(p), BytesBits(w.pending), w.Stream();
    assert b == t[..|b|] && a == t[..|a|];
    assert |a| <= |b|;
    assert a == b[..|a|];
    BytesBitsPrefix(p, w.pending);
  }

  type Distance = d: nat | d <= 32768

  class Emitter {
    const block: BlockState
    /** How far back a match may reach. */
    const maxDist: Distance
    /** All tokens of the blocks before the current one. */
    ghost var past: seq<Token>
    /** The bytes before the current block, and all bytes so far. */
    ghost var start: seq<Byte>
    ghost var out: seq<Byte>

    ghost predicate Valid()
      reads this, block, block.w, block.lfc, block.dfc, block.bfc
    {
      && block.Valid() && Reaches(block.w.Stream(), start)
      && AllFit(start, block.tokens) && out == Expand(start, block.tokens)
      && Logged(past + block.tokens)
    }

    /** The tokens of all blocks are within bounds, and stand for all bytes. */
    ghost predicate Logged(all: seq<Token>)
      reads this
    {
      Within(all, maxDist) && StandFor(all, out)
    }

    constructor (litBufsize: BufSize, level: nat, fixedOnly: bool, maxDist: Distance)
      ensures Valid() && block.HasRoom() && this.maxDist == maxDist && out == [] && start == [] && block.level == level
      ensures fresh(block) && fresh(block.w) && block.w.pending == []
      ensures block.litBufsize == litBufsize && block.fixedOnly == fixedOnly
      ensures fresh(block.lfc) && fresh(block.ldl) && fresh(block.dfc) && fresh(block.ddl) && fresh(block.bfc)
      ensures fresh(block.bdl)
    {
      block := new BlockState(litBufsize, level, fixedOnly);
      this.maxDist := maxDist;
      start, out, past := [], [], [];
      new;
      ReachesNone();
      NothingTallied([]);
    }

    /** The tokens of all blocks so far. */
    ghost function All(): seq<Token>
      reads this`past, block
    {
      past + block.tokens
    }

    /** Adds a literal byte. */
    method EmitLiteral(b: Byte) returns (full: bool)
      requires Valid() && block.HasRoom()
      modifies this, block, block.lfc
      ensures Valid() && out == old(out) + [b] && start == old(start) && (full <==> !block.HasRoom())
      ensures All() == old(All()) + [Literal(b)]
    {
      ExpandAppend(start, block.tokens, Literal(b));
      LogToken(Literal(b));
      full := block.TallyLiteral(b);
      out := out + [b];
    }

    /** Adds a match. */
    method EmitMatch(dist: nat, length: nat) returns (full: bool)
      requires Valid() && block.HasRoom() && MIN_MATCH <= length <= MAX_MATCH && 1 <= dist <= maxDist && dist <= |out|
      modifies this, block, block.lfc, block.dfc
      ensures Valid() && out == Copy(old(out), dist, length) && start == old(start) && (full <==> !block.HasRoom())
      ensures All() == old(All()) + [Match(length, dist)]
    {
      ExpandAppend(start, block.tokens, Match(length, dist));
      LogToken(Match(length, dist));
      full := block.TallyMatch(dist, length);
      out := Copy(out, dist, length);
    }

    /** The log with one more token. */
    lemma LogToken(t: Token)
      requires Logged(past + block.tokens) && Fits(t, |out|) && Within([t], maxDist)
      ensures Within(past + (block.tokens + [t]), maxDist) && StandFor(past + (block.tokens + [t]), Extend(out, t))
    {
      OneMoreToken(past + block.tokens, t, out, maxDist);
      assert past + (block.tokens + [t]) == (past + block.tokens) + [t];
    }

    /** Ends the block, and flushes whole bytes. After the last block the stream decodes to all bytes. */
    method Flush(buf: Option<seq<Byte>>, storedLen: nat, last: bool)
      returns (ghost choice: Choice, ghost c: Codes, ghost s': Bits)
      requires Valid() && (block.level == 0 ==> buf.Some?)
      requires buf.Some? ==> |buf.value| == storedLen < 65536 && out == start + buf.value
      modifies this, block, block.w, block.lfc, block.ldl, block.dfc, block.ddl, block.bfc, block.bdl
      ensures out == old(out) && start == out && Logged(past) && past == old(past + block.tokens) == All()
      ensures old(block.w.pending) <= block.w.pending
      ensures Written(old(block.w.Stream()), s', last, old(block.tokens), buf, choice.kind, c)
      ensures block.w.Stream() == if last then Padded(s') else s'
      ensures block.level > 0 ==>
              Predicts(choice, c, old(block.tokens)) && Chosen(choice, buf, storedLen, block.fixedOnly)
      ensures last || (Valid() && block.HasRoom())
      ensures last ==> Complete(BytesBits(block.w.pending), out)
    {
      hide Reaches, Means, AllFit, Expand, ReadStream, ValidTokens, BlockState.Fixed, Within, StandFor, Complete,
          Written, Predicts, Chosen, Padded, BytesBits, ToBits;
      ghost var s, ts, p := block.w.Stream(), block.tokens, block.w.pending;
      PendingFirst(block.w);
      choice, c, s' := block.FlushBlock(buf, storedLen, last);
      ghost var stored := if choice.kind == STORED_BLOCK then buf else None;
      BlockSent(s, s', block.w.Stream(), start, last, ts, stored, out);
      start, past := out, past + ts;
      NothingTallied(out);
      NoTokens(past);
      block.w.BiFlush();
      StreamGrew(s, s', block.w.Stream(), last);
      PendingGrew(p, s, block.w);
    }
  }
}

/**
  * Which tokens `deflate_fast` and `deflate_slow` of dep/zlib/deflate.c send, and which strings they insert, said of the
  * input alone.
  */
module TokenRules {
  import opened Arith
  import opened BitStream
  import opened Tokens
  import opened Chains
  import opened LongestMatch
  import opened SlidingWindow

  const TOO_FAR: nat := 4096

  /** How hard to search: one row of the configuration table, and the strategy. */
  datatype Config = Config(goodMatch: nat, maxLazy: nat, niceMatch: nat, maxChain: nat, filtered: bool, lazy: bool)

  /** How many bytes a token stands for. */
  function Width(t: Token): nat
  {
    match t case Literal(_) => 1 case Match(length, _) => length
  }

  /** The text when the string at `x` has been inserted, if it has three bytes. */
  ghost function Inserting(t: Text, x: nat): Text
  {
    if x + MIN_MATCH <= |t.inp| then t.(ins := t.ins + {x}) else t
  }

  /** A thorough search for the string at `x`, when a match of length `least` is there already. */
  ghost predicate Searched(cfg: Config, t: Text, x: nat, least: nat, len: nat)
    requires t.wsize >= 512 && x <= |t.inp|
  {
    Thorough(t, x, |t.inp| - x, Allowed(cfg.maxChain, least, cfg.goodMatch), cfg.niceMatch, len)
  }

  /** The token that `deflate_fast` sends for the string at `x`: the match found, if there is one. */
  ghost predicate Greedy(cfg: Config, t: Text, x: nat, token: Token)
    requires t.wsize >= 512
  {
    && x < |t.inp| && Searched(cfg, t, x, MIN_MATCH - 1, if token.Match? then token.length else MIN_MATCH - 1)
    && match token
       case Literal(b) => b == t.inp[x]
       case Match(length, dist) => MIN_MATCH <= length && Repeats(t.inp, x, dist, length)
  }

  /** The strings that `deflate_fast` inserts with a token: all of them only for short matches. */
  ghost function FastInserts(cfg: Config, t: Text, x: nat, token: Token): Text
  {
    var u := Inserting(t, x);
    if token.Match? && token.length <= cfg.maxLazy && x + token.length + MIN_MATCH <= |t.inp|
    then u.(ins := Added(u.ins, x + 1, x + token.length)) else u
  }

  /** What `deflate_slow` has in hand: whether the last byte was not sent yet, and a match that starts there. */
  datatype Hand = Hand(available: bool, length: nat, dist: nat)

  /** A match that was found, and the length that is left of it when it is dropped or kept. */
  datatype Found = Found(length: nat, dist: nat, kept: nat)

  /** The match at `x` that `deflate_slow` considers when one of length `m` is waiting: none if that one is good enough;
      short ones are dropped when they are too far away, or the data are filtered. */
  ghost predicate Looked(cfg: Config, t: Text, x: nat, m: nat, f: Found)
    requires t.wsize >= 512 && x <= |t.inp|
  {
    if m >= cfg.maxLazy then f.kept == MIN_MATCH - 1
    else
      && Searched(cfg, t, x, m, f.length) && (f.length > m ==> Repeats(t.inp, x, f.dist, f.length))
      && f.kept == if f.length <= 5 && (cfg.filtered || (f.length == MIN_MATCH && f.dist > TOO_FAR))
                   then MIN_MATCH - 1 else f.length
  }

  /** What `deflate_slow` does then: the waiting match is sent unless the new one is longer; a byte that waits is sent
      when its match is given up. */
  ghost predicate Lazy(inp: seq<Byte>, x: nat, before: Hand, f: Found, after: Hand, sent: seq<Token>)
  {
    if before.length >= MIN_MATCH && f.kept <= before.length then
      !after.available && after.length == MIN_MATCH - 1 && sent == [Match(before.length, before.dist)]
    else
      && after.available && after.length == f.kept && (f.kept >= MIN_MATCH ==> after.dist == f.dist)
      && if before.available then 1 <= x <= |inp| && sent == [Literal(inp[x - 1])] else sent == []
  }

  /** One step of `deflate_slow`. */
  ghost predicate SlowTokens(cfg: Config, t: Text, x: nat, before: Hand, f: Found, after: Hand, sent: seq<Token>)
  {
    t.wsize >= 512 && x <= |t.inp| && Looked(cfg, t, x, before.length, f) && Lazy(t.inp, x, before, f, after, sent)
  }

  /** The strings that `deflate_slow` inserts when it sends a match: all that have three bytes. */
  ghost function LazyInserts(t: Text, x: nat, sent: seq<Token>): Text
  {
    var u := Inserting(t, x);
    if sent != [] && sent[0].Match? && sent[0].length >= 1
    then u.(ins := Added(u.ins, x + 1, Within(x + sent[0].length - 1, |t.inp|))) else u
  }

  /** With a longer match than `least` the search is not different. */
  lemma ThoroughMore(t: Text, x: nat, ahead: nat, allowed: nat, nice: nat, len: nat, len': nat)
    requires t.wsize >= 512 && Thorough(t, x, ahead, allowed, nice, len) && len <= len'
    ensures Thorough(t, x, ahead, allowed, nice, len')
  {
    hide Candidate, Agree;
  }

  /** The string itself is not a candidate. */
  lemma TextBefore(cfg: Config, t: Text, u: Text, x: nat, least: nat, len: nat, len': nat)
    requires u == Inserting(t, x) && t.wsize >= 512 && x <= |t.inp| && Searched(cfg, u, x, least, len) && len <= len'
    ensures Searched(cfg, t, x, least, len')
  {
    hide Candidate, Agree, Thorough;
    var a := Allowed(cfg.maxChain, least, cfg.goodMatch);
    if x == 0 {
      NothingBefore(t, |t.inp|, a, cfg.niceMatch, len');
    } else {
      ThoroughBefore(t, u, x, |t.inp| - x, a, cfg.niceMatch, len);
      ThoroughMore(t, x, |t.inp| - x, a, cfg.niceMatch, len, len');
    }
  }

  lemma NothingBefore(t: Text, ahead: nat, allowed: nat, nice: nat, len: nat)
    requires t.wsize >= 512
    ensures Thorough(t, 0, ahead, allowed, nice, len)
  {
  }

  lemma IsLooked(cfg: Config, t: Text, x: nat, m: nat, f: Found)
    requires t.wsize >= 512 && x <= |t.inp| && (m >= cfg.maxLazy ==> f.kept == MIN_MATCH - 1)
    requires m < cfg.maxLazy ==>
             Searched(cfg, t, x, m, f.length) && (f.length > m ==> Repeats(t.inp, x, f.dist, f.length))
    requires m < cfg.maxLazy ==>
             f.kept == if f.length <= 5 && (cfg.filtered || (f.length == MIN_MATCH && f.dist > TOO_FAR))
                       then MIN_MATCH - 1 else f.length
    ensures Looked(cfg, t, x, m, f)
  {
  }

  lemma LookedBefore(cfg: Config, t: Text, u: Text, x: nat, m: nat, f: Found)
    requires u == Inserting(t, x) && t.wsize >= 512 && x <= |t.inp| && Looked(cfg, u, x, m, f)
    ensures Looked(cfg, t, x, m, f)
  {
    hide Searched, Repeats;
    if m < cfg.maxLazy { TextBefore(cfg, t, u, x, m, f.length, f.length); }
  }
}

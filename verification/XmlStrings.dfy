/**
  * Strings of dep/tinyxml2/tinyxml2.cpp: what a stretch of the input means (`GetCharacterRef` and the translation in
  * `StrPair::GetStr`), and `GetStr` itself, which does this in place, inside the input buffer.
  */
module XmlStrings {
  const NUL: char := '\0'
  const LF: char := '\n'
  const CR: char := '\r'
  const U32: nat := 0x1_0000_0000
  const U64: nat := 0x1_0000_0000_0000_0000

  datatype Option<T> = None | Some(value: T)

  /** The byte at `p`; a string ends with a zero. */
  function At(s: string, p: nat): char
  {
    if p < |s| then s[p] else NUL
  }

  // ---------------------------------------------------------------- entities

  datatype Entity = Entity(pattern: string, value: char)

  const ENTITIES: seq<Entity> :=
    [Entity("quot", '\"'), Entity("amp", '&'), Entity("apos", '\''), Entity("lt", '<'), Entity("gt", '>')]

  /** Whether the entity with this name is at `p`. */
  predicate Matches(s: string, p: nat, pattern: string)
  {
    p + |pattern| + 1 < |s| && s[p + 1..p + 1 + |pattern|] == pattern && s[p + |pattern| + 1] == ';'
  }

  /** The first entity of the table, from number `i` on, that is at `p`. */
  function FindEntity(s: string, p: nat, i: nat): (r: Option<nat>)
    ensures r.Some? ==> r.value < |ENTITIES| && Matches(s, p, ENTITIES[r.value].pattern)
    decreases |ENTITIES| - i
  {
    if i >= |ENTITIES| then None
    else if Matches(s, p, ENTITIES[i].pattern) then Some(i)
    else FindEntity(s, p, i + 1)
  }

  // ---------------------------------------------------------------- character references

  /** `strchr`: the first `c` from `q` on. */
  function FindChar(s: string, q: nat, c: char): (r: Option<nat>)
    ensures r.Some? ==> q <= r.value < |s| && s[r.value] == c
    decreases |s| - q
  {
    if q >= |s| || s[q] == NUL then None else if s[q] == c then Some(q) else FindChar(s, q + 1, c)
  }

  function Digit(c: char, base: nat): Option<nat>
  {
    if '0' <= c <= '9' then Some(c as nat - '0' as nat)
    else if base == 16 && 'a' <= c <= 'f' then Some(c as nat - 'a' as nat + 10)
    else if base == 16 && 'A' <= c <= 'F' then Some(c as nat - 'A' as nat + 10)
    else None
  }

  /** The number whose digits stand before `q`, back to the last `stop`; the weights wrap around at 32 bits. */
  function Number(s: string, q: nat, low: nat, stop: char, base: nat, mult: nat, ucs: nat): Option<nat>
    requires low < q <= |s| && s[low] == stop
  {
    if s[q - 1] == stop then Some(ucs)
    else
      var d := Digit(s[q - 1], base);
      if d.None? then None
      else Number(s, q - 1, low, stop, base, mult * base % U32, (ucs + mult * d.value % U32) % U64)
  }

  /** The UTF-8 form of a number; nothing for numbers that are too large. */
  function Utf8(u: nat): (r: string)
    ensures |r| <= 4
  {
    if u < 0x80 then [u as char]
    else if u < 0x800 then [(0xC0 + u / 64) as char, (0x80 + u % 64) as char]
    else if u < 0x10000 then [(0xE0 + u / 4096) as char, (0x80 + u / 64 % 64) as char, (0x80 + u % 64) as char]
    else if u < 0x200000 then
      [(0xF0 + u / 262144) as char, (0x80 + u / 4096 % 64) as char, (0x80 + u / 64 % 64) as char,
       (0x80 + u % 64) as char]
    else []
  }

  /** What is written, and where reading goes on. */
  datatype Piece = Piece(text: string, next: nat)

  /** `GetCharacterRef` for the `&#` at `p`; nothing if it is not a reference. */
  function CharacterRef(s: string, p: nat): (r: Option<Piece>)
    requires p + 1 < |s| && s[p + 1] == '#'
    ensures r.Some? ==> p < r.value.next <= |s| && |r.value.text| <= r.value.next - p
  {
    if At(s, p + 2) == NUL then Some(Piece("", p + 1))
    else if s[p + 2] == 'x' then
      if At(s, p + 3) == NUL then None
      else
        var semi := FindChar(s, p + 3, ';');
        if semi.None? then None
        else
          var n := Number(s, semi.value, p + 2, 'x', 16, 1, 0);
          if n.None? then None else Some(Piece(Utf8(n.value), semi.value + 1))
    else
      var semi := FindChar(s, p + 2, ';');
      if semi.None? then None
      else
        var n := Number(s, semi.value, p + 1, '#', 10, 1, 0);
        if n.None? then None else
          assert semi.value == p + 2 ==> n == Some(0);
          Some(Piece(Utf8(n.value), semi.value + 1))
  }

  // ---------------------------------------------------------------- the translation

  /** Two line ends in a row that count as one. */
  predicate TwoEnds(s: string, p: nat)
  {
    (At(s, p) == CR && At(s, p + 1) == LF) || (At(s, p) == LF && At(s, p + 1) == CR)
  }

  /** One step of the translation, from `p`, when `q` is where the next byte is written. */
  function Step(s: string, entities: bool, newlines: bool, p: nat, q: nat): (r: Piece)
    requires q <= p < |s|
    ensures p < r.next <= |s| && |r.text| <= r.next - p
  {
    if newlines && (s[p] == CR || s[p] == LF) then Piece([LF], if TwoEnds(s, p) then p + 2 else p + 1)
    else if entities && s[p] == '&' then
      if At(s, p + 1) == '#' then
        var r := CharacterRef(s, p);
        if r.None? then Piece([s[p]], p + 1) else r.value
      else
        var i := FindEntity(s, p, 0);
        if i.Some? then Piece([ENTITIES[i.value].value], p + |ENTITIES[i.value].pattern| + 2)
        else Piece([s[q]], p + 1)
    else Piece([s[p]], p + 1)
  }

  /** What `GetStr` makes of the bytes from `start` on, when it has come to `p`. */
  function Translated(s: string, entities: bool, newlines: bool, start: nat, p: nat, out: string): (r: string)
    requires start + |out| <= p <= |s|
    ensures out <= r && start + |r| <= |s|
    decreases |s| - p
  {
    if p == |s| then out
    else
      var t := Step(s, entities, newlines, p, start + |out|);
      Translated(s, entities, newlines, start, t.next, out + t.text)
  }

  // ---------------------------------------------------------------- line ends

  /** No byte of the stretch is taken for the start of an entity. */
  predicate NoEntities(v: string, entities: bool)
  {
    entities ==> '&' !in v
  }

  /** A line feed or a carriage return. */
  predicate IsEnd(c: char)
  {
    c == LF || c == CR
  }

  /** A stretch that starts with two line ends that count as one. */
  predicate StartsWithPair(v: string)
  {
    |v| >= 2 && ((v[0] == '\r' && v[1] == '\n') || (v[0] == '\n' && v[1] == '\r'))
  }

  /** Every line end as one line feed: `\r\n`, `\n\r`, and each of the two alone. */
  function Lines(v: string): (r: string)
  {
    if v == "" then ""
    else if StartsWithPair(v) then "\n" + Lines(v[2..])
    else if v[0] == '\r' then "\n" + Lines(v[1..])
    else [v[0]] + Lines(v[1..])
  }

  lemma LinesStep(v: string, rest: string, first: string)
    requires v != "" && rest == v[if StartsWithPair(v) then 2 else 1..]
    requires first == [if IsEnd(v[0]) then LF else v[0]]
    ensures Lines(v) == first + Lines(rest)
  {
  }

  /** Outside entities, the value of a stretch depends on its line ends only. */
  lemma {:induction false} TranslatedLines(s: string, entities: bool, start: nat, p: nat, out: string)
    requires start + |out| <= p <= |s| && NoEntities(s[p..], entities)
    ensures Translated(s, entities, true, start, p, out) == out + Lines(s[p..])
    decreases |s| - p
  {
    hide Lines, CharacterRef, FindEntity;
    var v := s[p..];
    if p < |s| {
      hide NoEntities;
      var t := Step(s, entities, true, p, start + |out|);
      StepOverLines(s, entities, p, start + |out|, t);
      NoEntitiesAfter(s, entities, p, t.next);
      TranslatedLines(s, entities, start, t.next, out + t.text);
      LinesStep(v, s[t.next..], t.text);
      assert (out + t.text) + Lines(s[t.next..]) == out + (t.text + Lines(s[t.next..]));
    } else {
      assert v == "" && Lines("") == "" by { LinesNone(); }
      assert out + "" == out;
    }
  }

  lemma LinesNone()
    ensures Lines("") == ""
  {
  }

  lemma StepOverLines(s: string, entities: bool, p: nat, q: nat, t: Piece)
    requires q <= p < |s| && NoEntities(s[p..], entities) && t == Step(s, entities, true, p, q)
    ensures var v := s[p..];
      && t.text == [if IsEnd(v[0]) then LF else v[0]]
      && t.next == (p + if StartsWithPair(v) then 2 else 1) && v[if StartsWithPair(v) then 2 else 1..] == s[t.next..]
  {
    hide CharacterRef, FindEntity;
    var v := s[p..];
    assert v[0] == s[p] && (p + 1 < |s| ==> v[1] == s[p + 1]);
  }

  lemma NoEntitiesAfter(s: string, entities: bool, p: nat, q: nat)
    requires p <= q <= |s| && NoEntities(s[p..], entities)
    ensures NoEntities(s[q..], entities)
  {
    assert s[q..] == s[p..][q - p..];
  }

  /** Without translation of line ends, a stretch without entities is its own value. */
  lemma {:induction false} TranslatedNothing(s: string, entities: bool, start: nat, p: nat, out: string)
    requires start + |out| <= p <= |s| && NoEntities(s[p..], entities)
    ensures Translated(s, entities, false, start, p, out) == out + s[p..]
    decreases |s| - p
  {
    hide CharacterRef, FindEntity;
    var v := s[p..];
    if p < |s| {
      assert v[0] == s[p] && s[p] in v;
      NoEntitiesAfter(s, entities, p, p + 1);
      TranslatedNothing(s, entities, start, p + 1, out + [s[p]]);
      assert (out + [s[p]]) + s[p + 1..] == out + v;
    } else {
      assert out + v == out;
    }
  }

  /** A stretch without carriage returns is its own value. */
  lemma {:induction false} LinesClean(v: string)
    requires CR !in v
    ensures Lines(v) == v
  {
    if v != "" {
      assert forall c :: c in v[1..] ==> c in v;
      assert v[0] in v && (|v| > 1 ==> v[1] in v);
      LinesClean(v[1..]);
    }
  }

  /** Two stretches between which no line end is torn apart have their values one after the other. */
  lemma {:induction false} LinesApart(a: string, b: string)
    requires a != "" && b != "" && IsEnd(a[|a| - 1]) && IsEnd(b[0]) ==> a[|a| - 1] == b[0]
    ensures Lines(a + b) == Lines(a) + Lines(b)
    decreases |a|
  {
    hide Lines;
    if a == "" {
      LinesNone();
      assert a + b == b && "" + Lines(b) == Lines(b);
    } else {
      var n, first := if StartsWithPair(a) then 2 else 1, [if IsEnd(a[0]) then LF else a[0]];
      var c := a[n..];
      SamePair(a, b);
      assert (a + b)[n..] == c + b && (a + b)[0] == a[0];
      assert n < |a| ==> c[|c| - 1] == a[|a| - 1];
      LinesApart(c, b);
      LinesStep(a, c, first);
      LinesStep(a + b, c + b, first);
      assert first + (Lines(c) + Lines(b)) == (first + Lines(c)) + Lines(b);
    }
  }

  lemma SamePair(a: string, b: string)
    requires a != "" && (b != "" && IsEnd(a[|a| - 1]) && IsEnd(b[0]) ==> a[|a| - 1] == b[0])
    ensures StartsWithPair(a + b) <==> StartsWithPair(a)
  {
    assert (a + b)[0] == a[0] && (|a| > 1 ==> (a + b)[1] == a[1]);
    assert |a| == 1 && b != "" ==> (a + b)[1] == b[0];
  }

  /** One line end: a pair, or one that does not make a pair with what follows it. */
  predicate OneEnd(e: string, b: string)
  {
    e == "\r\n" || e == "\n\r" || (|e| == 1 && IsEnd(e[0]) && (b == "" || !IsEnd(b[0]) || b[0] == e[0]))
  }

  /** What stands before ends with another character, or with the same one. */
  predicate Whole(a: string, e: string)
    requires e != ""
  {
    a == "" || !IsEnd(a[|a| - 1]) || a[|a| - 1] == e[0]
  }

  lemma OneEndTaken(e: string, b: string)
    requires OneEnd(e, b)
    ensures e != "" && IsEnd((e + b)[0]) && (e + b)[if StartsWithPair(e + b) then 2 else 1..] == b
  {
    assert (e + b)[0] == e[0] && (e + b)[|e|..] == b;
    assert |e| == 1 && b != "" ==> (e + b)[1] == b[0];
    assert |e| == 2 ==> (e + b)[1] == e[1];
  }

  /** A line end becomes one line feed, between the values of what comes before it and after it. */
  lemma EndBecomesOne(a: string, e: string, b: string)
    requires OneEnd(e, b) && Whole(a, e)
    ensures Lines(a + (e + b)) == Lines(a) + ("\n" + Lines(b))
  {
    hide Lines, OneEnd, StartsWithPair;
    OneEndTaken(e, b);
    LinesApart(a, e + b) by { assert (e + b)[0] == e[0]; }
    LinesStep(e + b, b, "\n");
  }

  /** How many line ends in a row change between the two characters, the first being `c`. */
  function Alternating(b: string, c: char): (r: nat)
    requires IsEnd(c)
    ensures r <= |b|
  {
    if b != "" && b[0] == c then 1 + Alternating(b[1..], if c == CR then LF else CR) else 0
  }

  function Feeds(n: nat): (r: string)
    ensures |r| == n
  {
    if n == 0 then "" else "\n" + Feeds(n - 1)
  }

  /** Two line ends in a row that change make one. */
  lemma {:induction false} RunLines(b: string, c: char, r: nat, n: nat, rest: string)
    requires IsEnd(c) && r == Alternating(b, c) && (r == 2 * n || r + 1 == 2 * n) && rest == b[r..]
    ensures Lines(b) == Feeds(n) + Lines(rest)
    decreases |b|
  {
    hide Lines;
    if r == 0 {
      assert b[0..] == b && "" + Lines(b) == Lines(b);
    } else {
      var d := if c == CR then LF else CR;
      var b1 := b[1..];
      assert r > 1 ==> b1[0] == b[1] == d && b1[1..] == b[2..];
      assert r == 1 && |b| > 1 ==> b1[0] == b[1] != d;
      var k: nat := if r == 1 then 1 else 2;
      var r': nat, b' := r - k, b[k..];
      assert b'[r'..] == rest;
      if r == 1 {
        assert n == 1 && Feeds(1) == "\n" + Feeds(0) == "\n";
        NoPair(b, c);
      } else {
        RunLines(b', c, r', n - 1, rest);
        assert Feeds(n) + Lines(rest) == "\n" + (Feeds(n - 1) + Lines(rest));
      }
      LinesStep(b, b', "\n");
    }
  }

  lemma NoPair(b: string, c: char)
    requires IsEnd(c) && Alternating(b, c) == 1
    ensures !StartsWithPair(b)
  {
    if |b| > 1 { assert b[1..][0] == b[1]; }
  }

  /**
    * Writing a line end as one line feed keeps the value if and only if the line ends that follow it and change, the
    * first a carriage return, are even in number: after an odd number they pair up differently.
    */
  lemma OneFeedIff(a: string, e: string, b: string)
    requires OneEnd(e, b) && Whole(a, e) && Whole(a, "\n")
    ensures Lines(a + (e + b)) == Lines(a + ("\n" + b)) <==> Alternating(b, CR) % 2 == 0
  {
    hide Lines, OneEnd, Whole;
    EndBecomesOne(a, e, b);
    var r: nat, c := Alternating(b, CR), "\n" + b;
    var n: nat, rest := (r + 1) / 2, b[r..];
    RunLines(b, CR, r, n, rest);
    assert c[1..] == b && c[r + 1..] == rest;
    var n': nat := (r + 2) / 2;
    RunLines(c, LF, r + 1, n', rest);
    LinesApart(a, c) by { hide *; WholeEnd(a, b); }
    SameFeeds(Lines(a), Lines(b), Lines(c), Lines(rest), n, n');
  }

  lemma WholeEnd(a: string, b: string)
    requires Whole(a, "\n")
    ensures a != "" && IsEnd(a[|a| - 1]) ==> a[|a| - 1] == ("\n" + b)[0]
  {
  }

  lemma SameFeeds(x: string, y: string, z: string, rest: string, n: nat, n': nat)
    requires y == Feeds(n) + rest && z == Feeds(n') + rest
    ensures x + ("\n" + y) == x + z <==> n + 1 == n'
  {
    assert |x + ("\n" + y)| == |x| + 1 + n + |rest| && |x + z| == |x| + n' + |rest|;
    if n + 1 == n' { assert z == "\n" + y; }
  }

  /** So a line feed may not stand for every pair: a carriage return that follows would become part of it. */
  lemma FeedSwallows()
    ensures Lines("\r\n\r") == "\n\n" && Lines("\n\r") == "\n"
  {
  }

  // ---------------------------------------------------------------- unknown entities

  /** What the translation is meant to be: an ampersand that starts nothing known stands for itself. */
  function Meant(s: string, entities: bool, newlines: bool, p: nat, out: string): (r: string)
    requires p <= |s|
    ensures out <= r
    decreases |s| - p
  {
    if p == |s| then out
    else
      var t := Step(s, entities, newlines, p, p);
      Meant(s, entities, newlines, t.next, out + t.text)
  }

  /** An ampersand that starts nothing known. */
  predicate Unknown(s: string, p: nat)
  {
    At(s, p) == '&' && At(s, p + 1) != '#' && FindEntity(s, p, 0).None?
  }

  /** Wherever there is such an ampersand, there is also one where the next byte is written. */
  predicate Lucky(s: string, entities: bool, newlines: bool, p: nat, q: nat)
    requires q <= p <= |s|
    decreases |s| - p
  {
    p == |s| ||
    (var t := Step(s, entities, newlines, p, q);
     (entities && Unknown(s, p) ==> s[q] == '&') && Lucky(s, entities, newlines, t.next, q + |t.text|))
  }

  /** The step does not depend on where it writes, except for the byte that it leaves as it was. */
  lemma StepOnlyReads(s: string, entities: bool, newlines: bool, p: nat, q: nat)
    requires q <= p < |s|
    ensures var t, u := Step(s, entities, newlines, p, q), Step(s, entities, newlines, p, p);
      && t.next == u.next && |t.text| == |u.text|
      && if entities && Unknown(s, p) then t.text == [s[q]] && u.text == ['&'] else t.text == u.text
  {
    hide CharacterRef, FindEntity;
  }

  /** The translation is what it is meant to be if and only if every unknown ampersand meets another one. */
  lemma {:induction false} MeantIffLucky(s: string, entities: bool, newlines: bool, start: nat, p: nat, out: string)
    requires start + |out| <= p <= |s|
    ensures Translated(s, entities, newlines, start, p, out) == Meant(s, entities, newlines, p, out)
            <==> Lucky(s, entities, newlines, p, start + |out|)
    decreases |s| - p
  {
    hide Step, Unknown;
    if p < |s| {
      var t, u := Step(s, entities, newlines, p, start + |out|), Step(s, entities, newlines, p, p);
      StepOnlyReads(s, entities, newlines, p, start + |out|);
      if t.text == u.text {
        MeantIffLucky(s, entities, newlines, start, t.next, out + t.text);
      } else {
        var x, y := Translated(s, entities, newlines, start, t.next, out + t.text),
            Meant(s, entities, newlines, u.next, out + u.text);
        assert x[|out|] == t.text[0] && y[|out|] == u.text[0];
      }
    }
  }

  /** After a translated entity, an unknown one leaves a byte of the first one behind. */
  lemma UnknownSpoils()
    ensures Translated("&lt;&x", true, true, 0, 0, "") != Meant("&lt;&x", true, true, 0, "")
  {
    var s := "&lt;&x";
    assert !Matches(s, 0, "quot") && !Matches(s, 0, "amp") && !Matches(s, 0, "apos") && Matches(s, 0, "lt");
    assert FindEntity(s, 0, 0) == FindEntity(s, 0, 1) == FindEntity(s, 0, 2) == FindEntity(s, 0, 3) == Some(3);
    assert !Matches(s, 4, "quot") && !Matches(s, 4, "amp") && !Matches(s, 4, "apos") && !Matches(s, 4, "lt")
        && !Matches(s, 4, "gt");
    assert FindEntity(s, 4, 0) == FindEntity(s, 4, 1) == FindEntity(s, 4, 2) == FindEntity(s, 4, 3)
        == FindEntity(s, 4, 4) == FindEntity(s, 4, 5);
    assert Step(s, true, true, 0, 0) == Piece("<", 4);
    assert Unknown(s, 4) && s[1] == 'l';
    assert !Lucky(s, true, true, 4, 1);
    assert !Lucky(s, true, true, 0, 0);
    MeantIffLucky(s, true, true, 0, 0, "");
  }

  // ---------------------------------------------------------------- in place

  /** Nothing before `q` is looked at. */
  lemma {:induction false} FindCharSame(s: string, s': string, q: nat, c: char)
    requires |s| == |s'| && forall i :: q <= i < |s| ==> s[i] == s'[i]
    ensures FindChar(s, q, c) == FindChar(s', q, c)
    decreases |s| - q
  {
    if q < |s| { FindCharSame(s, s', q + 1, c); }
  }

  lemma {:induction false} NumberSame(s: string, s': string, q: nat, low: nat, stop: char, base: nat, mult: nat,
                                      ucs: nat)
    requires |s| == |s'| && low < q <= |s| && (forall i :: low <= i < |s| ==> s[i] == s'[i]) && s[low] == stop
    ensures Number(s, q, low, stop, base, mult, ucs) == Number(s', q, low, stop, base, mult, ucs)
  {
    if s[q - 1] != stop {
      var d := Digit(s[q - 1], base);
      if d.Some? { NumberSame(s, s', q - 1, low, stop, base, mult * base % U32, (ucs + mult * d.value % U32) % U64); }
    }
  }

  lemma CharacterRefSame(s: string, s': string, p: nat)
    requires |s| == |s'| && (forall i :: p <= i < |s| ==> s[i] == s'[i]) && p + 1 < |s| && s[p + 1] == '#'
    ensures CharacterRef(s, p) == CharacterRef(s', p)
  {
    hide Utf8, Number;
    FindCharSame(s, s', p + 3, ';');
    FindCharSame(s, s', p + 2, ';');
    var a, b := FindChar(s, p + 3, ';'), FindChar(s, p + 2, ';');
    if a.Some? && s[p + 2] == 'x' { NumberSame(s, s', a.value, p + 2, 'x', 16, 1, 0); }
    if b.Some? { NumberSame(s, s', b.value, p + 1, '#', 10, 1, 0); }
  }

  lemma {:induction false} FindEntitySame(s: string, s': string, p: nat, i: nat)
    requires |s| == |s'| && forall j :: p <= j < |s| ==> s[j] == s'[j]
    ensures FindEntity(s, p, i) == FindEntity(s', p, i)
    decreases |ENTITIES| - i
  {
    if i < |ENTITIES| {
      var n := |ENTITIES[i].pattern|;
      if p + n + 1 < |s| { assert s[p + 1..p + 1 + n] == s'[p + 1..p + 1 + n]; }
      FindEntitySame(s, s', p, i + 1);
    }
  }

  lemma StepSame(s: string, s': string, entities: bool, newlines: bool, p: nat, q: nat)
    requires |s| == |s'| && q <= p < |s| && forall i :: q <= i < |s| ==> s[i] == s'[i]
    ensures Step(s, entities, newlines, p, q) == Step(s', entities, newlines, p, q)
  {
    hide CharacterRef, FindEntity;
    if At(s, p + 1) == '#' { CharacterRefSame(s, s', p); }
    FindEntitySame(s, s', p, 0);
  }

  /** A stretch of the buffer, with what has to be done before it is read. */
  class StrPair {
    var start: nat
    var end: nat
    var entities: bool
    var newlines: bool
    var flush: bool

    constructor (start: nat, end: nat, entities: bool, newlines: bool)
      ensures this.start == start && this.end == end && this.entities == entities && this.newlines == newlines && flush
    {
      this.start, this.end, this.entities, this.newlines, flush := start, end, entities, newlines, true;
    }

    /** `GetStr`: the value is in the buffer from `start` on, up to a zero; the rest of the buffer is as it was. */
    method GetStr(buf: array<char>)
      requires start <= end < buf.Length
      modifies this`entities, this`newlines, this`flush, buf
      ensures !flush && !entities && !newlines
      ensures forall i :: 0 <= i < buf.Length && (i < start || i > end || !old(flush)) ==> buf[i] == old(buf[i])
      ensures old(flush) ==> var v := Translated(old(buf[..end]), old(entities), old(newlines), start, start, "");
        start + |v| <= end && buf[start..start + |v|] == v && buf[start + |v|] == NUL
    {
      if flush {
        ghost var s := buf[..end];
        buf[end] := NUL;
        flush := false;
        if entities || newlines {
          Translate(buf, s);
        } else {
          TranslatedNothing(s, false, start, start, "");
        }
      }
      entities, newlines := false, false;
    }

    /** The loop: the write index never passes the read index. */
    method Translate(buf: array<char>, ghost s: string)
      requires start <= end < buf.Length && buf[end] == NUL && buf[..end] == s
      modifies buf
      ensures forall i :: 0 <= i < buf.Length && (i < start || i > end) ==> buf[i] == old(buf[i])
      ensures var v := Translated(s, entities, newlines, start, start, "");
        start + |v| <= end && buf[start..start + |v|] == v && buf[start + |v|] == NUL
    {
      hide Step, Translated;
      var p: nat, q: nat := start, start;
      ghost var out := "";
      while p < end
        invariant start <= q <= p <= end && out == buf[start..q] && buf[end] == NUL
        invariant forall i :: 0 <= i < buf.Length && (i < start || i >= q) ==> buf[i] == old(buf[i])
        invariant Translated(s, entities, newlines, start, start, "")
                  == Translated(s, entities, newlines, start, p, out)
        decreases end - p
      {
        ghost var t := Step(s, entities, newlines, p, q);
        StepSame(s, buf[..end], entities, newlines, p, q);
        TranslatedStep(s, entities, newlines, start, p, out, t);
        p, q := OneStep(buf, p, q);
        out := out + t.text;
      }
      TranslatedEnd(s, entities, newlines, start, out);
      buf[q] := NUL;
    }

    /** One step of the loop. */
    method OneStep(buf: array<char>, p: nat, q: nat) returns (p': nat, q': nat)
      requires q <= p < end < buf.Length && buf[end] == NUL
      modifies buf
      ensures var t := Step(old(buf[..end]), entities, newlines, p, q);
        && p' == t.next && q' == q + |t.text| && q' <= p' <= end && buf[q..q'] == t.text
        && forall i :: 0 <= i < buf.Length && (i < q || i >= q') ==> buf[i] == old(buf[i])
    {
      ghost var s := buf[..end];
      if newlines && buf[p] == CR {
        p' := if buf[p + 1] == LF then p + 2 else p + 1;
        buf[q], q' := LF, q + 1;
      } else if newlines && buf[p] == LF {
        p' := if buf[p + 1] == CR then p + 2 else p + 1;
        buf[q], q' := LF, q + 1;
      } else if entities && buf[p] == '&' {
        p', q' := Ampersand(buf, p, q);
      } else {
        buf[q], p', q' := buf[p], p + 1, q + 1;
      }
    }

    method Ampersand(buf: array<char>, p: nat, q: nat) returns (p': nat, q': nat)
      requires q <= p < end < buf.Length && buf[end] == NUL && buf[p] == '&' && entities
      modifies buf
      ensures var t := Step(old(buf[..end]), entities, newlines, p, q);
        && p' == t.next && q' == q + |t.text| && q' <= p' <= end && buf[q..q'] == t.text
        && forall i :: 0 <= i < buf.Length && (i < q || i >= q') ==> buf[i] == old(buf[i])
    {
      hide CharacterRef, FindEntity;
      ghost var s := buf[..end];
      if buf[p + 1] == '#' {
        var r := CharacterRef(buf[..end], p);
        if r.None? {
          buf[q], p', q' := buf[p], p + 1, q + 1;
        } else {
          p' := r.value.next;
          q' := CopyIn(buf, q, r.value.text);
        }
      } else {
        var i := FindEntity(buf[..end], p, 0);
        if i.Some? {
          p' := p + |ENTITIES[i.value].pattern| + 2;
          buf[q], q' := ENTITIES[i.value].value, q + 1;
        } else {
          p', q' := p + 1, q + 1;
        }
      }
    }
  }

  method CopyIn(buf: array<char>, q: nat, data: string) returns (q': nat)
    requires q + |data| <= buf.Length
    modifies buf
    ensures q' == q + |data| && buf[q..q'] == data
    ensures forall i :: 0 <= i < buf.Length && (i < q || i >= q') ==> buf[i] == old(buf[i])
  {
    forall i | 0 <= i < |data| { buf[q + i] := data[i]; }
    q' := q + |data|;
  }

  lemma TranslatedStep(s: string, entities: bool, newlines: bool, start: nat, p: nat, out: string, t: Piece)
    requires start + |out| <= p < |s| && t == Step(s, entities, newlines, p, start + |out|)
    ensures Translated(s, entities, newlines, start, p, out)
            == Translated(s, entities, newlines, start, t.next, out + t.text)
  {
  }

  lemma TranslatedEnd(s: string, entities: bool, newlines: bool, start: nat, out: string)
    requires start + |out| <= |s|
    ensures Translated(s, entities, newlines, start, |s|, out) == out
  {
  }
}

/**
  * What printing and parsing of dep/tinyxml2 have in common: which strings and names can be printed, and that they
  * come back as they were.
  */
module XmlValues {
  import opened XmlStrings
  import opened XmlParser
  import opened XmlPrinter

  // ---------------------------------------------------------------- text in its place

  lemma StartsSplit(s: string, p: nat, a: string, b: string)
    ensures Starts(s, p, a + b) <==> Starts(s, p, a) && Starts(s, p + |a|, b)
  {
    if Starts(s, p, a + b) {
      assert s[p..p + |a|] == s[p..p + |a + b|][..|a|] == a;
      assert s[p + |a|..p + |a| + |b|] == s[p..p + |a + b|][|a|..] == b;
    }
  }

  lemma StartsAt(s: string, p: nat, a: string, i: nat)
    requires Starts(s, p, a) && i < |a|
    ensures At(s, p + i) == a[i]
  {
    assert s[p..p + |a|][i] == a[i];
  }

  // ---------------------------------------------------------------- strings that survive

  /** Neither a zero nor a carriage return. */
  predicate Clean(v: string)
  {
    forall i :: 0 <= i < |v| ==> v[i] != NUL && v[i] != CR
  }

  /** The characters of an escaped string. */
  lemma {:induction false} EscapedChars(v: string, restricted: bool, i: nat)
    requires Clean(v) && i < |Escaped(v, restricted)|
    ensures var c := Escaped(v, restricted)[i];
      c != NUL && c != CR && c != '<' && (!restricted ==> c != '\"')
  {
    hide EscapedChar;
    var n := |EscapedChar(v[0], restricted)|;
    OneEscaped(v[0], restricted);
    if i >= n { EscapedChars(v[1..], restricted, i - n); }
  }

  lemma OneEscaped(c: char, restricted: bool)
    ensures |EscapedChar(c, restricted)| >= 1
    ensures c != NUL && c != CR ==> forall i :: 0 <= i < |EscapedChar(c, restricted)| ==>
      var d := EscapedChar(c, restricted)[i]; d != NUL && d != CR && d != '<' && (!restricted ==> d != '\"')
  {
    var k := EntityOf(c, 0);
    if Flagged(c, restricted) { FlaggedHasEntity(c, restricted); }
  }

  /** The entity that was printed is the one that is found. */
  lemma EntityIsFound(s: string, p: nat, c: char, restricted: bool)
    requires Flagged(c, restricted) && Starts(s, p, EscapedChar(c, restricted))
    ensures At(s, p) == '&' && At(s, p + 1) != '#'
    ensures var i := FindEntity(s, p, 0);
      i.Some? && ENTITIES[i.value].value == c && |EscapedChar(c, restricted)| == |ENTITIES[i.value].pattern| + 2
  {
    hide EntityOf, EscapedChar, FindEntity;
    FlaggedHasEntity(c, restricted);
    var k := EntityOf(c, 0).value;
    PatternIs(k);
    EntityAt(s, p, ENTITIES[k].pattern);
    FoundFirst(s, p, k, 0);
  }

  lemma PatternIs(k: nat)
    requires k < |ENTITIES|
    ensures |ENTITIES[k].pattern| >= 2 && ENTITIES[k].pattern[0] != '#'
  {
  }

  lemma EntityAt(s: string, p: nat, pattern: string)
    requires Starts(s, p, "&" + pattern + ";") && |pattern| >= 1
    ensures At(s, p) == '&' && At(s, p + 1) == pattern[0] && Matches(s, p, pattern)
  {
    StartsSplit(s, p, "&" + pattern, ";");
    StartsSplit(s, p, "&", pattern);
    StartsAt(s, p + 1, pattern, 0);
  }

  /** No two entities are at the same place. */
  lemma {:induction false} FoundFirst(s: string, p: nat, k: nat, i: nat)
    requires i <= k < |ENTITIES| && Matches(s, p, ENTITIES[k].pattern)
    ensures FindEntity(s, p, i) == Some(k)
    decreases k - i
  {
    if i < k {
      if Matches(s, p, ENTITIES[i].pattern) { OnlyOneMatches(s, p, i, k); }
      FoundFirst(s, p, k, i + 1);
    }
  }

  lemma OnlyOneMatches(s: string, p: nat, i: nat, k: nat)
    requires i < |ENTITIES| && k < |ENTITIES| && Matches(s, p, ENTITIES[i].pattern)
    requires Matches(s, p, ENTITIES[k].pattern)
    ensures i == k
  {
    var a, b := ENTITIES[i].pattern, ENTITIES[k].pattern;
    assert s[p + 1..p + 1 + |a|][0] == a[0] && s[p + 1..p + 1 + |b|][0] == b[0];
    assert s[p + 1..p + 1 + |a|][1] == a[1] && s[p + 1..p + 1 + |b|][1] == b[1];
  }

  /** One printed character is read back as itself. */
  lemma StepBack(s: string, p: nat, q: nat, c: char, restricted: bool)
    requires q <= p < |s| && c != NUL && c != CR && At(s, p + |EscapedChar(c, restricted)|) != CR
    requires Starts(s, p, EscapedChar(c, restricted))
    ensures Step(s, true, true, p, q) == Piece([c], p + |EscapedChar(c, restricted)|)
  {
    hide EscapedChar, EntityOf, FindEntity, CharacterRef;
    FlaggedHasEntity(c, restricted);
    if Flagged(c, restricted) {
      EntityIsFound(s, p, c, restricted);
    } else {
      StartsAt(s, p, [c], 0);
    }
  }

  /** The whole printed string is read back. */
  lemma {:induction false} TranslatedBack(s: string, start: nat, p: nat, out: string, v: string, restricted: bool)
    requires Clean(v) && start + |out| <= p <= |s| && s[p..] == Escaped(v, restricted)
    ensures Translated(s, true, true, start, p, out) == out + v
    decreases |v|
  {
    hide EscapedChar, Step;
    if v == "" {
      assert p == |s| && out + "" == out;
    } else {
      var e, rest := EscapedChar(v[0], restricted), Escaped(v[1..], restricted);
      OneEscaped(v[0], restricted);
      assert s[p..p + |e|] == s[p..][..|e|] == e;
      assert s[p + |e|..] == s[p..][|e|..] == rest;
      if |rest| > 0 {
        EscapedChars(v[1..], restricted, 0);
        assert s[p + |e|] == s[p + |e|..][0];
      }
      StepBack(s, p, start + |out|, v[0], restricted);
      TranslatedBack(s, start, p + |e|, out + [v[0]], v[1..], restricted);
      assert (out + [v[0]]) + v[1..] == out + v;
    }
  }

  /** The value of a stretch of the text. */
  function Meaning(s: string, v: Pair): string
    requires v.start <= v.end <= |s|
  {
    Translated(s[..v.end], v.entities, v.newlines, v.start, v.start, "")
  }

  /** Outside entities, the value is the text with its line ends as single line feeds, or the text as it is. */
  lemma MeaningOfPlain(s: string, v: Pair)
    requires v.start <= v.end <= |s| && NoEntities(s[v.start..v.end], v.entities)
    ensures Meaning(s, v) == if v.newlines then Lines(s[v.start..v.end]) else s[v.start..v.end]
  {
    var t := s[..v.end];
    assert t[v.start..] == s[v.start..v.end];
    if v.newlines {
      TranslatedLines(t, v.entities, v.start, v.start, "");
    } else {
      TranslatedNothing(t, v.entities, v.start, v.start, "");
    }
  }

  // ---------------------------------------------------------------- reading them back

  /** The first place where the end tag is. */
  lemma {:induction false} FindEndAt(s: string, p: nat, q: nat, tag: string)
    requires p <= q <= |s| && Starts(s, q, tag) && At(s, q) != NUL && forall i :: p <= i < q ==>
             s[i] != NUL && !Starts(s, i, tag)
    ensures FindEnd(s, p, tag) == Some(q)
    decreases q - p
  {
    if p < q { FindEndAt(s, p + 1, q, tag); }
  }

  /** An escaped string up to its end tag, which starts with a character that it does not have. */
  lemma EscapedReadBack(s: string, p: nat, q: nat, v: string, restricted: bool, tag: string)
    requires Clean(v) && Starts(s, p, Escaped(v, restricted)) && q == p + |Escaped(v, restricted)| && Starts(s, q, tag)
    requires tag == if restricted then "<" else "\""
    ensures ParseText(s, p, tag, true, true) == Some(Read(Pair(p, q, true, true), q + 1))
    ensures Meaning(s, Pair(p, q, true, true)) == v
  {
    hide Escaped, Translated;
    var e := Escaped(v, restricted);
    StartsAt(s, q, tag, 0);
    forall i | p <= i < q ensures s[i] != NUL && !Starts(s, i, tag) {
      EscapedChars(v, restricted, i - p);
      StartsAt(s, p, e, i - p);
    }
    FindEndAt(s, p, q, tag);
    assert s[..q][p..] == e;
    TranslatedBack(s[..q], p, p, "", v, restricted);
  }

  /** The end tag is nowhere in the string, nor across its end. */
  predicate Free(v: string, tag: string)
  {
    forall i :: 0 <= i < |v| ==> !Starts(v + tag, i, tag)
  }

  /** A string as it is, up to its end tag. */
  lemma PlainReadBack(s: string, p: nat, q: nat, v: string, tag: string)
    requires Clean(v) && Free(v, tag) && Starts(s, p, v + tag) && q == p + |v| && tag != "" && tag[0] != NUL
    ensures ParseText(s, p, tag, false, true) == Some(Read(Pair(p, q, false, true), q + |tag|))
    ensures Meaning(s, Pair(p, q, false, true)) == v
  {
    hide Translated;
    StartsSplit(s, p, v, tag);
    StartsAt(s, q, tag, 0);
    forall i | p <= i < q ensures s[i] != NUL && !Starts(s, i, tag) {
      StartsAt(s, p, v, i - p);
      if Starts(s, i, tag) { Crossing(s, p, v, tag, i); }
    }
    FindEndAt(s, p, q, tag);
    assert s[..q][p..] == v;
    TranslatedLines(s[..q], false, p, p, "");
    LinesClean(v);
  }

  lemma Crossing(s: string, p: nat, v: string, tag: string, i: nat)
    requires Starts(s, p, v + tag) && p <= i < p + |v| && Starts(s, i, tag)
    ensures Starts(v + tag, i - p, tag)
  {
    var w := v + tag;
    forall k | 0 <= k < |tag| ensures w[i - p + k] == tag[k] {
      StartsAt(s, p, w, i - p + k);
      StartsAt(s, i, tag, k);
    }
  }

  /** It is enough that the tag is nowhere in the string itself. */
  lemma FreeOfTag(v: string, tag: string)
    requires tag == "-->" || tag == "]]>" || tag == "?>" || tag == ">"
    requires forall i :: 0 <= i < |v| ==> !Starts(v, i, tag)
    ensures Free(v, tag)
  {
    forall i | 0 <= i < |v| ensures !Starts(v + tag, i, tag) {
      if Starts(v + tag, i, tag) {
        if i + |tag| <= |v| {
          assert (v + tag)[i..i + |tag|] == v[i..i + |tag|];
          assert Starts(v, i, tag);
        } else {
          var k := |v| - i;
          StartsAt(v + tag, i, tag, k);
          StartsAt(v + tag, i, tag, |tag| - 1);
        }
      }
    }
  }

  // ---------------------------------------------------------------- names

  predicate ValidName(name: string)
  {
    name != "" && IsNameStartChar(name[0]) && forall i :: 0 <= i < |name| ==> IsNameChar(name[i])
  }

  lemma {:induction false} NameEndAt(s: string, p: nat, q: nat)
    requires p <= q <= |s| && !IsNameChar(At(s, q)) && forall i :: p <= i < q ==> IsNameChar(s[i])
    ensures NameEnd(s, p) == q
    decreases q - p
  {
    if p < q { NameEndAt(s, p + 1, q); }
  }

  lemma NameReadBack(s: string, p: nat, q: nat, name: string)
    requires ValidName(name) && Starts(s, p, name) && q == p + |name| && !IsNameChar(At(s, q))
    ensures ParseName(s, p) == Some(Read(Pair(p, q, false, false), q)) && Slice(s, Pair(p, q, false, false)) == name
    ensures Meaning(s, Pair(p, q, false, false)) == name
  {
    StartsAt(s, p, name, 0);
    forall i | p <= i < q ensures IsNameChar(s[i]) { StartsAt(s, p, name, i - p); }
    NameEndAt(s, p + 1, q);
    TranslatedNothing(s[..q], false, p, p, "");
  }
}

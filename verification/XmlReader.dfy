/**
  * The parser of dep/tinyxml2/tinyxml2.cpp at work on its buffer. While it parses, it already reads some names, and
  * reading a name puts a zero behind it; after parsing, values are read in any order, each translated in place.
  */
module XmlReader {
  import opened XmlStrings
  import opened XmlParser
  import opened XmlValues

  // ---------------------------------------------------------------- the values in the order of the text

  function AttrPairs(attrs: seq<Attr>): seq<Pair>
  {
    if attrs == [] then [] else AttrPairs(attrs[..|attrs| - 1]) + [attrs[|attrs| - 1].name, attrs[|attrs| - 1].value]
  }

  function PairsOf(node: Node): seq<Pair>
  {
    if node.Element? then [node.name] + AttrPairs(node.attrs) + PairsAll(node.children) else [node.value]
  }

  function PairsAll(nodes: seq<Node>): seq<Pair>
  {
    if nodes == [] then [] else PairsAll(nodes[..|nodes| - 1]) + PairsOf(nodes[|nodes| - 1])
  }

  /** Each value lies within the bounds, and ends before the next one starts; the byte behind it belongs to it. */
  ghost predicate InOrder(ps: seq<Pair>, lo: nat, hi: nat)
  {
    && lo <= hi && (forall i :: 0 <= i < |ps| ==> lo <= ps[i].start <= ps[i].end < hi)
    && forall i, j :: 0 <= i < j < |ps| ==> ps[i].end < ps[j].start
  }

  lemma OrderJoin(a: seq<Pair>, b: seq<Pair>, lo: nat, mid: nat, mid': nat, hi: nat)
    requires InOrder(a, lo, mid) && InOrder(b, mid', hi) && mid <= mid'
    ensures InOrder(a + b, lo, hi)
  {
  }

  lemma OrderWiden(a: seq<Pair>, lo: nat, hi: nat, lo': nat, hi': nat)
    requires InOrder(a, lo, hi) && lo' <= lo && hi <= hi'
    ensures InOrder(a, lo', hi')
  {
  }

  /** Where the values of a node at `p` start: behind the bracket, if there is one. */
  function From(s: string, p: nat): nat
  {
    if At(s, p) == '<' then p + 1 else p
  }

  lemma AttrPairsNext(attrs: seq<Attr>, a: Attr)
    ensures AttrPairs(attrs + [a]) == AttrPairs(attrs) + [a.name, a.value]
  {
    assert (attrs + [a])[..|attrs|] == attrs;
  }

  lemma PairsNext(nodes: seq<Node>, node: Node)
    ensures PairsAll(nodes + [node]) == PairsAll(nodes) + PairsOf(node)
  {
    assert (nodes + [node])[..|nodes|] == nodes;
  }

  /** An attribute never starts right behind a name. */
  lemma {:induction false} AttrsInOrder(s: string, p: nat, attrs: seq<Attr>, lo: nat)
    requires p <= |s| && InOrder(AttrPairs(attrs), lo, p)
    ensures var r := ParseAttributes(s, p, attrs); r.ReadAttrs? ==> InOrder(AttrPairs(r.attrs), lo, r.next)
    decreases |s| - p
  {
    hide InOrder, ParseAttribute, HasAttribute, Slice;
    var q := SkipWhiteSpace(s, p);
    if IsNameStartChar(At(s, q)) && At(s, q) != NUL {
      var a := ParseAttribute(s, q);
      if a.Some? && !HasAttribute(s, attrs, Slice(s, a.value.attr.name)) {
        AttrPairsNext(attrs, a.value.attr);
        TwoInOrder(a.value.attr.name, a.value.attr.value, q, a.value.next);
        OrderJoin(AttrPairs(attrs), [a.value.attr.name, a.value.attr.value], lo, p, q, a.value.next);
        AttrsInOrder(s, a.value.next, attrs + [a.value.attr], lo);
      }
    } else {
      OrderWiden(AttrPairs(attrs), lo, p, lo, q);
      OrderWiden(AttrPairs(attrs), lo, p, lo, q + 1);
      OrderWiden(AttrPairs(attrs), lo, p, lo, q + 2);
    }
  }

  lemma TwoInOrder(v: Pair, w: Pair, lo: nat, hi: nat)
    requires lo <= v.start <= v.end < w.start <= w.end < hi
    ensures InOrder([v, w], lo, hi)
  {
  }

  lemma OneInOrder(v: Pair, lo: nat, hi: nat)
    requires lo <= v.start <= v.end < hi
    ensures InOrder([v], lo, hi)
  {
  }

  /** Behind a name there is something that cannot start another one. */
  lemma {:induction false} NameStops(s: string, p: nat)
    requires p <= |s|
    ensures !IsNameChar(At(s, NameEnd(s, p))) || At(s, NameEnd(s, p)) == NUL
    decreases |s| - p
  {
    if At(s, p) != NUL && IsNameChar(At(s, p)) { NameStops(s, p + 1); }
  }

  /** The attributes of an element, behind its name. */
  lemma TagInOrder(s: string, name: Pair)
    requires name.start <= name.end <= |s| && (!IsNameChar(At(s, name.end)) || At(s, name.end) == NUL)
    ensures var r := ParseAttributes(s, name.end, []); r.ReadAttrs? ==>
            InOrder([name] + AttrPairs(r.attrs), name.start, r.next)
  {
    hide InOrder, ParseAttributes, SkipWhiteSpace, IsNameChar;
    var r := ParseAttributes(s, name.end, []);
    if r.ReadAttrs? {
      OneInOrder(name, name.start, name.end + 1);
      if SkipWhiteSpace(s, name.end) > name.end {
        NothingInOrder(name.end + 1);
        AttrsLater(s, name.end);
        AttrsInOrder(s, name.end + 1, [], name.end + 1);
        OrderJoin([name], AttrPairs(r.attrs), name.start, name.end + 1, name.end + 1, r.next);
      } else {
        NoAttrs(s, name.end);
        assert [name] + AttrPairs([]) == [name];
        OrderWiden([name], name.start, name.end + 1, name.start, r.next);
      }
    }
  }

  lemma AttrsLater(s: string, p: nat)
    requires p <= |s| && SkipWhiteSpace(s, p) > p
    ensures p < |s| && ParseAttributes(s, p, []) == ParseAttributes(s, p + 1, [])
  {
    hide ParseAttribute, HasAttribute;
    SkipOne(s, p);
  }

  lemma NoAttrs(s: string, p: nat)
    requires p <= |s| && SkipWhiteSpace(s, p) == p && (!IsNameChar(At(s, p)) || At(s, p) == NUL)
    ensures var r := ParseAttributes(s, p, []); r.ReadAttrs? ==> r.attrs == [] && r.next > p
  {
    hide ParseAttribute, HasAttribute;
    NotAName(s, p);
  }

  lemma NotAName(s: string, p: nat)
    requires !IsNameChar(At(s, p)) || At(s, p) == NUL
    ensures At(s, p) == NUL || !IsNameStartChar(At(s, p))
  {
  }

  lemma SkipOne(s: string, p: nat)
    requires p <= |s| && SkipWhiteSpace(s, p) > p
    ensures p < |s| && SkipWhiteSpace(s, p + 1) == SkipWhiteSpace(s, p)
  {
  }

  lemma NothingInOrder(lo: nat)
    ensures InOrder([], lo, lo) && AttrPairs([]) == [] && PairsAll([]) == []
  {
  }

  lemma {:induction false} ElementInOrder(s: string, p: nat, depth: nat)
    requires p <= |s| && 1 <= depth < MAX_DEPTH
    ensures var r := ParseElement(s, p, depth);
      && (r.Parsed? ==> InOrder(PairsOf(r.node), p, r.next))
      && (r.EndTag? ==> p <= r.name.start <= r.name.end < r.next)
    decreases |s| - p, 0
  {
    hide InOrder, ParseName, ParseAttributes, ParseNodes, Slice;
    var q := SkipWhiteSpace(s, p);
    var closing := At(s, q) == '/';
    var n := ParseName(s, if closing then q + 1 else q);
    if n.Some? {
      var name := n.value.value;
      NameStopsThere(s, name.start);
      var a := ParseAttributes(s, name.end, []);
      if a.ReadAttrs? {
        TagInOrder(s, name);
        OrderWiden([name] + AttrPairs(a.attrs), name.start, a.next, p, a.next);
        if a.closed || closing {
          assert [name] + AttrPairs(a.attrs) + [] == [name] + AttrPairs(a.attrs);
        } else if At(s, a.next) != NUL && depth + 1 < MAX_DEPTH {
          NothingInOrder(a.next);
          OrderWiden([], a.next, a.next, a.next, From(s, a.next));
          NodesInOrder(s, a.next, depth + 1, [], a.next);
          var r := ParseDeep(s, a.next, depth + 1);
          if r.Closed? {
            OrderJoin([name] + AttrPairs(a.attrs), PairsAll(r.nodes), p, a.next, a.next, r.name.start);
            OrderWiden([name] + AttrPairs(a.attrs) + PairsAll(r.nodes), p, r.name.start, p, r.next);
          }
        }
      }
    }
  }

  lemma NameStopsThere(s: string, p: nat)
    requires p <= |s|
    ensures var n := ParseName(s, p); n.Some? ==> !IsNameChar(At(s, n.value.next)) || At(s, n.value.next) == NUL
  {
    if p < |s| { NameStops(s, p + 1); }
  }

  lemma {:induction false} OneNodeInOrder(s: string, p: nat, depth: nat)
    requires p <= |s| && 1 <= depth < MAX_DEPTH && Identify(s, p).kind != NONE
    ensures var r := ParseOne(s, p, depth);
      && (r.Parsed? ==> InOrder(PairsOf(r.node), From(s, p), From(s, r.next)))
      && (r.EndTag? ==> From(s, p) <= r.name.start <= r.name.end < r.next)
    decreases |s| - p, 0
  {
    hide InOrder, ParseElement, ParseText;
    var id, r := Identify(s, p), ParseOne(s, p, depth);
    BehindBracket(s, p);
    if id.kind == ELEMENT {
      ElementInOrder(s, id.next, depth);
      if r.Parsed? { OrderWiden(PairsOf(r.node), id.next, r.next, From(s, p), From(s, r.next)); }
    } else if r.Parsed? {
      OneInOrder(r.node.value, From(s, p), From(s, r.next));
    }
  }

  lemma BehindBracket(s: string, p: nat)
    requires p <= |s|
    ensures var id := Identify(s, p);
      && (id.kind != NONE && id.kind != TEXT ==> id.next >= From(s, p))
      && (id.kind == TEXT ==> From(s, p) == p)
  {
    var q := SkipWhiteSpace(s, p);
    if q == p && At(s, p) == '<' { assert s[p..p + 1] == "<"; }
  }

  lemma {:induction false} NodesInOrder(s: string, p: nat, depth: nat, done: seq<Node>, lo: nat)
    requires p <= |s| && 1 <= depth < MAX_DEPTH && InOrder(PairsAll(done), lo, From(s, p))
    ensures var r := ParseNodes(s, p, depth, done);
      && (r.Closed? ==> InOrder(PairsAll(r.nodes), lo, r.name.start) && r.name.start <= r.name.end < r.next)
      && (r.Ended? ==> InOrder(PairsAll(r.nodes), lo, |s| + 1))
    decreases |s| - p, 1
  {
    hide InOrder, ParseOne, WellLocated, Identify;
    if At(s, p) == NUL || Identify(s, p).kind == NONE {
      OrderWiden(PairsAll(done), lo, From(s, p), lo, |s| + 1);
    } else {
      var r := ParseOne(s, p, depth);
      OneNodeInOrder(s, p, depth);
      if r.EndTag? {
        OrderWiden(PairsAll(done), lo, From(s, p), lo, r.name.start);
      } else if r.Parsed? && WellLocated(r.node, depth, done) {
        PairsNext(done, r.node);
        OrderJoin(PairsAll(done), PairsOf(r.node), lo, From(s, p), From(s, p), From(s, r.next));
        NodesInOrder(s, r.next, depth, done + [r.node], lo);
      }
    }
  }

  // ---------------------------------------------------------------- the buffer

  /** From `p` on, the buffer is still the text, with a zero behind it. */
  ghost predicate Unread(b: string, s: string, p: nat)
  {
    |b| == |s| + 1 && forall i :: p <= i <= |s| ==> b[i] == At(s, i)
  }

  /** The bytes of the value are those of the text. */
  ghost predicate Intact(b: string, s: string, v: Pair)
  {
    v.end <= |s| < |b| && forall i :: v.start <= i < v.end ==> b[i] == s[i]
  }

  ghost predicate AllIntact(b: string, s: string, ps: seq<Pair>)
  {
    forall i :: 0 <= i < |ps| ==> Intact(b, s, ps[i])
  }

  /** The part of the buffer before `p` is the same. */
  ghost predicate SameBefore(b: string, b': string, p: nat)
  {
    |b| == |b'| && forall i :: 0 <= i < p && i < |b| ==> b'[i] == b[i]
  }

  lemma SameLonger(b0: string, b: string, b': string, p: nat, q: nat)
    requires SameBefore(b0, b, p) && SameBefore(b, b', q) && p <= q
    ensures SameBefore(b0, b', p)
  {
  }

  method SkipSpace(buf: array<char>, p: nat, ghost s: string) returns (r: nat)
    requires p <= |s| && Unread(buf[..], s, p)
    ensures r == SkipWhiteSpace(s, p)
  {
    r := p;
    while IsWhiteSpace(buf[r])
      invariant p <= r <= |s| && SkipWhiteSpace(s, p) == SkipWhiteSpace(s, r)
      decreases |s| - r
    {
      r := r + 1;
    }
  }

  /** `StringEqual` with the length of the pattern. */
  method Compare(buf: array<char>, p: nat, pattern: string, ghost s: string) returns (same: bool)
    requires p <= |s| && Unread(buf[..], s, p)
    ensures same == Starts(s, p, pattern)
  {
    same := p + |pattern| < buf.Length && buf[p..p + |pattern|] == pattern;
    if p + |pattern| <= |s| { assert buf[p..p + |pattern|] == s[p..p + |pattern|]; }
  }

  /** `ParseText`. */
  method ReadText(buf: array<char>, p: nat, tag: string, entities: bool, newlines: bool, ghost s: string)
      returns (r: Option<Read>)
    requires p <= |s| && tag != "" && Unread(buf[..], s, p)
    ensures r == ParseText(s, p, tag, entities, newlines)
  {
    hide Starts;
    var q := p;
    while buf[q] != NUL
      invariant p <= q <= |s| && FindEnd(s, p, tag) == FindEnd(s, q, tag)
      decreases |s| - q
    {
      var same := Compare(buf, q, tag, s);
      if same { return Some(Read(Pair(p, q, entities, newlines), q + |tag|)); }
      q := q + 1;
    }
    r := None;
  }

  /** `ParseName`. */
  method ReadName(buf: array<char>, p: nat, ghost s: string) returns (r: Option<Read>)
    requires p <= |s| && Unread(buf[..], s, p)
    ensures r == ParseName(s, p)
  {
    if buf[p] == NUL || !IsNameStartChar(buf[p]) { return None; }
    var q := p + 1;
    while buf[q] != NUL && IsNameChar(buf[q])
      invariant p < q <= |s| && NameEnd(s, p + 1) == NameEnd(s, q)
      decreases |s| - q
    {
      q := q + 1;
    }
    r := Some(Read(Pair(p, q, false, false), q));
  }

  /** `XMLAttribute::ParseDeep`. */
  method ReadAttribute(buf: array<char>, p: nat, ghost s: string) returns (r: Option<ReadAttr>)
    requires p <= |s| && Unread(buf[..], s, p)
    ensures r == ParseAttribute(s, p)
  {
    hide ParseName, ParseText, SkipWhiteSpace;
    var n := ReadName(buf, p, s);
    if n.None? || buf[n.value.next] == NUL { return None; }
    var e := SkipSpace(buf, n.value.next, s);
    if buf[e] != '=' { return None; }
    var q := SkipSpace(buf, e + 1, s);
    if buf[q] != '\"' && buf[q] != '\'' { return None; }
    var v := ReadText(buf, q + 1, [buf[q]], true, true, s);
    if v.None? { return None; }
    r := Some(ReadAttr(Attr(n.value.value, v.value.value), v.value.next));
  }

  /** `GetStr` for a name: a zero behind it. */
  method FlushName(buf: array<char>, v: Pair, p: nat, ghost s: string, ghost ps: seq<Pair>)
    requires v.end < p <= |s| && Unread(buf[..], s, p) && AllIntact(buf[..], s, ps)
    requires forall i :: 0 <= i < |ps| ==> v.end < ps[i].start || ps[i].end <= v.end
    modifies buf
    ensures Unread(buf[..], s, p) && AllIntact(buf[..], s, ps) && SameBefore(old(buf[..]), buf[..], v.end)
    ensures buf[v.end] == NUL
  {
    buf[v.end] := NUL;
  }

  /** The bytes of a name, as they are in the buffer. */
  method NameBytes(buf: array<char>, v: Pair, ghost s: string) returns (name: string)
    requires v.start <= v.end && Intact(buf[..], s, v)
    ensures name == Slice(s, v)
  {
    name := buf[v.start..v.end];
  }

  /** `FindAttribute`. */
  method FindAttribute(buf: array<char>, attrs: seq<Attr>, name: string, ghost s: string) returns (found: bool)
    requires forall i :: 0 <= i < |attrs| ==>
             attrs[i].name.start <= attrs[i].name.end && Intact(buf[..], s, attrs[i].name)
    ensures found == HasAttribute(s, attrs, name)
  {
    var i := 0;
    while i < |attrs|
      invariant i <= |attrs| && forall j :: 0 <= j < i ==> Slice(s, attrs[j].name) != name
    {
      var other := NameBytes(buf, attrs[i].name, s);
      if other == name { return true; }
      i := i + 1;
    }
    found := false;
  }

  lemma AttrIntact(b: string, s: string, attrs: seq<Attr>, lo: nat, hi: nat)
    requires AllIntact(b, s, AttrPairs(attrs)) && InOrder(AttrPairs(attrs), lo, hi)
    ensures forall i :: 0 <= i < |attrs| ==> attrs[i].name.start <= attrs[i].name.end && Intact(b, s, attrs[i].name)
  {
    hide Intact, InOrder, AttrPairs;
    forall i | 0 <= i < |attrs| ensures attrs[i].name.start <= attrs[i].name.end && Intact(b, s, attrs[i].name) {
      AttrPairAt(attrs, i);
      OneOfThem(b, s, AttrPairs(attrs), lo, hi, 2 * i);
    }
  }

  lemma OneOfThem(b: string, s: string, ps: seq<Pair>, lo: nat, hi: nat, k: nat)
    requires AllIntact(b, s, ps) && InOrder(ps, lo, hi) && k < |ps|
    ensures ps[k].start <= ps[k].end && Intact(b, s, ps[k])
  {
    hide Intact;
  }

  lemma {:induction false} AttrPairAt(attrs: seq<Attr>, i: nat)
    requires i < |attrs|
    ensures |AttrPairs(attrs)| == 2 * |attrs| && AttrPairs(attrs)[2 * i] == attrs[i].name
  {
    var k := |attrs| - 1;
    if i < k {
      AttrPairAt(attrs[..k], i);
    } else if k > 0 {
      AttrPairAt(attrs[..k], 0);
    }
  }

  lemma MoreIntact(b: string, s: string, ps: seq<Pair>, qs: seq<Pair>)
    requires AllIntact(b, s, ps) && AllIntact(b, s, qs)
    ensures AllIntact(b, s, ps + qs)
  {
    hide Intact;
  }

  /** Values ahead are still as they are in the text. */
  lemma AheadIntact(b: string, s: string, p: nat, v: Pair)
    requires Unread(b, s, p) && p <= v.start && v.end <= |s|
    ensures Intact(b, s, v)
  {
  }

  /** One attribute: its name is compared with those before it. */
  method TakeAttribute(buf: array<char>, p: nat, attrs: seq<Attr>, ghost tag: Pair, ghost lo: nat, ghost s: string)
      returns (r: Option<ReadAttr>)
    requires p <= |s| && Unread(buf[..], s, p) && AllIntact(buf[..], s, AttrPairs(attrs))
    requires InOrder(AttrPairs(attrs), lo, p)
    requires Intact(buf[..], s, tag) && tag.end <= p
    modifies buf
    ensures r == if ParseAttribute(s, p).None?
            || HasAttribute(s, attrs, Slice(s, ParseAttribute(s, p).value.attr.name)) then None
                else ParseAttribute(s, p)
    ensures SameBefore(old(buf[..]), buf[..], p)
    ensures (r.Some? ==> Unread(buf[..], s, r.value.next) && AllIntact(buf[..], s, AttrPairs(attrs + [r.value.attr])))
    ensures Intact(buf[..], s, tag)
  {
    hide ParseAttribute, HasAttribute, Slice, AttrPairs, Intact;
    r := ReadAttribute(buf, p, s);
    if r.None? { return; }
    var name, value := r.value.attr.name, r.value.attr.value;
    ghost var ps := AttrPairs(attrs) + [name, value];
    AheadIntact(buf[..], s, p, name);
    AheadIntact(buf[..], s, p, value);
    MoreIntact(buf[..], s, AttrPairs(attrs), [name, value]);
    MoreIntact(buf[..], s, ps, [tag]);
    NotInside(AttrPairs(attrs), name, value, tag, lo, p);
    FlushName(buf, name, r.value.next, s, ps + [tag]);
    AttrPairsNext(attrs, r.value.attr);
    FirstIntact(buf[..], s, ps, tag);
    NameInPairs(buf[..], s, AttrPairs(attrs), name, value);
    AttrIntact(buf[..], s, attrs, lo, p);
    var bytes := NameBytes(buf, name, s);
    var found := FindAttribute(buf, attrs, bytes, s);
    if found { r := None; }
  }

  lemma NotInside(ps: seq<Pair>, v: Pair, w: Pair, tag: Pair, lo: nat, p: nat)
    requires InOrder(ps, lo, p) && p <= v.start <= v.end < w.start && tag.end <= p
    ensures var qs := ps + [v, w] + [tag]; forall i :: 0 <= i < |qs| ==> v.end < qs[i].start || qs[i].end <= v.end
  {
  }

  lemma FirstIntact(b: string, s: string, ps: seq<Pair>, v: Pair)
    requires AllIntact(b, s, ps + [v])
    ensures AllIntact(b, s, ps) && Intact(b, s, v)
  {
    hide Intact;
    var qs := ps + [v];
    assert qs[|ps|] == v;
    forall i | 0 <= i < |ps| ensures Intact(b, s, ps[i]) { assert qs[i] == ps[i]; }
  }

  lemma NameInPairs(b: string, s: string, ps: seq<Pair>, v: Pair, w: Pair)
    requires AllIntact(b, s, ps + [v, w])
    ensures AllIntact(b, s, ps) && Intact(b, s, v)
  {
    assert ps + [v, w] == (ps + [v]) + [w];
    FirstIntact(b, s, ps + [v], w);
    FirstIntact(b, s, ps, v);
  }

  /** `ParseAttributes`. */
  method ReadAttributes(buf: array<char>, p: nat, ghost tag: Pair, ghost s: string) returns (r: ReadAttrs)
    requires p <= |s| && Unread(buf[..], s, p) && Intact(buf[..], s, tag) && tag.end <= p
    modifies buf
    ensures r == ParseAttributes(s, p, []) && SameBefore(old(buf[..]), buf[..], p) && Intact(buf[..], s, tag)
    ensures r.ReadAttrs? ==> Unread(buf[..], s, r.next) && AllIntact(buf[..], s, AttrPairs(r.attrs))
  {
    hide ParseAttribute, HasAttribute, Slice, Intact, AttrPairs, InOrder, SkipWhiteSpace;
    var q, attrs := p, [];
    NothingInOrder(p);
    while true
      invariant p <= q <= |s| && Unread(buf[..], s, q) && SameBefore(old(buf[..]), buf[..], p)
      invariant Intact(buf[..], s, tag)
      invariant AllIntact(buf[..], s, AttrPairs(attrs)) && InOrder(AttrPairs(attrs), p, q)
      invariant ParseAttributes(s, p, []) == ParseAttributes(s, q, attrs)
      decreases |s| - q
    {
      var x := SkipSpace(buf, q, s);
      if buf[x] == NUL { return BadAttrs(PARSING_ELEMENT); }
      if IsNameStartChar(buf[x]) {
        OrderWiden(AttrPairs(attrs), p, q, p, x);
        var a := TakeAttribute(buf, x, attrs, tag, p, s);
        if a.None? { return BadAttrs(PARSING_ATTRIBUTE); }
        AttrPairsNext(attrs, a.value.attr);
        TwoInOrder(a.value.attr.name, a.value.attr.value, x, a.value.next);
        OrderJoin(AttrPairs(attrs), [a.value.attr.name, a.value.attr.value], p, x, x, a.value.next);
        q, attrs := a.value.next, attrs + [a.value.attr];
      } else if buf[x] == '>' {
        return ReadAttrs(attrs, false, x + 1);
      } else if buf[x] == '/' && buf[x + 1] == '>' {
        return ReadAttrs(attrs, true, x + 2);
      } else {
        return BadAttrs(PARSING_ELEMENT);
      }
    }
  }

  // ---------------------------------------------------------------- nodes

  /** What lies before `p` is not touched by what is read from there on. */
  lemma StillIntact(b: string, b': string, s: string, ps: seq<Pair>, lo: nat, hi: nat, p: nat)
    requires AllIntact(b, s, ps) && InOrder(ps, lo, hi) && hi <= p + 1 && SameBefore(b, b', p)
    ensures AllIntact(b', s, ps)
  {
    forall i | 0 <= i < |ps| ensures Intact(b', s, ps[i]) { assert Intact(b, s, ps[i]); }
  }

  /** `Identify`. */
  method IdentifyAt(buf: array<char>, p: nat, ghost s: string) returns (id: Identified)
    requires p <= |s| && Unread(buf[..], s, p)
    ensures id == Identify(s, p)
  {
    hide Starts, SkipWhiteSpace;
    var q := SkipSpace(buf, p, s);
    if buf[q] == NUL { return Identified(NONE, q); }
    var same := Compare(buf, q, "<?", s);
    if same { return Identified(DECLARATION, q + 2); }
    same := Compare(buf, q, "<!--", s);
    if same { return Identified(COMMENT, q + 4); }
    same := Compare(buf, q, "<![CDATA[", s);
    if same { return Identified(CDATA, q + 9); }
    same := Compare(buf, q, "<!", s);
    if same { return Identified(UNKNOWN, q + 2); }
    same := Compare(buf, q, "<", s);
    if same { return Identified(ELEMENT, q + 1); }
    id := Identified(TEXT, p);
  }

  /** `ParseDeep` of text, comments, declarations and unknown things. */
  method ReadValue(buf: array<char>, p: nat, kind: Kind, ghost s: string) returns (r: OneNode)
    requires p <= |s| && Unread(buf[..], s, p)
    ensures r == if kind == TEXT then ParsePlain(s, p) else ParseValue(s, p, kind)
    ensures r.Parsed? ==> !r.node.Element? && Unread(buf[..], s, r.next) && Intact(buf[..], s, r.node.value)
  {
    hide ParseText;
    if kind == TEXT {
      var v := ReadText(buf, p, "<", true, true, s);
      if v.None? { return BadNode(PARSING_TEXT); }
      if buf[v.value.next] == NUL { return BadNode(PARSING); }
      r := Parsed(Text(v.value.value, false), v.value.next - 1);
    } else {
      var v := ReadText(buf, p, EndTagOf(kind), false, true, s);
      if v.None? { return BadNode(ErrorOf(kind)); }
      r := Parsed(NodeOf(kind, v.value.value), v.value.next);
    }
  }

  /** One node, with everything below it. */
  method ReadOne(buf: array<char>, p: nat, depth: nat, ghost s: string) returns (r: OneNode)
    requires p <= |s| && Unread(buf[..], s, p) && 1 <= depth < MAX_DEPTH && Identify(s, p).kind != NONE
    modifies buf
    ensures r == ParseOne(s, p, depth) && SameBefore(old(buf[..]), buf[..], p)
    ensures r.Parsed? ==> Unread(buf[..], s, r.next) && AllIntact(buf[..], s, PairsOf(r.node))
    ensures r.EndTag? ==> Unread(buf[..], s, r.next) && Intact(buf[..], s, r.name)
    decreases |s| - p, 0
  {
    hide ParseElement, ParsePlain, ParseValue, Intact, Identify;
    var id := IdentifyAt(buf, p, s);
    if id.kind == ELEMENT {
      r := ReadElement(buf, id.next, depth, s);
    } else {
      r := ReadValue(buf, id.next, id.kind, s);
    }
  }

  /** `XMLElement::ParseDeep`, and the comparison of the end tag. */
  method ReadElement(buf: array<char>, p: nat, depth: nat, ghost s: string) returns (r: OneNode)
    requires p <= |s| && Unread(buf[..], s, p) && 1 <= depth < MAX_DEPTH
    modifies buf
    ensures r == ParseElement(s, p, depth) && SameBefore(old(buf[..]), buf[..], p)
    ensures r.Parsed? ==> Unread(buf[..], s, r.next) && AllIntact(buf[..], s, PairsOf(r.node))
    ensures r.EndTag? ==> Unread(buf[..], s, r.next) && Intact(buf[..], s, r.name)
    decreases |s| - p, 0
  {
    hide ParseName, ParseAttributes, ParseDeep, Intact, InOrder, SkipWhiteSpace, AttrPairs, WithChildren;
    var q := SkipSpace(buf, p, s);
    var closing := buf[q] == '/';
    if closing { q := q + 1; }
    var n := ReadName(buf, q, s);
    if n.None? { return BadNode(PARSING); }
    var name := n.value.value;
    NameStopsThere(s, q);
    TagInOrder(s, name);
    AheadIntact(buf[..], s, q, name);
    var a := ReadAttributes(buf, name.end, name, s);
    if a.BadAttrs? { return BadNode(a.error); }
    TagIntact(buf[..], s, name, a.attrs);
    TagParts(buf[..], s, name, a.attrs);
    if a.closed { return Parsed(Element(name, a.attrs, []), a.next); }
    if closing { return EndTag(name, a.next); }
    if buf[a.next] == NUL { return BadNode(MISMATCHED_ELEMENT); }
    r := ReadChildren(buf, name, a.attrs, a.next, depth, s);
  }

  lemma TagIntact(b: string, s: string, name: Pair, attrs: seq<Attr>)
    requires Intact(b, s, name) && AllIntact(b, s, AttrPairs(attrs))
    ensures AllIntact(b, s, [name] + AttrPairs(attrs))
  {
    hide Intact, AttrPairs;
  }

  lemma TagParts(b: string, s: string, name: Pair, attrs: seq<Attr>)
    requires AllIntact(b, s, [name] + AttrPairs(attrs))
    ensures Intact(b, s, name) && PairsOf(Element(name, attrs, [])) == [name] + AttrPairs(attrs)
  {
    hide Intact, AttrPairs;
    assert ([name] + AttrPairs(attrs))[0] == name;
  }

  /** The nodes below an element, and its end tag. */
  method ReadChildren(buf: array<char>, name: Pair, attrs: seq<Attr>, p: nat, depth: nat, ghost s: string)
      returns (r: OneNode)
    requires name.start <= p <= |s| && Unread(buf[..], s, p) && 1 <= depth < MAX_DEPTH
    requires AllIntact(buf[..], s, [name] + AttrPairs(attrs)) && InOrder([name] + AttrPairs(attrs), name.start, p)
    modifies buf
    ensures r == WithChildren(s, name, attrs, ParseDeep(s, p, depth + 1))
    ensures SameBefore(old(buf[..]), buf[..], name.start)
    ensures r.Parsed? ==> Unread(buf[..], s, r.next) && AllIntact(buf[..], s, PairsOf(r.node))
    decreases |s| - p, 3
  {
    hide ParseDeep, Intact, InOrder, AttrPairs, PairsAll, Slice;
    ghost var ps, b := [name] + AttrPairs(attrs), buf[..];
    var c := ReadDeep(buf, p, depth + 1, s);
    StillIntact(b, buf[..], s, ps, name.start, p, p);
    if c.Failed? { return BadNode(c.error); }
    if c.Ended? { return BadNode(PARSING); }
    ghost var qs := ps + PairsAll(c.nodes);
    MoreIntact(buf[..], s, ps, PairsAll(c.nodes));
    OrderJoin(ps, PairsAll(c.nodes), name.start, p, p, c.name.start);
    var same := SameNames(buf, name, c.name, c.next, s, qs);
    if !same { return BadNode(MISMATCHED_ELEMENT); }
    r := Parsed(Element(name, attrs, c.nodes), c.next);
  }

  /** Comparing the names of the two tags; both get their zeros. */
  method SameNames(buf: array<char>, name: Pair, end: Pair, p: nat, ghost s: string, ghost ps: seq<Pair>)
      returns (same: bool)
    requires ps != [] && ps[0] == name && InOrder(ps, name.start, end.start) && end.start <= end.end < p <= |s|
    requires Unread(buf[..], s, p) && AllIntact(buf[..], s, ps) && Intact(buf[..], s, end)
    modifies buf
    ensures same == (Slice(s, end) == Slice(s, name)) && SameBefore(old(buf[..]), buf[..], name.start)
    ensures Unread(buf[..], s, p) && AllIntact(buf[..], s, ps)
  {
    hide Slice;
    ghost var qs := ps + [end];
    FlushName(buf, end, p, s, qs);
    FlushName(buf, name, p, s, qs);
    assert qs[0] == name && qs[|ps|] == end;
    forall i | 0 <= i < |ps| ensures Intact(buf[..], s, ps[i]) { assert qs[i] == ps[i]; }
    var a := NameBytes(buf, end, s);
    var b := NameBytes(buf, name, s);
    same := a == b;
  }

  /** `XMLNode::ParseDeep`. */
  method ReadDeep(buf: array<char>, p: nat, depth: nat, ghost s: string) returns (r: Nodes)
    requires p <= |s| && Unread(buf[..], s, p) && 1 <= depth <= MAX_DEPTH
    modifies buf
    ensures r == ParseDeep(s, p, depth) && SameBefore(old(buf[..]), buf[..], p)
    ensures r.Closed? ==>
            Unread(buf[..], s, r.next) && AllIntact(buf[..], s, PairsAll(r.nodes))
            && Intact(buf[..], s, r.name)
                          && InOrder(PairsAll(r.nodes), p, r.name.start) && r.name.start <= r.name.end < r.next
    ensures r.Ended? ==> AllIntact(buf[..], s, PairsAll(r.nodes)) && InOrder(PairsAll(r.nodes), p, |s| + 1)
    decreases |s| - p, 2
  {
    hide ParseNodes, ParseOne, WellLocated, Intact, InOrder, Identify, PairsOf;
    if depth == MAX_DEPTH { return Failed(DEPTH_EXCEEDED); }
    NothingInOrder(p);
    OrderWiden([], p, p, p, From(s, p));
    NodesInOrder(s, p, depth, [], p);
    var q, done: seq<Node> := p, [];
    ghost var b0 := buf[..];
    while buf[q] != NUL
      invariant p <= q <= |s| && Unread(buf[..], s, q) && SameBefore(old(buf[..]), buf[..], p)
      invariant ParseNodes(s, p, depth, []) == ParseNodes(s, q, depth, done)
      invariant AllIntact(buf[..], s, PairsAll(done)) && InOrder(PairsAll(done), p, From(s, q))
      decreases |s| - q, if At(s, q) == '<' then 0 else 1
    {
      var id := IdentifyAt(buf, q, s);
      NodesStep(s, q, depth, done);
      if id.kind == NONE { return Ended(done); }
      OneNodeInOrder(s, q, depth);
      ghost var b := buf[..];
      var one := ReadOne(buf, q, depth, s);
      SameLonger(b0, b, buf[..], p, q);
      StillIntact(b, buf[..], s, PairsAll(done), p, From(s, q), q);
      if one.BadNode? { return Failed(one.error); }
      if one.EndTag? { return Closed(done, one.name, one.next); }
      if !WellLocated(one.node, depth, done) { return Failed(PARSING_DECLARATION); }
      PairsNext(done, one.node);
      MoreIntact(buf[..], s, PairsAll(done), PairsOf(one.node));
      OrderJoin(PairsAll(done), PairsOf(one.node), p, From(s, q), From(s, q), From(s, one.next));
      q, done := one.next, done + [one.node];
    }
    NodesStep(s, q, depth, done);
    r := Ended(done);
  }

  /** One round of the parser. */
  lemma NodesStep(s: string, p: nat, depth: nat, done: seq<Node>)
    requires p <= |s| && 1 <= depth < MAX_DEPTH
    ensures At(s, p) == NUL || Identify(s, p).kind == NONE ==> ParseNodes(s, p, depth, done) == Ended(done)
    ensures At(s, p) != NUL && Identify(s, p).kind != NONE ==>
      var one := ParseOne(s, p, depth);
      && (one.BadNode? ==> ParseNodes(s, p, depth, done) == Failed(one.error))
      && (one.EndTag? ==> ParseNodes(s, p, depth, done) == Closed(done, one.name, one.next))
      && (one.Parsed? && !WellLocated(one.node, depth, done) ==>
          ParseNodes(s, p, depth, done) == Failed(PARSING_DECLARATION))
      && (one.Parsed? && WellLocated(one.node, depth, done) ==>
            ParseNodes(s, p, depth, done) == ParseNodes(s, one.next, depth, done + [one.node]))
  {
    hide ParseOne, WellLocated, Identify;
  }
}

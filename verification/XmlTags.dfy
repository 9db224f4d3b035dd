/**
  * Which texts dep/tinyxml2/tinyxml2.cpp accepts: in every tree that is parsed, end tags fit their elements, no element
  * has two attributes of the same name, values stand between equal quotes, single or double, and declarations come
  * first.
  */
module XmlTags {
  import opened XmlStrings
  import opened XmlParser
  import opened XmlValues

  // ---------------------------------------------------------------- what is proper

  predicate IsQuote(c: char)
  {
    c == '\"' || c == '\''
  }

  /** The value stands between two equal quotes, and has none of these inside. */
  ghost predicate Quoted(s: string, a: Attr)
  {
    && 1 <= a.value.start <= a.value.end < |s|
    && IsQuote(s[a.value.start - 1]) && s[a.value.end] == s[a.value.start - 1]
    && forall i :: a.value.start <= i < a.value.end ==> s[i] != s[a.value.end]
  }

  /** Values in quotes, and no name twice. */
  ghost predicate ProperAttributes(s: string, attrs: seq<Attr>)
  {
    && (forall i :: 0 <= i < |attrs| ==> Quoted(s, attrs[i]))
    && forall i, j :: 0 <= i < j < |attrs| ==> Slice(s, attrs[i].name) != Slice(s, attrs[j].name)
  }

  /** There is an end tag with this name that ends before `next`. */
  ghost predicate EndTagAt(s: string, name: Pair, next: nat)
  {
    && 1 <= name.start < name.end < next <= |s| && s[name.start - 1] == '/' && s[next - 1] == '>'
  }

  /** The start tag ends with `/>`, or an end tag with the same name follows. */
  ghost predicate ClosedProperly(s: string, name: Pair)
  {
    || (exists next: nat :: name.end <= next && Starts(s, next, "/>"))
    || (exists e: Pair, next: nat :: name.end < e.start && EndTagAt(s, e, next) && Slice(s, e) == Slice(s, name))
  }

  /** The value stands between these two tags, and goes up to the first place where the second one is. */
  ghost predicate Between(s: string, v: Pair, open: string, close: string)
  {
    && |open| <= v.start <= v.end && Starts(s, v.start - |open|, open) && Starts(s, v.end, close)
    && forall i: nat :: v.start <= i < v.end ==> !Starts(s, i, close)
  }

  ghost predicate Proper(s: string, node: Node)
  {
    match node
    case Element(name, attrs, children) =>
      && ProperAttributes(s, attrs) && ClosedProperly(s, name)
      && forall i :: 0 <= i < |children| ==> Proper(s, children[i])
    case Text(v, cdata) => if cdata then Between(s, v, "<![CDATA[", "]]>") else Between(s, v, "", "<")
    case Comment(v) => Between(s, v, "<!--", "-->")
    case Declaration(v) => Between(s, v, "<?", "?>")
    case Unknown(v) => Between(s, v, "<!", ">")
  }

  ghost predicate AllProper(s: string, nodes: seq<Node>)
  {
    forall i :: 0 <= i < |nodes| ==> Proper(s, nodes[i])
  }

  // ---------------------------------------------------------------- attributes

  /** The end of a text is the first place where its end tag is. */
  lemma {:induction false} FirstEnd(s: string, p: nat, tag: string)
    requires p <= |s| && FindEnd(s, p, tag).Some?
    ensures forall i :: p <= i < FindEnd(s, p, tag).value ==> !Starts(s, i, tag)
    decreases |s| - p
  {
    if !Starts(s, p, tag) { FirstEnd(s, p + 1, tag); }
  }

  lemma QuoteStarts(s: string, i: nat, c: char)
    ensures Starts(s, i, [c]) <==> i < |s| && s[i] == c
  {
    if i < |s| { assert s[i..i + 1] == [s[i]]; }
  }

  lemma AttributeQuoted(s: string, p: nat)
    requires p <= |s| && ParseAttribute(s, p).Some?
    ensures Quoted(s, ParseAttribute(s, p).value.attr)
  {
    hide ParseName, ParseText, SkipWhiteSpace;
    var n := ParseName(s, p);
    var e := SkipWhiteSpace(s, n.value.next);
    var q := SkipWhiteSpace(s, e + 1);
    TextQuoted(s, q + 1, At(s, q));
  }

  lemma TextQuoted(s: string, p: nat, c: char)
    requires p <= |s| && ParseText(s, p, [c], true, true).Some?
    ensures var v := ParseText(s, p, [c], true, true).value.value;
      v.end < |s| && s[v.end] == c && forall i :: p <= i < v.end ==> s[i] != c
  {
    FirstEnd(s, p, [c]);
    var end := FindEnd(s, p, [c]).value;
    QuoteStarts(s, end, c);
    forall i | p <= i < end ensures s[i] != c { QuoteStarts(s, i, c); }
  }

  lemma {:induction false} AttributesProper(s: string, p: nat, attrs: seq<Attr>)
    requires p <= |s| && ProperAttributes(s, attrs)
    ensures var r := ParseAttributes(s, p, attrs);
      r.ReadAttrs? ==>
        && p < r.next && ProperAttributes(s, r.attrs) && s[r.next - 1] == '>'
        && (r.closed ==> r.next >= p + 2 && Starts(s, r.next - 2, "/>"))
    decreases |s| - p
  {
    hide ParseAttribute, IsNameStartChar, Quoted, Slice;
    var q := SkipWhiteSpace(s, p);
    if At(s, q) != NUL && IsNameStartChar(At(s, q)) {
      var a := ParseAttribute(s, q);
      if a.Some? && !HasAttribute(s, attrs, Slice(s, a.value.attr.name)) {
        AttributeQuoted(s, q);
        OneMoreAttribute(s, attrs, a.value.attr);
        AttributesProper(s, a.value.next, attrs + [a.value.attr]);
      }
    } else if At(s, q) == '/' && At(s, q + 1) == '>' {
      assert s[q..q + 2] == "/>";
    }
  }

  lemma OneMoreAttribute(s: string, attrs: seq<Attr>, a: Attr)
    requires ProperAttributes(s, attrs) && Quoted(s, a) && !HasAttribute(s, attrs, Slice(s, a.name))
    ensures ProperAttributes(s, attrs + [a])
  {
    hide Quoted, Slice;
    var all := attrs + [a];
    forall i, j | 0 <= i < j < |all| ensures Slice(s, all[i].name) != Slice(s, all[j].name) {
      assert all[i] == attrs[i];
      if j < |attrs| { assert all[j] == attrs[j]; }
    }
  }

  // ---------------------------------------------------------------- elements

  /** What a list of nodes has to be, and the end tag behind it. */
  ghost predicate ProperNodes(s: string, p: nat, r: Nodes)
  {
    match r
    case Closed(nodes, name, next) => AllProper(s, nodes) && p < name.start && EndTagAt(s, name, next)
    case Ended(nodes) => AllProper(s, nodes)
    case Failed(_) => true
  }

  ghost predicate ProperOne(s: string, p: nat, r: OneNode)
  {
    match r
    case Parsed(node, next) => Proper(s, node)
    case EndTag(name, next) => p < name.start && EndTagAt(s, name, next)
    case BadNode(_) => true
  }

  lemma {:induction false} ElementProper(s: string, p: nat, depth: nat)
    requires p <= |s| && 1 <= depth < MAX_DEPTH
    ensures ProperOne(s, p, ParseElement(s, p, depth))
    decreases |s| - p, 0
  {
    hide Proper, ParseAttributes, Slice, ClosedProperly, ProperAttributes;
    var q := SkipWhiteSpace(s, p);
    var closing := At(s, q) == '/';
    var n := ParseName(s, if closing then q + 1 else q);
    if n.Some? {
      var a := ParseAttributes(s, n.value.next, []);
      NoAttributes(s);
      AttributesProper(s, n.value.next, []);
      if a.ReadAttrs? && a.closed {
        ClosedAtOnce(s, n.value.value, a.next - 2);
        LeafProper(s, n.value.value, a.attrs);
      } else if a.ReadAttrs? && !closing && At(s, a.next) != NUL {
        DeepProper(s, a.next, depth + 1);
        ChildrenProper(s, n.value.value, a.attrs, a.next, ParseDeep(s, a.next, depth + 1));
      }
    }
  }

  lemma NoAttributes(s: string)
    ensures ProperAttributes(s, [])
  {
  }

  lemma ClosedAtOnce(s: string, name: Pair, next: nat)
    requires name.end <= next && Starts(s, next, "/>")
    ensures ClosedProperly(s, name)
  {
  }

  lemma LeafProper(s: string, name: Pair, attrs: seq<Attr>)
    requires ProperAttributes(s, attrs) && ClosedProperly(s, name)
    ensures Proper(s, Element(name, attrs, []))
  {
  }

  /** Only an end tag with the right name is accepted. */
  lemma ChildrenProper(s: string, name: Pair, attrs: seq<Attr>, p: nat, r: Nodes)
    requires ProperNodes(s, p, r) && ProperAttributes(s, attrs) && name.end <= p
    ensures ProperOne(s, p, WithChildren(s, name, attrs, r))
  {
    hide ProperAttributes, Slice;
  }

  lemma {:induction false} DeepProper(s: string, p: nat, depth: nat)
    requires p <= |s| && 1 <= depth <= MAX_DEPTH
    ensures ProperNodes(s, p, ParseDeep(s, p, depth))
    decreases |s| - p, 2
  {
    if depth < MAX_DEPTH { NodesProper(s, p, p, depth, []); }
  }

  lemma {:induction false} NodesProper(s: string, p0: nat, p: nat, depth: nat, done: seq<Node>)
    requires p0 <= p <= |s| && 1 <= depth < MAX_DEPTH && AllProper(s, done)
    ensures ProperNodes(s, p0, ParseNodes(s, p, depth, done))
    decreases |s| - p, 1
  {
    hide Proper, ParseElement, ParsePlain, ParseValue, WellLocated, EndTagAt;
    if At(s, p) != NUL && Identify(s, p).kind != NONE {
      OneProper(s, p, depth);
      var one := ParseOne(s, p, depth);
      if one.Parsed? && WellLocated(one.node, depth, done) {
        MoreProper(s, done, one.node);
        NodesProper(s, p0, one.next, depth, done + [one.node]);
      }
    }
  }

  lemma MoreProper(s: string, nodes: seq<Node>, node: Node)
    requires AllProper(s, nodes) && Proper(s, node)
    ensures AllProper(s, nodes + [node])
  {
  }

  lemma {:induction false} OneProper(s: string, p: nat, depth: nat)
    requires p <= |s| && 1 <= depth < MAX_DEPTH && Identify(s, p).kind != NONE
    ensures ProperOne(s, p, ParseOne(s, p, depth))
    decreases |s| - p, 0
  {
    hide ParseElement, EndTagAt, ProperAttributes, ClosedProperly, ParseText, Between;
    var id := Identify(s, p);
    if id.kind == ELEMENT {
      ElementProper(s, id.next, depth);
    } else if id.kind == TEXT {
      UpTo(s, p, "", "<", true);
    } else {
      OpensWith(s, p);
      UpTo(s, id.next, OpeningOf(id.kind), EndTagOf(id.kind), false);
    }
  }

  function OpeningOf(kind: Kind): string
  {
    if kind == DECLARATION then "<?" else if kind == COMMENT then "<!--" else if kind == CDATA then "<![CDATA[" else "<!"
  }

  /** What is identified begins with its tag. */
  lemma OpensWith(s: string, p: nat)
    requires p <= |s| && Identify(s, p).kind in {DECLARATION, COMMENT, CDATA, UNKNOWN}
    ensures var id := Identify(s, p);
      |OpeningOf(id.kind)| <= id.next && Starts(s, id.next - |OpeningOf(id.kind)|, OpeningOf(id.kind))
  {
    hide SkipWhiteSpace;
  }

  /** A text stands between its tags. */
  lemma UpTo(s: string, p: nat, open: string, close: string, entities: bool)
    requires p <= |s| && close != "" && |open| <= p && Starts(s, p - |open|, open)
    ensures var v := ParseText(s, p, close, entities, true); v.Some? ==> Between(s, v.value.value, open, close)
  {
    if FindEnd(s, p, close).Some? { FirstEnd(s, p, close); }
  }

  /** Every tree that is accepted is proper. */
  lemma ParsedIsProper(s: string)
    ensures Parse(s).Document? ==> AllProper(s, Parse(s).nodes)
  {
    hide ParseDeep, AllProper;
    var p := Beginning(s);
    if At(s, p) != NUL { DeepProper(s, p, 1); }
  }

  // ---------------------------------------------------------------- declarations

  /** Declarations come before everything else, and not inside elements. */
  ghost predicate DeclaredFirst(nodes: seq<Node>)
  {
    && (forall i, j :: 0 <= i < j < |nodes| && nodes[j].Declaration? ==> nodes[i].Declaration?)
    && forall i :: 0 <= i < |nodes| ==> NoneInside(nodes[i])
  }

  predicate NoneInside(node: Node)
  {
    node.Element? ==> forall i :: 0 <= i < |node.children| ==>
      !node.children[i].Declaration? && NoneInside(node.children[i])
  }

  ghost predicate NoneAmong(nodes: seq<Node>)
  {
    forall i :: 0 <= i < |nodes| ==> !nodes[i].Declaration? && NoneInside(nodes[i])
  }

  ghost predicate AtDepth(depth: nat, nodes: seq<Node>)
  {
    if depth == 1 then DeclaredFirst(nodes) else NoneAmong(nodes)
  }

  lemma MoreDeclared(depth: nat, nodes: seq<Node>, node: Node)
    requires 1 <= depth && AtDepth(depth, nodes) && WellLocated(node, depth, nodes) && NoneInside(node)
    ensures AtDepth(depth, nodes + [node])
  {
  }

  lemma {:induction false} NodesDeclared(s: string, p: nat, depth: nat, done: seq<Node>)
    requires p <= |s| && 1 <= depth < MAX_DEPTH && AtDepth(depth, done)
    ensures var r := ParseNodes(s, p, depth, done); r.Closed? || r.Ended? ==> AtDepth(depth, r.nodes)
    decreases |s| - p, 1
  {
    hide AtDepth, NoneInside, WellLocated, ParseElement, ParsePlain, ParseValue;
    if At(s, p) != NUL && Identify(s, p).kind != NONE {
      OneDeclared(s, p, depth);
      var one := ParseOne(s, p, depth);
      if one.Parsed? && WellLocated(one.node, depth, done) {
        MoreDeclared(depth, done, one.node);
        NodesDeclared(s, one.next, depth, done + [one.node]);
      }
    }
  }

  lemma {:induction false} OneDeclared(s: string, p: nat, depth: nat)
    requires p <= |s| && 1 <= depth < MAX_DEPTH && Identify(s, p).kind != NONE
    ensures var one := ParseOne(s, p, depth); one.Parsed? ==> NoneInside(one.node)
    decreases |s| - p, 0
  {
    hide ParseElement;
    var id := Identify(s, p);
    if id.kind == ELEMENT { ElementDeclared(s, id.next, depth); }
  }

  lemma {:induction false} ElementDeclared(s: string, p: nat, depth: nat)
    requires p <= |s| && 1 <= depth < MAX_DEPTH
    ensures var one := ParseElement(s, p, depth); one.Parsed? ==> NoneInside(one.node)
    decreases |s| - p, 0
  {
    hide ParseAttributes, Slice, ParseNodes;
    var q := SkipWhiteSpace(s, p);
    var closing := At(s, q) == '/';
    var n := ParseName(s, if closing then q + 1 else q);
    if n.Some? {
      var a := ParseAttributes(s, n.value.next, []);
      if a.ReadAttrs? && !a.closed && !closing && At(s, a.next) != NUL && depth + 1 < MAX_DEPTH {
        NodesDeclared(s, a.next, depth + 1, []);
      }
    }
  }

  /** In every tree that is accepted, declarations are where they may be. */
  lemma ParsedDeclaredFirst(s: string)
    ensures Parse(s).Document? ==> DeclaredFirst(Parse(s).nodes)
  {
    hide ParseNodes, DeclaredFirst;
    var p := Beginning(s);
    if At(s, p) != NUL {
      NothingDeclared();
      NodesDeclared(s, p, 1, []);
    }
  }

  lemma NothingDeclared()
    ensures DeclaredFirst([])
  {
  }

  // ---------------------------------------------------------------- what is accepted

  lemma {:induction false} SkipsSpace(s: string, p: nat, q: nat)
    requires p <= q <= |s| && (forall i :: p <= i < q ==> IsWhiteSpace(s[i])) && !IsWhiteSpace(At(s, q))
    ensures SkipWhiteSpace(s, p) == q
    decreases q - p
  {
    if p < q { SkipsSpace(s, p + 1, q); }
  }

  /** White space that is at `p`. */
  lemma SpaceAt(s: string, p: nat, w: string, q: nat)
    requires Starts(s, p, w) && q == p + |w| && Blank(w) && !IsWhiteSpace(At(s, q))
    ensures SkipWhiteSpace(s, p) == q
  {
    forall i | p <= i < q ensures IsWhiteSpace(s[i]) { StartsAt(s, p, w, i - p); }
    SkipsSpace(s, p, q);
  }

  predicate Blank(w: string)
  {
    forall i :: 0 <= i < |w| ==> IsWhiteSpace(w[i])
  }

  /**
    * An attribute with white space around the equals sign and a value in either kind of quotes; the other kind may be
    * in the value.
    */
  lemma AttributeAccepted(s: string, p: nat, name: string, w: string, w': string, c: char, v: string, e: nat, q: nat,
                          r: nat)
    requires ValidName(name) && Blank(w) && Blank(w') && IsQuote(c) && c !in v && NUL !in v
    requires Starts(s, p, name) && Starts(s, p + |name|, w) && e == p + |name| + |w| && Starts(s, e, "=")
    requires Starts(s, e + 1, w') && q == e + 1 + |w'| && Starts(s, q, [c]) && Starts(s, q + 1, v)
    requires r == q + 1 + |v| && Starts(s, r, [c])
    ensures ParseAttribute(s, p)
            == Some(ReadAttr(Attr(Pair(p, p + |name|, false, false), Pair(q + 1, r, true, true)), r + 1))
  {
    hide ParseName, ParseText, SkipWhiteSpace, Slice, IsWhiteSpace, ValidName, IsNameChar;
    StartsAt(s, e, "=", 0);
    StartsAt(s, q, [c], 0);
    NoSuchChars(c);
    NameEnds(s, p, name, w, e);
    NameReadBack(s, p, p + |name|, name);
    SpaceAt(s, p + |name|, w, e);
    SpaceAt(s, e + 1, w', q);
    ValueEnds(s, q + 1, r, c, v);
  }

  lemma NoSuchChars(c: char)
    requires IsQuote(c)
    ensures !IsWhiteSpace(c) && !IsWhiteSpace('=') && !IsNameChar('=') && c != NUL
  {
  }

  /** Behind the name comes white space or the equals sign. */
  lemma NameEnds(s: string, p: nat, name: string, w: string, e: nat)
    requires Blank(w) && Starts(s, p + |name|, w) && e == p + |name| + |w| < |s| && s[e] == '='
    ensures !IsNameChar(At(s, p + |name|)) && At(s, p + |name|) != NUL
  {
    if w != "" { StartsAt(s, p + |name|, w, 0); }
  }

  lemma ValueEnds(s: string, p: nat, r: nat, c: char, v: string)
    requires Starts(s, p, v) && r == p + |v| && Starts(s, r, [c]) && c !in v && NUL !in v && c != NUL
    ensures ParseText(s, p, [c], true, true) == Some(Read(Pair(p, r, true, true), r + 1))
  {
    StartsAt(s, r, [c], 0);
    forall i | p <= i < r ensures s[i] != NUL && !Starts(s, i, [c]) {
      StartsAt(s, p, v, i - p);
      assert v[i - p] in v;
      QuoteStarts(s, i, c);
    }
    FindEndAt(s, p, r, [c]);
  }

  /** A second attribute of the same name is an error. */
  lemma RepeatedIsRefused(s: string, p: nat, q: nat, attrs: seq<Attr>, a: ReadAttr)
    requires p <= |s| && q == SkipWhiteSpace(s, p) && At(s, q) != NUL && IsNameStartChar(At(s, q))
    requires ParseAttribute(s, q) == Some(a) && HasAttribute(s, attrs, Slice(s, a.attr.name))
    ensures ParseAttributes(s, p, attrs) == BadAttrs(PARSING_ATTRIBUTE)
  {
    hide ParseAttribute, IsNameStartChar, SkipWhiteSpace, HasAttribute;
  }
}

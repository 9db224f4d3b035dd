/**
  * Parsing in dep/tinyxml2/tinyxml2.cpp: what the recursive parser makes of a text. The values of the nodes stay
  * where they are in the text; only their bounds are recorded.
  */
module XmlParser {
  import opened XmlStrings

  // ---------------------------------------------------------------- characters

  predicate IsWhiteSpace(c: char)
  {
    c == ' ' || 9 <= c as nat <= 13
  }

  predicate IsNameStartChar(c: char)
  {
    c as nat >= 128 || 'a' <= c <= 'z' || 'A' <= c <= 'Z' || c == ':' || c == '_'
  }

  predicate IsNameChar(c: char)
  {
    IsNameStartChar(c) || '0' <= c <= '9' || c == '.' || c == '-'
  }

  function SkipWhiteSpace(s: string, p: nat): (r: nat)
    requires p <= |s|
    ensures p <= r <= |s| && !IsWhiteSpace(At(s, r))
    decreases |s| - p
  {
    if IsWhiteSpace(At(s, p)) then SkipWhiteSpace(s, p + 1) else p
  }

  /** `strncmp` with the whole pattern. */
  predicate Starts(s: string, p: nat, pattern: string)
  {
    p + |pattern| <= |s| && s[p..p + |pattern|] == pattern
  }

  // ---------------------------------------------------------------- the tree

  datatype Pair = Pair(start: nat, end: nat, entities: bool, newlines: bool)

  datatype Attr = Attr(name: Pair, value: Pair)

  datatype Node =
    | Element(name: Pair, attrs: seq<Attr>, children: seq<Node>)
    | Text(value: Pair, cdata: bool)
    | Comment(value: Pair)
    | Declaration(value: Pair)
    | Unknown(value: Pair)

  datatype Error = PARSING_ELEMENT | PARSING_ATTRIBUTE | PARSING_TEXT | PARSING_CDATA | PARSING_COMMENT
    | PARSING_DECLARATION | PARSING_UNKNOWN | MISMATCHED_ELEMENT | PARSING | DEPTH_EXCEEDED | EMPTY_DOCUMENT

  const MAX_DEPTH: nat := 100

  // ---------------------------------------------------------------- values and names

  /** Where the end tag is, looking from `p` on. */
  function FindEnd(s: string, p: nat, tag: string): (r: Option<nat>)
    requires p <= |s|
    ensures r.Some? ==> p <= r.value && Starts(s, r.value, tag)
    decreases |s| - p
  {
    if At(s, p) == NUL then None else if Starts(s, p, tag) then Some(p) else FindEnd(s, p + 1, tag)
  }

  datatype Read = Read(value: Pair, next: nat)

  /** `ParseText`: everything up to the end tag. */
  function ParseText(s: string, p: nat, tag: string, entities: bool, newlines: bool): (r: Option<Read>)
    requires p <= |s| && tag != ""
    ensures r.Some? ==> p <= r.value.value.end < r.value.next <= |s| && r.value.value.start == p
  {
    var e := FindEnd(s, p, tag);
    if e.None? then None else Some(Read(Pair(p, e.value, entities, newlines), e.value + |tag|))
  }

  function NameEnd(s: string, p: nat): (r: nat)
    requires p <= |s|
    ensures p <= r <= |s|
    decreases |s| - p
  {
    if At(s, p) != NUL && IsNameChar(At(s, p)) then NameEnd(s, p + 1) else p
  }

  function ParseName(s: string, p: nat): (r: Option<Read>)
    requires p <= |s|
    ensures r.Some? ==> r.value.value.start == p < r.value.value.end == r.value.next <= |s|
  {
    if At(s, p) == NUL || !IsNameStartChar(At(s, p)) then None
    else
      var e := NameEnd(s, p + 1);
      Some(Read(Pair(p, e, false, false), e))
  }

  // ---------------------------------------------------------------- attributes

  datatype ReadAttr = ReadAttr(attr: Attr, next: nat)

  function ParseAttribute(s: string, p: nat): (r: Option<ReadAttr>)
    requires p <= |s|
    ensures r.Some? ==>
            p < r.value.next <= |s| && r.value.attr.name.start == p
            && r.value.attr.name.end < r.value.attr.value.start
                        && r.value.attr.name.start < r.value.attr.name.end && r.value.attr.value.end < r.value.next
                        && r.value.attr.value.start <= r.value.attr.value.end
  {
    var n := ParseName(s, p);
    if n.None? || At(s, n.value.next) == NUL then None
    else
      var e := SkipWhiteSpace(s, n.value.next);
      if At(s, e) != '=' then None
      else
        var q := SkipWhiteSpace(s, e + 1);
        if At(s, q) != '\"' && At(s, q) != '\'' then None
        else
          var v := ParseText(s, q + 1, [At(s, q)], true, true);
          if v.None? then None else Some(ReadAttr(Attr(n.value.value, v.value.value), v.value.next))
  }

  /** The bytes of a name. */
  function Slice(s: string, v: Pair): string
  {
    if v.start <= v.end <= |s| then s[v.start..v.end] else ""
  }

  predicate HasAttribute(s: string, attrs: seq<Attr>, name: string)
  {
    exists i :: 0 <= i < |attrs| && Slice(s, attrs[i].name) == name
  }

  datatype ReadAttrs = ReadAttrs(attrs: seq<Attr>, closed: bool, next: nat) | BadAttrs(error: Error)

  /** `ParseAttributes`: up to the end of the tag. */
  function ParseAttributes(s: string, p: nat, attrs: seq<Attr>): (r: ReadAttrs)
    requires p <= |s|
    ensures r.ReadAttrs? ==> p < r.next <= |s|
    decreases |s| - p
  {
    var q := SkipWhiteSpace(s, p);
    if At(s, q) == NUL then BadAttrs(PARSING_ELEMENT)
    else if IsNameStartChar(At(s, q)) then
      var a := ParseAttribute(s, q);
      if a.None? || HasAttribute(s, attrs, Slice(s, a.value.attr.name)) then BadAttrs(PARSING_ATTRIBUTE)
      else ParseAttributes(s, a.value.next, attrs + [a.value.attr])
    else if At(s, q) == '>' then ReadAttrs(attrs, false, q + 1)
    else if At(s, q) == '/' && At(s, q + 1) == '>' then ReadAttrs(attrs, true, q + 2)
    else BadAttrs(PARSING_ELEMENT)
  }

  // ---------------------------------------------------------------- nodes

  datatype Kind = NONE | DECLARATION | COMMENT | CDATA | UNKNOWN | ELEMENT | TEXT

  datatype Identified = Identified(kind: Kind, next: nat)

  function Identify(s: string, p: nat): (r: Identified)
    requires p <= |s|
    ensures p <= r.next <= |s| && (r.kind == NONE <==> At(s, SkipWhiteSpace(s, p)) == NUL)
    ensures r.kind != NONE && r.kind != TEXT ==> p < r.next
    ensures r.kind == TEXT ==> r.next == p && At(s, p) != NUL
  {
    var q := SkipWhiteSpace(s, p);
    if At(s, q) == NUL then Identified(NONE, q)
    else if Starts(s, q, "<?") then Identified(DECLARATION, q + 2)
    else if Starts(s, q, "<!--") then Identified(COMMENT, q + 4)
    else if Starts(s, q, "<![CDATA[") then Identified(CDATA, q + 9)
    else if Starts(s, q, "<!") then Identified(UNKNOWN, q + 2)
    else if Starts(s, q, "<") then Identified(ELEMENT, q + 1)
    else Identified(TEXT, p)
  }

  /** A list of nodes: up to an end tag, or to the end of the text. */
  datatype Nodes = Closed(nodes: seq<Node>, name: Pair, next: nat) | Ended(nodes: seq<Node>) | Failed(error: Error)

  /** One node; an end tag is one as well. */
  datatype OneNode = Parsed(node: Node, next: nat) | EndTag(name: Pair, next: nat) | BadNode(error: Error)

  function EndTagOf(kind: Kind): (tag: string)
    ensures tag != ""
  {
    if kind == DECLARATION then "?>" else if kind == COMMENT then "-->" else if kind == CDATA then "]]>" else ">"
  }

  function ErrorOf(kind: Kind): Error
  {
    if kind == DECLARATION then PARSING_DECLARATION
    else if kind == COMMENT then PARSING_COMMENT
    else if kind == CDATA then PARSING_CDATA
    else PARSING_UNKNOWN
  }

  function NodeOf(kind: Kind, v: Pair): Node
  {
    if kind == DECLARATION then Declaration(v)
    else if kind == COMMENT then Comment(v)
    else if kind == CDATA then Text(v, true)
    else Unknown(v)
  }

  /** Declarations, comments, character data and unknown things all go up to their end tags. */
  function ParseValue(s: string, p: nat, kind: Kind): (r: OneNode)
    requires p <= |s|
    ensures r.Parsed? ==> p < r.next <= |s| && !r.node.Element?
    ensures !r.EndTag?
  {
    var v := ParseText(s, p, EndTagOf(kind), false, true);
    if v.None? then BadNode(ErrorOf(kind)) else Parsed(NodeOf(kind, v.value.value), v.value.next)
  }

  /** Plain text goes up to the next tag, which must not be at the very end. */
  function ParsePlain(s: string, p: nat): (r: OneNode)
    requires p <= |s|
    ensures r.Parsed? ==> p <= r.next < |s| && At(s, r.next) == '<' && !r.node.Element?
    ensures !r.EndTag?
  {
    var v := ParseText(s, p, "<", true, true);
    if v.None? then BadNode(PARSING_TEXT)
    else if At(s, v.value.next) == NUL then BadNode(PARSING)
    else Parsed(Text(v.value.value, false), v.value.next - 1)
  }

  /** `XMLElement::ParseDeep`, and what the caller does with the end tag. */
  function ParseElement(s: string, p: nat, depth: nat): (r: OneNode)
    requires p <= |s| && 1 <= depth < MAX_DEPTH
    ensures r.Parsed? || r.EndTag? ==> p < r.next <= |s|
    decreases |s| - p, 0
  {
    var q := SkipWhiteSpace(s, p);
    var closing := At(s, q) == '/';
    var n := ParseName(s, if closing then q + 1 else q);
    if n.None? then BadNode(PARSING)
    else
      var a := ParseAttributes(s, n.value.next, []);
      if a.BadAttrs? then BadNode(a.error)
      else if a.closed then Parsed(Element(n.value.value, a.attrs, []), a.next)
      else if closing then EndTag(n.value.value, a.next)
      else if At(s, a.next) == NUL then BadNode(MISMATCHED_ELEMENT)
      else WithChildren(s, n.value.value, a.attrs, ParseDeep(s, a.next, depth + 1))
  }

  /** The end tag of an element must have its name. */
  function WithChildren(s: string, name: Pair, attrs: seq<Attr>, r: Nodes): (one: OneNode)
    ensures one.Parsed? ==> r.Closed? && one.next == r.next
    ensures !one.EndTag?
  {
    if r.Failed? then BadNode(r.error)
    else if r.Ended? then BadNode(PARSING)
    else if Slice(s, r.name) != Slice(s, name) then BadNode(MISMATCHED_ELEMENT)
    else Parsed(Element(name, attrs, r.nodes), r.next)
  }

  /** `XMLNode::ParseDeep`; the document itself has depth 1. */
  function ParseDeep(s: string, p: nat, depth: nat): (r: Nodes)
    requires p <= |s| && 1 <= depth <= MAX_DEPTH
    ensures r.Closed? ==> p < r.next <= |s|
    decreases |s| - p, 2
  {
    if depth == MAX_DEPTH then Failed(DEPTH_EXCEEDED) else ParseNodes(s, p, depth, [])
  }

  /** Declarations must come first, and only in the document itself. */
  predicate WellLocated(node: Node, depth: nat, done: seq<Node>)
  {
    node.Declaration? ==> depth == 1 && (done == [] || (done[0].Declaration? && done[|done| - 1].Declaration?))
  }

  function ParseOne(s: string, p: nat, depth: nat): (r: OneNode)
    requires p <= |s| && 1 <= depth < MAX_DEPTH && Identify(s, p).kind != NONE
    ensures r.Parsed? || r.EndTag? ==>
            p <= r.next <= |s|
            && (p < r.next || (r.Parsed? && r.node.Text? && At(s, r.next) == '<' && At(s, p) != '<'))
    decreases |s| - p, 0
  {
    var id := Identify(s, p);
    if id.kind == ELEMENT then ParseElement(s, id.next, depth)
    else if id.kind == TEXT then ParsePlain(s, p)
    else ParseValue(s, id.next, id.kind)
  }

  function ParseNodes(s: string, p: nat, depth: nat, done: seq<Node>): (r: Nodes)
    requires p <= |s| && 1 <= depth < MAX_DEPTH
    ensures r.Closed? ==> p < r.next <= |s|
    decreases |s| - p, 1
  {
    if At(s, p) == NUL || Identify(s, p).kind == NONE then Ended(done)
    else
      var one := ParseOne(s, p, depth);
      match one
      case BadNode(e) => Failed(e)
      case EndTag(name, next) => Closed(done, name, next)
      case Parsed(node, next) =>
        if !WellLocated(node, depth, done) then Failed(PARSING_DECLARATION)
        else ParseNodes(s, next, depth, done + [node])
  }

  // ---------------------------------------------------------------- documents

  datatype Result = Document(nodes: seq<Node>) | Bad(error: Error)

  /** Where parsing starts: behind white space and a byte order mark. */
  function Beginning(s: string): (p: nat)
    ensures p <= |s|
  {
    var p := SkipWhiteSpace(s, 0);
    if At(s, p) == 0xEF as char && At(s, p + 1) == 0xBB as char && At(s, p + 2) == 0xBF as char then p + 3 else p
  }

  /** `XMLDocument::Parse`. An end tag in the document itself ends it. */
  function Parse(s: string): Result
  {
    var p := Beginning(s);
    if At(s, p) == NUL then Bad(EMPTY_DOCUMENT)
    else
      var r := ParseDeep(s, p, 1);
      match r
      case Failed(e) => Bad(e)
      case Ended(nodes) => Document(nodes)
      case Closed(nodes, _, _) => Document(nodes)
  }
}

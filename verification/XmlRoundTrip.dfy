/**
  * Printing a document and parsing it again (dep/tinyxml2/tinyxml2.cpp) gives the document.
  */
module XmlRoundTrip {
  import opened XmlStrings
  import opened XmlParser
  import opened XmlPrinter
  import opened XmlValues

  // ---------------------------------------------------------------- attributes

  predicate GoodField(f: Field)
  {
    ValidName(f.name) && Clean(f.value)
  }

  predicate GoodFields(fs: seq<Field>)
  {
    && (forall i :: 0 <= i < |fs| ==> GoodField(fs[i]))
    && forall i, j :: 0 <= i < j < |fs| ==> fs[i].name != fs[j].name
  }

  /** The attributes in the text are these. */
  ghost predicate AreFields(s: string, attrs: seq<Attr>, fs: seq<Field>)
  {
    |attrs| == |fs| && forall i :: 0 <= i < |attrs| ==> IsField(s, attrs[i], fs[i])
  }

  predicate Inside(s: string, v: Pair)
  {
    v.start <= v.end <= |s|
  }

  predicate IsField(s: string, a: Attr, f: Field)
  {
    && Inside(s, a.name) && Inside(s, a.value) && Slice(s, a.name) == f.name
    && Meaning(s, a.name) == f.name && Meaning(s, a.value) == f.value
  }

  lemma NoSpace(s: string, p: nat)
    requires p <= |s| && !IsWhiteSpace(At(s, p))
    ensures SkipWhiteSpace(s, p) == p
  {
  }

  lemma OneSpace(s: string, p: nat)
    requires p < |s| && s[p] == ' ' && !IsWhiteSpace(At(s, p + 1))
    ensures SkipWhiteSpace(s, p) == p + 1
  {
    NoSpace(s, p + 1);
  }

  lemma NameIsNoSpace(name: string)
    requires ValidName(name)
    ensures !IsWhiteSpace(name[0]) && name[0] != NUL && name[0] != '/' && name[0] != '!' && name[0] != '?'
  {
  }

  lemma FieldParts(s: string, p: nat, f: Field, v: nat, q: nat)
    requires Starts(s, p, PrintedField(f)) && v == p + 1 + |f.name| && q == v + 2 + |Escaped(f.value, false)|
    ensures At(s, p) == ' ' && Starts(s, p + 1, f.name) && At(s, v) == '=' && At(s, v + 1) == '\"'
    ensures Starts(s, v + 2, Escaped(f.value, false)) && Starts(s, q, "\"") && q + 1 == p + |PrintedField(f)| <= |s|
  {
    hide Escaped;
    var e := Escaped(f.value, false);
    StartsSplit(s, p, " " + f.name + "=\"" + e, "\"");
    StartsSplit(s, p, " " + f.name + "=\"", e);
    StartsSplit(s, p, " " + f.name, "=\"");
    StartsSplit(s, p, " ", f.name);
    StartsAt(s, p, " ", 0);
    StartsAt(s, v, "=\"", 0);
    StartsAt(s, v, "=\"", 1);
  }

  /** A printed attribute is read back. */
  lemma FieldBack(s: string, p: nat, q: nat, f: Field) returns (a: Attr)
    requires GoodField(f) && Starts(s, p, PrintedField(f)) && q == p + |PrintedField(f)|
    ensures q <= |s| && SkipWhiteSpace(s, p) == p + 1 && At(s, p + 1) != NUL && IsNameStartChar(At(s, p + 1))
    ensures ParseAttribute(s, p + 1) == Some(ReadAttr(a, q)) && IsField(s, a, f)
  {
    hide Escaped, PrintedField, Meaning, ParseText, ParseName, ParseAttribute, ValidName;
    var v := p + 1 + |f.name|;
    FieldLength(f);
    FieldParts(s, p, f, v, q - 1);
    NameIsThere(s, p + 1, f.name);
    OneSpace(s, p);
    NameReadBack(s, p + 1, v, f.name);
    NoSpace(s, v);
    NoSpace(s, v + 1);
    EscapedReadBack(s, v + 2, q - 1, f.value, false, "\"");
    a := Attr(Pair(p + 1, v, false, false), Pair(v + 2, q - 1, true, true));
    AttributeParsed(s, p + 1, a, q);
  }

  lemma NameIsThere(s: string, p: nat, name: string)
    requires ValidName(name) && Starts(s, p, name)
    ensures p < |s| && !IsWhiteSpace(s[p]) && s[p] != NUL && s[p] != '/' && IsNameStartChar(s[p])
  {
    StartsAt(s, p, name, 0);
    NameIsNoSpace(name);
  }

  /** An attribute from its parts. */
  lemma AttributeParsed(s: string, p: nat, a: Attr, q: nat)
    requires p <= |s| && ParseName(s, p) == Some(Read(a.name, a.name.end)) && a.name.end + 1 < |s|
    requires s[a.name.end] == '=' && s[a.name.end + 1] == '\"'
    requires ParseText(s, a.name.end + 2, "\"", true, true) == Some(Read(a.value, q))
    ensures ParseAttribute(s, p) == Some(ReadAttr(a, q))
  {
    hide ParseName, ParseText;
    NoSpace(s, a.name.end);
    NoSpace(s, a.name.end + 1);
  }

  lemma FieldLength(f: Field)
    ensures |PrintedField(f)| == 4 + |f.name| + |Escaped(f.value, false)|
  {
  }

  /** All attributes up to the end of the tag. */
  lemma {:induction false} FieldsBack(s: string, p: nat, q: nat, done: seq<Attr>, before: seq<Field>, fs: seq<Field>)
      returns (attrs: seq<Attr>)
    requires p <= |s| && Starts(s, p, PrintedFields(fs)) && q == p + |PrintedFields(fs)| && GoodFields(before + fs)
    requires AreFields(s, done, before)
    ensures q <= |s| && AreFields(s, attrs, before + fs) && ParseAttributes(s, p, done) == ParseAttributes(s, q, attrs)
    decreases |fs|
  {
    hide PrintedField, IsField, ParseAttribute, GoodField;
    if fs == [] {
      attrs := done;
      assert before + fs == before;
    } else {
      var f, m := fs[0], p + |PrintedField(fs[0])|;
      StartsSplit(s, p, PrintedField(f), PrintedFields(fs[1..]));
      assert (before + fs)[|before|] == f;
      var a := FieldBack(s, p, m, f);
      NoSuchName(s, done, before, fs, a);
      assert before + fs == (before + [f]) + fs[1..];
      MoreFields(s, done, before, a, f);
      attrs := FieldsBack(s, m, q, done + [a], before + [f], fs[1..]);
    }
  }

  lemma MoreFields(s: string, done: seq<Attr>, before: seq<Field>, a: Attr, f: Field)
    requires AreFields(s, done, before) && IsField(s, a, f)
    ensures AreFields(s, done + [a], before + [f])
  {
    hide IsField;
  }

  lemma NoSuchName(s: string, done: seq<Attr>, before: seq<Field>, fs: seq<Field>, a: Attr)
    requires fs != [] && GoodFields(before + fs) && AreFields(s, done, before) && IsField(s, a, fs[0])
    ensures !HasAttribute(s, done, Slice(s, a.name))
  {
    hide Meaning;
    forall i | 0 <= i < |done| ensures Slice(s, done[i].name) != fs[0].name {
      assert IsField(s, done[i], before[i]);
      assert (before + fs)[i] == before[i] && (before + fs)[|before|] == fs[0];
    }
  }

  // ---------------------------------------------------------------- nodes

  /** What a node of the tree stands for. */
  ghost predicate IsItem(s: string, node: Node, v: Item)
    decreases node
  {
    match v
    case Branch(name, fields, items) =>
      && node.Element? && Inside(s, node.name) && Slice(s, node.name) == name && Meaning(s, node.name) == name
      && AreFields(s, node.attrs, fields) && AreItems(s, node.children, items)
    case Words(text, cdata) => node.Text? && Inside(s, node.value) && node.cdata == cdata
        && Meaning(s, node.value) == text
    case Remark(text) => node.Comment? && Inside(s, node.value) && Meaning(s, node.value) == text
    case Header(text) => node.Declaration? && Inside(s, node.value) && Meaning(s, node.value) == text
    case Other(text) => node.Unknown? && Inside(s, node.value) && Meaning(s, node.value) == text
  }

  ghost predicate AreItems(s: string, nodes: seq<Node>, vs: seq<Item>)
    decreases nodes
  {
    |nodes| == |vs| && forall i :: 0 <= i < |nodes| ==> IsItem(s, nodes[i], vs[i])
  }

  /** Plain text, without marks around it. */
  predicate Plain(v: Item)
  {
    v.Words? && !v.cdata
  }

  /** A node that can be printed and read back, wherever it is. */
  predicate Shaped(v: Item)
  {
    match v
    case Branch(name, fields, items) =>
      && ValidName(name) && GoodFields(fields)
      && (forall i :: 0 <= i < |items| ==> Shaped(items[i]) && !items[i].Header?) && NoTwoTexts(items)
    case Words(text, cdata) =>
      Clean(text) && if cdata then Free(text, "]]>") else exists i :: 0 <= i < |text| && !IsWhiteSpace(text[i])
    case Remark(text) => Clean(text) && Free(text, "-->")
    case Header(text) => Clean(text) && Free(text, "?>")
    case Other(text) => Clean(text) && Free(text, ">") && !Starts(text, 0, "--") && !Starts(text, 0, "[CDATA[")
  }

  /** Two plain texts in a row would become one. */
  predicate NoTwoTexts(vs: seq<Item>)
  {
    forall i :: 0 <= i < |vs| - 1 ==> !(Plain(vs[i]) && Plain(vs[i + 1]))
  }

  /** Not nested too deeply for a list of nodes that is parsed at `depth`; the document itself has depth 1. */
  predicate Fits(v: Item, depth: nat)
  {
    v.Branch? && v.items != [] ==> depth + 1 < MAX_DEPTH && forall i :: 0 <= i < |v.items| ==>
        Fits(v.items[i], depth + 1)
  }

  predicate Good(v: Item, depth: nat)
  {
    Shaped(v) && Fits(v, depth)
  }

  /** What comes after plain text: a tag, and something in it. */
  predicate TagAt(s: string, p: nat)
  {
    At(s, p) == '<' && At(s, p + 1) != NUL
  }

  lemma KindAt(s: string, p: nat, kind: Kind, tag: string)
    requires p <= |s| && Starts(s, p, tag)
    requires (kind == COMMENT && tag == "<!--") || (kind == CDATA && tag == "<![CDATA[")
             || (kind == DECLARATION && tag == "<?")
    ensures Identify(s, p) == Identified(kind, p + |tag|)
  {
    StartsAt(s, p, tag, 0);
    StartsAt(s, p, tag, 1);
    if kind != DECLARATION {
      assert tag[..2] == "<!";
      StartsAt(s, p, tag, 2);
    }
    NoSpace(s, p);
    if Starts(s, p, "<?") { StartsAt(s, p, "<?", 1); }
    if Starts(s, p, "<!--") { StartsAt(s, p, "<!--", 2); }
  }

  /** A value between its marks. */
  lemma ValueBack(s: string, p: nat, q: nat, kind: Kind, tag: string, text: string, depth: nat)
    requires p <= |s| && 1 <= depth < MAX_DEPTH && Starts(s, p, tag + text + EndTagOf(kind))
    requires q == p + |tag| + |text| + |EndTagOf(kind)|
    requires Clean(text) && Free(text, EndTagOf(kind)) && Identify(s, p) == Identified(kind, p + |tag|)
    requires kind == COMMENT || kind == CDATA || kind == DECLARATION || kind == UNKNOWN
    ensures q <= |s| && var v := Pair(p + |tag|, p + |tag| + |text|, false, true);
      Inside(s, v) && ParseOne(s, p, depth) == Parsed(NodeOf(kind, v), q) && Meaning(s, v) == text
  {
    hide Meaning, ParseText;
    assert tag + text + EndTagOf(kind) == tag + (text + EndTagOf(kind));
    StartsSplit(s, p, tag, text + EndTagOf(kind));
    PlainReadBack(s, p + |tag|, p + |tag| + |text|, text, EndTagOf(kind));
  }

  /** `<!`, but neither a comment nor character data. */
  lemma OtherAt(s: string, p: nat, text: string)
    requires p <= |s| && Starts(s, p, "<!" + text + ">") && !Starts(text, 0, "--") && !Starts(text, 0, "[CDATA[")
    requires Free(text, ">")
    ensures Identify(s, p) == Identified(UNKNOWN, p + 2)
  {
    var w := "<!" + text + ">";
    StartsAt(s, p, w, 0);
    StartsAt(s, p, w, 1);
    NoSpace(s, p);
    StartsSplit(s, p, "<!" + text, ">");
    StartsSplit(s, p, "<!", text);
    StartsAt(s, p + 2 + |text|, ">", 0);
    NotAhead(s, p, text, "--");
    NotAhead(s, p, text, "[CDATA[");
    if Starts(s, p, "<?") { StartsAt(s, p, "<?", 1); }
  }

  /** What does not start with `tag`, and is followed by `>`, does not become it either. */
  lemma NotAhead(s: string, p: nat, text: string, tag: string)
    requires Starts(s, p + 2, text) && At(s, p + 2 + |text|) == '>' && !Starts(text, 0, tag)
             && forall i :: 0 <= i < |tag| ==> tag[i] != '>'
    ensures !Starts(s, p, "<!" + tag)
  {
    if Starts(s, p, "<!" + tag) {
      StartsSplit(s, p, "<!", tag);
      if |text| < |tag| { StartsAt(s, p + 2, tag, |text|); }
    }
  }

  /** Plain text has something that is not white space before the next tag. */
  lemma {:induction false} SpaceStops(s: string, p: nat, q: nat)
    requires p <= q < |s| && (exists i :: p <= i < q && !IsWhiteSpace(s[i]))
    ensures p <= SkipWhiteSpace(s, p) < q
    decreases q - p
  {
    if IsWhiteSpace(s[p]) { SpaceStops(s, p + 1, q); }
  }

  /** A printed character has the same place among white space as the character. */
  lemma {:induction false} EscapedHasWord(v: string, i: nat) returns (j: nat)
    requires i < |v| && !IsWhiteSpace(v[i])
    ensures j < |Escaped(v, true)| && !IsWhiteSpace(Escaped(v, true)[j])
  {
    hide EscapedChar;
    var e := EscapedChar(v[0], true);
    FlaggedHasEntity(v[0], true);
    OneEscaped(v[0], true);
    if i == 0 {
      j := 0;
    } else {
      j := EscapedHasWord(v[1..], i - 1);
      j := |e| + j;
    }
  }

  lemma PlainTextBack(s: string, p: nat, q: nat, text: string, depth: nat)
    requires p <= |s| && 1 <= depth < MAX_DEPTH && Good(Words(text, false), depth) && Starts(s, p, Escaped(text, true))
    requires q == p + |Escaped(text, true)|
    requires TagAt(s, q)
    ensures q <= |s| && var v := Pair(p, q, true, true);
      Inside(s, v) && At(s, p) != NUL && Identify(s, p).kind == TEXT
          && ParseOne(s, p, depth) == Parsed(Text(v, false), q) && Meaning(s, v) == text
  {
    hide Escaped, Meaning, ParseText;
    var e := Escaped(text, true);
    var i :| 0 <= i < |text| && !IsWhiteSpace(text[i]);
    var j := EscapedHasWord(text, i);
    StartsAt(s, p, e, j);
    assert !IsWhiteSpace(s[p + j]);
    SpaceStops(s, p, q);
    var k := SkipWhiteSpace(s, p);
    StartsAt(s, p, e, k - p);
    EscapedChars(text, true, k - p);
    StartsAt(s, p, e, 0);
    EscapedChars(text, true, 0);
    NoTagAt(s, k);
    assert s[q..q + 1] == "<";
    EscapedReadBack(s, p, q, text, true, "<");
  }

  lemma NoTagAt(s: string, k: nat)
    requires At(s, k) != '<'
    ensures !Starts(s, k, "<?") && !Starts(s, k, "<!--") && !Starts(s, k, "<![CDATA[") && !Starts(s, k, "<!")
    ensures !Starts(s, k, "<")
  {
    if Starts(s, k, "<?") { StartsAt(s, k, "<?", 0); }
    if Starts(s, k, "<!--") { StartsAt(s, k, "<!--", 0); }
    if Starts(s, k, "<![CDATA[") { StartsAt(s, k, "<![CDATA[", 0); }
    if Starts(s, k, "<!") { StartsAt(s, k, "<!", 0); }
    if Starts(s, k, "<") { StartsAt(s, k, "<", 0); }
  }

  // ---------------------------------------------------------------- elements

  /** What is printed for anything but plain text starts with a tag. */
  lemma TagFirst(v: Item, depth: nat)
    requires Good(v, depth) && !Plain(v)
    ensures |Printed(v)| >= 2 && Printed(v)[0] == '<' && Printed(v)[1] != NUL && Printed(v)[1] != CR
  {
    hide Escaped, PrintedFields, PrintedAll;
    if v.Branch? { NameIsNoSpace(v.name); }
    if v.Other? && v.text != "" { assert Printed(v)[2] == v.text[0]; }
  }

  lemma ElementAt(s: string, p: nat, name: string)
    requires p < |s| && Starts(s, p, "<" + name) && (ValidName(name) || (name != "" && name[0] == '/'))
    ensures Identify(s, p) == Identified(ELEMENT, p + 1) && Starts(s, p + 1, name)
  {
    StartsAt(s, p, "<" + name, 0);
    StartsAt(s, p, "<" + name, 1);
    StartsSplit(s, p, "<", name);
    NoSpace(s, p);
    if ValidName(name) { NameIsNoSpace(name); }
    if Starts(s, p, "<?") { StartsAt(s, p, "<?", 1); }
    if Starts(s, p, "<!--") { StartsAt(s, p, "<!--", 1); }
    if Starts(s, p, "<![CDATA[") { StartsAt(s, p, "<![CDATA[", 1); }
    if Starts(s, p, "<!") { StartsAt(s, p, "<!", 1); }
  }

  /** A start tag up to its last character: the name and the attributes. */
  lemma StartTagBack(s: string, p: nat, m: nat, q: nat, name: string, fields: seq<Field>) returns (attrs: seq<Attr>)
    requires p < |s| && ValidName(name) && GoodFields(fields) && Starts(s, p, "<" + name + PrintedFields(fields))
    requires m == p + 1 + |name| && q == m + |PrintedFields(fields)| && (At(s, q) == '>' || At(s, q) == '/')
    ensures q < |s| && Identify(s, p) == Identified(ELEMENT, p + 1) && SkipWhiteSpace(s, p + 1) == p + 1
    ensures At(s, p + 1) != '/'
    ensures ParseName(s, p + 1) == Some(Read(Pair(p + 1, m, false, false), m))
    ensures Slice(s, Pair(p + 1, m, false, false)) == name == Meaning(s, Pair(p + 1, m, false, false))
    ensures AreFields(s, attrs, fields) && ParseAttributes(s, m, []) == ParseAttributes(s, q, attrs)
  {
    hide PrintedFields, Meaning, GoodFields;
    StartsSplit(s, p, "<" + name, PrintedFields(fields));
    ElementAt(s, p, name);
    StartsAt(s, p + 1, name, 0);
    NameIsNoSpace(name);
    NoSpace(s, p + 1);
    AfterName(s, m, q, fields);
    NameReadBack(s, p + 1, m, name);
    assert [] + fields == fields;
    attrs := FieldsBack(s, m, q, [], [], fields);
  }

  lemma AfterName(s: string, m: nat, q: nat, fields: seq<Field>)
    requires Starts(s, m, PrintedFields(fields)) && q == m + |PrintedFields(fields)|
    requires (At(s, q) == '>' || At(s, q) == '/')
    ensures !IsNameChar(At(s, m))
  {
    if fields != [] {
      var f, rest := PrintedField(fields[0]), PrintedFields(fields[1..]);
      assert (f + rest)[0] == f[0] == ' ';
      StartsAt(s, m, f + rest, 0);
    }
  }

  lemma TagDone(s: string, q: nat, attrs: seq<Attr>)
    requires q < |s|
    ensures s[q] == '>' ==> ParseAttributes(s, q, attrs) == ReadAttrs(attrs, false, q + 1)
    ensures s[q] == '/' && At(s, q + 1) == '>' ==> ParseAttributes(s, q, attrs) == ReadAttrs(attrs, true, q + 2)
  {
    if s[q] == '>' || s[q] == '/' { NoSpace(s, q); }
  }

  /** An element, once its start tag has been read. */
  lemma ElementParsed(s: string, p: nat, name: Pair, a: ReadAttrs, depth: nat)
    requires p < |s| && 1 <= depth < MAX_DEPTH && Identify(s, p) == Identified(ELEMENT, p + 1)
    requires SkipWhiteSpace(s, p + 1) == p + 1 && At(s, p + 1) != '/'
    requires ParseName(s, p + 1) == Some(Read(name, name.end)) && ParseAttributes(s, name.end, []) == a && a.ReadAttrs?
    ensures name.end <= |s| && ParseOne(s, p, depth) ==
      if a.closed then Parsed(Element(name, a.attrs, []), a.next)
      else if At(s, a.next) == NUL then BadNode(MISMATCHED_ELEMENT)
      else WithChildren(s, name, a.attrs, ParseDeep(s, a.next, depth + 1))
  {
    hide ParseName, ParseAttributes, ParseDeep, SkipWhiteSpace;
  }

  lemma EmptyElementBack(s: string, p: nat, q: nat, name: string, fields: seq<Field>, depth: nat) returns (node: Node)
    requires p < |s| && 1 <= depth < MAX_DEPTH && ValidName(name) && GoodFields(fields)
    requires Starts(s, p, "<" + name + PrintedFields(fields) + "/>")
    requires q == p + 1 + |name| + |PrintedFields(fields)| + 2
    ensures q <= |s| && ParseOne(s, p, depth) == Parsed(node, q) && IsItem(s, node, Branch(name, fields, []))
  {
    hide PrintedFields, Meaning, AreFields, GoodFields, ValidName, ParseName, ParseAttributes, ParseOne,
        SkipWhiteSpace, Identify;
    StartsSplit(s, p, "<" + name + PrintedFields(fields), "/>");
    StartsAt(s, q - 2, "/>", 0);
    StartsAt(s, q - 2, "/>", 1);
    var attrs := StartTagBack(s, p, p + 1 + |name|, q - 2, name, fields);
    TagDone(s, q - 2, attrs);
    var n := Pair(p + 1, p + 1 + |name|, false, false);
    ElementParsed(s, p, n, ReadAttrs(attrs, true, q), depth);
    node := Element(n, attrs, []);
  }

  /** An end tag. */
  lemma EndTagBack(s: string, p: nat, q: nat, name: string, depth: nat, done: seq<Node>)
    requires p < |s| && 1 <= depth < MAX_DEPTH && ValidName(name) && Starts(s, p, "</" + name + ">")
    requires q == p + 3 + |name|
    ensures q <= |s| && var v := Pair(p + 2, q - 1, false, false);
      Slice(s, v) == name && ParseNodes(s, p, depth, done) == Closed(done, v, q)
  {
    hide Meaning, ParseNodes, ParseOne, ParseAttributes, ValidName, Identify;
    StartsSplit(s, p, "</" + name, ">");
    StartsAt(s, q - 1, ">", 0);
    assert "</" + name == "<" + ("/" + name);
    ElementAt(s, p, "/" + name);
    StartsSplit(s, p + 1, "/", name);
    StartsAt(s, p + 1, "/", 0);
    NoSpace(s, p + 1);
    NameReadBack(s, p + 2, q - 1, name);
    NoSpace(s, q - 1);
    StartsAt(s, p, "</" + name, 0);
    TagDone(s, q - 1, []);
    EndTagParsed(s, p, Pair(p + 2, q - 1, false, false), q, depth, done);
  }

  /** What follows from an end tag. */
  lemma EndTagParsed(s: string, p: nat, name: Pair, q: nat, depth: nat, done: seq<Node>)
    requires p < |s| && 1 <= depth < MAX_DEPTH && Identify(s, p) == Identified(ELEMENT, p + 1)
    requires SkipWhiteSpace(s, p + 1) == p + 1
    requires At(s, p) != NUL && At(s, p + 1) == '/' && ParseName(s, p + 2) == Some(Read(name, name.end))
    requires name.end <= |s|
    requires ParseAttributes(s, name.end, []) == ReadAttrs([], false, q)
    ensures ParseNodes(s, p, depth, done) == Closed(done, name, q)
  {
    hide ParseName, ParseAttributes, SkipWhiteSpace, Identify;
    assert ParseElement(s, p + 1, depth) == EndTag(name, q);
    assert ParseOne(s, p, depth) == EndTag(name, q);
  }

  // ---------------------------------------------------------------- lists of nodes

  /** Declarations come first. */
  predicate HeadersFirst(done: seq<Node>, vs: seq<Item>)
  {
    forall i :: 0 <= i < |vs| && vs[i].Header? ==>
      (forall j :: 0 <= j < |done| ==> done[j].Declaration?) && forall j :: 0 <= j < i ==> vs[j].Header?
  }

  /** A list of nodes that comes back when it is printed behind `done`. */
  predicate GoodList(vs: seq<Item>, depth: nat, done: seq<Node>)
  {
    && (forall i :: 0 <= i < |vs| ==> Good(vs[i], depth) && (depth > 1 ==> !vs[i].Header?))
    && NoTwoTexts(vs) && (depth == 1 ==> HeadersFirst(done, vs))
  }

  lemma GoodRest(vs: seq<Item>, depth: nat, done: seq<Node>, node: Node)
    requires vs != [] && GoodList(vs, depth, done) && (vs[0].Header? <==> node.Declaration?)
    ensures GoodList(vs[1..], depth, done + [node]) && (depth >= 1 ==> WellLocated(node, depth, done))
  {
    hide Good;
    var ws := vs[1..];
    forall i | 0 <= i < |ws| - 1 ensures !(Plain(ws[i]) && Plain(ws[i + 1])) {
      assert ws[i] == vs[i + 1] && ws[i + 1] == vs[i + 2];
    }
  }

  lemma MarkedBack(s: string, p: nat, q: nat, kind: Kind, tag: string, text: string, depth: nat) returns (node: Node)
    requires p <= |s| && 1 <= depth < MAX_DEPTH && Starts(s, p, tag + text + EndTagOf(kind))
    requires q == p + |tag| + |text| + |EndTagOf(kind)|
    requires Clean(text) && Free(text, EndTagOf(kind))
    requires (kind == COMMENT && tag == "<!--") || (kind == CDATA && tag == "<![CDATA[")
             || (kind == DECLARATION && tag == "<?")
    ensures q <= |s| && ParseOne(s, p, depth) == Parsed(node, q) && Identify(s, p).kind == kind
    ensures var v := Pair(p + |tag|, p + |tag| + |text|, false, true);
            node == NodeOf(kind, v) && Inside(s, v) && Meaning(s, v) == text
  {
    hide Meaning, ParseOne, Identify, Free, Clean;
    assert tag + text + EndTagOf(kind) == tag + (text + EndTagOf(kind));
    StartsSplit(s, p, tag, text + EndTagOf(kind));
    KindAt(s, p, kind, tag);
    ValueBack(s, p, q, kind, tag, text, depth);
    node := NodeOf(kind, Pair(p + |tag|, p + |tag| + |text|, false, true));
  }

  /** One node. */
  lemma {:induction false} OneBack(s: string, p: nat, q: nat, v: Item, depth: nat) returns (node: Node)
    requires p <= |s| && 1 <= depth < MAX_DEPTH && Good(v, depth) && Starts(s, p, Printed(v)) && q == p + |Printed(v)|
    requires (Plain(v) ==> TagAt(s, q))
    ensures q <= |s| && At(s, p) != NUL && Identify(s, p).kind != NONE && ParseOne(s, p, depth) == Parsed(node, q)
    ensures IsItem(s, node, v)
    decreases v, 0
  {
    hide Escaped, PrintedFields, PrintedAll, Meaning, GoodFields, ParseOne, AreFields, AreItems;
    if !Plain(v) {
      TagFirst(v, depth);
      StartsAt(s, p, Printed(v), 0);
      NoSpace(s, p);
    }
    match v
    case Words(text, true) => node := MarkedBack(s, p, q, CDATA, "<![CDATA[", text, depth);
    case Words(text, false) =>
      PlainTextBack(s, p, q, text, depth);
      node := Text(Pair(p, q, true, true), false);
    case Remark(text) => node := MarkedBack(s, p, q, COMMENT, "<!--", text, depth);
    case Header(text) => node := MarkedBack(s, p, q, DECLARATION, "<?", text, depth);
    case Other(text) =>
      OtherAt(s, p, text);
      ValueBack(s, p, q, UNKNOWN, "<!", text, depth);
      node := Node.Unknown(Pair(p + 2, p + 2 + |text|, false, true));
    case Branch(name, fields, items) =>
      if items == [] {
        node := EmptyElementBack(s, p, q, name, fields, depth);
      } else {
        node := BranchBack(s, p, q, name, fields, items, depth);
      }
  }

  /** Where the parts of a printed element are. */
  lemma BranchParts(s: string, p: nat, name: string, fields: seq<Field>, items: seq<Item>, m: nat, e: nat)
    requires items != [] && Starts(s, p, Printed(Branch(name, fields, items)))
    requires m == p + 1 + |name| + |PrintedFields(fields)| && e == m + 1 + |PrintedAll(items)|
    ensures Starts(s, p, "<" + name + PrintedFields(fields)) && At(s, m) == '>' && Starts(s, m + 1, PrintedAll(items))
    ensures Starts(s, e, "</" + name + ">") && e + 3 + |name| == p + |Printed(Branch(name, fields, items))|
  {
    hide PrintedFields, PrintedAll;
    var a, b, c := "<" + name + PrintedFields(fields), PrintedAll(items), "</" + name + ">";
    assert Printed(Branch(name, fields, items)) == a + (">" + (b + c)) by {
      assert ">" + PrintedAll(items) + "</" + name + ">" == ">" + (b + c);
    }
    StartsSplit(s, p, a, ">" + (b + c));
    StartsSplit(s, m, ">", b + c);
    StartsSplit(s, m + 1, b, c);
    StartsAt(s, m, ">", 0);
  }

  lemma {:induction false} BranchBack(s: string, p: nat, q: nat, name: string, fields: seq<Field>, items: seq<Item>,
                                      depth: nat) returns (node: Node)
    requires p < |s| && 1 <= depth < MAX_DEPTH && items != [] && Good(Branch(name, fields, items), depth)
    requires Starts(s, p, Printed(Branch(name, fields, items))) && q == p + |Printed(Branch(name, fields, items))|
    ensures q <= |s| && ParseOne(s, p, depth) == Parsed(node, q) && IsItem(s, node, Branch(name, fields, items))
    decreases items, 1
  {
    hide PrintedFields, PrintedAll, Printed, Meaning, GoodFields, ValidName, ParseOne, ParseAttributes, ParseName,
        ParseNodes, AreFields, AreItems, SkipWhiteSpace, Identify;
    var n, m := p + 1 + |name|, p + 1 + |name| + |PrintedFields(fields)|;
    var e := m + 1 + |PrintedAll(items)|;
    BranchParts(s, p, name, fields, items, m, e);
    var attrs := StartTagBack(s, p, n, m, name, fields);
    TagDone(s, m, attrs);
    EndIsTag(s, e, name);
    BelowIsGood(name, fields, items, depth, depth + 1);
    var nodes := ItemsBack(s, m + 1, e, items, depth + 1, []);
    assert [] + nodes == nodes;
    EndTagBack(s, e, q, name, depth + 1, nodes);
    SomethingThere(s, m + 1, items, depth + 1);
    ElementParsed(s, p, Pair(p + 1, n, false, false), ReadAttrs(attrs, false, m + 1), depth);
    node := Element(Pair(p + 1, n, false, false), attrs, nodes);
  }

  lemma BelowIsGood(name: string, fields: seq<Field>, items: seq<Item>, depth: nat, below: nat)
    requires items != [] && Good(Branch(name, fields, items), depth) && below == depth + 1 > 1
    ensures below < MAX_DEPTH && GoodList(items, below, []) && Good(items[0], below) && ValidName(name)
    ensures GoodFields(fields)
  {
    hide GoodFields, ValidName, NoTwoTexts;
  }

  lemma EndIsTag(s: string, e: nat, name: string)
    requires Starts(s, e, "</" + name + ">")
    ensures e < |s| && TagAt(s, e)
  {
    StartsAt(s, e, "</" + name + ">", 0);
    StartsAt(s, e, "</" + name + ">", 1);
  }

  /** What is printed does not begin with a zero. */
  lemma SomethingThere(s: string, p: nat, vs: seq<Item>, depth: nat)
    requires vs != [] && Good(vs[0], depth) && Starts(s, p, PrintedAll(vs))
    ensures At(s, p) != NUL && (!Plain(vs[0]) ==> TagAt(s, p))
  {
    hide Escaped, EscapedChar;
    var a, b := Printed(vs[0]), PrintedAll(vs[1..]);
    StartsSplit(s, p, a, b);
    if Plain(vs[0]) {
      var i :| 0 <= i < |vs[0].text| && !IsWhiteSpace(vs[0].text[i]);
      var j := EscapedHasWord(vs[0].text, i);
      EscapedChars(vs[0].text, true, 0);
    } else {
      TagFirst(vs[0], depth);
      StartsAt(s, p, a, 1);
    }
    StartsAt(s, p, a, 0);
  }

  /** A list of nodes, up to whatever follows. */
  lemma {:induction false} ItemsBack(s: string, p: nat, q: nat, vs: seq<Item>, depth: nat, done: seq<Node>)
      returns (nodes: seq<Node>)
    requires p <= |s| && 1 <= depth < MAX_DEPTH && GoodList(vs, depth, done) && Starts(s, p, PrintedAll(vs))
    requires q == p + |PrintedAll(vs)|
    requires vs != [] && Plain(vs[|vs| - 1]) ==> TagAt(s, q)
    ensures q <= |s| && AreItems(s, nodes, vs) && ParseNodes(s, p, depth, done) == ParseNodes(s, q, depth, done + nodes)
    decreases vs, 0
  {
    hide Good, Printed, ParseOne, Identify, IsItem, GoodList;
    if vs == [] {
      nodes := [];
      assert done + [] == done;
    } else {
      var m := p + |Printed(vs[0])|;
      StartsSplit(s, p, Printed(vs[0]), PrintedAll(vs[1..]));
      NextIsTag(s, m, vs, depth, done);
      var node := OneBack(s, p, m, vs[0], depth);
      SameKind(s, node, vs[0]);
      GoodRest(vs, depth, done, node);
      var rest := ItemsBack(s, m, q, vs[1..], depth, done + [node]);
      nodes := [node] + rest;
      assert done + nodes == (done + [node]) + rest;
    }
  }

  lemma SameKind(s: string, node: Node, v: Item)
    requires IsItem(s, node, v)
    ensures v.Header? <==> node.Declaration?
  {
  }

  /** Plain text is followed by a tag. */
  lemma NextIsTag(s: string, m: nat, vs: seq<Item>, depth: nat, done: seq<Node>)
    requires vs != [] && GoodList(vs, depth, done) && Starts(s, m, PrintedAll(vs[1..]))
    requires (Plain(vs[|vs| - 1]) ==> TagAt(s, m + |PrintedAll(vs[1..])|))
    ensures Good(vs[0], depth) && (Plain(vs[0]) ==> TagAt(s, m))
  {
    hide Good, Printed;
    if Plain(vs[0]) && |vs| > 1 {
      assert !(Plain(vs[0]) && Plain(vs[1]));
      assert Good(vs[1], depth) && vs[1..][0] == vs[1];
      SomethingThere(s, m, vs[1..], depth);
    }
  }

  // ---------------------------------------------------------------- documents

  /** A document that can be printed and read back, if it is not nested too deeply. Plain text is allowed between
      other nodes. */
  predicate GoodDocument(vs: seq<Item>)
  {
    && vs != [] && (forall i :: 0 <= i < |vs| ==> Shaped(vs[i])) && NoTwoTexts(vs) && HeadersFirst([], vs)
    && !Plain(vs[|vs| - 1]) && (Plain(vs[0]) ==> !IsWhiteSpace(vs[0].text[0]) && vs[0].text[0] != 0xEF as char)
  }

  predicate FitsAll(vs: seq<Item>, depth: nat)
  {
    forall i :: 0 <= i < |vs| ==> Fits(vs[i], depth)
  }

  /** Parsing starts at the very beginning. */
  lemma StartsAtOnce(vs: seq<Item>)
    requires GoodDocument(vs)
    ensures var s := PrintedAll(vs); Beginning(s) == 0 && At(s, 0) != NUL
  {
    hide Fits, EscapedChar;
    var s := PrintedAll(vs);
    assert Starts(s, 0, s);
    var v := vs[0];
    var a, b := Printed(v), PrintedAll(vs[1..]);
    assert s == a + b;
    if Plain(v) {
      FlaggedHasEntity(v.text[0], true);
      OneEscaped(v.text[0], true);
      var e := EscapedChar(v.text[0], true);
      assert a == e + Escaped(v.text[1..], true);
      assert a[0] == e[0] && (e[0] == '&' || e[0] == v.text[0]);
    } else {
      ShapedTagFirst(v);
    }
    NoSpace(s, 0);
  }

  lemma ShapedTagFirst(v: Item)
    requires Shaped(v) && !Plain(v)
    ensures |Printed(v)| >= 2 && Printed(v)[0] == '<'
  {
    hide PrintedFields, PrintedAll;
  }

  /** Printing and parsing give the document back. */
  lemma DocumentBack(vs: seq<Item>) returns (nodes: seq<Node>)
    requires GoodDocument(vs) && FitsAll(vs, 1)
    ensures Parse(PrintedAll(vs)) == Document(nodes) && AreItems(PrintedAll(vs), nodes, vs)
  {
    hide PrintedAll, ParseNodes, Shaped, Fits, IsItem, Beginning, NoTwoTexts;
    var s := PrintedAll(vs);
    StartsAtOnce(vs);
    nodes := ItemsBack(s, 0, |s|, vs, 1, []);
    assert [] + nodes == nodes;
    NothingLeft(s, nodes);
  }

  lemma NothingLeft(s: string, nodes: seq<Node>)
    ensures ParseNodes(s, |s|, 1, nodes) == Ended(nodes)
  {
  }

  // ---------------------------------------------------------------- too deep

  /** Everything but the depth is as it should be. */
  predicate ShapedList(vs: seq<Item>, depth: nat, done: seq<Node>)
  {
    && (forall i :: 0 <= i < |vs| ==> Shaped(vs[i]) && (depth > 1 ==> !vs[i].Header?))
    && NoTwoTexts(vs) && (depth == 1 ==> HeadersFirst(done, vs))
  }

  lemma {:induction false} OneTooDeep(s: string, p: nat, v: Item, depth: nat)
    requires p < |s| && 1 <= depth < MAX_DEPTH && Shaped(v) && !Fits(v, depth) && Starts(s, p, Printed(v))
    ensures At(s, p) != NUL && Identify(s, p).kind != NONE && ParseOne(s, p, depth) == BadNode(DEPTH_EXCEEDED)
    decreases v, 0
  {
    hide PrintedFields, PrintedAll, Meaning, GoodFields, ValidName, ParseOne, ParseAttributes, ParseName, ParseNodes,
        AreFields, SkipWhiteSpace, Identify, IsItem;
    var Branch(name, fields, items) := v;
    var n, m := p + 1 + |name|, p + 1 + |name| + |PrintedFields(fields)|;
    var e := m + 1 + |PrintedAll(items)|;
    BranchParts(s, p, name, fields, items, m, e);
    var attrs := StartTagBack(s, p, n, m, name, fields);
    TagDone(s, m, attrs);
    EndIsTag(s, e, name);
    ShapedThere(s, m + 1, items);
    ElementParsed(s, p, Pair(p + 1, n, false, false), ReadAttrs(attrs, false, m + 1), depth);
    StartsAt(s, p, "<" + name + PrintedFields(fields), 0);
    if depth + 1 < MAX_DEPTH { ListTooDeep(s, m + 1, e, items, depth + 1, []); }
  }

  lemma ShapedThere(s: string, p: nat, vs: seq<Item>)
    requires vs != [] && Shaped(vs[0]) && Starts(s, p, PrintedAll(vs))
    ensures At(s, p) != NUL && (!Plain(vs[0]) ==> TagAt(s, p))
  {
    hide Escaped, EscapedChar, PrintedFields;
    var v, a, b := vs[0], Printed(vs[0]), PrintedAll(vs[1..]);
    StartsSplit(s, p, a, b);
    if Plain(v) {
      var i :| 0 <= i < |v.text| && !IsWhiteSpace(v.text[i]);
      var j := EscapedHasWord(v.text, i);
      EscapedChars(v.text, true, 0);
    } else {
      if v.Branch? { NameIsNoSpace(v.name); }
      StartsAt(s, p, a, 1);
    }
    StartsAt(s, p, a, 0);
  }

  /** The first node that is too deep ends the parsing. */
  lemma {:induction false} ListTooDeep(s: string, p: nat, q: nat, vs: seq<Item>, depth: nat, done: seq<Node>)
    requires p <= |s| && 1 <= depth < MAX_DEPTH && ShapedList(vs, depth, done) && !FitsAll(vs, depth)
    requires Starts(s, p, PrintedAll(vs)) && q == p + |PrintedAll(vs)| && (Plain(vs[|vs| - 1]) ==> TagAt(s, q))
    ensures ParseNodes(s, p, depth, done) == Failed(DEPTH_EXCEEDED)
    decreases vs, 0
  {
    hide Shaped, Fits, Printed, ParseOne, Identify, IsItem, ShapedList;
    var v, m := vs[0], p + |Printed(vs[0])|;
    StartsSplit(s, p, Printed(v), PrintedAll(vs[1..]));
    ShapedFirst(vs, depth, done);
    ShapedThere(s, p, vs);
    if Fits(v, depth) {
      NextIsTagToo(s, m, q, vs, depth, done);
      var node := OneBack(s, p, m, v, depth);
      SameKind(s, node, v);
      ShapedRest(vs, depth, done, node);
      ListTooDeep(s, m, q, vs[1..], depth, done + [node]);
    } else {
      OneTooDeep(s, p, v, depth);
    }
  }

  lemma ShapedFirst(vs: seq<Item>, depth: nat, done: seq<Node>)
    requires vs != [] && ShapedList(vs, depth, done)
    ensures Shaped(vs[0])
  {
  }

  lemma NextIsTagToo(s: string, m: nat, q: nat, vs: seq<Item>, depth: nat, done: seq<Node>)
    requires vs != [] && ShapedList(vs, depth, done) && Starts(s, m, PrintedAll(vs[1..]))
    requires (Plain(vs[|vs| - 1]) ==> TagAt(s, q))
    requires q == m + |PrintedAll(vs[1..])|
    ensures Plain(vs[0]) ==> TagAt(s, m)
  {
    hide Shaped, Printed;
    if Plain(vs[0]) && |vs| > 1 {
      assert !(Plain(vs[0]) && Plain(vs[1]));
      assert Shaped(vs[1]) && vs[1..][0] == vs[1];
      ShapedThere(s, m, vs[1..]);
    }
  }

  lemma ShapedRest(vs: seq<Item>, depth: nat, done: seq<Node>, node: Node)
    requires vs != [] && ShapedList(vs, depth, done) && (vs[0].Header? <==> node.Declaration?) && depth >= 1
    requires !FitsAll(vs, depth) && Fits(vs[0], depth)
    ensures ShapedList(vs[1..], depth, done + [node]) && WellLocated(node, depth, done) && vs[1..] != []
    ensures !FitsAll(vs[1..], depth)
  {
    hide Shaped, Fits;
    var ws := vs[1..];
    forall i | 0 <= i < |ws| - 1 ensures !(Plain(ws[i]) && Plain(ws[i + 1])) {
      assert ws[i] == vs[i + 1] && ws[i + 1] == vs[i + 2];
    }
    var i :| 0 <= i < |vs| && !Fits(vs[i], depth);
    assert ws[i - 1] == vs[i];
  }

  /** A document that can be printed comes back if and only if it is not nested too deeply; otherwise this is the
      error. */
  lemma BackIffFits(vs: seq<Item>)
    requires GoodDocument(vs)
    ensures if FitsAll(vs, 1) then Parse(PrintedAll(vs)).Document?
            && AreItems(PrintedAll(vs), Parse(PrintedAll(vs)).nodes, vs)
            else Parse(PrintedAll(vs)) == Bad(DEPTH_EXCEEDED)
  {
    hide PrintedAll, ParseNodes, Shaped, Fits, IsItem, Beginning, NoTwoTexts, HeadersFirst;
    var s := PrintedAll(vs);
    if FitsAll(vs, 1) {
      var nodes := DocumentBack(vs);
    } else {
      StartsAtOnce(vs);
      ListTooDeep(s, 0, |s|, vs, 1, []);
    }
  }
}

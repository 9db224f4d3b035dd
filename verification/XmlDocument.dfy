/**
  * Documents of dep/tinyxml2/tinyxml2.cpp: loading a text, and reading its values afterwards in any order and any
  * number of times, each of them translated in place when it is first read.
  */
module XmlDocument {
  import opened XmlStrings
  import opened XmlParser
  import opened XmlPrinter
  import opened XmlValues
  import opened XmlReader
  import opened XmlRoundTrip

  /** `XMLDocument::Parse`: the text is copied into the buffer, with a zero behind it. */
  method Load(s: string) returns (buf: array<char>, r: Result)
    ensures r == Parse(s) && fresh(buf) && buf.Length == |s| + 1
    ensures r.Document? ==> AllIntact(buf[..], s, PairsAll(r.nodes)) && InOrder(PairsAll(r.nodes), 0, |s| + 1)
  {
    hide ParseDeep, SkipWhiteSpace, Intact, InOrder;
    buf := new char[|s| + 1](i => NUL);
    forall i | 0 <= i < |s| { buf[i] := s[i]; }
    var p := SkipSpace(buf, 0, s);
    if p + 2 < buf.Length && buf[p] == 0xEF as char && buf[p + 1] == 0xBB as char
        && buf[p + 2] == 0xBF as char { p := p + 3; }
    if buf[p] == NUL { return buf, Bad(EMPTY_DOCUMENT); }
    var n := ReadDeep(buf, p, 1, s);
    if n.Failed? { return buf, Bad(n.error); }
    if n.Closed? { OrderWiden(PairsAll(n.nodes), p, n.name.start, 0, |s| + 1); }
    else { OrderWiden(PairsAll(n.nodes), p, |s| + 1, 0, |s| + 1); }
    r := Document(n.nodes);
  }

  // ---------------------------------------------------------------- reading values

  /** The value is in the buffer, with a zero behind it. */
  ghost predicate Shown(b: string, v: Pair, value: string)
  {
    && v.start + |value| <= v.end < |b| && b[v.start..v.start + |value|] == value && b[v.start + |value|] == NUL
  }

  /** The value has been read, or can still be read. */
  ghost predicate Readable(b: string, s: string, x: StrPair, v: Pair)
    reads x
  {
    && v.start <= v.end <= |s| < |b| && x.start == v.start && x.end == v.end
    && if x.flush then Intact(b, s, v) && x.entities == v.entities && x.newlines == v.newlines
        else Shown(b, v, Meaning(s, v))
  }

  ghost predicate AllReadable(b: string, s: string, xs: seq<StrPair>, vs: seq<Pair>)
    reads set i | 0 <= i < |xs| :: xs[i]
  {
    |xs| == |vs| && forall i :: 0 <= i < |xs| ==> Readable(b, s, xs[i], vs[i])
  }

  lemma {:induction false} TranslatedSame(s: string, s': string, entities: bool, newlines: bool, start: nat, p: nat,
                                          out: string)
    requires |s| == |s'| && start + |out| <= p <= |s| && forall i :: start <= i < |s| ==> s[i] == s'[i]
    ensures Translated(s, entities, newlines, start, p, out) == Translated(s', entities, newlines, start, p, out)
    decreases |s| - p
  {
    hide Step;
    if p < |s| {
      StepSame(s, s', entities, newlines, p, start + |out|);
      var t := Step(s, entities, newlines, p, start + |out|);
      TranslatedSame(s, s', entities, newlines, start, t.next, out + t.text);
    }
  }

  /** A value whose bytes, and the byte behind it, have not changed. */
  lemma OtherReadable(b: string, b': string, s: string, x: StrPair, v: Pair)
    requires Readable(b, s, x, v) && |b'| == |b| && forall i :: v.start <= i <= v.end ==> b'[i] == b[i]
    ensures Readable(b', s, x, v)
  {
    hide Translated;
    if !x.flush {
      var n := |Meaning(s, v)|;
      assert b'[v.start..v.start + n] == b[v.start..v.start + n];
    }
  }

  /** Reading one value leaves the others readable, and it can be read again. */
  method ReadValue(buf: array<char>, xs: seq<StrPair>, k: nat, ghost s: string, ghost vs: seq<Pair>)
    requires k < |xs| && (forall i, j :: 0 <= i < j < |xs| ==> xs[i] != xs[j]) && InOrder(vs, 0, |s| + 1)
    requires AllReadable(buf[..], s, xs, vs)
    modifies buf, xs[k]
    ensures AllReadable(buf[..], s, xs, vs) && !xs[k].flush && forall i :: 0 <= i < |xs| && i != k ==>
            xs[i].flush == old(xs[i].flush)
  {
    hide Translated, Readable;
    ghost var b := buf[..];
    ReadOneValue(buf, xs[k], s, vs[k]);
    forall i | 0 <= i < |xs| && i != k ensures Readable(buf[..], s, xs[i], vs[i]) {
      Apart(vs, k, i, |s| + 1);
      assert old(Readable(b, s, xs[i], vs[i]));
      assert xs[i] != xs[k];
      assert Readable(b, s, xs[i], vs[i]);
      InBuffer(b, s, xs[i], vs[i]);
      OtherReadable(b, buf[..], s, xs[i], vs[i]);
    }
  }

  lemma InBuffer(b: string, s: string, x: StrPair, v: Pair)
    requires Readable(b, s, x, v)
    ensures v.end < |b|
  {
  }

  lemma Apart(vs: seq<Pair>, k: nat, i: nat, hi: nat)
    requires InOrder(vs, 0, hi) && k < |vs| && i < |vs| && i != k
    ensures vs[i].end < vs[k].start || vs[k].end < vs[i].start
  {
  }

  method ReadOneValue(buf: array<char>, x: StrPair, ghost s: string, ghost v: Pair)
    requires Readable(buf[..], s, x, v)
    modifies buf, x`entities, x`newlines, x`flush
    ensures Readable(buf[..], s, x, v) && !x.flush
    ensures forall i :: 0 <= i < buf.Length && (i < v.start || i > v.end) ==> buf[i] == old(buf[i])
  {
    hide Translated;
    if x.flush { TranslatedSame(buf[..v.end], s[..v.end], v.entities, v.newlines, v.start, v.start, ""); }
    ghost var b := buf[..];
    x.GetStr(buf);
    if !old(x.flush) { assert buf[..] == b; }
  }

  /** A new pair for each value. */
  method MakePairs(vs: seq<Pair>, ghost b: string, ghost s: string) returns (xs: seq<StrPair>)
    requires |b| == |s| + 1 && AllIntact(b, s, vs) && InOrder(vs, 0, |s| + 1)
    ensures AllReadable(b, s, xs, vs) && (forall i, j :: 0 <= i < j < |xs| ==> xs[i] != xs[j])
            && forall i :: 0 <= i < |xs| ==> fresh(xs[i])
  {
    hide Meaning;
    xs := [];
    while |xs| < |vs|
      invariant |xs| <= |vs| && forall i :: 0 <= i < |xs| ==> fresh(xs[i]) && Readable(b, s, xs[i], vs[i])
      invariant forall i, j :: 0 <= i < j < |xs| ==> xs[i] != xs[j]
    {
      var v := vs[|xs|];
      assert Intact(b, s, v);
      var x := new StrPair(v.start, v.end, v.entities, v.newlines);
      xs := xs + [x];
    }
  }

  /** Values are read in the given order. */
  method ReadValues(buf: array<char>, xs: seq<StrPair>, order: seq<nat>, ghost s: string, ghost vs: seq<Pair>)
    requires (forall i, j :: 0 <= i < j < |xs| ==> xs[i] != xs[j]) && InOrder(vs, 0, |s| + 1)
    requires AllReadable(buf[..], s, xs, vs)
    requires forall n :: 0 <= n < |order| ==> order[n] < |xs|
    modifies buf, set i | 0 <= i < |xs| :: xs[i]
    ensures AllReadable(buf[..], s, xs, vs)
    ensures forall n :: 0 <= n < |order| ==> Shown(buf[..], vs[order[n]], Meaning(s, vs[order[n]]))
  {
    hide Meaning, Intact, InOrder, Shown;
    var n := 0;
    while n < |order|
      invariant n <= |order| && AllReadable(buf[..], s, xs, vs) && forall m :: 0 <= m < n ==> !xs[order[m]].flush
    {
      ReadValue(buf, xs, order[n], s, vs);
      n := n + 1;
    }
    forall m | 0 <= m < |order| ensures Shown(buf[..], vs[order[m]], Meaning(s, vs[order[m]])) {
      assert Readable(buf[..], s, xs[order[m]], vs[order[m]]);
    }
  }

  // ---------------------------------------------------------------- there and back

  /** Printing a document and loading the text: the tree is that of the document, and all its values can be read, in
      any order. */
  method PrintAndLoad(vs: seq<Item>) returns (buf: array<char>, nodes: seq<Node>, xs: seq<StrPair>)
    requires GoodDocument(vs) && FitsAll(vs, 1)
    ensures AreItems(PrintedAll(vs), nodes, vs) && InOrder(PairsAll(nodes), 0, |PrintedAll(vs)| + 1)
    ensures AllReadable(buf[..], PrintedAll(vs), xs, PairsAll(nodes)) && forall i, j :: 0 <= i < j < |xs| ==>
            xs[i] != xs[j]
  {
    hide GoodDocument, FitsAll, AreItems, Meaning, PrintedAll, PairsAll, AllIntact, InOrder, Parse;
    var printer := new Printer();
    printer.PrintItems(vs);
    NotEmpty(vs);
    ghost var s := PrintedAll(vs);
    assert printer.buffer == s;
    BackIffFits(vs);
    var r;
    buf, r := Load(printer.buffer);
    nodes := r.nodes;
    xs := MakePairs(PairsAll(nodes), buf[..], s);
  }

  lemma NotEmpty(vs: seq<Item>)
    requires GoodDocument(vs)
    ensures vs != []
  {
  }
}

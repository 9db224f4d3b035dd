/**
  * Printing in dep/tinyxml2/tinyxml2.cpp (`XMLPrinter`), in compact mode.
  */
module XmlPrinter {
  import opened XmlStrings
  import opened XmlParser

  // ---------------------------------------------------------------- documents as values

  datatype Field = Field(name: string, value: string)

  datatype Item =
    | Branch(name: string, fields: seq<Field>, items: seq<Item>)
    | Words(text: string, cdata: bool)
    | Remark(text: string)
    | Header(text: string)
    | Other(text: string)

  // ---------------------------------------------------------------- what is printed

  /** Which characters are written as entities; quotes only in attributes. */
  predicate Flagged(c: char, restricted: bool)
  {
    c == '&' || c == '<' || c == '>' || (!restricted && (c == '\"' || c == '\''))
  }

  /** The number of the entity for this character. */
  function EntityOf(c: char, i: nat): (r: Option<nat>)
    ensures r.Some? ==> i <= r.value < |ENTITIES| && ENTITIES[r.value].value == c
    decreases |ENTITIES| - i
  {
    if i >= |ENTITIES| then None else if ENTITIES[i].value == c then Some(i) else EntityOf(c, i + 1)
  }

  function EscapedChar(c: char, restricted: bool): string
  {
    if Flagged(c, restricted) && EntityOf(c, 0).Some? then "&" + ENTITIES[EntityOf(c, 0).value].pattern + ";" else [c]
  }

  function Escaped(v: string, restricted: bool): string
  {
    if v == "" then "" else EscapedChar(v[0], restricted) + Escaped(v[1..], restricted)
  }

  lemma {:induction false} EscapedAppend(v: string, w: string, restricted: bool)
    ensures Escaped(v + w, restricted) == Escaped(v, restricted) + Escaped(w, restricted)
  {
    hide EscapedChar;
    if v == "" {
      assert v + w == w;
    } else {
      assert (v + w)[1..] == v[1..] + w;
      EscapedAppend(v[1..], w, restricted);
    }
  }

  function PrintedField(f: Field): string
  {
    " " + f.name + "=\"" + Escaped(f.value, false) + "\""
  }

  function PrintedFields(fs: seq<Field>): string
  {
    if fs == [] then "" else PrintedField(fs[0]) + PrintedFields(fs[1..])
  }

  function Printed(v: Item): string
  {
    match v
    case Branch(name, fields, items) =>
      "<" + name + PrintedFields(fields) + (if items == [] then "/>" else ">" + PrintedAll(items) + "</" + name + ">")
    case Words(text, cdata) => if cdata then "<![CDATA[" + text + "]]>" else Escaped(text, true)
    case Remark(text) => "<!--" + text + "-->"
    case Header(text) => "<?" + text + "?>"
    case Other(text) => "<!" + text + ">"
  }

  function PrintedAll(vs: seq<Item>): string
  {
    if vs == [] then "" else Printed(vs[0]) + PrintedAll(vs[1..])
  }

  // ---------------------------------------------------------------- the printer

  class Printer {
    var buffer: string
    /** The start tag of the innermost element is still open. */
    var elementJustOpened: bool
    var stack: seq<string>

    constructor ()
      ensures buffer == "" && !elementJustOpened && stack == []
    {
      buffer, elementJustOpened, stack := "", false, [];
    }

    /** What closes an open start tag before anything else is printed. */
    function Seal(): string
      reads this
    {
      if elementJustOpened then ">" else ""
    }

    method Write(data: string)
      modifies this`buffer
      ensures buffer == old(buffer) + data
    {
      buffer := buffer + data;
    }

    method SealElementIfJustOpened()
      modifies this`buffer, this`elementJustOpened
      ensures !elementJustOpened && buffer == old(buffer) + old(Seal())
    {
      if elementJustOpened {
        elementJustOpened := false;
        Write(">");
      }
    }

    /** Runs of bytes between entities are written in one piece. */
    method PrintString(v: string, restricted: bool)
      modifies this`buffer
      ensures buffer == old(buffer) + Escaped(v, restricted)
    {
      hide Escaped, EscapedChar, EntityOf;
      var p: nat, q: nat := 0, 0;
      ghost var b := buffer;
      RunStart(v, restricted);
      while q < |v|
        invariant p <= q <= |v| && buffer + v[p..q] == b + Escaped(v[..q], restricted)
      {
        RunNext(v, p, q, restricted, buffer, b);
        if Flagged(v[q], restricted) {
          Write(v[p..q]);
          var i := EntityOf(v[q], 0);
          FlaggedHasEntity(v[q], restricted);
          Write("&" + ENTITIES[i.value].pattern + ";");
          p := q + 1;
        }
        q := q + 1;
      }
      assert v[..q] == v;
      if p < q { Write(v[p..q]); }
    }

    method OpenElement(name: string)
      modifies this
      ensures buffer == old(buffer) + old(Seal()) + ("<" + name) && stack == old(stack) + [name] && elementJustOpened
    {
      SealElementIfJustOpened();
      stack := stack + [name];
      Write("<");
      Write(name);
      elementJustOpened := true;
    }

    method PushAttribute(name: string, value: string)
      modifies this`buffer
      ensures buffer == old(buffer) + PrintedField(Field(name, value))
    {
      hide Escaped;
      Write(" ");
      Write(name);
      Write("=\"");
      PrintString(value, false);
      Write("\"");
    }

    method CloseElement()
      requires stack != []
      modifies this
      ensures stack == old(stack)[..|old(stack)| - 1] && !elementJustOpened
      ensures buffer == old(buffer) + if old(elementJustOpened) then "/>" else "</" + old(stack)[|old(stack)| - 1] + ">"
    {
      var name := stack[|stack| - 1];
      stack := stack[..|stack| - 1];
      if elementJustOpened {
        Write("/>");
      } else {
        Write("</");
        Write(name);
        Write(">");
      }
      elementJustOpened := false;
    }

    method PushText(text: string, cdata: bool)
      modifies this`buffer, this`elementJustOpened
      ensures buffer == old(buffer) + old(Seal()) + Printed(Words(text, cdata)) && !elementJustOpened
    {
      SealElementIfJustOpened();
      if cdata {
        Write("<![CDATA[");
        Write(text);
        Write("]]>");
      } else {
        PrintString(text, true);
      }
    }

    method PushOther(before: string, text: string, after: string)
      modifies this`buffer, this`elementJustOpened
      ensures buffer == old(buffer) + old(Seal()) + (before + text + after) && !elementJustOpened
    {
      SealElementIfJustOpened();
      Write(before);
      Write(text);
      Write(after);
    }

    /** `Accept`: a node with everything below it. */
    method PrintItem(v: Item)
      modifies this
      ensures buffer == old(buffer) + old(Seal()) + Printed(v) && !elementJustOpened && stack == old(stack)
      decreases v, 0
    {
      hide Escaped, PrintedFields, PrintedAll;
      match v
      case Branch(name, fields, items) => PrintBranch(name, fields, items);
      case Words(text, cdata) => PushText(text, cdata);
      case Remark(text) => PushOther("<!--", text, "-->");
      case Header(text) => PushOther("<?", text, "?>");
      case Other(text) => PushOther("<!", text, ">");
    }

    method PrintBranch(name: string, fields: seq<Field>, items: seq<Item>)
      modifies this
      ensures buffer == old(buffer) + old(Seal()) + Printed(Branch(name, fields, items)) && !elementJustOpened
      ensures stack == old(stack)
      decreases items, 1
    {
      hide Escaped, PrintedField, PrintedAll;
      ghost var b := buffer + Seal();
      OpenElement(name);
      var i := 0;
      while i < |fields|
        invariant i <= |fields| && buffer == b + ("<" + name) + PrintedFields(fields[..i])
        invariant elementJustOpened && stack == old(stack) + [name]
      {
        FieldsNext(fields, i, i + 1);
        PushAttribute(fields[i].name, fields[i].value);
        i := i + 1;
      }
      assert fields[..i] == fields;
      PrintItems(items);
      CloseElement();
      BranchJoined(b, name, fields, items);
    }

    method PrintItems(items: seq<Item>)
      modifies this
      ensures items == [] ==> buffer == old(buffer) && elementJustOpened == old(elementJustOpened)
      ensures items != [] ==> buffer == old(buffer) + old(Seal()) + PrintedAll(items) && !elementJustOpened
      ensures stack == old(stack)
      decreases items, 0
    {
      hide Printed;
      var i := 0;
      while i < |items|
        invariant i <= |items| && stack == old(stack)
        invariant if i == 0 then buffer == old(buffer) && elementJustOpened == old(elementJustOpened)
                  else buffer == old(buffer) + old(Seal()) + PrintedAll(items[..i]) && !elementJustOpened
      {
        AllNext(items, i, i + 1);
        PrintItem(items[i]);
        i := i + 1;
      }
      assert items[..i] == items;
    }
  }

  lemma {:induction false} FieldsNext(fs: seq<Field>, i: nat, j: nat)
    requires i < |fs| && j == i + 1
    ensures PrintedFields(fs[..j]) == PrintedFields(fs[..i]) + PrintedField(fs[i])
  {
    hide PrintedField;
    assert fs[..j][1..] == fs[1..][..i];
    if i != 0 {
      assert fs[..i][1..] == fs[1..][..i - 1];
      FieldsNext(fs[1..], i - 1, i);
    }
  }

  lemma {:induction false} AllNext(vs: seq<Item>, i: nat, j: nat)
    requires i < |vs| && j == i + 1
    ensures PrintedAll(vs[..j]) == PrintedAll(vs[..i]) + Printed(vs[i])
  {
    hide Printed;
    assert vs[..j][1..] == vs[1..][..i];
    if i != 0 {
      assert vs[..i][1..] == vs[1..][..i - 1];
      AllNext(vs[1..], i - 1, i);
    }
  }

  lemma BranchJoined(b: string, name: string, fields: seq<Field>, items: seq<Item>)
    ensures b + ("<" + name) + PrintedFields(fields) + "/>" == b + ("<" + name + PrintedFields(fields) + "/>")
    ensures b + ("<" + name) + PrintedFields(fields) + ">" + PrintedAll(items) + ("</" + name + ">")
            == b + ("<" + name + PrintedFields(fields) + (">" + PrintedAll(items) + "</" + name + ">"))
  {
  }

  lemma RunStart(v: string, restricted: bool)
    ensures v[0..0] == "" && Escaped(v[..0], restricted) == ""
  {
  }

  lemma FlaggedHasEntity(c: char, restricted: bool)
    ensures Flagged(c, restricted) ==>
            EntityOf(c, 0).Some?
            && EscapedChar(c, restricted) == "&" + ENTITIES[EntityOf(c, 0).value].pattern + ";"
    ensures !Flagged(c, restricted) ==> EscapedChar(c, restricted) == [c]
  {
    assert EntityOf(c, 0).Some? || EntityOf(c, 1) == None;
  }

  lemma RunNext(v: string, p: nat, q: nat, restricted: bool, now: string, b: string)
    requires p <= q < |v| && now + v[p..q] == b + Escaped(v[..q], restricted)
    ensures (now + v[p..q]) + EscapedChar(v[q], restricted) == b + Escaped(v[..q + 1], restricted)
    ensures !Flagged(v[q], restricted) ==> now + v[p..q + 1] == b + Escaped(v[..q + 1], restricted)
  {
    hide EscapedChar;
    assert v[..q + 1] == v[..q] + [v[q]];
    EscapedAppend(v[..q], [v[q]], restricted);
    assert Escaped([v[q]], restricted) == EscapedChar(v[q], restricted) + Escaped("", restricted);
    FlaggedHasEntity(v[q], restricted);
    assert v[p..q + 1] == v[p..q] + [v[q]];
  }
}

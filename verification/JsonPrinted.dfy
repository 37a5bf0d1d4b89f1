/** What the request printer writes is JSON: for names and values that are text, the printed object is a
    text of the RFC 8259 grammar with exactly their characters. */
module JsonPrinted {
  import opened Wrappers
  import opened Bytes
  import opened Json
  import opened JsonStrings
  import opened JsonPrinter
  import JsonGrammar

  // ---------------------------------------------------------------- strings

  /** How the printer spells a character. */
  function Spelled(v: scalar): Char {
    Char(v, Escaped(Utf8(v)))
  }

  lemma EscapedOne(b: byte)
    ensures Escaped([b]) == EscapedByte(b)
  {
    assert Escaped([b][1..]) == [];
  }

  lemma {:induction false} EscapedHigh(b: bytes)
    requires forall k | 0 <= k < |b| :: b[k] >= 0x80
    ensures Escaped(b) == b
  {
    if b != [] {
      EscapedHigh(b[1..]);
      assert b == [b[0]] + b[1..];
    }
  }

  lemma PlainAlone(v: scalar)
    requires v >= 0x20 && v != '\"' as nat && v != '\\' as nat
    ensures Plain(Utf8(v), v)
  {
    hide Utf8, ReadOne;
    Utf8Read(v, []);
    assert Utf8(v) + [] == Utf8(v);
  }

  lemma ControlSpelled(v: nat)
    requires v < 0x20
    ensures ShortEscape(EscapedByte(v), v) || UnicodeEscape(EscapedByte(v), v)
  {
    hide HexFor;
    HexByteFor(v / 16);
    HexByteFor(v % 16);
    HexByteFor(0);
  }

  lemma HexByteFor(d: nat)
    requires d < 16
    ensures HexFor(HexByte(d), d) && HexByte(0) == 0x30
  {}

  /** Every character is printed as one of its spellings. */
  lemma PrintedSpells(v: scalar)
    ensures Spells(Spelled(v).text, v)
  {
    hide UnicodeEscape, Plain;
    if v < 0x80 {
      assert Utf8(v) == [v];
      EscapedOne(v);
      if v < 0x20 {
        ControlSpelled(v);
      } else if v != '\"' as nat && v != '\\' as nat {
        PlainAlone(v);
      }
    } else {
      assert forall k | 0 <= k < |Utf8(v)| :: Utf8(v)[k] >= 0x80;
      EscapedHigh(Utf8(v));
      PlainAlone(v);
    }
  }

  function AllSpelled(values: seq<scalar>): seq<Char> {
    if values == [] then [] else [Spelled(values[0])] + AllSpelled(values[1..])
  }

  lemma {:induction false} PrintedText(values: seq<scalar>)
    ensures Spelt(AllSpelled(values)) && ValuesOf(AllSpelled(values)) == values
    ensures TextOf(AllSpelled(values)) == Escaped(Utf8Text(values))
  {
    hide Spells, Utf8, Escaped;
    if values == [] {
      assert Escaped([]) == [] by { NothingEscaped(); }
    } else {
      var rest := AllSpelled(values[1..]);
      PrintedText(values[1..]);
      PrintedSpells(values[0]);
      EscapedAppend(Utf8(values[0]), Utf8Text(values[1..]));
      assert AllSpelled(values)[1..] == rest;
      assert values == [values[0]] + values[1..];
    }
  }

  lemma NothingEscaped()
    ensures Escaped([]) == []
  {}

  /** A printed text is a JSON string of its characters. */
  lemma PrintedString(values: seq<scalar>)
    ensures Quoted(Utf8Text(values)) == JsonGrammar.WrittenString(AllSpelled(values))
  {
    hide Escaped, TextOf, Utf8Text, AllSpelled;
    PrintedText(values);
    JsonGrammar.Quotes(AllSpelled(values));
  }

  // ---------------------------------------------------------------- objects

  /** A member's name and value; no NUL in either. */
  datatype Entry = Entry(name: seq<scalar>, value: Option<seq<scalar>>)

  predicate NoNuls(entries: seq<Entry>) {
    forall i | 0 <= i < |entries| ::
      0 !in entries[i].name && (entries[i].value.Some? ==> 0 !in entries[i].value.value)
  }

  function FieldOf(e: Entry): Field {
    Field(Utf8Text(e.name), if e.value.Some? then Some(Utf8Text(e.value.value)) else None)
  }

  function FieldsOf(entries: seq<Entry>): seq<Field> {
    if entries == [] then [] else [FieldOf(entries[0])] + FieldsOf(entries[1..])
  }

  function ValueNode(value: Option<seq<scalar>>): JsonGrammar.Node {
    if value.Some? then JsonGrammar.Chars(AllSpelled(value.value)) else JsonGrammar.Literal(NULL_TEXT)
  }

  function FieldNodes(entries: seq<Entry>): JsonGrammar.Fields {
    if entries == [] then JsonGrammar.NoFields
    else JsonGrammar.Fields([], AllSpelled(entries[0].name), [], [], ValueNode(entries[0].value), [],
                            FieldNodes(entries[1..]))
  }

  /** The same as members of what is read. */
  function MembersOf(entries: seq<Entry>): seq<Member> {
    if entries == [] then []
    else
      var e := entries[0];
      var value := if e.value.Some? then Str(Utf8Text(e.value.value)) else Other;
      [Member(Utf8Text(e.name), value)] + MembersOf(entries[1..])
  }

  lemma {:induction false} TextNoNul(values: seq<scalar>)
    requires 0 !in values
    ensures 0 !in Utf8Text(values)
  {
    if values != [] {
      TextNoNul(values[1..]);
      assert values[0] in values;
      assert 0 !in Utf8(values[0]);
    }
  }

  lemma WholeText(values: seq<scalar>)
    requires 0 !in values
    ensures CutNul(Utf8Text(values)) == Utf8Text(values)
  {
    TextNoNul(values);
    CutNulKeeps(Utf8Text(values));
  }

  lemma ValuePrinted(value: Option<seq<scalar>>)
    requires value.Some? ==> 0 !in value.value
    ensures PrintedValue(if value.Some? then Some(Utf8Text(value.value)) else None)
         == JsonGrammar.Written(ValueNode(value))
    ensures JsonGrammar.Wellformed(ValueNode(value)) && JsonGrammar.Nesting(ValueNode(value)) == 0
    ensures JsonGrammar.Meaning(ValueNode(value), 1) == if value.Some? then Str(Utf8Text(value.value)) else Other
  {
    hide Quoted, AllSpelled, Utf8Text, JsonGrammar.WrittenString, Spelt;
    if value.Some? {
      WholeText(value.value);
      PrintedString(value.value);
      PrintedText(value.value);
    } else {
      assert JsonGrammar.Ascii("null") == NULL_TEXT;
    }
  }

  lemma FirstPrinted(f: Field, others: seq<Field>)
    ensures PrintedFields([f] + others)
         == PrintedField(f) + (if others == [] then [] else [COMMA] + PrintedFields(others))
  {
    hide PrintedField;
    assert ([f] + others)[1..] == others;
  }

  lemma FirstWritten(name: seq<Char>, value: JsonGrammar.Node, more: JsonGrammar.Fields)
    ensures JsonGrammar.WrittenFields(JsonGrammar.Fields([], name, [], [], value, [], more))
         == JsonGrammar.WrittenString(name) + [COLON] + JsonGrammar.Written(value)
            + (if more.NoFields? then [] else [COMMA] + JsonGrammar.WrittenFields(more))
  {
    hide JsonGrammar.WrittenString, JsonGrammar.Written;
    assert JsonGrammar.Ascii(":") == [COLON] && JsonGrammar.Ascii(",") == [COMMA];
  }

  lemma FirstMeant(name: seq<Char>, value: JsonGrammar.Node, more: JsonGrammar.Fields)
    requires Spelt(name) && JsonGrammar.Wellformed(value) && JsonGrammar.WellformedFields(more)
    ensures var f := JsonGrammar.Fields([], name, [], [], value, [], more);
            && JsonGrammar.WellformedFields(f)
            && JsonGrammar.FieldsNesting(f)
               == JsonGrammar.Larger(JsonGrammar.Nesting(value), JsonGrammar.FieldsNesting(more))
            && JsonGrammar.Meanings(f, 1)
               == [Member(Utf8Text(ValuesOf(name)), JsonGrammar.Meaning(value, 1))] + JsonGrammar.Meanings(more, 1)
  {}

  lemma {:induction false} FieldsPrinted(entries: seq<Entry>)
    requires NoNuls(entries)
    ensures PrintedFields(FieldsOf(entries)) == JsonGrammar.WrittenFields(FieldNodes(entries))
    ensures JsonGrammar.WellformedFields(FieldNodes(entries)) && JsonGrammar.FieldsNesting(FieldNodes(entries)) == 0
    ensures JsonGrammar.Meanings(FieldNodes(entries), 1) == MembersOf(entries)
  {
    if entries != [] {
      hide Quoted, PrintedValue, AllSpelled, Utf8Text, ValueNode, Spelt, ValuesOf, PrintedFields;
      hide JsonGrammar.Written, JsonGrammar.WrittenString, JsonGrammar.Wellformed, JsonGrammar.Nesting;
      hide JsonGrammar.Meaning, JsonGrammar.WrittenFields, JsonGrammar.WellformedFields, JsonGrammar.Meanings;
      hide JsonGrammar.FieldsNesting;
      var e, more := entries[0], FieldNodes(entries[1..]);
      FieldsPrinted(entries[1..]);
      WholeText(e.name);
      PrintedString(e.name);
      PrintedText(e.name);
      ValuePrinted(e.value);
      FirstPrinted(FieldOf(e), FieldsOf(entries[1..]));
      FirstWritten(AllSpelled(e.name), ValueNode(e.value), more);
      FirstMeant(AllSpelled(e.name), ValueNode(e.value), more);
    }
  }

  /** The printed object of text names and values is a text of the grammar, and means its fields. */
  lemma PrintedIsJson(entries: seq<Entry>)
    requires NoNuls(entries)
    ensures var n := JsonGrammar.Object([], FieldNodes(entries));
            && JsonGrammar.Wellformed(n) && PrintedObject(FieldsOf(entries)) == JsonGrammar.Written(n)
            && JsonGrammar.Meaning(n, 0) == Obj(MembersOf(entries))
            && Document(PrintedObject(FieldsOf(entries))) == Some(Obj(MembersOf(entries)))
  {
    hide PrintedFields, JsonGrammar.WrittenFields, JsonGrammar.WellformedFields, MembersOf, FieldsOf, Document;
    FieldsPrinted(entries);
    var n := JsonGrammar.Object([], FieldNodes(entries));
    assert JsonGrammar.Ascii("{") == [OPEN_OBJECT] && JsonGrammar.Ascii("}") == [CLOSE_OBJECT];
    var text := JsonGrammar.Written(n);
    assert text == PrintedObject(FieldsOf(entries));
    JsonGrammar.TextReads(false, [], n, []);
    assert [] + [] + text + [] == text;
  }
}

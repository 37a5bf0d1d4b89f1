/** The request printer (euicc/src/es9p.rs), and that reading back what it prints gives the same
    members. */
module JsonPrinter {
  import opened Wrappers
  import opened Bytes
  import opened Json

  datatype Field = Field(name: bytes, value: Option<bytes>)

  function HexByte(n: int): byte
    requires 0 <= n < 16
  {
    if n < 10 then 0x30 + n else 0x61 + n - 10
  }

  function EscapedByte(b: byte): (r: bytes)
    ensures r != []
  {
    if b == QUOTE then [BACKSLASH, QUOTE]
    else if b == BACKSLASH then [BACKSLASH, BACKSLASH]
    else if b == 0x08 then [BACKSLASH, 0x62]
    else if b == 0x0C then [BACKSLASH, 0x66]
    else if b == 0x0A then [BACKSLASH, 0x6E]
    else if b == 0x0D then [BACKSLASH, 0x72]
    else if b == 0x09 then [BACKSLASH, 0x74]
    else if b <= 0x1F then [BACKSLASH, 0x75, 0x30, 0x30, HexByte(b / 16), HexByte(b % 16)]
    else [b]
  }

  function Escaped(s: bytes): bytes {
    if s == [] then [] else EscapedByte(s[0]) + Escaped(s[1..])
  }

  function Quoted(s: bytes): bytes {
    [QUOTE] + Escaped(s) + [QUOTE]
  }

  function PrintedValue(value: Option<bytes>): bytes {
    if value.Some? then Quoted(CutNul(value.value)) else NULL_TEXT
  }

  function PrintedField(f: Field): bytes {
    Quoted(CutNul(f.name)) + [COLON] + PrintedValue(f.value)
  }

  function PrintedFields(fields: seq<Field>): bytes {
    if fields == [] then []
    else if |fields| == 1 then PrintedField(fields[0])
    else PrintedField(fields[0]) + [COMMA] + PrintedFields(fields[1..])
  }

  function PrintedObject(fields: seq<Field>): bytes {
    [OPEN_OBJECT] + PrintedFields(fields) + [CLOSE_OBJECT]
  }

  // ---------------------------------------------------------------- the printer

  lemma {:induction false} EscapedAppend(a: bytes, b: bytes)
    ensures Escaped(a + b) == Escaped(a) + Escaped(b)
  {
    if a == [] {
      assert a + b == b;
    } else {
      assert (a + b)[1..] == a[1..] + b;
      EscapedAppend(a[1..], b);
      assert EscapedByte(a[0]) + (Escaped(a[1..]) + Escaped(b)) == EscapedByte(a[0]) + Escaped(a[1..]) + Escaped(b);
    }
  }

  method PrintString(out: bytes, s: bytes) returns (r: bytes)
    ensures r == out + Quoted(s)
  {
    hide EscapedByte;
    r := out + [QUOTE];
    assert s[..0] == [];
    for i := 0 to |s|
      invariant r == out + [QUOTE] + Escaped(s[..i])
    {
      var b := s[i];
      assert s[..i + 1] == s[..i] + [b];
      EscapedAppend(s[..i], [b]);
      assert Escaped([b]) == EscapedByte(b) + Escaped([]);
      r := r + EscapedByte(b);
    }
    assert s[..|s|] == s;
    r := r + [QUOTE];
  }

  lemma {:induction false} FieldsAppend(fields: seq<Field>, f: Field)
    ensures PrintedFields(fields + [f])
         == PrintedFields(fields) + (if fields == [] then [] else [COMMA]) + PrintedField(f)
  {
    if fields == [] {
      assert fields + [f] == [f];
    } else {
      assert (fields + [f])[1..] == fields[1..] + [f];
      FieldsAppend(fields[1..], f);
    }
  }

  method PrintField(out: bytes, f: Field) returns (r: bytes)
    ensures r == out + PrintedField(f)
  {
    r := PrintString(out, CutNul(f.name));
    r := r + [COLON];
    match f.value
    case Some(v) => r := PrintString(r, CutNul(v));
    case None => r := r + NULL_TEXT;
  }

  method PrintObject(fields: seq<Field>) returns (out: bytes)
    ensures out == PrintedObject(fields)
  {
    hide PrintedField;
    out := [OPEN_OBJECT];
    assert fields[..0] == [];
    for i := 0 to |fields|
      invariant out == [OPEN_OBJECT] + PrintedFields(fields[..i])
    {
      assert fields[..i + 1] == fields[..i] + [fields[i]];
      FieldsAppend(fields[..i], fields[i]);
      if i > 0 {
        out := out + [COMMA];
      }
      out := PrintField(out, fields[i]);
    }
    assert fields[..|fields|] == fields;
    out := out + [CLOSE_OBJECT];
  }

  // ---------------------------------------------------------------- reading back

  lemma SearchStep(t: bytes, at: nat)
    requires at < |t| && t[at] != QUOTE
    ensures FindQuote(t, at) == FindQuote(t, if t[at] == BACKSLASH then at + 2 else at + 1)
  {}

  /** The search for the closing quote steps over an escaped byte. */
  lemma StepOver(t: bytes, at: nat, b: byte)
    requires Holds(t, at, EscapedByte(b))
    ensures FindQuote(t, at) == FindQuote(t, at + |EscapedByte(b)|)
  {
    hide FindQuote;
    var e := EscapedByte(b);
    HoldsByte(t, at, e, 0);
    SearchStep(t, at);
    if |e| == 6 {
      for k := 2 to 6
        invariant FindQuote(t, at) == FindQuote(t, at + k)
      {
        HoldsByte(t, at, e, k);
        SearchStep(t, at + k);
      }
    }
  }

  /** The decoder turns a `\u00xx` escape back into its byte. */
  lemma DecodeControl(t: bytes, at: nat, end: nat, b: byte)
    requires b < 0x20 && |EscapedByte(b)| == 6 && Holds(t, at, EscapedByte(b)) && at + 6 <= end < |t|
    ensures EscapeAt(t, at, end) == Some(Escape([b], 6))
  {
    var e := EscapedByte(b);
    var s := t[at..end];
    assert s[..6] == e;
    assert t[at + 1] == s[1] == e[1];
    assert s[2..6] == e[2..6];
    HexRoundTrip(b, e[2..6]);
  }

  lemma HexRoundTrip(b: byte, h: bytes)
    requires b < 0x20 && h == [0x30, 0x30, HexByte(b / 16), HexByte(b % 16)]
    ensures Hex4(h) == b
  {}

  /** The decoder turns an escaped byte back into the byte. */
  lemma DecodeByte(t: bytes, at: nat, end: nat, b: byte)
    requires Holds(t, at, EscapedByte(b)) && at + |EscapedByte(b)| <= end < |t|
    ensures var rest := Decode(t, at + |EscapedByte(b)|, end);
            Decode(t, at, end) == if rest.None? then None else Some([b] + rest.value)
  {
    var e := EscapedByte(b);
    HoldsByte(t, at, e, 0);
    if |e| == 2 {
      HoldsByte(t, at, e, 1);
      assert EscapeAt(t, at, end) == Some(Escape([b], 2));
    } else if |e| == 6 {
      DecodeControl(t, at, end, b);
    }
  }

  lemma AtQuote(t: bytes, end: nat)
    requires end < |t| && t[end] == QUOTE
    ensures FindQuote(t, end) == Some(end) && Decode(t, end, end) == Some([])
  {}

  /** The search and the decoder agree on every escaped string. */
  lemma {:induction false} ReadEscaped(t: bytes, at: nat, s: bytes)
    requires Holds(t, at, Escaped(s) + [QUOTE])
    ensures var end := at + |Escaped(s)|;
            end < |t| && FindQuote(t, at) == Some(end) && Decode(t, at, end) == Some(s)
    decreases |s|
  {
    hide EscapedByte, FindQuote, Decode;
    HoldsParts(t, at, Escaped(s), [QUOTE]);
    HoldsByte(t, at + |Escaped(s)|, [QUOTE], 0);
    AtQuote(t, at + |Escaped(s)|);
    if s != [] {
      var e := EscapedByte(s[0]);
      assert Escaped(s) + [QUOTE] == e + (Escaped(s[1..]) + [QUOTE]);
      HoldsParts(t, at, e, Escaped(s[1..]) + [QUOTE]);
      ReadEscaped(t, at + |e|, s[1..]);
      StepOver(t, at, s[0]);
      DecodeByte(t, at, at + |Escaped(s)|, s[0]);
      assert [s[0]] + s[1..] == s;
    }
  }

  lemma ReadQuoted(t: bytes, at: nat, s: bytes)
    requires Holds(t, at, Quoted(s))
    ensures t[at] == QUOTE && StringAt(t, at) == Some(Text(s, at + |Quoted(s)|))
  {
    hide FindQuote, Decode, Escaped, EscapedByte;
    assert Quoted(s) == [QUOTE] + (Escaped(s) + [QUOTE]);
    HoldsParts(t, at, [QUOTE], Escaped(s) + [QUOTE]);
    HoldsByte(t, at, [QUOTE], 0);
    ReadEscaped(t, at + 1, s);
  }

  function ReadValue(value: Option<bytes>): Json {
    if value.Some? then Str(CutNul(value.value)) else Other
  }

  /** The members a printed object reads back as: each name and value up to its first NUL. */
  function ReadBack(fields: seq<Field>): seq<Member> {
    if fields == [] then []
    else [Member(CutNul(fields[0].name), ReadValue(fields[0].value))] + ReadBack(fields[1..])
  }

  lemma ReadPrintedValue(t: bytes, at: nat, value: Option<bytes>, depth: nat)
    requires Holds(t, at, PrintedValue(value))
    ensures Value(t, at, depth) == Some(Parsed(ReadValue(value), at + |PrintedValue(value)|))
  {
    if value.Some? {
      ReadQuoted(t, at, CutNul(value.value));
    } else {
      HoldsByte(t, at, NULL_TEXT, 0);
    }
  }

  /** A name, from its string and the colon after it. */
  lemma NameStep(t: bytes, at: nat, name: Text)
    requires at < |t| && t[at] == QUOTE && StringAt(t, at) == Some(name)
    requires name.next + 1 < |t| && t[name.next] == COLON && t[name.next + 1] > 32
    ensures NameAt(t, at) == Some(Text(name.text, name.next + 1))
  {
    assert SkipWs(t, name.next) == name.next && SkipWs(t, name.next + 1) == name.next + 1;
  }

  lemma ValueIsVisible(value: Option<bytes>)
    ensures PrintedValue(value) != [] && PrintedValue(value)[0] > 32
  {}

  lemma ReadName(t: bytes, at: nat, name: bytes, value: bytes) returns (text: Text)
    requires Holds(t, at, Quoted(CutNul(name)) + ([COLON] + value)) && value != [] && value[0] > 32
    ensures text == Text(CutNul(name), at + |Quoted(CutNul(name))| + 1)
    ensures NameAt(t, at) == Some(text) && Holds(t, text.next, value)
  {
    hide NameAt, StringAt, FindQuote, Decode, CutNul, Quoted, SkipWs;
    var quoted := Quoted(CutNul(name));
    HoldsParts(t, at, quoted, [COLON] + value);
    HoldsParts(t, at + |quoted|, [COLON], value);
    HoldsByte(t, at + |quoted|, [COLON], 0);
    ReadQuoted(t, at, CutNul(name));
    HoldsByte(t, at + |quoted| + 1, value, 0);
    NameStep(t, at, Text(CutNul(name), at + |quoted|));
    text := Text(CutNul(name), at + |quoted| + 1);
  }

  lemma ReadField(t: bytes, at: nat, f: Field, depth: nat) returns (name: Text)
    requires Holds(t, at, PrintedField(f))
    ensures NameAt(t, at) == Some(name) && name.text == CutNul(f.name) && name.next <= |t|
    ensures Value(t, name.next, depth) == Some(Parsed(ReadValue(f.value), at + |PrintedField(f)|))
  {
    hide Value, NameAt, StringAt, FindQuote, Decode, CutNul, PrintedValue, Quoted, ReadValue, SkipWs, Holds;
    var value := PrintedValue(f.value);
    assert PrintedField(f) == Quoted(CutNul(f.name)) + ([COLON] + value);
    ValueIsVisible(f.value);
    name := ReadName(t, at, f.name, value);
    HoldsInside(t, name.next, value);
    ReadPrintedValue(t, name.next, f.value, depth);
  }

  /** A member list, from its first member and what follows it. */
  lemma MembersStep(t: bytes, at: nat, depth: nat, name: Text, value: Parsed, list: Listed)
    requires at <= |t| && NameAt(t, at) == Some(name)
    requires name.next <= |t| && Value(t, name.next, depth) == Some(value)
    requires value.next <= |t| && MoreMembers(t, value.next, depth) == Some(list)
    ensures Members(t, at, depth) == Some(Listed([Member(name.text, value.value)] + list.members, list.next))
  {}

  lemma MoreStep(t: bytes, at: nat, depth: nat)
    requires at + 1 < |t| && t[at] == COMMA && t[at + 1] > 32
    ensures MoreMembers(t, at, depth) == Members(t, at + 1, depth)
  {
    assert SkipWs(t, at) == at && SkipWs(t, at + 1) == at + 1;
  }

  lemma RestCloses(t: bytes, at: nat, depth: nat)
    requires at < |t| && t[at] == CLOSE_OBJECT
    ensures MoreMembers(t, at, depth) == Some(Listed([], at + 1))
  {
    assert SkipWs(t, at) == at;
  }

  /** What follows a printed field. */
  function PrintedRest(fields: seq<Field>): bytes {
    if fields == [] then [CLOSE_OBJECT] else [COMMA] + (PrintedFields(fields) + [CLOSE_OBJECT])
  }

  lemma SplitFields(fields: seq<Field>)
    requires fields != []
    ensures PrintedFields(fields) + [CLOSE_OBJECT] == PrintedField(fields[0]) + PrintedRest(fields[1..])
    ensures |PrintedFields(fields)| + 1 == |PrintedField(fields[0])| + |PrintedRest(fields[1..])|
  {
    assert fields[1..] == [] <==> |fields| == 1;
  }

  lemma {:induction false} ReadRest(t: bytes, at: nat, fields: seq<Field>, depth: nat)
    requires Holds(t, at, PrintedRest(fields))
    ensures MoreMembers(t, at, depth) == Some(Listed(ReadBack(fields), at + |PrintedRest(fields)|))
    decreases |fields|, 1
  {
    hide Members, MoreMembers, Value, NameAt, PrintedFields;
    HoldsByte(t, at, PrintedRest(fields), 0);
    if fields == [] {
      RestCloses(t, at, depth);
    } else {
      HoldsParts(t, at, [COMMA], PrintedFields(fields) + [CLOSE_OBJECT]);
      StartsWithQuote(t, at + 1, fields);
      MoreStep(t, at, depth);
      ReadFields(t, at + 1, fields, depth);
    }
  }

  lemma {:induction false} ReadFields(t: bytes, at: nat, fields: seq<Field>, depth: nat)
    requires fields != [] && Holds(t, at, PrintedFields(fields) + [CLOSE_OBJECT])
    ensures Members(t, at, depth) == Some(Listed(ReadBack(fields), at + |PrintedFields(fields)| + 1))
    decreases |fields|, 0
  {
    hide Members, MoreMembers, Value, NameAt;
    var f, rest := fields[0], fields[1..];
    SplitFields(fields);
    HoldsParts(t, at, PrintedField(f), PrintedRest(rest));
    var name := ReadField(t, at, f, depth);
    ReadRest(t, at + |PrintedField(f)|, rest, depth);
    MembersStep(t, at, depth, name, Parsed(ReadValue(f.value), at + |PrintedField(f)|),
                Listed(ReadBack(rest), at + |PrintedField(f)| + |PrintedRest(rest)|));
  }

  lemma StartsWithQuote(t: bytes, at: nat, fields: seq<Field>)
    requires fields != [] && Holds(t, at, PrintedFields(fields) + [CLOSE_OBJECT])
    ensures t[at] == QUOTE && SkipWs(t, at) == at
  {
    HoldsByte(t, at, PrintedFields(fields) + [CLOSE_OBJECT], 0);
    assert PrintedField(fields[0])[0] == QUOTE;
  }

  lemma {:induction false} EscapedHasNoNul(s: bytes)
    ensures 0 !in Escaped(s)
  {
    if s != [] {
      EscapedHasNoNul(s[1..]);
    }
  }

  lemma {:induction false} PrintedHasNoNul(fields: seq<Field>)
    ensures 0 !in PrintedFields(fields)
  {
    if fields != [] {
      EscapedHasNoNul(CutNul(fields[0].name));
      if fields[0].value.Some? {
        EscapedHasNoNul(CutNul(fields[0].value.value));
      }
      assert 0 !in PrintedField(fields[0]);
      PrintedHasNoNul(fields[1..]);
    }
  }

  /** Reading what the printer printed gives back the fields, in order. */
  lemma PrintThenParse(fields: seq<Field>)
    ensures Document(PrintedObject(fields)) == Some(Obj(ReadBack(fields)))
  {
    hide Value, FindQuote, Decode, Members, NameAt, PrintedFields, ReadBack;
    var t := PrintedObject(fields);
    PrintedHasNoNul(fields);
    CutNulKeeps(t);
    var body := PrintedFields(fields) + [CLOSE_OBJECT];
    assert t == [OPEN_OBJECT] + body;
    assert Holds(t, 1, body);
    ReadObject(t, fields);
    assert TextStart(t) == 0;
  }

  lemma ReadObject(t: bytes, fields: seq<Field>)
    requires t != [] && t[0] == OPEN_OBJECT && Holds(t, 1, PrintedFields(fields) + [CLOSE_OBJECT])
    ensures Value(t, 0, 0).Some? && Value(t, 0, 0).value.value == Obj(ReadBack(fields))
  {
    hide Value, Members, PrintedFields, ReadBack;
    if fields == [] {
      NothingPrinted();
      HoldsByte(t, 1, PrintedFields(fields) + [CLOSE_OBJECT], 0);
      ReadEmptyObject(t);
    } else {
      StartsWithQuote(t, 1, fields);
      ReadFields(t, 1, fields, 1);
      ReadNonEmptyObject(t);
    }
  }

  lemma NothingPrinted()
    ensures PrintedFields([]) == [] && ReadBack([]) == []
  {}

  lemma ReadEmptyObject(t: bytes)
    requires |t| > 1 && t[0] == OPEN_OBJECT && t[1] == CLOSE_OBJECT
    ensures Value(t, 0, 0).Some? && Value(t, 0, 0).value.value == Obj([])
  {
    hide Members, Elements, NumberAt, StringAt, StartsWith;
    assert SkipWs(t, 1) == 1;
  }

  /** Inside the braces are the members, kept at the top. */
  lemma ReadNonEmptyObject(t: bytes)
    requires |t| > 1 && t[0] == OPEN_OBJECT && t[1] != CLOSE_OBJECT && SkipWs(t, 1) == 1
    requires Members(t, 1, 1).Some?
    ensures Value(t, 0, 0).Some? && Value(t, 0, 0).value.value == Obj(Members(t, 1, 1).value.members)
  {
    hide Elements, NumberAt, StringAt, StartsWith, NameAt, MoreMembers, SkipWs;
  }
}

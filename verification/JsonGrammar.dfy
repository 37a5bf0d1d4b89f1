/** The reader on texts that follow the JSON grammar (RFC 8259): each is read as what it means, down to
    the nesting limit, wherever blanks are put. */
module JsonGrammar {
  import opened Wrappers
  import opened Bytes
  import opened Json
  import opened JsonNumber
  import opened JsonStrings

  /** A value as it is written. `gap` is what an empty array or object holds. */
  datatype Node =
    | Literal(text: bytes)
    | Number(text: bytes)
    | Chars(chars: seq<Char>)
    | Array(gap: bytes, items: Items)
    | Object(gap: bytes, fields: Fields)

  /** Elements with the blanks before and after each. */
  datatype Items = NoItems | Items(before: bytes, item: Node, after: bytes, others: Items)

  datatype Fields =
    | NoFields
    | Fields(before: bytes, name: seq<Char>, colonBefore: bytes, colonAfter: bytes, value: Node, after: bytes,
             more: Fields)

  function Ascii(text: string): (r: bytes)
    requires forall i | 0 <= i < |text| :: text[i] < 128 as char
    ensures |r| == |text| && forall i | 0 <= i < |text| :: r[i] == text[i] as int
  {
    seq(|text|, i requires 0 <= i < |text| => text[i] as byte)
  }

  /** Spaces, tabs and line ends. */
  predicate Blank(t: bytes) {
    forall i | 0 <= i < |t| :: t[i] as char in {' ', '\t', '\n', '\r'}
  }

  /** A decimal number that begins with a minus sign or a digit. */
  ghost predicate NumberText(t: bytes) {
    Decimal(t) && t != [] && (t[0] as char == '-' || Digit(t[0]))
  }

  ghost predicate Wellformed(n: Node) {
    match n
    case Literal(text) => text == Ascii("null") || text == Ascii("true") || text == Ascii("false")
    case Number(text) => NumberText(text)
    case Chars(chars) => Spelt(chars)
    case Array(gap, items) => Blank(gap) && (items.Items? ==> gap == []) && WellformedItems(items)
    case Object(gap, fields) => Blank(gap) && (fields.Fields? ==> gap == []) && WellformedFields(fields)
  }

  ghost predicate WellformedItems(items: Items) {
    items.Items? ==>
      Blank(items.before) && Wellformed(items.item) && Blank(items.after) && WellformedItems(items.others)
  }

  ghost predicate WellformedFields(f: Fields) {
    f.Fields? ==>
      && Blank(f.before) && Spelt(f.name) && Blank(f.colonBefore) && Blank(f.colonAfter)
      && Wellformed(f.value) && Blank(f.after) && WellformedFields(f.more)
  }

  function Written(n: Node): bytes {
    match n
    case Literal(text) => text
    case Number(text) => text
    case Chars(chars) => WrittenString(chars)
    case Array(gap, items) => Ascii("[") + (gap + WrittenItems(items) + Ascii("]"))
    case Object(gap, fields) => Ascii("{") + (gap + WrittenFields(fields) + Ascii("}"))
  }

  function WrittenString(chars: seq<Char>): bytes {
    Ascii("\"") + TextOf(chars) + Ascii("\"")
  }

  function WrittenItems(items: Items): bytes
    decreases items, 0
  {
    match items
    case NoItems => []
    case Items(before, item, after, others) => before + (Written(item) + (after + AfterItem(others)))
  }

  function AfterItem(others: Items): bytes
    decreases others, 1
  {
    if others.NoItems? then [] else Ascii(",") + WrittenItems(others)
  }

  function WrittenFields(fields: Fields): bytes
    decreases fields, 0
  {
    match fields
    case NoFields => []
    case Fields(before, name, colonBefore, colonAfter, value, after, more) =>
      before + (WrittenString(name) + (colonBefore + (Ascii(":") + (colonAfter
      + (Written(value) + (after + AfterField(more)))))))
  }

  function AfterField(more: Fields): bytes
    decreases more, 1
  {
    if more.NoFields? then [] else Ascii(",") + WrittenFields(more)
  }

  /** How deep containers are nested. */
  function Nesting(n: Node): nat {
    match n
    case Array(_, items) => 1 + ItemsNesting(items)
    case Object(_, fields) => 1 + FieldsNesting(fields)
    case _ => 0
  }

  function ItemsNesting(items: Items): nat {
    if items.NoItems? then 0 else Larger(Nesting(items.item), ItemsNesting(items.others))
  }

  function FieldsNesting(fields: Fields): nat {
    if fields.NoFields? then 0 else Larger(Nesting(fields.value), FieldsNesting(fields.more))
  }

  function Larger(a: nat, b: nat): nat {
    if a < b then b else a
  }

  /** What a value inside `depth` containers means to the client: strings and the objects not too deep. */
  function Meaning(n: Node, depth: nat): Json {
    match n
    case Chars(chars) => Str(Utf8Text(ValuesOf(chars)))
    case Object(_, fields) => if depth < KEEP_DEPTH then Obj(Meanings(fields, depth + 1)) else Other
    case _ => Other
  }

  function Meanings(fields: Fields, depth: nat): seq<Member> {
    match fields
    case NoFields => []
    case Fields(_, name, _, _, value, _, more) =>
      [Member(Utf8Text(ValuesOf(name)), Meaning(value, depth))] + Meanings(more, depth)
  }

  // ---------------------------------------------------------------- blanks and single bytes

  lemma {:induction false} SkipBlank(s: bytes, i: nat, gap: bytes)
    requires Holds(s, i, gap) && Blank(gap)
    ensures SkipWs(s, i) == SkipWs(s, i + |gap|)
    decreases |gap|
  {
    if gap != [] {
      HoldsByte(s, i, gap, 0);
      HoldsParts(s, i, [gap[0]], gap[1..]);
      assert gap == [gap[0]] + gap[1..];
      SkipBlank(s, i + 1, gap[1..]);
    }
  }

  /** Up to something visible. */
  lemma SkipTo(s: bytes, i: nat, gap: bytes)
    requires Holds(s, i, gap) && Blank(gap) && i + |gap| < |s| && s[i + |gap|] > 32
    ensures SkipWs(s, i) == i + |gap|
  {
    SkipBlank(s, i, gap);
  }

  lemma OneByte(s: bytes, i: nat, c: char)
    requires c < 128 as char && Holds(s, i, Ascii([c]))
    ensures i < |s| && s[i] == c as int
  {
    HoldsByte(s, i, Ascii([c]), 0);
  }

  /** A value begins with something visible. */
  lemma Visible(n: Node)
    requires Wellformed(n)
    ensures Written(n) != [] && Written(n)[0] > 32
    ensures Written(n)[0] !in {CLOSE_ARRAY, CLOSE_OBJECT}
  {}

  /** No number goes on at `i`. */
  predicate Stops(s: bytes, i: nat) {
    i < |s| ==> !NumberChar(s[i])
  }

  // ---------------------------------------------------------------- single values

  lemma LiteralReads(s: bytes, i: nat, text: bytes, depth: nat)
    requires Wellformed(Literal(text)) && Holds(s, i, text)
    ensures Value(s, i, depth) == Some(Parsed(Other, i + |text|))
  {
    HoldsByte(s, i, text, 0);
    assert Ascii("null") == NULL_TEXT && Ascii("true") == TRUE_TEXT && Ascii("false") == FALSE_TEXT;
  }

  lemma NumberReads(s: bytes, i: nat, text: bytes, depth: nat)
    requires NumberText(text) && Holds(s, i, text) && Stops(s, i + |text|)
    ensures Value(s, i, depth) == Some(Parsed(Other, i + |text|))
  {
    hide NumberAt, Decimal;
    HoldsByte(s, i, text, 0);
    NumberLongest(s, i);
    var end := NumberAt(s, i).value;
    if end > i + |text| {
      DecimalChars(s[i..end]);
    }
  }

  lemma WrittenStringReads(s: bytes, i: nat, chars: seq<Char>)
    requires Spelt(chars) && Holds(s, i, WrittenString(chars))
    ensures i < |s| && s[i] == QUOTE
    ensures StringAt(s, i) == Some(Text(Utf8Text(ValuesOf(chars)), i + |WrittenString(chars)|))
  {
    hide StringAt, WrittenString, TextOf, Spelt, ValuesOf, Utf8Text, Holds;
    Quotes(chars);
    HoldsByte(s, i, WrittenString(chars), 0);
    StringReads(s, i, chars);
  }

  lemma Quotes(chars: seq<Char>)
    ensures WrittenString(chars) == [QUOTE] + TextOf(chars) + [QUOTE]
  {
    hide TextOf;
    assert Ascii("\"") == [QUOTE];
  }

  /** How a value goes on after its first byte. */
  lemma ValueStep(s: bytes, i: nat, depth: nat)
    requires i < |s|
    ensures s[i] == QUOTE ==>
              var text := StringAt(s, i);
              Value(s, i, depth)
              == if text.None? then None else Some(Parsed(Str(text.value.text), text.value.next))
    ensures s[i] == OPEN_ARRAY ==>
              var j := SkipWs(s, i + 1);
              Value(s, i, depth)
              == if depth >= NESTING_LIMIT then None
                 else if j < |s| && s[j] == CLOSE_ARRAY then Some(Parsed(Other, j + 1))
                 else if Elements(s, j, depth + 1).None? then None
                 else Some(Parsed(Other, Elements(s, j, depth + 1).value))
    ensures s[i] == OPEN_OBJECT ==>
              var j := SkipWs(s, i + 1);
              Value(s, i, depth)
              == if depth >= NESTING_LIMIT then None
                 else if j < |s| && s[j] == CLOSE_OBJECT then Some(Parsed(Kept(depth, []), j + 1))
                 else
                   var list := Members(s, j, depth + 1);
                   if list.None? then None else Some(Parsed(Kept(depth, list.value.members), list.value.next))
  {
    hide StringAt, SkipWs, Elements, Members, NumberAt, StartsWith;
  }

  lemma CharsRead(s: bytes, i: nat, chars: seq<Char>, depth: nat)
    requires Spelt(chars) && Holds(s, i, WrittenString(chars))
    ensures Value(s, i, depth) == Some(Parsed(Str(Utf8Text(ValuesOf(chars))), i + |WrittenString(chars)|))
  {
    hide StringAt, Value, WrittenString, Utf8Text, ValuesOf, Holds;
    WrittenStringReads(s, i, chars);
    ValueStep(s, i, depth);
  }

  // ---------------------------------------------------------------- arrays

  /** Nothing of a number follows a value inside a container. */
  lemma BlankOrStop(s: bytes, i: nat, gap: bytes)
    requires Holds(s, i, gap) && Blank(gap) && i + |gap| < |s|
    requires s[i + |gap|] in {COMMA, CLOSE_ARRAY, CLOSE_OBJECT}
    ensures Stops(s, i) && SkipWs(s, i) == i + |gap|
  {
    if gap != [] {
      HoldsByte(s, i, gap, 0);
    }
    SkipTo(s, i, gap);
  }

  lemma ItemParts(s: bytes, i: nat, items: Items)
    requires items.Items? && Holds(s, i, WrittenItems(items))
    ensures var j := i + |items.before|; var k := j + |Written(items.item)|; var m := k + |items.after|;
            && Holds(s, i, items.before) && Holds(s, j, Written(items.item)) && Holds(s, k, items.after)
            && Holds(s, m, AfterItem(items.others)) && i + |WrittenItems(items)| == m + |AfterItem(items.others)|
  {
    hide Written, AfterItem;
    var item, rest := Written(items.item), AfterItem(items.others);
    HoldsParts(s, i, items.before, item + (items.after + rest));
    HoldsParts(s, i + |items.before|, item, items.after + rest);
    HoldsParts(s, i + |items.before| + |item|, items.after, rest);
  }

  lemma AfterItemIs(s: bytes, m: nat, others: Items)
    requires Holds(s, m, AfterItem(others)) && m + |AfterItem(others)| < |s|
    ensures if others.NoItems? then AfterItem(others) == []
            else s[m] == COMMA && Holds(s, m + 1, WrittenItems(others))
                 && |AfterItem(others)| == 1 + |WrittenItems(others)|
  {
    hide WrittenItems;
    if others.Items? {
      HoldsParts(s, m, Ascii(","), WrittenItems(others));
      OneByte(s, m, ',');
    }
  }

  lemma MoreElementsStep(s: bytes, k: nat, depth: nat, m: nat)
    requires k <= |s| && SkipWs(s, k) == m < |s|
    ensures s[m] == COMMA ==> MoreElements(s, k, depth) == Elements(s, SkipWs(s, m + 1), depth)
    ensures s[m] == CLOSE_ARRAY ==> MoreElements(s, k, depth) == Some(m + 1)
  {
    hide SkipWs, Elements;
  }

  lemma {:induction false} ItemsRead(s: bytes, i: nat, items: Items, depth: nat)
    requires items.Items? && WellformedItems(items) && Holds(s, i, WrittenItems(items)) && depth <= NESTING_LIMIT
    requires i + |WrittenItems(items)| < |s| && s[i + |WrittenItems(items)|] == CLOSE_ARRAY
    ensures Elements(s, SkipWs(s, i), depth)
         == if depth + ItemsNesting(items) <= NESTING_LIMIT then Some(i + |WrittenItems(items)| + 1) else None
    decreases items, 0
  {
    hide Holds, Blank, SkipWs, Value, Written, WrittenItems, AfterItem, Wellformed, Nesting, NumberChar, MoreElements;
    var j := i + |items.before|;
    var k := j + |Written(items.item)|;
    var m := k + |items.after|;
    ItemParts(s, i, items);
    Visible(items.item);
    HoldsByte(s, j, Written(items.item), 0);
    SkipTo(s, i, items.before);
    AfterItemIs(s, m, items.others);
    BlankOrStop(s, k, items.after);
    NodeReads(s, j, items.item, depth);
    MoreElementsStep(s, k, depth, m);
    if items.others.Items? {
      ItemsRead(s, m + 1, items.others, depth);
    }
  }

  lemma ArrayParts(s: bytes, i: nat, gap: bytes, inner: bytes, open: char, close: char)
    requires open < 128 as char && close < 128 as char
    requires Holds(s, i, Ascii([open]) + (gap + inner + Ascii([close])))
    ensures var end := i + 1 + |gap| + |inner|;
            && s[i] == open as int && Holds(s, i + 1, gap) && Holds(s, i + 1 + |gap|, inner)
            && end < |s| && s[end] == close as int
  {
    hide Ascii;
    HoldsParts(s, i, Ascii([open]), gap + inner + Ascii([close]));
    HoldsParts(s, i + 1, gap + inner, Ascii([close]));
    HoldsParts(s, i + 1, gap, inner);
    OneByte(s, i, open);
    OneByte(s, i + 1 + |gap| + |inner|, close);
  }

  lemma {:induction false} ArrayReads(s: bytes, i: nat, gap: bytes, items: Items, depth: nat)
    requires var n := Array(gap, items); Wellformed(n) && Holds(s, i, Written(n)) && depth <= NESTING_LIMIT
    ensures var n := Array(gap, items);
            Value(s, i, depth)
            == if depth + Nesting(n) <= NESTING_LIMIT then Some(Parsed(Other, i + |Written(n)|)) else None
    decreases items, 2
  {
    hide Holds, Blank, SkipWs, WrittenItems, Value, Elements;
    ArrayParts(s, i, gap, WrittenItems(items), '[', ']');
    ValueStep(s, i, depth);
    if items.NoItems? {
      Empty(items);
      SkipTo(s, i + 1, gap);
    } else {
      ItemStarts(s, i + 1, items);
      if depth < NESTING_LIMIT {
        ItemsRead(s, i + 1, items, depth + 1);
      }
    }
  }

  lemma Empty(items: Items)
    requires items.NoItems?
    ensures WrittenItems(items) == []
  {}

  /** What opens an array with elements is not its end. */
  lemma ItemStarts(s: bytes, i: nat, items: Items)
    requires items.Items? && WellformedItems(items) && Holds(s, i, WrittenItems(items))
    ensures SkipWs(s, i) < |s| && s[SkipWs(s, i)] != CLOSE_ARRAY
  {
    hide Holds, Blank, SkipWs, Written, WrittenItems, AfterItem, Wellformed;
    ItemParts(s, i, items);
    Visible(items.item);
    HoldsByte(s, i + |items.before|, Written(items.item), 0);
    SkipTo(s, i, items.before);
  }

  lemma {:induction false} NodeReads(s: bytes, i: nat, n: Node, depth: nat)
    requires Wellformed(n) && Holds(s, i, Written(n)) && Stops(s, i + |Written(n)|) && depth <= NESTING_LIMIT
    ensures Value(s, i, depth)
         == if depth + Nesting(n) <= NESTING_LIMIT then Some(Parsed(Meaning(n, depth), i + |Written(n)|)) else None
    decreases n, 1
  {
    hide Value, Holds;
    match n
    case Literal(text) => LiteralReads(s, i, text, depth);
    case Number(text) => NumberReads(s, i, text, depth);
    case Chars(chars) => CharsRead(s, i, chars, depth);
    case Array(gap, items) => ArrayReads(s, i, gap, items, depth);
    case Object(gap, fields) => ObjectReads(s, i, gap, fields, depth);
  }

  // ---------------------------------------------------------------- objects

  lemma {:induction false} ObjectReads(s: bytes, i: nat, gap: bytes, fields: Fields, depth: nat)
    requires var n := Object(gap, fields); Wellformed(n) && Holds(s, i, Written(n)) && depth <= NESTING_LIMIT
    ensures var n := Object(gap, fields);
            Value(s, i, depth)
            == if depth + Nesting(n) <= NESTING_LIMIT then Some(Parsed(Meaning(n, depth), i + |Written(n)|)) else None
    decreases fields, 2
  {
    ObjectIs(gap, fields, depth);
    hide Holds, Blank, SkipWs, WrittenFields, Value, Members, Written, Nesting, Meaning, Meanings, Wellformed, Ascii;
    ArrayParts(s, i, gap, WrittenFields(fields), '{', '}');
    ValueStep(s, i, depth);
    if fields.NoFields? {
      NoneWritten(fields);
      SkipTo(s, i + 1, gap);
    } else {
      FieldStarts(s, i + 1, fields);
      if depth < NESTING_LIMIT {
        FieldsRead(s, i + 1, fields, depth + 1);
      }
    }
  }

  lemma ObjectIs(gap: bytes, fields: Fields, depth: nat)
    ensures var n := Object(gap, fields);
            && Written(n) == Ascii("{") + (gap + WrittenFields(fields) + Ascii("}"))
            && |Written(n)| == 2 + |gap| + |WrittenFields(fields)|
            && Nesting(n) == 1 + FieldsNesting(fields) && Meaning(n, depth) == Kept(depth, Meanings(fields, depth + 1))
    ensures fields.NoFields? ==> FieldsNesting(fields) == 0 && Meanings(fields, depth + 1) == []
    ensures Wellformed(Object(gap, fields)) ==>
              Blank(gap) && (fields.Fields? ==> gap == []) && WellformedFields(fields)
  {
    hide WrittenFields, WellformedFields, Blank;
  }

  lemma NoneWritten(fields: Fields)
    requires fields.NoFields?
    ensures WrittenFields(fields) == []
  {}

  function ValueStart(i: nat, f: Fields): nat
    requires f.Fields?
  {
    i + |f.before| + |WrittenString(f.name)| + |f.colonBefore| + 1 + |f.colonAfter|
  }

  /** What a member is written as from its colon on. */
  function FromColon(f: Fields): bytes
    requires f.Fields?
  {
    Ascii(":") + (f.colonAfter + (Written(f.value) + (f.after + AfterField(f.more))))
  }

  lemma NameParts(s: bytes, i: nat, f: Fields)
    requires f.Fields? && Holds(s, i, WrittenFields(f))
    ensures var name := i + |f.before|; var colon := name + |WrittenString(f.name)| + |f.colonBefore|;
            && Holds(s, i, f.before) && Holds(s, name, WrittenString(f.name))
            && Holds(s, name + |WrittenString(f.name)|, f.colonBefore) && Holds(s, colon, FromColon(f))
            && i + |WrittenFields(f)| == colon + |FromColon(f)|
  {
    hide Written, AfterField, WrittenString, Ascii, Holds;
    var name, rest := WrittenString(f.name), FromColon(f);
    HoldsParts(s, i, f.before, name + (f.colonBefore + rest));
    HoldsParts(s, i + |f.before|, name, f.colonBefore + rest);
    HoldsParts(s, i + |f.before| + |name|, f.colonBefore, rest);
  }

  lemma ColonParts(s: bytes, colon: nat, f: Fields)
    requires f.Fields? && Holds(s, colon, FromColon(f))
    ensures colon < |s| && s[colon] == COLON && Holds(s, colon + 1, f.colonAfter)
    ensures var j := colon + 1 + |f.colonAfter|; var k := j + |Written(f.value)|; var m := k + |f.after|;
            && Holds(s, j, Written(f.value)) && Holds(s, k, f.after) && Holds(s, m, AfterField(f.more))
            && colon + |FromColon(f)| == m + |AfterField(f.more)|
  {
    hide Written, AfterField, Ascii, Holds;
    var value, rest := Written(f.value), AfterField(f.more);
    HoldsParts(s, colon, Ascii(":"), f.colonAfter + (value + (f.after + rest)));
    OneByte(s, colon, ':');
    HoldsParts(s, colon + 1, f.colonAfter, value + (f.after + rest));
    HoldsParts(s, colon + 1 + |f.colonAfter|, value, f.after + rest);
    HoldsParts(s, colon + 1 + |f.colonAfter| + |value|, f.after, rest);
  }

  lemma FieldParts(s: bytes, i: nat, f: Fields)
    requires f.Fields? && Holds(s, i, WrittenFields(f))
    ensures var name := i + |f.before|; var colon := name + |WrittenString(f.name)| + |f.colonBefore|;
            && Holds(s, i, f.before) && Holds(s, name, WrittenString(f.name))
            && Holds(s, name + |WrittenString(f.name)|, f.colonBefore)
            && colon < |s| && s[colon] == COLON && Holds(s, colon + 1, f.colonAfter)
    ensures var j := ValueStart(i, f); var k := j + |Written(f.value)|; var m := k + |f.after|;
            && Holds(s, j, Written(f.value)) && Holds(s, k, f.after) && Holds(s, m, AfterField(f.more))
            && i + |WrittenFields(f)| == m + |AfterField(f.more)|
  {
    hide Written, AfterField, WrittenString, WrittenFields, FromColon, Holds;
    NameParts(s, i, f);
    ColonParts(s, i + |f.before| + |WrittenString(f.name)| + |f.colonBefore|, f);
  }

  lemma AfterFieldIs(s: bytes, m: nat, more: Fields)
    requires Holds(s, m, AfterField(more)) && m + |AfterField(more)| < |s|
    ensures if more.NoFields? then AfterField(more) == []
            else s[m] == COMMA && Holds(s, m + 1, WrittenFields(more))
                 && |AfterField(more)| == 1 + |WrittenFields(more)|
  {
    hide WrittenFields;
    if more.Fields? {
      HoldsParts(s, m, Ascii(","), WrittenFields(more));
      OneByte(s, m, ',');
    }
  }

  lemma NameGoesOn(s: bytes, j: nat, text: Text, colon: nat)
    requires j < |s| && s[j] == QUOTE && StringAt(s, j) == Some(text) && text.next <= |s|
    requires SkipWs(s, text.next) == colon < |s| && s[colon] == COLON
    ensures NameAt(s, j) == Some(Text(text.text, SkipWs(s, colon + 1)))
  {
    hide StringAt, SkipWs;
  }

  /** Blanks, the name, its colon and the blanks around it. */
  lemma NameReads(s: bytes, i: nat, f: Fields)
    requires f.Fields? && WellformedFields(f) && Holds(s, i, WrittenFields(f))
    ensures var j := SkipWs(s, i);
            && j < |s| && s[j] == QUOTE
            && NameAt(s, j) == Some(Text(Utf8Text(ValuesOf(f.name)), ValueStart(i, f)))
  {
    hide Holds, Blank, SkipWs, Written, WrittenFields, AfterField, Wellformed, StringAt, WrittenString, NameAt;
    hide Utf8Text, ValuesOf, Spelt;
    FieldParts(s, i, f);
    var name := i + |f.before|;
    var colon := name + |WrittenString(f.name)| + |f.colonBefore|;
    WrittenStringReads(s, name, f.name);
    SkipTo(s, i, f.before);
    SkipTo(s, name + |WrittenString(f.name)|, f.colonBefore);
    Visible(f.value);
    HoldsByte(s, ValueStart(i, f), Written(f.value), 0);
    SkipTo(s, colon + 1, f.colonAfter);
    NameGoesOn(s, name, StringAt(s, name).value, colon);
  }

  lemma MembersStep(s: bytes, j: nat, depth: nat, name: Text)
    requires j <= |s| && NameAt(s, j) == Some(name) && name.next <= |s|
    ensures var value := Value(s, name.next, depth);
            Members(s, j, depth)
            == if value.None? || MoreMembers(s, value.value.next, depth).None? then None
               else
                 var rest := MoreMembers(s, value.value.next, depth).value;
                 Some(Listed([Member(name.text, value.value.value)] + rest.members, rest.next))
  {
    hide NameAt, Value, MoreMembers;
  }

  lemma MoreMembersStep(s: bytes, k: nat, depth: nat, m: nat)
    requires k <= |s| && SkipWs(s, k) == m < |s|
    ensures s[m] == COMMA ==> MoreMembers(s, k, depth) == Members(s, SkipWs(s, m + 1), depth)
    ensures s[m] == CLOSE_OBJECT ==> MoreMembers(s, k, depth) == Some(Listed([], m + 1))
  {
    hide SkipWs, Members;
  }

  lemma FieldStarts(s: bytes, i: nat, f: Fields)
    requires f.Fields? && WellformedFields(f) && Holds(s, i, WrittenFields(f))
    ensures SkipWs(s, i) < |s| && s[SkipWs(s, i)] != CLOSE_OBJECT
  {
    hide WellformedFields, WrittenFields, SkipWs, NameAt;
    NameReads(s, i, f);
  }

  lemma {:induction false} FieldsRead(s: bytes, i: nat, f: Fields, depth: nat)
    requires f.Fields? && WellformedFields(f) && Holds(s, i, WrittenFields(f)) && depth <= NESTING_LIMIT
    requires i + |WrittenFields(f)| < |s| && s[i + |WrittenFields(f)|] == CLOSE_OBJECT
    ensures Members(s, SkipWs(s, i), depth)
         == if depth + FieldsNesting(f) <= NESTING_LIMIT
            then Some(Listed(Meanings(f, depth), i + |WrittenFields(f)| + 1)) else None
    decreases f, 0
  {
    hide Holds, Blank, SkipWs, Value, Written, WrittenFields, AfterField, Wellformed, Nesting, NumberChar, NameAt;
    hide ValueStart, Meaning, Members, MoreMembers, ValuesOf, Utf8Text;
    var j := ValueStart(i, f);
    var k := j + |Written(f.value)|;
    var m := k + |f.after|;
    FieldParts(s, i, f);
    NameReads(s, i, f);
    AfterFieldIs(s, m, f.more);
    BlankOrStop(s, k, f.after);
    NodeReads(s, j, f.value, depth);
    MembersStep(s, SkipWs(s, i), depth, Text(Utf8Text(ValuesOf(f.name)), j));
    MoreMembersStep(s, k, depth, m);
    if f.more.Fields? {
      FieldsRead(s, m + 1, f.more, depth);
    }
  }

  // ---------------------------------------------------------------- whole texts

  lemma BlankNoNul(t: bytes)
    requires Blank(t)
    ensures 0 !in t
  {}

  lemma SpellingNoNul(t: bytes, v: nat)
    requires Spells(t, v)
    ensures 0 !in t
  {
    hide UnicodeEscape, ReadOne;
    if Plain(t, v) {
      OnlyUtf8(t, v);
    } else if UnicodeEscape(t, v) {
      EscapeNoNul(t, v);
    } else if SurrogatePair(t, v) {
      EscapeNoNul(t[..6], 0xD800 + (v - 0x10000) / 0x400);
      EscapeNoNul(t[6..], 0xDC00 + (v - 0x10000) % 0x400);
      assert t == t[..6] + t[6..];
    }
  }

  lemma EscapeNoNul(t: bytes, v: nat)
    requires UnicodeEscape(t, v)
    ensures 0 !in t
  {
    hide HexFor;
    DigitRead(t[2], v / 4096);
    DigitRead(t[3], v / 256 % 16);
    DigitRead(t[4], v / 16 % 16);
    DigitRead(t[5], v % 16);
    assert t[2..][0] == t[2] && t[2..][1] == t[3] && t[2..][2] == t[4] && t[2..][3] == t[5];
  }

  lemma {:induction false} TextNoNul(chars: seq<Char>)
    requires Spelt(chars)
    ensures 0 !in TextOf(chars)
  {
    if chars != [] {
      assert Spells(chars[0].text, chars[0].value);
      SpellingNoNul(chars[0].text, chars[0].value);
      TextNoNul(chars[1..]);
    }
  }

  lemma StringNoNul(chars: seq<Char>)
    requires Spelt(chars)
    ensures 0 !in WrittenString(chars)
  {
    hide TextOf, Spelt;
    TextNoNul(chars);
    Quotes(chars);
  }

  lemma {:induction false} NodeNoNul(n: Node)
    requires Wellformed(n)
    ensures 0 !in Written(n)
    decreases n, 1
  {
    match n
    case Literal(_) =>
    case Number(text) => DecimalChars(text);
    case Chars(chars) => StringNoNul(chars);
    case Array(gap, items) => ItemsNoNul(items);
    case Object(gap, fields) => FieldsNoNul(fields);
  }

  lemma {:induction false} ItemsNoNul(items: Items)
    requires WellformedItems(items)
    ensures 0 !in WrittenItems(items)
    decreases items, 0
  {
    if items.Items? {
      NodeNoNul(items.item);
      ItemsNoNul(items.others);
    }
  }

  lemma {:induction false} FieldsNoNul(f: Fields)
    requires WellformedFields(f)
    ensures 0 !in WrittenFields(f)
    decreases f, 0
  {
    if f.Fields? {
      hide Spelt, WrittenString, Written, Wellformed, Blank;
      StringNoNul(f.name);
      NodeNoNul(f.value);
      FieldsNoNul(f.more);
      BlankNoNul(f.before);
      BlankNoNul(f.colonBefore);
      BlankNoNul(f.colonAfter);
      BlankNoNul(f.after);
    }
  }

  lemma {:induction false} CutAfter(a: bytes, b: bytes)
    requires 0 !in a
    ensures CutNul(a + b) == a + CutNul(b)
  {
    if a == [] {
      assert a + b == b && a + CutNul(b) == CutNul(b);
    } else {
      CutAfter(a[1..], b);
      assert (a + b)[1..] == a[1..] + b;
      assert a + CutNul(b) == [a[0]] + (a[1..] + CutNul(b));
    }
  }

  /** Every text of the grammar, after an optional byte-order mark and blanks, is read as what it means,
      or refused if its containers are nested too deep; what follows it is ignored. */
  lemma TextReads(bom: bool, before: bytes, n: Node, after: bytes)
    requires Blank(before) && Wellformed(n) && (after != [] ==> !NumberChar(after[0]))
    ensures Document((if bom then BOM else []) + before + Written(n) + after)
         == if Nesting(n) <= NESTING_LIMIT then Some(Meaning(n, 0)) else None
  {
    hide Value, Written, Wellformed, Holds, CutNul, TextStart, NumberChar, Blank;
    var text := (if bom then BOM else []) + before + Written(n);
    NodeNoNul(n);
    BlankNoNul(before);
    CutAfter(text, after);
    CutFirst(after);
    TextPlaced(bom, before, n, CutNul(after));
    NodeReads(text + CutNul(after), (if bom then 3 else 0) + |before|, n, 0);
  }

  lemma TextPlaced(bom: bool, before: bytes, n: Node, rest: bytes)
    requires Blank(before) && Wellformed(n)
    ensures var s := (if bom then BOM else []) + before + Written(n) + rest;
            var i := (if bom then 3 else 0) + |before|;
            TextStart(s) == i && Holds(s, i, Written(n))
  {
    hide Written, Wellformed, Holds, SkipWs, StartsWith, Blank;
    var mark := if bom then BOM else [];
    var text := mark + before + Written(n);
    var s := text + rest;
    Visible(n);
    HoldsFront(text, rest);
    HoldsParts(s, 0, mark + before, Written(n));
    HoldsParts(s, 0, mark, before);
    HoldsByte(s, |mark| + |before|, Written(n), 0);
    SkipTo(s, |mark|, before);
    MarkSeen(s, bom, before, n);
  }

  lemma HoldsFront(text: bytes, rest: bytes)
    ensures Holds(text + rest, 0, text)
  {}

  lemma CutFirst(after: bytes)
    ensures CutNul(after) == [] || (after != [] && CutNul(after)[0] == after[0])
  {}

  lemma MarkSeen(s: bytes, bom: bool, before: bytes, n: Node)
    requires Blank(before) && Wellformed(n)
    requires var mark := if bom then BOM else []; Holds(s, 0, mark + before + Written(n))
    ensures StartsWith(s, 0, BOM) <==> bom
  {
    hide Wellformed, Written;
    Visible(n);
    FirstAscii(n);
    var mark := if bom then BOM else [];
    HoldsParts(s, 0, mark + before, Written(n));
    HoldsParts(s, 0, mark, before);
    if !bom {
      HoldsByte(s, |before|, Written(n), 0);
      if before != [] {
        HoldsByte(s, 0, before, 0);
      }
    }
  }

  lemma FirstAscii(n: Node)
    requires Wellformed(n)
    ensures Written(n) != [] && Written(n)[0] < 0x80
  {}
}

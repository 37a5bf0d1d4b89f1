/** What the reader accepts and what it refuses: any value it accepts is written in a grammar that is
    JSON's but for its blanks, numbers and strings, so no bracket, comma, colon or word is ever missing
    or misplaced. */
module JsonLenient {
  import opened Wrappers
  import opened Bytes
  import opened Json
  import opened JsonNumber
  import opened JsonStrings
  import opened JsonGrammar

  /** A value as it is written; a string is its text with the quotes. */
  datatype Tree =
    | Word(text: bytes)
    | Decimals(text: bytes)
    | String(text: bytes)
    | List(gap: bytes, elements: Trees)
    | Record(gap: bytes, entries: Entries)

  datatype Trees = NoTrees | Trees(before: bytes, tree: Tree, after: bytes, rest: Trees)

  datatype Entries =
    | NoEntries
    | Entries(before: bytes, name: bytes, colonBefore: bytes, colonAfter: bytes, tree: Tree, after: bytes,
              rest: Entries)

  /** Blanks: anything up to a space. */
  predicate Gap(t: bytes) {
    forall i | 0 <= i < |t| :: t[i] <= 32
  }

  /** A string that is read to its last byte, the closing quote. */
  predicate StringText(t: bytes) {
    t != [] && t[0] == QUOTE && StringAt(t, 0).Some? && StringAt(t, 0).value.next == |t|
  }

  function StringValue(t: bytes): bytes {
    if StringText(t) then StringAt(t, 0).value.text else []
  }

  ghost predicate Loose(t: Tree) {
    match t
    case Word(text) => text == Ascii("null") || text == Ascii("true") || text == Ascii("false")
    case Decimals(text) => NumberText(text)
    case String(text) => StringText(text)
    case List(gap, elements) => Gap(gap) && (elements.Trees? ==> gap == []) && LooseTrees(elements)
    case Record(gap, entries) => Gap(gap) && (entries.Entries? ==> gap == []) && LooseEntries(entries)
  }

  ghost predicate LooseTrees(e: Trees) {
    e.Trees? ==> Gap(e.before) && Loose(e.tree) && Gap(e.after) && LooseTrees(e.rest)
  }

  ghost predicate LooseEntries(e: Entries) {
    e.Entries? ==>
      && Gap(e.before) && StringText(e.name) && Gap(e.colonBefore) && Gap(e.colonAfter)
      && Loose(e.tree) && Gap(e.after) && LooseEntries(e.rest)
  }

  function Spelling(t: Tree): bytes {
    match t
    case Word(text) => text
    case Decimals(text) => text
    case String(text) => text
    case List(gap, elements) => [OPEN_ARRAY] + (gap + SpelledTrees(elements) + [CLOSE_ARRAY])
    case Record(gap, entries) => [OPEN_OBJECT] + (gap + SpelledEntries(entries) + [CLOSE_OBJECT])
  }

  function SpelledTrees(e: Trees): bytes {
    match e
    case NoTrees => []
    case Trees(before, tree, after, rest) =>
      before + (Spelling(tree) + (after + (if rest.NoTrees? then [] else [COMMA] + SpelledTrees(rest))))
  }

  function SpelledEntries(e: Entries): bytes {
    match e
    case NoEntries => []
    case Entries(before, name, colonBefore, colonAfter, tree, after, rest) =>
      before + (name + (colonBefore + ([COLON] + (colonAfter
      + (Spelling(tree) + (after + (if rest.NoEntries? then [] else [COMMA] + SpelledEntries(rest))))))))
  }

  function Meant(t: Tree, depth: nat): Json {
    match t
    case String(text) => Str(StringValue(text))
    case Record(_, entries) => Kept(depth, MeantEntries(entries, depth + 1))
    case _ => Other
  }

  function MeantEntries(e: Entries, depth: nat): seq<Member> {
    match e
    case NoEntries => []
    case Entries(_, name, _, _, tree, _, rest) =>
      [Member(StringValue(name), Meant(tree, depth))] + MeantEntries(rest, depth)
  }

  // ---------------------------------------------------------------- places in a text

  /** A part of a text is what the text holds there. */
  lemma PartHeld(s: bytes, i: nat, j: nat)
    requires i <= j <= |s|
    ensures Holds(s, i, s[i..j]) && |s[i..j]| == j - i
  {}

  lemma Joins(s: bytes, i: nat, a: bytes, b: bytes)
    requires Holds(s, i, a) && Holds(s, i + |a|, b)
    ensures Holds(s, i, a + b)
  {
    var j := i + |a| + |b|;
    assert s[i..j] == s[i..i + |a|] + s[i + |a|..j];
  }

  lemma ByteHeld(s: bytes, i: nat, b: byte)
    requires i < |s| && s[i] == b
    ensures Holds(s, i, [b])
  {}

  lemma {:induction false} GapSkipped(s: bytes, i: nat)
    requires i <= |s|
    ensures Gap(s[i..SkipWs(s, i)]) && (SkipWs(s, i) < |s| ==> s[SkipWs(s, i)] > 32)
    decreases |s| - i
  {
    if i < |s| && s[i] <= 32 {
      GapSkipped(s, i + 1);
      var j := SkipWs(s, i);
      assert s[i..j] == [s[i]] + s[i + 1..j];
    }
  }

  // ---------------------------------------------------------------- a string on its own

  lemma {:induction false} QuoteAlone(s: bytes, i: nat, at: nat, end: nat)
    requires i <= at && FindQuote(s, at) == Some(end)
    ensures at <= end < |s| && FindQuote(s[i..end + 1], at - i) == Some(end - i)
    decreases |s| - at
  {
    var t := s[i..end + 1];
    if s[at] != QUOTE {
      QuoteAlone(s, i, if s[at] == BACKSLASH then at + 2 else at + 1, end);
      assert t[at - i] == s[at];
    }
  }

  lemma EscapeAlone(s: bytes, i: nat, at: nat, end: nat)
    requires i <= at < end < |s|
    ensures EscapeAt(s[i..end + 1], at - i, end - i) == EscapeAt(s, at, end)
  {
    hide Utf16;
    var t := s[i..end + 1];
    assert t[at - i + 1] == s[at + 1];
    Slice(s, i, end + 1, at - i, end - i);
  }

  lemma {:induction false} DecodeAlone(s: bytes, i: nat, at: nat, end: nat)
    requires i <= at && end < |s| && i <= end
    ensures Decode(s[i..end + 1], at - i, end - i) == Decode(s, at, end)
    decreases end - at
  {
    hide EscapeAt;
    var t := s[i..end + 1];
    if at < end {
      assert t[at - i] == s[at];
      if s[at] != BACKSLASH {
        DecodeAlone(s, i, at + 1, end);
      } else {
        EscapeAlone(s, i, at, end);
        if EscapeAt(s, at, end).Some? {
          DecodeAlone(s, i, at + EscapeAt(s, at, end).value.used, end);
        }
      }
    }
  }

  /** A string that is read is a string text of its own, with the same value. */
  lemma StringAlone(s: bytes, i: nat)
    requires i < |s| && s[i] == QUOTE && StringAt(s, i).Some?
    ensures var text := s[i..StringAt(s, i).value.next];
            StringText(text) && StringValue(text) == StringAt(s, i).value.text
  {
    hide FindQuote, Decode;
    var end := FindQuote(s, i + 1).value;
    QuoteAlone(s, i, i + 1, end);
    DecodeAlone(s, i, i + 1, end);
    assert s[i..end + 1][0] == QUOTE;
  }

  // ---------------------------------------------------------------- what is accepted

  /** `t` is written from `i` up to `next`. */
  ghost predicate WrittenAt(s: bytes, i: nat, t: Tree, next: nat) {
    Loose(t) && Holds(s, i, Spelling(t)) && next == i + |Spelling(t)|
  }

  lemma WordAccepted(s: bytes, i: nat, text: bytes)
    requires StartsWith(s, i, text) && text in {NULL_TEXT, TRUE_TEXT, FALSE_TEXT}
    ensures WrittenAt(s, i, Word(text), i + |text|)
  {
    assert Ascii("null") == NULL_TEXT && Ascii("true") == TRUE_TEXT && Ascii("false") == FALSE_TEXT;
  }

  lemma NumberAccepted(s: bytes, i: nat)
    requires i < |s| && (s[i] == 0x2D || Digit(s[i])) && NumberAt(s, i).Some?
    ensures WrittenAt(s, i, Decimals(s[i..NumberAt(s, i).value]), NumberAt(s, i).value)
  {
    hide NumberAt, Decimal;
    NumberLongest(s, i);
    assert s[i..NumberAt(s, i).value][0] == s[i];
  }

  lemma StringAccepted(s: bytes, i: nat)
    requires i < |s| && s[i] == QUOTE && StringAt(s, i).Some?
    ensures var text := s[i..StringAt(s, i).value.next];
            && WrittenAt(s, i, String(text), StringAt(s, i).value.next)
            && StringText(text) && StringValue(text) == StringAt(s, i).value.text
  {
    hide StringAt, StringText, StringValue;
    StringAlone(s, i);
  }

  /** Every value that is accepted is written in the grammar, and read as what it means there. */
  lemma {:induction false} Accepted(s: bytes, i: nat, depth: nat) returns (t: Tree)
    requires i <= |s| && Value(s, i, depth).Some?
    ensures WrittenAt(s, i, t, Value(s, i, depth).value.next) && Value(s, i, depth).value.value == Meant(t, depth)
    decreases |s| - i, 2
  {
    hide StartsWith, NumberAt, StringAt, WrittenAt, SkipWs, Meant;
    if s[i] == 0x6E && StartsWith(s, i, NULL_TEXT) {
      WordAccepted(s, i, NULL_TEXT);
      t := Word(NULL_TEXT);
      MeantOther(t, depth);
    } else if s[i] == 0x66 && StartsWith(s, i, FALSE_TEXT) {
      WordAccepted(s, i, FALSE_TEXT);
      t := Word(FALSE_TEXT);
      MeantOther(t, depth);
    } else if s[i] == 0x74 && StartsWith(s, i, TRUE_TEXT) {
      WordAccepted(s, i, TRUE_TEXT);
      t := Word(TRUE_TEXT);
      MeantOther(t, depth);
    } else if s[i] == QUOTE {
      StringAccepted(s, i);
      t := String(s[i..StringAt(s, i).value.next]);
      MeantOther(t, depth);
    } else if s[i] == 0x2D || Digit(s[i]) {
      NumberAccepted(s, i);
      t := Decimals(s[i..NumberAt(s, i).value]);
      MeantOther(t, depth);
    } else if s[i] == OPEN_ARRAY {
      t := ArrayAccepted(s, i, depth);
    } else {
      t := ObjectAccepted(s, i, depth);
    }
  }

  lemma MeantOther(t: Tree, depth: nat)
    ensures t.Word? || t.Decimals? || t.List? ==> Meant(t, depth) == Other
    ensures t.String? ==> Meant(t, depth) == Str(StringValue(t.text))
  {}

  lemma Bracketed(s: bytes, i: nat, open: byte, inner: bytes, close: byte)
    requires i < |s| && s[i] == open && Holds(s, i + 1, inner)
    requires i + 1 + |inner| < |s| && s[i + 1 + |inner|] == close
    ensures Holds(s, i, [open] + (inner + [close]))
  {
    ByteHeld(s, i, open);
    ByteHeld(s, i + 1 + |inner|, close);
    Joins(s, i + 1, inner, [close]);
    Joins(s, i, [open], inner + [close]);
  }

  lemma ListWritten(s: bytes, i: nat, gap: bytes, e: Trees)
    requires Gap(gap) && (e.Trees? ==> gap == []) && LooseTrees(e)
    requires i < |s| && s[i] == OPEN_ARRAY && Holds(s, i + 1, gap + SpelledTrees(e))
    requires var end := i + 1 + |gap + SpelledTrees(e)|; end < |s| && s[end] == CLOSE_ARRAY
    ensures WrittenAt(s, i, List(gap, e), i + 2 + |gap + SpelledTrees(e)|)
  {
    hide SpelledTrees, LooseTrees, Holds, Gap;
    Bracketed(s, i, OPEN_ARRAY, gap + SpelledTrees(e), CLOSE_ARRAY);
  }

  lemma EmptyList(s: bytes, i: nat, gap: bytes)
    requires i < |s| && s[i] == OPEN_ARRAY && Gap(gap) && Holds(s, i + 1, gap)
    requires i + 1 + |gap| < |s| && s[i + 1 + |gap|] == CLOSE_ARRAY
    ensures WrittenAt(s, i, List(gap, NoTrees), i + 2 + |gap|)
  {
    hide Holds, Gap, WrittenAt;
    assert gap + SpelledTrees(NoTrees) == gap;
    ListWritten(s, i, gap, NoTrees);
  }

  lemma FullList(s: bytes, i: nat, e: Trees)
    requires i < |s| && s[i] == OPEN_ARRAY && LooseTrees(e) && Holds(s, i + 1, SpelledTrees(e))
    requires var end := i + 1 + |SpelledTrees(e)|; end < |s| && s[end] == CLOSE_ARRAY
    ensures WrittenAt(s, i, List([], e), i + 2 + |SpelledTrees(e)|)
  {
    hide Holds, Gap, WrittenAt, SpelledTrees, LooseTrees;
    assert [] + SpelledTrees(e) == SpelledTrees(e);
    NoGap();
    ListWritten(s, i, [], e);
  }

  /** An array that is accepted is empty or has elements up to its closing bracket. */
  lemma ArrayStep(s: bytes, i: nat, depth: nat)
    requires i < |s| && s[i] == OPEN_ARRAY && Value(s, i, depth).Some?
    ensures var j := SkipWs(s, i + 1);
            && j <= |s|
            && if j < |s| && s[j] == CLOSE_ARRAY then Value(s, i, depth) == Some(Parsed(Other, j + 1))
               else Elements(s, j, depth + 1).Some?
                    && Value(s, i, depth) == Some(Parsed(Other, Elements(s, j, depth + 1).value))
  {
    ValueStep(s, i, depth);
  }

  /** An object that is accepted is empty or has members up to its closing brace. */
  lemma ObjectStep(s: bytes, i: nat, depth: nat)
    requires i < |s| && s[i] == OPEN_OBJECT && Value(s, i, depth).Some?
    ensures var j := SkipWs(s, i + 1);
            && j <= |s|
            && if j < |s| && s[j] == CLOSE_OBJECT then Value(s, i, depth) == Some(Parsed(Kept(depth, []), j + 1))
               else Members(s, j, depth + 1).Some?
                    && var list := Members(s, j, depth + 1).value;
                       Value(s, i, depth) == Some(Parsed(Kept(depth, list.members), list.next))
  {
    ValueStep(s, i, depth);
  }

  lemma {:induction false} ArrayAccepted(s: bytes, i: nat, depth: nat) returns (t: Tree)
    requires i < |s| && s[i] == OPEN_ARRAY && Value(s, i, depth).Some?
    ensures WrittenAt(s, i, t, Value(s, i, depth).value.next) && Value(s, i, depth).value.value == Meant(t, depth)
    decreases |s| - i, 1
  {
    hide *;
    ArrayStep(s, i, depth);
    var j := SkipWs(s, i + 1);
    GapSkipped(s, i + 1);
    PartHeld(s, i + 1, j);
    if j < |s| && s[j] == CLOSE_ARRAY {
      t := List(s[i + 1..j], NoTrees);
      EmptyList(s, i, s[i + 1..j]);
    } else {
      var e := ElementsAccepted(s, i + 1, j, depth + 1);
      t := List([], e);
      FullList(s, i, e);
    }
    MeantOther(t, depth);
  }

  lemma NoGap()
    ensures Gap([])
  {}

  /** The elements from the blanks at `g` before the one at `i` to the closing bracket. */
  lemma {:induction false} ElementsAccepted(s: bytes, g: nat, i: nat, depth: nat) returns (e: Trees)
    requires g <= i <= |s| && Gap(s[g..i]) && Elements(s, i, depth).Some?
    ensures e.Trees? && LooseTrees(e) && Holds(s, g, SpelledTrees(e))
    ensures var end := g + |SpelledTrees(e)|;
            end < |s| && s[end] == CLOSE_ARRAY && Elements(s, i, depth).value == end + 1
    decreases |s| - i, 3
  {
    hide Value, SkipWs, Holds, Gap, Spelling, Loose;
    var t := Accepted(s, i, depth);
    var k := Value(s, i, depth).value.next;
    var m := SkipWs(s, k);
    GapSkipped(s, k);
    PartHeld(s, g, i);
    PartHeld(s, k, m);
    MoreElementsStep(s, k, depth, m);
    if s[m] == COMMA {
      var next := SkipWs(s, m + 1);
      GapSkipped(s, m + 1);
      var rest := ElementsAccepted(s, m + 1, next, depth);
      e := Trees(s[g..i], t, s[k..m], rest);
      ByteHeld(s, m, COMMA);
      Joins(s, m, [COMMA], SpelledTrees(rest));
      ThreeJoin(s, g, s[g..i], Spelling(t), s[k..m], [COMMA] + SpelledTrees(rest));
    } else {
      e := Trees(s[g..i], t, s[k..m], NoTrees);
      NothingHeld(s, m);
      ThreeJoin(s, g, s[g..i], Spelling(t), s[k..m], []);
    }
  }

  lemma NothingHeld(s: bytes, m: nat)
    requires m <= |s|
    ensures Holds(s, m, [])
  {}

  lemma ThreeJoin(s: bytes, i: nat, a: bytes, b: bytes, c: bytes, d: bytes)
    requires Holds(s, i, a) && Holds(s, i + |a|, b) && Holds(s, i + |a| + |b|, c)
    requires Holds(s, i + |a| + |b| + |c|, d)
    ensures Holds(s, i, a + (b + (c + d)))
  {
    hide Holds;
    Joins(s, i + |a| + |b|, c, d);
    Joins(s, i + |a|, b, c + d);
    Joins(s, i, a, b + (c + d));
  }

  lemma RecordWritten(s: bytes, i: nat, gap: bytes, e: Entries)
    requires Gap(gap) && (e.Entries? ==> gap == []) && LooseEntries(e)
    requires i < |s| && s[i] == OPEN_OBJECT && Holds(s, i + 1, gap + SpelledEntries(e))
    requires var end := i + 1 + |gap + SpelledEntries(e)|; end < |s| && s[end] == CLOSE_OBJECT
    ensures WrittenAt(s, i, Record(gap, e), i + 2 + |gap + SpelledEntries(e)|)
  {
    hide SpelledEntries, LooseEntries, Holds, Gap;
    Bracketed(s, i, OPEN_OBJECT, gap + SpelledEntries(e), CLOSE_OBJECT);
  }

  lemma EmptyRecord(s: bytes, i: nat, gap: bytes, depth: nat)
    requires i < |s| && s[i] == OPEN_OBJECT && Gap(gap) && Holds(s, i + 1, gap)
    requires i + 1 + |gap| < |s| && s[i + 1 + |gap|] == CLOSE_OBJECT
    ensures WrittenAt(s, i, Record(gap, NoEntries), i + 2 + |gap|)
    ensures Meant(Record(gap, NoEntries), depth) == Kept(depth, [])
  {
    hide Holds, Gap, WrittenAt, Kept;
    assert gap + SpelledEntries(NoEntries) == gap;
    RecordWritten(s, i, gap, NoEntries);
  }

  lemma FullRecord(s: bytes, i: nat, e: Entries, depth: nat)
    requires i < |s| && s[i] == OPEN_OBJECT && LooseEntries(e) && Holds(s, i + 1, SpelledEntries(e))
    requires var end := i + 1 + |SpelledEntries(e)|; end < |s| && s[end] == CLOSE_OBJECT
    ensures WrittenAt(s, i, Record([], e), i + 2 + |SpelledEntries(e)|)
    ensures Meant(Record([], e), depth) == Kept(depth, MeantEntries(e, depth + 1))
  {
    hide Holds, Gap, WrittenAt, Kept, SpelledEntries, LooseEntries, MeantEntries;
    assert [] + SpelledEntries(e) == SpelledEntries(e);
    NoGap();
    RecordWritten(s, i, [], e);
  }

  lemma {:induction false} ObjectAccepted(s: bytes, i: nat, depth: nat) returns (t: Tree)
    requires i < |s| && s[i] == OPEN_OBJECT && Value(s, i, depth).Some?
    ensures WrittenAt(s, i, t, Value(s, i, depth).value.next) && Value(s, i, depth).value.value == Meant(t, depth)
    decreases |s| - i, 1
  {
    hide *;
    ObjectStep(s, i, depth);
    var j := SkipWs(s, i + 1);
    GapSkipped(s, i + 1);
    PartHeld(s, i + 1, j);
    if j < |s| && s[j] == CLOSE_OBJECT {
      t := Record(s[i + 1..j], NoEntries);
      EmptyRecord(s, i, s[i + 1..j], depth);
    } else {
      var e := MembersAccepted(s, i + 1, j, depth + 1);
      t := Record([], e);
      FullRecord(s, i, e, depth);
    }
  }

  /** A name, the blanks and the colon after it and the blanks up to the value. */
  lemma NameAccepted(s: bytes, i: nat) returns (name: bytes, colon: nat)
    requires i <= |s| && NameAt(s, i).Some?
    ensures var next := NameAt(s, i).value.next; var end := i + |name|;
            && StringText(name) && StringValue(name) == NameAt(s, i).value.text && Holds(s, i, name)
            && end <= colon < next <= |s| && Gap(s[end..colon]) && s[colon] == COLON && Gap(s[colon + 1..next])
  {
    hide StringAt, SkipWs, Gap, StringText, StringValue;
    StringAlone(s, i);
    var end := StringAt(s, i).value.next;
    name := s[i..end];
    colon := SkipWs(s, end);
    GapSkipped(s, end);
    GapSkipped(s, colon + 1);
  }

  /** What follows an entry. */
  function TailOf(rest: Entries): bytes {
    if rest.NoEntries? then [] else [COMMA] + SpelledEntries(rest)
  }

  /** An entry's text, what makes it part of the grammar, and what it means. */
  lemma EntryIs(e: Entries, depth: nat)
    requires e.Entries?
    ensures SpelledEntries(e)
         == e.before + (e.name + (e.colonBefore + ([COLON] + (e.colonAfter
            + (Spelling(e.tree) + (e.after + TailOf(e.rest)))))))
    ensures |SpelledEntries(e)|
         == |e.before| + |e.name| + |e.colonBefore| + 1 + |e.colonAfter| + |Spelling(e.tree)| + |e.after|
            + |TailOf(e.rest)|
    ensures MeantEntries(e, depth) == [Member(StringValue(e.name), Meant(e.tree, depth))] + MeantEntries(e.rest, depth)
  {
    hide Spelling, StringValue, Meant;
  }

  lemma TailHeld(s: bytes, m: nat, rest: Entries)
    requires m <= |s| && (rest.Entries? ==> m < |s| && s[m] == COMMA && Holds(s, m + 1, SpelledEntries(rest)))
    ensures Holds(s, m, TailOf(rest))
    ensures |TailOf(rest)| == if rest.NoEntries? then 0 else 1 + |SpelledEntries(rest)|
  {
    hide SpelledEntries, Holds;
    if rest.Entries? {
      ByteHeld(s, m, COMMA);
      Joins(s, m, [COMMA], SpelledEntries(rest));
    } else {
      NothingHeld(s, m);
    }
  }

  /** An entry from the blanks at `g` to those up to `m`, with the name at `i`, the colon and the value,
      and what follows it. */
  lemma EntryWritten(s: bytes, g: nat, i: nat, name: bytes, colon: nat, v: nat, t: Tree, k: nat, m: nat, rest: Entries,
                     depth: nat)
    returns (e: Entries)
    requires g <= i && i + |name| <= colon < v <= k <= m <= |s|
    requires Gap(s[g..i]) && StringText(name) && Holds(s, i, name)
    requires Gap(s[i + |name|..colon]) && s[colon] == COLON && Gap(s[colon + 1..v])
    requires WrittenAt(s, v, t, k) && Gap(s[k..m]) && LooseEntries(rest)
    requires rest.Entries? ==> m < |s| && s[m] == COMMA && Holds(s, m + 1, SpelledEntries(rest))
    ensures e.Entries? && LooseEntries(e) && Holds(s, g, SpelledEntries(e))
    ensures g + |SpelledEntries(e)| == m + (if rest.NoEntries? then 0 else 1 + |SpelledEntries(rest)|)
    ensures MeantEntries(e, depth) == [Member(StringValue(name), Meant(t, depth))] + MeantEntries(rest, depth)
  {
    hide Holds, Gap, Spelling, SpelledEntries, Loose, StringText, StringValue, Meant, MeantEntries, TailOf;
    var end := i + |name|;
    e := Entries(s[g..i], name, s[end..colon], s[colon + 1..v], t, s[k..m], rest);
    EntryIs(e, depth);
    PartHeld(s, g, i);
    PartHeld(s, end, colon);
    PartHeld(s, colon + 1, v);
    PartHeld(s, k, m);
    ByteHeld(s, colon, COLON);
    TailHeld(s, m, rest);
    EntryJoins(s, g, e.before, name, e.colonBefore, e.colonAfter, Spelling(t), e.after, TailOf(rest));
  }

  /** The members from the blanks at `g` before the one at `i` to the closing brace. */
  lemma {:induction false} MembersAccepted(s: bytes, g: nat, i: nat, depth: nat) returns (e: Entries)
    requires g <= i <= |s| && Gap(s[g..i]) && Members(s, i, depth).Some?
    ensures e.Entries? && LooseEntries(e) && Holds(s, g, SpelledEntries(e))
    ensures var end := g + |SpelledEntries(e)|;
            end < |s| && s[end] == CLOSE_OBJECT
            && Members(s, i, depth) == Some(Listed(MeantEntries(e, depth), end + 1))
    decreases |s| - i, 3
  {
    hide Value, SkipWs, Holds, Gap, Spelling, Loose, NameAt, StringText, StringValue, Meant, WrittenAt;
    hide SpelledEntries, LooseEntries;
    var name, colon := NameAccepted(s, i);
    var v := NameAt(s, i).value.next;
    var t := Accepted(s, v, depth);
    var k := Value(s, v, depth).value.next;
    var m := SkipWs(s, k);
    GapSkipped(s, k);
    MoreMembersStep(s, k, depth, m);
    var rest := NoEntries;
    if s[m] == COMMA {
      GapSkipped(s, m + 1);
      rest := MembersAccepted(s, m + 1, SkipWs(s, m + 1), depth);
    } else {
      NoneLoose(depth);
    }
    e := EntryWritten(s, g, i, name, colon, v, t, k, m, rest, depth);
  }

  lemma NoneLoose(depth: nat)
    ensures LooseEntries(NoEntries) && MeantEntries(NoEntries, depth) == []
  {}

  lemma EntryJoins(s: bytes, i: nat, a: bytes, name: bytes, b: bytes, c: bytes, value: bytes, d: bytes, rest: bytes)
    requires Holds(s, i, a) && Holds(s, i + |a|, name) && Holds(s, i + |a| + |name|, b)
    requires var colon := i + |a| + |name| + |b|;
             && Holds(s, colon, [COLON]) && Holds(s, colon + 1, c) && Holds(s, colon + 1 + |c|, value)
             && Holds(s, colon + 1 + |c| + |value|, d) && Holds(s, colon + 1 + |c| + |value| + |d|, rest)
    ensures Holds(s, i, a + (name + (b + ([COLON] + (c + (value + (d + rest)))))))
  {
    hide Holds;
    var colon := i + |a| + |name| + |b|;
    ThreeJoin(s, colon + 1, c, value, d, rest);
    Joins(s, colon, [COLON], c + (value + (d + rest)));
    ThreeJoin(s, i, a, name, b, [COLON] + (c + (value + (d + rest))));
  }

  /** Every text that is accepted is, after an optional mark and blanks and up to a NUL, a value of the
      grammar followed by anything, and is read as what that value means. */
  lemma DocumentAccepted(input: bytes) returns (t: Tree)
    requires Document(input).Some?
    ensures var s := CutNul(input);
            && Loose(t) && Holds(s, TextStart(s), Spelling(t))
            && Document(input) == Some(Meant(t, 0))
  {
    hide Value, TextStart, CutNul, Spelling, Meant, Loose, Holds;
    t := Accepted(CutNul(input), TextStart(CutNul(input)), 0);
  }

  /** An escape makes a string malformed exactly if it is of another letter, or of a `u` cut off by the
      closing quote, a low surrogate, or a high one that no low one follows. */
  lemma EscapeRefused(s: bytes, at: nat, end: nat)
    requires at < end < |s| && s[at] == BACKSLASH
    ensures EscapeAt(s, at, end).None? ==> Decode(s, at, end).None?
    ensures var c, room := s[at + 1] as char, end - at;
            EscapeAt(s, at, end).None?
            <==> || c !in {'\"', '\\', '/', 'b', 'f', 'n', 'r', 't', 'u'}
                 || (c == 'u' && room < 6)
                 || (c == 'u' && Low(Hex4(s[at + 2..at + 6])))
                 || (c == 'u' && High(Hex4(s[at + 2..at + 6])) && !LowFollows(s, at + 6, end))
  {
    hide Hex4;
    if at + 6 <= end {
      Slice(s, at, end, 2, 6);
    }
    if at + 12 <= end {
      Slice(s, at, end, 8, 12);
    }
  }

  predicate High(v: nat) {
    0xD800 <= v < 0xDC00
  }

  /** The escape of a low surrogate. */
  predicate LowFollows(s: bytes, at: nat, end: nat)
    requires end < |s|
  {
    && at + 6 <= end && s[at] as char == '\\' && s[at + 1] as char == 'u'
    && Low(Hex4(s[at + 2..at + 6]))
  }
}

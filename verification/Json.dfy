/** The JSON reader and writer of the ES9+ client (euicc/src/es9p.rs), which behave as cJSON does.
    The reader keeps an explicit stack of open containers; it is proved against a recursive-descent
    reading of the same lenient grammar. */
module Json {
  import opened Wrappers
  import opened Bytes

  const NESTING_LIMIT := 1000
  const KEEP_DEPTH := 4

  /** Strings and shallow objects; everything else is `Other`. */
  datatype Json = Str(text: bytes) | Obj(members: seq<Member>) | Other

  datatype Member = Member(name: bytes, value: Json)

  // ---------------------------------------------------------------- tokens

  const QUOTE: byte := 0x22
  const BACKSLASH: byte := 0x5C
  const SLASH: byte := 0x2F
  const COMMA: byte := 0x2C
  const COLON: byte := 0x3A
  const OPEN_ARRAY: byte := 0x5B
  const CLOSE_ARRAY: byte := 0x5D
  const OPEN_OBJECT: byte := 0x7B
  const CLOSE_OBJECT: byte := 0x7D
  const NULL_TEXT: bytes := [0x6E, 0x75, 0x6C, 0x6C]
  const TRUE_TEXT: bytes := [0x74, 0x72, 0x75, 0x65]
  const FALSE_TEXT: bytes := [0x66, 0x61, 0x6C, 0x73, 0x65]
  const BOM: bytes := [0xEF, 0xBB, 0xBF]

  predicate StartsWith(s: bytes, i: nat, text: bytes) {
    i + |text| <= |s| && s[i..i + |text|] == text
  }

  function SkipWs(s: bytes, i: nat): (j: nat)
    requires i <= |s|
    ensures i <= j <= |s|
    decreases |s| - i
  {
    if i < |s| && s[i] <= 32 then SkipWs(s, i + 1) else i
  }

  // ---------------------------------------------------------------- strings

  /** Where a string whose contents begin at `at` closes; a backslash protects its successor. */
  function FindQuote(s: bytes, at: nat): (r: Option<nat>)
    ensures r.Some? ==> at <= r.value < |s| && s[r.value] == QUOTE
    decreases |s| - at
  {
    if at >= |s| then None
    else if s[at] == QUOTE then Some(at)
    else if s[at] == BACKSLASH then FindQuote(s, at + 2)
    else FindQuote(s, at + 1)
  }

  function HexDigit(c: byte): Option<nat> {
    if 0x30 <= c <= 0x39 then Some(c - 0x30)
    else if 0x41 <= c <= 0x46 then Some(c - 0x41 + 10)
    else if 0x61 <= c <= 0x66 then Some(c - 0x61 + 10)
    else None
  }

  /** What a `\u` escape spells; bad digits count as zero. */
  function Hex4(s: bytes): (h: nat)
    requires |s| >= 4
    ensures h < 0x10000
  {
    var a, b, c, d := HexDigit(s[0]), HexDigit(s[1]), HexDigit(s[2]), HexDigit(s[3]);
    if a.None? || b.None? || c.None? || d.None? then 0
    else ((a.value * 16 + b.value) * 16 + c.value) * 16 + d.value
  }

  function Utf8(c: nat): bytes
    requires c < 0x110000
  {
    if c < 0x80 then [c]
    else if c < 0x800 then [0xC0 + c / 64, 0x80 + c % 64]
    else if c < 0x10000 then [0xE0 + c / 4096, 0x80 + c / 64 % 64, 0x80 + c % 64]
    else [0xF0 + c / 262_144, 0x80 + c / 4096 % 64, 0x80 + c / 64 % 64, 0x80 + c % 64]
  }

  datatype Escape = Escape(text: bytes, used: nat)

  /** One `\u` escape or a surrogate pair of them, in what is left of the string at its backslash. */
  function Utf16(s: bytes): (r: Option<Escape>)
    ensures r.Some? ==> 0 < r.value.used <= |s|
  {
    if |s| < 6 then None
    else
      var first := Hex4(s[2..6]);
      if 0xDC00 <= first <= 0xDFFF then None
      else if 0xD800 <= first <= 0xDBFF then
        if |s| < 12 || s[6] != BACKSLASH || s[7] != 0x75 then None
        else
          var second := Hex4(s[8..12]);
          if 0xDC00 <= second <= 0xDFFF
          then Some(Escape(Utf8(0x10000 + first % 0x400 * 0x400 + second % 0x400), 12))
          else None
      else Some(Escape(Utf8(first), 6))
  }

  function SimpleEscape(c: byte): Option<byte> {
    if c == 0x62 then Some(0x08)
    else if c == 0x66 then Some(0x0C)
    else if c == 0x6E then Some(0x0A)
    else if c == 0x72 then Some(0x0D)
    else if c == 0x74 then Some(0x09)
    else if c == QUOTE || c == BACKSLASH || c == SLASH then Some(c)
    else None
  }

  /** The escape at `at`; looks past `end` only for the byte it names. */
  function EscapeAt(s: bytes, at: nat, end: nat): (r: Option<Escape>)
    requires at < end < |s|
    ensures r.Some? ==> 0 < r.value.used && at + r.value.used <= end + 1
  {
    var c := s[at + 1];
    var simple := SimpleEscape(c);
    if simple.Some? then Some(Escape([simple.value], 2))
    else if c == 0x75 then Utf16(s[at..end])
    else None
  }

  function Decode(s: bytes, at: nat, end: nat): Option<bytes>
    requires end < |s|
    decreases end - at
  {
    if at >= end then Some([])
    else if s[at] != BACKSLASH then
      var rest := Decode(s, at + 1, end);
      if rest.None? then None else Some([s[at]] + rest.value)
    else
      var e := EscapeAt(s, at, end);
      if e.None? then None
      else
        var rest := Decode(s, at + e.value.used, end);
        if rest.None? then None else Some(e.value.text + rest.value)
  }

  datatype Text = Text(text: bytes, next: nat)

  /** A string whose opening quote is at `i`. */
  function StringAt(s: bytes, i: nat): (r: Option<Text>)
    requires i < |s|
    ensures r.Some? ==> i < r.value.next <= |s|
  {
    var end := FindQuote(s, i + 1);
    if end.None? then None
    else
      var text := Decode(s, i + 1, end.value);
      if text.None? then None else Some(Text(text.value, end.value + 1))
  }

  /** A member name with its colon, up to where the value begins. */
  function NameAt(s: bytes, i: nat): (r: Option<Text>)
    requires i <= |s|
    ensures r.Some? ==> i < r.value.next <= |s|
  {
    if i >= |s| || s[i] != QUOTE then None
    else
      var name := StringAt(s, i);
      if name.None? then None
      else
        var j := SkipWs(s, name.value.next);
        if j >= |s| || s[j] != COLON then None
        else Some(Text(name.value.text, SkipWs(s, j + 1)))
  }

  // ---------------------------------------------------------------- numbers

  predicate Digit(c: byte) {
    0x30 <= c <= 0x39
  }

  predicate NumberChar(c: byte) {
    Digit(c) || c == 0x2B || c == 0x2D || c == 0x65 || c == 0x45 || c == 0x2E
  }

  function NumberRun(s: bytes, i: nat): (n: nat)
    requires i <= |s|
    ensures i + n <= |s|
    decreases |s| - i
  {
    if i < |s| && NumberChar(s[i]) then 1 + NumberRun(s, i + 1) else 0
  }

  function Digits(s: bytes, i: nat): (n: nat)
    ensures i + n <= |s| || n == 0
    decreases |s| - i
  {
    if i < |s| && Digit(s[i]) then 1 + Digits(s, i + 1) else 0
  }

  predicate SignAt(s: bytes, i: nat) {
    i < |s| && (s[i] == 0x2B || s[i] == 0x2D)
  }

  const POINT: byte := 0x2E

  predicate ExponentMark(c: byte) {
    c == 0x65 || c == 0x45
  }

  /** Just past the digits at the start, with a point among them, after an optional sign. */
  function MantissaEnd(s: bytes): nat {
    var sign := if SignAt(s, 0) then 1 else 0;
    var i := sign + Digits(s, sign);
    if i < |s| && s[i] == POINT then i + 1 + Digits(s, i + 1) else i
  }

  /** How many bytes at the start are converted to a number. */
  function StrtodLen(s: bytes): (n: nat)
    ensures n <= |s|
  {
    var sign := if SignAt(s, 0) then 1 else 0;
    var i := sign + Digits(s, sign);
    var point := i < |s| && s[i] == POINT;
    if i == sign && !(point && Digits(s, i + 1) > 0) then 0
    else
      var j := MantissaEnd(s);
      if j < |s| && ExponentMark(s[j]) then
        var e := if SignAt(s, j + 1) then j + 2 else j + 1;
        var exponent := Digits(s, e);
        if exponent > 0 then e + exponent else j
      else j
  }

  function NumberAt(s: bytes, i: nat): (r: Option<nat>)
    requires i <= |s|
    ensures r.Some? ==> i < r.value <= |s|
  {
    var n := StrtodLen(s[i..i + NumberRun(s, i)]);
    if n == 0 then None else Some(i + n)
  }

  // ---------------------------------------------------------------- recursive descent

  datatype Parsed = Parsed(value: Json, next: nat)

  datatype Listed = Listed(members: seq<Member>, next: nat)

  /** The value at `i`, inside `depth` open containers. */
  function Value(s: bytes, i: nat, depth: nat): (r: Option<Parsed>)
    requires i <= |s|
    ensures r.Some? ==> i < r.value.next <= |s|
    decreases |s| - i, 0
  {
    if i >= |s| then None
    else if s[i] == 0x6E && StartsWith(s, i, NULL_TEXT) then Some(Parsed(Other, i + 4))
    else if s[i] == 0x66 && StartsWith(s, i, FALSE_TEXT) then Some(Parsed(Other, i + 5))
    else if s[i] == 0x74 && StartsWith(s, i, TRUE_TEXT) then Some(Parsed(Other, i + 4))
    else if s[i] == QUOTE then
      var text := StringAt(s, i);
      if text.None? then None else Some(Parsed(Str(text.value.text), text.value.next))
    else if s[i] == 0x2D || Digit(s[i]) then
      var next := NumberAt(s, i);
      if next.None? then None else Some(Parsed(Other, next.value))
    else if s[i] == OPEN_ARRAY then
      var j := SkipWs(s, i + 1);
      if depth >= NESTING_LIMIT then None
      else if j < |s| && s[j] == CLOSE_ARRAY then Some(Parsed(Other, j + 1))
      else
        var next := Elements(s, j, depth + 1);
        if next.None? then None else Some(Parsed(Other, next.value))
    else if s[i] == OPEN_OBJECT then
      var j := SkipWs(s, i + 1);
      if depth >= NESTING_LIMIT then None
      else if j < |s| && s[j] == CLOSE_OBJECT then Some(Parsed(Kept(depth, []), j + 1))
      else
        var list := Members(s, j, depth + 1);
        if list.None? then None else Some(Parsed(Kept(depth, list.value.members), list.value.next))
    else None
  }

  /** An object with these members, if objects are kept at this depth. */
  function Kept(depth: nat, members: seq<Member>): Json {
    if depth < KEEP_DEPTH then Obj(members) else Other
  }

  /** The elements of an array from the one at `i` to its closing bracket. */
  function Elements(s: bytes, i: nat, depth: nat): (r: Option<nat>)
    requires i <= |s|
    ensures r.Some? ==> i < r.value <= |s|
    decreases |s| - i, 1
  {
    var first := Value(s, i, depth);
    if first.None? then None else MoreElements(s, first.value.next, depth)
  }

  /** What follows an element. */
  function MoreElements(s: bytes, i: nat, depth: nat): (r: Option<nat>)
    requires i <= |s|
    ensures r.Some? ==> i < r.value <= |s|
    decreases |s| - i, 0
  {
    var j := SkipWs(s, i);
    if j >= |s| then None
    else if s[j] == COMMA then Elements(s, SkipWs(s, j + 1), depth)
    else if s[j] == CLOSE_ARRAY then Some(j + 1)
    else None
  }

  /** The members of an object from the one at `i` to its closing brace. */
  function Members(s: bytes, i: nat, depth: nat): (r: Option<Listed>)
    requires i <= |s|
    ensures r.Some? ==> i < r.value.next <= |s|
    decreases |s| - i, 1
  {
    var name := NameAt(s, i);
    if name.None? then None
    else
      var value := Value(s, name.value.next, depth);
      if value.None? then None
      else
        var rest := MoreMembers(s, value.value.next, depth);
        if rest.None? then None
        else Some(Listed([Member(name.value.text, value.value.value)] + rest.value.members, rest.value.next))
  }

  /** What follows a member's value. */
  function MoreMembers(s: bytes, i: nat, depth: nat): (r: Option<Listed>)
    requires i <= |s|
    ensures r.Some? ==> i < r.value.next <= |s|
    decreases |s| - i, 0
  {
    var j := SkipWs(s, i);
    if j >= |s| then None
    else if s[j] == COMMA then Members(s, SkipWs(s, j + 1), depth)
    else if s[j] == CLOSE_OBJECT then Some(Listed([], j + 1))
    else None
  }

  function TextStart(s: bytes): (i: nat)
    ensures i <= |s|
  {
    SkipWs(s, if StartsWith(s, 0, BOM) then 3 else 0)
  }

  /** A whole text: up to its first NUL, after a byte-order mark and whitespace, its first value. */
  function Document(input: bytes): Option<Json> {
    var s := CutNul(input);
    var value := Value(s, TextStart(s), 0);
    if value.None? then None else Some(value.value.value)
  }

  // ---------------------------------------------------------------- how deep values are kept

  /** At most `k` objects inside one another. */
  predicate Shallow(j: Json, k: nat)
    decreases j, 0
  {
    j.Obj? ==> k > 0 && AllShallow(j.members, k - 1)
  }

  predicate AllShallow(members: seq<Member>, k: nat)
    decreases members
  {
    members == [] || (Shallow(members[0].value, k) && AllShallow(members[1..], k))
  }

  /** How many objects may still be kept inside one another at a depth. */
  function RoomAt(depth: nat): nat {
    if depth < KEEP_DEPTH then KEEP_DEPTH - depth else 0
  }

  lemma {:induction false} ValueShallow(s: bytes, i: nat, depth: nat)
    requires i <= |s|
    ensures Value(s, i, depth).Some? ==> Shallow(Value(s, i, depth).value.value, RoomAt(depth))
    decreases |s| - i, 0
  {
    hide StartsWith, StringAt, NumberAt;
    if i < |s| && s[i] == OPEN_OBJECT {
      MembersShallow(s, SkipWs(s, i + 1), depth + 1);
    }
  }

  lemma {:induction false} MembersShallow(s: bytes, i: nat, depth: nat)
    requires i <= |s|
    ensures Members(s, i, depth).Some? ==> AllShallow(Members(s, i, depth).value.members, RoomAt(depth))
    decreases |s| - i, 1
  {
    hide NameAt, SkipWs;
    var name := NameAt(s, i);
    if name.Some? && Value(s, name.value.next, depth).Some? {
      ValueShallow(s, name.value.next, depth);
      var first := Value(s, name.value.next, depth).value;
      var j := SkipWs(s, first.next);
      if j < |s| && s[j] == COMMA {
        MembersShallow(s, SkipWs(s, j + 1), depth);
      }
      var rest := MoreMembers(s, first.next, depth);
      if rest.Some? {
        assert ([Member(name.value.text, first.value)] + rest.value.members)[1..] == rest.value.members;
      }
    }
  }

  /** Whatever the text, at most four objects are kept inside one another. */
  lemma DocumentShallow(input: bytes)
    ensures Document(input).Some? ==> Shallow(Document(input).value, KEEP_DEPTH)
  {
    hide Value;
    ValueShallow(CutNul(input), TextStart(CutNul(input)), 0);
  }
}

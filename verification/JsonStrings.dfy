/** What the strings of a JSON text mean (RFC 8259, section 7), against a reader of UTF-8 written from
    RFC 3629: every spelling of every character is decoded to octets that read as that character. */
module JsonStrings {
  import opened Wrappers
  import opened Bytes
  import opened Json

  // ---------------------------------------------------------------- UTF-8

  /** Unicode scalar values. */
  predicate Scalar(v: nat) {
    v < 0xD800 || 0xE000 <= v < 0x110000
  }

  type scalar = v: nat | v < 0x110000 && Scalar(v)

  predicate Tail(b: byte) {
    0x80 <= b <= 0xBF
  }

  /** How many octets the first one announces (RFC 3629, section 3). */
  function Announced(lead: byte): (n: nat)
    ensures n <= 4
  {
    if lead < 0x80 then 1
    else if 0xC0 <= lead < 0xE0 then 2
    else if 0xE0 <= lead < 0xF0 then 3
    else if 0xF0 <= lead < 0xF8 then 4
    else 0
  }

  /** The least value that needs so many octets. */
  function Least(n: nat): nat {
    if n <= 1 then 0 else if n == 2 then 0x80 else if n == 3 then 0x800 else 0x10000
  }

  function Bits(lead: byte): nat {
    if lead < 0x80 then lead else if lead < 0xE0 then lead % 32 else if lead < 0xF0 then lead % 16 else lead % 8
  }

  /** The octets after the first add six bits each. */
  function Extended(value: nat, tail: bytes): nat {
    if tail == [] then value else 64 * Extended(value, tail[..|tail| - 1]) + tail[|tail| - 1] % 64
  }

  datatype Read = Read(value: nat, octets: nat)

  /** The character at the beginning of `b`, in its shortest form. */
  function ReadOne(b: bytes): (r: Option<Read>)
    ensures r.Some? ==> 0 < r.value.octets <= |b| && Scalar(r.value.value)
  {
    if b == [] then None
    else
      var n := Announced(b[0]);
      if n == 0 || |b| < n || exists k | 1 <= k < n :: !Tail(b[k]) then None
      else
        var value := Extended(Bits(b[0]), b[1..n]);
        if Least(n) <= value && Scalar(value) then Some(Read(value, n)) else None
  }

  function ReadAll(b: bytes): Option<seq<nat>> {
    if b == [] then Some([])
    else
      var one := ReadOne(b);
      if one.None? then None
      else
        var rest := ReadAll(b[one.value.octets..]);
        if rest.None? then None else Some([one.value.value] + rest.value)
  }

  lemma ExtendedBy(value: nat, tail: bytes, b: byte)
    ensures Extended(value, tail + [b]) == 64 * Extended(value, tail) + b % 64
    ensures Extended(value, []) == value
  {
    assert (tail + [b])[..|tail|] == tail;
  }

  lemma ExtendedAll(value: nat, a: byte, b: byte, c: byte)
    ensures Extended(value, [a]) == 64 * value + a % 64
    ensures Extended(value, [a, b]) == 64 * (64 * value + a % 64) + b % 64
    ensures Extended(value, [a, b, c]) == 64 * (64 * (64 * value + a % 64) + b % 64) + c % 64
  {
    ExtendedBy(value, [], a);
    ExtendedBy(value, [a], b);
    ExtendedBy(value, [a, b], c);
    assert [] + [a] == [a] && [a] + [b] == [a, b] && [a, b] + [c] == [a, b, c];
  }

  /** The reader on octets that are as many as announced, all but the first of them tails. */
  lemma ReadSized(b: bytes, n: nat)
    requires 0 < n <= |b| && Announced(b[0]) == n && forall k | 1 <= k < n :: Tail(b[k])
    ensures var value := Extended(Bits(b[0]), b[1..n]);
            ReadOne(b) == if Least(n) <= value && Scalar(value) then Some(Read(value, n)) else None
  {}

  lemma ReadTwo(v: nat, rest: bytes)
    requires 0x80 <= v < 0x800
    ensures ReadOne(Utf8(v) + rest) == Some(Read(v, 2))
  {
    hide ReadOne, Announced, Bits, Extended, Tail;
    var b := Utf8(v) + rest;
    var q, x := v / 64, v % 64;
    assert b[0] == 0xC0 + q && b[1] == 0x80 + x;
    LeadOfTwo(q);
    SixBits(x);
    ReadSized(b, 2);
    ExtendedAll(q, b[1], 0, 0);
    assert b[1..2] == [b[1]];
  }

  lemma LeadOfTwo(q: nat)
    requires q < 32
    ensures Announced(0xC0 + q) == 2 && Bits(0xC0 + q) == q
  {}

  lemma ReadThree(v: nat, rest: bytes)
    requires 0x800 <= v < 0x10000 && Scalar(v)
    ensures ReadOne(Utf8(v) + rest) == Some(Read(v, 3))
  {
    hide ReadOne, Announced, Bits, Extended, Scalar, Tail;
    var b := Utf8(v) + rest;
    var q, x, y := v / 4096, v / 64 % 64, v % 64;
    assert b[0] == 0xE0 + q && b[1] == 0x80 + x && b[2] == 0x80 + y;
    LeadOfThree(q);
    SixBits(x);
    SixBits(y);
    ReadSized(b, 3);
    ExtendedAll(q, b[1], b[2], 0);
    assert b[1..3] == [b[1], b[2]];
    Sixes(v);
  }

  lemma LeadOfThree(q: nat)
    requires q < 16
    ensures Announced(0xE0 + q) == 3 && Bits(0xE0 + q) == q
  {}

  lemma ReadFour(v: nat, rest: bytes)
    requires 0x10000 <= v < 0x110000
    ensures ReadOne(Utf8(v) + rest) == Some(Read(v, 4))
  {
    hide ReadOne, Announced, Bits, Extended;
    var b := Utf8(v) + rest;
    var q, x, y, z := v / 262_144, v / 4096 % 64, v / 64 % 64, v % 64;
    assert b[0] == 0xF0 + q && b[1] == 0x80 + x && b[2] == 0x80 + y && b[3] == 0x80 + z;
    LeadOfFour(q);
    ReadSized(b, 4);
    ExtendedAll(q, b[1], b[2], b[3]);
    assert b[1..4] == [b[1], b[2], b[3]];
    SixBits(x);
    SixBits(y);
    SixBits(z);
    Sixes(v);
  }

  lemma LeadOfFour(q: nat)
    requires q <= 4
    ensures Announced(0xF0 + q) == 4 && Bits(0xF0 + q) == q
  {}

  lemma SixBits(x: nat)
    requires x < 64
    ensures (0x80 + x) % 64 == x && Tail(0x80 + x)
  {}

  /** A number in groups of six bits. */
  lemma Sixes(v: nat)
    ensures v == 64 * (64 * (v / 4096) + v / 64 % 64) + v % 64
    ensures v == 64 * (64 * (64 * (v / 262_144) + v / 4096 % 64) + v / 64 % 64) + v % 64
  {
    assert v / 64 / 64 == v / 4096;
    assert v / 4096 / 64 == v / 262_144;
  }

  /** What is written for a character reads as it, whatever follows. */
  lemma Utf8Read(v: nat, rest: bytes)
    requires Scalar(v)
    ensures ReadOne(Utf8(v) + rest) == Some(Read(v, |Utf8(v)|))
  {
    if v < 0x80 {
      ReadSized(Utf8(v) + rest, 1);
      assert (Utf8(v) + rest)[1..1] == [];
    } else if v < 0x800 {
      ReadTwo(v, rest);
    } else if v < 0x10000 {
      ReadThree(v, rest);
    } else {
      ReadFour(v, rest);
    }
  }

  /** Nothing else reads as it: a character has one shortest form. */
  lemma OnlyUtf8(t: bytes, v: nat)
    requires ReadOne(t) == Some(Read(v, |t|))
    ensures t == Utf8(v)
  {
    var n := Announced(t[0]);
    if n == 1 {
      assert t[1..1] == [];
    } else if n == 2 {
      ExtendedAll(Bits(t[0]), t[1], 0, 0);
      assert t[1..2] == [t[1]];
      TailBits(t[1]);
      Sum(Bits(t[0]), t[1] % 64);
    } else if n == 3 {
      OnlyThree(t, v);
    } else {
      OnlyFour(t, v);
    }
  }

  lemma TailBits(b: byte)
    requires Tail(b)
    ensures b == 0x80 + b % 64
  {}

  lemma Sum(high: nat, low: nat)
    requires low < 64
    ensures (64 * high + low) / 64 == high && (64 * high + low) % 64 == low
  {}

  lemma LeadBits(lead: byte)
    requires Announced(lead) > 1
    ensures lead == (if Announced(lead) == 2 then 0xC0 else if Announced(lead) == 3 then 0xE0 else 0xF0) + Bits(lead)
    ensures Bits(lead) < if Announced(lead) == 2 then 32 else if Announced(lead) == 3 then 16 else 8
  {}

  lemma OnlyThree(t: bytes, v: nat)
    requires ReadOne(t) == Some(Read(v, |t|)) && Announced(t[0]) == 3
    ensures t == Utf8(v)
  {
    var q, x, y := Bits(t[0]), t[1] % 64, t[2] % 64;
    ReadParts(t, v);
    hide ReadOne, Announced, Bits, Extended;
    ExtendedAll(q, t[1], t[2], 0);
    assert t[1..3] == [t[1], t[2]];
    LeadBits(t[0]);
    TailBits(t[1]);
    TailBits(t[2]);
    Sum(64 * q + x, y);
    Sum(q, x);
    Sixes(v);
    assert v / 64 / 64 == v / 4096;
    assert t == [0xE0 + q, 0x80 + x, 0x80 + y];
  }

  lemma OnlyFour(t: bytes, v: nat)
    requires ReadOne(t) == Some(Read(v, |t|)) && Announced(t[0]) == 4
    ensures t == Utf8(v)
  {
    var q, x, y, z := Bits(t[0]), t[1] % 64, t[2] % 64, t[3] % 64;
    ReadParts(t, v);
    hide ReadOne, Announced, Bits, Extended, Utf8, Tail;
    ExtendedAll(q, t[1], t[2], t[3]);
    assert t[1..4] == [t[1], t[2], t[3]];
    LeadBits(t[0]);
    TailBits(t[1]);
    TailBits(t[2]);
    TailBits(t[3]);
    assert t == [0xF0 + q, 0x80 + x, 0x80 + y, 0x80 + z];
    FourParts(q, x, y, z);
  }

  lemma FourParts(q: nat, x: nat, y: nat, z: nat)
    requires q < 8 && x < 64 && y < 64 && z < 64
    requires var v := 64 * (64 * (64 * q + x) + y) + z; 0x10000 <= v < 0x110000
    ensures Utf8(64 * (64 * (64 * q + x) + y) + z) == [0xF0 + q, 0x80 + x, 0x80 + y, 0x80 + z]
  {
    var v := 64 * (64 * (64 * q + x) + y) + z;
    Sum(64 * (64 * q + x) + y, z);
    Sum(64 * q + x, y);
    Sum(q, x);
    assert v / 64 / 64 == v / 4096 && v / 4096 / 64 == v / 262_144;
  }

  lemma ReadParts(t: bytes, v: nat)
    requires ReadOne(t) == Some(Read(v, |t|))
    ensures |t| == Announced(t[0]) && v == Extended(Bits(t[0]), t[1..]) && Least(|t|) <= v && Scalar(v)
    ensures forall k | 1 <= k < |t| :: Tail(t[k])
  {
    assert t[1..|t|] == t[1..];
  }

  /** Characters written one after another. */
  function Utf8Text(values: seq<scalar>): bytes {
    if values == [] then [] else Utf8(values[0]) + Utf8Text(values[1..])
  }

  lemma {:induction false} Utf8TextRead(values: seq<scalar>)
    ensures ReadAll(Utf8Text(values)) == Some(values)
  {
    hide ReadOne;
    if values != [] {
      var rest := Utf8Text(values[1..]);
      Utf8Read(values[0], rest);
      Utf8TextRead(values[1..]);
      assert (Utf8(values[0]) + rest)[|Utf8(values[0])|..] == rest;
      assert values == [values[0]] + values[1..];
    }
  }

  // ---------------------------------------------------------------- spellings

  /** A hexadecimal digit in either case. */
  predicate HexFor(c: byte, d: nat) {
    d < 16 && (c as char == "0123456789abcdef"[d] || c as char == "0123456789ABCDEF"[d])
  }

  predicate HexText(t: bytes, v: nat) {
    && |t| == 4 && v < 0x10000
    && HexFor(t[0], v / 4096) && HexFor(t[1], v / 256 % 16) && HexFor(t[2], v / 16 % 16) && HexFor(t[3], v % 16)
  }

  predicate UnicodeEscape(t: bytes, v: nat) {
    |t| == 6 && t[0] as char == '\\' && t[1] as char == 'u' && HexText(t[2..], v)
  }

  /** What a two-character escape stands for. */
  function Short(c: char): Option<nat> {
    match c
    case '\"' => Some('\"' as nat)
    case '\\' => Some('\\' as nat)
    case '/' => Some('/' as nat)
    case 'b' => Some(8)
    case 'f' => Some(12)
    case 'n' => Some(10)
    case 'r' => Some(13)
    case 't' => Some(9)
    case _ => None
  }

  /** A character as it stands. */
  predicate Plain(t: bytes, v: nat) {
    ReadOne(t) == Some(Read(v, |t|)) && v >= 0x20 && v != '\"' as nat && v != '\\' as nat
  }

  predicate ShortEscape(t: bytes, v: nat) {
    |t| == 2 && t[0] as char == '\\' && Short(t[1] as char) == Some(v)
  }

  /** The two surrogates of a character beyond the first plane. */
  predicate SurrogatePair(t: bytes, v: nat) {
    && |t| == 12 && 0x10000 <= v
    && UnicodeEscape(t[..6], 0xD800 + (v - 0x10000) / 0x400)
    && UnicodeEscape(t[6..], 0xDC00 + (v - 0x10000) % 0x400)
  }

  /** The spellings of a character. */
  predicate Spells(t: bytes, v: nat) {
    Scalar(v) && (Plain(t, v) || ShortEscape(t, v) || UnicodeEscape(t, v) || SurrogatePair(t, v))
  }

  lemma DigitRead(c: byte, d: nat)
    ensures HexFor(c, d) <==> HexDigit(c) == Some(d)
  {}

  lemma Nibbles(a: nat, b: nat, c: nat, d: nat)
    requires a < 16 && b < 16 && c < 16 && d < 16
    ensures var h := ((a * 16 + b) * 16 + c) * 16 + d;
            h < 0x10000 && h / 4096 == a && h / 256 % 16 == b && h / 16 % 16 == c && h % 16 == d
  {}

  lemma Joined(v: nat)
    requires v < 0x10000
    ensures v == ((v / 4096 * 16 + v / 256 % 16) * 16 + v / 16 % 16) * 16 + v % 16
  {
    Sixteen(v, 1);
    Sixteen(v, 16);
    Sixteen(v, 256);
  }

  lemma Sixteen(v: nat, unit: nat)
    requires unit in {1, 16, 256}
    ensures v / unit == v / (unit * 16) * 16 + v / unit % 16
  {}

  /** Four digits in any case give their value. */
  lemma HexRead(t: bytes, v: nat)
    requires HexText(t, v)
    ensures Hex4(t) == v
  {
    hide HexFor, HexDigit;
    DigitRead(t[0], v / 4096);
    DigitRead(t[1], v / 256 % 16);
    DigitRead(t[2], v / 16 % 16);
    DigitRead(t[3], v % 16);
    Joined(v);
  }

  /** Anything else counts as zero. */
  lemma NoHexIsZero(t: bytes)
    requires |t| == 4
    ensures Hex4(t) != 0 ==> HexText(t, Hex4(t))
  {
    hide HexFor, HexDigit;
    if Hex4(t) != 0 {
      var a, b, c, d := HexDigit(t[0]), HexDigit(t[1]), HexDigit(t[2]), HexDigit(t[3]);
      DigitRead(t[0], a.value);
      DigitRead(t[1], b.value);
      DigitRead(t[2], c.value);
      DigitRead(t[3], d.value);
      DigitsSmall(t);
      Nibbles(a.value, b.value, c.value, d.value);
    }
  }

  lemma DigitsSmall(t: bytes)
    ensures forall k | 0 <= k < |t| && HexDigit(t[k]).Some? :: HexDigit(t[k]).value < 16
  {}

  // ---------------------------------------------------------------- one spelling after another

  /** The octets `s[at..at + n]` hold neither a quote nor a backslash. */
  predicate Ordinary(s: bytes, at: nat, n: nat) {
    at + n <= |s| && forall k | at <= k < at + n :: s[k] != QUOTE && s[k] != BACKSLASH
  }

  lemma {:induction false} SkipOrdinary(s: bytes, at: nat, n: nat)
    requires Ordinary(s, at, n)
    ensures FindQuote(s, at) == FindQuote(s, at + n)
    decreases n
  {
    if n > 0 {
      SkipOrdinary(s, at + 1, n - 1);
    }
  }

  lemma Slice(s: bytes, a: nat, b: nat, i: nat, j: nat)
    requires a <= b <= |s| && i <= j <= b - a
    ensures s[a..b][i..j] == s[a + i..a + j]
  {
    forall k | 0 <= k < j - i
      ensures s[a..b][i..j][k] == s[a + i..a + j][k]
    {}
  }

  /** What is decoded when `text` comes before the rest. */
  function Before(text: bytes, rest: Option<bytes>): Option<bytes> {
    if rest.None? then None else Some(text + rest.value)
  }

  lemma {:induction false} CopyOrdinary(s: bytes, at: nat, n: nat, end: nat)
    requires Ordinary(s, at, n) && at + n <= end < |s|
    ensures Decode(s, at, end) == Before(s[at..at + n], Decode(s, at + n, end))
    decreases n
  {
    if n == 0 {
      assert s[at..at] == [];
      Nothing(Decode(s, at, end));
    } else {
      CopyOrdinary(s, at + 1, n - 1, end);
      assert s[at..at + n] == [s[at]] + s[at + 1..at + n];
      OneBefore(s[at], s[at + 1..at + n], Decode(s, at + n, end));
    }
  }

  lemma OneBefore(b: byte, text: bytes, rest: Option<bytes>)
    ensures Before([b], Before(text, rest)) == Before([b] + text, rest)
  {
    if rest.Some? {
      assert [b] + (text + rest.value) == ([b] + text) + rest.value;
    }
  }

  lemma Nothing(rest: Option<bytes>)
    ensures Before([], rest) == rest
  {
    if rest.Some? {
      assert [] + rest.value == rest.value;
    }
  }

  /** One spelling gives its character, and both passes go on after it. */
  ghost predicate Decodes(s: bytes, at: nat, n: nat, end: nat, v: nat)
    requires at + n <= end < |s| && Scalar(v)
  {
    && FindQuote(s, at) == FindQuote(s, at + n)
    && Decode(s, at, end) == Before(Utf8(v), Decode(s, at + n, end))
  }

  lemma PlainOrdinary(t: bytes, v: nat)
    requires Plain(t, v)
    ensures forall k | 0 <= k < |t| :: t[k] != QUOTE && t[k] != BACKSLASH
  {
    if |t| == 1 {
      ReadSized(t, 1);
      assert t[1..1] == [];
    }
  }

  lemma PlainDecodes(s: bytes, at: nat, t: bytes, end: nat, v: nat)
    requires Plain(t, v) && at + |t| <= end < |s| && s[at..at + |t|] == t
    ensures Decodes(s, at, |t|, end, v)
  {
    PlainOrdinary(t, v);
    OnlyUtf8(t, v);
    forall k | at <= k < at + |t|
      ensures s[k] != QUOTE && s[k] != BACKSLASH
    {
      assert s[k] == t[k - at];
    }
    SkipOrdinary(s, at, |t|);
    CopyOrdinary(s, at, |t|, end);
  }

  lemma ShortIs(c: byte)
    ensures Short(c as char) == SimpleEscape(c)
    ensures Short(c as char).Some? ==> Short(c as char).value < 0x80
  {}

  lemma ShortDecodes(s: bytes, at: nat, t: bytes, end: nat, v: nat)
    requires ShortEscape(t, v) && at + 2 <= end < |s| && s[at..at + 2] == t
    ensures Decodes(s, at, 2, end, v)
  {
    ShortIs(t[1]);
    assert s[at] == t[0] && s[at + 1] == t[1];
    assert Utf8(v) == [v];
    assert EscapeAt(s, at, end) == Some(Escape([v], 2));
  }

  lemma HexOrdinary(t: bytes, v: nat)
    requires HexText(t, v)
    ensures forall k | 0 <= k < 4 :: t[k] != QUOTE && t[k] != BACKSLASH
  {
    DigitRead(t[0], v / 4096);
    DigitRead(t[1], v / 256 % 16);
    DigitRead(t[2], v / 16 % 16);
    DigitRead(t[3], v % 16);
  }

  /** The search for the closing quote steps over an escape. */
  lemma SkipEscape(s: bytes, at: nat, v: nat)
    requires at + 6 <= |s| && UnicodeEscape(s[at..at + 6], v)
    ensures FindQuote(s, at) == FindQuote(s, at + 6)
  {
    var t := s[at..at + 6];
    HexOrdinary(t[2..], v);
    assert s[at] == t[0] == BACKSLASH;
    forall k | at + 2 <= k < at + 6
      ensures s[k] != QUOTE && s[k] != BACKSLASH
    {
      assert s[k] == t[2..][k - at - 2];
    }
    SkipOrdinary(s, at + 2, 4);
  }

  /** What the decoder sees of an escape. */
  lemma SeenEscape(s: bytes, at: nat, end: nat, v: nat)
    requires at + 6 <= end < |s| && UnicodeEscape(s[at..at + 6], v)
    ensures s[at] == BACKSLASH && s[at + 1] == 0x75
    ensures EscapeAt(s, at, end) == Utf16(s[at..end])
    ensures Hex4(s[at..end][2..6]) == v
  {
    hide HexText, Hex4, Utf16;
    var t := s[at..at + 6];
    assert s[at] == t[0] && s[at + 1] == t[1];
    Slice(s, at, end, 2, 6);
    Slice(s, at, at + 6, 2, 6);
    assert t[2..] == t[2..6];
    HexRead(t[2..], v);
  }

  lemma EscapeDecodes(s: bytes, at: nat, end: nat, v: nat)
    requires at + 6 <= end < |s| && Scalar(v) && UnicodeEscape(s[at..at + 6], v)
    ensures Decodes(s, at, 6, end, v)
  {
    hide FindQuote, UnicodeEscape, ReadOne, Utf8, Hex4;
    SkipEscape(s, at, v);
    SeenEscape(s, at, end, v);
  }

  lemma PairDecodes(s: bytes, at: nat, end: nat, v: nat)
    requires at + 12 <= end < |s| && Scalar(v) && SurrogatePair(s[at..at + 12], v)
    ensures Decodes(s, at, 12, end, v)
  {
    hide FindQuote, UnicodeEscape, ReadOne, Utf8, Hex4;
    var high, low := 0xD800 + (v - 0x10000) / 0x400, 0xDC00 + (v - 0x10000) % 0x400;
    assert s[at..at + 12][..6] == s[at..at + 6] && s[at..at + 12][6..] == s[at + 6..at + 12];
    SkipEscape(s, at, high);
    SkipEscape(s, at + 6, low);
    SeenEscape(s, at, end, high);
    SeenEscape(s, at + 6, end, low);
    assert s[at..end][8..12] == s[at + 6..end][2..6];
    assert s[at..end][6] == s[at + 6] && s[at..end][7] == s[at + 7];
    Halves(v);
  }

  /** The two surrogates carry ten bits each. */
  lemma Halves(v: nat)
    requires 0x10000 <= v < 0x110000
    ensures var high, low := 0xD800 + (v - 0x10000) / 0x400, 0xDC00 + (v - 0x10000) % 0x400;
            && 0xD800 <= high <= 0xDBFF && 0xDC00 <= low <= 0xDFFF
            && 0x10000 + high % 0x400 * 0x400 + low % 0x400 == v
  {}

  /** Every spelling of every character is decoded to its octets. */
  lemma SpellingDecodes(s: bytes, at: nat, t: bytes, end: nat, v: nat)
    requires Spells(t, v) && at + |t| <= end < |s| && s[at..at + |t|] == t
    ensures Decodes(s, at, |t|, end, v)
  {
    hide Plain, ShortEscape, UnicodeEscape, Decodes;
    if Plain(t, v) {
      PlainDecodes(s, at, t, end, v);
    } else if ShortEscape(t, v) {
      ShortLength(t, v);
      ShortDecodes(s, at, t, end, v);
    } else if UnicodeEscape(t, v) {
      EscapeLength(t, v);
      EscapeDecodes(s, at, end, v);
    } else {
      PairDecodes(s, at, end, v);
    }
  }

  lemma ShortLength(t: bytes, v: nat)
    requires ShortEscape(t, v)
    ensures |t| == 2
  {}

  lemma EscapeLength(t: bytes, v: nat)
    requires UnicodeEscape(t, v)
    ensures |t| == 6
  {}

  // ---------------------------------------------------------------- whole strings

  /** A character and how it is spelled. */
  datatype Char = Char(value: scalar, text: bytes)

  predicate Spelt(chars: seq<Char>) {
    forall i | 0 <= i < |chars| :: Spells(chars[i].text, chars[i].value)
  }

  function TextOf(chars: seq<Char>): bytes {
    if chars == [] then [] else chars[0].text + TextOf(chars[1..])
  }

  function ValuesOf(chars: seq<Char>): seq<scalar> {
    if chars == [] then [] else [chars[0].value] + ValuesOf(chars[1..])
  }

  lemma NoChars(s: bytes, end: nat)
    requires end < |s| && s[end] == QUOTE
    ensures FindQuote(s, end) == Some(end) && Decode(s, end, end) == Some([])
  {}

  lemma FirstChar(s: bytes, at: nat, chars: seq<Char>, end: nat)
    requires Spelt(chars) && chars != [] && at <= end <= |s| && s[at..end] == TextOf(chars)
    ensures Spells(chars[0].text, chars[0].value) && at + |chars[0].text| <= end
    ensures s[at..at + |chars[0].text|] == chars[0].text
    ensures Spelt(chars[1..]) && s[at + |chars[0].text|..end] == TextOf(chars[1..])
  {
    hide Spells;
    var t := chars[0].text;
    assert s[at..at + |t|] == s[at..end][..|t|];
    assert s[at + |t|..end] == s[at..end][|t|..];
  }

  lemma DecodedFirst(s: bytes, at: nat, n: nat, end: nat, v: scalar, rest: bytes)
    requires at + n <= end < |s| && Decodes(s, at, n, end, v)
    requires FindQuote(s, at + n) == Some(end) && Decode(s, at + n, end) == Some(rest)
    ensures FindQuote(s, at) == Some(end) && Decode(s, at, end) == Some(Utf8(v) + rest)
  {
    hide FindQuote, Decode, Utf8;
  }

  lemma {:induction false} CharsDecode(s: bytes, at: nat, chars: seq<Char>, end: nat)
    requires Spelt(chars) && at <= end < |s| && s[at..end] == TextOf(chars) && s[end] == QUOTE
    ensures FindQuote(s, at) == Some(end)
    ensures Decode(s, at, end) == Some(Utf8Text(ValuesOf(chars)))
    decreases |chars|
  {
    hide Spells, Spelt, Utf8, FindQuote, Decode, Decodes;
    if chars == [] {
      NoChars(s, end);
    } else {
      var t, v := chars[0].text, chars[0].value;
      FirstChar(s, at, chars, end);
      SpellingDecodes(s, at, t, end, v);
      CharsDecode(s, at + |t|, chars[1..], end);
      DecodedFirst(s, at, |t|, end, v, Utf8Text(ValuesOf(chars[1..])));
      assert ValuesOf(chars)[1..] == ValuesOf(chars[1..]);
    }
  }

  /** A JSON string is read as the characters it spells: whatever the spelling of each, what is kept
      is UTF-8 for exactly these characters, and reading goes on after the closing quote. */
  lemma StringReads(s: bytes, i: nat, chars: seq<Char>)
    requires Spelt(chars) && Holds(s, i, [QUOTE] + TextOf(chars) + [QUOTE])
    ensures StringAt(s, i) == Some(Text(Utf8Text(ValuesOf(chars)), i + 2 + |TextOf(chars)|))
    ensures ReadAll(Utf8Text(ValuesOf(chars))) == Some(ValuesOf(chars))
  {
    hide FindQuote, Decode, ReadAll, TextOf, ValuesOf, Utf8Text, Spelt;
    var text, end := TextOf(chars), i + 1 + |TextOf(chars)|;
    HoldsParts(s, i, [QUOTE] + text, [QUOTE]);
    HoldsParts(s, i, [QUOTE], text);
    HoldsByte(s, end, [QUOTE], 0);
    CharsDecode(s, i + 1, chars, end);
    Utf8TextRead(ValuesOf(chars));
  }

  // ---------------------------------------------------------------- what is refused

  predicate Low(v: nat) {
    0xDC00 <= v < 0xE000
  }

  /** A surrogate that is not the first of a pair makes the whole string malformed. */
  lemma LoneSurrogate(s: bytes, at: nat, end: nat, v: nat)
    requires at + 6 <= end < |s| && UnicodeEscape(s[at..at + 6], v) && !Scalar(v)
    requires !Low(v) && at + 12 <= end ==> forall w | UnicodeEscape(s[at + 6..at + 12], w) :: !Low(w)
    ensures Decode(s, at, end) == None
  {
    hide Hex4, HexText;
    SeenEscape(s, at, end, v);
    var rest := s[at..end];
    if !Low(v) && at + 12 <= end && rest[6] == BACKSLASH && rest[7] == 0x75 {
      var second := s[at + 6..at + 12];
      Slice(s, at, end, 8, 12);
      Slice(s, at + 6, at + 12, 2, 6);
      assert second[2..] == second[2..6] && second[0] == rest[6] && second[1] == rest[7];
      NoHexIsZero(second[2..]);
      assert Low(Hex4(second[2..])) ==> UnicodeEscape(second, Hex4(second[2..]));
    }
  }
}

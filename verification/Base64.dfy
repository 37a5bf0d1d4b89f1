/** Base64 as the card library reads it (euicc/src/b64.rs), against the encoding of RFC 4648
    section 4. Text is a byte string; shifts on octets are written as arithmetic. */
module Base64 {
  import opened Wrappers
  import opened Bytes

  type sextet = s: int | 0 <= s < 64

  const PAD: byte := 0x3D

  function Sextet(c: byte): Option<sextet> {
    if 0x41 <= c <= 0x5A then Some(c - 0x41)
    else if 0x61 <= c <= 0x7A then Some(c - 0x61 + 26)
    else if 0x30 <= c <= 0x39 then Some(c - 0x30 + 52)
    else if c == 0x2B then Some(62)
    else if c == 0x2F then Some(63)
    else None
  }

  /** The leading run of alphabet characters. */
  function Sextets(text: bytes): seq<sextet> {
    if text == [] || Sextet(text[0]).None? then [] else [Sextet(text[0]).value] + Sextets(text[1..])
  }

  function FirstOctet(a: int, b: int): byte
    requires 0 <= a < 64 && 0 <= b < 64
  {
    a * 4 + b / 16
  }

  function SecondOctet(b: int, c: int): byte
    requires 0 <= b < 64 && 0 <= c < 64
  {
    b % 16 * 16 + c / 4
  }

  function ThirdOctet(c: int, d: int): byte
    requires 0 <= c < 64 && 0 <= d < 64
  {
    c % 4 * 64 + d
  }

  /** The octets of one group of one to four characters. */
  function Group(g: seq<sextet>): (r: bytes)
    requires 1 <= |g| <= 4
    ensures |r| == |g| - 1
  {
    (if |g| >= 2 then [FirstOctet(g[0], g[1])] else [])
    + (if |g| >= 3 then [SecondOctet(g[1], g[2])] else [])
    + (if |g| == 4 then [ThirdOctet(g[2], g[3])] else [])
  }

  function Groups(s: seq<sextet>): bytes {
    if s == [] then []
    else if |s| < 4 then Group(s)
    else Group(s[..4]) + Groups(s[4..])
  }

  function Decode(text: bytes): bytes {
    Groups(Sextets(text))
  }

  /** The loop over groups of four, pushing one to three octets for each. */
  method DecodeText(text: bytes) returns (out: bytes)
    ensures out == Decode(text)
  {
    hide Groups, Sextets, FirstOctet, SecondOctet, ThirdOctet;
    var s := Sextets(text);
    out := [];
    var i := 0;
    assert s[0..] == s;
    while i < |s|
      invariant 0 <= i <= |s|
      invariant out + Groups(s[i..]) == Groups(s)
    {
      var n := if |s| - i < 4 then |s| - i else 4;
      var group := s[i..i + n];
      ghost var before := out;
      if |group| >= 2 {
        out := out + [FirstOctet(group[0], group[1])];
      }
      if |group| >= 3 {
        out := out + [SecondOctet(group[1], group[2])];
      }
      if |group| == 4 {
        out := out + [ThirdOctet(group[2], group[3])];
      }
      assert out == before + Group(group);
      GroupsStep(s[i..], group);
      assert s[i..][n..] == s[i + n..];
      i := i + n;
    }
    NoGroups();
    assert s[i..] == [];
  }

  lemma NoGroups()
    ensures Groups([]) == []
  {}

  lemma GroupsStep(s: seq<sextet>, group: seq<sextet>)
    requires s != [] && group == s[..if |s| < 4 then |s| else 4]
    ensures Groups(s) == Group(group) + Groups(s[|group|..])
  {
    if |s| < 4 {
      assert group == s;
    }
  }

  // ---------------------------------------------------------------- bits in order

  /** The octets of a group are the bits of its characters in order, and those left over are dropped
      whatever they are. */
  lemma GroupBits(g: seq<sextet>)
    requires 1 <= |g| <= 4
    ensures |g| == 2 ==> Big(Group(g)) == Six(g) / 16
    ensures |g| == 3 ==> Big(Group(g)) == Six(g) / 4
    ensures |g| == 4 ==> Big(Group(g)) == Six(g)
  {}

  /** A number of one to three octets, the most significant first. */
  function Big(b: bytes): int {
    var n: seq<int> := b;
    match |n|
    case 1 => n[0]
    case 2 => 256 * n[0] + n[1]
    case 3 => 65_536 * n[0] + 256 * n[1] + n[2]
    case _ => 0
  }

  /** The same of up to four groups of six bits. */
  function Six(g: seq<sextet>): int {
    var n: seq<int> := g;
    match |n|
    case 2 => 64 * n[0] + n[1]
    case 3 => 4096 * n[0] + 64 * n[1] + n[2]
    case 4 => 262_144 * n[0] + 4096 * n[1] + 64 * n[2] + n[3]
    case _ => 0
  }

  lemma FirstGroup(s: seq<sextet>)
    requires |s| >= 4
    ensures Groups(s) == Group(s[..4]) + Groups(s[4..]) && |Group(s[..4])| == 3
  {}

  lemma {:induction false} DecodedLength(s: seq<sextet>)
    ensures |Groups(s)| == 3 * (|s| / 4) + (if |s| % 4 == 0 then 0 else |s| % 4 - 1)
    decreases |s|
  {
    hide Group;
    if |s| >= 4 {
      hide Groups;
      FirstGroup(s);
      DecodedLength(s[4..]);
    }
  }

  /** The characters of group `k`: four, or what is left. */
  function GroupOf(s: seq<sextet>, k: nat): seq<sextet>
    requires 4 * k < |s|
  {
    s[4 * k..if 4 * k + 4 <= |s| then 4 * k + 4 else |s|]
  }

  lemma Shifted(a: bytes, b: bytes, i: nat, n: nat)
    requires |a| == 3 && i + n <= |b|
    ensures (a + b)[i + 3..i + 3 + n] == b[i..i + n]
  {}

  lemma GroupOfRest(s: seq<sextet>, k: nat)
    requires 0 < k && 4 * k < |s|
    ensures 4 * (k - 1) < |s[4..]| && GroupOf(s[4..], k - 1) == GroupOf(s, k)
  {
    var a, b := GroupOf(s[4..], k - 1), GroupOf(s, k);
    assert |a| == |b|;
    forall i | 0 <= i < |a|
      ensures a[i] == b[i]
    {
      assert a[i] == s[4..][4 * (k - 1) + i] && b[i] == s[4 * k + i];
    }
  }

  /** Every group is decoded on its own, to its place. */
  lemma {:induction false} GroupsAt(s: seq<sextet>, k: nat)
    requires 4 * k < |s|
    ensures var g := Group(GroupOf(s, k)); 3 * k + |g| <= |Groups(s)| && Groups(s)[3 * k..3 * k + |g|] == g
    decreases |s|
  {
    hide Group;
    if |s| < 4 {
      assert GroupOf(s, k) == s;
    } else {
      hide Groups;
      FirstGroup(s);
      if k > 0 {
        GroupOfRest(s, k);
        GroupsAt(s[4..], k - 1);
        var g := Group(GroupOf(s, k));
        Shifted(Group(s[..4]), Groups(s[4..]), 3 * (k - 1), |g|);
      } else {
        assert GroupOf(s, 0) == s[..4];
        assert Groups(s)[..3] == Group(s[..4]);
      }
    }
  }

  const UPPER := "ABCDEFGHIJKLMNOPQRSTUVWXYZ"
  const LOWER := "abcdefghijklmnopqrstuvwxyz"
  const DIGITS := "0123456789"
  const ALPHABET := UPPER + LOWER + DIGITS + "+/"

  /** The characters are those of the standard alphabet, each with its place in it. */
  lemma AlphabetExactly(c: byte, s: sextet)
    ensures Sextet(c) == Some(s) <==> c as char == ALPHABET[s]
    ensures PAD as char == '='
  {
    hide ALPHABET, UPPER, LOWER, DIGITS, Sextet, Letter;
    LetterAt(s);
    OnlyLetter(c, s);
  }

  lemma LetterAt(s: sextet)
    ensures Letter(s) as char == ALPHABET[s]
  {
    InAlphabet(s);
    hide ALPHABET, UPPER, LOWER, DIGITS;
    if s < 26 {
      UpperAt(s);
    } else if s < 52 {
      LowerAt(s - 26);
    } else if s < 62 {
      DigitAt(s - 52);
    }
  }

  lemma OnlyLetter(c: byte, s: sextet)
    ensures Sextet(c) == Some(s) <==> c == Letter(s)
  {}

  lemma InAlphabet(s: nat)
    requires s < 64
    ensures ALPHABET[s] == if s < 26 then UPPER[s] else if s < 52 then LOWER[s - 26]
                           else if s < 62 then DIGITS[s - 52] else "+/"[s - 62]
  {
    assert |UPPER| == 26 && |LOWER| == 26 && |DIGITS| == 10;
  }

  lemma UpperAt(k: nat)
    requires k < 26
    ensures UPPER[k] == (0x41 + k) as char
  {}

  lemma LowerAt(k: nat)
    requires k < 26
    ensures LOWER[k] == (0x61 + k) as char
  {}

  lemma DigitAt(k: nat)
    requires k < 10
    ensures DIGITS[k] == (0x30 + k) as char
  {}

  function Letter(s: sextet): (c: byte)
    ensures Sextet(c) == Some(s)
  {
    if s < 26 then 0x41 + s
    else if s < 52 then 0x61 + s - 26
    else if s < 62 then 0x30 + s - 52
    else if s == 62 then 0x2B
    else 0x2F
  }

  /** The six-bit pieces of up to three octets, most significant first. */
  function Pieces(b: bytes): (r: seq<sextet>)
    requires 1 <= |b| <= 3
    ensures |r| == |b| + 1
  {
    [(b[0] / 4) as sextet]
    + [(b[0] % 4 * 16 + (if |b| > 1 then b[1] / 16 else 0)) as sextet]
    + (if |b| > 1 then [(b[1] % 16 * 4 + (if |b| > 2 then b[2] / 64 else 0)) as sextet] else [])
    + (if |b| > 2 then [(b[2] % 64) as sextet] else [])
  }

  function Letters(s: seq<sextet>): (r: bytes)
    ensures |r| == |s|
  {
    if s == [] then [] else [Letter(s[0])] + Letters(s[1..])
  }

  /** Characters for every three octets, the last group padded to four. */
  function Encode(b: bytes): bytes {
    if b == [] then []
    else if |b| == 1 then Letters(Pieces(b)) + [PAD, PAD]
    else if |b| == 2 then Letters(Pieces(b)) + [PAD]
    else Letters(Pieces(b[..3])) + Encode(b[3..])
  }

  lemma SextetsCons(v: sextet, text: bytes)
    ensures Sextets([Letter(v)] + text) == [v] + Sextets(text)
  {
    hide Letter, Sextet;
    assert ([Letter(v)] + text)[1..] == text;
  }

  lemma {:induction false} SextetsOfLetters(s: seq<sextet>, rest: bytes)
    ensures Sextets(Letters(s) + rest) == s + Sextets(rest)
  {
    hide Letter, Sextet, Sextets;
    if s == [] {
      assert Letters(s) + rest == rest;
    } else {
      SextetsOfLetters(s[1..], rest);
      SextetsCons(s[0], Letters(s[1..]) + rest);
      assert Letters(s) + rest == [Letter(s[0])] + (Letters(s[1..]) + rest);
      assert s + Sextets(rest) == [s[0]] + (s[1..] + Sextets(rest));
    }
  }

  lemma FirstBack(x: byte, y: nat)
    requires y < 16
    ensures FirstOctet(x / 4, x % 4 * 16 + y) == x
  {}

  lemma SecondBack(h: nat, x: byte, y: nat)
    requires h < 4 && y < 4
    ensures SecondOctet(h * 16 + x / 16, x % 16 * 4 + y) == x
  {
    Remainder(h, x / 16, 16);
    Remainder(x % 16, y, 4);
  }

  lemma Remainder(q: nat, r: nat, n: nat)
    requires n in {4, 16, 64} && r < n
    ensures (q * n + r) / n == q && (q * n + r) % n == r
  {}

  lemma ThirdBack(h: nat, x: byte)
    requires h < 16
    ensures ThirdOctet(h * 4 + x / 64, x % 64) == x
  {}

  lemma GroupOfPieces(b: bytes)
    requires 1 <= |b| <= 3
    ensures Group(Pieces(b)) == b
  {
    hide FirstOctet, SecondOctet, ThirdOctet;
    var p := Pieces(b);
    FirstBack(b[0], if |b| > 1 then b[1] / 16 else 0);
    if |b| > 1 {
      SecondBack(b[0] % 4, b[1], if |b| > 2 then b[2] / 64 else 0);
    }
    if |b| > 2 {
      ThirdBack(b[1] % 16, b[2]);
    }
    if |b| == 1 {
      assert |p| == 2 && Group(p) == [FirstOctet(p[0], p[1])];
    } else if |b| == 2 {
      assert |p| == 3 && Group(p) == [FirstOctet(p[0], p[1]), SecondOctet(p[1], p[2])];
    } else {
      assert |p| == 4;
      assert Group(p) == [FirstOctet(p[0], p[1]), SecondOctet(p[1], p[2]), ThirdOctet(p[2], p[3])];
    }
  }

  lemma Piecewise(s: seq<sextet>, rest: seq<sextet>)
    requires |s| == 4
    ensures Groups(s + rest) == Group(s) + Groups(rest)
  {
    assert (s + rest)[..4] == s && (s + rest)[4..] == rest;
  }

  /** Decoding undoes encoding, whatever follows the first character outside the alphabet: padding
      itself is one, so only an unpadded encoding needs one. */
  lemma {:induction false} DecodeEncode(b: bytes, after: bytes)
    requires |b| % 3 != 0 || after == [] || Sextet(after[0]).None?
    ensures Decode(Encode(b) + after) == b
    decreases |b|
  {
    hide Group, Pieces, Letters, Sextet;
    if b == [] {
      assert Encode(b) + after == after;
    } else if |b| < 3 {
      var pad := if |b| == 1 then [PAD, PAD] else [PAD];
      assert Sextet(PAD).None? by { PadIsNoLetter(); }
      assert Encode(b) + after == Letters(Pieces(b)) + (pad + after);
      SextetsOfLetters(Pieces(b), pad + after);
      assert Sextets(pad + after) == [];
      assert Pieces(b) + [] == Pieces(b);
      GroupOfPieces(b);
    } else {
      var head := Pieces(b[..3]);
      DecodeEncode(b[3..], after);
      assert Encode(b) + after == Letters(head) + (Encode(b[3..]) + after);
      SextetsOfLetters(head, Encode(b[3..]) + after);
      Piecewise(head, Sextets(Encode(b[3..]) + after));
      GroupOfPieces(b[..3]);
    }
  }

  lemma PadIsNoLetter()
    ensures Sextet(PAD).None?
  {}

  /** Only the leading run of alphabet characters counts. */
  lemma {:induction false} RestIgnored(text: bytes, k: nat)
    requires k < |text| && Sextet(text[k]).None?
    ensures Decode(text) == Decode(text[..k])
  {
    SextetsCut(text, k);
  }

  lemma {:induction false} SextetsCut(text: bytes, k: nat)
    requires k < |text| && Sextet(text[k]).None?
    ensures Sextets(text) == Sextets(text[..k])
  {
    if k > 0 && Sextet(text[0]).Some? {
      SextetsCut(text[1..], k - 1);
      assert text[..k][1..] == text[1..][..k - 1];
    }
  }
}

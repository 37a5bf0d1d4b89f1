/** Hexadecimal text and the swapped-nibble form cards use for ICCIDs (euicc/src/hex.rs; ETSI TS
    102 221 section 13.2). Text is a byte string. */
module Hex {
  import opened Wrappers
  import opened Bytes

  const F: byte := 0x66

  function DigitOf(v: nat): byte
    requires v < 16
  {
    if v < 10 then 0x30 + v else 0x61 + v - 10
  }

  function ValueOf(c: byte): (r: Option<nat>)
    ensures r.Some? ==> r.value < 16
  {
    if 0x30 <= c <= 0x39 then Some(c - 0x30)
    else if 0x61 <= c <= 0x66 then Some(c - 0x61 + 10)
    else if 0x41 <= c <= 0x46 then Some(c - 0x41 + 10)
    else None
  }

  function Encode(bin: bytes): (r: bytes)
    ensures |r| == 2 * |bin|
  {
    if bin == [] then []
    else Encode(bin[..|bin| - 1]) + [DigitOf(bin[|bin| - 1] / 16), DigitOf(bin[|bin| - 1] % 16)]
  }

  method EncodeBytes(bin: bytes) returns (out: bytes)
    ensures out == Encode(bin)
  {
    out := [];
    for i := 0 to |bin|
      invariant out == Encode(bin[..i])
    {
      out := out + [DigitOf(bin[i] / 16)];
      out := out + [DigitOf(bin[i] % 16)];
      assert bin[..i + 1][..i] == bin[..i];
    }
    assert bin[..|bin|] == bin;
  }

  /** Nothing for an odd number of characters or one that is no digit. */
  function Decode(text: bytes): (r: Option<bytes>)
    ensures r.Some? ==> |text| == 2 * |r.value|
  {
    if text == [] then Some([])
    else if |text| == 1 then None
    else
      var high, low, rest := ValueOf(text[0]), ValueOf(text[1]), Decode(text[2..]);
      if high.None? || low.None? || rest.None? then None
      else Some([(high.value * 16 + low.value) as byte] + rest.value)
  }

  function SwapPairs(s: bytes): (r: bytes)
    ensures |r| == |s|
  {
    if |s| < 2 then s else [s[1], s[0]] + SwapPairs(s[2..])
  }

  lemma {:induction false} SwapAt(s: bytes, k: nat)
    requires |s| % 2 == 0 && 2 * k < |s|
    ensures SwapPairs(s)[2 * k] == s[2 * k + 1] && SwapPairs(s)[2 * k + 1] == s[2 * k]
  {
    var rest := SwapPairs(s[2..]);
    assert SwapPairs(s) == [s[1], s[0]] + rest;
    if k > 0 {
      hide SwapPairs;
      SwapAt(s[2..], k - 1);
      assert SwapPairs(s)[2 * k] == rest[2 * (k - 1)] && SwapPairs(s)[2 * k + 1] == rest[2 * (k - 1) + 1];
    }
  }

  method SwapInPlace(a: array<byte>)
    requires a.Length % 2 == 0
    modifies a
    ensures a[..] == SwapPairs(old(a[..]))
  {
    ghost var was := a[..];
    var i := 0;
    while i < a.Length
      invariant 0 <= i <= a.Length && i % 2 == 0
      invariant forall k | 0 <= 2 * k < i :: a[2 * k] == was[2 * k + 1] && a[2 * k + 1] == was[2 * k]
      invariant forall j | i <= j < a.Length :: a[j] == was[j]
    {
      ghost var half := i / 2;
      a[i], a[i + 1] := a[i + 1], a[i];
      assert a[2 * half] == was[2 * half + 1] && a[2 * half + 1] == was[2 * half];
      i := i + 2;
    }
    forall j | 0 <= j < a.Length
      ensures a[j] == SwapPairs(was)[j]
    {
      SwapAt(was, j / 2);
      assert j == 2 * (j / 2) || j == 2 * (j / 2) + 1;
    }
  }

  /** Without trailing `f`, but never without the first character. */
  function StripF(s: bytes): (r: bytes)
    ensures |r| <= |s| && r == s[..|r|] && (s != [] ==> r != [])
  {
    if |s| > 1 && s[|s| - 1] == F then StripF(s[..|s| - 1]) else s
  }

  function BcdToIccid(bin: bytes): bytes {
    StripF(SwapPairs(Encode(bin)))
  }

  method BcdText(bin: bytes) returns (r: bytes)
    ensures r == BcdToIccid(bin)
  {
    var text := EncodeBytes(bin);
    var chars := new byte[|text|](i requires 0 <= i < |text| => text[i]);
    assert chars[..] == text;
    SwapInPlace(chars);
    r := chars[..];
    while |r| > 1 && r[|r| - 1] == F
      invariant StripF(r) == BcdToIccid(bin)
      decreases |r|
    {
      r := r[..|r| - 1];
    }
  }

  function Repeat(c: byte, n: nat): (r: bytes)
    ensures |r| == n && forall i | 0 <= i < n :: r[i] == c
  {
    seq(n, _ => c)
  }

  function IccidToBcd(digits: bytes, padding: nat): (r: Option<bytes>)
    ensures r.Some? ==> |r.value| == padding
  {
    var even := if |digits| % 2 != 0 then digits + [F] else digits;
    var out := Decode(SwapPairs(even));
    if out.None? || |out.value| > padding then None
    else Some(out.value + Repeat(0xFF, padding - |out.value|))
  }

  method IccidBytes(digits: bytes, padding: nat) returns (r: Option<bytes>)
    ensures r == IccidToBcd(digits, padding)
  {
    var even := digits;
    if |even| % 2 != 0 {
      even := even + [F];
    }
    var chars := new byte[|even|](i requires 0 <= i < |even| => even[i]);
    assert chars[..] == even;
    SwapInPlace(chars);
    var out := Decode(chars[..]);
    if out.None? || |out.value| > padding {
      return None;
    }
    return Some(out.value + Repeat(0xFF, padding - |out.value|));
  }

  // ---------------------------------------------------------------- what is a digit

  /** The digits are 0 to 9 and a to f in either case, and are written in lower case. */
  lemma DigitsExactly(c: byte, d: nat)
    ensures ValueOf(c) == Some(d)
       <==> d < 16 && (c as char == "0123456789abcdef"[d] || c as char == "0123456789ABCDEF"[d])
    ensures d < 16 ==> DigitOf(d) as char == "0123456789abcdef"[d]
  {}

  predicate AllHex(text: bytes) {
    forall k | 0 <= k < |text| :: ValueOf(text[k]).Some?
  }

  /** Text is decoded if and only if it is pairs of digits. */
  lemma {:induction false} DecodeExactly(text: bytes)
    ensures Decode(text).Some? <==> |text| % 2 == 0 && AllHex(text)
  {
    hide ValueOf;
    if |text| > 1 {
      DecodeExactly(text[2..]);
      assert text == [text[0], text[1]] + text[2..];
    }
  }

  lemma SwappedAt(s: bytes, k: nat)
    requires |s| % 2 == 0 && k < |s|
    ensures var other := if k % 2 == 0 then k + 1 else k - 1;
            other < |s| && SwapPairs(s)[k] == s[other] && SwapPairs(s)[other] == s[k]
  {
    hide SwapPairs;
    SwapAt(s, k / 2);
    assert k == 2 * (k / 2) || k == 2 * (k / 2) + 1;
  }

  lemma SwapHex(s: bytes)
    requires |s| % 2 == 0
    ensures AllHex(SwapPairs(s)) <==> AllHex(s)
  {
    hide ValueOf, SwapPairs;
    forall k | 0 <= k < |s|
      ensures AllHex(s) ==> ValueOf(SwapPairs(s)[k]).Some?
      ensures AllHex(SwapPairs(s)) ==> ValueOf(s[k]).Some?
    {
      SwappedAt(s, k);
    }
  }

  /** An ICCID is refused exactly when it has a character that is no digit or does not fit. */
  lemma IccidRefused(digits: bytes, padding: nat)
    ensures IccidToBcd(digits, padding).None? <==> !AllHex(digits) || (|digits| + 1) / 2 > padding
  {
    hide ValueOf, Decode, SwapPairs;
    var even := if |digits| % 2 != 0 then digits + [F] else digits;
    DecodeExactly(SwapPairs(even));
    SwapHex(even);
    DigitsExactly(F, 15);
    assert AllHex(even) <==> AllHex(digits) by {
      if |digits| % 2 != 0 {
        assert even[|digits|] == F;
        assert forall k | 0 <= k < |digits| :: even[k] == digits[k];
      }
    }
  }

  // ---------------------------------------------------------------- round trips

  lemma DigitValue(v: nat)
    requires v < 16
    ensures ValueOf(DigitOf(v)) == Some(v) && (DigitOf(v) == F <==> v == 15)
  {}

  lemma {:induction false} EncodeFront(bin: bytes)
    requires bin != []
    ensures Encode(bin) == [DigitOf(bin[0] / 16), DigitOf(bin[0] % 16)] + Encode(bin[1..])
  {
    if |bin| == 1 {
      assert bin[..0] == [] && bin[1..] == [];
    } else {
      EncodeFront(bin[..|bin| - 1]);
      assert bin[..|bin| - 1][1..] == bin[1..][..|bin| - 2];
    }
  }

  lemma {:induction false} DecodeEncode(bin: bytes)
    ensures Decode(Encode(bin)) == Some(bin)
  {
    if bin != [] {
      EncodeFront(bin);
      DigitValue(bin[0] / 16);
      DigitValue(bin[0] % 16);
      DecodeEncode(bin[1..]);
      assert Encode(bin)[2..] == Encode(bin[1..]);
      assert [bin[0]] + bin[1..] == bin;
    }
  }

  lemma {:induction false} EncodePrefix(bin: bytes, m: nat)
    requires m <= |bin|
    ensures Encode(bin)[..2 * m] == Encode(bin[..m])
  {
    if m < |bin| {
      EncodePrefix(bin[..|bin| - 1], m);
      assert bin[..|bin| - 1][..m] == bin[..m];
    } else {
      assert bin[..m] == bin;
    }
  }

  lemma {:induction false} EncodeAt(bin: bytes, k: nat)
    requires k < |bin|
    ensures Encode(bin)[2 * k] == DigitOf(bin[k] / 16) && Encode(bin)[2 * k + 1] == DigitOf(bin[k] % 16)
  {
    if k < |bin| - 1 {
      EncodeAt(bin[..|bin| - 1], k);
    }
  }

  lemma {:induction false} SwapTwice(s: bytes)
    requires |s| % 2 == 0
    ensures SwapPairs(SwapPairs(s)) == s
  {
    if s != [] {
      SwapTwice(s[2..]);
      assert SwapPairs(s)[2..] == SwapPairs(s[2..]);
    }
  }

  lemma {:induction false} SwapPrefix(s: bytes, m: nat)
    requires |s| % 2 == 0 && 2 * m <= |s|
    ensures SwapPairs(s)[..2 * m] == SwapPairs(s[..2 * m])
  {
    if m > 0 {
      SwapPrefix(s[2..], m - 1);
      assert s[..2 * m][2..] == s[2..][..2 * m - 2];
      assert SwapPairs(s)[..2 * m] == [s[1], s[0]] + SwapPairs(s[2..])[..2 * m - 2];
    }
  }

  lemma {:induction false} OnlyFStripped(s: bytes)
    ensures forall i | |StripF(s)| <= i < |s| :: s[i] == F
  {
    if |s| > 1 && s[|s| - 1] == F {
      OnlyFStripped(s[..|s| - 1]);
    }
  }

  /** Card bytes to ICCID text and back, for every byte string. */
  lemma BcdRoundTrip(bin: bytes)
    ensures IccidToBcd(BcdToIccid(bin), |bin|) == Some(bin)
  {
    hide Encode, Decode, SwapPairs, StripF, DigitOf, ValueOf;
    var chars := SwapPairs(Encode(bin));
    var text := StripF(chars);
    OnlyFStripped(chars);
    var even := if |text| % 2 != 0 then text + [F] else text;
    var m := |even| / 2;
    assert even == chars[..2 * m];
    SwapPrefix(chars, m);
    SwapTwice(Encode(bin));
    EncodePrefix(bin, m);
    assert SwapPairs(even) == Encode(bin[..m]);
    DecodeEncode(bin[..m]);
    forall k | m <= k < |bin|
      ensures bin[k] == 0xFF
    {
      SwapAt(Encode(bin), k);
      EncodeAt(bin, k);
      DigitValue(bin[k] / 16);
      DigitValue(bin[k] % 16);
      assert chars[2 * k] == F && chars[2 * k + 1] == F;
    }
    assert bin == bin[..m] + Repeat(0xFF, |bin| - m);
  }

  predicate Decimal(s: bytes) {
    forall i | 0 <= i < |s| :: 0x30 <= s[i] <= 0x39
  }

  lemma DigitAgain(c: byte)
    requires 0x30 <= c <= 0x39 || c == F
    ensures ValueOf(c).Some? && DigitOf(ValueOf(c).value) == c
  {}

  /** Text of lower-case digits is decoded to bytes whose text it is. */
  lemma {:induction false} EncodeDecode(s: bytes)
    requires |s| % 2 == 0 && forall i | 0 <= i < |s| :: 0x30 <= s[i] <= 0x39 || s[i] == F
    ensures Decode(s).Some? && Encode(Decode(s).value) == s
  {
    hide Encode, DigitOf, ValueOf;
    if s == [] {
      EncodeNothing();
    } else {
      DigitAgain(s[0]);
      DigitAgain(s[1]);
      EncodeDecode(s[2..]);
      var bin := Decode(s).value;
      EncodeFront(bin);
      assert bin[1..] == Decode(s[2..]).value;
      assert s == [s[0], s[1]] + s[2..];
    }
  }

  lemma EncodeNothing()
    ensures Encode([]) == []
  {}

  lemma {:induction false} SwapKeepsDigits(s: bytes)
    requires |s| % 2 == 0 && forall i | 0 <= i < |s| :: 0x30 <= s[i] <= 0x39 || s[i] == F
    ensures forall i | 0 <= i < |s| :: 0x30 <= SwapPairs(s)[i] <= 0x39 || SwapPairs(s)[i] == F
  {
    if s != [] {
      SwapKeepsDigits(s[2..]);
    }
  }

  lemma {:induction false} StripPadding(s: bytes, n: nat)
    requires s != [] && s[|s| - 1] != F
    ensures StripF(s + Repeat(F, n)) == s
  {
    if n > 0 {
      StripPadding(s, n - 1);
      assert (s + Repeat(F, n))[..|s| + n - 1] == s + Repeat(F, n - 1);
    } else {
      assert s + Repeat(F, 0) == s;
    }
  }

  /** A non-empty decimal ICCID fits exactly when it needs no more bytes than there are, and then
      reads back as the same digits. */
  lemma IccidRoundTrip(digits: bytes, padding: nat)
    requires digits != [] && Decimal(digits)
    ensures var b := IccidToBcd(digits, padding);
            && (b.Some? <==> (|digits| + 1) / 2 <= padding)
            && (b.Some? ==> BcdToIccid(b.value) == digits)
  {
    hide Encode, Decode, SwapPairs, StripF, ValueOf, DigitOf;
    var even := if |digits| % 2 != 0 then digits + [F] else digits;
    SwapKeepsDigits(even);
    EncodeDecode(SwapPairs(even));
    var out := Decode(SwapPairs(even)).value;
    if |out| <= padding {
      var b := IccidToBcd(digits, padding).value;
      var m := |out|;
      var chars := SwapPairs(Encode(b));
      EncodePrefix(b, m);
      assert b[..m] == out;
      SwapPrefix(Encode(b), m);
      SwapTwice(even);
      assert chars[..2 * m] == even;
      forall k | m <= k < padding
        ensures chars[2 * k] == F && chars[2 * k + 1] == F
      {
        SwapAt(Encode(b), k);
        EncodeAt(b, k);
        DigitValue(15);
      }
      assert forall i | 2 * m <= i < |chars| :: chars[i] == F by {
        forall i | 2 * m <= i < |chars|
          ensures chars[i] == F
        {
          var k := i / 2;
          assert i == 2 * k || i == 2 * k + 1;
        }
      }
      assert chars == digits + Repeat(F, |chars| - |digits|);
      StripPadding(digits, |chars| - |digits|);
    }
  }
}

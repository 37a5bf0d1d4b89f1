/** Where a number ends: at the longest text that C's `strtod` reads as a decimal number
    (euicc/src/es9p.rs; ISO/IEC 9899 section 7.22.1.3). */
module JsonNumber {
  import opened Wrappers
  import opened Bytes
  import opened Json

  // ---------------------------------------------------------------- the grammar

  predicate AllDigits(t: bytes) {
    forall i | 0 <= i < |t| :: Digit(t[i])
  }

  /** Digits, of which `k` come before a point, if there is one; at least one digit in all. */
  predicate MantissaAt(t: bytes, k: nat) {
    && k <= |t| && AllDigits(t[..k])
    && (if k == |t| then k > 0 else t[k] == POINT && AllDigits(t[k + 1..]) && |t| > 1)
  }

  ghost predicate Mantissa(t: bytes) {
    exists k: nat :: MantissaAt(t, k)
  }

  function Unsigned(t: bytes): bytes {
    if SignAt(t, 0) then t[1..] else t
  }

  predicate Exponent(t: bytes) {
    t != [] && ExponentMark(t[0]) && Unsigned(t[1..]) != [] && AllDigits(Unsigned(t[1..]))
  }

  /** The first `m` bytes after the sign are a mantissa, and any others an exponent. */
  ghost predicate DecimalAt(t: bytes, m: nat) {
    var u := Unsigned(t);
    m <= |u| && Mantissa(u[..m]) && (m < |u| ==> Exponent(u[m..]))
  }

  /** A decimal floating-point number: an optional sign, a mantissa and an optional exponent. */
  ghost predicate Decimal(t: bytes) {
    exists m: nat :: DecimalAt(t, m)
  }

  // ---------------------------------------------------------------- runs of digits

  lemma {:induction false} DigitsAre(s: bytes, i: nat)
    ensures var n := Digits(s, i);
            && (forall j | i <= j < i + n :: j < |s| && Digit(s[j]))
            && (i + n < |s| ==> !Digit(s[i + n]))
    decreases |s| - i
  {
    if i < |s| && Digit(s[i]) {
      DigitsAre(s, i + 1);
    }
  }

  /** No longer stretch of digits starts there; one that ends before something else is all of them. */
  lemma DigitsLongest(s: bytes, i: nat, end: nat)
    requires i <= end <= |s| && AllDigits(s[i..end])
    ensures end <= i + Digits(s, i)
    ensures end < |s| && !Digit(s[end]) ==> end == i + Digits(s, i)
  {
    DigitsAre(s, i);
    forall j | i <= j < end
      ensures Digit(s[j])
    {
      assert s[j] == s[i..end][j - i];
    }
  }

  lemma DigitsStretch(s: bytes, i: nat)
    requires i <= |s|
    ensures i + Digits(s, i) <= |s| && AllDigits(s[i..i + Digits(s, i)])
  {
    DigitsAre(s, i);
  }

  // ---------------------------------------------------------------- what is converted is a number

  function SignLen(s: bytes): nat {
    if SignAt(s, 0) then 1 else 0
  }

  /** The mantissa that is converted. */
  lemma MantissaConverted(s: bytes)
    requires StrtodLen(s) > 0
    ensures SignLen(s) < MantissaEnd(s) <= |s| && Mantissa(s[SignLen(s)..MantissaEnd(s)])
  {
    hide Digits;
    var sign, end := SignLen(s), MantissaEnd(s);
    var whole := Digits(s, sign);
    DigitsStretch(s, sign);
    var i := sign + whole;
    var t := s[sign..end];
    if i < |s| && s[i] == POINT {
      DigitsStretch(s, i + 1);
      assert t[..whole] == s[sign..i] && t[whole] == POINT && t[whole + 1..] == s[i + 1..end];
    } else {
      assert t[..whole] == s[sign..i];
    }
    assert MantissaAt(t, whole);
  }

  function ExponentDigits(s: bytes, j: nat): nat {
    if SignAt(s, j + 1) then j + 2 else j + 1
  }

  lemma ExponentParts(s: bytes)
    requires StrtodLen(s) > MantissaEnd(s)
    ensures var j, e := MantissaEnd(s), ExponentDigits(s, MantissaEnd(s));
            j < |s| && ExponentMark(s[j]) && e < StrtodLen(s) == e + Digits(s, e)
  {
    hide Digits, MantissaEnd;
  }

  lemma ExponentConverted(s: bytes)
    requires StrtodLen(s) > MantissaEnd(s)
    ensures Exponent(s[MantissaEnd(s)..StrtodLen(s)])
  {
    hide Digits, MantissaEnd, StrtodLen;
    ExponentParts(s);
    var j, n := MantissaEnd(s), StrtodLen(s);
    var e := ExponentDigits(s, j);
    DigitsStretch(s, e);
    var t := s[j..n];
    assert t[0] == s[j];
    assert t[1..] == s[j + 1..n];
    assert Unsigned(t[1..]) == s[e..n];
  }

  lemma ConvertedIsDecimal(s: bytes)
    requires StrtodLen(s) > 0
    ensures Decimal(s[..StrtodLen(s)])
  {
    hide StrtodLen, Digits, Mantissa, Exponent;
    MantissaConverted(s);
    StrtodEnd(s);
    var sign, n, end := SignLen(s), StrtodLen(s), MantissaEnd(s);
    var t := s[..n];
    assert Unsigned(t) == s[sign..n];
    assert Unsigned(t)[..end - sign] == s[sign..end];
    if end < n {
      ExponentConverted(s);
      assert Unsigned(t)[end - sign..] == s[end..n];
    }
    assert DecimalAt(t, end - sign);
  }

  lemma StrtodEnd(s: bytes)
    ensures StrtodLen(s) > 0 ==> StrtodLen(s) >= MantissaEnd(s)
  {}

  // ---------------------------------------------------------------- nothing longer is

  /** A mantissa that starts after the sign ends no later than the one converted; one followed by
      an exponent ends there. */
  lemma MantissaLongest(s: bytes, end: nat)
    requires SignLen(s) <= end <= |s| && Mantissa(s[SignLen(s)..end])
    ensures StrtodLen(s) > 0 && end <= MantissaEnd(s)
    ensures end < |s| && ExponentMark(s[end]) ==> end == MantissaEnd(s)
  {
    hide Digits;
    var sign := SignLen(s);
    var t := s[sign..end];
    var k: nat :| MantissaAt(t, k);
    assert t[..k] == s[sign..sign + k];
    DigitsLongest(s, sign, sign + k);
    if k < |t| {
      assert t[k] == s[sign + k] == POINT;
      assert t[k + 1..] == s[sign + k + 1..end];
      DigitsLongest(s, sign + k + 1, end);
    }
  }

  lemma ExponentLongest(s: bytes, end: nat)
    requires StrtodLen(s) > 0 && MantissaEnd(s) < end <= |s| && Exponent(s[MantissaEnd(s)..end])
    ensures end <= StrtodLen(s)
  {
    hide Digits;
    var j := MantissaEnd(s);
    var t := s[j..end];
    assert t[0] == s[j] && t[1..] == s[j + 1..end];
    var e := if SignAt(s, j + 1) then j + 2 else j + 1;
    assert Unsigned(t[1..]) == s[e..end];
    DigitsLongest(s, e, end);
  }

  lemma DecimalNotLonger(s: bytes, k: nat)
    requires k <= |s| && Decimal(s[..k])
    ensures 0 < k <= StrtodLen(s)
  {
    hide StrtodLen, Digits, Mantissa, Exponent, MantissaEnd;
    var t, sign := s[..k], SignLen(s);
    var m: nat :| DecimalAt(t, m);
    assert Unsigned(t) == s[SignLen(t)..k];
    NotEmpty(Unsigned(t)[..m]);
    assert SignLen(t) == sign;
    assert Unsigned(t)[..m] == s[sign..sign + m];
    MantissaLongest(s, sign + m);
    StrtodEnd(s);
    if sign + m < k {
      assert Unsigned(t)[m..] == s[sign + m..k];
      MarkFirst(s[sign + m..k]);
      assert s[sign + m..k][0] == s[sign + m];
      ExponentLongest(s, k);
    }
  }

  lemma NotEmpty(t: bytes)
    requires Mantissa(t)
    ensures t != []
  {}

  lemma MarkFirst(t: bytes)
    requires Exponent(t)
    ensures t != [] && ExponentMark(t[0])
  {}

  /** The part converted is the longest prefix that is a decimal number; without one it is empty. */
  lemma StrtodLongest(s: bytes)
    ensures StrtodLen(s) > 0 ==> Decimal(s[..StrtodLen(s)])
    ensures forall k: nat | k <= |s| && Decimal(s[..k]) :: 0 < k <= StrtodLen(s)
  {
    hide StrtodLen, Decimal;
    if StrtodLen(s) > 0 {
      ConvertedIsDecimal(s);
    }
    forall k: nat | k <= |s| && Decimal(s[..k])
      ensures 0 < k <= StrtodLen(s)
    {
      DecimalNotLonger(s, k);
    }
  }

  // ---------------------------------------------------------------- in the text

  lemma MantissaChars(t: bytes)
    requires Mantissa(t)
    ensures forall i | 0 <= i < |t| :: NumberChar(t[i])
  {
    var k: nat :| MantissaAt(t, k);
    forall i | 0 <= i < |t|
      ensures NumberChar(t[i])
    {
      if i < k {
        assert t[i] == t[..k][i];
      } else if i > k {
        assert t[i] == t[k + 1..][i - k - 1];
      }
    }
  }

  lemma DecimalChars(t: bytes)
    requires Decimal(t)
    ensures forall i | 0 <= i < |t| :: NumberChar(t[i])
  {
    hide Mantissa, Exponent;
    var m: nat :| DecimalAt(t, m);
    var u := Unsigned(t);
    MantissaChars(u[..m]);
    if m < |u| {
      ExponentChars(u[m..]);
    }
    forall i | 0 <= i < |u|
      ensures NumberChar(u[i])
    {
      assert u[i] == if i < m then u[..m][i] else u[m..][i - m];
    }
    forall i | 0 <= i < |t|
      ensures NumberChar(t[i])
    {
      if SignAt(t, 0) && i > 0 {
        assert t[i] == u[i - 1];
      }
    }
  }

  lemma ExponentChars(t: bytes)
    requires Exponent(t)
    ensures forall i | 0 <= i < |t| :: NumberChar(t[i])
  {
    var v := Unsigned(t[1..]);
    forall i | 0 <= i < |t|
      ensures NumberChar(t[i])
    {
      if i > 0 {
        assert t[i] == t[1..][i - 1];
        if SignAt(t[1..], 0) && i > 1 {
          assert t[i] == v[i - 2];
        }
      }
    }
  }

  lemma {:induction false} RunLongest(s: bytes, i: nat, end: nat)
    requires i <= end <= |s| && forall j | i <= j < end :: NumberChar(s[j])
    ensures end <= i + NumberRun(s, i)
    decreases |s| - i
  {
    if i < end {
      RunLongest(s, i + 1, end);
    }
  }

  /** A number in a text ends where the longest decimal number that starts there ends; without one
      there is no number. */
  lemma NumberLongest(s: bytes, i: nat)
    requires i <= |s|
    ensures NumberAt(s, i).Some? ==> Decimal(s[i..NumberAt(s, i).value])
    ensures forall end | i <= end <= |s| && Decimal(s[i..end]) :: NumberAt(s, i).Some? && end <= NumberAt(s, i).value
  {
    hide StrtodLen, Decimal, NumberRun;
    var run := s[i..i + NumberRun(s, i)];
    StrtodLongest(run);
    assert NumberAt(s, i).Some? ==> s[i..NumberAt(s, i).value] == run[..StrtodLen(run)];
    forall end | i <= end <= |s| && Decimal(s[i..end])
      ensures NumberAt(s, i).Some? && end <= NumberAt(s, i).value
    {
      DecimalChars(s[i..end]);
      forall j | i <= j < end
        ensures NumberChar(s[j])
      {
        assert s[j] == s[i..end][j - i];
      }
      RunLongest(s, i, end);
      assert s[i..end] == run[..end - i];
    }
  }
}

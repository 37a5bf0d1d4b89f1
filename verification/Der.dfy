/** BER-TLV elements with one- or two-byte tags and definite lengths (euicc/src/der.rs; ITU-T X.690
    sections 8.1.2, 8.1.3 and 10.1). Tags are 16-bit numbers, octets are numbers below 256. */
module Der {
  import opened Wrappers
  import opened Bytes

  type tag = t: int | 0 <= t < 0x10000

  datatype Tlv = Tlv(tag: tag, value: bytes, raw: bytes)

  datatype Node = Prim(tag: tag, value: bytes) | Cons(tag: tag, children: seq<Node>)

  // ---------------------------------------------------------------- numbers

  function Pow256(n: nat): (r: nat)
    ensures r > 0
  {
    if n == 0 then 1 else 256 * Pow256(n - 1)
  }

  /** The number an octet string spells, most significant octet first. */
  function BigEndian(b: bytes): nat {
    if b == [] then 0 else 256 * BigEndian(b[..|b| - 1]) + b[|b| - 1]
  }

  /** The last `n` octets of a number. */
  function ToBe(v: nat, n: nat): (r: bytes)
    ensures |r| == n
  {
    if n == 0 then [] else ToBe(v / 256, n - 1) + [(v % 256) as byte]
  }

  /** Without leading zeros, but with at least `keep` octets. */
  function SkipZeros(b: bytes, keep: nat): (r: bytes)
    ensures |r| <= |b| && (|b| >= keep ==> |r| >= keep)
    ensures |r| > keep ==> r[0] != 0
    decreases |b|
  {
    if |b| > keep && b[0] == 0 then SkipZeros(b[1..], keep) else b
  }

  lemma {:induction false} BigEndianToBe(v: nat, n: nat)
    requires v < Pow256(n)
    ensures BigEndian(ToBe(v, n)) == v
  {
    if n > 0 {
      BigEndianToBe(v / 256, n - 1);
      var b := ToBe(v, n);
      assert b[..|b| - 1] == ToBe(v / 256, n - 1);
    }
  }

  lemma {:induction false} BigEndianCons(b: bytes)
    requires b != []
    ensures BigEndian(b) == b[0] * Pow256(|b| - 1) + BigEndian(b[1..])
  {
    if |b| == 1 {
      assert b[..0] == [] && b[1..] == [];
    } else {
      var front := b[..|b| - 1];
      BigEndianCons(front);
      assert b[1..][..|b| - 2] == front[1..];
      assert Pow256(|b| - 1) == 256 * Pow256(|b| - 2);
    }
  }

  lemma {:induction false} BigEndianBelow(b: bytes)
    ensures BigEndian(b) < Pow256(|b|)
  {
    if b != [] {
      BigEndianBelow(b[..|b| - 1]);
    }
  }

  lemma {:induction false} BigEndianSkip(b: bytes, keep: nat)
    ensures BigEndian(SkipZeros(b, keep)) == BigEndian(b)
    decreases |b|
  {
    if |b| > keep && b[0] == 0 {
      BigEndianCons(b);
      BigEndianSkip(b[1..], keep);
    }
  }

  lemma {:induction false} PowGrows(a: nat, b: nat)
    requires a <= b
    ensures Pow256(a) <= Pow256(b)
  {
    if a < b {
      PowGrows(a, b - 1);
    }
  }

  lemma LongerIsLarger(s: bytes, b: bytes)
    requires |s| > |b| && s[0] != 0
    ensures BigEndian(s) > BigEndian(b)
  {
    hide BigEndian, Pow256;
    BigEndianCons(s);
    BigEndianBelow(b);
    PowGrows(|b|, |s| - 1);
    AtLeastOnce(s[0], Pow256(|s| - 1));
  }

  lemma AtLeastOnce(a: nat, p: nat)
    requires a > 0
    ensures a * p >= p
  {}

  /** No spelling of a number is shorter than the one without leading zeros. */
  lemma ShortestSpelling(s: bytes, b: bytes)
    requires BigEndian(s) == BigEndian(b) && (s != [] ==> s[0] != 0)
    ensures |s| <= |b|
  {
    if |s| > |b| {
      LongerIsLarger(s, b);
    }
  }

  /** Spellings of one length are unique. */
  lemma {:induction false} SpellingUnique(a: bytes, b: bytes)
    requires |a| == |b| && BigEndian(a) == BigEndian(b)
    ensures a == b
  {
    if a != [] {
      SpellingUnique(a[..|a| - 1], b[..|b| - 1]);
      assert a == a[..|a| - 1] + [a[|a| - 1]] && b == b[..|b| - 1] + [b[|b| - 1]];
    }
  }

  // ---------------------------------------------------------------- reading

  /** How many octets the tag of the element at the start has. */
  function TagSize(buf: bytes): (r: nat)
    requires buf != []
    ensures 1 <= r <= 2
  {
    if buf[0] % 32 == 31 then 2 else 1
  }

  function TagAt(buf: bytes): tag
    requires buf != [] && |buf| >= TagSize(buf)
  {
    var high: int, low: int := buf[0], if TagSize(buf) == 1 then 0 else buf[1];
    if TagSize(buf) == 1 then high else high * 256 + low
  }

  /** The length field after a tag of `at` octets: the octets it takes and the length it gives. */
  function LengthAt(buf: bytes, at: nat): Option<(nat, nat)> {
    if at >= |buf| then None
    else if buf[at] < 128 then Some((1, buf[at]))
    else
      var count := buf[at] - 128;
      if count > 4 || |buf| < at + 1 + count then None
      else Some((1 + count, BigEndian(buf[at + 1..at + 1 + count])))
  }

  /** The first element, if it is whole. */
  function Parse(buf: bytes): (r: Option<Tlv>)
    ensures r.Some? ==> 2 <= |r.value.raw| <= |buf| && r.value.raw == buf[..|r.value.raw|]
    ensures r.Some? ==> |r.value.value| < |r.value.raw|
  {
    if buf == [] || |buf| < TagSize(buf) then None
    else
      var at := TagSize(buf);
      var length := LengthAt(buf, at);
      if length.None? then None
      else
        var (size, count) := length.value;
        var end := at + size + count;
        if end > |buf| then None
        else Some(Tlv(TagAt(buf), buf[at + size..end], buf[..end]))
  }

  /** Reading the element with an index, octet after octet. */
  method ParseElement(buf: bytes) returns (r: Option<Tlv>)
    ensures r == Parse(buf)
  {
    hide LengthAt;
    var i := 0;
    if i >= |buf| {
      return None;
    }
    var t: tag := buf[i];
    i := i + 1;
    if t % 32 == 31 {
      if i >= |buf| {
        return None;
      }
      t := t * 256 + buf[i];
      i := i + 1;
    }
    var field := ReadLength(buf, i);
    if field.None? {
      return None;
    }
    i := i + field.value.0;
    var end := i + field.value.1;
    if end > |buf| {
      return None;
    }
    return Some(Tlv(t, buf[i..end], buf[..end]));
  }

  /** The length field, in its short or long form. */
  method ReadLength(buf: bytes, at: nat) returns (r: Option<(nat, nat)>)
    ensures r == LengthAt(buf, at)
  {
    if at >= |buf| {
      return None;
    }
    var i: nat := at + 1;
    if buf[at] < 128 {
      return Some((1, buf[at]));
    }
    var count := buf[at] - 128;
    if count > 4 {
      return None;
    }
    var length: nat := 0;
    for k := 0 to count
      invariant i == at + 1 + k && i <= |buf|
      invariant length == BigEndian(buf[at + 1..i])
    {
      if i >= |buf| {
        return None;
      }
      assert buf[at + 1..i + 1][..k] == buf[at + 1..i];
      length := length * 256 + buf[i];
      i := i + 1;
    }
    return Some((1 + count, length));
  }

  /** All elements up to the first malformed one. */
  function Elements(buf: bytes): seq<Tlv>
    decreases |buf|
  {
    var first := Parse(buf);
    if first.None? then []
    else [first.value] + Elements(buf[|first.value.raw|..])
  }

  class Iter {
    var rest: bytes

    constructor (buf: bytes)
      ensures rest == buf
    {
      rest := buf;
    }

    /** The next element: what is still to come is `Elements(rest)`, before and after. */
    method Next() returns (r: Option<Tlv>)
      modifies this
      ensures r == Parse(old(rest))
      ensures r.None? ==> Elements(old(rest)) == [] && rest == old(rest)
      ensures r.Some? ==> Elements(old(rest)) == [r.value] + Elements(rest) && old(rest) == r.value.raw + rest
    {
      r := ParseElement(rest);
      if r.Some? {
        rest := rest[|r.value.raw|..];
      }
    }
  }

  /** The first element with a tag. */
  function Find(buf: bytes, t: tag): (r: Option<Tlv>)
    ensures r.Some? ==> r.value.tag == t
    decreases |buf|
  {
    var first := Parse(buf);
    if first.None? then None
    else if first.value.tag == t then first
    else Find(buf[|first.value.raw|..], t)
  }

  // ---------------------------------------------------------------- writing

  function TagBytes(t: tag): bytes {
    (if t / 256 != 0 then [(t / 256) as byte] else []) + [(t % 256) as byte]
  }

  /** The length field; a length is cut to 32 bits in the long form. */
  function LengthBytes(length: nat): bytes {
    if length < 128 then [length]
    else
      var digits := SkipZeros(ToBe(length % 0x1_0000_0000, 4), 0);
      [(128 + |digits|) as byte] + digits
  }

  function Contents(n: Node): bytes
    decreases n, 0
  {
    match n
    case Prim(_, value) => value
    case Cons(_, children) => EncodeAll(children)
  }

  function Encode(n: Node): (r: bytes)
    ensures |r| > 0
    decreases n, 1
  {
    TagBytes(n.tag) + LengthBytes(|Contents(n)|) + Contents(n)
  }

  function EncodeAll(nodes: seq<Node>): bytes
    decreases nodes, 0
  {
    if nodes == [] then [] else EncodeAll(nodes[..|nodes| - 1]) + Encode(nodes[|nodes| - 1])
  }

  /** A growing output buffer. */
  class Buffer {
    var data: bytes

    constructor ()
      ensures data == []
    {
      data := [];
    }
  }

  /** Appends the encoding, children first into a buffer of their own. */
  method EncodeInto(n: Node, out: Buffer)
    modifies out
    ensures out.data == old(out.data) + Encode(n)
    decreases n
  {
    hide LengthBytes, TagBytes, SkipZeros, ToBe;
    var value;
    match n {
      case Prim(_, v) => value := v;
      case Cons(_, children) =>
        var inner := new Buffer();
        for k := 0 to |children|
          invariant fresh(inner) && out.data == old(out.data)
          invariant inner.data == EncodeAll(children[..k])
        {
          EncodeInto(children[k], inner);
          assert children[..k + 1][..k] == children[..k];
        }
        assert children[..|children|] == children;
        value := inner.data;
    }
    PutHeader(n.tag, |value|, out);
    out.data := out.data + value;
  }

  /** Appends tag and length. */
  method PutHeader(t: tag, length: nat, out: Buffer)
    modifies out
    ensures out.data == old(out.data) + (TagBytes(t) + LengthBytes(length))
  {
    hide SkipZeros, ToBe;
    if t / 256 != 0 {
      out.data := out.data + [(t / 256) as byte];
    }
    out.data := out.data + [(t % 256) as byte];
    assert out.data == old(out.data) + TagBytes(t);
    if length < 128 {
      out.data := out.data + [length];
    } else {
      var digits := SkipZeros(ToBe(length % 0x1_0000_0000, 4), 0);
      out.data := out.data + [(128 + |digits|) as byte];
      out.data := out.data + digits;
    }
  }

  // ---------------------------------------------------------------- what was written is read back

  /** One octet whose low five bits are not all ones, or two whose first has them all ones. */
  predicate Representable(t: tag) {
    if t < 256 then t % 32 != 31 else (t / 256) % 32 == 31
  }

  /** The length field alone is read back, whatever surrounds it. */
  lemma LengthReadBack(before: bytes, length: nat, after: bytes)
    ensures var cut := if length < 128 then length else length % 0x1_0000_0000;
            LengthAt(before + LengthBytes(length) + after, |before|) == Some((|LengthBytes(length)|, cut))
  {
    var buf := before + LengthBytes(length) + after;
    assert buf[|before|] == LengthBytes(length)[0];
    if length >= 128 {
      var cut := length % 0x1_0000_0000;
      var digits := SkipZeros(ToBe(cut, 4), 0);
      assert Pow256(4) == 0x1_0000_0000;
      BigEndianToBe(cut, 4);
      BigEndianSkip(ToBe(cut, 4), 0);
      assert buf[|before| + 1..|before| + 1 + |digits|] == digits;
    }
  }

  /** The tag is read back exactly when it is representable: another one gives a different tag. */
  lemma TagReadBack(t: tag, after: bytes)
    requires after != []
    ensures var buf := TagBytes(t) + after;
            && |buf| >= TagSize(buf)
            && (Representable(t) <==> TagAt(buf) == t)
            && (Representable(t) ==> TagSize(buf) == |TagBytes(t)|)
  {
    var buf := TagBytes(t) + after;
    assert buf[0] == TagBytes(t)[0];
    if t >= 256 {
      assert buf[1] == TagBytes(t)[1];
    }
  }

  /** An encoding followed by anything is read back as its tag and contents, exactly when the tag is
      representable and the contents have fewer than 2^32 octets. */
  lemma ParseEncoded(n: Node, suffix: bytes)
    ensures Parse(Encode(n) + suffix) == Some(Tlv(n.tag, Contents(n), Encode(n)))
            <==> Representable(n.tag) && |Contents(n)| < 0x1_0000_0000
  {
    hide LengthAt, TagBytes, LengthBytes, TagAt, TagSize, Representable, Contents;
    var value := Contents(n);
    var buf := Encode(n) + suffix;
    var length := LengthBytes(|value|);
    assert |length| > 0 by { LengthNotEmpty(|value|); }
    TagReadBack(n.tag, length + value + suffix);
    assert buf == TagBytes(n.tag) + (length + value + suffix);
    if Representable(n.tag) {
      LengthReadBack(TagBytes(n.tag), |value|, value + suffix);
      assert buf == TagBytes(n.tag) + length + (value + suffix);
      var at := |TagBytes(n.tag)| + |length|;
      assert buf[at..at + |value|] == value;
      assert buf[..at + |value|] == Encode(n);
    }
  }

  lemma LengthNotEmpty(length: nat)
    ensures |LengthBytes(length)| > 0
  {}

  /** Every tag in the tree is representable and no contents are too long. */
  predicate Fits(n: Node)
    decreases n
  {
    && Representable(n.tag) && |Contents(n)| < 0x1_0000_0000
    && (n.Cons? ==> forall k | 0 <= k < |n.children| :: Fits(n.children[k]))
  }

  function AsTlv(n: Node): Tlv {
    Tlv(n.tag, Contents(n), Encode(n))
  }

  function AsTlvs(nodes: seq<Node>): (r: seq<Tlv>)
    ensures |r| == |nodes|
    ensures forall k | 0 <= k < |nodes| :: r[k] == AsTlv(nodes[k])
  {
    seq(|nodes|, k requires 0 <= k < |nodes| => AsTlv(nodes[k]))
  }

  /** Iterating over encodings written one after another gives exactly these elements, in order,
      and then whatever follows. */
  lemma {:induction false} ElementsEncoded(nodes: seq<Node>, rest: bytes)
    requires forall k | 0 <= k < |nodes| :: Fits(nodes[k])
    ensures Elements(EncodeAll(nodes) + rest) == AsTlvs(nodes) + Elements(rest)
  {
    hide Encode, Contents, Parse, Fits, Elements;
    if nodes == [] {
      assert EncodeAll(nodes) + rest == rest;
      assert AsTlvs(nodes) + Elements(rest) == Elements(rest);
    } else {
      var front, last := nodes[..|nodes| - 1], nodes[|nodes| - 1];
      var tail := Encode(last) + rest;
      ElementsEncoded(front, tail);
      assert EncodeAll(nodes) + rest == EncodeAll(front) + tail;
      FirstEncoded(last, rest);
      assert AsTlvs(nodes) == AsTlvs(front) + [AsTlv(last)];
    }
  }

  lemma FirstEncoded(n: Node, rest: bytes)
    requires Fits(n)
    ensures Elements(Encode(n) + rest) == [AsTlv(n)] + Elements(rest)
  {
    hide Encode, Contents, Parse;
    ParseEncoded(n, rest);
    assert (Encode(n) + rest)[|Encode(n)|..] == rest;
  }

  /** So the children of an encoded element are found again inside it. */
  lemma ChildrenReadBack(n: Node, suffix: bytes)
    requires n.Cons? && Fits(n)
    ensures var outer := Parse(Encode(n) + suffix);
            outer.Some? && Elements(outer.value.value) == AsTlvs(n.children)
  {
    ParseEncoded(n, suffix);
    ElementsEncoded(n.children, []);
    assert EncodeAll(n.children) + [] == EncodeAll(n.children);
    assert Elements([]) == [];
  }

  /** X.690 section 8.1.2.5: bit 6 of the first tag octet tells a constructed element. */
  predicate Constructed(t: tag) {
    ((if t < 256 then t else t / 256) / 32) % 2 == 1
  }

  predicate KindsByTag(n: Node)
    decreases n
  {
    && (n.Cons? <==> Constructed(n.tag))
    && (n.Cons? ==> forall k | 0 <= k < |n.children| :: KindsByTag(n.children[k]))
  }

  /** Two trees whose encodings, each followed by something, are the same octets have the same tag
      and contents; if tags tell primitive from constructed elements they are the same tree. */
  lemma {:induction false} EncodeInjective(a: Node, b: Node, afterA: bytes, afterB: bytes)
    requires Fits(a) && Fits(b)
    requires Encode(a) + afterA == Encode(b) + afterB
    ensures a.tag == b.tag && Contents(a) == Contents(b) && afterA == afterB
    ensures KindsByTag(a) && KindsByTag(b) ==> a == b
    decreases a, 0
  {
    hide Encode, Parse, Constructed, Representable;
    ParseEncoded(a, afterA);
    ParseEncoded(b, afterB);
    assert afterA == (Encode(a) + afterA)[|Encode(a)|..] && afterB == (Encode(b) + afterB)[|Encode(b)|..];
    if KindsByTag(a) && KindsByTag(b) && a.Cons? {
      AllInjective(a.children, b.children);
    }
  }

  lemma {:induction false} AllInjective(a: seq<Node>, b: seq<Node>)
    requires forall k | 0 <= k < |a| :: Fits(a[k]) && KindsByTag(a[k])
    requires forall k | 0 <= k < |b| :: Fits(b[k]) && KindsByTag(b[k])
    requires EncodeAll(a) == EncodeAll(b)
    ensures a == b
    decreases a, 0
  {
    hide Encode, Contents, Parse, Fits, KindsByTag;
    ElementsEncoded(a, []);
    ElementsEncoded(b, []);
    assert EncodeAll(a) + [] == EncodeAll(a) && EncodeAll(b) + [] == EncodeAll(b);
    assert Elements([]) == [] by { ElementsOfNothing(); }
    var read := Elements(EncodeAll(a));
    assert |read| == |a| == |b|;
    forall k | 0 <= k < |a|
      ensures a[k] == b[k]
    {
      assert read[k] == AsTlv(a[k]) && read[k] == AsTlv(b[k]);
      EncodeInjective(a[k], b[k], [], []);
    }
  }

  lemma ElementsOfNothing()
    ensures Elements([]) == []
  {}

  /** Whatever is accepted has a representable tag, and encoding its tag and contents again takes no
      more octets: the length form is minimal. A form of the same size is the same one, but for the
      octet 0x80, which is read as an empty long form (X.690 section 8.1.3.6 reserves it). */
  lemma EncodingIsMinimal(buf: bytes)
    requires Parse(buf).Some?
    ensures var t := Parse(buf).value;
            var again := Encode(Prim(t.tag, t.value));
            && Representable(t.tag)
            && Parse(again) == Some(Tlv(t.tag, t.value, again))
            && |again| <= |t.raw|
            && (|again| == |t.raw| ==> (again == t.raw <==> buf[TagSize(buf)] != 0x80))
  {
    hide LengthAt, LengthBytes, TagBytes, TagAt, Representable;
    var t := Parse(buf).value;
    var again := Prim(t.tag, t.value);
    var at := TagSize(buf);
    var (size, count) := LengthAt(buf, at).value;
    TagOfParsed(buf);
    LengthIsShortest(buf, at);
    var form := LengthBytes(count);
    assert Encode(again) == TagBytes(t.tag) + form + t.value;
    assert t.raw[..at] == buf[..at] && t.raw[at..at + size] == buf[at..at + size] && t.raw[at + size..] == t.value;
    if |form| == size {
      assert Encode(again)[at..at + size] == form;
      assert form == buf[at..at + size] ==> Encode(again) == t.raw;
    }
    ParseEncoded(again, []);
    assert Encode(again) + [] == Encode(again);
  }

  lemma TagOfParsed(buf: bytes)
    requires buf != [] && |buf| >= TagSize(buf)
    ensures Representable(TagAt(buf)) && TagBytes(TagAt(buf)) == buf[..TagSize(buf)]
  {}

  lemma LengthIsShortest(buf: bytes, at: nat)
    requires LengthAt(buf, at).Some?
    ensures var (size, length) := LengthAt(buf, at).value;
            && length < 0x1_0000_0000
            && |LengthBytes(length)| <= size
            && (|LengthBytes(length)| == size ==> (LengthBytes(length) == buf[at..at + size] <==> buf[at] != 0x80))
  {
    hide SkipZeros, ToBe, BigEndian, Pow256;
    var (size, length) := LengthAt(buf, at).value;
    if buf[at] >= 128 {
      var digits := buf[at + 1..at + size];
      ShortestDigits(digits);
      assert buf[at..at + size] == [buf[at]] + digits;
      if buf[at] == 0x80 {
        assert digits == [];
        BigEndianBelow(digits);
        assert length == 0 by { NoDigits(); }
      }
    }
  }

  lemma NoDigits()
    ensures BigEndian([]) == 0
  {}

  /** The digits of the long form are the fewest for their number. */
  lemma ShortestDigits(digits: bytes)
    requires |digits| <= 4
    ensures BigEndian(digits) < 0x1_0000_0000
    ensures var ours := SkipZeros(ToBe(BigEndian(digits), 4), 0);
            |ours| <= |digits| && (|ours| == |digits| ==> ours == digits)
    ensures BigEndian(digits) >= 128 ==> digits != []
  {
    hide SkipZeros, ToBe;
    var v := BigEndian(digits);
    assert Pow256(4) == 0x1_0000_0000;
    BigEndianBelow(digits);
    PowGrows(|digits|, 4);
    var ours := SkipZeros(ToBe(v, 4), 0);
    BigEndianToBe(v, 4);
    BigEndianSkip(ToBe(v, 4), 0);
    ShortestSpelling(ours, digits);
    if |ours| == |digits| {
      SpellingUnique(ours, digits);
    }
  }

  // ---------------------------------------------------------------- integers

  /** Contents as an unsigned 64-bit number; longer ones keep the last eight octets' value. */
  function ToU64(value: bytes): (r: nat)
    ensures r < 0x1_0000_0000_0000_0000
  {
    if value == [] then 0 else (256 * ToU64(value[..|value| - 1]) + value[|value| - 1]) % 0x1_0000_0000_0000_0000
  }

  function FromU64(v: nat): (r: bytes)
    requires v < 0x1_0000_0000_0000_0000
    ensures |r| > 0
  {
    var digits := SkipZeros(ToBe(v, 8), 1);
    if digits[0] >= 128 then [0] + digits else digits
  }

  lemma {:induction false} ToU64IsBigEndian(b: bytes)
    ensures ToU64(b) == BigEndian(b) % 0x1_0000_0000_0000_0000
  {
    if b != [] {
      ToU64IsBigEndian(b[..|b| - 1]);
      ModStep(BigEndian(b[..|b| - 1]), b[|b| - 1]);
    }
  }

  lemma ModStep(x: nat, c: nat)
    ensures (256 * (x % 0x1_0000_0000_0000_0000) + c) % 0x1_0000_0000_0000_0000
         == (256 * x + c) % 0x1_0000_0000_0000_0000
  {
    var m := 0x1_0000_0000_0000_0000;
    var q := x / m;
    assert 256 * x + c == 256 * (x % m) + c + 256 * q * m;
  }

  /** The digits `FromU64` starts from: at least one octet, and no others are fewer. */
  lemma U64Digits(v: nat)
    requires v < 0x1_0000_0000_0000_0000
    ensures var digits := SkipZeros(ToBe(v, 8), 1);
            && digits != [] && BigEndian(digits) == v
            && (|digits| > 1 ==> digits[0] != 0)
  {
    assert Pow256(8) == 0x1_0000_0000_0000_0000;
    BigEndianToBe(v, 8);
    BigEndianSkip(ToBe(v, 8), 1);
  }

  /** INTEGER contents read back as the number, with the sign bit clear (X.690 section 8.3.2: the
      first nine bits are not all zero). */
  lemma U64RoundTrip(v: nat)
    requires v < 0x1_0000_0000_0000_0000
    ensures var b := FromU64(v);
            && ToU64(b) == v
            && b[0] < 128 && (|b| > 1 && b[0] == 0 ==> b[1] >= 128)
  {
    hide SkipZeros, ToBe, ToU64, BigEndian;
    var digits := SkipZeros(ToBe(v, 8), 1);
    U64Digits(v);
    var b := FromU64(v);
    if digits[0] >= 128 {
      BigEndianCons(b);
      assert b[1..] == digits;
    }
    ToU64IsBigEndian(b);
  }

  /** No contents with the sign bit clear spell the number in fewer octets. */
  lemma U64Shortest(v: nat, other: bytes)
    requires v < 0x1_0000_0000_0000_0000
    requires other != [] && other[0] < 128 && BigEndian(other) == v
    ensures |FromU64(v)| <= |other|
  {
    hide SkipZeros, ToBe, BigEndian;
    var digits := SkipZeros(ToBe(v, 8), 1);
    U64Digits(v);
    if digits[0] != 0 {
      ShortestSpelling(digits, other);
      if |digits| == |other| {
        SpellingUnique(digits, other);
      }
    }
  }
}

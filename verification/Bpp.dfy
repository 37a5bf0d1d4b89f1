/** Cutting a Bound Profile Package into requests and loading it (euicc/src/download.rs; SGP.22
    section 2.5.5). */
module Bpp {
  import opened Wrappers
  import opened Bytes
  import opened Der
  import opened StoreData

  const BOUND_PROFILE_PACKAGE: tag := 0xBF36
  const INITIALISE_SECURE_CHANNEL: tag := 0xBF23
  const FIRST_87: tag := 0xA0
  const SEQUENCE_88: tag := 0xA1
  const SECOND_87: tag := 0xA2
  const SEQUENCE_86: tag := 0xA3

  /** One item of the plan: a request to send, or where loading fails. */
  type Item = Result<bytes, StoreData.Error>

  // ---------------------------------------------------------------- elements and their octets

  function Raws(elements: seq<Tlv>): (r: seq<bytes>)
    ensures |r| == |elements|
  {
    seq(|elements|, k requires 0 <= k < |elements| => elements[k].raw)
  }

  /** The elements are all there is. */
  predicate Whole(buf: bytes) {
    Join(Raws(Elements(buf))) == buf
  }

  lemma RawsAppend(a: seq<Tlv>, b: seq<Tlv>)
    ensures Raws(a + b) == Raws(a) + Raws(b)
  {}

  /** The octets of elements one after another. */
  function Octets(elements: seq<Tlv>): bytes {
    Join(Raws(elements))
  }

  lemma OctetsAppend(a: seq<Tlv>, b: seq<Tlv>)
    ensures Octets(a + b) == Octets(a) + Octets(b)
  {
    RawsAppend(a, b);
    JoinAppend(Raws(a), Raws(b));
  }

  lemma OctetsOne(t: Tlv)
    ensures Octets([t]) == t.raw
  {
    assert Raws([t]) == [t.raw];
    JoinOne(t.raw);
  }

  /** The elements are a beginning of the buffer; each is at least two octets, tag and length before
      the contents. */
  lemma {:induction false} ElementsCover(buf: bytes)
    ensures Octets(Elements(buf)) <= buf
    ensures forall k | 0 <= k < |Elements(buf)| :: Element(Elements(buf)[k])
    decreases |buf|
  {
    hide Parse, Octets, Element;
    var first := Parse(buf);
    if first.Some? {
      var rest := buf[|first.value.raw|..];
      ElementsCover(rest);
      OctetsAppend([first.value], Elements(rest));
      OctetsOne(first.value);
      ParsedElement(buf);
      assert buf == first.value.raw + rest;
    } else {
      NoOctets();
    }
  }

  predicate Element(t: Tlv) {
    |t.value| + 2 <= |t.raw| && t.raw[|t.raw| - |t.value|..] == t.value
  }

  lemma ParsedElement(buf: bytes)
    requires Parse(buf).Some?
    ensures Element(Parse(buf).value)
  {
    var t := Parse(buf).value;
    assert t.raw[|t.raw| - |t.value|..] == t.value;
  }

  /** Tag and length octets of an element. */
  function Header(t: Tlv): bytes
    requires |t.value| <= |t.raw|
  {
    t.raw[..|t.raw| - |t.value|]
  }

  lemma HeaderAndValue(t: Tlv)
    requires Element(t)
    ensures Header(t) + t.value == t.raw && |Header(t)| >= 2
  {}

  /** The first element with a tag and where it starts. */
  function FindWithOffset(buf: bytes, t: tag): (r: Option<(nat, Tlv)>)
    decreases |buf|
  {
    var first := Parse(buf);
    if first.None? then None
    else if first.value.tag == t then Some((0, first.value))
    else
      var later := FindWithOffset(buf[|first.value.raw|..], t);
      if later.None? then None else Some((|first.value.raw| + later.value.0, later.value.1))
  }

  /** The same, counting octets while iterating. */
  method LocateElement(buf: bytes, t: tag) returns (r: Option<(nat, Tlv)>)
    ensures r == FindWithOffset(buf, t)
  {
    hide Parse, Elements;
    var offset: nat := 0;
    var elements := new Iter(buf);
    while true
      invariant fresh(elements)
      invariant var later := FindWithOffset(elements.rest, t);
                FindWithOffset(buf, t) == if later.None? then None else Some((offset + later.value.0, later.value.1))
      decreases |elements.rest|
    {
      var next := elements.Next();
      if next.None? {
        return None;
      }
      if next.value.tag == t {
        return Some((offset, next.value));
      }
      offset := offset + |next.value.raw|;
    }
  }

  /** Where an element is found: after all the elements before it. */
  lemma {:induction false} FoundAt(buf: bytes, t: tag, k: nat)
    requires k < |Elements(buf)| && Elements(buf)[k].tag == t
    requires forall j | 0 <= j < k :: Elements(buf)[j].tag != t
    ensures Find(buf, t) == Some(Elements(buf)[k])
    ensures FindWithOffset(buf, t) == Some((|Octets(Elements(buf)[..k])|, Elements(buf)[k]))
    decreases |buf|
  {
    hide Parse, Join;
    var first := Parse(buf).value;
    var elements := Elements(buf);
    if k == 0 {
      assert elements[..0] == [];
      NoOctets();
    } else {
      var rest := buf[|first.raw|..];
      assert elements[0].tag != t;
      assert forall j | 0 <= j < k - 1 :: Elements(rest)[j] == elements[j + 1];
      FoundAt(rest, t, k - 1);
      assert elements[..k] == [first] + Elements(rest)[..k - 1];
      OctetsAppend([first], Elements(rest)[..k - 1]);
      OctetsOne(first);
    }
  }

  lemma NoOctets()
    ensures Octets([]) == []
  {
    assert Raws([]) == [];
  }

  lemma {:induction false} NotFound(buf: bytes, t: tag)
    requires forall j | 0 <= j < |Elements(buf)| :: Elements(buf)[j].tag != t
    ensures Find(buf, t).None? && FindWithOffset(buf, t).None?
    decreases |buf|
  {
    hide Parse;
    if Parse(buf).Some? {
      var rest := buf[|Parse(buf).value.raw|..];
      assert Elements(buf)[0].tag != t;
      assert forall j | 0 <= j < |Elements(rest)| :: Elements(rest)[j] == Elements(buf)[j + 1];
      NotFound(rest, t);
    }
  }

  /** Whatever is found is an element, inside the buffer and after its offset. */
  lemma {:induction false} FoundInside(buf: bytes, t: tag)
    ensures Find(buf, t).Some? ==> Element(Find(buf, t).value) && Find(buf, t).value.tag == t
    ensures FindWithOffset(buf, t).Some? <==> Find(buf, t).Some?
    ensures FindWithOffset(buf, t).Some? ==>
              var (offset, found) := FindWithOffset(buf, t).value;
              && Some(found) == Find(buf, t)
              && offset + |found.raw| <= |buf| && buf[offset..offset + |found.raw|] == found.raw
    decreases |buf|
  {
    hide Element;
    if Parse(buf).Some? {
      var first := Parse(buf).value;
      ParsedElement(buf);
      FoundInside(buf[|first.raw|..], t);
    }
  }

  // ---------------------------------------------------------------- the plan

  function Oks(elements: seq<Tlv>): (r: seq<Item>)
    ensures |r| == |elements|
  {
    seq(|elements|, k requires 0 <= k < |elements| => Ok(elements[k].raw))
  }

  /** The requests for a package, or why none can be made. */
  function Plan(bpp: bytes): Result<seq<Item>, StoreData.Error> {
    var package := Find(bpp, BOUND_PROFILE_PACKAGE);
    if package.None? then Err(Argument)
    else
      var init := FindWithOffset(package.value.value, INITIALISE_SECURE_CHANNEL);
      if init.None? then Err(Argument)
      else Ok([First(package.value, init.value)] + Sequences(package.value.value))
  }

  /** The package's own header and all up to and with InitialiseSecureChannelRequest, cut from it
      with a checked range. */
  function First(package: Tlv, init: (nat, Tlv)): Item {
    var end := |package.raw| - |package.value| + init.0 + |init.1.raw|;
    if 0 <= end <= |package.raw| then Ok(package.raw[..end]) else Err(Argument)
  }

  function Sequences(parts: bytes): seq<Item> {
    var first87 := Find(parts, FIRST_87);
    if first87.None? then [Err(Argument)]
    else [Ok(first87.value.raw)] + After87(parts)
  }

  function After87(parts: bytes): seq<Item> {
    var seq88 := Find(parts, SEQUENCE_88);
    if seq88.None? then [Err(Argument)]
    else Spread(seq88.value) + Optional(parts) + After88(parts)
  }

  function Optional(parts: bytes): seq<Item> {
    var second87 := Find(parts, SECOND_87);
    if second87.None? then [] else [Ok(second87.value.raw)]
  }

  function After88(parts: bytes): seq<Item> {
    var seq86 := Find(parts, SEQUENCE_86);
    if seq86.None? then [Err(Argument)] else Spread(seq86.value)
  }

  /** Tag and length on their own, then each element inside. */
  function Spread(t: Tlv): seq<Item> {
    [Ok(HeaderOrNothing(t))] + Oks(Elements(t.value))
  }

  function HeaderOrNothing(t: Tlv): bytes {
    if |t.value| <= |t.raw| then Header(t) else []
  }

  method MakePlan(bpp: bytes) returns (r: Result<seq<Item>, StoreData.Error>)
    ensures r == Plan(bpp)
  {
    hide Find, FindWithOffset, First, Sequences;
    var package := Find(bpp, BOUND_PROFILE_PACKAGE);
    if package.None? {
      return Err(Argument);
    }
    var parts := package.value.value;
    var init := LocateElement(parts, INITIALISE_SECURE_CHANNEL);
    if init.None? {
      return Err(Argument);
    }
    var plan := AddSequences([First(package.value, init.value)], parts);
    return Ok(plan);
  }

  /** Extends the plan by the sequences, in the order they are loaded. */
  method AddSequences(begun: seq<Item>, parts: bytes) returns (plan: seq<Item>)
    ensures plan == begun + Sequences(parts)
  {
    hide Find, Spread;
    plan := begun;
    var first87 := Find(parts, FIRST_87);
    if first87.None? {
      return plan + [Err(Argument)];
    }
    plan := plan + [Ok(first87.value.raw)];
    var seq88 := Find(parts, SEQUENCE_88);
    if seq88.None? {
      assert plan + [Err(Argument)] == begun + ([Ok(first87.value.raw)] + After87(parts));
      return plan + [Err(Argument)];
    }
    ghost var before88 := plan;
    plan := SpreadOnto(plan, seq88.value);
    var second87 := Find(parts, SECOND_87);
    if second87.Some? {
      plan := plan + [Ok(second87.value.raw)];
    }
    assert plan == before88 + (Spread(seq88.value) + Optional(parts));
    plan := AddLast(plan, parts);
    assert plan == before88 + (Spread(seq88.value) + Optional(parts) + After88(parts));
    assert plan == begun + ([Ok(first87.value.raw)] + After87(parts));
  }

  method AddLast(begun: seq<Item>, parts: bytes) returns (plan: seq<Item>)
    ensures plan == begun + After88(parts)
  {
    hide Find, Spread;
    var seq86 := Find(parts, SEQUENCE_86);
    if seq86.None? {
      return begun + [Err(Argument)];
    }
    plan := SpreadOnto(begun, seq86.value);
  }

  /** Extends the plan by a sequence: its header, then what iterating over it yields. */
  method SpreadOnto(plan: seq<Item>, t: Tlv) returns (r: seq<Item>)
    ensures r == plan + Spread(t)
  {
    hide Elements, Parse, HeaderOrNothing, Oks;
    r := plan + [Ok(HeaderOrNothing(t))];
    ghost var start := r;
    var elements := new Iter(t.value);
    ghost var seen: seq<Tlv> := [];
    NoOks();
    while true
      invariant fresh(elements)
      invariant Elements(t.value) == seen + Elements(elements.rest)
      invariant r == start + Oks(seen)
      decreases |elements.rest|
    {
      ghost var before := elements.rest;
      var next := elements.Next();
      if next.None? {
        assert seen + [] == seen;
        assert r == plan + ([Ok(HeaderOrNothing(t))] + Oks(seen));
        return;
      }
      r := r + [Ok(next.value.raw)];
      OksAppend(seen, next.value);
      assert seen + Elements(before) == (seen + [next.value]) + Elements(elements.rest);
      seen := seen + [next.value];
      assert |next.value.raw| > 0 by { NextNotEmpty(before); }
    }
  }

  lemma NoOks()
    ensures Oks([]) == []
  {}

  lemma OksAppend(seen: seq<Tlv>, t: Tlv)
    ensures Oks(seen + [t]) == Oks(seen) + [Ok(t.raw)]
  {}

  lemma NextNotEmpty(buf: bytes)
    ensures Elements(buf) != [] ==> |Elements(buf)[0].raw| > 0
  {}

  /** Items that can be sent, none of them empty. */
  predicate Sendable(items: seq<Item>) {
    forall k | 0 <= k < |items| :: items[k].Ok? && items[k].value != []
  }

  /** The same but for a failure at the end. */
  predicate Shaped(items: seq<Item>, fails: bool) {
    && items != [] && Sendable(items[..|items| - 1])
    && (if fails then items[|items| - 1].Err? else Sendable(items))
  }

  lemma ShapedAfter(front: seq<Item>, items: seq<Item>, fails: bool)
    requires Sendable(front) && Shaped(items, fails)
    ensures Shaped(front + items, fails)
  {
    var all := front + items;
    assert all[|all| - 1] == items[|items| - 1];
    forall k | 0 <= k < |all| - 1
      ensures all[k].Ok? && all[k].value != []
    {
      assert all[k] == if k < |front| then front[k] else items[..|items| - 1][k - |front|];
    }
  }

  lemma SendableShape(items: seq<Item>)
    requires items != [] && Sendable(items)
    ensures Shaped(items, false)
  {}

  predicate Missing(parts: bytes, t: tag) {
    Find(parts, t).None?
  }

  lemma After88Shape(parts: bytes)
    ensures Shaped(After88(parts), Missing(parts, SEQUENCE_86))
  {
    hide Find, Elements, Element, Spread;
    if Find(parts, SEQUENCE_86).Some? {
      FoundInside(parts, SEQUENCE_86);
      SpreadShape(Find(parts, SEQUENCE_86).value);
      SendableShape(Spread(Find(parts, SEQUENCE_86).value));
    }
  }

  lemma After87Shape(parts: bytes)
    ensures Shaped(After87(parts), Missing(parts, SEQUENCE_88) || Missing(parts, SEQUENCE_86))
  {
    hide Find, Elements, Spread, Shaped, After88;
    if Find(parts, SEQUENCE_88).Some? {
      var t := Find(parts, SEQUENCE_88).value;
      FoundInside(parts, SEQUENCE_88);
      FoundInside(parts, SECOND_87);
      SpreadShape(t);
      After88Shape(parts);
      ShapedAfter(Spread(t) + Optional(parts), After88(parts), Missing(parts, SEQUENCE_86));
    } else {
      FailureShape();
    }
  }

  lemma FailureShape()
    ensures Shaped([Err(Argument)], true)
  {}

  lemma FoundNotEmpty(buf: bytes, t: tag)
    ensures Find(buf, t).Some? ==> Find(buf, t).value.raw != []
  {
    hide Find;
    FoundInside(buf, t);
  }

  lemma FirstShape(bpp: bytes)
    requires Plan(bpp).Ok?
    ensures var package := Find(bpp, BOUND_PROFILE_PACKAGE).value;
            var init := FindWithOffset(package.value, INITIALISE_SECURE_CHANNEL);
            init.Some? && First(package, init.value).Ok? && [] != First(package, init.value).value <= package.raw
  {
    hide Find, FindWithOffset, Sequences;
    FoundInside(bpp, BOUND_PROFILE_PACKAGE);
    FoundInside(Find(bpp, BOUND_PROFILE_PACKAGE).value.value, INITIALISE_SECURE_CHANNEL);
  }

  lemma SequencesShape(parts: bytes)
    ensures Shaped(Sequences(parts), Missing(parts, FIRST_87) || Missing(parts, SEQUENCE_88)
                                     || Missing(parts, SEQUENCE_86))
  {
    hide Find, Shaped, After87;
    if Find(parts, FIRST_87).Some? {
      FoundNotEmpty(parts, FIRST_87);
      After87Shape(parts);
      ShapedAfter([Ok(Find(parts, FIRST_87).value.raw)], After87(parts),
                  Missing(parts, SEQUENCE_88) || Missing(parts, SEQUENCE_86));
    } else {
      FailureShape();
    }
  }

  /** For any package: the range for the first request is always inside it, requests are never
      empty, and only the last item can be a failure: exactly when a sequence is missing. */
  lemma PlanShape(bpp: bytes)
    requires Plan(bpp).Ok?
    ensures var plan, package := Plan(bpp).value, Find(bpp, BOUND_PROFILE_PACKAGE).value;
            && plan[0].Ok? && plan[0].value <= package.raw
            && Shaped(plan, Missing(package.value, FIRST_87) || Missing(package.value, SEQUENCE_88)
                            || Missing(package.value, SEQUENCE_86))
  {
    FirstShape(bpp);
    hide Find, FindWithOffset, Shaped, Sequences, First, Missing;
    var package := Find(bpp, BOUND_PROFILE_PACKAGE).value;
    var first := First(package, FindWithOffset(package.value, INITIALISE_SECURE_CHANNEL).value);
    SequencesShape(package.value);
    ShapedAfter([first], Sequences(package.value),
                Missing(package.value, FIRST_87) || Missing(package.value, SEQUENCE_88)
                || Missing(package.value, SEQUENCE_86));
  }

  lemma SpreadShape(t: Tlv)
    requires Element(t)
    ensures Spread(t) != [] && Sendable(Spread(t))
  {
    hide Elements, Octets, Header;
    ElementsCover(t.value);
    HeaderAndValue(t);
  }

  // ---------------------------------------------------------------- nothing is lost

  /** The parts of a complete package, after elements of other tags. */
  datatype Parts = Parts(before: seq<Tlv>, init: Tlv, first87: Tlv, seq88: Tlv, second87: Option<Tlv>, seq86: Tlv)

  const PART_TAGS: set<tag> := {INITIALISE_SECURE_CHANNEL, FIRST_87, SEQUENCE_88, SECOND_87, SEQUENCE_86}

  function InOrder(p: Parts): seq<Tlv> {
    p.before + [p.init, p.first87, p.seq88] + (if p.second87.Some? then [p.second87.value] else []) + [p.seq86]
  }

  /** The package's elements are these parts in the order of SGP.22. */
  predicate Ordered(parts: bytes, p: Parts) {
    && Elements(parts) == InOrder(p)
    && p.init.tag == INITIALISE_SECURE_CHANNEL && p.first87.tag == FIRST_87 && p.seq88.tag == SEQUENCE_88
    && (p.second87.Some? ==> p.second87.value.tag == SECOND_87) && p.seq86.tag == SEQUENCE_86
    && (forall k | 0 <= k < |p.before| :: p.before[k].tag !in PART_TAGS)
  }

  /** Nothing but elements in the package and in the two sequences sent element by element. */
  predicate WellFormed(parts: bytes, p: Parts) {
    Whole(parts) && Whole(p.seq88.value) && Whole(p.seq86.value)
  }

  /** Requests of a plan that has no failure. */
  function Values(plan: seq<Item>): (r: seq<bytes>)
    ensures |r| == |plan|
  {
    seq(|plan|, k requires 0 <= k < |plan| => if plan[k].Ok? then plan[k].value else [])
  }

  lemma ValuesAppend(a: seq<Item>, b: seq<Item>)
    ensures Join(Values(a + b)) == Join(Values(a)) + Join(Values(b))
  {
    assert Values(a + b) == Values(a) + Values(b);
    JoinAppend(Values(a), Values(b));
  }

  lemma ValuesOne(b: bytes)
    ensures Join(Values([Ok(b)])) == b
  {
    assert Values([Ok(b)]) == [b];
    JoinOne(b);
  }

  /** What is sent of a sequence: all of it exactly if it is well-formed. */
  lemma SpreadOctets(t: Tlv)
    requires Element(t)
    ensures Join(Values(Spread(t))) == Header(t) + Octets(Elements(t.value))
    ensures |Octets(Elements(t.value))| <= |t.value|
    ensures Whole(t.value) <==> |Octets(Elements(t.value))| == |t.value|
    ensures forall k | 0 <= k < |Spread(t)| :: Spread(t)[k].Ok?
  {
    hide Elements, Join;
    HeaderAndValue(t);
    ValuesAppend([Ok(Header(t))], Oks(Elements(t.value)));
    ValuesOne(Header(t));
    assert Values(Oks(Elements(t.value))) == Raws(Elements(t.value));
    ElementsCover(t.value);
  }

  lemma PartsFound(parts: bytes, p: Parts)
    requires Ordered(parts, p)
    ensures FindWithOffset(parts, INITIALISE_SECURE_CHANNEL) == Some((|Octets(p.before)|, p.init))
    ensures Find(parts, FIRST_87) == Some(p.first87) && Find(parts, SEQUENCE_88) == Some(p.seq88)
    ensures Find(parts, SECOND_87) == p.second87 && Find(parts, SEQUENCE_86) == Some(p.seq86)
  {
    hide Find, FindWithOffset, Elements, Octets;
    var e, n := InOrder(p), |p.before|;
    assert e[..n] == p.before;
    FoundAt(parts, INITIALISE_SECURE_CHANNEL, n);
    FoundAt(parts, FIRST_87, n + 1);
    FoundAt(parts, SEQUENCE_88, n + 2);
    if p.second87.Some? {
      FoundAt(parts, SECOND_87, n + 3);
    } else {
      NotFound(parts, SECOND_87);
    }
    FoundAt(parts, SEQUENCE_86, |e| - 1);
  }

  /** The octets of the parts in order, a beginning of the package's contents. */
  lemma PartsOctets(parts: bytes, p: Parts)
    requires Ordered(parts, p)
    ensures var octets := Octets(p.before) + p.init.raw + p.first87.raw + p.seq88.raw
                          + (if p.second87.Some? then p.second87.value.raw else []) + p.seq86.raw;
            octets <= parts && (Whole(parts) <==> octets == parts)
  {
    hide Elements, Octets;
    var second := if p.second87.Some? then [p.second87.value] else [];
    var second' := if p.second87.Some? then p.second87.value.raw else [];
    ElementsCover(parts);
    WholeOctets(parts);
    OctetsAppend(p.before + [p.init, p.first87, p.seq88] + second, [p.seq86]);
    OctetsAppend(p.before + [p.init, p.first87, p.seq88], second);
    OctetsAppend(p.before, [p.init, p.first87, p.seq88]);
    OctetsThree(p.init, p.first87, p.seq88);
    OctetsOne(p.seq86);
    if p.second87.Some? {
      OctetsOne(p.second87.value);
    } else {
      NoOctets();
    }
    assert Octets(InOrder(p)) == Octets(p.before) + p.init.raw + p.first87.raw + p.seq88.raw + second' + p.seq86.raw;
  }

  lemma WholeOctets(buf: bytes)
    ensures Whole(buf) <==> Octets(Elements(buf)) == buf
  {}

  lemma OctetsThree(a: Tlv, b: Tlv, c: Tlv)
    ensures Octets([a, b, c]) == a.raw + b.raw + c.raw
  {
    OctetsAppend([a, b], [c]);
    OctetsAppend([a], [b]);
    OctetsOne(a);
    OctetsOne(b);
    OctetsOne(c);
    assert [a, b, c] == [a, b] + [c] && [a, b] == [a] + [b];
  }

  lemma FirstIsPrefix(package: Tlv, p: Parts)
    requires Element(package) && Ordered(package.value, p)
    ensures First(package, (|Octets(p.before)|, p.init)) == Ok(Header(package) + Octets(p.before) + p.init.raw)
  {
    hide Element, Ordered, Octets, Elements;
    PartsOctets(package.value, p);
    HeaderAndValue(package);
    var want := Header(package) + Octets(p.before) + p.init.raw;
    var end := |package.raw| - |package.value| + |Octets(p.before)| + |p.init.raw|;
    assert |want| == end;
    assert Octets(p.before) + p.init.raw <= package.value;
    assert package.raw[..end] == want;
  }

  /** The requests of a package whose parts are in order. */
  lemma PlanInOrder(bpp: bytes, p: Parts)
    requires var package := Find(bpp, BOUND_PROFILE_PACKAGE); package.Some? && Ordered(package.value.value, p)
    ensures var package := Find(bpp, BOUND_PROFILE_PACKAGE).value;
            && Element(package) && Element(p.seq88) && Element(p.seq86)
            && Plan(bpp)
               == Ok([Ok(Header(package) + Octets(p.before) + p.init.raw)]
                     + ([Ok(p.first87.raw)]
                        + (Spread(p.seq88) + (if p.second87.Some? then [Ok(p.second87.value.raw)] else [])
                           + Spread(p.seq86))))
  {
    hide Find, FindWithOffset, Elements, Element, Whole, Octets, Header, First, Spread;
    FoundInside(bpp, BOUND_PROFILE_PACKAGE);
    var package := Find(bpp, BOUND_PROFILE_PACKAGE).value;
    PartsFound(package.value, p);
    FirstIsPrefix(package, p);
    FoundInside(package.value, SEQUENCE_88);
    FoundInside(package.value, SEQUENCE_86);
  }

  /** The requests of a package whose parts are in order, one after another. */
  lemma SegmentsJoined(bpp: bytes, p: Parts)
    requires var package := Find(bpp, BOUND_PROFILE_PACKAGE); package.Some? && Ordered(package.value.value, p)
    ensures Plan(bpp).Ok? && forall k | 0 <= k < |Plan(bpp).value| :: Plan(bpp).value[k].Ok?
    ensures var package := Find(bpp, BOUND_PROFILE_PACKAGE).value;
            && Element(package) && Element(p.seq88) && Element(p.seq86)
            && Join(Values(Plan(bpp).value))
               == Header(package) + Octets(p.before) + p.init.raw + p.first87.raw
                  + (Header(p.seq88) + Octets(Elements(p.seq88.value)))
                  + (if p.second87.Some? then p.second87.value.raw else [])
                  + (Header(p.seq86) + Octets(Elements(p.seq86.value)))
  {
    hide Find, Plan, Elements, Whole, Octets, Header, Spread, Join, Values, Ordered;
    var package := Find(bpp, BOUND_PROFILE_PACKAGE).value;
    PlanInOrder(bpp, p);
    SpreadOctets(p.seq88);
    SpreadOctets(p.seq86);
    var first: Item := Ok(Header(package) + Octets(p.before) + p.init.raw);
    var second: seq<Item> := if p.second87.Some? then [Ok(p.second87.value.raw)] else [];
    var plan := [first] + ([Ok(p.first87.raw)] + (Spread(p.seq88) + second + Spread(p.seq86)));
    assert Plan(bpp) == Ok(plan);
    ValuesAppend([first], [Ok(p.first87.raw)] + (Spread(p.seq88) + second + Spread(p.seq86)));
    ValuesAppend([Ok(p.first87.raw)], Spread(p.seq88) + second + Spread(p.seq86));
    ValuesAppend(Spread(p.seq88) + second, Spread(p.seq86));
    ValuesAppend(Spread(p.seq88), second);
    ValuesOne(first.value);
    ValuesOne(p.first87.raw);
    if p.second87.Some? {
      ValuesOne(p.second87.value.raw);
    } else {
      NoValues();
    }
  }

  /** For a package with its parts in order, segmentation loses nothing exactly when the package and
      the two sequences sent element by element hold nothing but elements. */
  lemma SegmentsAreThePackage(bpp: bytes, p: Parts)
    requires var package := Find(bpp, BOUND_PROFILE_PACKAGE); package.Some? && Ordered(package.value.value, p)
    ensures Plan(bpp).Ok? && forall k | 0 <= k < |Plan(bpp).value| :: Plan(bpp).value[k].Ok?
    ensures var package := Find(bpp, BOUND_PROFILE_PACKAGE).value;
            Join(Values(Plan(bpp).value)) == package.raw <==> WellFormed(package.value, p)
  {
    hide Find, FindWithOffset, Elements, Element, Whole, Octets, Header, Join, Values, Ordered, Plan;
    SegmentsJoined(bpp, p);
    var package := Find(bpp, BOUND_PROFILE_PACKAGE).value;
    HeaderAndValue(package);
    HeaderAndValue(p.seq88);
    HeaderAndValue(p.seq86);
    SpreadOctets(p.seq88);
    SpreadOctets(p.seq86);
    PartsOctets(package.value, p);
    var octets := Octets(p.before) + p.init.raw + p.first87.raw + p.seq88.raw
                  + (if p.second87.Some? then p.second87.value.raw else []) + p.seq86.raw;
    var joined := Join(Values(Plan(bpp).value));
    var lost88 := |p.seq88.value| - |Octets(Elements(p.seq88.value))|;
    var lost86 := |p.seq86.value| - |Octets(Elements(p.seq86.value))|;
    assert |joined| == |Header(package)| + |octets| - lost88 - lost86;
    if WellFormed(package.value, p) {
      SequenceWhole(p.seq88);
      SequenceWhole(p.seq86);
    }
  }

  lemma SequenceWhole(t: Tlv)
    requires Element(t) && Whole(t.value)
    ensures Header(t) + Octets(Elements(t.value)) == t.raw
  {
    HeaderAndValue(t);
  }

  lemma NoValues()
    ensures Join(Values([])) == []
  {}

  // ---------------------------------------------------------------- packages built as trees

  lemma {:induction false} EncodedOctets(nodes: seq<Node>)
    ensures Octets(AsTlvs(nodes)) == EncodeAll(nodes)
  {
    hide Encode, Contents, Octets;
    if nodes == [] {
      NoOctets();
      assert AsTlvs(nodes) == [];
    } else {
      var front, last := nodes[..|nodes| - 1], nodes[|nodes| - 1];
      EncodedOctets(front);
      assert AsTlvs(nodes) == AsTlvs(front) + [AsTlv(last)];
      OctetsAppend(AsTlvs(front), [AsTlv(last)]);
      OctetsOne(AsTlv(last));
    }
  }

  lemma EncodedIsWhole(nodes: seq<Node>)
    requires forall k | 0 <= k < |nodes| :: Fits(nodes[k])
    ensures Elements(EncodeAll(nodes)) == AsTlvs(nodes) && Whole(EncodeAll(nodes))
  {
    hide Encode, Contents, Elements, Fits;
    ElementsEncoded(nodes, []);
    ElementsOfNothing();
    assert EncodeAll(nodes) + [] == EncodeAll(nodes);
    assert AsTlvs(nodes) + [] == AsTlvs(nodes);
    EncodedOctets(nodes);
    WholeOctets(EncodeAll(nodes));
  }

  lemma ChildrenWhole(n: Node)
    requires Fits(n) && n.Cons?
    ensures Elements(Contents(n)) == AsTlvs(n.children) && Whole(Contents(n))
  {
    hide Encode, Elements;
    EncodedIsWhole(n.children);
  }

  lemma ChildFits(n: Node, k: nat)
    requires Fits(n) && n.Cons? && k < |n.children|
    ensures Fits(n.children[k])
  {}

  /** A package of SGP.22 written by the encoder is sent byte for byte, with or without
      secondSequenceOf87, whatever precedes InitialiseSecureChannelRequest inside it or follows it. */
  lemma EncodedPackageIsSent(before: seq<Node>, init: Node, first87: Node, seq88: Node, second87: Option<Node>,
                             seq86: Node, after: bytes)
    requires init.tag == INITIALISE_SECURE_CHANNEL && first87.tag == FIRST_87
    requires seq88.Cons? && seq88.tag == SEQUENCE_88 && seq86.Cons? && seq86.tag == SEQUENCE_86
    requires second87.Some? ==> second87.value.tag == SECOND_87
    requires forall k | 0 <= k < |before| :: before[k].tag !in PART_TAGS
    requires Fits(PackageNode(before, init, first87, seq88, second87, seq86))
    ensures var bpp := Encode(PackageNode(before, init, first87, seq88, second87, seq86));
            && Plan(bpp + after).Ok?
            && (forall k | 0 <= k < |Plan(bpp + after).value| :: Plan(bpp + after).value[k].Ok?)
            && Join(Values(Plan(bpp + after).value)) == bpp
  {
    hide Encode, Contents, Elements, Plan, Join, Values, Whole, Fits;
    var n := PackageNode(before, init, first87, seq88, second87, seq86);
    var second: Option<Tlv> := if second87.Some? then Some(AsTlv(second87.value)) else None;
    var p := Parts(AsTlvs(before), AsTlv(init), AsTlv(first87), AsTlv(seq88), second, AsTlv(seq86));
    FoundFirst(n, after);
    ChildrenWhole(n);
    assert n.children[|before| + 2] == seq88 && n.children[|n.children| - 1] == seq86;
    ChildFits(n, |before| + 2);
    ChildFits(n, |n.children| - 1);
    ChildrenWhole(seq88);
    ChildrenWhole(seq86);
    assert AsTlvs(n.children) == InOrder(p);
    SegmentsAreThePackage(Encode(n) + after, p);
  }

  /** The tag and length octets of an encoding. */
  function Lead(n: Node): bytes {
    TagBytes(n.tag) + LengthBytes(|Contents(n)|)
  }

  function Encodings(nodes: seq<Node>): (r: seq<bytes>)
    ensures |r| == |nodes|
  {
    seq(|nodes|, k requires 0 <= k < |nodes| => Encode(nodes[k]))
  }

  lemma LeadIsHeader(n: Node)
    ensures |Contents(n)| <= |Encode(n)| && Header(AsTlv(n)) == Lead(n)
  {
    hide Contents;
    assert Encode(n) == Lead(n) + Contents(n);
  }

  lemma SpreadEncoded(n: Node)
    requires Fits(n) && n.Cons?
    ensures Values(Spread(AsTlv(n))) == [Lead(n)] + Encodings(n.children)
  {
    hide Encode, Contents, Elements, Fits, Header, Lead;
    ChildrenWhole(n);
    LeadIsHeader(n);
  }

  /** The requests an encoded package is cut into, as SGP.22 has it segmented: the package's tag and length
      with all up to InitialiseSecureChannelRequest, firstSequenceOf87 whole, then tag and length
      of sequenceOf88 and each of its elements, secondSequenceOf87 whole if there is one, and
      sequenceOf86 like sequenceOf88. */
  lemma SegmentsOfPackage(before: seq<Node>, init: Node, first87: Node, seq88: Node, second87: Option<Node>,
                          seq86: Node, after: bytes)
    requires init.tag == INITIALISE_SECURE_CHANNEL && first87.tag == FIRST_87
    requires seq88.Cons? && seq88.tag == SEQUENCE_88 && seq86.Cons? && seq86.tag == SEQUENCE_86
    requires second87.Some? ==> second87.value.tag == SECOND_87
    requires forall k | 0 <= k < |before| :: before[k].tag !in PART_TAGS
    requires Fits(PackageNode(before, init, first87, seq88, second87, seq86))
    ensures var n := PackageNode(before, init, first87, seq88, second87, seq86);
            && Plan(Encode(n) + after).Ok?
            && Values(Plan(Encode(n) + after).value)
               == [Lead(n) + EncodeAll(before) + Encode(init), Encode(first87)]
                  + ([Lead(seq88)] + Encodings(seq88.children))
                  + (if second87.Some? then [Encode(second87.value)] else [])
                  + ([Lead(seq86)] + Encodings(seq86.children))
  {
    hide Encode, Contents, Elements, Plan, Fits, Lead, Header, Octets, Spread, Find, Encodings, EncodeAll;
    var n := PackageNode(before, init, first87, seq88, second87, seq86);
    var second: Option<Tlv> := if second87.Some? then Some(AsTlv(second87.value)) else None;
    var p := Parts(AsTlvs(before), AsTlv(init), AsTlv(first87), AsTlv(seq88), second, AsTlv(seq86));
    FoundFirst(n, after);
    ChildrenWhole(n);
    assert n.children[|before| + 2] == seq88 && n.children[|n.children| - 1] == seq86;
    ChildFits(n, |before| + 2);
    ChildFits(n, |n.children| - 1);
    assert AsTlvs(n.children) == InOrder(p);
    PlanInOrder(Encode(n) + after, p);
    LeadIsHeader(n);
    EncodedOctets(before);
    SpreadEncoded(seq88);
    SpreadEncoded(seq86);
    ValuesOfPlan(Lead(n) + EncodeAll(before) + Encode(init), Encode(first87), Spread(AsTlv(seq88)),
                 if second87.Some? then Some(Encode(second87.value)) else None, Spread(AsTlv(seq86)));
  }

  lemma ValuesOfPlan(first: bytes, whole: bytes, a: seq<Item>, optional: Option<bytes>, b: seq<Item>)
    ensures Values([Ok(first)] + ([Ok(whole)] + (a + (if optional.Some? then [Ok(optional.value)] else []) + b)))
         == [first, whole] + Values(a) + (if optional.Some? then [optional.value] else []) + Values(b)
  {}

  function PackageNode(before: seq<Node>, init: Node, first87: Node, seq88: Node, second87: Option<Node>,
                       seq86: Node): Node
  {
    Cons(BOUND_PROFILE_PACKAGE,
         before + [init, first87, seq88] + (if second87.Some? then [second87.value] else []) + [seq86])
  }

  lemma FoundFirst(n: Node, after: bytes)
    requires Fits(n)
    ensures Find(Encode(n) + after, n.tag) == Some(AsTlv(n))
  {
    hide Encode, Contents, Parse;
    ParseEncoded(n, after);
  }
}

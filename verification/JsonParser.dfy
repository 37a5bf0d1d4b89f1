/** The explicit-stack parser (euicc/src/es9p.rs) and its agreement with recursive descent. */
module JsonParser {
  import opened Wrappers
  import opened Bytes
  import opened Json

  /** An open container. An object that is dropped collects no members; the name waits for its
      value. */
  datatype Frame = Array | Object(members: Option<seq<Member>>, name: bytes)

  // ---------------------------------------------------------------- what an open stack means

  /** Whether objects are kept depends only on how many containers are open around them. */
  predicate StackOk(stack: seq<Frame>) {
    forall k | 0 <= k < |stack| :: stack[k].Object? ==> (stack[k].members.Some? <==> k < KEEP_DEPTH)
  }

  /** The value of `frame` once `value` and then `rest` have joined it. */
  function Closed(frame: Frame, value: Json, rest: seq<Member>): Json {
    if frame.Object? && frame.members.Some? then Obj(frame.members.value + [Member(frame.name, value)] + rest)
    else Other
  }

  /** What the text gives when `value` has just ended at `i` inside the containers of `stack`. */
  function Resume(s: bytes, i: nat, value: Json, stack: seq<Frame>): Option<Json>
    requires i <= |s|
    decreases |stack|
  {
    if stack == [] then Some(value)
    else
      var depth := |stack|;
      var outer := stack[..depth - 1];
      match stack[depth - 1]
      case Array =>
        var next := MoreElements(s, i, depth);
        if next.None? then None else Resume(s, next.value, Other, outer)
      case Object(_, _) =>
        var rest := MoreMembers(s, i, depth);
        if rest.None? then None
        else Resume(s, rest.value.next, Closed(stack[depth - 1], value, rest.value.members), outer)
  }

  /** What the text gives when a value is about to start at `i` inside the containers of `stack`. */
  function Continue(s: bytes, i: nat, stack: seq<Frame>): Option<Json>
    requires i <= |s|
  {
    var value := Value(s, i, |stack|);
    if value.None? then None else Resume(s, value.value.next, value.value.value, stack)
  }

  /** The frame with `value` handed to it. */
  function Handed(frame: Frame, value: Json): Frame {
    if frame.Object? && frame.members.Some?
    then Object(Some(frame.members.value + [Member(frame.name, value)]), [])
    else frame
  }

  /** The frame of a kept or dropped object, now at another member. */
  function Named(frame: Frame, name: bytes): Frame {
    if frame.Object? then Object(frame.members, name) else frame
  }

  function Opened(depth: nat, name: bytes): Frame {
    Object(if depth < KEEP_DEPTH then Some([]) else None, name)
  }

  // ---------------------------------------------------------------- one step of the stack

  /** Opening an array moves its first element inside it. */
  lemma OpenArray(s: bytes, i: nat, j: nat, stack: seq<Frame>)
    requires i < |s| && s[i] == OPEN_ARRAY && |stack| < NESTING_LIMIT && j == SkipWs(s, i + 1)
    requires !(j < |s| && s[j] == CLOSE_ARRAY)
    ensures Continue(s, i, stack) == Continue(s, j, stack + [Array])
  {
    var depth := |stack| + 1;
    assert (stack + [Array])[..|stack|] == stack;
    var elements := Elements(s, j, depth);
    assert Value(s, i, |stack|) == if elements.None? then None else Some(Parsed(Other, elements.value));
    var first := Value(s, j, depth);
    assert elements == if first.None? then None else MoreElements(s, first.value.next, depth);
  }

  /** Opening an object moves its first member's value inside it. */
  lemma OpenObject(s: bytes, i: nat, j: nat, stack: seq<Frame>)
    requires i < |s| && s[i] == OPEN_OBJECT && |stack| < NESTING_LIMIT && j == SkipWs(s, i + 1)
    requires !(j < |s| && s[j] == CLOSE_OBJECT)
    ensures var name := NameAt(s, j);
            Continue(s, i, stack)
            == if name.None? then None
               else Continue(s, name.value.next, stack + [Opened(|stack|, name.value.text)])
  {
    hide StringAt, NumberAt, NameAt, MoreMembers, MoreElements;
    var depth := |stack| + 1;
    var name := NameAt(s, j);
    var list := Members(s, j, depth);
    assert Value(s, i, |stack|)
        == if list.None? then None else Some(Parsed(Kept(|stack|, list.value.members), list.value.next));
    if name.Some? {
      EnterObject(s, name.value.next, |stack|, name.value.text, stack);
      FirstMember(s, j, depth, name.value);
    }
  }

  /** Reading on inside an object that has just opened. */
  lemma EnterObject(s: bytes, i: nat, depth: nat, name: bytes, stack: seq<Frame>)
    requires i <= |s| && depth == |stack|
    ensures var value := Value(s, i, depth + 1);
            var inside := Continue(s, i, stack + [Opened(depth, name)]);
            if value.None? then inside.None?
            else
              var rest := MoreMembers(s, value.value.next, depth + 1);
              if rest.None? then inside.None?
              else inside == Resume(s, rest.value.next,
                                    Kept(depth, [Member(name, value.value.value)] + rest.value.members), stack)
  {
    hide Value, MoreMembers, MoreElements;
    var frame := Opened(depth, name);
    var deeper := stack + [frame];
    assert deeper[..depth] == stack && deeper[depth] == frame && |deeper| == depth + 1;
    var value := Value(s, i, depth + 1);
    if value.Some? {
      assert [] + [Member(name, value.value.value)] == [Member(name, value.value.value)];
    }
  }

  /** A member list, by its first member. */
  lemma FirstMember(s: bytes, j: nat, depth: nat, name: Text)
    requires j <= |s| && NameAt(s, j) == Some(name)
    ensures var list := Members(s, j, depth);
            var value := Value(s, name.next, depth);
            if value.None? then list.None?
            else
              var rest := MoreMembers(s, value.value.next, depth);
              if rest.None? then list.None?
              else list == Some(Listed([Member(name.text, value.value.value)] + rest.value.members, rest.value.next))
  {}

  /** A comma in an array starts its next element. */
  lemma NextElement(s: bytes, i: nat, j: nat, value: Json, stack: seq<Frame>)
    requires i <= |s| && stack != [] && stack[|stack| - 1] == Array && j == SkipWs(s, i)
    requires j < |s| && s[j] == COMMA
    ensures Resume(s, i, value, stack) == Continue(s, SkipWs(s, j + 1), stack)
  {
    var k := SkipWs(s, j + 1);
    var elements := Elements(s, k, |stack|);
    assert MoreElements(s, i, |stack|) == elements;
    var next := Value(s, k, |stack|);
    assert elements == if next.None? then None else MoreElements(s, next.value.next, |stack|);
  }

  /** A comma in an object starts its next member. */
  lemma NextMember(s: bytes, i: nat, j: nat, value: Json, stack: seq<Frame>)
    requires i <= |s| && stack != [] && stack[|stack| - 1].Object? && j == SkipWs(s, i)
    requires j < |s| && s[j] == COMMA
    ensures var last := |stack| - 1;
            var name := NameAt(s, SkipWs(s, j + 1));
            Resume(s, i, value, stack)
            == if name.None? then None
               else Continue(s, name.value.next, stack[last := Named(Handed(stack[last], value), name.value.text)])
  {
    hide Value, NameAt, Continue;
    var last := |stack| - 1;
    var k := SkipWs(s, j + 1);
    var name := NameAt(s, k);
    assert MoreMembers(s, i, |stack|) == Members(s, k, |stack|);
    if name.Some? {
      FirstMember(s, k, |stack|, name.value);
      StayInside(s, name.value.next, value, name.value.text, stack);
    }
  }

  /** Reading on inside the innermost object, at its next member's value. */
  lemma StayInside(s: bytes, i: nat, value: Json, name: bytes, stack: seq<Frame>)
    requires i <= |s| && stack != [] && stack[|stack| - 1].Object?
    ensures var last := |stack| - 1;
            var next := Value(s, i, |stack|);
            var inside := Continue(s, i, stack[last := Named(Handed(stack[last], value), name)]);
            if next.None? then inside.None?
            else
              var rest := MoreMembers(s, next.value.next, |stack|);
              if rest.None? then inside.None?
              else inside == Resume(s, rest.value.next,
                                    Closed(stack[last], value, [Member(name, next.value.value)] + rest.value.members),
                                    stack[..last])
  {
    hide Value, MoreMembers, MoreElements;
    var last := |stack| - 1;
    var frame := Named(Handed(stack[last], value), name);
    var stack' := stack[last := frame];
    assert stack'[..last] == stack[..last] && stack'[last] == frame;
    var next := Value(s, i, |stack|);
    if next.Some? {
      var rest := MoreMembers(s, next.value.next, |stack|);
      if rest.Some? {
        ClosedTwice(stack[last], value, name, next.value.value, rest.value.members);
      }
    }
  }

  lemma ClosedTwice(frame: Frame, value: Json, name: bytes, next: Json, rest: seq<Member>)
    requires frame.Object?
    ensures Closed(Named(Handed(frame, value), name), next, rest)
         == Closed(frame, value, [Member(name, next)] + rest)
  {
    if frame.members.Some? {
      var m := frame.members.value;
      assert m + [Member(frame.name, value)] + [Member(name, next)] + rest
          == m + [Member(frame.name, value)] + ([Member(name, next)] + rest);
    }
  }

  function Closer(frame: Frame): byte {
    if frame.Array? then CLOSE_ARRAY else CLOSE_OBJECT
  }

  /** A closing bracket ends the innermost container. */
  lemma CloseContainer(s: bytes, i: nat, j: nat, value: Json, stack: seq<Frame>)
    requires i <= |s| && stack != [] && j == SkipWs(s, i)
    requires j < |s| && s[j] == Closer(stack[|stack| - 1])
    ensures var last := |stack| - 1;
            Resume(s, i, value, stack) == Resume(s, j + 1, Closed(stack[last], value, []), stack[..last])
  {
    var depth := |stack|;
    if stack[depth - 1].Array? {
      assert MoreElements(s, i, depth) == Some(j + 1);
    } else {
      assert MoreMembers(s, i, depth) == Some(Listed([], j + 1));
    }
  }

  /** Anything else after a value is malformed. */
  lemma Malformed(s: bytes, i: nat, j: nat, value: Json, stack: seq<Frame>)
    requires i <= |s| && stack != [] && j == SkipWs(s, i)
    requires j >= |s| || (s[j] != COMMA && s[j] != Closer(stack[|stack| - 1]))
    ensures Resume(s, i, value, stack).None?
  {}

  // ---------------------------------------------------------------- the parser

  /** What is decoded when `out` holds its beginning and `r` is the rest. */
  function Prefixed(out: bytes, r: Option<bytes>): (p: Option<bytes>)
    ensures out == [] ==> p == r
  {
    if r.None? then None
    else
      assert out == [] ==> out + r.value == r.value;
      Some(out + r.value)
  }

  lemma Prepend(out: bytes, text: bytes, rest: Option<bytes>)
    ensures Prefixed(out + text, rest) == Prefixed(out, if rest.None? then None else Some(text + rest.value))
  {
    if rest.Some? {
      assert out + (text + rest.value) == (out + text) + rest.value;
    }
  }

  class Parser {
    const s: bytes
    var i: nat

    constructor (s: bytes)
      ensures this.s == s && i == 0
    {
      this.s := s;
      i := 0;
    }

    function Peek(): Option<byte>
      reads this
    {
      if i < |s| then Some(s[i]) else None
    }

    method SkipWhitespace()
      requires i <= |s|
      modifies this
      ensures i == SkipWs(s, old(i))
    {
      while i < |s| && s[i] <= 32
        invariant old(i) <= i <= |s| && SkipWs(s, i) == SkipWs(s, old(i))
      {
        i := i + 1;
      }
    }

    /** The closing quote, for a string that starts at `start`. */
    method ClosingQuote(start: nat) returns (r: Option<nat>)
      ensures r == FindQuote(s, start)
    {
      var end := start;
      while end < |s|
        invariant start <= end && FindQuote(s, end) == FindQuote(s, start)
      {
        if s[end] == QUOTE {
          return Some(end);
        } else if s[end] == BACKSLASH {
          end := end + 2;
        } else {
          end := end + 1;
        }
      }
      r := None;
    }

    method Unescape(start: nat, end: nat) returns (r: Option<bytes>)
      requires start <= end < |s|
      ensures r == Decode(s, start, end)
    {
      var out: bytes := [];
      var at := start;
      while at < end
        invariant start <= at
        invariant Prefixed(out, Decode(s, at, end)) == Decode(s, start, end)
        decreases end - at
      {
        if s[at] != BACKSLASH {
          Prepend(out, [s[at]], Decode(s, at + 1, end));
          out := out + [s[at]];
          at := at + 1;
          continue;
        }
        var escape := EscapeAt(s, at, end);
        if escape.None? {
          return None;
        }
        Prepend(out, escape.value.text, Decode(s, at + escape.value.used, end));
        out := out + escape.value.text;
        at := at + escape.value.used;
      }
      assert out + [] == out;
      r := Some(out);
    }

    /** At the opening quote. */
    method String() returns (r: Option<bytes>)
      requires i < |s|
      modifies this
      ensures var text := StringAt(s, old(i));
              if text.None? then r.None? && i == old(i) else r == Some(text.value.text) && i == text.value.next
    {
      var start := i + 1;
      var end := ClosingQuote(start);
      if end.None? {
        return None;
      }
      r := Unescape(start, end.value);
      if r.Some? {
        i := end.value + 1;
      }
    }

    method MemberName() returns (r: Option<bytes>)
      requires i <= |s|
      modifies this
      ensures old(i) <= i <= |s|
      ensures var name := NameAt(s, old(i));
              if name.None? then r.None? else r == Some(name.value.text) && i == name.value.next
    {
      if Peek() != Some(QUOTE) {
        return None;
      }
      var name := String();
      if name.None? {
        return None;
      }
      SkipWhitespace();
      if Peek() != Some(COLON) {
        return None;
      }
      i := i + 1;
      SkipWhitespace();
      r := name;
    }

    /** Steps over the number at the index, byte by byte; stays if there is none. */
    method Number() returns (ok: bool)
      requires i <= |s|
      modifies this
      ensures var next := NumberAt(s, old(i));
              ok == next.Some? && i == (if ok then next.value else old(i))
    {
      var end := i;
      while end < |s| && NumberChar(s[end])
        invariant i <= end <= |s| && end + NumberRun(s, end) == i + NumberRun(s, i)
      {
        end := end + 1;
      }
      var n := ConvertedLength(s[i..end]);
      if n == 0 {
        return false;
      }
      i := i + n;
      ok := true;
    }
  }

  /** Just past the digits from an index on. */
  method SkipDigits(run: bytes, at: nat) returns (end: nat)
    ensures end == at + Digits(run, at)
  {
    end := at;
    while end < |run| && Digit(run[end])
      invariant end + Digits(run, end) == at + Digits(run, at)
    {
      end := end + 1;
    }
  }

  method ConvertedLength(run: bytes) returns (n: nat)
    ensures n == StrtodLen(run)
  {
    var start := 0;
    if SignAt(run, 0) {
      start := 1;
    }
    var i := SkipDigits(run, start);
    var some := i > start;
    if i < |run| && run[i] == POINT {
      var end := SkipDigits(run, i + 1);
      some := some || end > i + 1;
      if some {
        i := end;
      }
    }
    if !some {
      return 0;
    }
    if i < |run| && ExponentMark(run[i]) {
      var e := i + 1;
      if SignAt(run, e) {
        e := e + 1;
      }
      var end := SkipDigits(run, e);
      if end > e {
        i := end;
      }
    }
    return i;
  }

  datatype Progress = Failed | Opening | Ended(value: Json)

  /** What the byte at the index begins: nothing valid, a whole value, or a container left open with
      its first value due. */
  method StartValue(p: Parser, stack: seq<Frame>) returns (r: Progress, open: seq<Frame>)
    requires p.i <= |p.s| && StackOk(stack)
    modifies p
    ensures p.i <= |p.s|
    ensures match r
            case Failed => Continue(p.s, old(p.i), stack).None?
            case Opening =>
              StackOk(open) && p.i > old(p.i) && Continue(p.s, old(p.i), stack) == Continue(p.s, p.i, open)
            case Ended(value) =>
              open == stack && p.i > old(p.i) && Value(p.s, old(p.i), |stack|) == Some(Parsed(value, p.i))
  {
    open := stack;
    var at := p.i;
    if p.Peek().None? {
      return Failed, stack;
    }
    var c := p.s[p.i];
    if c == 0x6E && StartsWith(p.s, p.i, NULL_TEXT) {
      p.i := p.i + 4;
      r := Ended(Other);
    } else if c == 0x66 && StartsWith(p.s, p.i, FALSE_TEXT) {
      p.i := p.i + 5;
      r := Ended(Other);
    } else if c == 0x74 && StartsWith(p.s, p.i, TRUE_TEXT) {
      p.i := p.i + 4;
      r := Ended(Other);
    } else if c == QUOTE {
      var text := p.String();
      r := if text.None? then Failed else Ended(Str(text.value));
    } else if c == 0x2D || Digit(c) {
      var ok := p.Number();
      r := if ok then Ended(Other) else Failed;
    } else if c == OPEN_ARRAY {
      r, open := StartArray(p, stack);
    } else if c == OPEN_OBJECT {
      r, open := StartObject(p, stack);
    } else {
      r := Failed;
    }
  }

  method StartArray(p: Parser, stack: seq<Frame>) returns (r: Progress, open: seq<Frame>)
    requires p.i < |p.s| && p.s[p.i] == OPEN_ARRAY && StackOk(stack)
    modifies p
    ensures p.i <= |p.s|
    ensures match r
            case Failed => Continue(p.s, old(p.i), stack).None?
            case Opening =>
              StackOk(open) && p.i > old(p.i) && Continue(p.s, old(p.i), stack) == Continue(p.s, p.i, open)
            case Ended(value) =>
              open == stack && p.i > old(p.i) && Value(p.s, old(p.i), |stack|) == Some(Parsed(value, p.i))
  {
    open := stack;
    if |stack| >= NESTING_LIMIT {
      return Failed, stack;
    }
    p.i := p.i + 1;
    p.SkipWhitespace();
    if p.Peek() == Some(CLOSE_ARRAY) {
      p.i := p.i + 1;
      r := Ended(Other);
    } else {
      OpenArray(p.s, old(p.i), p.i, stack);
      open := stack + [Array];
      r := Opening;
    }
  }

  method StartObject(p: Parser, stack: seq<Frame>) returns (r: Progress, open: seq<Frame>)
    requires p.i < |p.s| && p.s[p.i] == OPEN_OBJECT && StackOk(stack)
    modifies p
    ensures p.i <= |p.s|
    ensures match r
            case Failed => Continue(p.s, old(p.i), stack).None?
            case Opening =>
              StackOk(open) && p.i > old(p.i) && Continue(p.s, old(p.i), stack) == Continue(p.s, p.i, open)
            case Ended(value) =>
              open == stack && p.i > old(p.i) && Value(p.s, old(p.i), |stack|) == Some(Parsed(value, p.i))
  {
    open := stack;
    if |stack| >= NESTING_LIMIT {
      return Failed, stack;
    }
    var keep := |stack| < KEEP_DEPTH;
    p.i := p.i + 1;
    p.SkipWhitespace();
    if p.Peek() == Some(CLOSE_OBJECT) {
      p.i := p.i + 1;
      r := Ended(if keep then Obj([]) else Other);
    } else {
      OpenObject(p.s, old(p.i), p.i, stack);
      var name := p.MemberName();
      if name.None? {
        return Failed, stack;
      }
      open := stack + [Object(if keep then Some([]) else None, name.value)];
      r := Opening;
    }
  }

  /** A comma after a value: another value of the innermost container is next. */
  method NextInside(p: Parser, value: Json, stack: seq<Frame>) returns (ok: bool, updated: seq<Frame>)
    requires p.i < |p.s| && p.s[p.i] == COMMA && stack != [] && StackOk(stack)
    modifies p
    ensures old(p.i) <= p.i <= |p.s|
    ensures forall here: nat :: here <= |p.s| && SkipWs(p.s, here) == old(p.i) ==>
              Resume(p.s, here, value, stack) == if ok then Continue(p.s, p.i, updated) else None
    ensures ok ==> StackOk(updated)
  {
    hide Resume, Continue, Value, NameAt, MoreElements, MoreMembers;
    var last := |stack| - 1;
    var frame := stack[last];
    forall here: nat | here <= |p.s| && SkipWs(p.s, here) == p.i
      ensures Resume(p.s, here, value, stack)
           == if frame.Array? then Continue(p.s, SkipWs(p.s, p.i + 1), stack)
              else
                var name := NameAt(p.s, SkipWs(p.s, p.i + 1));
                if name.None? then None
                else Continue(p.s, name.value.next, stack[last := Named(Handed(frame, value), name.value.text)])
    {
      if frame.Array? {
        NextElement(p.s, here, p.i, value, stack);
      } else {
        NextMember(p.s, here, p.i, value, stack);
      }
    }
    p.i := p.i + 1;
    p.SkipWhitespace();
    updated := stack;
    if frame.Object? {
      var name := p.MemberName();
      if name.None? {
        return false, stack;
      }
      updated := stack[last := Named(Handed(frame, value), name.value)];
    }
    ok := true;
  }

  /** Hands a finished value to its container and closes the containers that end here, until the
      text is done or another value starts. */
  method HandOver(p: Parser, finished: Json, open: seq<Frame>) returns (r: Progress, stack: seq<Frame>)
    requires p.i <= |p.s| && StackOk(open)
    modifies p
    ensures old(p.i) <= p.i <= |p.s|
    ensures match r
            case Failed => Resume(p.s, old(p.i), finished, open).None?
            case Opening => StackOk(stack) && Resume(p.s, old(p.i), finished, open) == Continue(p.s, p.i, stack)
            case Ended(value) => Resume(p.s, old(p.i), finished, open) == Some(value)
  {
    hide Value, NameAt, MoreMembers, MoreElements;
    var value := finished;
    stack := open;
    while stack != []
      invariant old(p.i) <= p.i <= |p.s| && StackOk(stack)
      invariant Resume(p.s, old(p.i), finished, open) == Resume(p.s, p.i, value, stack)
      decreases |stack|
    {
      ghost var here := p.i;
      var last := |stack| - 1;
      p.SkipWhitespace();
      if p.Peek() == Some(COMMA) {
        var ok, updated := NextInside(p, value, stack);
        return if ok then Opening else Failed, updated;
      } else if p.Peek() == Some(Closer(stack[last])) {
        CloseContainer(p.s, here, p.i, value, stack);
        p.i := p.i + 1;
        value := Closed(stack[last], value, []);
        stack := stack[..last];
      } else {
        Malformed(p.s, here, p.i, value, stack);
        return Failed, stack;
      }
    }
    r := Ended(value);
  }

  /** The explicit-stack parser reads every input as recursive descent does. */
  method Parse(input: bytes) returns (r: Option<Json>)
    ensures r == Document(input)
  {
    var p := new Parser(CutNul(input));
    if StartsWith(p.s, 0, BOM) {
      p.i := 3;
    }
    p.SkipWhitespace();
    var stack: seq<Frame> := [];
    while true
      invariant p.s == CutNul(input) && p.i <= |p.s| && StackOk(stack)
      invariant Document(input) == Continue(p.s, p.i, stack)
      decreases |p.s| - p.i
    {
      var step, open := StartValue(p, stack);
      if step.Failed? {
        return None;
      }
      stack := open;
      if step.Ended? {
        step, stack := HandOver(p, step.value, stack);
        if step.Failed? {
          return None;
        }
        if step.Ended? {
          return Some(step.value);
        }
      }
    }
  }
}

/** Reading a log backwards in fixed windows (zte-agent/src/key_log.rs), against searching all of
    its complete lines at once. Files are byte strings that do not change during a scan. */
module KeyLog {
  import opened Wrappers
  import opened Bytes

  const NEWLINE: byte := 0x0A

  /** The newest match in a block of lines. */
  type Finder<!T> = bytes -> Option<T>

  function Or<T>(a: Option<T>, b: Option<T>): Option<T> {
    if a.Some? then a else b
  }

  predicate EndsLine(b: bytes) {
    b == [] || b[|b| - 1] == NEWLINE
  }

  /** A finder looks at lines one by one and prefers later ones: on a block of whole lines followed
      by more text it gives the match in the text, or else the one in the block. */
  ghost predicate FindsNewest<T(!new)>(find: Finder<T>) {
    && find([]).None?
    && forall a, b :: EndsLine(a) ==> find(a + b) == Or(find(b), find(a))
  }

  lemma Compose<T(!new)>(find: Finder<T>, a: bytes, b: bytes)
    requires FindsNewest(find) && EndsLine(a)
    ensures find(a + b) == Or(find(b), find(a))
  {}

  // ---------------------------------------------------------------- finders that look at lines

  function FirstNewline(b: bytes, lo: nat, hi: nat): (r: Option<nat>)
    requires lo <= hi <= |b|
    ensures r.Some? ==> lo <= r.value < hi && b[r.value] == NEWLINE && forall k | lo <= k < r.value :: b[k] != NEWLINE
    ensures r.None? ==> forall k | lo <= k < hi :: b[k] != NEWLINE
    decreases hi - lo
  {
    if lo == hi then None
    else if b[lo] == NEWLINE then Some(lo)
    else FirstNewline(b, lo + 1, hi)
  }

  function LastNewline(b: bytes, lo: nat, hi: nat): (r: Option<nat>)
    requires lo <= hi <= |b|
    ensures r.Some? ==> lo <= r.value < hi && b[r.value] == NEWLINE && forall k | r.value < k < hi :: b[k] != NEWLINE
    ensures r.None? ==> forall k | lo <= k < hi :: b[k] != NEWLINE
    decreases hi - lo
  {
    if lo == hi then None
    else if b[hi - 1] == NEWLINE then Some(hi - 1)
    else LastNewline(b, lo, hi - 1)
  }

  /** The newest line, its ending removed, that `match` accepts. */
  function NewestLine<T>(text: bytes, accept: bytes -> Option<T>): Option<T>
    decreases |text|
  {
    if text == [] then None
    else
      var end := FirstNewline(text, 0, |text|);
      if end.None? then accept(text)
      else
        var rest := NewestLine(text[end.value + 1..], accept);
        Or(rest, accept(WithoutReturn(text[..end.value])))
  }

  function WithoutReturn(line: bytes): bytes {
    if line != [] && line[|line| - 1] == 0x0D then line[..|line| - 1] else line
  }

  /** A line may end in CR LF as well as in LF. */
  lemma LineEnds(line: bytes)
    ensures WithoutReturn(line + ['\r' as byte]) == line
    ensures line == [] || line[|line| - 1] != '\r' as byte ==> WithoutReturn(line) == line
  {}

  lemma {:induction false} NewestLineComposes<T>(a: bytes, b: bytes, accept: bytes -> Option<T>)
    requires EndsLine(a)
    ensures NewestLine(a + b, accept) == Or(NewestLine(b, accept), NewestLine(a, accept))
    decreases |a|
  {
    if a == [] {
      assert a + b == b;
    } else {
      var end := FirstNewline(a, 0, |a|);
      assert a[|a| - 1] == NEWLINE;
      var k := end.value;
      assert FirstNewline(a + b, 0, |a + b|) == Some(k) by {
        assert (a + b)[k] == NEWLINE;
        assert forall i | 0 <= i < k :: (a + b)[i] == a[i];
      }
      hide FirstNewline, WithoutReturn;
      assert (a + b)[..k] == a[..k];
      assert (a + b)[k + 1..] == a[k + 1..] + b;
      NewestLineComposes(a[k + 1..], b, accept);
    }
  }

  /** Every search for the newest accepted line is such a finder. */
  lemma LineFinders<T(!new)>(accept: bytes -> Option<T>)
    ensures FindsNewest((text: bytes) => NewestLine(text, accept))
  {
    var find := (text: bytes) => NewestLine(text, accept);
    forall a, b | EndsLine(a)
      ensures find(a + b) == Or(find(b), find(a))
    {
      NewestLineComposes(a, b, accept);
    }
  }

  // ---------------------------------------------------------------- the backward scan

  /** The end of the complete lines in a range: just past its last newline. */
  function CompleteEnd(data: bytes, floor: nat, end: nat): (r: nat)
    requires floor <= end <= |data|
    ensures floor <= r <= end
  {
    var last := LastNewline(data, floor, end);
    if last.Some? then last.value + 1 else floor
  }

  /** Every complete line from `floor` on, its newline included, is shorter than `chunk`. */
  ghost predicate ShortLines(data: bytes, floor: nat, chunk: nat) {
    forall p | floor <= p < |data| && data[p] == NEWLINE && p + 1 - floor >= chunk ::
      exists k :: p + 1 - chunk <= k < p && data[k] == NEWLINE
  }

  /** `hi` starts a line of the range. */
  predicate Boundary(data: bytes, floor: nat, hi: nat) {
    hi == floor || (floor < hi <= |data| && data[hi - 1] == NEWLINE)
  }

  function Max(a: int, b: int): int {
    if a > b then a else b
  }

  /** With short lines, a window that does not reach the floor cuts a line but also holds a whole
      one: the next window ends where that line starts. */
  lemma CutLine(data: bytes, floor: nat, end: nat, chunk: nat, lo: nat, last: nat)
    requires floor < lo <= last < end <= |data| && chunk > 0 && last + 1 <= lo + chunk
    requires ShortLines(data[..end], floor, chunk)
    requires data[last] == NEWLINE && last + 1 == lo + chunk
    ensures var first := FirstNewline(data, lo, last + 1); first.Some? && first.value < last
  {
    var p := last;
    assert data[..end][p] == NEWLINE && p + 1 - floor >= chunk;
    var k :| p + 1 - chunk <= k < p && data[..end][k] == NEWLINE;
    assert data[k] == NEWLINE;
  }

  /** The match in two adjacent ranges, the first of whole lines. */
  lemma Join<T(!new)>(find: Finder<T>, data: bytes, lo: nat, mid: nat, hi: nat)
    requires FindsNewest(find) && lo <= mid <= hi <= |data| && EndsLine(data[lo..mid])
    ensures find(data[lo..hi]) == Or(find(data[mid..hi]), find(data[lo..mid]))
  {
    hide FindsNewest, EndsLine;
    assert data[lo..hi] == data[lo..mid] + data[mid..hi];
    Compose(find, data[lo..mid], data[mid..hi]);
  }

  /** One window, `lo..hi`: the part `start..stop` of it holds lines to search. */
  method Window(data: bytes, floor: nat, lo: nat, hi: nat, newestWindow: bool)
    returns (start: nat, stop: nat)
    requires floor <= lo < hi <= |data|
    ensures lo <= start <= hi && lo <= stop <= hi
    ensures start == if lo == floor then lo else CutEnd(data, lo, hi)
    ensures stop == if newestWindow then CompleteEnd(data, lo, hi) else hi
  {
    // Until a newline has been seen, nothing is known to be complete.
    stop := hi;
    if newestWindow {
      var last := LastNewline(data, lo, hi);
      stop := if last.Some? then last.value + 1 else lo;
    }
    // A window that is not the first of the range opens in the middle of a line.
    start := lo;
    if lo != floor {
      var first := FirstNewline(data, lo, hi);
      start := if first.Some? then first.value + 1 else hi;
    }
  }

  /** Just past the first newline of a window, or its end. */
  function CutEnd(data: bytes, lo: nat, hi: nat): (r: nat)
    requires lo <= hi <= |data|
    ensures lo <= r <= hi
  {
    var first := FirstNewline(data, lo, hi);
    if first.Some? then first.value + 1 else hi
  }

  /** What is known between windows: nothing complete seen yet, or everything from `hi` on searched
      in vain. */
  ghost predicate Searched<T(!new)>(data: bytes, floor: nat, end: nat, chunk: nat, find: Finder<T>,
                                    hi: nat, newestWindow: bool, consumed: nat)
    requires floor <= hi <= end <= |data|
  {
    if newestWindow then consumed == floor && forall k | hi <= k < end :: data[k] != NEWLINE
    else
      && consumed == CompleteEnd(data, floor, end) && hi <= consumed
      && (ShortLines(data[..end], floor, chunk) ==>
            Boundary(data, floor, hi) && find(data[hi..consumed]).None?)
  }

  /** The last newline of the whole range is the last one of the first window that has any. */
  lemma LastOfRange(data: bytes, floor: nat, lo: nat, hi: nat, end: nat)
    requires floor <= lo < hi <= end <= |data|
    requires forall k | hi <= k < end :: data[k] != NEWLINE
    ensures LastNewline(data, lo, hi).Some? ==> CompleteEnd(data, lo, hi) == CompleteEnd(data, floor, end)
    ensures LastNewline(data, lo, hi).None? ==> forall k | lo <= k < end :: data[k] != NEWLINE
  {}

  /** With short lines, the next window starts at a line start inside this one, or at the floor. */
  lemma NextBoundary(data: bytes, floor: nat, end: nat, chunk: nat, lo: nat, hi: nat, stop: nat)
    requires floor < hi <= end <= |data| && chunk > 0 && lo == Max(hi - chunk, floor)
    requires ShortLines(data[..end], floor, chunk)
    requires lo < stop <= hi && data[stop - 1] == NEWLINE
    ensures var start := if lo == floor then lo else CutEnd(data, lo, hi);
            && start <= stop && (lo > floor ==> lo < start < hi)
            && Boundary(data, floor, start)
  {
    if lo > floor {
      assert FirstNewline(data, lo, hi).Some?;
      if data[hi - 1] == NEWLINE {
        CutLine(data, floor, end, chunk, lo, hi - 1);
        assert FirstNewline(data, lo, hi).value < hi - 1;
      }
    }
  }

  /** If the range up to `stop` and the one from it were searched in vain, so is their union. */
  lemma Extend<T(!new)>(data: bytes, floor: nat, start: nat, stop: nat, done: nat, find: Finder<T>)
    requires FindsNewest(find) && start <= stop <= done <= |data|
    requires start == stop || data[stop - 1] == NEWLINE
    requires start < stop ==> find(data[start..stop]).None?
    requires stop < done ==> find(data[stop..done]).None?
    ensures find(data[start..done]).None?
  {
    assert data[stop..stop] == [];
    Join(find, data, start, stop, done);
  }

  /** A window searched in vain leaves everything from the next window's end on searched. */
  lemma NextWindow<T(!new)>(data: bytes, floor: nat, end: nat, chunk: nat, find: Finder<T>,
                            hi: nat, newestWindow: bool, consumed: nat, lo: nat, start: nat, stop: nat)
    requires floor < hi <= end <= |data| && chunk > 0 && FindsNewest(find)
    requires Searched(data, floor, end, chunk, find, hi, newestWindow, consumed)
    requires lo == Max(hi - chunk, floor)
    requires start == if lo == floor then lo else CutEnd(data, lo, hi)
    requires stop == if newestWindow then CompleteEnd(data, lo, hi) else hi
    requires start < stop ==> find(data[start..stop]).None?
    ensures var next := if start == lo || start >= hi then lo else start;
            var waiting := newestWindow && stop == lo;
            Searched(data, floor, end, chunk, find, next, waiting, if newestWindow && !waiting then stop else consumed)
  {
    hide CutEnd, FirstNewline, ShortLines;
    if newestWindow {
      LastOfRange(data, floor, lo, hi, end);
    }
    if !(newestWindow && stop == lo) && ShortLines(data[..end], floor, chunk) {
      NextBoundary(data, floor, end, chunk, lo, hi, stop);
      Extend(data, floor, start, stop, if newestWindow then stop else consumed, find);
    }
    if newestWindow && stop > lo && lo > floor {
      CutBefore(data, lo, hi);
    }
  }

  lemma CutBefore(data: bytes, lo: nat, hi: nat)
    requires lo < hi <= |data| && LastNewline(data, lo, hi).Some?
    ensures CutEnd(data, lo, hi) <= CompleteEnd(data, lo, hi)
  {}

  /** A match found in a window is the newest of all complete lines, if lines are short. */
  lemma FoundHere<T(!new)>(data: bytes, floor: nat, end: nat, chunk: nat, find: Finder<T>,
                           hi: nat, newestWindow: bool, consumed: nat, lo: nat, start: nat, stop: nat)
    requires floor < hi <= end <= |data| && chunk > 0 && FindsNewest(find)
    requires Searched(data, floor, end, chunk, find, hi, newestWindow, consumed)
    requires lo == Max(hi - chunk, floor)
    requires start == if lo == floor then lo else CutEnd(data, lo, hi)
    requires stop == if newestWindow then CompleteEnd(data, lo, hi) else hi
    requires start < stop && find(data[start..stop]).Some?
    ensures ShortLines(data[..end], floor, chunk) ==>
              find(data[floor..CompleteEnd(data, floor, end)]) == find(data[start..stop])
  {
    hide CutEnd, FirstNewline, ShortLines, FindsNewest, LastNewline;
    if newestWindow {
      LastOfRange(data, floor, lo, hi, end);
    }
    var done := if newestWindow then stop else consumed;
    if ShortLines(data[..end], floor, chunk) {
      NextBoundary(data, floor, end, chunk, lo, hi, stop);
      Join(find, data, start, stop, done);
      assert data[stop..stop] == [];
      Join(find, data, floor, start, done);
    }
  }

  /** Searches a range from its end: the newest match, and where its complete lines end. `asked` records
      the ranges given to `find`: without any bound on the lines they never pass the last newline;
      if every line is shorter than `chunk`, the scan is the search of all complete lines at once. */
  method ScanBack<T(!new)>(data: bytes, floor: nat, end: nat, chunk: nat, find: Finder<T>)
    returns (newest: Option<T>, consumed: nat, ghost asked: seq<(nat, nat)>)
    requires floor <= end <= |data| && chunk > 0
    requires FindsNewest(find)
    ensures consumed == CompleteEnd(data, floor, end)
    ensures forall r | r in asked :: floor <= r.0 < r.1 <= consumed
    ensures newest.Some? ==> asked != [] && newest == find(data[asked[|asked| - 1].0..asked[|asked| - 1].1])
    ensures ShortLines(data[..end], floor, chunk) ==> newest == find(data[floor..consumed])
  {
    hide CutEnd, ShortLines, FindsNewest, Boundary;
    newest := None;
    consumed := floor;
    asked := [];
    var hi := end;
    var newestWindow := true;
    while hi > floor
      invariant floor <= hi <= end && newest.None?
      invariant Searched(data, floor, end, chunk, find, hi, newestWindow, consumed)
      invariant newestWindow ==> asked == []
      invariant forall r | r in asked :: floor <= r.0 < r.1 <= consumed
    {
      var lo := Max(hi - chunk, floor);
      var start, stop := Window(data, floor, lo, hi, newestWindow);
      ghost var before, before' := newestWindow, consumed;
      if newestWindow && stop > lo {
        newestWindow := false;
        consumed := stop;
      }
      if start < stop {
        asked := asked + [(start, stop)];
        newest := find(data[start..stop]);
        if newest.Some? {
          FoundHere(data, floor, end, chunk, find, hi, before, before', lo, start, stop);
          if before {
            LastOfRange(data, floor, lo, hi, end);
          }
          return;
        }
      }
      NextWindow(data, floor, end, chunk, find, hi, before, before', lo, start, stop);
      // End the next window where this one's lines start, if that makes progress.
      hi := if start == lo || start >= hi then lo else start;
    }
    NothingLeft(data, floor, end, chunk, find, newestWindow, consumed);
  }

  lemma NothingLeft<T(!new)>(data: bytes, floor: nat, end: nat, chunk: nat, find: Finder<T>, newestWindow: bool,
                             consumed: nat)
    requires floor <= end <= |data| && FindsNewest(find)
    requires Searched(data, floor, end, chunk, find, floor, newestWindow, consumed)
    ensures consumed == CompleteEnd(data, floor, end)
    ensures ShortLines(data[..end], floor, chunk) ==> find(data[floor..consumed]).None?
  {
    assert data[floor..floor] == [];
  }

  /** The newest match in a log or, if it has none, in the rotated one; and the beginning of the
      unfinished line after it, which is newer and has no newline. */
  method Newest<T(!new)>(log: bytes, rotated: bytes, chunk: nat, find: Finder<T>)
    returns (found: Option<T>, pending: bytes)
    requires chunk > 0 && FindsNewest(find)
    ensures var end := CompleteEnd(log, 0, |log|);
            && pending == log[end..if |log| < end + chunk then |log| else end + chunk]
            && (pending == [] <==> EndsLine(log)) && NEWLINE !in pending
    ensures ShortLines(log, 0, chunk) && ShortLines(rotated, 0, chunk) ==>
              found == Or(find(log[..CompleteEnd(log, 0, |log|)]), find(rotated[..CompleteEnd(rotated, 0, |rotated|)]))
  {
    hide CutEnd, ShortLines, FindsNewest, Boundary;
    assert log[..|log|] == log && rotated[..|rotated|] == rotated;
    var end, consumed, older := |log|, 0, 0;
    ghost var asked;
    found, consumed, asked := ScanBack(log, 0, end, chunk, find);
    assert log[0..consumed] == log[..consumed];
    pending := [];
    if consumed < end {
      pending := log[consumed..if end < consumed + chunk then end else consumed + chunk];
    }
    LineBeingWritten(log);
    if found.None? {
      found, older, asked := ScanBack(rotated, 0, |rotated|, chunk, find);
      assert rotated[0..older] == rotated[..older];
    }
  }

  lemma LineBeingWritten(log: bytes)
    ensures var end := CompleteEnd(log, 0, |log|);
            (end == |log| <==> EndsLine(log)) && forall k | end <= k < |log| :: log[k] != NEWLINE
  {}
}

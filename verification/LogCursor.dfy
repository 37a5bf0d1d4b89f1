/** Following a log that grows and is rotated, reading only what is new (zte-agent/src/bearer.rs),
    against searching everything the log ever held. */
module LogCursor {
  import opened Wrappers
  import opened Bytes
  import opened KeyLog

  const CHUNK := 256 * 1024

  /** The cursor's fields; `ambr` is the newest match it holds. */
  datatype Fields<T> = Fields(scanned: bool, ino: int, readLen: nat, ambr: Option<T>)

  function Complete(log: bytes): bytes {
    log[..CompleteEnd(log, 0, |log|)]
  }

  /** Looking again at a log with inode `ino`, after which `rotated` holds the older file. */
  function Refreshed<T>(c: Fields<T>, log: bytes, ino: int, rotated: bytes, find: Finder<T>): Fields<T> {
    if !c.scanned || ino != c.ino || |log| < c.readLen then
      var found := Or(find(Complete(log)), find(Complete(rotated)));
      Fields(true, ino, CompleteEnd(log, 0, |log|), Or(found, c.ambr))
    else
      var end := CompleteEnd(log, c.readLen, |log|);
      c.(readLen := end, ambr := Or(find(log[c.readLen..end]), c.ambr))
  }

  class Cursor<T(!new)> {
    var scanned: bool
    var ino: int
    var readLen: nat
    var ambr: Option<T>

    ghost function Value(): Fields<T>
      reads this
    {
      Fields(scanned, ino, readLen, ambr)
    }

    constructor ()
      ensures Value() == Fields(false, 0, 0, None)
    {
      scanned, ino, readLen, ambr := false, 0, 0, None;
    }

    /** One look. Where the lines are shorter than the read window and `readLen` is a line start of a
        log that was not rotated, the match is the newest; the rest holds for any files. */
    method Refresh(log: bytes, logIno: int, rotated: bytes, find: Finder<T>) returns (r: Option<T>)
      requires FindsNewest(find)
      modifies this
      ensures Looked(old(Value()), log, logIno, rotated, find, Value()) && r == ambr
    {
      hide ShortLines, FindsNewest, Boundary, LastNewline;
      assert log[..|log|] == log && rotated[..|rotated|] == rotated;
      ghost var readable := Readable(Value(), log, logIno, rotated);
      ghost var asked;
      if !scanned || logIno != ino || |log| < readLen {
        var newest, consumed;
        newest, consumed, asked := ScanBack(log, 0, |log|, CHUNK, find);
        assert log[0..consumed] == Complete(log);
        readLen := consumed;
        if newest.None? {
          var end;
          newest, end, asked := ScanBack(rotated, 0, |rotated|, CHUNK, find);
          assert rotated[0..end] == Complete(rotated);
        }
        if newest.Some? {
          ambr := newest;
        }
        scanned := true;
        ino := logIno;
      } else if |log| > readLen {
        if readable {
          ShortFrom(log, readLen);
        }
        var newest, consumed;
        newest, consumed, asked := ScanBack(log, readLen, |log|, CHUNK, find);
        readLen := consumed;
        if newest.Some? {
          ambr := newest;
        }
      } else {
        assert log[readLen..readLen] == [];
        Nothing(find);
      }
      r := ambr;
    }
  }

  /** What the match in a look depends on: short lines, and reading on only from a line start. */
  ghost predicate Readable<T>(c: Fields<T>, log: bytes, ino: int, rotated: bytes) {
    && ShortLines(log, 0, CHUNK) && ShortLines(rotated, 0, CHUNK)
    && (c.scanned && c.ino == ino && c.readLen <= |log| ==> Boundary(log, 0, c.readLen))
  }

  /** What a look promises: the whole new cursor, but for the match only where it is readable. */
  ghost predicate Looked<T>(c: Fields<T>, log: bytes, ino: int, rotated: bytes, find: Finder<T>, c': Fields<T>) {
    && c' == Refreshed(c, log, ino, rotated, find).(ambr := c'.ambr)
    && (Readable(c, log, ino, rotated) ==> c' == Refreshed(c, log, ino, rotated, find))
  }

  lemma Nothing<T(!new)>(find: Finder<T>)
    requires FindsNewest(find)
    ensures EndsLine([]) && find([]).None?
  {}

  /** Lines that are short in the whole log are short from any line start on. */
  lemma ShortFrom(log: bytes, floor: nat)
    requires ShortLines(log, 0, CHUNK) && floor <= |log| && Boundary(log, 0, floor)
    ensures ShortLines(log, floor, CHUNK)
  {
    forall p | floor <= p < |log| && log[p] == NEWLINE && p + 1 - floor >= CHUNK
      ensures exists k :: p + 1 - CHUNK <= k < p && log[k] == NEWLINE
    {}
  }

  // ---------------------------------------------------------------- a log over time

  /** `older` is every complete line the log had before `rotated`, as far back as the cursor has
      looked; `rotatedSince` says the log was rotated after the last look. */
  datatype World<T> = World(
    older: bytes,
    rotated: bytes,
    log: bytes,
    ino: int,
    rotatedSince: bool,
    cursor: Fields<T>)

  datatype Op = Append(text: bytes) | Rotate(ino: int) | Look

  function Start<T>(rotated: bytes, log: bytes, ino: int): World<T> {
    World([], rotated, log, ino, false, Fields(false, 0, 0, None))
  }

  /** A log is rotated at most once between looks, and the next look can tell: the inode differs or
      the log is shorter than what was read. Lines are shorter than the read window. */
  ghost predicate Enabled<T>(w: World<T>, op: Op) {
    match op
    case Append(_) => true
    case Rotate(_) => !w.cursor.scanned || !w.rotatedSince
    case Look =>
      && (w.cursor.scanned && w.rotatedSince ==> w.ino != w.cursor.ino || |w.log| < w.cursor.readLen)
      && ShortLines(w.log, 0, CHUNK) && ShortLines(w.rotated, 0, CHUNK)
  }

  function Apply<T>(w: World<T>, op: Op, find: Finder<T>): World<T> {
    match op
    case Append(text) => w.(log := w.log + text)
    case Rotate(ino) =>
      w.(older := if w.cursor.scanned then w.older + Complete(w.rotated) else [],
         rotated := w.log, log := [], ino := ino, rotatedSince := true)
    case Look =>
      w.(cursor := Refreshed(w.cursor, w.log, w.ino, w.rotated, find), rotatedSince := false)
  }

  /** All complete lines, oldest first. */
  function AllLines<T>(w: World<T>): bytes {
    w.older + Complete(w.rotated) + Complete(w.log)
  }

  /** What the cursor has read of the log it last looked at is a line start there, and it holds the
      newest match of everything before. */
  ghost predicate Invariant<T(!new)>(w: World<T>, find: Finder<T>) {
    && EndsLine(w.older)
    && (!w.cursor.scanned ==> w.older == [] && w.cursor.ambr == None)
    && (w.cursor.scanned && !w.rotatedSince ==>
          && w.ino == w.cursor.ino
          && w.cursor.readLen <= |w.log| && Boundary(w.log, 0, w.cursor.readLen)
          && w.cursor.ambr == find(w.older + Complete(w.rotated) + w.log[..w.cursor.readLen]))
    && (w.cursor.scanned && w.rotatedSince ==>
          && w.cursor.readLen <= |w.rotated| && Boundary(w.rotated, 0, w.cursor.readLen)
          && w.cursor.ambr == find(w.older + w.rotated[..w.cursor.readLen]))
  }

  lemma CompleteEnds(log: bytes)
    ensures EndsLine(Complete(log))
  {}

  /** Reading on from a line start reaches the same end. */
  lemma CompleteFrom(log: bytes, floor: nat)
    requires floor <= |log| && Boundary(log, 0, floor)
    ensures CompleteEnd(log, floor, |log|) == CompleteEnd(log, 0, |log|)
    ensures EndsLine(log[..floor])
  {}

  lemma EndsJoin(a: bytes, b: bytes)
    requires EndsLine(a) && EndsLine(b)
    ensures EndsLine(a + b)
  {}

  /** The match in the whole log, from what was read before and what was read now. */
  lemma ReadOn<T(!new)>(before: bytes, log: bytes, read: nat, find: Finder<T>)
    requires FindsNewest(find) && EndsLine(before) && read <= |log| && Boundary(log, 0, read)
    ensures var end := CompleteEnd(log, read, |log|);
            && end == CompleteEnd(log, 0, |log|)
            && find(before + Complete(log)) == Or(find(log[read..end]), find(before + log[..read]))
  {
    hide FindsNewest, EndsLine, LastNewline, Boundary;
    CompleteFrom(log, read);
    var end := CompleteEnd(log, read, |log|);
    assert before + Complete(log) == (before + log[..read]) + log[read..end];
    EndsJoin(before, log[..read]);
    Compose(find, before + log[..read], log[read..end]);
  }

  /** If the rotated log has no match, the part of it read before has none either. */
  lemma OlderMatch<T(!new)>(older: bytes, rotated: bytes, read: nat, find: Finder<T>)
    requires FindsNewest(find) && EndsLine(older) && read <= |rotated| && Boundary(rotated, 0, read)
    ensures Or(find(Complete(rotated)), find(older + rotated[..read])) == find(older + Complete(rotated))
  {
    hide FindsNewest, EndsLine, CompleteEnd, Boundary;
    Nothing(find);
    ReadOn([], rotated, read, find);
    assert [] + Complete(rotated) == Complete(rotated) && [] + rotated[..read] == rotated[..read];
    Compose(find, older, Complete(rotated));
    Compose(find, older, rotated[..read]);
  }

  /** Whatever happened before, a look leaves the cursor with the newest match of all complete lines. */
  lemma LookKeeps<T(!new)>(w: World<T>, find: Finder<T>)
    requires FindsNewest(find) && Invariant(w, find) && Enabled(w, Look)
    ensures Invariant(Apply(w, Look, find), find)
    ensures Apply(w, Look, find).cursor.ambr == find(AllLines(w))
  {
    hide FindsNewest, EndsLine, CompleteEnd, Boundary, Complete;
    var c := w.cursor;
    var before := w.older + Complete(w.rotated);
    CompleteEnds(w.rotated);
    EndsJoin(w.older, Complete(w.rotated));
    LookEnd(w.log);
    if c.scanned && !w.rotatedSince {
      ReadOn(before, w.log, c.readLen, find);
    } else {
      Compose(find, before, Complete(w.log));
      if c.scanned {
        OlderMatch(w.older, w.rotated, c.readLen, find);
      } else {
        assert before == Complete(w.rotated);
      }
    }
  }

  lemma LookEnd(log: bytes)
    ensures var end := CompleteEnd(log, 0, |log|); log[..end] == Complete(log) && Boundary(log, 0, end)
  {}

  lemma AppendKeeps<T(!new)>(w: World<T>, text: bytes, find: Finder<T>)
    requires Invariant(w, find)
    ensures Invariant(Apply(w, Append(text), find), find)
  {
    hide EndsLine, CompleteEnd;
    var read := w.cursor.readLen;
    if w.cursor.scanned && !w.rotatedSince {
      assert (w.log + text)[..read] == w.log[..read];
      assert read > 0 ==> (w.log + text)[read - 1] == w.log[read - 1];
    }
  }

  lemma RotateKeeps<T(!new)>(w: World<T>, ino: int, find: Finder<T>)
    requires FindsNewest(find) && Invariant(w, find) && Enabled(w, Rotate(ino))
    ensures Invariant(Apply(w, Rotate(ino), find), find)
  {
    hide FindsNewest, EndsLine, CompleteEnd, Boundary, Complete;
    CompleteEnds(w.rotated);
    EndsJoin(w.older, Complete(w.rotated));
    Nothing(find);
  }

  // ---------------------------------------------------------------- whole runs

  /** A look leaves whatever cursor `Cursor.Refresh` may leave. */
  ghost predicate Next<T>(w: World<T>, op: Op, find: Finder<T>, w': World<T>) {
    && Enabled(w, op)
    && if op.Look? then
         && w' == w.(cursor := w'.cursor, rotatedSince := false)
         && Looked(w.cursor, w.log, w.ino, w.rotated, find, w'.cursor)
       else w' == Apply(w, op, find)
  }

  /** From a cursor that has not looked yet. */
  ghost predicate Run<T>(ws: seq<World<T>>, ops: seq<Op>, find: Finder<T>) {
    && |ws| == |ops| + 1 && ws[0] == Start(ws[0].rotated, ws[0].log, ws[0].ino)
    && forall i | 0 <= i < |ops| :: Next(ws[i], ops[i], find, ws[i + 1])
  }

  /** In every such run a look starts at a line start of the log it was at, as the scan needs. */
  lemma LooksAreReadable<T(!new)>(w: World<T>, find: Finder<T>)
    requires Invariant(w, find) && Enabled(w, Look)
    ensures Readable(w.cursor, w.log, w.ino, w.rotated)
  {
    hide ShortLines, EndsLine, Complete;
  }

  lemma NextKeeps<T(!new)>(w: World<T>, op: Op, find: Finder<T>, w': World<T>)
    requires FindsNewest(find) && Invariant(w, find) && Next(w, op, find, w')
    ensures Invariant(w', find) && w' == Apply(w, op, find)
  {
    hide Invariant, FindsNewest, Readable, ShortLines, Refreshed;
    match op {
      case Append(text) => AppendKeeps(w, text, find);
      case Rotate(ino) => RotateKeeps(w, ino, find);
      case Look =>
        LooksAreReadable(w, find);
        LookKeeps(w, find);
    }
  }

  lemma {:induction false} InvariantHolds<T(!new)>(ws: seq<World<T>>, ops: seq<Op>, find: Finder<T>, i: nat)
    requires FindsNewest(find) && Run(ws, ops, find) && i < |ws|
    ensures Invariant(ws[i], find)
  {
    hide Invariant, FindsNewest, Next;
    if i == 0 {
      StartHolds(ws[0], find);
    } else {
      InvariantHolds(ws, ops, find, i - 1);
      NextKeeps(ws[i - 1], ops[i - 1], find, ws[i]);
    }
  }

  lemma StartHolds<T(!new)>(w: World<T>, find: Finder<T>)
    requires w == Start(w.rotated, w.log, w.ino)
    ensures Invariant(w, find)
  {
    hide FindsNewest;
  }

  /** After any appends, looks and noticed rotations, what the next look leaves and returns is the
      newest match of all complete lines the log has had since it was first looked at, the rotated
      file's included. */
  lemma FollowsTheLog<T(!new)>(ws: seq<World<T>>, ops: seq<Op>, find: Finder<T>, i: nat)
    requires FindsNewest(find) && Run(ws, ops, find) && i < |ops| && ops[i].Look?
    ensures ws[i + 1].cursor.ambr == find(AllLines(ws[i]))
  {
    hide Invariant, FindsNewest, Enabled;
    InvariantHolds(ws, ops, find, i);
    NextKeeps(ws[i], ops[i], find, ws[i + 1]);
    LookKeeps(ws[i], find);
  }
}

/** Bytes and byte strings. */
module Bytes {
  type byte = b: int | 0 <= b < 256

  type bytes = seq<byte>

  /** The part a C string reader sees: everything before the first NUL. */
  function CutNul(b: bytes): (r: bytes)
    ensures 0 !in r && |r| <= |b|
  {
    if b == [] || b[0] == 0 then []
    else
      var rest := CutNul(b[1..]);
      [b[0]] + rest
  }

  lemma {:induction false} CutNulKeeps(b: bytes)
    requires 0 !in b
    ensures CutNul(b) == b
  {
    if b != [] {
      CutNulKeeps(b[1..]);
    }
  }

  /** Byte strings one after another. */
  function Join(parts: seq<bytes>): bytes {
    if parts == [] then [] else Join(parts[..|parts| - 1]) + parts[|parts| - 1]
  }

  lemma {:induction false} JoinAppend(a: seq<bytes>, b: seq<bytes>)
    ensures Join(a + b) == Join(a) + Join(b)
  {
    if b == [] {
      assert a + b == a;
    } else {
      var front := b[..|b| - 1];
      JoinAppend(a, front);
      assert (a + b)[..|a + b| - 1] == a + front;
    }
  }

  lemma JoinOne(b: bytes)
    ensures Join([b]) == b
  {
    assert [b][..0] == [];
  }

  /** `part` is what the text holds from `at`. */
  predicate Holds(t: bytes, at: nat, part: bytes) {
    at + |part| <= |t| && t[at..at + |part|] == part
  }

  lemma HoldsParts(t: bytes, at: nat, a: bytes, b: bytes)
    requires Holds(t, at, a + b)
    ensures Holds(t, at, a) && Holds(t, at + |a|, b)
  {
    assert t[at..at + |a + b|][..|a|] == a;
    assert t[at..at + |a + b|][|a|..] == b;
  }

  lemma HoldsByte(t: bytes, at: nat, part: bytes, k: nat)
    requires Holds(t, at, part) && k < |part|
    ensures at + k < |t| && t[at + k] == part[k]
  {
    assert t[at..at + |part|][k] == part[k];
  }

  lemma HoldsInside(t: bytes, at: nat, part: bytes)
    requires Holds(t, at, part)
    ensures at + |part| <= |t|
  {}
}

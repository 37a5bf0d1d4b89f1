/** Sending one ES10 request to the card as STORE DATA blocks and collecting its answer
    (euicc/src/lib.rs; SGP.22 section 5.7.2). The card's answers are an input: a list of octet
    strings, each ending in SW1 SW2, or failed transmissions; it also bounds how often the card can
    ask for GET RESPONSE. */
module StoreData {
  import opened Wrappers
  import opened Bytes

  /** Largest STORE DATA block. */
  const MSS := 120

  type Answer = Option<bytes>

  datatype Error = Transport | Status(sw1: byte, sw2: byte) | Malformed | Argument

  /** What an exchange gives: the result, the data collected, the commands sent, the answers left. */
  datatype Exchange = Exchange(result: Result<(), Error>, out: bytes, sent: seq<bytes>, rest: seq<Answer>)

  /** The class byte for base 0x80 on a logical channel (ISO 7816-4: the first and the further
      interindustry range). */
  function Class(channel: byte): (r: byte)
    ensures r >= 0x80
  {
    if channel <= 3 then 0x80 + channel else 0xC0 + (channel - 4) % 16
  }

  /** The logical channels there are. */
  const CHANNELS := 20

  /** The channel a class byte 8X to FX addresses when it asks for no chaining and no secure messaging
      (ISO 7816-4, section 5.4.1: bit 7 tells the ranges apart, the low two or four bits number the
      channels of a range). */
  function Addressed(cla: byte): Option<byte> {
    if cla < 0x80 then None
    else if cla / 64 % 2 == 0 then (if cla % 64 / 4 == 0 then Some(cla % 4) else None)
    else if cla % 64 / 16 == 0 then Some(4 + cla % 16)
    else None
  }

  /** The class byte addresses its own channel exactly if there is such a channel. */
  lemma ClassAddresses(channel: byte)
    ensures Addressed(Class(channel)) == Some(channel) <==> channel < CHANNELS
    ensures Addressed(Class(channel)).Some?
  {}

  /** The class byte tells the channels 0 to 19 apart; from 20 on they are mistaken for one of 4 to
      19. */
  lemma ChannelsApart(a: byte, b: byte)
    requires a < b
    ensures Class(a) == Class(b) <==> a >= 4 && (b - a) % 16 == 0
    ensures b <= 19 ==> Class(a) != Class(b)
  {
    if a >= 4 {
      SameRest(a - 4, b - 4);
    }
  }

  lemma SameRest(x: nat, y: nat)
    requires x < y
    ensures x % 16 == y % 16 <==> (y - x) % 16 == 0
  {
    var q, r := x / 16, (y - x) / 16;
    assert y == 16 * (q + r) + x % 16 + (y - x) % 16;
  }

  function GetResponse(cla: byte, length: byte): bytes {
    [cla, 0xC0, 0, 0, length]
  }

  /** Block number `k` of `n`. */
  function Block(cla: byte, k: nat, n: nat, data: bytes): bytes
    requires |data| <= MSS
  {
    [cla, 0xE2, if k == n - 1 then 0x91 else 0x11, (k % 256) as byte, |data| as byte] + data
  }

  /** The longest pieces of at most `MSS` octets. */
  function Chunks(der: bytes): (r: seq<bytes>)
    ensures forall k | 0 <= k < |r| :: 1 <= |r[k]| <= MSS && (k < |r| - 1 ==> |r[k]| == MSS)
    ensures der != [] ==> r != []
    decreases |der|
  {
    if der == [] then []
    else if |der| <= MSS then [der]
    else [der[..MSS]] + Chunks(der[MSS..])
  }

  lemma {:induction false} ChunksJoin(der: bytes)
    ensures Join(Chunks(der)) == der
    decreases |der|
  {
    if der != [] && |der| <= MSS {
      JoinOne(der);
    } else if der != [] {
      ChunksJoin(der[MSS..]);
      JoinAppend([der[..MSS]], Chunks(der[MSS..]));
      JoinOne(der[..MSS]);
    }
  }

  /** What an answer means: a failure, the end, or that so many more octets are waiting. */
  datatype Meaning = Broken(error: Error) | Done | More(length: byte)

  function MeaningOf(answer: Answer): Meaning {
    if answer.None? then Broken(Transport)
    else if |answer.value| < 2 then Broken(Malformed)
    else
      var sw1, sw2 := answer.value[|answer.value| - 2], answer.value[|answer.value| - 1];
      if sw1 == 0x61 then More(sw2) else if sw1 / 16 == 9 then Done else Broken(Status(sw1, sw2))
  }

  /** The data of an answer: everything before the status words. */
  function DataOf(answer: Answer): bytes {
    if answer.Some? && |answer.value| >= 2 then answer.value[..|answer.value| - 2] else []
  }

  /** One command and the GET RESPONSEs its answers ask for. */
  function Collected(cla: byte, apdu: bytes, answers: seq<Answer>): (r: Exchange)
    ensures |r.rest| <= |answers|
    decreases |answers|
  {
    if answers == [] then Exchange(Err(Transport), [], [apdu], [])
    else if MeaningOf(answers[0]).More? then
      Prepend(DataOf(answers[0]), [apdu], Collected(cla, GetResponse(cla, MeaningOf(answers[0]).length), answers[1..]))
    else Exchange(ResultOf(MeaningOf(answers[0])), DataOf(answers[0]), [apdu], answers[1..])
  }

  function ResultOf(m: Meaning): Result<(), Error>
    requires !m.More?
  {
    if m.Done? then Ok(()) else Err(m.error)
  }

  /** An exchange after one that sent and collected something. */
  function Prepend(out: bytes, sent: seq<bytes>, x: Exchange): Exchange {
    x.(out := out + x.out, sent := sent + x.sent)
  }

  /** The answers told apart. */
  lemma Meanings(answer: Answer)
    ensures answer.None? ==> MeaningOf(answer) == Broken(Transport)
    ensures answer.Some? && |answer.value| < 2 ==> MeaningOf(answer) == Broken(Malformed)
    ensures answer.None? || |answer.value| < 2 ==> DataOf(answer) == []
    ensures answer.Some? && |answer.value| >= 2 ==>
              var sw1, sw2 := answer.value[|answer.value| - 2], answer.value[|answer.value| - 1];
              && DataOf(answer) == answer.value[..|answer.value| - 2]
              && MeaningOf(answer)
                 == if sw1 == 0x61 then More(sw2) else if sw1 / 16 == 9 then Done else Broken(Status(sw1, sw2))
    ensures !MeaningOf(answer).More? ==>
              ResultOf(MeaningOf(answer)) == if MeaningOf(answer).Done? then Ok(()) else Err(MeaningOf(answer).error)
  {}

  lemma PrependIs(out: bytes, sent: seq<bytes>, x: Exchange)
    ensures Prepend(out, sent, x) == Exchange(x.result, out + x.out, sent + x.sent, x.rest)
    ensures Prepend([], [], x) == x
  {}

  lemma PrependTwice(a: bytes, b: bytes, s: seq<bytes>, t: seq<bytes>, x: Exchange)
    ensures Prepend(a, s, Prepend(b, t, x)) == Prepend(a + b, s + t, x)
  {
    assert a + (b + x.out) == (a + b) + x.out;
    assert s + (t + x.sent) == (s + t) + x.sent;
  }

  /** Blocks `k` and up, one after another, until one fails. */
  function Commanded(cla: byte, blocks: seq<bytes>, k: nat, answers: seq<Answer>): (r: Exchange)
    requires k <= |blocks| && forall j | 0 <= j < |blocks| :: |blocks[j]| <= MSS
    ensures |r.rest| <= |answers|
    decreases |blocks| - k
  {
    if k == |blocks| then Exchange(Ok(()), [], [], answers)
    else
      var first := Collected(cla, Block(cla, k, |blocks|, blocks[k]), answers);
      if first.result.Err? then first
      else Prepend(first.out, first.sent, Commanded(cla, blocks, k + 1, first.rest))
  }

  function Requested(cla: byte, der: bytes, answers: seq<Answer>): (r: Exchange)
    ensures |r.rest| <= |answers|
  {
    Commanded(cla, Chunks(der), 0, answers)
  }

  lemma CollectedStep(cla: byte, apdu: bytes, answers: seq<Answer>)
    ensures Collected(cla, apdu, answers)
            == if answers == [] then Exchange(Err(Transport), [], [apdu], [])
               else if MeaningOf(answers[0]).More? then
                 Prepend(DataOf(answers[0]), [apdu],
                         Collected(cla, GetResponse(cla, MeaningOf(answers[0]).length), answers[1..]))
               else Exchange(ResultOf(MeaningOf(answers[0])), DataOf(answers[0]), [apdu], answers[1..])
  {}

  class Euicc {
    const channel: byte
    var answers: seq<Answer>
    /** Every command given to the transport so far. */
    ghost var sent: seq<bytes>

    constructor (channel: byte, answers: seq<Answer>)
      ensures this.channel == channel && this.answers == answers && sent == []
    {
      this.channel := channel;
      this.answers := answers;
      sent := [];
    }

    method Transmit(apdu: bytes) returns (rx: Answer)
      modifies this
      ensures sent == old(sent) + [apdu]
      ensures if old(answers) == [] then rx == None && answers == []
              else rx == old(answers)[0] && answers == old(answers)[1..]
    {
      sent := sent + [apdu];
      rx := None;
      if answers != [] {
        rx := answers[0];
        answers := answers[1..];
      }
    }

    /** One command, and as many GET RESPONSEs as its answers call for. */
    method TransmitCollect(first: bytes) returns (result: Result<(), Error>, out: bytes)
      modifies this
      ensures var x := Collected(Class(channel), first, old(answers));
              result == x.result && out == x.out && answers == x.rest && sent == old(sent) + x.sent
    {
      hide *;
      var apdu := first;
      out := [];
      ghost var gone: seq<bytes> := [];
      ghost var want := Collected(Class(channel), first, answers);
      PrependIs([], [], want);
      while true
        invariant sent == old(sent) + gone
        invariant want == Prepend(out, gone, Collected(Class(channel), apdu, answers))
        decreases |answers|
      {
        CollectedStep(Class(channel), apdu, answers);
        PrependIs(out, gone, Collected(Class(channel), apdu, answers));
        var answer := Transmit(apdu);
        Meanings(answer);
        if answer.None? {
          return Err(Transport), out;
        }
        var rx := answer.value;
        if |rx| < 2 {
          return Err(Malformed), out;
        }
        var sw2 := rx[|rx| - 1];
        var sw1 := rx[|rx| - 2];
        ghost var before, was := out, gone;
        out := out + rx[..|rx| - 2];
        gone := gone + [apdu];
        if sw1 == 0x61 {
          var again := GetResponse(Class(channel), sw2);
          PrependTwice(before, rx[..|rx| - 2], was, [apdu], Collected(Class(channel), again, answers));
          apdu := again;
        } else if sw1 / 16 == 9 {
          return Ok(()), out;
        } else {
          return Err(Status(sw1, sw2)), out;
        }
      }
    }

    /** Sends a request as blocks and returns the whole answer. */
    method Command(der: bytes) returns (r: Result<bytes, Error>)
      modifies this
      ensures var x := Requested(Class(channel), der, old(answers));
              && answers == x.rest && sent == old(sent) + x.sent
              && r == if x.result.Ok? then Ok(x.out) else Err(x.result.error)
    {
      hide Chunks, Collected, Class;
      var blocks := Chunks(der);
      var out := [];
      ghost var gone: seq<bytes> := [];
      ghost var want := Commanded(Class(channel), blocks, 0, answers);
      assert want == Prepend([], [], want);
      for k := 0 to |blocks|
        invariant sent == old(sent) + gone
        invariant want == Prepend(out, gone, Commanded(Class(channel), blocks, k, answers))
      {
        ghost var x := Collected(Class(channel), Block(Class(channel), k, |blocks|, blocks[k]), answers);
        var result, data := TransmitCollect(Block(Class(channel), k, |blocks|, blocks[k]));
        if result.Err? {
          return Err(result.error);
        }
        PrependTwice(out, data, gone, x.sent, Commanded(Class(channel), blocks, k + 1, answers));
        out := out + data;
        gone := gone + x.sent;
      }
      assert out + [] == out && gone + [] == gone;
      return Ok(out);
    }
  }

  // ---------------------------------------------------------------- what a card receives

  /** A card that listens on a logical channel, joins STORE DATA blocks until one with P1 = 0x91, and
      takes anything it does not expect as a fault. */
  datatype Card = Card(channel: byte, partial: bytes, blocks: nat, complete: seq<bytes>, confused: bool)

  function Receive(c: Card, apdu: bytes): Card {
    if |apdu| < 5 || Addressed(apdu[0]) != Some(c.channel) then c.(confused := true)
    else if apdu[1] == 0xC0 && |apdu| == 5 && apdu[2] == 0 && apdu[3] == 0 then c
    else if apdu[1] == 0xE2 && apdu[4] == |apdu| - 5 && apdu[4] <= MSS && apdu[3] == c.blocks % 256 then
      if apdu[2] == 0x91 then c.(partial := [], blocks := 0, complete := c.complete + [c.partial + apdu[5..]])
      else if apdu[2] == 0x11 then c.(partial := c.partial + apdu[5..], blocks := c.blocks + 1)
      else c.(confused := true)
    else c.(confused := true)
  }

  function Heard(c: Card, sent: seq<bytes>): Card {
    if sent == [] then c else Receive(Heard(c, sent[..|sent| - 1]), sent[|sent| - 1])
  }

  lemma {:induction false} HeardAppend(c: Card, a: seq<bytes>, b: seq<bytes>)
    ensures Heard(c, a + b) == Heard(Heard(c, a), b)
  {
    if b == [] {
      assert a + b == a;
    } else {
      HeardAppend(c, a, b[..|b| - 1]);
      assert (a + b)[..|a + b| - 1] == a + b[..|b| - 1];
    }
  }

  lemma HeardOne(c: Card, apdu: bytes)
    ensures Heard(c, [apdu]) == Receive(c, apdu)
  {
    assert [apdu][..0] == [];
    assert Heard(c, []) == c;
  }

  lemma ReceiveKeepsChannel(c: Card, apdu: bytes)
    ensures Receive(c, apdu).channel == c.channel
    ensures c.confused ==> Receive(c, apdu).confused
  {}

  /** The card is addressed by this class byte. */
  predicate Hears(c: Card, cla: byte) {
    Addressed(cla) == Some(c.channel)
  }

  /** GET RESPONSE adds nothing to what the card was given. */
  lemma {:induction false} CollectedHeard(c: Card, cla: byte, apdu: bytes, answers: seq<Answer>)
    requires Hears(c, cla)
    ensures Heard(c, Collected(cla, apdu, answers).sent) == Receive(c, apdu)
    decreases |answers|
  {
    hide Receive, MeaningOf, GetResponse;
    HeardOne(c, apdu);
    if answers != [] && MeaningOf(answers[0]).More? {
      var length := MeaningOf(answers[0]).length;
      var again := GetResponse(cla, length);
      var next := Receive(c, apdu);
      ReceiveKeepsChannel(c, apdu);
      CollectedHeard(next, cla, again, answers[1..]);
      HeardAppend(c, [apdu], Collected(cla, again, answers[1..]).sent);
      NothingNew(next, cla, length);
    }
  }

  lemma NothingNew(c: Card, cla: byte, length: byte)
    requires Hears(c, cla)
    ensures Receive(c, GetResponse(cla, length)) == c
  {}

  lemma BlockReceived(c: Card, cla: byte, k: nat, n: nat, data: bytes)
    requires Hears(c, cla) && |data| <= MSS && c.blocks == k
    ensures Receive(c, Block(cla, k, n, data))
            == if k == n - 1 then c.(partial := [], blocks := 0, complete := c.complete + [c.partial + data])
               else c.(partial := c.partial + data, blocks := k + 1)
  {
    assert Block(cla, k, n, data)[5..] == data;
  }

  /** What a card that was given part of `der` may hold: some of its octets, or the whole request. */
  predicate Underway(was: Card, c: Card, der: bytes) {
    && !c.confused && c.channel == was.channel
    && (|| (c.complete == was.complete && c.partial <= der)
        || (c.complete == was.complete + [der] && c.partial == [] && c.blocks == 0))
  }

  lemma {:induction false} BlocksHeard(was: Card, c: Card, cla: byte, blocks: seq<bytes>, k: nat,
                                             answers: seq<Answer>)
    requires Hears(was, cla)
    requires k <= |blocks| && forall j | 0 <= j < |blocks| :: |blocks[j]| <= MSS
    requires !was.confused
    requires k < |blocks| ==> c == was.(partial := Join(blocks[..k]), blocks := k)
    requires k == |blocks| ==> c == was.(partial := [], blocks := 0, complete := was.complete + [Join(blocks)])
    ensures var x := Commanded(cla, blocks, k, answers);
            && Underway(was, Heard(c, x.sent), Join(blocks))
            && (x.result.Ok? ==>
                  Heard(c, x.sent) == was.(partial := [], blocks := 0, complete := was.complete + [Join(blocks)]))
    decreases |blocks| - k
  {
    hide Collected, Receive, Block;
    if k < |blocks| {
      var apdu := Block(cla, k, |blocks|, blocks[k]);
      var first := Collected(cla, apdu, answers);
      var next := Receive(c, apdu);
      CollectedHeard(c, cla, apdu, answers);
      BlockReceived(c, cla, k, |blocks|, blocks[k]);
      JoinStep(blocks, k);
      if first.result.Ok? {
        BlocksHeard(was, next, cla, blocks, k + 1, first.rest);
        HeardAppend(c, first.sent, Commanded(cla, blocks, k + 1, first.rest).sent);
      }
    }
  }

  lemma JoinStep(blocks: seq<bytes>, k: nat)
    requires k < |blocks|
    ensures Join(blocks[..k + 1]) == Join(blocks[..k]) + blocks[k]
    ensures Join(blocks[..k + 1]) <= Join(blocks)
    ensures k + 1 == |blocks| ==> Join(blocks[..k + 1]) == Join(blocks)
  {
    assert blocks[..k + 1][..k] == blocks[..k];
    JoinAppend(blocks[..k + 1], blocks[k + 1..]);
    assert blocks[..k + 1] + blocks[k + 1..] == blocks;
  }

  /** A card between requests, on one of the channels there are. */
  predicate Idle(c: Card) {
    c.channel < CHANNELS && c.partial == [] && c.blocks == 0 && !c.confused
  }

  /** A request that was sent on its channel without error is exactly what an idle card has received,
      in blocks it accepts; one that failed leaves the card with a beginning of it, or with all of it.
      An empty request sends nothing. */
  lemma CardHearsRequest(c: Card, der: bytes, answers: seq<Answer>)
    requires Idle(c)
    ensures var x := Requested(Class(c.channel), der, answers);
            && (der != [] ==> Underway(c, Heard(c, x.sent), der))
            && (der != [] && x.result.Ok? ==> Heard(c, x.sent) == c.(complete := c.complete + [der]))
            && (der == [] ==> x.sent == [] && x.result.Ok? && x.out == [])
  {
    if der != [] {
      ClassAddresses(c.channel);
      ChunksJoin(der);
      assert Chunks(der)[..0] == [];
      BlocksHeard(c, c, Class(c.channel), Chunks(der), 0, answers);
    }
  }

  lemma {:induction false} StaysConfused(c: Card, sent: seq<bytes>)
    requires c.confused
    ensures Heard(c, sent).confused
  {
    if sent != [] {
      StaysConfused(c, sent[..|sent| - 1]);
      ReceiveKeepsChannel(Heard(c, sent[..|sent| - 1]), sent[|sent| - 1]);
    }
  }

  lemma FirstSent(cla: byte, apdu: bytes, answers: seq<Answer>)
    ensures [apdu] <= Collected(cla, apdu, answers).sent
  {}

  /** On a channel number beyond them, the first block already is for another channel. */
  lemma BeyondChannels(c: Card, der: bytes, answers: seq<Answer>)
    requires c.channel >= CHANNELS && der != []
    ensures Heard(c, Requested(Class(c.channel), der, answers).sent).confused
  {
    var cla, blocks := Class(c.channel), Chunks(der);
    var first := Block(cla, 0, |blocks|, blocks[0]);
    var sent := Requested(cla, der, answers).sent;
    ClassAddresses(c.channel);
    FirstSent(cla, first, answers);
    assert sent == [first] + sent[1..];
    HeardOne(c, first);
    HeardAppend(c, [first], sent[1..]);
    StaysConfused(Receive(c, first), sent[1..]);
  }

  // ---------------------------------------------------------------- what the caller receives

  function Data(answers: seq<Answer>): bytes {
    if answers == [] then [] else Data(answers[..|answers| - 1]) + DataOf(answers[|answers| - 1])
  }

  lemma {:induction false} DataAppend(a: seq<Answer>, b: seq<Answer>)
    ensures Data(a + b) == Data(a) + Data(b)
  {
    hide DataOf;
    if b == [] {
      assert a + b == a;
    } else {
      DataAppend(a, b[..|b| - 1]);
      assert (a + b)[..|a + b| - 1] == a + b[..|b| - 1];
    }
  }

  lemma DataOne(answer: Answer)
    ensures Data([answer]) == DataOf(answer)
  {
    assert [answer][..0] == [];
  }

  /** Answers used so far, when `rest` is what is left of them. */
  predicate Left(answers: seq<Answer>, rest: seq<Answer>) {
    |rest| <= |answers| && rest == answers[|answers| - |rest|..]
  }

  function Used(answers: seq<Answer>, rest: seq<Answer>): seq<Answer>
    requires Left(answers, rest)
  {
    answers[..|answers| - |rest|]
  }

  lemma {:induction false} CollectedData(cla: byte, apdu: bytes, answers: seq<Answer>)
    ensures var x := Collected(cla, apdu, answers);
            Left(answers, x.rest) && x.out == Data(Used(answers, x.rest))
    decreases |answers|
  {
    hide Collected, MeaningOf, DataOf, Data, GetResponse;
    CollectedStep(cla, apdu, answers);
    if answers == [] {
      NoData(answers);
    } else {
      var x := Collected(cla, apdu, answers);
      DataOne(answers[0]);
      if MeaningOf(answers[0]).More? {
        CollectedData(cla, GetResponse(cla, MeaningOf(answers[0]).length), answers[1..]);
        DataAppend([answers[0]], Used(answers[1..], x.rest));
        assert Used(answers, x.rest) == [answers[0]] + Used(answers[1..], x.rest);
      } else {
        assert Used(answers, x.rest) == [answers[0]];
      }
    }
  }

  lemma {:induction false} CommandedData(cla: byte, blocks: seq<bytes>, k: nat, answers: seq<Answer>)
    requires k <= |blocks| && forall j | 0 <= j < |blocks| :: |blocks[j]| <= MSS
    ensures var x := Commanded(cla, blocks, k, answers);
            Left(answers, x.rest) && x.out == Data(Used(answers, x.rest))
    decreases |blocks| - k
  {
    hide Collected, Data, Block;
    if k == |blocks| {
      NoData(answers);
    } else {
      var first := Collected(cla, Block(cla, k, |blocks|, blocks[k]), answers);
      CollectedData(cla, Block(cla, k, |blocks|, blocks[k]), answers);
      if first.result.Ok? {
        var x := Commanded(cla, blocks, k, answers);
        CommandedData(cla, blocks, k + 1, first.rest);
        DataAppend(Used(answers, first.rest), Used(first.rest, x.rest));
        assert Used(answers, x.rest) == Used(answers, first.rest) + Used(first.rest, x.rest);
      }
    }
  }

  lemma NoData(answers: seq<Answer>)
    ensures Left(answers, answers) && Data(Used(answers, answers)) == []
  {
    assert answers[0..] == answers;
  }

  /** A card's way of handing over `pieces`: each but the last announces that more is waiting. */
  function Handed(pieces: seq<bytes>, announced: seq<byte>, status: bytes): seq<Answer>
    requires |pieces| == |announced| + 1 && |status| == 2
  {
    if announced == [] then [Some(pieces[0] + status)]
    else [Some(pieces[0] + [0x61, announced[0]])] + Handed(pieces[1..], announced[1..], status)
  }

  /** Data handed over in pieces is collected whole, asking for as much as was announced each time;
      the last status decides, 9XXX being the good ones. */
  lemma {:induction false} HandedOver(cla: byte, apdu: bytes, pieces: seq<bytes>, announced: seq<byte>, status: bytes,
                                      later: seq<Answer>)
    requires |pieces| == |announced| + 1 && |status| == 2 && status[0] != 0x61
    ensures var x := Collected(cla, apdu, Handed(pieces, announced, status) + later);
            && x.result == (if 0x90 <= status[0] <= 0x9F then Ok(()) else Err(Status(status[0], status[1])))
            && x.out == Join(pieces) && x.rest == later
            && |x.sent| == |pieces| && x.sent[0] == apdu
            && forall k | 0 < k < |pieces| :: x.sent[k] == GetResponse(cla, announced[k - 1])
    decreases |announced|
  {
    hide Join;
    var answers := Handed(pieces, announced, status) + later;
    JoinAppend([pieces[0]], pieces[1..]);
    JoinOne(pieces[0]);
    assert pieces == [pieces[0]] + pieces[1..];
    if announced == [] {
      assert answers[0] == Some(pieces[0] + status) && answers[1..] == later;
      assert pieces == [pieces[0]];
    } else {
      assert answers[0] == Some(pieces[0] + [0x61, announced[0]]);
      assert answers[1..] == Handed(pieces[1..], announced[1..], status) + later;
      HandedOver(cla, GetResponse(cla, announced[0]), pieces[1..], announced[1..], status, later);
    }
  }

  /** The answer to a request is the data of all its answers, in order. */
  lemma AnswerIsComplete(cla: byte, der: bytes, answers: seq<Answer>)
    ensures var x := Requested(cla, der, answers);
            Left(answers, x.rest) && x.out == Data(Used(answers, x.rest))
  {
    CommandedData(cla, Chunks(der), 0, answers);
  }
}

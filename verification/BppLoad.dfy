/** Loading a Bound Profile Package: what the card is given and how its answers are read
    (euicc/src/download.rs; SGP.22 sections 2.5.5, 2.5.6 and 5.7.6). */
module BppLoad {
  import opened Wrappers
  import opened Bytes
  import opened Der
  import opened StoreData
  import opened Bpp
  import Base64
  import Hex

  const UNDEFINED: byte := 0xFF

  /** The error fields are there exactly when the card reported an error. */
  datatype LoadResult = LoadResult(
    seqNumber: nat,
    iccid: Option<bytes>,
    commandId: Option<byte>,
    reason: Option<byte>)
  {
    predicate Success() {
      commandId.None? && reason.None?
    }
  }

  const NOTHING := LoadResult(0, None, None, None)

  function KnownCommandId(v: nat): byte {
    if v <= 5 then v else UNDEFINED
  }

  function KnownReason(v: nat): byte {
    if 1 <= v <= 15 || v == 127 then v else UNDEFINED
  }

  /** The command numbers and error reasons of SGP.22's BppCommandId and ErrorReason. */
  const COMMAND_IDS: set<nat> := {0, 1, 2, 3, 4, 5}
  const REASONS: set<nat> := {1, 2, 3, 4, 5, 6, 7, 8, 9, 10, 11, 12, 13, 14, 15, 127}

  lemma KnownNumbers(commandId: nat, reason: nat)
    ensures KnownCommandId(commandId) == if commandId in COMMAND_IDS then commandId else UNDEFINED
    ensures KnownReason(reason) == if reason in REASONS then reason else UNDEFINED
  {}

  /** The number in the last element with a tag. */
  function LastNumber(elements: seq<Tlv>, t: tag): Option<nat> {
    if elements == [] then None
    else if elements[|elements| - 1].tag == t then Some(ToU64(elements[|elements| - 1].value))
    else LastNumber(elements[..|elements| - 1], t)
  }

  /** What the outcome of an installation says: nothing for SuccessResult, else the reported numbers,
      undefined ones where it gives none that is known. */
  function CommandIdOf(outcome: Tlv): Option<byte> {
    if outcome.tag == 0xA0 then None
    else
      var given := if outcome.tag == 0xA1 then LastNumber(Elements(outcome.value), 0x80) else None;
      if given.None? then Some(UNDEFINED) else Some(KnownCommandId(given.value))
  }

  function ReasonOf(outcome: Tlv): Option<byte> {
    if outcome.tag == 0xA0 then None
    else
      var given := if outcome.tag == 0xA1 then LastNumber(Elements(outcome.value), 0x81) else None;
      if given.None? then Some(UNDEFINED) else Some(KnownReason(given.value))
  }

  /** NotificationMetadata and the outcome inside finalResult. */
  function Installation(resp: bytes): Option<(Tlv, Tlv)> {
    var installation := Find(resp, 0xBF37);
    if installation.None? then None
    else
      var data := Find(installation.value.value, 0xBF27);
      if data.None? then None
      else
        var metadata, final := Find(data.value.value, 0xBF2F), Find(data.value.value, 0xA2);
        if metadata.None? || final.None? || Parse(final.value.value).None? then None
        else Some((metadata.value, Parse(final.value.value).value))
  }

  /** The card's answer to one request. */
  function Answered(resp: bytes): Result<LoadResult, StoreData.Error> {
    if resp == [] then Ok(NOTHING)
    else
      var found := Installation(resp);
      if found.None? then Err(Malformed)
      else
        var (metadata, outcome) := found.value;
        var number, iccid := Find(metadata.value, 0x80), Find(metadata.value, 0x5A);
        Ok(LoadResult(
             if number.Some? then ToU64(number.value.value) else 0,
             if iccid.Some? then Some(Hex.BcdToIccid(iccid.value.value)) else None,
             CommandIdOf(outcome),
             ReasonOf(outcome)))
  }

  method ParseAnswer(resp: bytes) returns (r: Result<LoadResult, StoreData.Error>)
    ensures r == Answered(resp)
  {
    hide Find, Elements, Parse, ToU64;
    if resp == [] {
      return Ok(NOTHING);
    }
    var installation := Find(resp, 0xBF37);
    if installation.None? {
      return Err(Malformed);
    }
    var data := Find(installation.value.value, 0xBF27);
    if data.None? {
      return Err(Malformed);
    }
    var metadata := Find(data.value.value, 0xBF2F);
    if metadata.None? {
      return Err(Malformed);
    }
    var final := Find(data.value.value, 0xA2);
    if final.None? {
      return Err(Malformed);
    }
    var outcome := ParseElement(final.value.value);
    if outcome.None? {
      return Err(Malformed);
    }
    var result := NOTHING;
    var number := Find(metadata.value.value, 0x80);
    if number.Some? {
      result := result.(seqNumber := ToU64(number.value.value));
    }
    var iccid := Find(metadata.value.value, 0x5A);
    if iccid.Some? {
      var text := Hex.BcdText(iccid.value.value);
      result := result.(iccid := Some(text));
    }
    var commandId, reason := ReadOutcome(outcome.value);
    return Ok(result.(commandId := commandId, reason := reason));
  }

  /** The last of several numbers wins. */
  method ReadOutcome(outcome: Tlv) returns (commandId: Option<byte>, reason: Option<byte>)
    ensures commandId == CommandIdOf(outcome) && reason == ReasonOf(outcome)
  {
    hide Elements, Parse, ToU64;
    if outcome.tag == 0xA0 {
      return None, None;
    }
    commandId, reason := Some(UNDEFINED), Some(UNDEFINED);
    if outcome.tag == 0xA1 {
      var elements := new Iter(outcome.value);
      ghost var seen: seq<Tlv> := [];
      while true
        invariant fresh(elements)
        invariant Elements(outcome.value) == seen + Elements(elements.rest)
        invariant commandId == (var given := LastNumber(seen, 0x80);
                                if given.None? then Some(UNDEFINED) else Some(KnownCommandId(given.value)))
        invariant reason == (var given := LastNumber(seen, 0x81);
                             if given.None? then Some(UNDEFINED) else Some(KnownReason(given.value)))
        decreases |elements.rest|
      {
        ghost var before := elements.rest;
        var next := elements.Next();
        if next.None? {
          assert seen + [] == seen;
          return;
        }
        if next.value.tag == 0x80 {
          commandId := Some(KnownCommandId(ToU64(next.value.value)));
        } else if next.value.tag == 0x81 {
          reason := Some(KnownReason(ToU64(next.value.value)));
        }
        assert seen + Elements(before) == (seen + [next.value]) + Elements(elements.rest);
        assert (seen + [next.value])[..|seen|] == seen;
        seen := seen + [next.value];
      }
    }
  }

  /** An answer means success exactly when it is empty or carries a SuccessResult; an error always
      has both numbers, known ones or the undefined one. */
  lemma AnswerMeaning(resp: bytes)
    ensures Answered(resp).Ok? <==> resp == [] || Installation(resp).Some?
    ensures Answered(resp).Ok? ==>
              var r := Answered(resp).value;
              && (r.Success() <==> resp == [] || Installation(resp).value.1.tag == 0xA0)
              && (r.commandId.Some? <==> r.reason.Some?)
              && (resp != [] && Find(Installation(resp).value.0.value, 0x80).None? ==> r.seqNumber == 0)
              && (r.iccid.Some? <==> resp != [] && Find(Installation(resp).value.0.value, 0x5A).Some?)
              && (r.commandId.Some? ==> r.commandId.value <= 5 || r.commandId.value == UNDEFINED)
              && (r.reason.Some? ==> 1 <= r.reason.value <= 15 || r.reason.value == 127 || r.reason.value == UNDEFINED)
  {
    hide Find, Elements, ToU64, Parse, LastNumber;
  }

  // ---------------------------------------------------------------- an installation result read back

  /** The first element with a tag among encoded ones. */
  lemma FindAmong(nodes: seq<Node>, k: nat)
    requires forall j | 0 <= j < |nodes| :: Fits(nodes[j])
    requires k < |nodes| && forall j | 0 <= j < k :: nodes[j].tag != nodes[k].tag
    ensures Find(EncodeAll(nodes), nodes[k].tag) == Some(AsTlv(nodes[k]))
  {
    hide Fits, Contents, Encode, Find, Parse;
    ElementsEncoded(nodes, []);
    assert EncodeAll(nodes) + [] == EncodeAll(nodes);
    ElementsOfNothing();
    assert forall j | 0 <= j < |nodes| :: Elements(EncodeAll(nodes))[j] == AsTlv(nodes[j]);
    FoundAt(EncodeAll(nodes), nodes[k].tag, k);
  }

  lemma NotAmong(nodes: seq<Node>, t: tag)
    requires forall j | 0 <= j < |nodes| :: Fits(nodes[j]) && nodes[j].tag != t
    ensures Find(EncodeAll(nodes), t).None?
  {
    hide Fits, Contents, Encode, Find, Parse;
    ElementsEncoded(nodes, []);
    assert EncodeAll(nodes) + [] == EncodeAll(nodes);
    ElementsOfNothing();
    assert forall j | 0 <= j < |nodes| :: Elements(EncodeAll(nodes))[j] == AsTlv(nodes[j]);
    NotFound(EncodeAll(nodes), t);
  }

  /** NotificationMetadata with a sequence number, and whatever other elements. */
  function Metadata(number: nat, iccid: Option<bytes>, others: seq<Node>): Node
    requires number < 0x1_0000_0000_0000_0000
  {
    Cons(0xBF2F, [Prim(0x80, FromU64(number))] + others + (if iccid.Some? then [Prim(0x5A, iccid.value)] else []))
  }

  function InstallationResult(transaction: Node, metadata: Node, oid: Node, outcome: Node, signature: Node): Node {
    Cons(0xBF37, [Cons(0xBF27, [transaction, metadata, oid, Cons(0xA2, [outcome])]), signature])
  }

  function ErrorResult(commandId: nat, reason: nat, others: seq<Node>): Node
    requires commandId < 0x100 && reason < 0x100
  {
    Cons(0xA1, [Prim(0x80, FromU64(commandId)), Prim(0x81, FromU64(reason))] + others)
  }

  lemma FitsInside(n: Node, k: nat)
    requires Fits(n) && n.Cons? && k < |n.children|
    ensures Fits(n.children[k])
  {}

  /** The structure SGP.22 gives an installation result is found whatever its other elements hold. */
  lemma InstallationFound(transaction: Node, metadata: Node, oid: Node, outcome: Node, signature: Node)
    requires Fits(InstallationResult(transaction, metadata, oid, outcome, signature))
    requires transaction.tag == 0x80 && metadata.tag == 0xBF2F && oid.tag == 0x06
    ensures Installation(Encode(InstallationResult(transaction, metadata, oid, outcome, signature)))
            == Some((AsTlv(metadata), AsTlv(outcome)))
  {
    hide Contents, Encode, Find, Parse, Fits;
    var all := InstallationResult(transaction, metadata, oid, outcome, signature);
    var data := all.children[0];
    var final := data.children[3];
    assert all.children == [data, signature];
    assert data.children == [transaction, metadata, oid, final];
    forall j | 0 <= j < 2
      ensures Fits(all.children[j])
    {
      FitsInside(all, j);
    }
    forall j | 0 <= j < 4
      ensures Fits(data.children[j])
    {
      FitsInside(data, j);
    }
    FitsInside(final, 0);
    FindOnly(all);
    FindAmong(all.children, 0);
    FindAmong(data.children, 1);
    FindAmong(data.children, 3);
    ContentsOf(all);
    ContentsOf(data);
    ContentsOf(final);
    ParseOnly(outcome);
  }

  lemma ContentsOf(n: Node)
    requires n.Cons?
    ensures Contents(n) == EncodeAll(n.children)
  {}

  lemma FindOnly(n: Node)
    requires Fits(n)
    ensures Find(Encode(n), n.tag) == Some(AsTlv(n))
  {
    hide Contents, Encode, Find, Parse, Fits;
    FindAmong([n], 0);
    assert [n][..0] == [];
    assert EncodeAll([n]) == Encode(n);
  }

  lemma ParseOnly(n: Node)
    requires Fits(n)
    ensures Parse(EncodeAll([n])) == Some(AsTlv(n))
  {
    hide Encode, Parse, Contents;
    ParseEncoded(n, []);
    assert [n][..0] == [];
    assert EncodeAll([n]) == Encode(n) && Encode(n) + [] == Encode(n);
  }

  lemma MetadataRead(number: nat, iccid: Option<bytes>, others: seq<Node>)
    requires number < 0x1_0000_0000_0000_0000 && Fits(Metadata(number, iccid, others))
    requires forall k | 0 <= k < |others| :: others[k].tag != 0x5A
    ensures var inside := EncodeAll(Metadata(number, iccid, others).children);
            && Find(inside, 0x80).Some? && ToU64(Find(inside, 0x80).value.value) == number
            && (iccid.Some? <==> Find(inside, 0x5A).Some?)
            && (iccid.Some? ==> Find(inside, 0x5A).value.value == iccid.value)
  {
    hide Encode, Find, Parse, Fits, FromU64, ToU64;
    var m := Metadata(number, iccid, others);
    forall j | 0 <= j < |m.children|
      ensures Fits(m.children[j])
    {
      FitsInside(m, j);
    }
    FindAmong(m.children, 0);
    U64RoundTrip(number);
    if iccid.Some? {
      FindAmong(m.children, |m.children| - 1);
    } else {
      NotAmong(m.children, 0x5A);
    }
  }

  /** A result the card encodes is read as it was meant: its sequence number and ICCID, and success
      or the numbers of the error, known ones as they are. */
  lemma ResultReadBack(transaction: Node, number: nat, iccid: Option<bytes>, others: seq<Node>, oid: Node,
                       outcome: Node, signature: Node)
    requires number < 0x1_0000_0000_0000_0000
    requires forall k | 0 <= k < |others| :: others[k].tag != 0x5A
    requires transaction.tag == 0x80 && oid.tag == 0x06
    requires Fits(InstallationResult(transaction, Metadata(number, iccid, others), oid, outcome, signature))
    ensures Answered(Encode(InstallationResult(transaction, Metadata(number, iccid, others), oid, outcome, signature)))
            == Ok(LoadResult(number, if iccid.Some? then Some(Hex.BcdToIccid(iccid.value)) else None,
                             CommandIdOf(AsTlv(outcome)), ReasonOf(AsTlv(outcome))))
  {
    hide Encode, Find, Parse, Fits, FromU64, ToU64, Contents, Installation, CommandIdOf, ReasonOf;
    var metadata := Metadata(number, iccid, others);
    InstallationFound(transaction, metadata, oid, outcome, signature);
    var all := InstallationResult(transaction, metadata, oid, outcome, signature);
    FitsInside(all, 0);
    FitsInside(all.children[0], 1);
    ContentsOf(metadata);
    MetadataRead(number, iccid, others);
  }

  lemma {:induction false} LastNumberSkips(elements: seq<Tlv>, more: seq<Tlv>, t: tag)
    requires forall k | 0 <= k < |more| :: more[k].tag != t
    ensures LastNumber(elements + more, t) == LastNumber(elements, t)
  {
    hide ToU64;
    if more == [] {
      assert elements + more == elements;
    } else {
      var front := more[..|more| - 1];
      LastNumberSkips(elements, front, t);
      assert (elements + more)[..|elements + more| - 1] == elements + front;
    }
  }

  lemma LastOfTwo(a: Tlv, b: Tlv)
    requires a.tag == 0x80 && b.tag == 0x81
    ensures LastNumber([a, b], 0x80) == Some(ToU64(a.value)) && LastNumber([a, b], 0x81) == Some(ToU64(b.value))
  {
    hide ToU64;
    assert [a, b][..1] == [a];
  }

  lemma ErrorElements(commandId: nat, reason: nat, others: seq<Node>)
    requires commandId < 0x100 && reason < 0x100 && Fits(ErrorResult(commandId, reason, others))
    ensures Elements(Contents(ErrorResult(commandId, reason, others)))
            == [AsTlv(Prim(0x80, FromU64(commandId))), AsTlv(Prim(0x81, FromU64(reason)))] + AsTlvs(others)
  {
    hide Encode, Elements, FromU64, Fits;
    var failed := ErrorResult(commandId, reason, others);
    ChildrenWhole(failed);
    assert failed.children == [Prim(0x80, FromU64(commandId)), Prim(0x81, FromU64(reason))] + others;
    assert AsTlvs(failed.children)
        == [AsTlv(Prim(0x80, FromU64(commandId))), AsTlv(Prim(0x81, FromU64(reason)))] + AsTlvs(others);
  }

  /** The outcomes: success has no numbers, and an error its own, whatever else it holds. */
  lemma OutcomeReadBack(children: seq<Node>, commandId: nat, reason: nat, others: seq<Node>)
    requires commandId < 0x100 && reason < 0x100
    requires forall k | 0 <= k < |others| :: others[k].tag != 0x80 && others[k].tag != 0x81
    requires Fits(Cons(0xA0, children)) && Fits(ErrorResult(commandId, reason, others))
    ensures CommandIdOf(AsTlv(Cons(0xA0, children))).None? && ReasonOf(AsTlv(Cons(0xA0, children))).None?
    ensures var failed := AsTlv(ErrorResult(commandId, reason, others));
            && CommandIdOf(failed) == Some(if commandId in COMMAND_IDS then commandId else UNDEFINED)
            && ReasonOf(failed) == Some(if reason in REASONS then reason else UNDEFINED)
  {
    KnownNumbers(commandId, reason);
    hide Encode, FromU64, ToU64, Elements, Fits, LastNumber, KnownCommandId, KnownReason;
    ErrorElements(commandId, reason, others);
    var a, b := AsTlv(Prim(0x80, FromU64(commandId))), AsTlv(Prim(0x81, FromU64(reason)));
    LastNumberSkips([a, b], AsTlvs(others), 0x80);
    LastNumberSkips([a, b], AsTlvs(others), 0x81);
    LastOfTwo(a, b);
    U64RoundTrip(commandId);
    U64RoundTrip(reason);
  }

  // ---------------------------------------------------------------- loading

  datatype Load = Load(result: Result<LoadResult, StoreData.Error>, sent: seq<bytes>, rest: seq<Answer>)

  /** One item of the plan: sent, and its answer read. */
  function SentItem(cla: byte, item: Item, answers: seq<Answer>): Load {
    if item.Err? then Load(Err(item.error), [], answers)
    else
      var x := Requested(cla, item.value, answers);
      Load(if x.result.Err? then Err(x.result.error) else Answered(x.out), x.sent, x.rest)
  }

  /** Requests `k` and up of a plan, until one fails or is answered with an error. */
  function Loaded(cla: byte, plan: seq<Item>, k: nat, last: LoadResult, answers: seq<Answer>): Load
    requires k <= |plan|
    decreases |plan| - k
  {
    if k == |plan| then Load(Ok(last), [], answers)
    else
      var one := SentItem(cla, plan[k], answers);
      if one.result.Err? || !one.result.value.Success() then one
      else Following(one.sent, Loaded(cla, plan, k + 1, one.result.value, one.rest))
  }

  function Following(sent: seq<bytes>, more: Load): Load {
    more.(sent := sent + more.sent)
  }

  lemma FollowingTwice(a: seq<bytes>, b: seq<bytes>, more: Load)
    ensures Following(a, Following(b, more)) == Following(a + b, more)
  {
    assert a + (b + more.sent) == (a + b) + more.sent;
  }

  function LoadedPackage(cla: byte, bpp: bytes, answers: seq<Answer>): Load {
    var plan := Plan(bpp);
    if plan.Err? then Load(Err(plan.error), [], answers) else Loaded(cla, plan.value, 0, NOTHING, answers)
  }

  /** Sends one request and reads its answer. */
  method SendItem(card: Euicc, item: Item) returns (r: Result<LoadResult, StoreData.Error>)
    modifies card
    ensures var one := SentItem(Class(card.channel), item, old(card.answers));
            r == one.result && card.answers == one.rest && card.sent == old(card.sent) + one.sent
  {
    hide Class, Requested, Answered;
    if item.Err? {
      assert card.sent + [] == card.sent;
      return Err(item.error);
    }
    var resp := card.Command(item.value);
    if resp.Err? {
      return Err(resp.error);
    }
    r := ParseAnswer(resp.value);
  }

  /** Sends the package, given as base64 text, request by request. */
  method LoadBoundProfilePackage(card: Euicc, text: bytes) returns (r: Result<LoadResult, StoreData.Error>)
    modifies card
    ensures var x := LoadedPackage(Class(card.channel), Base64.Decode(text), old(card.answers));
            r == x.result && card.answers == x.rest && card.sent == old(card.sent) + x.sent
  {
    hide *;
    var bpp := Base64.DecodeText(text);
    var planned := MakePlan(bpp);
    ghost var cla := Class(card.channel);
    PackageLoad(cla, bpp, card.answers);
    if planned.Err? {
      assert card.sent + [] == card.sent;
      return Err(planned.error);
    }
    r := SendPlan(card, planned.value);
  }

  lemma PackageLoad(cla: byte, bpp: bytes, answers: seq<Answer>)
    ensures LoadedPackage(cla, bpp, answers)
            == if Plan(bpp).Err? then Load(Err(Plan(bpp).error), [], answers)
               else Loaded(cla, Plan(bpp).value, 0, NOTHING, answers)
  {}

  /** Sends the requests of a plan until one fails or is answered with an error. */
  method SendPlan(card: Euicc, plan: seq<Item>) returns (r: Result<LoadResult, StoreData.Error>)
    modifies card
    ensures var x := Loaded(Class(card.channel), plan, 0, NOTHING, old(card.answers));
            r == x.result && card.answers == x.rest && card.sent == old(card.sent) + x.sent
  {
    hide *;
    var result := NOTHING;
    ghost var cla := Class(card.channel);
    ghost var gone: seq<bytes> := [];
    ghost var want := Loaded(cla, plan, 0, NOTHING, card.answers);
    FollowingNothing(want);
    for k := 0 to |plan|
      invariant card.sent == old(card.sent) + gone
      invariant want == Following(gone, Loaded(cla, plan, k, result, card.answers))
    {
      ghost var one := SentItem(cla, plan[k], card.answers);
      LoadedStep(cla, plan, k, result, card.answers);
      r := SendItem(card, plan[k]);
      assert old(card.sent) + gone + one.sent == old(card.sent) + (gone + one.sent);
      if r.Err? || !r.value.Success() {
        FollowingIs(gone, one);
        return;
      }
      result := r.value;
      FollowingTwice(gone, one.sent, Loaded(cla, plan, k + 1, result, card.answers));
      gone := gone + one.sent;
    }
    LoadedAll(cla, plan, result, card.answers);
    FollowingIs(gone, Load(Ok(result), [], card.answers));
    assert gone + [] == gone;
    return Ok(result);
  }

  lemma FollowingNothing(x: Load)
    ensures Following([], x) == x
  {}

  lemma FollowingIs(gone: seq<bytes>, x: Load)
    ensures Following(gone, x) == Load(x.result, gone + x.sent, x.rest)
  {}

  lemma LoadedStep(cla: byte, plan: seq<Item>, k: nat, last: LoadResult, answers: seq<Answer>)
    requires k < |plan|
    ensures var one := SentItem(cla, plan[k], answers);
            Loaded(cla, plan, k, last, answers)
            == if one.result.Err? || !one.result.value.Success() then one
               else Following(one.sent, Loaded(cla, plan, k + 1, one.result.value, one.rest))
  {
    hide SentItem;
  }

  lemma LoadedAll(cla: byte, plan: seq<Item>, last: LoadResult, answers: seq<Answer>)
    ensures Loaded(cla, plan, |plan|, last, answers) == Load(Ok(last), [], answers)
  {}

  /** The requests the card was given in full: those numbered `k` to `n` of the plan, and of the one
      after perhaps a beginning or all of it, if the load failed there. */
  ghost predicate Delivered(was: Card, plan: seq<Item>, k: nat, n: nat, result: Result<LoadResult, StoreData.Error>,
                            c: Card)
  {
    && k <= n <= |plan| && (forall j | k <= j < n :: plan[j].Ok?)
    && var idle := was.(complete := was.complete + Values(plan[k..n]));
       (|| c == idle
        || (result.Err? && n < |plan| && plan[n].Ok? && Underway(idle, c, plan[n].value)))
  }

  lemma NothingDelivered(was: Card, plan: seq<Item>, k: nat, result: Result<LoadResult, StoreData.Error>, c: Card)
    requires k <= |plan|
    requires c == was || (result.Err? && k < |plan| && plan[k].Ok? && Underway(was, c, plan[k].value))
    ensures Delivered(was, plan, k, k, result, c)
  {
    assert was.complete + Values(plan[k..k]) == was.complete;
  }

  function Given(was: Card, item: Item): Card
    requires item.Ok?
  {
    was.(complete := was.complete + [item.value])
  }

  lemma DeliveredAfter(was: Card, plan: seq<Item>, k: nat, n: nat, result: Result<LoadResult, StoreData.Error>, c: Card)
    requires k < |plan| && plan[k].Ok? && Delivered(Given(was, plan[k]), plan, k + 1, n, result, c)
    ensures Delivered(was, plan, k, n, result, c)
  {
    hide Underway;
    assert Values(plan[k..n]) == [plan[k].value] + Values(plan[k + 1..n]);
    assert was.complete + Values(plan[k..n]) == Given(was, plan[k]).complete + Values(plan[k + 1..n]);
  }

  /** A card that is between requests gets requests of the plan in order, each whole before the next.
      Success means it got every one and the plan has no failure; a reported error means the last
      one it got was answered with it. */
  lemma {:induction false} LoadHeard(c: Card, plan: seq<Item>, k: nat, last: LoadResult, answers: seq<Answer>)
    returns (n: nat)
    requires k <= |plan| && Idle(c) && last.Success()
    requires forall j | 0 <= j < |plan| && plan[j].Ok? :: plan[j].value != []
    ensures var x := Loaded(Class(c.channel), plan, k, last, answers);
            && Delivered(c, plan, k, n, x.result, Heard(c, x.sent))
            && (x.result.Ok? && x.result.value.Success() ==> n == |plan|)
            && (x.result.Ok? && !x.result.value.Success() ==> n > k)
    decreases |plan| - k
  {
    hide Requested, Answered, Underway, Delivered, Values, Heard;
    var load := Loaded(Class(c.channel), plan, k, last, answers);
    n := k;
    if k < |plan| && plan[k].Ok? {
      var x := Requested(Class(c.channel), plan[k].value, answers);
      CardHearsRequest(c, plan[k].value, answers);
      if x.result.Err? {
        NothingDelivered(c, plan, k, load.result, Heard(c, x.sent));
      } else {
        var next := Given(c, plan[k]);
        var r := Answered(x.out);
        if r.Ok? && r.value.Success() {
          n := LoadHeard(next, plan, k + 1, r.value, x.rest);
          HeardAppend(c, x.sent, Loaded(Class(c.channel), plan, k + 1, r.value, x.rest).sent);
        } else {
          n := k + 1;
          NothingDelivered(next, plan, k + 1, load.result, next);
        }
        DeliveredAfter(c, plan, k, n, load.result, Heard(c, load.sent));
      }
    } else {
      NothingHeard(c);
      NothingDelivered(c, plan, k, load.result, c);
    }
  }

  lemma NothingHeard(c: Card)
    ensures Heard(c, []) == c
  {}

  lemma PlanNotEmpty(bpp: bytes)
    requires Plan(bpp).Ok?
    ensures forall j | 0 <= j < |Plan(bpp).value| && Plan(bpp).value[j].Ok? :: Plan(bpp).value[j].value != []
  {
    hide Plan, Missing, Find;
    PlanShape(bpp);
    var plan := Plan(bpp).value;
    assert forall j | 0 <= j < |plan| - 1 :: plan[j] == plan[..|plan| - 1][j];
  }

  /** All the octets of requests a card has received since `was`. */
  function Received(was: Card, c: Card): bytes
    requires |was.complete| <= |c.complete|
  {
    Join(c.complete[|was.complete|..]) + c.partial
  }

  /** What a card holds of a package, after any load of any package text: a beginning of its requests,
      and all of them if the load succeeded. */
  lemma PackageReceived(c: Card, bpp: bytes, answers: seq<Answer>)
    requires Idle(c) && Plan(bpp).Ok?
    ensures var x := LoadedPackage(Class(c.channel), bpp, answers);
            var after := Heard(c, x.sent);
            && !after.confused && c.complete <= after.complete
            && Received(c, after) <= Join(Values(Plan(bpp).value))
            && (x.result.Ok? && x.result.value.Success() ==> after.complete == c.complete + Values(Plan(bpp).value))
  {
    hide Loaded, Heard, Plan, Join, Values;
    var plan := Plan(bpp).value;
    PlanNotEmpty(bpp);
    var n := LoadHeard(c, plan, 0, NOTHING, answers);
    var x := LoadedPackage(Class(c.channel), bpp, answers);
    var after := Heard(c, x.sent);
    ValuesPrefix(plan, n);
    assert plan[0..n] == plan[..n];
    var got := Values(plan[..n]);
    if after == c.(complete := c.complete + got) {
      assert after.complete[|c.complete|..] == got;
      assert Received(c, after) == Join(got);
    } else if after.complete == c.complete + got + [plan[n].value] {
      assert after.complete[|c.complete|..] == got + [plan[n].value];
      JoinAppend(got, [plan[n].value]);
      JoinOne(plan[n].value);
      assert Received(c, after) == Join(got) + plan[n].value;
    } else {
      assert after.complete[|c.complete|..] == got;
      assert Received(c, after) == Join(got) + after.partial;
    }
    assert plan[..|plan|] == plan;
  }

  lemma ValuesPrefix(plan: seq<Item>, n: nat)
    requires n <= |plan|
    ensures Join(Values(plan[..n])) <= Join(Values(plan))
    ensures n < |plan| && plan[n].Ok? ==> Join(Values(plan[..n])) + plan[n].value <= Join(Values(plan))
  {
    hide Join, Values;
    assert plan == plan[..n] + plan[n..];
    ValuesAppend(plan[..n], plan[n..]);
    if n < |plan| && plan[n].Ok? {
      assert plan[n..] == [Ok(plan[n].value)] + plan[n + 1..];
      ValuesAppend([Ok(plan[n].value)], plan[n + 1..]);
      ValuesOne(plan[n].value);
    }
  }

  /** A complete package, sent as base64 text, reaches the card byte for byte when loading succeeds;
      a load that stops leaves the card with a beginning of it. */
  lemma PackageDelivered(c: Card, bpp: bytes, after: bytes, p: Parts, answers: seq<Answer>)
    requires Idle(c)
    requires |bpp| % 3 != 0 || after == [] || Base64.Sextet(after[0]).None?
    requires var package := Find(bpp, BOUND_PROFILE_PACKAGE);
             package.Some? && Ordered(package.value.value, p) && WellFormed(package.value.value, p)
    ensures var x := LoadedPackage(Class(c.channel), Base64.Decode(Base64.Encode(bpp) + after), answers);
            var package := Find(bpp, BOUND_PROFILE_PACKAGE).value.raw;
            var heard := Heard(c, x.sent);
            && !heard.confused && c.complete <= heard.complete
            && Received(c, heard) <= package
            && (x.result.Ok? && x.result.value.Success() ==> Received(c, heard) == package)
  {
    hide LoadedPackage, Heard, Plan, Join, Values, Ordered, WellFormed, Find, Base64.Encode, Base64.Decode, Received;
    Base64.DecodeEncode(bpp, after);
    SegmentsAreThePackage(bpp, p);
    PackageReceived(c, bpp, answers);
    var x := LoadedPackage(Class(c.channel), bpp, answers);
    if x.result.Ok? && x.result.value.Success() {
      AllReceived(c, Heard(c, x.sent), Values(Plan(bpp).value));
    }
  }

  lemma AllReceived(c: Card, after: Card, values: seq<bytes>)
    requires after.complete == c.complete + values
    ensures |after.complete| >= |c.complete| && Received(c, after) == Join(values) + after.partial
  {
    assert after.complete[|c.complete|..] == values;
  }
}

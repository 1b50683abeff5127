/** The durable record of what was admitted, what waits, and which sends were stopped for good. */
module Ledger {
  import opened Common
  import opened Texts
  import opened Groups
  import opened Access
  import opened Spellings
  import J = Json

  const AcceptedLimit := 4096
  const HeldLimit := 128
  const HeldByteLimit := 16 * 1024 * 1024
  const BundleBytes := 6 * 1024 * 1024
  const StopLimit := 256
  const StopByteLimit := 128 * 1024
  const MaxSafe := 9007199254740991

  // Stops

  datatype Reason = LeftGroup | GroupClosed | GroupForked | EpochChanged | CardChanged | NotAnAuthor

  datatype Stop = Stop(operation: Text, id: Address, group: Address, epochId: Address, reason: Reason, observed: nat)

  datatype Entry = Entry(operation: Text, id: Address, group: Address, epochId: Address)

  /** What the group's chain says about sending again. */
  datatype Retry = Allowed | Unavailable | Terminal(reason: Reason)

  function RetryDecision(me: Card, chain: Option<Chain>, epochId: Id): Retry {
    if chain.None? then Unavailable
    else
      match chain.value.status
      case HasLeft => Terminal(LeftGroup)
      case Closed => Terminal(GroupClosed)
      case IsForked => Terminal(GroupForked)
      case Removed => Terminal(EpochChanged)
      case CardChanged => Terminal(CardChanged)
      case _ =>
        var original := Find(chain.value.epochs, epochId);
        if original.None? then Unavailable
        else if !(exists m :: m in original.value.body.members && m.id == me.id) then Terminal(NotAnAuthor)
        else if !Compatible(chain.value.epochs, chain.value.head, original.value) then Terminal(EpochChanged)
        else if chain.value.status.Active? then Allowed
        else Unavailable
  }

  datatype Outcome = Inconsistent | Full | Stopped(stop: Stop) | Completed | Decided(retry: Retry)

  /** The stops in the order they were recorded, and the last number of the shared sequence. */
  datatype Stops = Stops(entries: seq<Stop>, clock: nat)

  function FindStop(entries: seq<Stop>, operation: Text): Option<Stop> {
    if entries == [] then None
    else if entries[0].operation == operation then Some(entries[0])
    else FindStop(entries[1..], operation)
  }

  function Operations(entries: seq<Stop>): set<Text> {
    set i | 0 <= i < |entries| :: entries[i].operation
  }

  predicate Matches(stop: Stop, e: Entry) {
    stop.operation == e.operation && stop.id == e.id && stop.group == e.group && stop.epochId == e.epochId
  }

  predicate StopOk(s: Stop) {
    OperationOk(s.operation) && 0 < s.observed <= MaxSafe
  }

  predicate StopsOk(entries: seq<Stop>) {
    forall i :: 0 <= i < |entries| ==> StopOk(entries[i])
  }

  /** A list of stops as it may be stored. */
  ghost predicate Storable(entries: seq<Stop>) {
    |entries| <= StopLimit && StopsOk(entries)
    && forall i, j :: 0 <= i < j < |entries| ==> entries[i].operation != entries[j].operation
  }

  ghost predicate Inv(s: Stops) {
    Storable(s.entries) && s.clock <= MaxSafe
  }

  predicate IsHex(r: Rune) { 48 <= r < 58 || 97 <= r < 103 }

  /** The shape of an operation identifier: a random identifier in five groups (version 4 of RFC 9562, section 5.4). */
  predicate OperationOk(t: Text) {
    && |t| == 36
    && (forall i :: 0 <= i < 36 ==> if i in {8, 13, 18, 23} then t[i] == 45 else IsHex(t[i]))
    && t[14] == 52 && t[19] in {56, 57, 97, 98}
  }

  function Recording(s: Stops, e: Entry, reason: Reason): Stops {
    Stops(s.entries + [Stop(e.operation, e.id, e.group, e.epochId, reason, s.clock + 1)], s.clock + 1)
  }

  function Retained(entries: seq<Stop>, operations: set<Text>): seq<Stop> {
    if entries == [] then []
    else
      var rest := Retained(entries[..|entries| - 1], operations);
      var last := entries[|entries| - 1];
      if last.operation in operations then rest + [last] else rest
  }

  function Retire(s: Stops, operations: set<Text>): Stops {
    s.(entries := Retained(s.entries, operations))
  }

  // How a set of stops is stored

  function ReasonText(r: Reason): Text {
    match r
    case LeftGroup => Ascii("group-left")
    case GroupClosed => Ascii("group-closed")
    case GroupForked => Ascii("group-forked")
    case EpochChanged => Ascii("group-epoch-changed")
    case CardChanged => Ascii("group-card-changed")
    case NotAnAuthor => Ascii("group-invalid-original-author")
  }

  function StopFields(s: Stop): map<Text, J.Value> {
    map[Ascii("version") := J.Num(Decimal(1)),
        Ascii("operationId") := J.Str(s.operation),
        Ascii("id") := J.Str(HexText(s.id, 64)),
        Ascii("groupId") := J.Str(HexText(s.group, 64)),
        Ascii("epochId") := J.Str(HexText(s.epochId, 64)),
        Ascii("reason") := J.Str(ReasonText(s.reason)),
        Ascii("observed") := J.Num(Decimal(s.observed))]
  }

  function StopJson(s: Stop): J.Value {
    J.Obj(StopFields(s))
  }

  function StopSetJson(entries: seq<Stop>): J.Value {
    J.Obj(map[Ascii("version") := J.Num(Decimal(1)),
              Ascii("entries") := J.Arr(seq(|entries|, i requires 0 <= i < |entries| => StopJson(entries[i])))])
  }

  // Each of the words by itself

  lemma LeftIsPlain()
    ensures Plain(Ascii("group-left")) && |Ascii("group-left")| <= 29
  {
  }

  lemma ClosedIsPlain()
    ensures Plain(Ascii("group-closed")) && |Ascii("group-closed")| <= 29
  {
  }

  lemma ForkedIsPlain()
    ensures Plain(Ascii("group-forked")) && |Ascii("group-forked")| <= 29
  {
  }

  lemma EpochIsPlain()
    ensures Plain(Ascii("group-epoch-changed")) && |Ascii("group-epoch-changed")| <= 29
  {
  }

  lemma CardIsPlain()
    ensures Plain(Ascii("group-card-changed")) && |Ascii("group-card-changed")| <= 29
  {
  }

  lemma AuthorIsPlain()
    ensures Plain(Ascii("group-invalid-original-author")) && |Ascii("group-invalid-original-author")| <= 29
  {
  }

  lemma ReasonLength(r: Reason)
    ensures Plain(ReasonText(r)) && |ReasonText(r)| <= 29
  {
    hide Plain, Ascii;
    LeftIsPlain();
    ClosedIsPlain();
    ForkedIsPlain();
    EpochIsPlain();
    CardIsPlain();
    AuthorIsPlain();
  }

  lemma ReasonIsPlain(r: Reason)
    ensures Unpaired(ReasonText(r))
  {
    hide Ascii;
    ReasonLength(r);
    PlainIsUnpaired(ReasonText(r));
  }

  lemma ShortNamesArePlain()
    ensures Plain(Ascii("version")) && Plain(Ascii("id")) && Plain(Ascii("reason")) && Plain(Ascii("entries"))
  {
  }

  lemma LongNamesArePlain()
    ensures Plain(Ascii("operationId")) && Plain(Ascii("groupId")) && Plain(Ascii("epochId")) && Plain(Ascii("observed"))
  {
  }

  lemma NamesArePlain()
    ensures Plain(Ascii("version")) && Plain(Ascii("operationId")) && Plain(Ascii("id")) && Plain(Ascii("groupId"))
    ensures Plain(Ascii("epochId")) && Plain(Ascii("reason")) && Plain(Ascii("observed")) && Plain(Ascii("entries"))
  {
    hide Plain, Ascii;
    ShortNamesArePlain();
    LongNamesArePlain();
  }

  lemma KeysAreUnpaired()
    ensures Unpaired(Ascii("version")) && Unpaired(Ascii("operationId")) && Unpaired(Ascii("id")) && Unpaired(Ascii("groupId"))
    ensures Unpaired(Ascii("epochId")) && Unpaired(Ascii("reason")) && Unpaired(Ascii("observed")) && Unpaired(Ascii("entries"))
  {
    hide Ascii, Unpaired;
    NamesArePlain();
    PlainIsUnpaired(Ascii("version"));
    PlainIsUnpaired(Ascii("operationId"));
    PlainIsUnpaired(Ascii("id"));
    PlainIsUnpaired(Ascii("groupId"));
    PlainIsUnpaired(Ascii("epochId"));
    PlainIsUnpaired(Ascii("reason"));
    PlainIsUnpaired(Ascii("observed"));
    PlainIsUnpaired(Ascii("entries"));
  }

  lemma StopIsProper(s: Stop)
    requires OperationOk(s.operation)
    ensures J.Proper(AnyNumber, StopJson(s))
  {
    hide J.ScanNumber, Unpaired, Decimal, HexText;
    DecimalIsNumber(1);
    DecimalIsNumber(s.observed);
    HexTextIsPlain(s.id, 64);
    HexTextIsPlain(s.group, 64);
    HexTextIsPlain(s.epochId, 64);
    PlainIsUnpaired(HexText(s.id, 64));
    PlainIsUnpaired(HexText(s.group, 64));
    PlainIsUnpaired(HexText(s.epochId, 64));
    PlainIsUnpaired(s.operation);
    ReasonIsPlain(s.reason);
    KeysAreUnpaired();
    forall k | k in StopFields(s) ensures Unpaired(k) && J.Proper(AnyNumber, StopFields(s)[k]) {
    }
  }

  lemma StopsPrintable(entries: seq<Stop>)
    requires StopsOk(entries)
    ensures J.Proper(AnyNumber, StopSetJson(entries))
  {
    hide J.ScanNumber, Unpaired, Decimal, StopJson, OperationOk;
    DecimalIsNumber(1);
    KeysAreUnpaired();
    var items := seq(|entries|, i requires 0 <= i < |entries| => StopJson(entries[i]));
    forall i | 0 <= i < |items| ensures J.Proper(AnyNumber, items[i]) { StopIsProper(entries[i]); }
    assert J.Proper(AnyNumber, J.Arr(items));
  }

  /** The stored form: canonical JSON. */
  ghost function StopBytes(entries: seq<Stop>): seq<Byte>
    requires StopsOk(entries)
  {
    StopsPrintable(entries);
    J.Print(AnyNumber, StopSetJson(entries))
  }

  /** `retry` is what the group's chain says about this entry. Writing fails where the stored form is too large. */
  ghost function Reconcile(s: Stops, e: Entry, unfinished: bool, retry: Retry): (Stops, Outcome)
    requires Inv(s)
  {
    var previous := FindStop(s.entries, e.operation);
    if !OperationOk(e.operation) then (s, Inconsistent)
    else if previous.Some? then (s, if Matches(previous.value, e) then Stopped(previous.value) else Inconsistent)
    else if !unfinished then (s, Completed)
    else if !retry.Terminal? then (s, Decided(retry))
    else if |s.entries| >= StopLimit then (s, Full)
    else if s.clock >= MaxSafe then (s, Inconsistent)
    else
      var next := Recording(s, e, retry.reason);
      if |StopBytes(next.entries)| > StopByteLimit then (s, Full)
      else (next, Stopped(next.entries[|s.entries|]))
  }

}

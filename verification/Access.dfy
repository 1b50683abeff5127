/** Whether content addressed to a group is admitted, held or rejected, given the group's verified chain. */
module Access {
  import opened Common
  import opened Groups
  import A = Authority

  datatype ContentKind = Message | Edit | Reaction | Comment | Receipt | Delivery | Delete | Post | Alert | Unknown(name: nat)
  datatype Audience = ForEpoch | ForTarget | Historical

  /** A text field of the content that should hold an address. */
  datatype Field = Absent | Malformed | Address(id: Id)

  /** The fields the decision reads; `extra` counts all the others. */
  datatype Content = Content(
    kind: Option<ContentKind>, conversation: Field, audience: Option<Audience>, groupEpoch: Field, targetEpoch: Field,
    target: Field, replyTo: Field, members: Option<seq<Card>>, extra: nat)

  datatype Candidate = Candidate(
    id: Field, kind: ContentKind, author: Card, readers: seq<Field>, isPublic: bool, content: Content)

  /** Readers are kept as a strictly sorted list, that is, as a set. */
  datatype Context = Context(id: Id, group: Id, epochId: Id, author: Id, kind: ContentKind, readers: set<Id>)

  datatype Decision =
    | Failure
    | Invalid
    | Awaiting
    | Quarantined
    | Accepted(context: Context, historical: bool)

  /** What the binding of a content amounts to: the epoch it is published in, and the target it points at. */
  datatype Binding = Binding(conversation: Id, audience: Audience, epochId: Id, target: Option<(Id, Id)>)

  function TargetField(content: Content): Field {
    if content.kind == Some(Message) then content.replyTo else content.target
  }

  predicate HistoricalOk(v: Content)
    requires v.kind.Some?
  {
    && v.groupEpoch.Absent? && v.targetEpoch.Address? && v.target.Address?
    && v.kind.value in {Receipt, Delivery, Delete}
    && v.replyTo.Absent? && v.members.None? && v.extra == 0
  }

  function ParseBinding(v: Content): (b: Option<Binding>)
    ensures b.Some? ==> v.conversation == Address(b.value.conversation) && v.audience == Some(b.value.audience)
    ensures b.Some? ==> (b.value.target.Some? <==> b.value.audience != ForEpoch)
  {
    if !v.conversation.Address? || v.audience.None? || v.kind.None? then None
    else if v.audience.value.Historical? then
      if HistoricalOk(v) then Some(Binding(v.conversation.id, Historical, v.targetEpoch.id, Some((v.target.id, v.targetEpoch.id))))
      else None
    else if !v.groupEpoch.Address? || v.kind.value !in {Message, Edit, Reaction, Comment} then None
    else if v.audience.value.ForTarget? then
      if TargetField(v).Address? && v.targetEpoch.Address? then
        Some(Binding(v.conversation.id, ForTarget, v.groupEpoch.id, Some((TargetField(v).id, v.targetEpoch.id))))
      else None
    else if v.kind.value.Message? && v.targetEpoch.Absent? && v.target.Absent? && v.replyTo.Absent? then
      Some(Binding(v.conversation.id, ForEpoch, v.groupEpoch.id, None))
    else None
  }

  predicate Distinct(readers: seq<Field>) {
    && (forall i :: 0 <= i < |readers| ==> readers[i].Address?)
    && (forall i, j :: 0 <= i < j < |readers| ==> readers[i] != readers[j])
  }

  function ReaderIds(readers: seq<Field>): set<Id> {
    set i | 0 <= i < |readers| && readers[i].Address? :: readers[i].id
  }

  predicate EnvelopeOk(c: Crypto, me: Card, k: Candidate) {
    && Distinct(k.readers) && k.id.Address? && k.content.kind == Some(k.kind) && !k.isPublic && c.validCard(k.author)
    && me.id in ReaderIds(k.readers) && k.author.id in ReaderIds(k.readers) && |k.readers| <= 64
  }

  // The chain walk

  /** Whether the walk from `previous` over the rest of the chain stays linked, open and unrestricted up to the head. */
  function Walk(epochs: seq<Epoch>, head: Option<Epoch>, original: Epoch, previous: Epoch, n: nat): bool
    requires n <= |epochs|
    decreases |epochs| - n
  {
    if n == |epochs| then head.Some? && previous.id == head.value.id
    else
      var next := epochs[n];
      if next.body.number <= original.body.number then Walk(epochs, head, original, previous, n + 1)
      else
        && next.body.previous == Some(previous.id) && next.body.number == previous.body.number + 1 && next.body.open
        && Keeps(previous.body.members, next.body.members)
        && Walk(epochs, head, original, next, n + 1)
  }

  function Compatible(epochs: seq<Epoch>, head: Option<Epoch>, original: Epoch): bool {
    Walk(epochs, head, original, original, 0)
  }

  method IsCompatible(epochs: seq<Epoch>, head: Option<Epoch>, original: Epoch) returns (ok: bool)
    ensures ok == Compatible(epochs, head, original)
  {
    var previous := original;
    var n := 0;
    while n < |epochs|
      invariant 0 <= n <= |epochs|
      invariant Compatible(epochs, head, original) == Walk(epochs, head, original, previous, n)
    {
      var next := epochs[n];
      if next.body.number > original.body.number {
        if next.body.previous != Some(previous.id) || next.body.number != previous.body.number + 1 || !next.body.open {
          return false;
        }
        var k := 0;
        while k < |previous.body.members|
          invariant 0 <= k <= |previous.body.members|
          invariant forall i :: 0 <= i < k ==> previous.body.members[i] in next.body.members
        {
          if previous.body.members[k] !in next.body.members { return false; }
          k := k + 1;
        }
        previous := next;
      }
      n := n + 1;
    }
    ok := head.Some? && previous.id == head.value.id;
  }

  /** What the registry shows about one enrolled group: its chain, its status, and the private snapshot of an epoch. */
  datatype Chain = Chain(id: Id, status: A.Status, head: Option<Epoch>, epochs: seq<Epoch>, snapshots: map<Id, A.Lookup>)

  function Find(epochs: seq<Epoch>, id: Id): Option<Epoch> {
    if epochs == [] then None else if epochs[0].id == id then Some(epochs[0]) else Find(epochs[1..], id)
  }

  function SnapshotOf(ch: Chain, id: Id): A.Lookup {
    if id in ch.snapshots then ch.snapshots[id] else A.Missing
  }

  // The decision

  predicate TargetOk(k: Candidate, b: Binding, target: Option<Context>)
    requires b.target.Some?
  {
    && target.Some? && target.value.id == b.target.value.0 && target.value.group == b.conversation
    && target.value.epochId == b.target.value.1 && target.value.kind in {Message, Post, Alert}
  }

  function CardIds(cards: seq<Card>): (ids: set<Id>)
    ensures forall id :: id in ids <==> exists i :: 0 <= i < |cards| && cards[i].id == id
  {
    set i | 0 <= i < |cards| :: cards[i].id
  }

  predicate AuthorOk(k: Candidate, b: Binding, target: Context) {
    if b.audience.Historical? then
      if k.kind.Delete? then k.author.id == target.author else k.author.id != target.author && target.kind.Message?
    else k.kind.Edit? ==> k.author.id == target.author
  }

  function Filtered(cards: seq<Card>, readers: set<Id>): (r: seq<Card>)
    ensures forall card :: card in r <==> card in cards && card.id in readers
  {
    if cards == [] then [] else
      var rest := Filtered(cards[..|cards| - 1], readers);
      if cards[|cards| - 1].id in readers then rest + [cards[|cards| - 1]] else rest
  }

  /** What is left keeps its order, so of a roster sorted by id there is one such list. */
  lemma {:induction false} FilteredAscends(cards: seq<Card>, readers: set<Id>)
    requires Ascends(cards)
    ensures Ascends(Filtered(cards, readers))
  {
    if cards != [] {
      var last, shorter := cards[|cards| - 1], cards[..|cards| - 1];
      var rest := Filtered(shorter, readers);
      FilteredAscends(shorter, readers);
      assert forall card :: card in rest ==> card.id < last.id by {
        assert forall card :: card in shorter ==> card.id < last.id;
      }
      OneMoreAscends(rest, last);
    }
  }

  predicate Ascends(cards: seq<Card>) {
    forall i, j :: 0 <= i < j < |cards| ==> cards[i].id < cards[j].id
  }

  lemma OneMoreAscends(cards: seq<Card>, last: Card)
    requires Ascends(cards) && forall card :: card in cards ==> card.id < last.id
    ensures Ascends(cards + [last])
  {
  }

  method Filter(cards: seq<Card>, readers: set<Id>) returns (r: seq<Card>)
    ensures r == Filtered(cards, readers)
  {
    r := [];
    for n := 0 to |cards|
      invariant r == Filtered(cards[..n], readers)
    {
      assert cards[..n + 1][..n] == cards[..n];
      if cards[n].id in readers { r := r + [cards[n]]; }
    }
    assert cards[..|cards|] == cards;
  }

  /** The cards that may read: the roster of the epoch, cut down to the target's readers where there is a target. */
  datatype Cards = Broken | Refused | Roster(cards: seq<Card>)

  function CardsFor(ch: Chain, k: Candidate, b: Binding, target: Option<Context>, members: seq<Card>): Cards {
    if b.audience.ForEpoch? then Roster(members)
    else if b.target.None? || !TargetOk(k, b, target) then Refused
    else
      match SnapshotOf(ch, target.value.epochId)
      case Corrupt => Broken
      case Missing => Refused
      case Found(original) =>
        if Find(ch.epochs, target.value.epochId).None? || !(target.value.readers <= CardIds(original.members)) then Refused
        else if !AuthorOk(k, b, target.value) then Refused
        else Roster(Filtered(if b.audience.Historical? then original.members else members, target.value.readers))
  }

  /** Whether the sender is one of the readers under the card it signs with, and the envelope names exactly the readers. */
  predicate AudienceOk(c: Crypto, k: Candidate, cards: seq<Card>) {
    && (exists i :: 0 <= i < |cards| && cards[i].id == k.author.id && c.CardHash(cards[i]) == c.CardHash(k.author))
    && CardIds(cards) == ReaderIds(k.readers)
    && (k.kind.Message? ==> k.content.members == Some(cards))
  }

  function ContextOf(k: Candidate, b: Binding): Context
    requires k.id.Address?
  {
    Context(k.id.id, b.conversation, b.epochId, k.author.id, k.kind, ReaderIds(k.readers))
  }

  /** The last step: an accepted record settles it, and otherwise the chain must still carry the epoch's audience. */
  function Settle(ch: Chain, epoch: Epoch, b: Binding, context: Context, prior: Option<Context>): Decision {
    if prior.Some? then if prior.value == context then Accepted(context, true) else Invalid
    else if b.audience.Historical? then Accepted(context, true)
    else if !ch.status.Active? || !Compatible(ch.epochs, ch.head, epoch) then Quarantined
    else Accepted(context, ch.head.Some? && epoch.id != ch.head.value.id)
  }

  function Decide(
      c: Crypto, me: Card, chain: Option<Chain>, k: Candidate, prior: Option<Context>, target: Option<Context>): Decision
  {
    var b := ParseBinding(k.content);
    if b.None? || !EnvelopeOk(c, me, k) then Invalid
    else if chain.None? then Awaiting
    else
      var epoch := Find(chain.value.epochs, b.value.epochId);
      if epoch.None? then Awaiting
      else if !epoch.value.body.open then Invalid
      else
        match SnapshotOf(chain.value, b.value.epochId)
        case Corrupt => Failure
        case Missing => Awaiting
        case Found(s) =>
          match CardsFor(chain.value, k, b.value, target, s.members)
          case Broken => Failure
          case Refused => Invalid
          case Roster(cards) =>
            if !AudienceOk(c, k, cards) then Invalid
            else Settle(chain.value, epoch.value, b.value, ContextOf(k, b.value), prior)
  }
}

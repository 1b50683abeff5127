/** What the access decision on one content depends on, field by field. */
module Verdicts {
  import opened Common
  import opened Groups
  import opened GroupProofs
  import opened AuthorityProofs
  import opened Access
  import opened AccessProofs
  import A = Authority

  // The content and its envelope

  /** A new message for the whole epoch; a reply, edit, reaction or comment on a target; or a receipt, a
      delivery mark or a deletion sent to the readers of a target of an earlier epoch. */
  predicate WellBound(v: Content) {
    && v.conversation.Address?
    && match v.audience
       case None => false
       case Some(ForEpoch) =>
         v.kind == Some(Message) && v.groupEpoch.Address? && v.targetEpoch == Absent && v.target == Absent && v.replyTo == Absent
       case Some(ForTarget) =>
         && (v.kind == Some(Message) || v.kind == Some(Edit) || v.kind == Some(Reaction) || v.kind == Some(Comment))
         && v.groupEpoch.Address? && v.targetEpoch.Address? && PointsAt(v).Address?
       case Some(Historical) =>
         && (v.kind == Some(Receipt) || v.kind == Some(Delivery) || v.kind == Some(Delete))
         && v.targetEpoch.Address? && v.target.Address?
         && v.groupEpoch == Absent && v.replyTo == Absent && v.members == None && v.extra == 0
  }

  /** A message points at what it replies to. */
  function PointsAt(v: Content): Field {
    if v.kind == Some(Message) then v.replyTo else v.target
  }

  /** The epoch whose roster is the audience. */
  function PublishedIn(v: Content): Field {
    if v.audience == Some(Historical) then v.targetEpoch else v.groupEpoch
  }

  /** A private envelope of up to 64 different readers, the author and the local member among them. */
  predicate WellAddressed(c: Crypto, me: Card, k: Candidate) {
    && k.id.Address? && !k.isPublic && c.validCard(k.author) && k.content.kind == Some(k.kind)
    && |k.readers| <= 64 && Address(me.id) in k.readers && Address(k.author.id) in k.readers
    && (forall r :: r in k.readers ==> r.Address?)
    && (forall i, j :: 0 <= i < |k.readers| && 0 <= j < |k.readers| && k.readers[i] == k.readers[j] ==> i == j)
  }

  lemma BindingMeans(v: Content)
    ensures ParseBinding(v).Some? <==> WellBound(v)
    ensures WellBound(v) ==> var b := ParseBinding(v).value;
      && Address(b.conversation) == v.conversation && Some(b.audience) == v.audience && Address(b.epochId) == PublishedIn(v)
      && (b.target.Some? <==> v.audience != Some(ForEpoch))
      && (b.target.Some? ==> Address(b.target.value.0) == PointsAt(v) && Address(b.target.value.1) == v.targetEpoch)
  {
  }

  lemma EnvelopeMeans(c: Crypto, me: Card, k: Candidate)
    ensures EnvelopeOk(c, me, k) <==> WellAddressed(c, me, k)
    ensures forall id :: id in ReaderIds(k.readers) <==> Address(id) in k.readers
  {
  }

  // The target and the audience

  /** The chain knows this open epoch and its private snapshot. */
  predicate Known(ch: Chain, id: Id) {
    Find(ch.epochs, id).Some? && SnapshotOf(ch, id).Found?
  }

  /** The target is on record where the content says, is something one can answer, and all its readers were
      members of its epoch. */
  ghost predicate AtTarget(ch: Chain, v: Content, target: Option<Context>) {
    && target.Some? && PointsAt(v) == Address(target.value.id) && v.conversation == Address(target.value.group)
    && v.targetEpoch == Address(target.value.epochId)
    && (target.value.kind == Message || target.value.kind == Post || target.value.kind == Alert)
    && Known(ch, target.value.epochId)
    && forall id :: id in target.value.readers ==> exists card :: card in SnapshotOf(ch, target.value.epochId).snapshot.members && card.id == id
  }

  /** Only its author edits or deletes; only others confirm, and only messages. */
  predicate Entitled(kind: ContentKind, author: Id, target: Context) {
    && (kind == Edit || kind == Delete ==> author == target.author)
    && (kind == Receipt || kind == Delivery ==> author != target.author && target.kind == Message)
  }

  /** The cards of the epoch the content is published in; of those only the target's readers where there is a target. */
  function Audience(ch: Chain, v: Content, target: Option<Context>): seq<Card>
    requires PublishedIn(v).Address? && Known(ch, PublishedIn(v).id)
    requires v.audience != Some(ForEpoch) ==> target.Some?
  {
    var members := SnapshotOf(ch, PublishedIn(v).id).snapshot.members;
    if v.audience == Some(ForEpoch) then members else Filtered(members, target.value.readers)
  }

  /** The author signs with its card of that roster, the readers are the audience, and a message pins their cards. */
  ghost predicate ForAudience(c: Crypto, k: Candidate, cards: seq<Card>) {
    && (exists card :: card in cards && card.id == k.author.id && c.hash(CardDoc(card)) == c.hash(CardDoc(k.author)))
    && (forall id :: Address(id) in k.readers <==> exists card :: card in cards && card.id == id)
    && (k.kind == Message ==> k.content.members == Some(cards))
  }

  lemma AudienceMeans(c: Crypto, k: Candidate, cards: seq<Card>)
    ensures AudienceOk(c, k, cards) <==> ForAudience(c, k, cards)
  {
    hide EnvelopeOk;
    forall id ensures id in CardIds(cards) <==> exists card :: card in cards && card.id == id {
    }
    assert CardIds(cards) == ReaderIds(k.readers) <==> forall id :: id in CardIds(cards) <==> id in ReaderIds(k.readers);
    assert forall id :: id in ReaderIds(k.readers) <==> Address(id) in k.readers;
  }

  lemma CardsMean(ch: Chain, k: Candidate, b: Binding, target: Option<Context>, members: seq<Card>)
    requires WellBound(k.content) && k.content.kind == Some(k.kind) && b == ParseBinding(k.content).value
    requires Known(ch, b.epochId) && members == SnapshotOf(ch, b.epochId).snapshot.members
    ensures CardsFor(ch, k, b, target, members).Roster? <==>
      (k.content.audience != Some(ForEpoch) ==> AtTarget(ch, k.content, target) && Entitled(k.kind, k.author.id, target.value))
    ensures CardsFor(ch, k, b, target, members).Roster? ==> CardsFor(ch, k, b, target, members).cards == Audience(ch, k.content, target)
  {
  }

  // The decision

  /** Content in order, as far as the chain can tell. */
  ghost predicate Rightful(c: Crypto, me: Card, ch: Chain, k: Candidate, target: Option<Context>) {
    && WellBound(k.content) && WellAddressed(c, me, k)
    && Known(ch, PublishedIn(k.content).id) && Find(ch.epochs, PublishedIn(k.content).id).value.body.open
    && (k.content.audience != Some(ForEpoch) ==> AtTarget(ch, k.content, target) && Entitled(k.kind, k.author.id, target.value))
    && ForAudience(c, k, Audience(ch, k.content, target))
  }

  /** The record an admission makes. */
  function Record(k: Candidate): Context
    requires k.id.Address? && WellBound(k.content)
  {
    Context(k.id.id, k.content.conversation.id, PublishedIn(k.content).id, k.author.id, k.kind,
            set r | r in k.readers && r.Address? :: r.id)
  }

  /** What the chain can still answer for: the member is active and nobody has been dropped since. */
  predicate StillStands(ch: Chain, k: Candidate)
    requires WellBound(k.content) && Find(ch.epochs, PublishedIn(k.content).id).Some?
  {
    ch.status == A.Active && Compatible(ch.epochs, ch.head, Find(ch.epochs, PublishedIn(k.content).id).value)
  }

  /** The decision comes to its last step exactly for rightful content. */
  lemma Settles(c: Crypto, me: Card, ch: Chain, k: Candidate, prior: Option<Context>, target: Option<Context>)
    ensures var d := Decide(c, me, Some(ch), k, prior, target);
      if Rightful(c, me, ch, k, target) then
        && ParseBinding(k.content).Some? && k.id.Address? && Find(ch.epochs, ParseBinding(k.content).value.epochId).Some?
        && d == Settle(ch, Find(ch.epochs, ParseBinding(k.content).value.epochId).value, ParseBinding(k.content).value,
                       ContextOf(k, ParseBinding(k.content).value), prior)
      else !d.Accepted? && !d.Quarantined?
  {
    hide ParseBinding, EnvelopeOk, WellBound, CardsFor, AudienceOk, Find, ForAudience, AtTarget, Entitled, Audience, Settle, SnapshotOf, ContextOf;
    BindingMeans(k.content);
    EnvelopeMeans(c, me, k);
    if WellBound(k.content) && WellAddressed(c, me, k) && Known(ch, PublishedIn(k.content).id) {
      var b := ParseBinding(k.content).value;
      var members := SnapshotOf(ch, b.epochId).snapshot.members;
      CardsMean(ch, k, b, target, members);
      if CardsFor(ch, k, b, target, members).Roster? {
        AudienceMeans(c, k, CardsFor(ch, k, b, target, members).cards);
      }
    }
  }

  lemma RecordIs(c: Crypto, me: Card, k: Candidate)
    requires WellBound(k.content) && WellAddressed(c, me, k)
    ensures ParseBinding(k.content).Some? && ContextOf(k, ParseBinding(k.content).value) == Record(k)
  {
    hide WellBound;
    BindingMeans(k.content);
    EnvelopeMeans(c, me, k);
  }

  /** Content is accepted exactly when it is rightful, agrees with its record where it has one, and, where it has
      none and is not historical, the chain still stands; only in that last respect lacking, it is quarantined. */
  lemma AcceptedExactly(c: Crypto, me: Card, ch: Chain, k: Candidate, prior: Option<Context>, target: Option<Context>)
    ensures var d := Decide(c, me, Some(ch), k, prior, target);
      d.Accepted? <==> (
        && Rightful(c, me, ch, k, target)
        && (prior.Some? ==> prior.value == Record(k))
        && (prior.None? && k.content.audience != Some(Historical) ==> StillStands(ch, k)))
    ensures var d := Decide(c, me, Some(ch), k, prior, target);
      d.Quarantined? <==> (
        Rightful(c, me, ch, k, target) && prior.None? && k.content.audience != Some(Historical) && !StillStands(ch, k))
    ensures var d := Decide(c, me, Some(ch), k, prior, target);
      d.Accepted? ==>
        && d.context == Record(k)
        && (d.historical <==> (prior.Some? || k.content.audience == Some(Historical)
              || (ch.head.Some? && Find(ch.epochs, PublishedIn(k.content).id).value.id != ch.head.value.id)))
  {
    hide ParseBinding, WellBound, WellAddressed, Compatible, Find, ForAudience, AtTarget, Entitled, Audience, Decide, Record, ContextOf;
    BindingMeans(k.content);
    Settles(c, me, ch, k, prior, target);
    if Rightful(c, me, ch, k, target) {
      RecordIs(c, me, k);
    }
  }

  /** Content waits exactly when it is in order but its group, its epoch or that epoch's snapshot is not here yet. */
  lemma AwaitingExactly(c: Crypto, me: Card, chain: Option<Chain>, k: Candidate, prior: Option<Context>, target: Option<Context>)
    ensures Decide(c, me, chain, k, prior, target).Awaiting? <==> (
      && WellBound(k.content) && WellAddressed(c, me, k)
      && (chain.Some? ==>
            var e := Find(chain.value.epochs, PublishedIn(k.content).id);
            e.None? || (e.value.body.open && SnapshotOf(chain.value, PublishedIn(k.content).id).Missing?)))
  {
    hide ParseBinding, EnvelopeOk, WellBound, WellAddressed, CardsFor, AudienceOk, Find, SnapshotOf, Settle;
    BindingMeans(k.content);
    EnvelopeMeans(c, me, k);
    SettleDecides();
  }

  /** The target is on record where the content says. */
  predicate Meant(v: Content, target: Option<Context>) {
    && target.Some? && PointsAt(v) == Address(target.value.id) && v.conversation == Address(target.value.group)
    && v.targetEpoch == Address(target.value.epochId)
    && (target.value.kind == Message || target.value.kind == Post || target.value.kind == Alert)
  }

  /** The decision fails exactly where the private snapshot it needs, of the epoch or else of the target's, is in
      store but is not the one of its epoch. */
  lemma FailsExactly(c: Crypto, me: Card, chain: Option<Chain>, k: Candidate, prior: Option<Context>, target: Option<Context>)
    ensures Decide(c, me, chain, k, prior, target).Failure? <==> (
      && WellBound(k.content) && WellAddressed(c, me, k) && chain.Some?
      && Find(chain.value.epochs, PublishedIn(k.content).id).Some? && Find(chain.value.epochs, PublishedIn(k.content).id).value.body.open
      && (SnapshotOf(chain.value, PublishedIn(k.content).id).Corrupt?
          || (SnapshotOf(chain.value, PublishedIn(k.content).id).Found? && k.content.audience != Some(ForEpoch)
              && Meant(k.content, target) && SnapshotOf(chain.value, target.value.epochId).Corrupt?)))
  {
    hide ParseBinding, EnvelopeOk, WellBound, AudienceOk, Meant, TargetOk, Find, SnapshotOf, Settle, AuthorOk, CardIds, Filtered;
    BindingMeans(k.content);
    EnvelopeMeans(c, me, k);
    SettleDecides();
    if WellBound(k.content) && WellAddressed(c, me, k) {
      MeantMeans(k, target);
    }
  }

  lemma MeantMeans(k: Candidate, target: Option<Context>)
    requires WellBound(k.content) && k.content.kind == Some(k.kind)
    ensures ParseBinding(k.content).Some?
    ensures k.content.audience != Some(ForEpoch) ==>
      ParseBinding(k.content).value.target.Some? && (TargetOk(k, ParseBinding(k.content).value, target) <==> Meant(k.content, target))
  {
  }

  lemma SettleDecides()
    ensures forall ch: Chain, epoch: Epoch, b: Binding, context: Context, prior: Option<Context> ::
      !Settle(ch, epoch, b, context, prior).Awaiting? && !Settle(ch, epoch, b, context, prior).Failure?
  {
  }

  /** Who may do what: an accepted edit or deletion is by the author of its target, an accepted receipt or
      delivery mark is for a message and by somebody else, and the author always signs with a card of the
      private snapshot of the epoch the content is published in. */
  lemma OnlyTheEntitled(c: Crypto, me: Card, ch: Chain, k: Candidate, prior: Option<Context>, target: Option<Context>)
    requires Decide(c, me, Some(ch), k, prior, target).Accepted?
    ensures k.kind == Edit || k.kind == Delete ==> target.Some? && k.author.id == target.value.author
    ensures k.kind == Receipt || k.kind == Delivery ==> target.Some? && target.value.kind == Message && k.author.id != target.value.author
    ensures k.kind == Edit || k.kind == Delete || k.kind == Receipt || k.kind == Delivery || k.kind == Reaction || k.kind == Comment ==>
      target.Some? && k.content.target == Address(target.value.id) && k.content.targetEpoch == Address(target.value.epochId)
    ensures PublishedIn(k.content).Address? && SnapshotOf(ch, PublishedIn(k.content).id).Found?
    ensures exists card :: (
      card in SnapshotOf(ch, PublishedIn(k.content).id).snapshot.members
      && card.id == k.author.id && c.hash(CardDoc(card)) == c.hash(CardDoc(k.author)))
  {
    hide Decide, Record, StillStands;
    AcceptedExactly(c, me, ch, k, prior, target);
    var cards := Audience(ch, k.content, target);
    var card :| card in cards && card.id == k.author.id && c.hash(CardDoc(card)) == c.hash(CardDoc(k.author));
    assert card in SnapshotOf(ch, PublishedIn(k.content).id).snapshot.members;
  }

  // As the registry answers

  /** From epoch k to the head everything is open, and whoever is on a roster stays, with the same card. */
  predicate OnlyGrew(epochs: seq<Epoch>, k: nat) {
    && (forall n :: k < n < |epochs| ==> epochs[n].body.open)
    && (forall i, n, m :: k <= i <= n < |epochs| && m in epochs[i].body.members ==> m in epochs[n].body.members)
  }

  lemma CompatibleExactly(c: Crypto, g: A.Group, k: nat)
    requires ChainInv(c, g) && k <= A.HeadNumber(g)
    ensures Compatible(Epochs(g), g.record.head, Epochs(g)[k]) <==> OnlyGrew(Epochs(g), k)
  {
    hide ChainOk, Compatible, Unrestricted, PathOk, Indexed;
    GroupIsProper(c, g);
    CompatibleIsNonrestrictive(c, g.record.anchor, Epochs(g), g.record.head, k);
    NonrestrictivePaths(Epochs(g)[k..]);
    SuffixGrew(Epochs(g), k);
  }

  lemma SuffixGrew(epochs: seq<Epoch>, k: nat)
    requires k < |epochs|
    ensures OnlyGrew(epochs, k) <==> StaysOpen(epochs[k..]) && NeverShrinks(epochs[k..])
  {
    var path := epochs[k..];
    assert forall i :: 0 <= i < |path| ==> path[i] == epochs[k + i];
    if StaysOpen(path) && NeverShrinks(path) {
      forall n | k < n < |epochs| ensures epochs[n].body.open { assert path[n - k].body.open; }
      forall i, n, m | k <= i <= n < |epochs| && m in epochs[i].body.members ensures m in epochs[n].body.members {
        assert m in path[i - k].body.members;
        assert m in path[n - k].body.members;
      }
    }
  }

  /** So under the registry's own chain the author of accepted content is on the roster of its epoch under the
      very card it signs with; and new content counts exactly while the member is active and the chain only grew. */
  lemma AcceptedOnRoster(c: Crypto, me: Card, g: A.Group, k: Candidate, prior: Option<Context>, target: Option<Context>)
    requires c.Injective() && Inv(c, me.id, g) && A.StatusOf(c, me, g).Some?
    requires Decide(c, me, Some(ChainOf(c, me, g)), k, prior, target).Accepted?
    ensures Indexed(g) && PublishedIn(k.content).Address?
    ensures exists n: nat :: (
      n <= A.HeadNumber(g) && Epochs(g)[n].id == PublishedIn(k.content).id
      && Member(k.author.id, c.hash(CardDoc(k.author))) in Epochs(g)[n].body.members
      && (prior.None? && k.content.audience != Some(Historical) ==> A.StatusOf(c, me, g) == Some(A.Active) && OnlyGrew(Epochs(g), n)))
  {
    hide Decide, Record, OnlyGrew, Compatible, Indexed, Inv, A.StatusOf, A.SnapshotAt, A.FindEpoch, WellBound, WellAddressed, ChainOk, c.Injective;
    InvIndexed(c, me.id, g);
    var ch := ChainOf(c, me, g);
    AcceptedExactly(c, me, ch, k, prior, target);
    OnlyTheEntitled(c, me, ch, k, prior, target);
    var id := PublishedIn(k.content).id;
    SnapshotIs(c, me, g, id);
    FindFinds(Epochs(g), id);
    var e := Find(Epochs(g), id).value;
    var n: nat := e.body.number;
    CompatibleExactly(c, g, n);
    var s := A.SnapshotAt(c, g, e).snapshot;
    var card :| card in s.members && card.id == k.author.id && c.hash(CardDoc(card)) == c.hash(CardDoc(k.author));
    CardOnRoster(c, g, e, s, card);
  }

  lemma CardOnRoster(c: Crypto, g: A.Group, e: Epoch, s: Snapshot, card: Card)
    requires A.SnapshotAt(c, g, e) == A.Found(s) && card in s.members
    ensures Member(card.id, c.hash(CardDoc(card))) in e.body.members
  {
    hide EpochOk, SnapshotShape, TransitionOk, A.HasParent;
    var i :| 0 <= i < |s.members| && s.members[i] == card;
    assert Commitments(c, s.members)[i] == Member(card.id, c.CardHash(card));
  }
}

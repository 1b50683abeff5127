/** Signed membership certificates and the checks that link them into a chain. */
module Groups {
  import opened Common
  import Texts

  const MemberLimit := 64
  const EpochLimit := 1024
  const TitleLimit := 256

  type Nonce = nat
  type Signature = nat
  type Key = nat

  /** A public identity: `rest` stands for the name, the sealing key and the proof. */
  datatype Card = Card(id: Id, signKey: Key, rest: nat)

  datatype Certificate<T> = Certificate(body: T, id: Id, signature: Signature)

  datatype AnchorBody = AnchorBody(creator: Card, nonce: Nonce)
  datatype Member = Member(id: Id, cardHash: Id)
  datatype EpochBody = EpochBody(
    group: Id, number: int, previous: Option<Id>, open: bool, members: seq<Member>, snapshotHash: Id)
  datatype InvitationBody = InvitationBody(group: Id, parent: Id, invitee: Id, inviteeCard: Id, nonce: Nonce)
  datatype ConsentBody = ConsentBody(group: Id, parent: Id, invitation: Id, cardHash: Id, nonce: Nonce)
  datatype LeaveBody = LeaveBody(group: Id, parent: Id, member: Id, cardHash: Id, nonce: Nonce)

  type Anchor = Certificate<AnchorBody>
  type Epoch = Certificate<EpochBody>
  type Invitation = Certificate<InvitationBody>
  type Consent = Certificate<ConsentBody>
  type Leave = Certificate<LeaveBody>

  datatype Snapshot = Snapshot(group: Id, salt: Nonce, title: Texts.Text, members: seq<Card>, joins: seq<Consent>)

  datatype Document =
    | CardDoc(card: Card)
    | AnchorDoc(anchor: AnchorBody)
    | EpochDoc(epoch: EpochBody)
    | InvitationDoc(invitation: InvitationBody)
    | ConsentDoc(consent: ConsentBody)
    | LeaveDoc(leave: LeaveBody)
    | SnapshotDoc(snapshot: Snapshot)

  /** Hashing, signatures, size limits and identity proofs, as functions of the document they are given. */
  datatype Crypto = Crypto(
    hash: Document -> Id, signed: (Document, Signature, Key) -> bool, fits: Document -> bool, validCard: Card -> bool)
  {
    function CardHash(card: Card): Id { hash(CardDoc(card)) }

    ghost predicate Injective() {
      forall a, b :: hash(a) == hash(b) ==> a == b
    }

    predicate Certified(doc: Document, id: Id, signature: Signature, signer: Card) {
      validCard(signer) && fits(doc) && id == hash(doc) && signed(doc, signature, signer.signKey)
    }
  }

  /** A title is measured in UTF-16 units. */
  predicate TitleOk(title: Texts.Text) {
    |Texts.Units(title)| <= TitleLimit
  }

  datatype Kind = Nonrestrictive | Restrictive

  predicate AnchorOk(c: Crypto, anchor: Anchor) {
    c.Certified(AnchorDoc(anchor.body), anchor.id, anchor.signature, anchor.body.creator)
  }

  predicate Ascending(ids: seq<Id>) {
    forall i, j :: 0 <= i < j < |ids| ==> ids[i] < ids[j]
  }

  function Ids(members: seq<Member>): (ids: seq<Id>)
    ensures |ids| == |members| && forall i :: 0 <= i < |ids| ==> ids[i] == members[i].id
  {
    seq(|members|, i requires 0 <= i < |members| => members[i].id)
  }

  predicate Named(members: seq<Member>, id: Id) {
    exists i :: 0 <= i < |members| && members[i].id == id
  }

  predicate RosterOk(members: seq<Member>, creator: Id) {
    1 <= |members| <= MemberLimit && Ascending(Ids(members)) && Named(members, creator)
  }

  predicate PlaceOk(b: EpochBody) {
    && 0 <= b.number < EpochLimit && (b.number == EpochLimit - 1 ==> !b.open)
    && (b.number == 0 <==> b.previous.None?)
  }

  /** Epoch 0 holds the creator's original card alone. */
  predicate FirstOk(c: Crypto, b: EpochBody, creator: Card) {
    b.number == 0 ==> b.open && |b.members| == 1 && b.members[0].cardHash == c.CardHash(creator)
  }

  predicate EpochOk(c: Crypto, anchor: Anchor, e: Epoch) {
    && AnchorOk(c, anchor)
    && e.body.group == anchor.id
    && PlaceOk(e.body)
    && RosterOk(e.body.members, anchor.body.creator.id)
    && FirstOk(c, e.body, anchor.body.creator)
    && c.Certified(EpochDoc(e.body), e.id, e.signature, anchor.body.creator)
  }

  /** Down to hashes and signatures: the anchor and the epoch are both signed with the key of the anchor's
      creator, whose identity holds, each under its own hash; the epoch is one of 1024, the last of them
      closed, with a predecessor except for epoch 0; its roster of up to 64 members is sorted and holds the
      creator, who is alone on that of epoch 0, with the card of the anchor. */
  lemma EpochExactly(c: Crypto, anchor: Anchor, e: Epoch)
    ensures EpochOk(c, anchor, e) <==>
      var creator := anchor.body.creator;
      && c.validCard(creator)
      && anchor.id == c.hash(AnchorDoc(anchor.body)) && c.fits(AnchorDoc(anchor.body))
      && c.signed(AnchorDoc(anchor.body), anchor.signature, creator.signKey)
      && e.id == c.hash(EpochDoc(e.body)) && c.fits(EpochDoc(e.body))
      && c.signed(EpochDoc(e.body), e.signature, creator.signKey)
      && e.body.group == anchor.id
      && 0 <= e.body.number <= 1023 && (e.body.number == 1023 ==> !e.body.open)
      && (e.body.previous == None <==> e.body.number == 0)
      && 1 <= |e.body.members| <= 64
      && (forall i, j :: 0 <= i < j < |e.body.members| ==> e.body.members[i].id < e.body.members[j].id)
      && (exists m :: m in e.body.members && m.id == creator.id)
      && (e.body.number == 0 ==> e.body.open && e.body.members == [Member(creator.id, c.hash(CardDoc(creator)))])
  {
    hide Ids;
    AscendingIds(e.body.members);
    NamedIsMember(e.body.members, anchor.body.creator.id);
  }

  lemma AscendingIds(members: seq<Member>)
    ensures Ascending(Ids(members)) <==> forall i, j :: 0 <= i < j < |members| ==> members[i].id < members[j].id
  {
    if Ascending(Ids(members)) {
      forall i, j | 0 <= i < j < |members| ensures members[i].id < members[j].id {
        assert Ids(members)[i] < Ids(members)[j];
      }
    }
  }

  lemma NamedIsMember(members: seq<Member>, id: Id)
    ensures Named(members, id) <==> exists m :: m in members && m.id == id
  {
  }

  method VerifyEpoch(c: Crypto, anchor: Anchor, e: Epoch) returns (ok: bool)
    ensures ok == EpochOk(c, anchor, e)
    ensures ok ==> e.id == c.hash(EpochDoc(e.body)) && c.signed(EpochDoc(e.body), e.signature, anchor.body.creator.signKey)
  {
    var b := e.body;
    if !AnchorOk(c, anchor) || b.group != anchor.id || b.number < 0 || b.number >= EpochLimit ||
       (b.number == EpochLimit - 1 && b.open) {
      return false;
    }
    if (b.number == 0 && b.previous.Some?) || (b.number > 0 && b.previous.None?) {
      return false;
    }
    if |b.members| < 1 || |b.members| > MemberLimit {
      return false;
    }
    var previous: int, creator := -1, false;
    var k := 0;
    while k < |b.members|
      invariant 0 <= k <= |b.members|
      invariant previous == if k == 0 then -1 else b.members[k - 1].id
      invariant forall i, j :: 0 <= i < j < k ==> b.members[i].id < b.members[j].id
      invariant creator <==> exists i :: 0 <= i < k && b.members[i].id == anchor.body.creator.id
    {
      if b.members[k].id <= previous {
        assert !Ascending(Ids(b.members)) by {
          assert Ids(b.members)[k - 1] >= Ids(b.members)[k];
        }
        return false;
      }
      previous := b.members[k].id;
      creator := creator || b.members[k].id == anchor.body.creator.id;
      k := k + 1;
    }
    if !creator {
      return false;
    }
    if b.number == 0 && (!b.open || |b.members| != 1 || b.members[0].cardHash != c.CardHash(anchor.body.creator)) {
      return false;
    }
    ok := c.Certified(EpochDoc(b), e.id, e.signature, anchor.body.creator);
  }

  /** Whether an invitation was issued by the creator, from this open epoch, to this card. */
  predicate InvitationOk(c: Crypto, i: Invitation, anchor: Anchor, parent: Epoch, invitee: Card) {
    && EpochOk(c, anchor, parent) && parent.body.open && c.validCard(invitee)
    && i.body.group == anchor.id && i.body.parent == parent.id
    && i.body.invitee == invitee.id && i.body.inviteeCard == c.CardHash(invitee)
    && c.Certified(InvitationDoc(i.body), i.id, i.signature, anchor.body.creator)
  }

  predicate ConsentBodyOk(c: Crypto, consent: Consent, member: Card) {
    && c.validCard(member) && consent.body.cardHash == c.CardHash(member)
    && c.Certified(ConsentDoc(consent.body), consent.id, consent.signature, member)
  }

  /** Whether this card's holder consented to follow exactly this open epoch. */
  predicate ConsentOk(c: Crypto, consent: Consent, anchor: Anchor, parent: Epoch, member: Card) {
    && EpochOk(c, anchor, parent) && parent.body.open
    && consent.body.group == anchor.id && consent.body.parent == parent.id
    && ConsentBodyOk(c, consent, member)
  }

  predicate LeaveOk(c: Crypto, leave: Leave, anchor: Anchor, parent: Epoch, member: Card) {
    && EpochOk(c, anchor, parent) && c.validCard(member) && parent.body.open
    && member.id != anchor.body.creator.id
    && leave.body.group == anchor.id && leave.body.parent == parent.id
    && leave.body.member == member.id && leave.body.cardHash == c.CardHash(member)
    && Member(member.id, c.CardHash(member)) in parent.body.members
    && c.Certified(LeaveDoc(leave.body), leave.id, leave.signature, member)
  }

  /** An invitation is for this card, from this open epoch, under the creator's signature. */
  lemma InvitationExactly(c: Crypto, i: Invitation, anchor: Anchor, parent: Epoch, invitee: Card)
    ensures InvitationOk(c, i, anchor, parent, invitee) <==>
      && EpochOk(c, anchor, parent) && parent.body.open && c.validCard(invitee)
      && i.body == InvitationBody(anchor.id, parent.id, invitee.id, c.hash(CardDoc(invitee)), i.body.nonce)
      && i.id == c.hash(InvitationDoc(i.body)) && c.fits(InvitationDoc(i.body))
      && c.signed(InvitationDoc(i.body), i.signature, anchor.body.creator.signKey)
  {
    hide RosterOk, PlaceOk, FirstOk;
  }

  /** A consent is to follow this open epoch, under the signature of the very card that is to follow. */
  lemma ConsentExactly(c: Crypto, consent: Consent, anchor: Anchor, parent: Epoch, member: Card)
    ensures ConsentOk(c, consent, anchor, parent, member) <==>
      && EpochOk(c, anchor, parent) && parent.body.open && c.validCard(member)
      && consent.body == ConsentBody(anchor.id, parent.id, consent.body.invitation, c.hash(CardDoc(member)), consent.body.nonce)
      && consent.id == c.hash(ConsentDoc(consent.body)) && c.fits(ConsentDoc(consent.body))
      && c.signed(ConsentDoc(consent.body), consent.signature, member.signKey)
  {
    hide RosterOk, PlaceOk, FirstOk;
  }

  /** A leave request is by a member with this very card, other than the creator, under the member's own signature. */
  lemma LeaveExactly(c: Crypto, leave: Leave, anchor: Anchor, parent: Epoch, member: Card)
    ensures LeaveOk(c, leave, anchor, parent, member) <==>
      && EpochOk(c, anchor, parent) && parent.body.open && c.validCard(member)
      && member.id != anchor.body.creator.id
      && leave.body == LeaveBody(anchor.id, parent.id, member.id, c.hash(CardDoc(member)), leave.body.nonce)
      && (exists i :: 0 <= i < |parent.body.members| && parent.body.members[i] == Member(member.id, c.hash(CardDoc(member))))
      && leave.id == c.hash(LeaveDoc(leave.body)) && c.fits(LeaveDoc(leave.body))
      && c.signed(LeaveDoc(leave.body), leave.signature, member.signKey)
  {
    hide RosterOk, PlaceOk, FirstOk;
  }

  /** The cards of a snapshot as the roster that commits to them. */
  function Commitments(c: Crypto, cards: seq<Card>): (r: seq<Member>)
    ensures |r| == |cards|
    ensures forall i :: 0 <= i < |r| ==> r[i] == Member(cards[i].id, c.CardHash(cards[i]))
  {
    seq(|cards|, i requires 0 <= i < |cards| => Member(cards[i].id, c.CardHash(cards[i])))
  }

  /** The card a consent speaks for, when the snapshot holds it. */
  ghost predicate Speaks(c: Crypto, s: Snapshot, consent: Consent, i: int) {
    0 <= i < |s.members| && consent.body.cardHash == c.CardHash(s.members[i]) && ConsentBodyOk(c, consent, s.members[i])
  }

  ghost predicate JoinsOk(c: Crypto, s: Snapshot) {
    && |s.joins| <= MemberLimit
    && (forall j, k :: 0 <= j < k < |s.joins| ==> s.joins[j].body.cardHash < s.joins[k].body.cardHash)
    && (forall j :: 0 <= j < |s.joins| ==> JoinOk(c, s, s.joins[j]))
  }

  ghost predicate JoinOk(c: Crypto, s: Snapshot, consent: Consent) {
    consent.body.group == s.group && exists i :: Speaks(c, s, consent, i)
  }

  ghost predicate MembersOk(c: Crypto, s: Snapshot) {
    && 1 <= |s.members| <= MemberLimit
    && (forall i :: 0 <= i < |s.members| ==> c.validCard(s.members[i]))
    && (forall i, j :: 0 <= i < j < |s.members| ==> s.members[i].id < s.members[j].id)
  }

  ghost predicate SnapshotShape(c: Crypto, s: Snapshot) {
    TitleOk(s.title) && MembersOk(c, s) && JoinsOk(c, s) && c.fits(SnapshotDoc(s))
  }

  /** Whether a private snapshot is the one this epoch commits to. */
  ghost predicate SnapshotOk(c: Crypto, s: Snapshot, anchor: Anchor, e: Epoch) {
    && EpochOk(c, anchor, e) && SnapshotShape(c, s)
    && s.group == anchor.id && c.hash(SnapshotDoc(s)) == e.body.snapshotHash
    && Commitments(c, s.members) == e.body.members
    && (e.body.number == 0 ==> s.joins == [])
    && (e.body.number > 0 && e.body.open ==>
          forall j :: 0 <= j < |s.joins| ==> Some(s.joins[j].body.parent) == e.body.previous)
  }

  predicate LinkOk(c: Crypto, anchor: Anchor, parent: Epoch, next: Epoch) {
    && EpochOk(c, anchor, parent) && EpochOk(c, anchor, next)
    && parent.body.open && next.body.number == parent.body.number + 1 && next.body.previous == Some(parent.id)
    && (!next.body.open ==>
          next.body.members == parent.body.members && next.body.snapshotHash == parent.body.snapshotHash)
  }

  /** Nothing and nobody on the first roster is missing from the second. */
  predicate Keeps(before: seq<Member>, after: seq<Member>) {
    forall m :: m in before ==> m in after
  }

  function LinkKind(parent: Epoch, next: Epoch): Kind {
    if next.body.open && Keeps(parent.body.members, next.body.members) then Nonrestrictive else Restrictive
  }

  /** The private snapshot of an epoch is the one document with the hash the epoch signs. Its cards are the
      roster, card by card; its consents are sorted, signed each with the key of its own card, and those of
      an open epoch are all to its predecessor. */
  lemma SnapshotExactly(c: Crypto, s: Snapshot, anchor: Anchor, e: Epoch)
    ensures SnapshotOk(c, s, anchor, e) <==>
      && EpochOk(c, anchor, e)
      && s.group == anchor.id && e.body.snapshotHash == c.hash(SnapshotDoc(s)) && c.fits(SnapshotDoc(s))
      && |Texts.Units(s.title)| <= 256
      && |s.members| == |e.body.members| && |s.joins| <= 64
      && (forall i :: 0 <= i < |s.members| ==>
            c.validCard(s.members[i]) && e.body.members[i] == Member(s.members[i].id, c.hash(CardDoc(s.members[i]))))
      && (forall j, k :: 0 <= j < k < |s.joins| ==> s.joins[j].body.cardHash < s.joins[k].body.cardHash)
      && (forall consent :: consent in s.joins ==> SignedByOne(c, s, consent))
      && (e.body.number == 0 ==> s.joins == [])
      && (e.body.number != 0 && e.body.open ==> forall consent :: consent in s.joins ==> e.body.previous == Some(consent.body.parent))
  {
    hide ConsentBodyOk, TitleOk, JoinOk, SignedByOne, c.CardHash;
    RosterOfCards(c, anchor, e, s);
    JoinsSigned(c, s);
    TitleExactly(s.title);
    if EpochOk(c, anchor, e) { RosterLimits(c, anchor, e); }
  }

  /** A consent of this group, under the signature of a card of the snapshot. */
  ghost predicate SignedByOne(c: Crypto, s: Snapshot, consent: Consent) {
    exists card :: card in s.members && c.validCard(card)
      && consent.body.group == s.group && consent.body.cardHash == c.hash(CardDoc(card))
      && consent.id == c.hash(ConsentDoc(consent.body)) && c.fits(ConsentDoc(consent.body))
      && c.signed(ConsentDoc(consent.body), consent.signature, card.signKey)
  }

  lemma JoinsSigned(c: Crypto, s: Snapshot)
    ensures forall consent :: JoinOk(c, s, consent) <==> SignedByOne(c, s, consent)
  {
    forall consent ensures JoinOk(c, s, consent) <==> SignedByOne(c, s, consent) {
      if JoinOk(c, s, consent) {
        var i :| Speaks(c, s, consent, i);
        assert s.members[i] in s.members;
      }
      if SignedByOne(c, s, consent) {
        var card :| card in s.members && c.validCard(card)
          && consent.body.group == s.group && consent.body.cardHash == c.hash(CardDoc(card))
          && consent.id == c.hash(ConsentDoc(consent.body)) && c.fits(ConsentDoc(consent.body))
          && c.signed(ConsentDoc(consent.body), consent.signature, card.signKey);
        var i :| 0 <= i < |s.members| && s.members[i] == card;
        assert Speaks(c, s, consent, i);
      }
    }
  }

  lemma TitleExactly(title: Texts.Text)
    ensures TitleOk(title) <==> |Texts.Units(title)| <= 256
  {
  }

  lemma RosterLimits(c: Crypto, anchor: Anchor, e: Epoch)
    requires EpochOk(c, anchor, e)
    ensures 1 <= |e.body.members| <= MemberLimit
    ensures forall i, j :: 0 <= i < j < |e.body.members| ==> e.body.members[i].id < e.body.members[j].id
  {
    hide Ids;
    AscendingIds(e.body.members);
  }

  lemma RosterOfCards(c: Crypto, anchor: Anchor, e: Epoch, s: Snapshot)
    ensures Commitments(c, s.members) == e.body.members <==>
      |s.members| == |e.body.members| &&
      forall i :: 0 <= i < |s.members| ==> e.body.members[i] == Member(s.members[i].id, c.hash(CardDoc(s.members[i])))
  {
  }

  /** An epoch follows another that is open, by number and by hash; a closing one alters nothing else. */
  lemma LinkExactly(c: Crypto, anchor: Anchor, parent: Epoch, next: Epoch)
    ensures LinkOk(c, anchor, parent, next) <==>
      && EpochOk(c, anchor, parent) && EpochOk(c, anchor, next)
      && parent.body.open && next.body.number == parent.body.number + 1
      && next.body.previous == Some(c.hash(EpochDoc(parent.body)))
      && (next.body.open || (next.body.members == parent.body.members && next.body.snapshotHash == parent.body.snapshotHash))
    ensures LinkKind(parent, next) == Nonrestrictive <==>
      next.body.open && forall m :: m in parent.body.members ==> m in next.body.members
  {
    hide RosterOk, PlaceOk, FirstOk, AnchorOk;
  }

  /** The roster as a lookup table from member to card. */
  ghost predicate Tabulates(table: map<Id, Id>, members: seq<Member>) {
    && (forall m :: m in members ==> m.id in table && table[m.id] == m.cardHash)
    && (forall id :: id in table ==> Member(id, table[id]) in members)
  }

  lemma NoneTabulated()
    ensures Tabulates(map[], [])
  {
  }

  lemma OneMoreTabulated(table: map<Id, Id>, members: seq<Member>, k: nat)
    requires Ascending(Ids(members)) && k < |members| && Tabulates(table, members[..k])
    ensures Tabulates(table[members[k].id := members[k].cardHash], members[..k + 1])
  {
    forall m | m in members[..k] ensures m.id != members[k].id {
      var i :| 0 <= i < k && members[i] == m;
      assert Ids(members)[i] < Ids(members)[k];
    }
    hide Ids;
    assert members[..k + 1] == members[..k] + [members[k]];
  }

  method Tabulate(members: seq<Member>) returns (table: map<Id, Id>)
    requires Ascending(Ids(members))
    ensures Tabulates(table, members)
  {
    hide Tabulates, Ascending;
    NoneTabulated();
    table := map[];
    var k := 0;
    assert members[..0] == [];
    while k < |members|
      invariant 0 <= k <= |members|
      invariant Tabulates(table, members[..k])
    {
      OneMoreTabulated(table, members, k);
      table := table[members[k].id := members[k].cardHash];
      k := k + 1;
    }
    assert members[..k] == members;
  }

  method VerifyEpochLink(c: Crypto, anchor: Anchor, parent: Epoch, next: Epoch) returns (kind: Option<Kind>)
    ensures kind.Some? == LinkOk(c, anchor, parent, next)
    ensures kind.Some? ==> kind.value == LinkKind(parent, next)
  {
    var ok := VerifyEpoch(c, anchor, parent);
    if !ok { return None; }
    ok := VerifyEpoch(c, anchor, next);
    if !ok { return None; }
    if !parent.body.open || next.body.number != parent.body.number + 1 || next.body.previous != Some(parent.id) {
      return None;
    }
    if !next.body.open {
      if parent.body.members != next.body.members || parent.body.snapshotHash != next.body.snapshotHash {
        return None;
      }
      return Some(Restrictive);
    }
    var current := Tabulate(next.body.members);
    var k := 0;
    while k < |parent.body.members|
      invariant 0 <= k <= |parent.body.members|
      invariant forall i :: 0 <= i < k ==> parent.body.members[i] in next.body.members
    {
      var m := parent.body.members[k];
      if m.id !in current || current[m.id] != m.cardHash {
        assert m !in next.body.members;
        return Some(Restrictive);
      }
      assert m == Member(m.id, current[m.id]);
      k := k + 1;
    }
    return Some(Nonrestrictive);
  }

  predicate PathOk(c: Crypto, anchor: Anchor, path: seq<Epoch>) {
    && 1 <= |path| <= EpochLimit && EpochOk(c, anchor, path[0])
    && forall i {:trigger path[i]} :: 0 < i < |path| ==> LinkOk(c, anchor, path[i - 1], path[i])
  }

  predicate Unrestricted(path: seq<Epoch>) {
    forall i {:trigger path[i]} :: 0 < i < |path| ==> LinkKind(path[i - 1], path[i]) == Nonrestrictive
  }

  method ClassifyEpochPath(c: Crypto, anchor: Anchor, path: seq<Epoch>) returns (kind: Option<Kind>)
    ensures kind.Some? == PathOk(c, anchor, path)
    ensures kind.Some? ==> kind.value == if Unrestricted(path) then Nonrestrictive else Restrictive
  {
    hide LinkOk, LinkKind, EpochOk;
    if |path| < 1 || |path| > EpochLimit { return None; }
    var ok := VerifyEpoch(c, anchor, path[0]);
    if !ok { return None; }
    var result := Nonrestrictive;
    var k := 1;
    while k < |path|
      invariant 1 <= k <= |path|
      invariant forall i {:trigger path[i]} :: 0 < i < k ==> LinkOk(c, anchor, path[i - 1], path[i])
      invariant result == if Unrestricted(path[..k]) then Nonrestrictive else Restrictive
    {
      var link := VerifyEpochLink(c, anchor, path[k - 1], path[k]);
      if link.None? { return None; }
      UnrestrictedStep(path, k);
      if link.value == Restrictive { result := Restrictive; }
      k := k + 1;
    }
    assert path[..k] == path;
    return Some(result);
  }

  lemma UnrestrictedStep(path: seq<Epoch>, k: nat)
    requires 1 <= k < |path|
    ensures Unrestricted(path[..k + 1]) == (Unrestricted(path[..k]) && LinkKind(path[k - 1], path[k]) == Nonrestrictive)
  {
    hide LinkKind;
    var long, short := path[..k + 1], path[..k];
    if Unrestricted(long) {
      forall i {:trigger short[i]} | 0 < i < k ensures LinkKind(short[i - 1], short[i]) == Nonrestrictive {
        assert long[i] == short[i] && long[i - 1] == short[i - 1];
      }
      assert long[k] == path[k];
    }
    if Unrestricted(short) && LinkKind(path[k - 1], path[k]) == Nonrestrictive {
      forall i {:trigger long[i]} | 0 < i < k + 1 ensures LinkKind(long[i - 1], long[i]) == Nonrestrictive {
        if i < k { assert long[i] == short[i] && long[i - 1] == short[i - 1]; }
      }
    }
  }

  /** The cards of a snapshot that the parent's roster does not hold. */
  function Changed(c: Crypto, parent: Epoch, s: Snapshot): (r: set<Id>) {
    set i | 0 <= i < |s.members| && IsChanged(c, parent, s.members[i]) :: c.CardHash(s.members[i])
  }

  predicate IsChanged(c: Crypto, parent: Epoch, card: Card) {
    Member(card.id, c.CardHash(card)) !in parent.body.members
  }

  /** The cards the consents of a snapshot speak for. */
  function Consented(s: Snapshot): (r: set<Id>) {
    set j | 0 <= j < |s.joins| :: s.joins[j].body.cardHash
  }

  /** Every new or changed card consented to this parent, and nobody else's consent is there. */
  ghost predicate ConsentsMatch(c: Crypto, anchor: Anchor, parent: Epoch, s: Snapshot) {
    && Consented(s) == Changed(c, parent, s)
    && forall i {:trigger s.members[i]} :: 0 <= i < |s.members| && IsChanged(c, parent, s.members[i]) ==>
         exists j :: 0 <= j < |s.joins| && ConsentOk(c, s.joins[j], anchor, parent, s.members[i])
  }

  ghost predicate TransitionOk(c: Crypto, anchor: Anchor, parent: Epoch, next: Epoch, after: Snapshot) {
    && LinkOk(c, anchor, parent, next) && SnapshotOk(c, after, anchor, next)
    && (next.body.open ==> ConsentsMatch(c, anchor, parent, after))
  }

  /** In an open transition the cards not on the parent's roster are the cards consented for, each under
      its own signature and to this very parent. */
  lemma TransitionExactly(c: Crypto, anchor: Anchor, parent: Epoch, next: Epoch, after: Snapshot)
    requires LinkOk(c, anchor, parent, next) && SnapshotOk(c, after, anchor, next)
    ensures TransitionOk(c, anchor, parent, next, after) <==>
      (next.body.open ==>
        && (forall card :: card in after.members && Member(card.id, c.hash(CardDoc(card))) !in parent.body.members ==> ConsentedTo(c, anchor, parent, after, card))
        && (forall consent :: consent in after.joins ==> ForNewcomer(c, parent, after, consent)))
  {
    hide EpochOk, SnapshotShape;
    if next.body.open {
      if ConsentsMatch(c, anchor, parent, after) {
        MatchMeans(c, anchor, parent, after);
      }
      if (forall card :: card in after.members && Member(card.id, c.hash(CardDoc(card))) !in parent.body.members ==> ConsentedTo(c, anchor, parent, after, card))
        && (forall consent :: consent in after.joins ==> ForNewcomer(c, parent, after, consent))
      {
        MeansMatch(c, anchor, parent, after);
      }
    }
  }

  ghost predicate ConsentedTo(c: Crypto, anchor: Anchor, parent: Epoch, s: Snapshot, card: Card) {
    exists consent :: consent in s.joins && c.validCard(card)
      && consent.body == ConsentBody(anchor.id, parent.id, consent.body.invitation, c.hash(CardDoc(card)), consent.body.nonce)
      && consent.id == c.hash(ConsentDoc(consent.body)) && c.fits(ConsentDoc(consent.body))
      && c.signed(ConsentDoc(consent.body), consent.signature, card.signKey)
  }

  ghost predicate ForNewcomer(c: Crypto, parent: Epoch, s: Snapshot, consent: Consent) {
    exists card :: card in s.members && consent.body.cardHash == c.hash(CardDoc(card))
      && Member(card.id, consent.body.cardHash) !in parent.body.members
  }

  lemma MatchMeans(c: Crypto, anchor: Anchor, parent: Epoch, s: Snapshot)
    requires EpochOk(c, anchor, parent) && parent.body.open && ConsentsMatch(c, anchor, parent, s)
    ensures forall card :: card in s.members && Member(card.id, c.hash(CardDoc(card))) !in parent.body.members ==> ConsentedTo(c, anchor, parent, s, card)
    ensures forall consent :: consent in s.joins ==> ForNewcomer(c, parent, s, consent)
  {
    hide EpochOk;
    forall card | card in s.members && Member(card.id, c.hash(CardDoc(card))) !in parent.body.members
      ensures ConsentedTo(c, anchor, parent, s, card)
    {
      var i :| 0 <= i < |s.members| && s.members[i] == card;
      assert IsChanged(c, parent, s.members[i]);
      var j :| 0 <= j < |s.joins| && ConsentOk(c, s.joins[j], anchor, parent, s.members[i]);
      ConsentExactly(c, s.joins[j], anchor, parent, card);
    }
    forall consent | consent in s.joins ensures ForNewcomer(c, parent, s, consent) {
      var j :| 0 <= j < |s.joins| && s.joins[j] == consent;
      assert consent.body.cardHash in Consented(s);
      var i :| 0 <= i < |s.members| && IsChanged(c, parent, s.members[i]) && consent.body.cardHash == c.CardHash(s.members[i]);
      assert s.members[i] in s.members;
    }
  }

  lemma MeansMatch(c: Crypto, anchor: Anchor, parent: Epoch, s: Snapshot)
    requires EpochOk(c, anchor, parent) && parent.body.open
    requires forall card :: card in s.members && Member(card.id, c.hash(CardDoc(card))) !in parent.body.members ==> ConsentedTo(c, anchor, parent, s, card)
    requires forall consent :: consent in s.joins ==> ForNewcomer(c, parent, s, consent)
    ensures ConsentsMatch(c, anchor, parent, s)
  {
    hide EpochOk, ConsentOk, ConsentedTo, ForNewcomer, Changed, Consented;
    forall i {:trigger s.members[i]} | 0 <= i < |s.members| && IsChanged(c, parent, s.members[i])
      ensures exists j :: 0 <= j < |s.joins| && ConsentOk(c, s.joins[j], anchor, parent, s.members[i])
    {
      OwnConsent(c, anchor, parent, s, s.members[i]);
    }
    ChangedHaveConsented(c, anchor, parent, s);
    NewcomersOnly(c, parent, s);
  }

  lemma OwnConsent(c: Crypto, anchor: Anchor, parent: Epoch, s: Snapshot, card: Card)
    requires EpochOk(c, anchor, parent) && parent.body.open && ConsentedTo(c, anchor, parent, s, card)
    ensures exists j :: 0 <= j < |s.joins| && ConsentOk(c, s.joins[j], anchor, parent, card)
  {
    hide EpochOk;
    var consent :| consent in s.joins && c.validCard(card)
      && consent.body == ConsentBody(anchor.id, parent.id, consent.body.invitation, c.hash(CardDoc(card)), consent.body.nonce)
      && consent.id == c.hash(ConsentDoc(consent.body)) && c.fits(ConsentDoc(consent.body))
      && c.signed(ConsentDoc(consent.body), consent.signature, card.signKey);
    ConsentExactly(c, consent, anchor, parent, card);
    var j :| 0 <= j < |s.joins| && s.joins[j] == consent;
  }

  lemma NewcomersOnly(c: Crypto, parent: Epoch, s: Snapshot)
    requires forall consent :: consent in s.joins ==> ForNewcomer(c, parent, s, consent)
    ensures Consented(s) <= Changed(c, parent, s)
  {
    hide ForNewcomer;
    forall h | h in Consented(s) ensures h in Changed(c, parent, s) {
      var j :| 0 <= j < |s.joins| && s.joins[j].body.cardHash == h;
      IsForNewcomer(c, parent, s, s.joins[j]);
    }
  }

  lemma IsForNewcomer(c: Crypto, parent: Epoch, s: Snapshot, consent: Consent)
    requires ForNewcomer(c, parent, s, consent)
    ensures consent.body.cardHash in Changed(c, parent, s)
  {
    var card :| card in s.members && consent.body.cardHash == c.hash(CardDoc(card)) && Member(card.id, consent.body.cardHash) !in parent.body.members;
    var i :| 0 <= i < |s.members| && s.members[i] == card;
    assert IsChanged(c, parent, s.members[i]);
  }

  /** The consents of a snapshot as a table from card to consent. */
  ghost predicate ConsentTable(table: map<Id, Consent>, joins: seq<Consent>) {
    && (forall j :: 0 <= j < |joins| ==> joins[j].body.cardHash in table && table[joins[j].body.cardHash] == joins[j])
    && (forall h :: h in table ==> table[h] in joins && table[h].body.cardHash == h)
  }

  lemma DifferentCards(c: Crypto, s: Snapshot, i: nat, j: nat)
    requires c.Injective() && MembersOk(c, s) && i < |s.members| && j < |s.members| && i != j
    ensures c.CardHash(s.members[i]) != c.CardHash(s.members[j])
  {
    if i < j {
      assert s.members[i].id < s.members[j].id;
    } else {
      assert s.members[j].id < s.members[i].id;
    }
    assert CardDoc(s.members[i]) != CardDoc(s.members[j]);
  }

  /** The table holds the first `k` cards, each under its hash, and nothing else. */
  ghost predicate Listed(c: Crypto, s: Snapshot, k: nat, cards: map<Id, Card>)
    requires k <= |s.members|
  {
    && (forall i :: 0 <= i < k ==> c.CardHash(s.members[i]) in cards)
    && (forall h :: h in cards ==> h == c.CardHash(cards[h]) && cards[h] in s.members)
  }

  lemma ListedAdds(c: Crypto, s: Snapshot, k: nat, cards: map<Id, Card>)
    requires k < |s.members| && Listed(c, s, k, cards)
    ensures Listed(c, s, k + 1, cards[c.CardHash(s.members[k]) := s.members[k]])
  {
    hide c.CardHash;
  }

  method ValidateMembers(c: Crypto, s: Snapshot) returns (ok: bool, cards: map<Id, Card>)
    requires c.Injective()
    ensures ok == MembersOk(c, s)
    ensures ok ==> Listed(c, s, |s.members|, cards)
  {
    hide c.CardHash, c.Injective, Listed;
    cards := map[];
    if |s.members| < 1 || |s.members| > MemberLimit { return false, cards; }
    NoneListed(c, s);
    var previous: int := -1;
    var k := 0;
    while k < |s.members|
      invariant 0 <= k <= |s.members|
      invariant previous == if k == 0 then -1 else s.members[k - 1].id
      invariant forall i :: 0 <= i < k ==> c.validCard(s.members[i])
      invariant forall i, j :: 0 <= i < j < k ==> s.members[i].id < s.members[j].id
      invariant Listed(c, s, k, cards)
    {
      var card := s.members[k];
      if !c.validCard(card) || card.id <= previous { return false, cards; }
      previous := card.id;
      ListedAdds(c, s, k, cards);
      cards := cards[c.CardHash(card) := card];
      k := k + 1;
    }
    return true, cards;
  }

  lemma NoneListed(c: Crypto, s: Snapshot)
    ensures Listed(c, s, 0, map[])
  {
  }

  method ValidateJoins(c: Crypto, s: Snapshot, cards: map<Id, Card>) returns (ok: bool)
    requires c.Injective() && MembersOk(c, s)
    requires Listed(c, s, |s.members|, cards)
    ensures ok == JoinsOk(c, s)
  {
    hide MembersOk, ConsentBodyOk, c.CardHash, c.Injective;
    if |s.joins| > MemberLimit { return false; }
    var previous: int := -1;
    var k := 0;
    while k < |s.joins|
      invariant 0 <= k <= |s.joins|
      invariant previous == if k == 0 then -1 else s.joins[k - 1].body.cardHash
      invariant forall i, j :: 0 <= i < j < k ==> s.joins[i].body.cardHash < s.joins[j].body.cardHash
      invariant forall j :: 0 <= j < k ==> JoinOk(c, s, s.joins[j])
    {
      var consent := s.joins[k];
      var hash := consent.body.cardHash;
      if hash !in cards || consent.body.group != s.group || hash <= previous {
        assert !JoinsOk(c, s);
        return false;
      }
      JoinSpeaksForOne(c, s, consent, cards[hash]);
      if !ConsentBodyOk(c, consent, cards[hash]) {
        return false;
      }
      previous := hash;
      k := k + 1;
    }
    return true;
  }

  lemma JoinSpeaksForOne(c: Crypto, s: Snapshot, consent: Consent, card: Card)
    requires c.Injective() && consent.body.group == s.group && card in s.members
    requires consent.body.cardHash == c.CardHash(card)
    ensures JoinOk(c, s, consent) == ConsentBodyOk(c, consent, card)
  {
    hide ConsentBodyOk;
    if JoinOk(c, s, consent) {
      var i :| Speaks(c, s, consent, i);
      assert CardDoc(card) == CardDoc(s.members[i]);
    }
    if ConsentBodyOk(c, consent, card) {
      var i :| 0 <= i < |s.members| && s.members[i] == card;
      assert Speaks(c, s, consent, i);
    }
  }

  method ValidateSnapshot(c: Crypto, s: Snapshot) returns (ok: bool)
    requires c.Injective()
    ensures ok == SnapshotShape(c, s)
  {
    hide MembersOk, JoinsOk;
    if !TitleOk(s.title) { return false; }
    var cards: map<Id, Card>;
    ok, cards := ValidateMembers(c, s);
    if !ok { return false; }
    ok := ValidateJoins(c, s, cards);
    if !ok { return false; }
    ok := c.fits(SnapshotDoc(s));
  }

  method VerifySnapshot(c: Crypto, s: Snapshot, anchor: Anchor, e: Epoch) returns (ok: bool)
    requires c.Injective()
    ensures ok == SnapshotOk(c, s, anchor, e)
  {
    hide SnapshotShape, EpochOk, c.Injective;
    ok := VerifyEpoch(c, anchor, e);
    if !ok { return false; }
    ok := ValidateSnapshot(c, s);
    if !ok { return false; }
    if s.group != anchor.id || c.hash(SnapshotDoc(s)) != e.body.snapshotHash { return false; }
    if Commitments(c, s.members) != e.body.members { return false; }
    if e.body.number == 0 && |s.joins| != 0 { return false; }
    if e.body.number > 0 && e.body.open {
      var k := 0;
      while k < |s.joins|
        invariant 0 <= k <= |s.joins|
        invariant forall j :: 0 <= j < k ==> Some(s.joins[j].body.parent) == e.body.previous
      {
        if Some(s.joins[k].body.parent) != e.body.previous { return false; }
        k := k + 1;
      }
    }
    ok := true;
  }

  method TabulateConsents(joins: seq<Consent>) returns (table: map<Id, Consent>)
    requires forall j, k :: 0 <= j < k < |joins| ==> joins[j].body.cardHash < joins[k].body.cardHash
    ensures ConsentTable(table, joins)
  {
    table := map[];
    var k := 0;
    while k < |joins|
      invariant 0 <= k <= |joins|
      invariant ConsentTable(table, joins[..k])
    {
      assert joins[..k + 1] == joins[..k] + [joins[k]];
      table := table[joins[k].body.cardHash := joins[k]];
      k := k + 1;
    }
    assert joins[..k] == joins;
  }

  /** The changed cards among the first `k` of a snapshot. */
  ghost function ChangedBelow(c: Crypto, parent: Epoch, s: Snapshot, k: nat): set<Id>
    requires k <= |s.members|
  {
    set i | 0 <= i < k && IsChanged(c, parent, s.members[i]) :: c.CardHash(s.members[i])
  }

  lemma {:induction false} ConsentedCount(joins: seq<Consent>)
    requires forall j, k :: 0 <= j < k < |joins| ==> joins[j].body.cardHash < joins[k].body.cardHash
    ensures |set j | 0 <= j < |joins| :: joins[j].body.cardHash| == |joins|
  {
    if joins != [] {
      var n := |joins| - 1;
      ConsentedCount(joins[..n]);
      var all := set j | 0 <= j < |joins| :: joins[j].body.cardHash;
      var fewer := set j | 0 <= j < |joins[..n]| :: joins[..n][j].body.cardHash;
      assert all == fewer + {joins[n].body.cardHash};
    }
  }

  lemma ChangedStep(c: Crypto, parent: Epoch, s: Snapshot, k: nat)
    requires c.Injective() && MembersOk(c, s) && k < |s.members|
    ensures !IsChanged(c, parent, s.members[k]) ==> ChangedBelow(c, parent, s, k + 1) == ChangedBelow(c, parent, s, k)
    ensures IsChanged(c, parent, s.members[k]) ==>
      |ChangedBelow(c, parent, s, k + 1)| == |ChangedBelow(c, parent, s, k)| + 1
  {
    hide IsChanged, c.CardHash;
    var less, more := ChangedBelow(c, parent, s, k), ChangedBelow(c, parent, s, k + 1);
    if IsChanged(c, parent, s.members[k]) {
      var h := c.CardHash(s.members[k]);
      assert h !in less by {
        forall i | 0 <= i < k ensures c.CardHash(s.members[i]) != h { DifferentCards(c, s, i, k); }
      }
      assert more == less + {h};
    }
  }

  /** A card without a valid consent of its own spoils the match. */
  lemma NoConsentNoMatch(c: Crypto, anchor: Anchor, parent: Epoch, s: Snapshot, k: nat, table: map<Id, Consent>)
    requires ConsentTable(table, s.joins) && k < |s.members| && IsChanged(c, parent, s.members[k])
    requires var h := c.CardHash(s.members[k]); h in table ==> !ConsentOk(c, table[h], anchor, parent, s.members[k])
    ensures !ConsentsMatch(c, anchor, parent, s)
  {
    hide IsChanged, EpochOk;
    forall j | 0 <= j < |s.joins| ensures !ConsentOk(c, s.joins[j], anchor, parent, s.members[k]) {
      if s.joins[j].body.cardHash == c.CardHash(s.members[k]) {
        assert table[s.joins[j].body.cardHash] == s.joins[j];
      }
    }
  }

  /** Counting decides the match: the changed cards are as many as the consents exactly when they are the same cards. */
  lemma CountDecides(c: Crypto, anchor: Anchor, parent: Epoch, s: Snapshot)
    requires JoinsOk(c, s)
    requires forall i {:trigger s.members[i]} :: 0 <= i < |s.members| && IsChanged(c, parent, s.members[i]) ==>
      exists j :: 0 <= j < |s.joins| && ConsentOk(c, s.joins[j], anchor, parent, s.members[i])
    ensures ConsentsMatch(c, anchor, parent, s) == (|Changed(c, parent, s)| == |s.joins|)
  {
    hide IsChanged, ConsentOk, JoinOk, c.CardHash, Changed, Consented;
    ConsentedSize(c, s);
    assert Changed(c, parent, s) <= Consented(s) by { ChangedHaveConsented(c, anchor, parent, s); }
    SameSizeSameSet(Changed(c, parent, s), Consented(s));
  }

  lemma ConsentedSize(c: Crypto, s: Snapshot)
    requires JoinsOk(c, s)
    ensures |Consented(s)| == |s.joins|
  {
    ConsentedCount(s.joins);
  }

  lemma SameSizeSameSet<T>(a: set<T>, b: set<T>)
    requires a <= b
    ensures a == b <==> |a| == |b|
  {
    assert b == a + (b - a);
    if |a| == |b| { assert |b - a| == 0; }
  }

  lemma ChangedHaveConsented(c: Crypto, anchor: Anchor, parent: Epoch, s: Snapshot)
    requires forall i {:trigger s.members[i]} :: 0 <= i < |s.members| && IsChanged(c, parent, s.members[i]) ==>
      exists j :: 0 <= j < |s.joins| && ConsentOk(c, s.joins[j], anchor, parent, s.members[i])
    ensures Changed(c, parent, s) <= Consented(s)
  {
    hide IsChanged, ConsentOk, c.CardHash;
    forall h | h in Changed(c, parent, s) ensures h in Consented(s) {
      var i :| 0 <= i < |s.members| && IsChanged(c, parent, s.members[i]) && h == c.CardHash(s.members[i]);
      var j :| 0 <= j < |s.joins| && ConsentOk(c, s.joins[j], anchor, parent, s.members[i]);
      ConsentNames(c, s.joins[j], anchor, parent, s.members[i]);
    }
  }

  lemma ConsentNames(c: Crypto, consent: Consent, anchor: Anchor, parent: Epoch, card: Card)
    requires ConsentOk(c, consent, anchor, parent, card)
    ensures consent.body.cardHash == c.CardHash(card)
  {
  }

  method MatchConsents(c: Crypto, anchor: Anchor, parent: Epoch, s: Snapshot) returns (ok: bool)
    requires c.Injective() && EpochOk(c, anchor, parent) && MembersOk(c, s) && JoinsOk(c, s)
    ensures ok == ConsentsMatch(c, anchor, parent, s)
  {
    hide EpochOk, ConsentsMatch, c.Injective, MembersOk, ConsentOk, IsChanged, JoinOk, ConsentBodyOk;
    AscendingRoster(c, anchor, parent);
    var old_ := Tabulate(parent.body.members);
    var consents := TabulateConsents(s.joins);
    var changed := 0;
    var k := 0;
    while k < |s.members|
      invariant 0 <= k <= |s.members|
      invariant changed == |ChangedBelow(c, parent, s, k)|
      invariant forall i {:trigger s.members[i]} :: 0 <= i < k && IsChanged(c, parent, s.members[i]) ==>
        exists j :: 0 <= j < |s.joins| && ConsentOk(c, s.joins[j], anchor, parent, s.members[i])
    {
      var card := s.members[k];
      var hash := c.CardHash(card);
      ChangedStep(c, parent, s, k);
      LookupDecides(c, parent, card, old_);
      if !(card.id in old_ && old_[card.id] == hash) {
        changed := changed + 1;
        if hash !in consents || !ConsentOk(c, consents[hash], anchor, parent, card) {
          NoConsentNoMatch(c, anchor, parent, s, k, consents);
          return false;
        }
      }
      k := k + 1;
    }
    CountDecides(c, anchor, parent, s);
    ok := changed == |s.joins|;
  }

  lemma AscendingRoster(c: Crypto, anchor: Anchor, e: Epoch)
    requires EpochOk(c, anchor, e)
    ensures Ascending(Ids(e.body.members))
  {
  }

  lemma LookupDecides(c: Crypto, parent: Epoch, card: Card, table: map<Id, Id>)
    requires Tabulates(table, parent.body.members)
    ensures IsChanged(c, parent, card) == !(card.id in table && table[card.id] == c.CardHash(card))
  {
    var m := Member(card.id, c.CardHash(card));
    if m in parent.body.members { assert table[m.id] == m.cardHash; }
  }

  method VerifySnapshotTransition(c: Crypto, anchor: Anchor, parent: Epoch, next: Epoch, after: Snapshot) returns (kind: Option<Kind>)
    requires c.Injective()
    ensures kind.Some? == TransitionOk(c, anchor, parent, next, after)
    ensures kind.Some? ==> kind.value == LinkKind(parent, next)
  {
    hide c.Injective, ConsentsMatch, EpochOk, MembersOk, JoinsOk, LinkKind;
    kind := VerifyEpochLink(c, anchor, parent, next);
    if kind.None? { return; }
    var ok := VerifySnapshot(c, after, anchor, next);
    if !ok { return None; }
    if !next.body.open { return; }
    ok := MatchConsents(c, anchor, parent, after);
    if !ok { return None; }
  }
}

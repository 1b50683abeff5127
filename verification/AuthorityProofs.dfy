/** What every run of registry operations keeps. */
module AuthorityProofs {
  import opened Common
  import Texts
  import opened Groups
  import opened GroupProofs
  import opened Authority

  // The invariant, part by part

  ghost predicate Indexed(g: Group) {
    && -1 <= HeadNumber(g) < EpochLimit
    && (g.record.head.Some? ==> 0 <= HeadNumber(g) && Header(g, HeadNumber(g)) == g.record.head)
    && (forall n :: Header(g, n).Some? <==> 0 <= n <= HeadNumber(g))
    && (forall n :: n in g.headers ==> g.headers[n].body.open)
  }

  /** The retained chain, from epoch 0 to the head. */
  ghost function Epochs(g: Group): (s: seq<Epoch>)
    requires Indexed(g)
    ensures |s| == HeadNumber(g) + 1 && forall n :: 0 <= n < |s| ==> Some(s[n]) == Header(g, n)
  {
    seq(HeadNumber(g) + 1, n requires 0 <= n <= HeadNumber(g) => Header(g, n).value)
  }

  ghost predicate ChainOk(c: Crypto, anchor: Anchor, epochs: seq<Epoch>) {
    && AnchorOk(c, anchor)
    && (epochs != [] ==> PathOk(c, anchor, epochs))
    && forall n :: 0 <= n < |epochs| ==> epochs[n].body.number == n
  }

  ghost predicate ChainInv(c: Crypto, g: Group) {
    Indexed(g) && ChainOk(c, g.record.anchor, Epochs(g))
  }

  ghost predicate Keyed(c: Crypto, snapshots: map<Id, Snapshot>) {
    forall h :: h in snapshots ==> c.hash(SnapshotDoc(snapshots[h])) == h
  }

  /** A gap-free verified history: the card on every roster from epoch `k`, every private snapshot up to the cursor. */
  ghost predicate AdmittedSince(c: Crypto, id: Id, g: Group, k: int)
    requires Indexed(g) && g.record.admitted.Some? && g.record.checked.Some?
  {
    && 0 <= k <= g.record.checked.value <= HeadNumber(g)
    && Epochs(g)[k].id == g.record.admitted.value.epochId
    && (forall n :: k <= n <= HeadNumber(g) ==> HasCard(Header(g, n), id, g.record.admitted.value.cardHash))
    && (forall n :: k <= n <= g.record.checked.value ==> SnapshotAt(c, g, Epochs(g)[n]).Found?)
  }

  ghost predicate AdmissionInv(c: Crypto, id: Id, g: Group)
    requires Indexed(g)
  {
    && (g.record.admitted.None? ==> g.record.checked.None?)
    && (g.record.admitted.Some? ==>
          g.record.everJoined && g.record.left.None? && g.record.checked.Some? && exists k :: AdmittedSince(c, id, g, k))
  }

  ghost predicate InvitationInv(c: Crypto, id: Id, r: Record) {
    && (r.invitation.None? ==> r.invitationParent.None? && r.invitationCard.None? && r.consent.None?)
    && (r.invitation.Some? ==>
          && r.invitationParent.Some? && r.invitationCard.Some? && r.invitationCard.value.id == id
          && InvitationOk(c, r.invitation.value, r.anchor, r.invitationParent.value, r.invitationCard.value))
    && (r.consent.Some? ==>
          && r.consent.value.body.invitation == r.invitation.value.id
          && ConsentOk(c, r.consent.value, r.anchor, r.invitationParent.value, r.invitationCard.value))
  }

  ghost predicate FenceOk(c: Crypto, id: Id, anchor: Anchor, epochs: seq<Epoch>, f: Fence) {
    && (f.request.None? ==> f.card.None?)
    && (f.request.Some? ==>
          && f.epochId.Some? && f.card.Some? && f.card.value.id == id && f.request.value.body.nonce == f.nonce
          && exists n :: 0 <= n < |epochs| && epochs[n].id == f.epochId.value
                         && LeaveOk(c, f.request.value, anchor, epochs[n], f.card.value))
  }

  ghost predicate FreezeOk(c: Crypto, g: Group, f: Freeze)
    requires Indexed(g)
  {
    match f
    case Forked(first, second) =>
      && EpochOk(c, g.record.anchor, first) && EpochOk(c, g.record.anchor, second)
      && first.id != second.id && first.body.number == second.body.number && first.body.previous == second.body.previous
    case NoRoomForHeader(o) => g.record.head.Some? && LinkOk(c, g.record.anchor, g.record.head.value, o)
    case NoRoomForSnapshot(o) => Header(g, o.body.number) == Some(o)
  }

  ghost predicate MarksInv(c: Crypto, id: Id, g: Group)
    requires Indexed(g)
  {
    && (g.record.title.Some? ==> TitleOk(g.record.title.value))
    && (g.record.left.Some? ==> FenceOk(c, id, g.record.anchor, Epochs(g), g.record.left.value))
    && (g.record.frozen.Some? ==> FreezeOk(c, g, g.record.frozen.value))
  }

  ghost predicate Inv(c: Crypto, id: Id, g: Group) {
    && ChainInv(c, g) && Keyed(c, g.snapshots)
    && AdmissionInv(c, id, g) && InvitationInv(c, id, g.record) && MarksInv(c, id, g)
  }

  // What loading a record checks

  ghost predicate LoadsHead(c: Crypto, g: Group) {
    var r := g.record;
    r.head.Some? ==>
      && EpochOk(c, r.anchor, r.head.value)
      && Header(g, HeadNumber(g)).Some? && Header(g, HeadNumber(g)).value.id == r.head.value.id
      && (!r.head.value.body.open ==> HasParent(c, g, r.head.value))
  }

  ghost predicate LoadsAdmission(c: Crypto, id: Id, g: Group) {
    var r := g.record;
    && (r.admitted.None? ==> r.checked.None?)
    && (r.admitted.Some? ==>
          && r.everJoined && r.head.Some? && r.checked.Some? && 0 <= r.checked.value <= HeadNumber(g)
          && HasCard(Header(g, r.checked.value), id, r.admitted.value.cardHash)
          && SnapshotAt(c, g, Header(g, r.checked.value).value).Found?)
  }

  ghost predicate LoadsFence(c: Crypto, id: Id, g: Group) {
    var r := g.record;
    r.left.Some? ==>
      && r.admitted.None?
      && (r.left.value.request.None? ==> r.left.value.card.None?)
      && (r.left.value.request.Some? ==>
            && r.left.value.epochId.Some? && r.left.value.card.Some? && r.left.value.card.value.id == id
            && r.left.value.request.value.body.nonce == r.left.value.nonce
            && FindEpoch(g, r.left.value.epochId.value).Some?
            && LeaveOk(c, r.left.value.request.value, r.anchor, FindEpoch(g, r.left.value.epochId.value).value, r.left.value.card.value))
  }

  ghost predicate LoadsFreeze(c: Crypto, g: Group) {
    g.record.frozen.Some? ==>
      match g.record.frozen.value
      case Forked(first, second) =>
        && EpochOk(c, g.record.anchor, first) && EpochOk(c, g.record.anchor, second)
        && first.id != second.id && first.body.number == second.body.number && first.body.previous == second.body.previous
      case NoRoomForHeader(o) => g.record.head.Some? && LinkOk(c, g.record.anchor, g.record.head.value, o)
      case NoRoomForSnapshot(o) =>
        && g.record.head.Some? && EpochOk(c, g.record.anchor, o)
        && Header(g, o.body.number).Some? && Header(g, o.body.number).value.id == o.id
  }

  /** Every check made on a stored record before it is used. */
  ghost predicate Loads(c: Crypto, id: Id, g: Group) {
    && (g.record.title.Some? ==> TitleOk(g.record.title.value))
    && LoadsHead(c, g) && LoadsAdmission(c, id, g) && InvitationInv(c, id, g.record) && LoadsFence(c, id, g) && LoadsFreeze(c, g)
  }

  // Chains

  lemma ChainLink(c: Crypto, anchor: Anchor, epochs: seq<Epoch>, n: nat)
    requires ChainOk(c, anchor, epochs) && n < |epochs|
    ensures EpochOk(c, anchor, epochs[n])
    ensures 0 < n ==> LinkOk(c, anchor, epochs[n - 1], epochs[n])
  {
    hide EpochOk;
  }

  lemma LinkParts(c: Crypto, anchor: Anchor, parent: Epoch, next: Epoch)
    requires LinkOk(c, anchor, parent, next)
    ensures EpochOk(c, anchor, parent) && EpochOk(c, anchor, next)
    ensures parent.body.open && next.body.number == parent.body.number + 1 && next.body.previous == Some(parent.id)
  {
    hide EpochOk;
  }

  lemma EpochParts(c: Crypto, anchor: Anchor, e: Epoch)
    requires EpochOk(c, anchor, e)
    ensures AnchorOk(c, anchor) && 0 <= e.body.number < EpochLimit && (e.body.number == 0 <==> e.body.previous.None?)
    ensures e.body.number == 0 ==> e.body.open
  {
  }

  /** Different places on one chain hold different ids. */
  lemma IdsDiffer(c: Crypto, anchor: Anchor, epochs: seq<Epoch>, m: nat, n: nat)
    requires c.Injective() && ChainOk(c, anchor, epochs) && m < n < |epochs|
    ensures epochs[m].id != epochs[n].id
  {
    hide EpochOk, PathOk, c.Injective;
    ChainLink(c, anchor, epochs, m);
    ChainLink(c, anchor, epochs, n);
    if epochs[m].id == epochs[n].id { SameIdSameBody(c, anchor, epochs[m], epochs[n]); }
  }

  lemma {:induction false} FindFromFinds(c: Crypto, g: Group, n: nat, from: nat)
    requires c.Injective() && ChainInv(c, g) && from <= n <= HeadNumber(g)
    ensures FindFrom(g, Epochs(g)[n].id, from) == Some(Epochs(g)[n])
    decreases n - from
  {
    hide ChainOk, c.Injective;
    if from < n {
      IdsDiffer(c, g.record.anchor, Epochs(g), from, n);
      FindFromFinds(c, g, n, from + 1);
    }
  }

  lemma {:induction false} FoundOnChain(g: Group, id: Id, from: nat)
    requires Indexed(g) && FindFrom(g, id, from).Some?
    ensures exists n :: from <= n < |Epochs(g)| && Epochs(g)[n].id == id && FindFrom(g, id, from) == Some(Epochs(g)[n])
    decreases HeadNumber(g) - from
  {
    if Header(g, from).Some? && Header(g, from).value.id == id {
      assert Epochs(g)[from].id == id;
    } else {
      FoundOnChain(g, id, from + 1);
    }
  }

  lemma ParentOnChain(c: Crypto, g: Group, n: nat)
    requires ChainInv(c, g) && 0 < n <= HeadNumber(g)
    ensures HasParent(c, g, Epochs(g)[n]) && Header(g, n - 1) == Some(Epochs(g)[n - 1])
  {
    hide EpochOk, PathOk, ChainOk;
    ChainNumbers(c, g, n);
    ChainLink(c, g.record.anchor, Epochs(g), n);
    LinkParts(c, g.record.anchor, Epochs(g)[n - 1], Epochs(g)[n]);
  }

  lemma ChainNumbers(c: Crypto, g: Group, n: nat)
    requires ChainInv(c, g) && n <= HeadNumber(g)
    ensures Epochs(g)[n].body.number == n && EpochOk(c, g.record.anchor, Epochs(g)[n])
  {
    hide EpochOk;
    ChainLink(c, g.record.anchor, Epochs(g), n);
  }

  /** A record that satisfies the invariant passes every check made when it is loaded. */
  lemma InvLoads(c: Crypto, id: Id, g: Group)
    requires c.Injective() && Inv(c, id, g)
    ensures Loads(c, id, g)
  {
    hide EpochOk, ChainOk, LinkOk, SnapshotAt, LeaveOk, InvitationInv, c.Injective;
    var r := g.record;
    if r.head.Some? {
      ChainNumbers(c, g, HeadNumber(g));
      HeadIsLast(g);
      if !r.head.value.body.open {
        EpochParts(c, r.anchor, r.head.value);
        ParentOnChain(c, g, HeadNumber(g));
      }
    }
    if r.admitted.Some? {
      var k :| AdmittedSince(c, id, g, k);
      assert SnapshotAt(c, g, Epochs(g)[r.checked.value]).Found?;
    }
    FenceLoads(c, id, g);
    if r.frozen.Some? && r.frozen.value.NoRoomForSnapshot? {
      ChainNumbers(c, g, r.frozen.value.observed.body.number);
    }
  }

  lemma HeadIsLast(g: Group)
    requires Indexed(g) && g.record.head.Some?
    ensures Epochs(g)[HeadNumber(g)] == g.record.head.value
  {
  }

  lemma FenceLoads(c: Crypto, id: Id, g: Group)
    requires c.Injective() && Inv(c, id, g)
    ensures LoadsFence(c, id, g)
  {
    hide EpochOk, ChainOk, LinkOk, SnapshotAt, LeaveOk, InvitationInv, c.Injective;
    var r := g.record;
    if r.left.Some? && r.left.value.request.Some? {
      var f := r.left.value;
      var n :| 0 <= n < |Epochs(g)| && Epochs(g)[n].id == f.epochId.value
               && LeaveOk(c, f.request.value, r.anchor, Epochs(g)[n], f.card.value);
      FindFromFinds(c, g, n, 0);
    }
  }

  // Growth: what is retained is never replaced or dropped

  ghost predicate Grows(g: Group, h: Group) {
    && Indexed(g) && Indexed(h) && h.record.anchor == g.record.anchor
    && Epochs(g) <= Epochs(h)
    && (forall k :: k in g.snapshots ==> k in h.snapshots && h.snapshots[k] == g.snapshots[k])
  }

  lemma GrowsOver(a: Group, b: Group, d: Group)
    requires Grows(a, b) && Grows(b, d)
    ensures Grows(a, d)
  {
  }

  lemma HeadersStay(g: Group, h: Group, n: int)
    requires Grows(g, h) && Header(g, n).Some?
    ensures Header(h, n) == Header(g, n)
  {
    assert Epochs(g)[n] == Epochs(h)[n];
  }

  lemma FoundStays(c: Crypto, g: Group, h: Group, e: Epoch)
    requires Grows(g, h) && SnapshotAt(c, g, e).Found?
    ensures SnapshotAt(c, h, e) == SnapshotAt(c, g, e)
  {
    hide SnapshotOk, TransitionOk, LinkOk, Indexed;
    if e.body.number != 0 { HeadersStay(g, h, e.body.number - 1); }
  }

  lemma AdmissionGrows(c: Crypto, id: Id, g: Group, h: Group, k: int)
    requires Grows(g, h) && g.record.admitted.Some? && g.record.checked.Some? && AdmittedSince(c, id, g, k)
    requires h.record.admitted == g.record.admitted && h.record.checked == g.record.checked
    requires forall n :: HeadNumber(g) < n <= HeadNumber(h) ==> HasCard(Header(h, n), id, g.record.admitted.value.cardHash)
    ensures AdmittedSince(c, id, h, k)
  {
    hide SnapshotAt;
    forall n | k <= n <= HeadNumber(h) ensures HasCard(Header(h, n), id, h.record.admitted.value.cardHash) {
      if n <= HeadNumber(g) { HeadersStay(g, h, n); }
    }
    forall n | k <= n <= h.record.checked.value ensures SnapshotAt(c, h, Epochs(h)[n]).Found? {
      assert Epochs(g)[n] == Epochs(h)[n];
      FoundStays(c, g, h, Epochs(g)[n]);
    }
  }

  lemma FenceStays(c: Crypto, id: Id, g: Group, h: Group, f: Fence)
    requires Grows(g, h) && FenceOk(c, id, g.record.anchor, Epochs(g), f)
    ensures FenceOk(c, id, h.record.anchor, Epochs(h), f)
  {
    hide LeaveOk;
    if f.request.Some? {
      var n :| 0 <= n < |Epochs(g)| && Epochs(g)[n].id == f.epochId.value
               && LeaveOk(c, f.request.value, g.record.anchor, Epochs(g)[n], f.card.value);
      assert Epochs(h)[n] == Epochs(g)[n];
    }
  }

  // Adopting a header

  ghost predicate Follows(c: Crypto, g: Group, e: Epoch) {
    && EpochOk(c, g.record.anchor, e)
    && (if g.record.head.Some? then LinkOk(c, g.record.anchor, g.record.head.value, e) else e.body.number == 0)
  }

  lemma AdoptingGrows(c: Crypto, me: Card, g: Group, e: Epoch)
    requires Inv(c, me.id, g) && Follows(c, g, e)
    ensures Grows(g, Adopting(me, g, e)) && Epochs(Adopting(me, g, e)) == Epochs(g) + [e]
  {
    hide EpochOk, ChainOk, MarksInv, InvitationInv, AdmissionInv, Keyed;
    var h := Adopting(me, g, e);
    EpochParts(c, g.record.anchor, e);
    if g.record.head.Some? { LinkParts(c, g.record.anchor, g.record.head.value, e); }
    assert HeadNumber(h) == HeadNumber(g) + 1 == e.body.number;
    forall n ensures Header(h, n) == if n == e.body.number then Some(e) else Header(g, n) {
      assert n in g.headers ==> Header(g, n).Some?;
    }
    assert Epochs(h) == Epochs(g) + [e];
  }

  lemma ChainExtends(c: Crypto, anchor: Anchor, epochs: seq<Epoch>, e: Epoch)
    requires ChainOk(c, anchor, epochs) && EpochOk(c, anchor, e) && e.body.number == |epochs|
    requires epochs != [] ==> LinkOk(c, anchor, epochs[|epochs| - 1], e)
    ensures ChainOk(c, anchor, epochs + [e])
  {
    hide EpochOk, LinkOk;
    var longer := epochs + [e];
    assert AnchorOk(c, anchor);
    assert longer[0] == if epochs == [] then e else epochs[0];
    assert |longer| <= EpochLimit by { EpochParts(c, anchor, e); }
    forall i {:trigger longer[i]} | 0 < i < |longer| ensures LinkOk(c, anchor, longer[i - 1], longer[i]) {
      if i < |epochs| { ChainLink(c, anchor, epochs, i); }
    }
  }

  lemma AdoptingKeepsInv(c: Crypto, me: Card, g: Group, e: Epoch)
    requires Inv(c, me.id, g) && Follows(c, g, e) && g.record.frozen.None?
    ensures Inv(c, me.id, Adopting(me, g, e))
  {
    hide EpochOk, ChainOk, LinkOk, SnapshotAt, InvitationInv, Indexed, AdmittedSince, FenceOk;
    var h := Adopting(me, g, e);
    AdoptingGrows(c, me, g, e);
    NextNumber(c, g, e);
    ChainExtends(c, g.record.anchor, Epochs(g), e);
    if h.record.admitted.Some? {
      var k :| AdmittedSince(c, me.id, g, k);
      assert Header(h, HeadNumber(h)) == Some(e);
      AdmissionGrows(c, me.id, g, h, k);
    }
    if g.record.left.Some? { FenceStays(c, me.id, g, h, g.record.left.value); }
    InvitationOnly(c, me.id, g.record, h.record);
  }

  lemma NextNumber(c: Crypto, g: Group, e: Epoch)
    requires ChainInv(c, g) && Follows(c, g, e)
    ensures e.body.number == |Epochs(g)| && (Epochs(g) != [] ==> LinkOk(c, g.record.anchor, Epochs(g)[|Epochs(g)| - 1], e))
  {
    hide EpochOk, ChainOk;
    if g.record.head.Some? {
      LinkParts(c, g.record.anchor, g.record.head.value, e);
      HeadIsLast(g);
    }
  }

  lemma InvitationOnly(c: Crypto, id: Id, r: Record, q: Record)
    requires InvitationInv(c, id, r) && q.anchor == r.anchor
    requires q.invitation == r.invitation && q.invitationParent == r.invitationParent
    requires q.invitationCard == r.invitationCard && q.consent == r.consent
    ensures InvitationInv(c, id, q)
  {
    hide InvitationOk, ConsentOk;
  }

  /** Changing nothing but the reason for being frozen, or lifting it. */
  lemma FreezingKeepsInv(c: Crypto, id: Id, g: Group, h: Group)
    requires Inv(c, id, g) && h == g.(record := g.record.(frozen := h.record.frozen))
    requires h.record.frozen.Some? ==> FreezeOk(c, g, h.record.frozen.value)
    ensures Inv(c, id, h) && Grows(g, h) && Epochs(h) == Epochs(g)
  {
    hide EpochOk, ChainOk, LinkOk, SnapshotAt, FenceOk, InvitationInv;
    assert forall n :: Header(h, n) == Header(g, n);
    assert Epochs(h) == Epochs(g);
    InvitationOnly(c, id, g.record, h.record);
    if g.record.admitted.Some? {
      var k :| AdmittedSince(c, id, g, k);
      AdmissionGrows(c, id, g, h, k);
    }
  }

  lemma ChallengeKeepsInv(c: Crypto, id: Id, g: Group, e: Epoch)
    requires c.Injective() && Inv(c, id, g) && EpochOk(c, g.record.anchor, e) && Rival(g, e.body.number).Some?
    ensures var h := Challenge(c, g, Rival(g, e.body.number).value, e).0; Inv(c, id, h) && Grows(g, h) && Epochs(h) == Epochs(g)
  {
    hide EpochOk, ChainOk, LinkOk, AdmissionInv, InvitationInv, FenceOk, Keyed, c.Injective;
    var rival := Rival(g, e.body.number).value;
    var (h, step) := Challenge(c, g, rival, e);
    if step.Frozen? {
      RivalPlace(c, id, g, e.body.number);
      EpochParts(c, g.record.anchor, e);
      EpochParts(c, g.record.anchor, rival);
      FreezingKeepsInv(c, id, g, h);
    } else {
      FreezingKeepsInv(c, id, g, g);
    }
  }

  /** The epoch a newcomer is compared with is verified, has its number, and hangs from the same retained parent. */
  lemma RivalPlace(c: Crypto, id: Id, g: Group, n: int)
    requires Inv(c, id, g) && Rival(g, n).Some?
    ensures var rival := Rival(g, n).value;
      && EpochOk(c, g.record.anchor, rival) && rival.body.number == n
      && (n > 0 ==> Header(g, n - 1).Some? && rival.body.previous == Some(Header(g, n - 1).value.id))
  {
    hide EpochOk, ChainOk, AdmissionInv, InvitationInv, FenceOk, Keyed;
    var rival := Rival(g, n).value;
    if Header(g, n) == Some(rival) {
      ChainNumbers(c, g, n);
      if n > 0 {
        ParentOnChain(c, g, n);
      }
    } else {
      LinkParts(c, g.record.anchor, g.record.head.value, rival);
      HeadIsLast(g);
    }
  }

  lemma AppendKeepsInv(c: Crypto, me: Card, g: Group, e: Epoch, room: bool)
    requires c.Injective() && Inv(c, me.id, g)
    ensures var h := Append(c, me, g, e, room).0; Inv(c, me.id, h) && Grows(g, h)
  {
    hide EpochOk, LinkOk, Inv, Indexed, Adopting, Challenge, Rival, Grows, c.Injective;
    var (h, step) := Append(c, me, g, e, room);
    if h == g {
      InvGrows(c, me.id, g);
    } else if Rival(g, e.body.number).Some? {
      ChallengeKeepsInv(c, me.id, g, e);
    } else if step.Adopted? {
      AdoptingKeepsInv(c, me, g, e);
      AdoptingGrows(c, me, g, e);
    } else {
      NoRoomKeepsInv(c, me, g, e);
    }
  }

  lemma NoRoomKeepsInv(c: Crypto, me: Card, g: Group, e: Epoch)
    requires Inv(c, me.id, g) && g.record.head.Some? && LinkOk(c, g.record.anchor, g.record.head.value, e)
    ensures var h := Freezing(g, NoRoomForHeader(e)); Inv(c, me.id, h) && Grows(g, h)
  {
    hide EpochOk, LinkOk, ChainOk, AdmissionInv, InvitationInv, FenceOk, Keyed, Grows, Indexed;
    FreezingKeepsInv(c, me.id, g, Freezing(g, NoRoomForHeader(e)));
  }

  lemma InvGrows(c: Crypto, id: Id, g: Group)
    requires Inv(c, id, g)
    ensures Grows(g, g)
  {
  }

  lemma {:induction false} PageKeepsInv(c: Crypto, me: Card, g: Group, proofs: seq<Proof>)
    requires c.Injective() && Inv(c, me.id, g)
    ensures var h := ObservePage(c, me, g, proofs).group; Inv(c, me.id, h) && Grows(g, h)
    decreases |proofs|
  {
    hide Inv, Append, Grows, c.Injective;
    InvGrows(c, me.id, g);
    if proofs != [] && proofs[0].epoch.Some? {
      var (h, step) := Append(c, me, g, proofs[0].epoch.value, proofs[0].room);
      AppendKeepsInv(c, me, g, proofs[0].epoch.value, proofs[0].room);
      if step.Adopted? || step.Duplicate? {
        PageKeepsInv(c, me, h, proofs[1..]);
        GrowsOver(g, h, ObservePage(c, me, h, proofs[1..]).group);
      }
    }
  }

  // Storing and checking private snapshots

  /** Nothing but marks on the record differs: the chain and the store are the same. */
  ghost predicate SameStore(g: Group, h: Group) {
    && h.headers == g.headers && h.snapshots == g.snapshots
    && h.record.head == g.record.head && h.record.anchor == g.record.anchor
  }

  lemma SameStoreGrows(c: Crypto, id: Id, g: Group, h: Group)
    requires Inv(c, id, g) && SameStore(g, h)
    ensures Grows(g, h) && Grows(h, g) && Epochs(h) == Epochs(g) && ChainInv(c, h) && Keyed(c, h.snapshots)
    ensures forall n :: Header(h, n) == Header(g, n)
  {
    hide ChainOk, Keyed, AdmissionInv, InvitationInv, MarksInv;
    assert forall n :: Header(h, n) == Header(g, n);
    assert Epochs(h) == Epochs(g);
  }

  lemma SameMarks(c: Crypto, id: Id, g: Group, h: Group)
    requires Inv(c, id, g) && Indexed(h) && Grows(g, h) && HeadNumber(h) == HeadNumber(g)
    requires h.record.title.Some? ==> TitleOk(h.record.title.value)
    requires h.record.left.Some? ==> h.record.left == g.record.left
    requires h.record.frozen.Some? ==> h.record.frozen == g.record.frozen
    ensures MarksInv(c, id, h)
  {
    hide EpochOk, LinkOk, ChainOk, Keyed, AdmissionInv, InvitationInv, FenceOk, LeaveOk;
    if h.record.left.Some? { FenceStays(c, id, g, h, h.record.left.value); }
    if h.record.frozen.Some? && h.record.frozen.value.NoRoomForSnapshot? {
      HeadersStay(g, h, h.record.frozen.value.observed.body.number);
    }
    if h.record.head.Some? || g.record.head.Some? {
      HeadIsLast(h);
      HeadIsLast(g);
    }
  }

  lemma StoringKeepsInv(c: Crypto, id: Id, g: Group, e: Epoch, s: Snapshot)
    requires c.Injective() && Inv(c, id, g) && c.hash(SnapshotDoc(s)) == e.body.snapshotHash
    ensures var h := Storing(g, e, s); Inv(c, id, h) && Grows(g, h) && Epochs(h) == Epochs(g)
  {
    hide ChainOk, AdmittedSince, MarksInv, InvitationInv;
    var h := Storing(g, e, s);
    assert forall n :: Header(h, n) == Header(g, n);
    assert Epochs(h) == Epochs(g);
    SameDocument(c, g, e.body.snapshotHash, s);
    MarksBound(c, id, g);
    SameMarks(c, id, g, h);
    if g.record.admitted.Some? {
      var k :| AdmittedSince(c, id, g, k);
      AdmissionGrows(c, id, g, h, k);
    }
  }

  lemma SameDocument(c: Crypto, g: Group, hash: Id, s: Snapshot)
    requires c.Injective() && Keyed(c, g.snapshots) && c.hash(SnapshotDoc(s)) == hash
    ensures hash in g.snapshots ==> g.snapshots[hash] == s
  {
    if hash in g.snapshots {
      assert c.hash(SnapshotDoc(g.snapshots[hash])) == c.hash(SnapshotDoc(s));
    }
  }

  /** An epoch of the chain whose stored snapshot passes its checks. */
  ghost predicate Verified(c: Crypto, g: Group, e: Epoch, s: Snapshot)
    requires Indexed(g)
  {
    e in Epochs(g) && SnapshotAt(c, g, e) == Found(s)
  }

  lemma OnChain(c: Crypto, g: Group, e: Epoch)
    requires ChainInv(c, g) && e in Epochs(g)
    ensures 0 <= e.body.number <= HeadNumber(g) && Epochs(g)[e.body.number] == e && Header(g, e.body.number) == Some(e)
    ensures EpochOk(c, g.record.anchor, e)
  {
    hide EpochOk, ChainOk;
    var n :| 0 <= n < |Epochs(g)| && Epochs(g)[n] == e;
    ChainNumbers(c, g, n);
  }

  lemma TitleFits(c: Crypto, g: Group, e: Epoch, s: Snapshot)
    requires SnapshotAt(c, g, e) == Found(s)
    ensures TitleOk(s.title) && SnapshotOk(c, s, g.record.anchor, e)
  {
  }

  lemma AdmittingKeepsInv(c: Crypto, me: Card, g: Group, e: Epoch, s: Snapshot)
    requires Inv(c, me.id, g) && Verified(c, g, e, s) && StaysFrom(c, me, g, e.body.number)
    ensures var h := Admitting(c, me, g, e); Inv(c, me.id, h) && Grows(g, h) && SameStore(g, h)
    ensures AdmittedSince(c, me.id, Admitting(c, me, g, e), e.body.number)
  {
    hide ChainOk, SnapshotAt, Keyed, MarksInv, EpochOk, Grows, Indexed, AdmissionInv;
    var h := Admitting(c, me, g, e);
    SameStoreGrows(c, me.id, g, h);
    OnChain(c, g, e);
    FoundStays(c, g, h, e);
    AdmittedHere(c, me, g, h, e);
    assert AdmissionInv(c, me.id, h) by { AdmittedNow(c, me.id, h, e.body.number); }
    MarksBound(c, me.id, g);
    SameMarks(c, me.id, g, h);
  }

  lemma AdmittedNow(c: Crypto, id: Id, h: Group, k: int)
    requires Indexed(h) && h.record.admitted.Some? && h.record.checked.Some? && AdmittedSince(c, id, h, k)
    requires h.record.everJoined && h.record.left.None?
    ensures AdmissionInv(c, id, h)
  {
    hide AdmittedSince;
  }

  lemma MarksBound(c: Crypto, id: Id, g: Group)
    requires Inv(c, id, g)
    ensures g.record.title.Some? ==> TitleOk(g.record.title.value)
  {
    hide ChainInv, Keyed, AdmissionInv, InvitationInv, FenceOk, FreezeOk;
  }

  lemma AdmittedHere(c: Crypto, me: Card, g: Group, h: Group, e: Epoch)
    requires Indexed(g) && Indexed(h) && SameStore(g, h) && Epochs(h) == Epochs(g)
    requires 0 <= e.body.number <= HeadNumber(g) && Epochs(g)[e.body.number] == e
    requires StaysFrom(c, me, g, e.body.number) && SnapshotAt(c, h, e).Found?
    requires h.record.admitted == Some(Admission(c.CardHash(me), e.id)) && h.record.checked == Some(e.body.number)
    ensures AdmittedSince(c, me.id, h, e.body.number)
  {
    hide SnapshotAt;
    assert forall n :: Header(h, n) == Header(g, n);
  }

  lemma CheckingKeepsInv(c: Crypto, id: Id, g: Group, n: int, s: Snapshot)
    requires Inv(c, id, g) && g.record.admitted.Some? && g.record.checked == Some(n - 1) && 0 <= n <= HeadNumber(g)
    requires SnapshotAt(c, g, Epochs(g)[n]) == Found(s)
    ensures var h := Checking(g, n, s.title); Inv(c, id, h) && Grows(g, h) && SameStore(g, h)
  {
    hide ChainOk, SnapshotAt, Keyed, MarksInv, EpochOk, Grows, Indexed, InvitationInv;
    var h := Checking(g, n, s.title);
    SameStoreGrows(c, id, g, h);
    TitleFits(c, g, Epochs(g)[n], s);
    SameMarks(c, id, g, h);
    InvitationOnly(c, id, g.record, h.record);
    var k :| AdmittedSince(c, id, g, k);
    forall m | k <= m <= n ensures SnapshotAt(c, h, Epochs(h)[m]).Found? {
      FoundStays(c, g, h, Epochs(g)[m]);
    }
    assert AdmittedSince(c, id, h, k);
  }

  /** Only the cursor and the title may differ. */
  ghost predicate OnlyCursor(g: Group, h: Group) {
    h == g.(record := g.record.(checked := h.record.checked, title := h.record.title))
  }

  ghost predicate Advances(c: Crypto, id: Id, g: Group, h: Option<Group>) {
    h.Some? ==> OnlyCursor(g, h.value) && Inv(c, id, h.value)
  }

  lemma {:induction false} AdvanceKeepsInv(c: Crypto, id: Id, g: Group, n: int)
    requires Inv(c, id, g) && g.record.admitted.Some? && g.record.checked == Some(n - 1) && 0 <= n
    ensures Advances(c, id, g, AdvanceFrom(c, g, n))
    decreases HeadNumber(g) - n
  {
    hide Inv, SnapshotAt, Grows, ChainInv, Indexed, Keyed, Advances;
    OnlyCursorNow(c, id, g);
    if n <= HeadNumber(g) && Header(g, n).Some? && SnapshotAt(c, g, Header(g, n).value).Found? {
      var s := SnapshotAt(c, g, Header(g, n).value).snapshot;
      InvIndexed(c, id, g);
      CheckingKeepsInv(c, id, g, n, s);
      AdvanceKeepsInv(c, id, Checking(g, n, s.title), n + 1);
      OnlyCursorMoves(c, id, g, n, s.title, AdvanceFrom(c, Checking(g, n, s.title), n + 1));
    }
  }

  lemma OnlyCursorNow(c: Crypto, id: Id, g: Group)
    requires Inv(c, id, g)
    ensures Advances(c, id, g, Some(g)) && Advances(c, id, g, None)
  {
    hide Inv;
  }

  lemma OnlyCursorMoves(c: Crypto, id: Id, g: Group, n: int, title: Texts.Text, h: Option<Group>)
    requires Advances(c, id, Checking(g, n, title), h)
    ensures Advances(c, id, g, h)
  {
    hide Inv;
  }

  lemma InvIndexed(c: Crypto, id: Id, g: Group)
    requires Inv(c, id, g)
    ensures ChainInv(c, g) && Indexed(g) && Keyed(c, g.snapshots)
    ensures g.record.admitted.Some? ==> g.record.checked.Some? && 0 <= g.record.checked.value <= HeadNumber(g)
    ensures g.record.admitted.Some? ==> g.record.left.None? && g.record.everJoined
    ensures g.record.admitted.None? ==> g.record.checked.None?
  {
    hide ChainOk, Keyed, MarksInv, InvitationInv, SnapshotAt, Indexed;
  }

  lemma AdvanceCheckedKeepsInv(c: Crypto, id: Id, g: Group)
    requires Inv(c, id, g)
    ensures Advances(c, id, g, AdvanceChecked(c, g))
    ensures AdvanceChecked(c, g).Some? ==> Grows(g, AdvanceChecked(c, g).value) && SameStore(g, AdvanceChecked(c, g).value)
  {
    hide Inv, Grows, AdvanceFrom, ChainInv, Indexed, Keyed;
    InvIndexed(c, id, g);
    if g.record.admitted.Some? { AdvanceKeepsInv(c, id, g, g.record.checked.value + 1); }
    if AdvanceChecked(c, g).Some? { SameStoreGrows(c, id, g, AdvanceChecked(c, g).value); }
  }

  lemma ApplyKeepsInv(c: Crypto, me: Card, g: Group, e: Epoch, s: Snapshot)
    requires Inv(c, me.id, g) && Verified(c, g, e, s)
    ensures ApplyOwnConsent(c, me, g, e, s).Some? ==>
      var h := ApplyOwnConsent(c, me, g, e, s).value; Inv(c, me.id, h) && Grows(g, h) && SameStore(g, h)
  {
    hide Inv, Grows, Verified, HasParent, ConsentOk, HoldsCard, HoldsJoin;
    InvGrows(c, me.id, g);
    if ApplyOwnConsent(c, me, g, e, s) == Some(Admitting(c, me, g, e)) && StaysFrom(c, me, g, e.body.number) {
      AdmittingKeepsInv(c, me, g, e, s);
    }
  }

  lemma RetitlingKeepsInv(c: Crypto, id: Id, g: Group, title: Texts.Text)
    requires Inv(c, id, g) && TitleOk(title)
    ensures var h := g.(record := g.record.(title := Some(title))); Inv(c, id, h) && Grows(g, h) && SameStore(g, h)
  {
    hide ChainOk, SnapshotAt, Keyed, MarksInv, EpochOk, Grows, Indexed, InvitationInv, AdmittedSince;
    var h := g.(record := g.record.(title := Some(title)));
    SameStoreGrows(c, id, g, h);
    SameMarks(c, id, g, h);
    InvitationOnly(c, id, g.record, h.record);
    if g.record.admitted.Some? {
      var k :| AdmittedSince(c, id, g, k);
      AdmissionGrows(c, id, g, h, k);
    }
  }

  lemma AbsorbKeepsInv(c: Crypto, me: Card, g: Group, e: Epoch, s: Snapshot)
    requires Inv(c, me.id, g) && Verified(c, g, e, s)
    ensures Absorb(c, me, g, e, s).Some? ==> var h := Absorb(c, me, g, e, s).value; Inv(c, me.id, h) && Grows(g, h) && SameStore(g, h)
  {
    hide Inv, Grows, AdvanceChecked, ApplyOwnConsent, SnapshotAt, Indexed, SnapshotOk;
    ApplyKeepsInv(c, me, g, e, s);
    var applied := ApplyOwnConsent(c, me, g, e, s);
    if applied.Some? {
      AdvanceCheckedKeepsInv(c, me.id, applied.value);
      var advanced := AdvanceChecked(c, applied.value);
      if advanced.Some? {
        GrowsOver(g, applied.value, advanced.value);
        TitleFits(c, g, e, s);
        RetitlingKeepsInv(c, me.id, advanced.value, s.title);
        GrowsOver(g, advanced.value, Absorb(c, me, g, e, s).value);
      }
    }
  }

  lemma ObserveSnapshotKeepsInv(c: Crypto, me: Card, g: Group, epochId: Id, s: Snapshot, room: bool)
    requires c.Injective() && Inv(c, me.id, g)
    ensures ObserveSnapshot(c, me, g, epochId, s, room).Some? ==>
      var h := ObserveSnapshot(c, me, g, epochId, s, room).value; Inv(c, me.id, h) && Grows(g, h)
  {
    hide Inv, Grows, Absorb, CheckedSnapshot, FindEpoch, HasCard, Indexed, c.Injective, Verified;
    if ObserveSnapshot(c, me, g, epochId, s, room).Some? {
      InvIndexed(c, me.id, g);
      FoundIsOnChain(c, g, epochId);
      var e := FindEpoch(g, epochId).value;
      var hash := e.body.snapshotHash;
      OnChain(c, g, e);
      if !(hash in g.snapshots && g.snapshots[hash] == s) && !room {
        FullKeepsInv(c, me.id, g, e);
      } else {
        CheckedIsHash(c, g, e, s);
        StoringKeepsInv(c, me.id, g, e, s);
        var stored := Storing(g, e, s);
        if hash in g.snapshots && g.snapshots[hash] == s { assert stored == g; }
        FreezingKeepsInv(c, me.id, stored, Thawing(stored));
        GrowsOver(g, stored, Thawing(stored));
        StoredIsVerified(c, g, Thawing(stored), e, s);
        AbsorbKeepsInv(c, me, Thawing(stored), e, s);
        if Absorb(c, me, Thawing(stored), e, s).Some? {
          GrowsOver(g, Thawing(stored), Absorb(c, me, Thawing(stored), e, s).value);
        }
      }
    }
  }

  lemma FoundIsOnChain(c: Crypto, g: Group, id: Id)
    requires ChainInv(c, g) && FindEpoch(g, id).Some?
    ensures FindEpoch(g, id).value in Epochs(g) && FindEpoch(g, id).value.id == id
  {
    hide ChainOk;
    FoundOnChain(g, id, 0);
  }

  lemma FullKeepsInv(c: Crypto, id: Id, g: Group, e: Epoch)
    requires Inv(c, id, g) && Header(g, e.body.number) == Some(e)
    ensures var h := Freezing(g, NoRoomForSnapshot(e)); Inv(c, id, h) && Grows(g, h)
  {
    hide EpochOk, LinkOk, ChainOk, AdmissionInv, InvitationInv, FenceOk, Keyed, Grows;
    FreezingKeepsInv(c, id, g, Freezing(g, NoRoomForSnapshot(e)));
  }

  lemma CheckedIsHash(c: Crypto, g: Group, e: Epoch, s: Snapshot)
    requires CheckedSnapshot(c, g, e, s)
    ensures c.hash(SnapshotDoc(s)) == e.body.snapshotHash && TitleOk(s.title)
  {
  }

  lemma StoredIsVerified(c: Crypto, g: Group, h: Group, e: Epoch, s: Snapshot)
    requires Grows(g, h) && e in Epochs(g) && CheckedSnapshot(c, g, e, s)
    requires e.body.snapshotHash in h.snapshots && h.snapshots[e.body.snapshotHash] == s
    ensures Indexed(h) && Verified(c, h, e, s)
  {
    hide SnapshotOk, TransitionOk, LinkOk, Indexed;
    if e.body.number != 0 { HeadersStay(g, h, e.body.number - 1); }
  }

  // The remaining operations

  lemma ResumeKeepsInv(c: Crypto, me: Card, g: Group, room: bool)
    requires c.Injective() && Inv(c, me.id, g)
    ensures ResumeCapacity(c, me, g, room).Some? ==>
      var h := ResumeCapacity(c, me, g, room).value; Inv(c, me.id, h) && Grows(g, h)
  {
    hide Inv, Grows, Append, c.Injective;
    InvGrows(c, me.id, g);
    if g.record.frozen.Some? && g.record.frozen.value.NoRoomForHeader? {
      FreezingKeepsInv(c, me.id, g, Thawing(g));
      var o := g.record.frozen.value.observed;
      AppendKeepsInv(c, me, Thawing(g), o, room);
      GrowsOver(g, Thawing(g), Append(c, me, Thawing(g), o, room).0);
    }
  }

  /** Anchors with one id verify the same epochs. */
  lemma SameAnchor(c: Crypto, a: Anchor, b: Anchor, i: Invitation, parent: Epoch, invitee: Card)
    requires c.Injective() && AnchorOk(c, b) && a.id == b.id && InvitationOk(c, i, a, parent, invitee)
    ensures InvitationOk(c, i, b, parent, invitee)
  {
    hide RosterOk, PlaceOk, FirstOk;
    assert c.hash(AnchorDoc(a.body)) == c.hash(AnchorDoc(b.body));
  }

  lemma InvariantAnchor(c: Crypto, id: Id, g: Group)
    requires Inv(c, id, g)
    ensures AnchorOk(c, g.record.anchor)
  {
    hide Keyed, MarksInv, InvitationInv, AdmissionInv, Indexed, AnchorOk;
  }

  /** Operations that touch only the invitation, the consent and the fence. */
  lemma InvitationChange(c: Crypto, id: Id, g: Group, h: Group)
    requires Inv(c, id, g) && SameStore(g, h) && InvitationInv(c, id, h.record)
    requires h.record.title == g.record.title && h.record.frozen == g.record.frozen && h.record.left == g.record.left
    requires h.record.admitted == g.record.admitted && h.record.checked == g.record.checked
    requires h.record.everJoined == g.record.everJoined
    ensures Inv(c, id, h) && Grows(g, h)
  {
    hide ChainOk, SnapshotAt, Keyed, MarksInv, EpochOk, Grows, Indexed, InvitationInv, AdmittedSince;
    SameStoreGrows(c, id, g, h);
    MarksBound(c, id, g);
    SameMarks(c, id, g, h);
    if g.record.admitted.Some? {
      var k :| AdmittedSince(c, id, g, k);
      AdmissionGrows(c, id, g, h, k);
    }
  }

  lemma RememberKeepsInv(c: Crypto, me: Card, g: Group, anchor: Anchor, parent: Epoch, invitation: Invitation)
    requires c.Injective() && Inv(c, me.id, g)
    ensures RememberInvitation(c, me, g, anchor, parent, invitation).Some? ==>
      var h := RememberInvitation(c, me, g, anchor, parent, invitation).value; Inv(c, me.id, h) && Grows(g, h)
  {
    hide Inv, Grows, InvitationOk, c.Injective;
    var next := RememberInvitation(c, me, g, anchor, parent, invitation);
    if next.Some? {
      InvariantAnchor(c, me.id, g);
      SameAnchor(c, anchor, g.record.anchor, invitation, parent, me);
      InvitationChange(c, me.id, g, next.value);
    }
  }

  lemma AcceptKeepsInv(c: Crypto, me: Card, g: Group, expected: Id, consent: Consent)
    requires c.Injective() && Inv(c, me.id, g)
    ensures Accept(c, me, g, expected, consent).Some? ==>
      var h := Accept(c, me, g, expected, consent).value; Inv(c, me.id, h) && Grows(g, h)
  {
    hide Inv, Grows, InvitationOk, ConsentOk, c.Injective, InvitationInv, HasCard;
    var next := Accept(c, me, g, expected, consent);
    if next.Some? {
      HasInvitation(c, me.id, g);
      ConsentFits(c, me, g.record, g.record.head.value, consent);
      InvitationChange(c, me.id, g, next.value);
    }
  }

  lemma HasInvitation(c: Crypto, id: Id, g: Group)
    requires Inv(c, id, g)
    ensures InvitationInv(c, id, g.record)
  {
  }

  /** The remembered invitation is for the head itself and for the local card, so the consent answers it. */
  lemma ConsentFits(c: Crypto, me: Card, r: Record, head: Epoch, consent: Consent)
    requires c.Injective() && InvitationInv(c, me.id, r) && r.invitation.Some?
    requires InvitationOk(c, r.invitation.value, r.anchor, head, me) && ConsentOk(c, consent, r.anchor, head, me)
    requires consent.body.invitation == r.invitation.value.id
    ensures InvitationInv(c, me.id, r.(consent := Some(consent)))
  {
    hide EpochOk, ConsentBodyOk;
    assert c.hash(CardDoc(me)) == c.hash(CardDoc(r.invitationCard.value));
  }

  lemma LeaveKeepsInv(c: Crypto, me: Card, g: Group, request: Leave, nonce: Nonce)
    requires Inv(c, me.id, g)
    ensures LeaveGroup(c, me, g, request, nonce).Some? ==>
      var h := LeaveGroup(c, me, g, request, nonce).value; Inv(c, me.id, h) && Grows(g, h)
  {
    hide ChainOk, Keyed, MarksInv, Grows, Indexed, LeaveOk, FenceOk, NewFence, FreezeOk;
    var next := LeaveGroup(c, me, g, request, nonce);
    if next.Some? {
      var h := next.value;
      SameStoreGrows(c, me.id, g, h);
      MarksBound(c, me.id, g);
      if g.record.left.Some? {
        SameMarks(c, me.id, g, h);
      } else {
        var lowered := h.(record := h.record.(left := None));
        SameStoreGrows(c, me.id, g, lowered);
        SameMarks(c, me.id, g, lowered);
        NewFenceOk(c, me, g, request, nonce);
        RaisingFence(c, me.id, lowered, h);
      }
    }
  }

  lemma RaisingFence(c: Crypto, id: Id, g: Group, h: Group)
    requires Indexed(g) && MarksInv(c, id, g) && h == g.(record := g.record.(left := h.record.left)) && h.record.left.Some?
    requires FenceOk(c, id, g.record.anchor, Epochs(g), h.record.left.value)
    ensures Indexed(h) && MarksInv(c, id, h)
  {
    hide FenceOk, EpochOk, LinkOk;
    assert forall n :: Header(h, n) == Header(g, n);
    assert Epochs(h) == Epochs(g);
  }

  lemma NewFenceOk(c: Crypto, me: Card, g: Group, request: Leave, nonce: Nonce)
    requires Inv(c, me.id, g) && NewFence(c, me, g, request, nonce).Some?
    ensures FenceOk(c, me.id, g.record.anchor, Epochs(g), NewFence(c, me, g, request, nonce).value)
  {
    hide ChainOk, Keyed, MarksInv, AdmissionInv, InvitationInv, LeaveOk, HasCard;
    if g.record.head.Some? { HeadIsLast(g); }
  }

  /** Appending a proper successor to an unfrozen chain adopts it, unless there is no room for its header. */
  lemma AppendSuccessor(c: Crypto, me: Card, g: Group, e: Epoch, room: bool)
    requires Inv(c, me.id, g) && IsOpen(g) && LinkOk(c, g.record.anchor, g.record.head.value, e)
    ensures Append(c, me, g, e, room) ==
      if e.body.open && !room then (Freezing(g, NoRoomForHeader(e)), Frozen) else (Adopting(me, g, e), Adopted)
    ensures Follows(c, g, e)
  {
    hide EpochOk, ChainOk, Keyed, MarksInv, AdmissionInv, InvitationInv, Challenge;
    LinkParts(c, g.record.anchor, g.record.head.value, e);
  }

  lemma CloseKeepsInv(c: Crypto, me: Card, g: Group, expected: Id, next: Epoch, room: bool)
    requires c.Injective() && Inv(c, me.id, g)
    ensures CloseGroup(c, me, g, expected, next, room).Some? ==>
      var h := CloseGroup(c, me, g, expected, next, room).value; Inv(c, me.id, h) && Grows(g, h)
  {
    hide Inv, Grows, Append, AdvanceChecked, LinkOk, c.Injective;
    if CloseGroup(c, me, g, expected, next, room).Some? {
      var (h, step) := Append(c, me, g, next, room);
      AppendKeepsInv(c, me, g, next, room);
      AdvanceCheckedKeepsInv(c, me.id, h);
      GrowsOver(g, h, AdvanceChecked(c, h).value);
    }
  }

  lemma CommitKeepsInv(
      c: Crypto, me: Card, g: Group, expected: Id, next: Epoch, after: Snapshot, room: bool, roomAfter: bool)
    requires c.Injective() && Inv(c, me.id, g)
    ensures Commit(c, me, g, expected, next, after, room, roomAfter).Some? ==>
      var h := Commit(c, me, g, expected, next, after, room, roomAfter).value; Inv(c, me.id, h) && Grows(g, h)
  {
    hide Inv, Grows, Append, AdvanceChecked, ApplyOwnConsent, TransitionOk, SnapshotAt, c.Injective, Adopting;
    if Commit(c, me, g, expected, next, after, room, roomAfter).Some? {
      TransitionParts(c, g.record.anchor, g.record.head.value, next, after);
      AppendSuccessor(c, me, g, next, room);
      CommittedIsVerified(c, me, g, next, after);
      var grown := Adopting(me, g, next);
      var ready := Ready(grown, next, after);
      ApplyKeepsInv(c, me, ready, next, after);
      var applied := ApplyOwnConsent(c, me, ready, next, after).value;
      AdvanceCheckedKeepsInv(c, me.id, applied);
      GrowsOver(g, ready, applied);
      GrowsOver(g, applied, AdvanceChecked(c, applied).value);
    }
  }

  function Ready(grown: Group, next: Epoch, after: Snapshot): Group {
    var stored := Storing(grown, next, after);
    stored.(record := stored.record.(title := Some(after.title)))
  }

  lemma TransitionParts(c: Crypto, anchor: Anchor, parent: Epoch, next: Epoch, after: Snapshot)
    requires TransitionOk(c, anchor, parent, next, after)
    ensures LinkOk(c, anchor, parent, next) && SnapshotOk(c, after, anchor, next)
    ensures c.hash(SnapshotDoc(after)) == next.body.snapshotHash && TitleOk(after.title)
  {
  }

  /** A committed successor is stored beside the snapshot it commits to. */
  lemma CommittedIsVerified(c: Crypto, me: Card, g: Group, next: Epoch, after: Snapshot)
    requires c.Injective() && Inv(c, me.id, g) && IsOpen(g) && TransitionOk(c, g.record.anchor, g.record.head.value, next, after)
    ensures var h := Ready(Adopting(me, g, next), next, after); Inv(c, me.id, h) && Grows(g, h) && Verified(c, h, next, after)
  {
    hide Inv, Grows, LinkOk, TransitionOk, SnapshotOk, c.Injective;
    var head := g.record.head.value;
    TransitionParts(c, g.record.anchor, head, next, after);
    AppendSuccessor(c, me, g, next, true);
    AdoptingGrows(c, me, g, next);
    AdoptingKeepsInv(c, me, g, next);
    var grown := Adopting(me, g, next);
    StoringKeepsInv(c, me.id, grown, next, after);
    var stored := Storing(grown, next, after);
    GrowsOver(g, grown, stored);
    RetitlingKeepsInv(c, me.id, stored, after.title);
    var h := Ready(grown, next, after);
    GrowsOver(g, stored, h);
    InvIndexed(c, me.id, g);
    LastIsVerified(c, me.id, g, h, head, next, after);
  }

  lemma LastIsVerified(c: Crypto, id: Id, g: Group, h: Group, head: Epoch, next: Epoch, after: Snapshot)
    requires ChainInv(c, g) && g.record.head == Some(head) && Grows(g, h) && Inv(c, id, h)
    requires h.record.head == Some(next) && TransitionOk(c, g.record.anchor, head, next, after)
    requires next.body.snapshotHash in h.snapshots && h.snapshots[next.body.snapshotHash] == after
    ensures Verified(c, h, next, after)
  {
    hide EpochOk, ChainOk, Keyed, MarksInv, AdmissionInv, InvitationInv, SnapshotOk, ConsentsMatch;
    HeadIsLast(g);
    HeadIsLast(h);
    HeadersStay(g, h, HeadNumber(g));
  }

  lemma StartsInv(c: Crypto, s: State)
    requires Starts(c, s)
    ensures Inv(c, s.me.id, s.group)
  {
    hide EpochOk;
    var g := s.group;
    if anchor: Anchor, parent: Epoch, invitation: Invitation :|
      InvitationOk(c, invitation, anchor, parent, s.me) && g == Invitee(anchor, parent, invitation, s.me) {
      EpochParts(c, anchor, parent);
    } else {
      var anchor: Anchor, first: Epoch, snapshot: Snapshot :|
        anchor.body.creator == s.me && first.body.number == 0 && SnapshotOk(c, snapshot, anchor, first)
        && g == Founder(c, anchor, first, snapshot, s.me);
      FounderInv(c, anchor, first, snapshot, s.me);
    }
  }

  lemma FounderInv(c: Crypto, anchor: Anchor, first: Epoch, s: Snapshot, me: Card)
    requires anchor.body.creator == me && first.body.number == 0 && SnapshotOk(c, s, anchor, first)
    ensures Inv(c, me.id, Founder(c, anchor, first, s, me))
  {
    hide EpochOk;
    var g := Founder(c, anchor, first, s, me);
    EpochParts(c, anchor, first);
    FirstHoldsCreator(c, anchor, first);
    assert Header(g, 0) == Some(first);
    assert Indexed(g);
    assert Epochs(g) == [first];
    assert ChainOk(c, anchor, Epochs(g));
    assert SnapshotAt(c, g, first) == Found(s);
    assert AdmittedSince(c, me.id, g, 0);
  }

  lemma FirstHoldsCreator(c: Crypto, anchor: Anchor, first: Epoch)
    requires EpochOk(c, anchor, first) && first.body.number == 0
    ensures first.body.open && Member(anchor.body.creator.id, c.CardHash(anchor.body.creator)) in first.body.members
  {
    assert Named(first.body.members, anchor.body.creator.id);
  }

  /** Every operation keeps the invariant and only ever adds to the retained chain and the stored snapshots. */
  lemma AttemptKeepsInv(c: Crypto, me: Card, g: Group, e: Event)
    requires c.Injective() && Inv(c, me.id, g)
    ensures Attempt(c, me, g, e).Some? ==> var h := Attempt(c, me, g, e).value; Inv(c, me.id, h) && Grows(g, h)
  {
    hide Inv, Grows, Observe, ObserveSnapshot, ResumeCapacity, RememberInvitation, Accept, Commit, CloseGroup, LeaveGroup;
    hide c.Injective;
    InvGrows(c, me.id, g);
    match e
    case NewCard(_) =>
    case SeeHeaders(proofs) => HeadersKeepInv(c, me, g, proofs);
    case SeeSnapshot(id, s, room) => ObserveSnapshotKeepsInv(c, me, g, id, s, room);
    case Resume(room) => ResumeKeepsInv(c, me, g, room);
    case Invited(anchor, parent, invitation) => RememberKeepsInv(c, me, g, anchor, parent, invitation);
    case Accepting(expected, consent) => AcceptKeepsInv(c, me, g, expected, consent);
    case Committing(expected, next, after, room, more) =>
      CommitKeepsInv(c, me, g, expected, next, after, room, more);
    case Closing(expected, closed, room) => CloseKeepsInv(c, me, g, expected, closed, room);
    case Leaving(request, nonce) => LeaveKeepsInv(c, me, g, request, nonce);
  }

  lemma HeadersKeepInv(c: Crypto, me: Card, g: Group, proofs: seq<Proof>)
    requires c.Injective() && Inv(c, me.id, g)
    ensures var h := Observe(c, me, g, proofs); Inv(c, me.id, h) && Grows(g, h)
  {
    hide Inv, Grows, ObservePage, c.Injective;
    InvGrows(c, me.id, g);
    PageKeepsInv(c, me, g, proofs);
  }
}

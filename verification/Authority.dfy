/** What one member's registry records about one group, and how each operation changes it. */
module Authority {
  import opened Common
  import Texts
  import opened Groups

  datatype Admission = Admission(cardHash: Id, epochId: Id)

  /** The local decision to leave. It stands until a later consent is honoured. */
  datatype Fence = Fence(epochId: Option<Id>, nonce: Nonce, request: Option<Leave>, card: Option<Card>)

  datatype Freeze =
    | Forked(first: Epoch, second: Epoch)
    | NoRoomForHeader(observed: Epoch)
    | NoRoomForSnapshot(observed: Epoch)

  datatype Record = Record(
    anchor: Anchor, head: Option<Epoch>, title: Option<Texts.Text>, everJoined: bool,
    admitted: Option<Admission>, checked: Option<int>,
    invitation: Option<Invitation>, invitationParent: Option<Epoch>, invitationCard: Option<Card>,
    consent: Option<Consent>, left: Option<Fence>, frozen: Option<Freeze>)

  /** The record with the open headers and private snapshots stored beside it. */
  datatype Group = Group(record: Record, headers: map<int, Epoch>, snapshots: map<Id, Snapshot>)

  datatype Status =
    | IsForked | IsFull | Closed | HasLeft | AwaitingProof | Joining | Removed | CardChanged | AwaitingSnapshot | Active

  /** `Failed` is an error that aborts the transaction; `Invalid` only rejects the proof. */
  datatype Step = Adopted | Duplicate | Frozen | MissingProof | Invalid | Failed

  datatype Lookup = Missing | Corrupt | Found(snapshot: Snapshot)

  function Header(g: Group, n: int): Option<Epoch> {
    if n in g.headers then Some(g.headers[n])
    else if g.record.head.Some? && !g.record.head.value.body.open && g.record.head.value.body.number == n then g.record.head
    else None
  }

  predicate HasCard(e: Option<Epoch>, id: Id, cardHash: Id) {
    e.Some? && Member(id, cardHash) in e.value.body.members
  }

  /** The retained epoch that this one names as its parent, properly linked. */
  predicate HasParent(c: Crypto, g: Group, e: Epoch) {
    var p := Header(g, e.body.number - 1);
    p.Some? && e.body.previous == Some(p.value.id) && LinkOk(c, g.record.anchor, p.value, e)
  }

  ghost predicate CheckedSnapshot(c: Crypto, g: Group, e: Epoch, s: Snapshot) {
    && SnapshotOk(c, s, g.record.anchor, e)
    && (e.body.number != 0 ==>
          HasParent(c, g, e) && TransitionOk(c, g.record.anchor, Header(g, e.body.number - 1).value, e, s))
  }

  ghost function SnapshotAt(c: Crypto, g: Group, e: Epoch): Lookup {
    if e.body.snapshotHash !in g.snapshots then Missing
    else if CheckedSnapshot(c, g, e, g.snapshots[e.body.snapshotHash]) then Found(g.snapshots[e.body.snapshotHash])
    else Corrupt
  }

  function HeadNumber(g: Group): int {
    if g.record.head.Some? then g.record.head.value.body.number else -1
  }

  function FindFrom(g: Group, id: Id, n: int): Option<Epoch>
    decreases HeadNumber(g) - n
  {
    if n > HeadNumber(g) then None
    else if Header(g, n).Some? && Header(g, n).value.id == id then Header(g, n)
    else FindFrom(g, id, n + 1)
  }

  function FindEpoch(g: Group, id: Id): Option<Epoch> {
    FindFrom(g, id, 0)
  }

  // Observing headers

  /** What an observed epoch is compared with: the evidence of a full store first, then the retained header. */
  function Rival(g: Group, number: int): Option<Epoch> {
    match g.record.frozen
    case Some(NoRoomForHeader(o)) => if o.body.number == number then Some(o) else Header(g, number)
    case Some(NoRoomForSnapshot(o)) => if o.body.number == number then Some(o) else Header(g, number)
    case _ => Header(g, number)
  }

  function Freezing(g: Group, f: Freeze): Group {
    g.(record := g.record.(frozen := Some(f)))
  }

  function Adopting(me: Card, g: Group, e: Epoch): Group {
    var r := g.record;
    var stays := r.admitted.Some? && HasCard(Some(e), me.id, r.admitted.value.cardHash);
    Group(
      r.(head := Some(e), admitted := if stays then r.admitted else None,
         checked := if r.admitted.Some? && !stays then None else r.checked),
      if e.body.open then g.headers[e.body.number := e] else g.headers,
      g.snapshots)
  }

  function Challenge(c: Crypto, g: Group, rival: Epoch, e: Epoch): (Group, Step) {
    var p := Header(g, e.body.number - 1);
    if rival.id == e.id then (g, Duplicate)
    else if e.body.number > 0 && !(p.Some? && e.body.previous == Some(p.value.id)) then (g, MissingProof)
    else if e.body.number > 0 && !LinkOk(c, g.record.anchor, p.value, e) then (g, Invalid)
    else (Freezing(g, Forked(rival, e)), Frozen)
  }

  function Extend(c: Crypto, me: Card, g: Group, e: Epoch, room: bool): (Group, Step) {
    var head := g.record.head;
    if head.Some? && (e.body.number != head.value.body.number + 1 || e.body.previous != Some(head.value.id)) then (g, MissingProof)
    else if head.Some? && !LinkOk(c, g.record.anchor, head.value, e) then (g, Invalid)
    else if head.None? && e.body.number != 0 then (g, MissingProof)
    else if e.body.open && !room then
      if head.None? then (g, Failed) else (Freezing(g, NoRoomForHeader(e)), Frozen)
    else (Adopting(me, g, e), Adopted)
  }

  /** Offers one epoch certificate to the group. `room` is whether the store takes one more header. */
  function Append(c: Crypto, me: Card, g: Group, e: Epoch, room: bool): (Group, Step) {
    if !EpochOk(c, g.record.anchor, e) then (g, Invalid)
    else if g.record.frozen.Some? && g.record.frozen.value.Forked? then (g, Frozen)
    else if Rival(g, e.body.number).Some? then Challenge(c, g, Rival(g, e.body.number).value, e)
    else if g.record.frozen.Some? then (g, Frozen)
    else Extend(c, me, g, e, room)
  }

  /** One item of a page: a certificate, or nothing where it could not be decoded. */
  datatype Proof = Proof(epoch: Option<Epoch>, room: bool)

  datatype Page = Page(group: Group, accepted: nat, missing: bool, rejected: bool, failed: bool)

  /** A page of proofs, in order, up to the first one that is invalid, freezes the group or lacks its parent. */
  function ObservePage(c: Crypto, me: Card, g: Group, proofs: seq<Proof>): Page
    decreases |proofs|
  {
    if proofs == [] then Page(g, 0, false, false, false)
    else if proofs[0].epoch.None? then Page(g, 0, false, true, false)
    else
      var (next, step) := Append(c, me, g, proofs[0].epoch.value, proofs[0].room);
      match step
      case Adopted => var rest := ObservePage(c, me, next, proofs[1..]); rest.(accepted := rest.accepted + 1)
      case Duplicate => ObservePage(c, me, next, proofs[1..])
      case Frozen => Page(next, 0, false, false, false)
      case MissingProof => Page(next, 0, true, false, false)
      case Invalid => Page(next, 0, false, true, false)
      case Failed => Page(next, 0, false, false, true)
  }

  ghost function Observe(c: Crypto, me: Card, g: Group, proofs: seq<Proof>): Group {
    var page := ObservePage(c, me, g, proofs);
    if page.failed then g else page.group
  }

  // Observing private snapshots

  predicate HoldsCard(c: Crypto, s: Snapshot, me: Card) {
    exists m :: m in s.members && m.id == me.id && c.CardHash(m) == c.CardHash(me)
  }

  predicate HoldsJoin(s: Snapshot, id: Id) {
    exists j :: 0 <= j < |s.joins| && s.joins[j].id == id
  }

  predicate StaysFrom(c: Crypto, me: Card, g: Group, n: int) {
    forall k :: n <= k <= HeadNumber(g) ==> HasCard(Header(g, k), me.id, c.CardHash(me))
  }

  function Admitting(c: Crypto, me: Card, g: Group, e: Epoch): Group {
    g.(record := g.record.(
      admitted := Some(Admission(c.CardHash(me), e.id)), checked := Some(e.body.number), everJoined := true, left := None,
      invitation := None, invitationParent := None, invitationCard := None, consent := None))
  }

  /** Honours the pending consent when this snapshot carries it. Nothing is an error that aborts the transaction. */
  function ApplyOwnConsent(c: Crypto, me: Card, g: Group, e: Epoch, s: Snapshot): Option<Group> {
    if g.record.consent.None? || g.record.head.None? || !HoldsJoin(s, g.record.consent.value.id) then Some(g)
    else if !HoldsCard(c, s, me) || e.body.number == 0 || !HasParent(c, g, e) then None
    else if !ConsentOk(c, g.record.consent.value, g.record.anchor, Header(g, e.body.number - 1).value, me) then None
    else if !StaysFrom(c, me, g, e.body.number) then Some(g)
    else Some(Admitting(c, me, g, e))
  }

  function Checking(g: Group, n: int, title: Texts.Text): Group {
    g.(record := g.record.(checked := Some(n), title := Some(title)))
  }

  /** Moves the cursor over every next epoch whose private snapshot is stored and passes its checks. */
  ghost function AdvanceFrom(c: Crypto, g: Group, n: int): Option<Group>
    decreases HeadNumber(g) - n
  {
    if n > HeadNumber(g) then Some(g)
    else if Header(g, n).None? then None
    else
      match SnapshotAt(c, g, Header(g, n).value)
      case Missing => Some(g)
      case Corrupt => None
      case Found(s) => AdvanceFrom(c, Checking(g, n, s.title), n + 1)
  }

  ghost function AdvanceChecked(c: Crypto, g: Group): Option<Group> {
    if g.record.admitted.None? || g.record.checked.None? || g.record.head.None? then Some(g)
    else AdvanceFrom(c, g, g.record.checked.value + 1)
  }

  function Storing(g: Group, e: Epoch, s: Snapshot): Group {
    g.(snapshots := g.snapshots[e.body.snapshotHash := s])
  }

  function Thawing(g: Group): Group {
    g.(record := g.record.(frozen := None))
  }

  function Labelling(g: Group, e: Epoch, s: Snapshot): Group {
    if g.record.admitted.Some? && g.record.head.Some? && g.record.head.value.id == e.id && g.record.checked == Some(HeadNumber(g))
    then g.(record := g.record.(title := Some(s.title)))
    else g
  }

  /** What follows once a verified snapshot is in the store. */
  ghost function Absorb(c: Crypto, me: Card, g: Group, e: Epoch, s: Snapshot): Option<Group> {
    var applied := ApplyOwnConsent(c, me, g, e, s);
    if applied.None? then None else
      var advanced := AdvanceChecked(c, applied.value);
      if advanced.None? then None else Some(Labelling(advanced.value, e, s))
  }

  /** Whether the record is ready to be shown the private snapshot of this epoch. */
  predicate AcceptsSnapshot(c: Crypto, me: Card, g: Group, epochId: Id) {
    var r := g.record;
    && (r.frozen.Some? ==> r.frozen.value.NoRoomForSnapshot? && r.frozen.value.observed.id == epochId)
    && FindEpoch(g, epochId).Some? && HasCard(FindEpoch(g, epochId), me.id, c.CardHash(me))
    && (r.admitted.Some? || r.consent.Some?)
  }

  ghost function ObserveSnapshot(c: Crypto, me: Card, g: Group, epochId: Id, s: Snapshot, room: bool): Option<Group> {
    if !AcceptsSnapshot(c, me, g, epochId) || !CheckedSnapshot(c, g, FindEpoch(g, epochId).value, s) then None
    else
      var e := FindEpoch(g, epochId).value;
      var hash := e.body.snapshotHash;
      var stored := hash in g.snapshots && g.snapshots[hash] == s;
      if !stored && !room then Some(Freezing(g, NoRoomForSnapshot(e)))
      else Absorb(c, me, Thawing(if stored then g else Storing(g, e, s)), e, s)
  }

  function ResumeCapacity(c: Crypto, me: Card, g: Group, room: bool): Option<Group> {
    match g.record.frozen
    case Some(NoRoomForSnapshot(_)) => Some(g)
    case Some(NoRoomForHeader(o)) =>
      var (next, step) := Append(c, me, Thawing(g), o, room);
      if step.Invalid? || step.Failed? then None else Some(next)
    case _ => None
  }

  // Local operations

  predicate IsOpen(g: Group) {
    g.record.frozen.None? && g.record.head.Some? && g.record.head.value.body.open
  }

  predicate IsOwner(me: Card, g: Group, expected: Id, allChecked: bool) {
    var creator := g.record.anchor.body.creator;
    && creator.id == me.id && creator.signKey == me.signKey
    && IsOpen(g) && g.record.head.value.id == expected
    && (allChecked ==> g.record.checked == Some(HeadNumber(g)))
  }

  function RememberInvitation(c: Crypto, me: Card, g: Group, anchor: Anchor, parent: Epoch, invitation: Invitation): Option<Group> {
    if !InvitationOk(c, invitation, anchor, parent, me) || anchor.id != g.record.anchor.id then None
    else if g.record.frozen.Some? || (g.record.head.Some? && !g.record.head.value.body.open) then None
    else Some(g.(record := g.record.(
      invitation := Some(invitation), invitationParent := Some(parent), invitationCard := Some(me), consent := None)))
  }

  /** `consent` is the freshly signed certificate. */
  function Accept(c: Crypto, me: Card, g: Group, expected: Id, consent: Consent): Option<Group> {
    var r := g.record;
    if !IsOpen(g) || r.head.value.id != expected || r.invitation.None? then None
    else if HasCard(r.head, me.id, c.CardHash(me)) then None
    else if !InvitationOk(c, r.invitation.value, r.anchor, r.head.value, me) then None
    else if !ConsentOk(c, consent, r.anchor, r.head.value, me) || consent.body.invitation != r.invitation.value.id then None
    else Some(g.(record := r.(consent := Some(consent))))
  }

  /** `next` and `after` are the freshly signed successor; the two flags say whether the store has room for each. */
  ghost function Commit(
      c: Crypto, me: Card, g: Group, expected: Id, next: Epoch, after: Snapshot, room: bool, roomAfter: bool): Option<Group>
  {
    if !IsOwner(me, g, expected, true) then None
    else if !SnapshotAt(c, g, g.record.head.value).Found? then None
    else if !next.body.open || !TransitionOk(c, g.record.anchor, g.record.head.value, next, after) then None
    else
      var (grown, step) := Append(c, me, g, next, room);
      if step.Invalid? || step.Failed? || grown.record.frozen.Some? || !roomAfter then None
      else
        var stored := Storing(grown, next, after);
        var applied := ApplyOwnConsent(c, me, stored.(record := stored.record.(title := Some(after.title))), next, after);
        if applied.None? then None else AdvanceChecked(c, applied.value)
  }

  ghost function CloseGroup(c: Crypto, me: Card, g: Group, expected: Id, next: Epoch, room: bool): Option<Group> {
    if !IsOwner(me, g, expected, false) then None
    else if next.body.open || !LinkOk(c, g.record.anchor, g.record.head.value, next) then None
    else
      var (grown, step) := Append(c, me, g, next, room);
      if step.Invalid? || step.Failed? || grown.record.frozen.Some? then None else AdvanceChecked(c, grown)
  }

  /** The fence `Leave` raises: with a signed request where the local card is on an open head. */
  function NewFence(c: Crypto, me: Card, g: Group, request: Leave, nonce: Nonce): Option<Fence> {
    var head := g.record.head;
    var at := if head.Some? then Some(head.value.id) else None;
    if head.Some? && head.value.body.open && HasCard(head, me.id, c.CardHash(me)) then
      if LeaveOk(c, request, g.record.anchor, head.value, me) then Some(Fence(at, request.body.nonce, Some(request), Some(me)))
      else None
    else Some(Fence(at, nonce, None, None))
  }

  function LeaveGroup(c: Crypto, me: Card, g: Group, request: Leave, nonce: Nonce): Option<Group> {
    var r := g.record;
    if r.anchor.body.creator.id == me.id then None
    else
      var fence := if r.left.Some? then r.left else NewFence(c, me, g, request, nonce);
      if fence.None? then None
      else Some(g.(record := r.(
        left := fence, admitted := None, checked := None,
        invitation := None, invitationParent := None, invitationCard := None, consent := None)))
  }

  /** What the registry shows. Nothing is an integrity error. */
  ghost function StatusOf(c: Crypto, me: Card, g: Group): Option<Status> {
    var r := g.record;
    if r.frozen.Some? then Some(if r.frozen.value.Forked? then IsForked else IsFull)
    else if r.head.Some? && !r.head.value.body.open then Some(Closed)
    else if r.left.Some? then Some(HasLeft)
    else if r.head.None? then Some(AwaitingProof)
    else if r.admitted.None? then Some(if r.consent.Some? || !r.everJoined then Joining else Removed)
    else if r.admitted.value.cardHash != c.CardHash(me) then Some(CardChanged)
    else if r.checked != Some(HeadNumber(g)) then Some(AwaitingSnapshot)
    else
      match SnapshotAt(c, g, r.head.value)
      case Missing => Some(AwaitingSnapshot)
      case Corrupt => None
      case Found(_) => Some(Active)
  }

  // Runs

  /** The registry's view of one group, with the card the member currently uses. */
  datatype State = State(me: Card, group: Group)

  datatype Event =
    | NewCard(card: Card)
    | SeeHeaders(proofs: seq<Proof>)
    | SeeSnapshot(epochId: Id, snapshot: Snapshot, room: bool)
    | Resume(room: bool)
    | Invited(anchor: Anchor, parent: Epoch, invitation: Invitation)
    | Accepting(expected: Id, consent: Consent)
    | Committing(expected: Id, next: Epoch, after: Snapshot, room: bool, roomAfter: bool)
    | Closing(expected: Id, closed: Epoch, room: bool)
    | Leaving(request: Leave, nonce: Nonce)

  /** The new group, or nothing where the operation fails and its transaction is abandoned. */
  ghost function Attempt(c: Crypto, me: Card, g: Group, e: Event): Option<Group> {
    match e
    case NewCard(_) => Some(g)
    case SeeHeaders(proofs) => Some(Observe(c, me, g, proofs))
    case SeeSnapshot(id, s, room) => ObserveSnapshot(c, me, g, id, s, room)
    case Resume(room) => ResumeCapacity(c, me, g, room)
    case Invited(anchor, parent, invitation) => RememberInvitation(c, me, g, anchor, parent, invitation)
    case Accepting(expected, consent) => Accept(c, me, g, expected, consent)
    case Committing(expected, next, after, room, roomAfter) => Commit(c, me, g, expected, next, after, room, roomAfter)
    case Closing(expected, closed, room) => CloseGroup(c, me, g, expected, closed, room)
    case Leaving(request, nonce) => LeaveGroup(c, me, g, request, nonce)
  }

  ghost function Apply(c: Crypto, s: State, e: Event): State {
    var next := Attempt(c, s.me, s.group, e);
    State(if e.NewCard? && e.card.id == s.me.id && c.validCard(e.card) then e.card else s.me,
          if next.Some? then next.value else s.group)
  }

  ghost function After(c: Crypto, s: State, events: seq<Event>): State {
    if events == [] then s else Apply(c, After(c, s, events[..|events| - 1]), events[|events| - 1])
  }

  /** The two ways a record begins: an invitation to an unknown group, or a group of one's own. */
  function Invitee(anchor: Anchor, parent: Epoch, invitation: Invitation, me: Card): Group {
    Group(Record(anchor, None, None, false, None, None, Some(invitation), Some(parent), Some(me), None, None, None), map[], map[])
  }

  function Founder(c: Crypto, anchor: Anchor, first: Epoch, s: Snapshot, me: Card): Group {
    Group(
      Record(anchor, Some(first), Some(s.title), true, Some(Admission(c.CardHash(me), first.id)), Some(0),
             None, None, None, None, None, None),
      map[0 := first], map[first.body.snapshotHash := s])
  }

  ghost predicate Starts(c: Crypto, s: State) {
    && c.validCard(s.me)
    && ((exists anchor: Anchor, parent: Epoch, invitation: Invitation ::
           InvitationOk(c, invitation, anchor, parent, s.me) && s.group == Invitee(anchor, parent, invitation, s.me))
        || (exists anchor: Anchor, first: Epoch, snapshot: Snapshot ::
              && anchor.body.creator == s.me && first.body.number == 0 && SnapshotOk(c, snapshot, anchor, first)
              && s.group == Founder(c, anchor, first, snapshot, s.me)))
  }
}

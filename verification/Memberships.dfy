/** What a registry's record amounts to, down to the signatures kept with it, and that joining, committing,
    closing and leaving have the outcome their members wait for. */
module Memberships {
  import opened Common
  import Texts
  import opened Groups
  import opened GroupProofs
  import opened Authority
  import opened AuthorityProofs
  import AR = AuthorityRuns

  // Evidence

  /** The creator of the group signed this epoch. */
  predicate Signed(c: Crypto, anchor: Anchor, e: Epoch) {
    e.body.group == anchor.id && e.id == c.hash(EpochDoc(e.body)) && c.signed(EpochDoc(e.body), e.signature, anchor.body.creator.signKey)
  }

  lemma ValidIsSigned(c: Crypto, anchor: Anchor, e: Epoch)
    requires EpochOk(c, anchor, e)
    ensures Signed(c, anchor, e)
  {
    EpochExactly(c, anchor, e);
  }

  /** Whatever a registry was shown, it keeps only epochs its group's creator signed, each naming the one before
      by hash, and says that the creator forked the group only with two such epochs in hand. */
  lemma EverythingKeptIsSigned(c: Crypto, s: State, events: seq<Event>)
    requires c.Injective() && Starts(c, s)
    ensures var g := After(c, s, events).group;
      && g.record.anchor == s.group.record.anchor
      && (g.record.head.Some? ==> Signed(c, g.record.anchor, g.record.head.value))
      && (forall n :: n in g.headers ==> Signed(c, g.record.anchor, g.headers[n]) && g.headers[n].body.number == n)
      && (forall n, m :: n in g.headers && m == n + 1 && m in g.headers ==> g.headers[m].body.previous == Some(g.headers[n].id))
    ensures var r := After(c, s, events).group.record;
      r.frozen.Some? && r.frozen.value.Forked? ==> IsFork(c, r.anchor, r.frozen.value.first, r.frozen.value.second)
  {
    hide Inv, After, Starts, Grows, Signed, IsFork, c.Injective;
    StartsInv(c, s);
    AR.RunKeepsInv(c, s, events);
    var g := After(c, s, events).group;
    SameAnchorGrows(s.group, g);
    KeptAreSigned(c, s.me.id, g);
    ForkIsSigned(c, s.me.id, g);
  }

  lemma SameAnchorGrows(g: Group, h: Group)
    requires Grows(g, h)
    ensures h.record.anchor == g.record.anchor
  {
    hide Indexed;
  }

  predicate IsFork(c: Crypto, anchor: Anchor, a: Epoch, b: Epoch) {
    Signed(c, anchor, a) && Signed(c, anchor, b) && a.id != b.id && a.body.number == b.body.number && a.body.previous == b.body.previous
  }

  lemma KeptAreSigned(c: Crypto, id: Id, g: Group)
    requires Inv(c, id, g)
    ensures g.record.head.Some? ==> Signed(c, g.record.anchor, g.record.head.value)
    ensures forall n :: n in g.headers ==> Signed(c, g.record.anchor, g.headers[n]) && g.headers[n].body.number == n
    ensures forall n, m :: n in g.headers && m == n + 1 && m in g.headers ==> g.headers[m].body.previous == Some(g.headers[n].id)
  {
    hide Inv, EpochOk, LinkOk, ChainOk, Signed;
    InvIndexed(c, id, g);
    if g.record.head.Some? {
      HeadIsLast(g);
      ChainNumbers(c, g, HeadNumber(g));
      ValidIsSigned(c, g.record.anchor, g.record.head.value);
    }
    forall n | n in g.headers ensures Signed(c, g.record.anchor, g.headers[n]) && g.headers[n].body.number == n {
      assert Header(g, n).Some?;
      ChainNumbers(c, g, n);
      ValidIsSigned(c, g.record.anchor, g.headers[n]);
    }
    forall n, m | n in g.headers && m == n + 1 && m in g.headers ensures g.headers[m].body.previous == Some(g.headers[n].id) {
      assert Header(g, n).Some? && Header(g, m).Some?;
      ChainLink(c, g.record.anchor, Epochs(g), m);
      LinkParts(c, g.record.anchor, Epochs(g)[n], Epochs(g)[m]);
    }
  }

  lemma ForkIsSigned(c: Crypto, id: Id, g: Group)
    requires Inv(c, id, g)
    ensures g.record.frozen.Some? && g.record.frozen.value.Forked? ==>
      IsFork(c, g.record.anchor, g.record.frozen.value.first, g.record.frozen.value.second)
  {
    hide EpochOk, ChainOk, Keyed, AdmissionInv, InvitationInv, FenceOk, Indexed, Signed;
    if g.record.frozen.Some? && g.record.frozen.value.Forked? {
      ValidIsSigned(c, g.record.anchor, g.record.frozen.value.first);
      ValidIsSigned(c, g.record.anchor, g.record.frozen.value.second);
    }
  }

  // Status

  /** Neither frozen nor closed. */
  predicate Running(r: Record) {
    r.frozen.None? && (r.head.Some? ==> r.head.value.body.open)
  }

  /** The ten answers, each with exactly when it is given; one of them always is. */
  lemma StatusExactly(c: Crypto, me: Card, g: Group)
    requires Inv(c, me.id, g)
    ensures var r, shown := g.record, StatusOf(c, me, g);
      && (shown == Some(IsForked) <==> r.frozen.Some? && r.frozen.value.Forked?)
      && (shown == Some(IsFull) <==> r.frozen.Some? && !r.frozen.value.Forked?)
      && (shown == Some(Closed) <==> r.frozen.None? && r.head.Some? && !r.head.value.body.open)
      && (shown == Some(HasLeft) <==> Running(r) && r.left.Some?)
      && (shown == Some(AwaitingProof) <==> Running(r) && r.left.None? && r.head.None?)
    ensures var r, shown := g.record, StatusOf(c, me, g);
      var outside := Running(r) && r.left.None? && r.head.Some? && r.admitted.None?;
      && (shown == Some(Joining) <==> outside && (r.consent.Some? || !r.everJoined))
      && (shown == Some(Removed) <==> outside && r.consent.None? && r.everJoined)
    ensures var r, shown := g.record, StatusOf(c, me, g);
      var inside := Running(r) && r.head.Some? && r.admitted.Some? && r.checked.Some?;
      && (shown == Some(CardChanged) <==> inside && r.admitted.value.cardHash != c.hash(CardDoc(me)))
      && (shown == Some(AwaitingSnapshot) <==>
            inside && r.admitted.value.cardHash == c.hash(CardDoc(me)) && r.checked.value < r.head.value.body.number)
      && (shown == Some(Active) <==>
            inside && r.admitted.value.cardHash == c.hash(CardDoc(me)) && r.checked.value == r.head.value.body.number)
  {
    hide Inv, SnapshotAt, Indexed, Keyed, ChainInv;
    InvIndexed(c, me.id, g);
    AR.ActiveExactly(c, me, g);
    if g.record.admitted.Some? { AdmittedHasHead(c, me.id, g); }
  }

  lemma AdmittedHasHead(c: Crypto, id: Id, g: Group)
    requires Inv(c, id, g) && g.record.admitted.Some?
    ensures g.record.head.Some? && g.record.left.None?
    ensures g.record.checked.Some? && 0 <= g.record.checked.value <= g.record.head.value.body.number
  {
    hide Keyed, MarksInv, InvitationInv, ChainOk, SnapshotAt, HasCard;
  }

  /** What is kept of an active member's history: from the admitting epoch to the head, every epoch is open,
      lists this very card, and has its private snapshot in store, verified against the epoch before. */
  ghost predicate HistoryKept(c: Crypto, me: Card, g: Group, k: nat)
    requires Indexed(g)
  {
    && k <= HeadNumber(g)
    && forall n :: k <= n <= HeadNumber(g) ==> EpochKept(c, me, g, n)
  }

  ghost predicate EpochKept(c: Crypto, me: Card, g: Group, n: nat)
    requires Indexed(g) && n <= HeadNumber(g)
  {
    var e := Epochs(g)[n];
    && e.body.open && Member(me.id, c.hash(CardDoc(me))) in e.body.members
    && e.body.snapshotHash in g.snapshots
    && SnapshotOk(c, g.snapshots[e.body.snapshotHash], g.record.anchor, e)
    && (n > 0 ==> TransitionOk(c, g.record.anchor, Epochs(g)[n - 1], e, g.snapshots[e.body.snapshotHash]))
  }

  lemma ActiveHistory(c: Crypto, me: Card, g: Group)
    requires Inv(c, me.id, g) && StatusOf(c, me, g) == Some(Active)
    ensures exists k: nat :: HistoryKept(c, me, g, k) && Epochs(g)[k].id == g.record.admitted.value.epochId
  {
    hide Inv, SnapshotAt, Indexed, Keyed, ChainInv, EpochKept, PathOk, HistoryKept, HasCard;
    InvIndexed(c, me.id, g);
    AR.ActiveExactly(c, me, g);
    AR.ActiveMeansVerified(c, me, g);
    var k :| AR.VerifiedHistory(c, me, g, k) && Epochs(g)[k].id == g.record.admitted.value.epochId;
    VerifiedIsKept(c, me, g, k);
  }

  lemma VerifiedIsKept(c: Crypto, me: Card, g: Group, k: int)
    requires ChainInv(c, g) && AR.VerifiedHistory(c, me, g, k)
    ensures 0 <= k && HistoryKept(c, me, g, k)
  {
    hide SnapshotAt, Indexed, ChainOk, EpochKept;
    forall n | k <= n <= HeadNumber(g) ensures EpochKept(c, me, g, n) {
      FoundIsKept(c, me, g, n);
    }
  }

  lemma FoundIsKept(c: Crypto, me: Card, g: Group, n: nat)
    requires ChainInv(c, g) && n <= HeadNumber(g) && SnapshotAt(c, g, Epochs(g)[n]).Found?
    requires Epochs(g)[n].body.open && Member(me.id, c.CardHash(me)) in Epochs(g)[n].body.members
    ensures EpochKept(c, me, g, n)
  {
    hide SnapshotOk, TransitionOk, ChainOk, Indexed, LinkOk;
    ChainNumbers(c, g, n);
    if n > 0 { ParentOnChain(c, g, n); }
  }

  // The cursor

  /** The cursor moves over the private snapshots in store up to the first that is missing, and takes the last
      title; it gives up only where a stored one is not the snapshot its epoch commits to. */
  lemma {:induction false} CursorStops(c: Crypto, id: Id, g: Group, n: nat)
    requires Inv(c, id, g) && g.record.admitted.Some? && g.record.checked == Some(n - 1) && n <= HeadNumber(g) + 1
    ensures Indexed(g)
    ensures AdvanceFrom(c, g, n).Some? ==> var h := AdvanceFrom(c, g, n).value;
      && h == g.(record := g.record.(checked := h.record.checked, title := h.record.title))
      && h.record.checked.Some? && n - 1 <= h.record.checked.value <= HeadNumber(g)
      && (forall k :: n <= k <= h.record.checked.value ==> Epochs(g)[k].body.snapshotHash in g.snapshots)
      && (h.record.checked.value < HeadNumber(g) ==> Epochs(g)[h.record.checked.value + 1].body.snapshotHash !in g.snapshots)
      && (n <= h.record.checked.value ==> h.record.title == Some(g.snapshots[Epochs(g)[h.record.checked.value].body.snapshotHash].title))
      && (n > h.record.checked.value ==> h == g)
    ensures AdvanceFrom(c, g, n).None? ==>
      exists k :: n <= k <= HeadNumber(g) && Epochs(g)[k].body.snapshotHash in g.snapshots && !Fits(c, g, k)
    decreases HeadNumber(g) - n
  {
    hide Inv, Indexed, Keyed, ChainInv, Epochs, SnapshotAt, Fits;
    InvIndexed(c, id, g);
    if n <= HeadNumber(g) {
      LookupMeans(c, g, n);
      if SnapshotAt(c, g, Header(g, n).value).Found? {
        var s := SnapshotAt(c, g, Header(g, n).value).snapshot;
        var h := Checking(g, n, s.title);
        CheckingKeepsInv(c, id, g, n, s);
        CursorStops(c, id, h, n + 1);
        SameEpochs(g, h);
        if k :| n + 1 <= k <= HeadNumber(h) && Epochs(h)[k].body.snapshotHash in h.snapshots && !Fits(c, h, k) {
          SameFits(c, g, h, k);
        }
      }
    }
  }

  lemma SameEpochs(g: Group, h: Group)
    requires Indexed(g) && Indexed(h) && Grows(g, h) && SameStore(g, h)
    ensures Epochs(h) == Epochs(g) && HeadNumber(h) == HeadNumber(g) && h.snapshots == g.snapshots
  {
    hide Indexed;
  }

  /** The stored snapshot is the one epoch k commits to, and a proper step from the epoch before. */
  ghost predicate Fits(c: Crypto, g: Group, k: nat)
    requires Indexed(g) && k <= HeadNumber(g) && Epochs(g)[k].body.snapshotHash in g.snapshots
  {
    var e := Epochs(g)[k];
    && SnapshotOk(c, g.snapshots[e.body.snapshotHash], g.record.anchor, e)
    && (k > 0 ==> TransitionOk(c, g.record.anchor, Epochs(g)[k - 1], e, g.snapshots[e.body.snapshotHash]))
  }

  lemma SameFits(c: Crypto, g: Group, h: Group, k: nat)
    requires Indexed(g) && Indexed(h) && Epochs(g) == Epochs(h) && g.snapshots == h.snapshots && g.record.anchor == h.record.anchor
    requires k <= HeadNumber(g) && k <= HeadNumber(h) && Epochs(g)[k].body.snapshotHash in g.snapshots
    ensures Fits(c, g, k) == Fits(c, h, k)
  {
    hide SnapshotOk, TransitionOk, Indexed;
  }

  lemma LookupMeans(c: Crypto, g: Group, n: nat)
    requires ChainInv(c, g) && n <= HeadNumber(g)
    ensures var e := Epochs(g)[n];
      && Header(g, n) == Some(e)
      && SnapshotAt(c, g, e) ==
           if e.body.snapshotHash !in g.snapshots then Missing
           else if Fits(c, g, n) then Found(g.snapshots[e.body.snapshotHash]) else Corrupt
  {
    hide SnapshotOk, TransitionOk, ChainOk, Indexed, LinkOk;
    ChainNumbers(c, g, n);
    if n > 0 { ParentOnChain(c, g, n); }
  }

  // Joining, committing, closing and leaving

  predicate Listed(c: Crypto, me: Card, e: Epoch) {
    Member(me.id, c.hash(CardDoc(me))) in e.body.members
  }

  /** What one epoch offered to a registry does to it. */
  lemma AppendExactly(c: Crypto, me: Card, g: Group, e: Epoch, room: bool)
    requires Inv(c, me.id, g)
    ensures Indexed(g)
    ensures var (h, step) := Append(c, me, g, e, room);
      && (step.Adopted? <==>
            && EpochOk(c, g.record.anchor, e) && g.record.frozen.None?
            && e.body.number == |Epochs(g)| && (g.record.head.Some? ==> LinkOk(c, g.record.anchor, g.record.head.value, e))
            && (e.body.open ==> room))
      && (step.Adopted? ==>
            && h.record.head == Some(e) && Indexed(h) && Epochs(h) == Epochs(g) + [e]
            && h.snapshots == g.snapshots && h.record == g.record.(head := Some(e), admitted := h.record.admitted, checked := h.record.checked)
            && h.record.checked == (if h.record.admitted == g.record.admitted then g.record.checked else None)
            && h.record.admitted == (if g.record.admitted.Some? && Member(me.id, g.record.admitted.value.cardHash) in e.body.members then g.record.admitted else None))
      && (!step.Adopted? ==> h == g.(record := g.record.(frozen := h.record.frozen)))
  {
    hide EpochOk, LinkOk, ChainOk, Keyed, AdmissionInv, InvitationInv, FenceOk, Challenge;
    var (h, step) := Append(c, me, g, e, room);
    ChallengeKeeps(c, g, e);
    NextIsNew(c, me.id, g, e);
    if step.Adopted? {
      AdoptingGrows(c, me, g, e);
    }
  }

  lemma ChallengeKeeps(c: Crypto, g: Group, e: Epoch)
    ensures forall rival :: var (h, step) := Challenge(c, g, rival, e);
      !step.Adopted? && h == g.(record := g.record.(frozen := h.record.frozen))
  {
    hide LinkOk, HasCard;
  }

  lemma NextIsNew(c: Crypto, id: Id, g: Group, e: Epoch)
    requires Inv(c, id, g)
    ensures g.record.frozen.None? ==> (Rival(g, e.body.number).Some? <==> 0 <= e.body.number <= HeadNumber(g))
    ensures g.record.head.Some? && LinkOk(c, g.record.anchor, g.record.head.value, e) ==>
      EpochOk(c, g.record.anchor, e) && e.body.number == HeadNumber(g) + 1 && e.body.previous == Some(g.record.head.value.id)
    ensures EpochOk(c, g.record.anchor, e) ==> 0 <= e.body.number
  {
    hide ChainOk, Keyed, AdmissionInv, InvitationInv, FenceOk, AnchorOk, RosterOk, FirstOk;
  }

  /** A certificate for an epoch that is retained: the same one again, one whose parent is another, one that does not
      link, or proof of a fork, on the two. */
  lemma RetainedAgain(c: Crypto, me: Card, g: Group, e: Epoch, room: bool)
    requires Inv(c, me.id, g) && AR.NotForked(g) && EpochOk(c, g.record.anchor, e) && e.body.number <= HeadNumber(g)
    ensures Indexed(g) && 0 <= e.body.number < |Epochs(g)|
    ensures var n := e.body.number;
      Append(c, me, g, e, room) ==
        if Epochs(g)[n].id == e.id then (g, Duplicate)
        else if n > 0 && e.body.previous != Some(Epochs(g)[n - 1].id) then (g, MissingProof)
        else if n > 0 && !LinkOk(c, g.record.anchor, Epochs(g)[n - 1], e) then (g, Invalid)
        else (g.(record := g.record.(frozen := Some(Forked(Epochs(g)[n], e)))), Frozen)
  {
    hide EpochOk, LinkOk, Inv, Rival, Extend;
    NextIsNew(c, me.id, g, e);
    InvIndexed(c, me.id, g);
    var n := e.body.number;
    AR.RivalOnChain(c, me.id, g, n);
    BelowHead(g, n);
  }

  lemma BelowHead(g: Group, n: nat)
    requires Indexed(g) && n <= HeadNumber(g)
    ensures n > 0 ==> Header(g, n - 1) == Some(Epochs(g)[n - 1])
    ensures n == 0 ==> Header(g, n - 1).None?
  {
  }

  /** A certificate for a later epoch: out of order, not linked to the head, without room, or adopted. */
  lemma LaterEpoch(c: Crypto, me: Card, g: Group, e: Epoch, room: bool)
    requires Inv(c, me.id, g) && g.record.frozen.None? && EpochOk(c, g.record.anchor, e) && e.body.number > HeadNumber(g)
    ensures var (h, step) := Append(c, me, g, e, room);
      if g.record.head.None? then
        if e.body.number != 0 then step == MissingProof && h == g
        else if e.body.open && !room then step == Failed && h == g
        else step == Adopted
      else if e.body.number != HeadNumber(g) + 1 || e.body.previous != Some(g.record.head.value.id) then step == MissingProof && h == g
      else if !LinkOk(c, g.record.anchor, g.record.head.value, e) then step == Invalid && h == g
      else if e.body.open && !room then step == Frozen && h == g.(record := g.record.(frozen := Some(NoRoomForHeader(e))))
      else step == Adopted
  {
    hide EpochOk, LinkOk, Inv, Challenge;
    NextIsNew(c, me.id, g, e);
  }

  /** Evidence of a fork counts even while there is no room: another successor of the head than the one that found
      none freezes the group as forked, on those two; the same one changes nothing. */
  lemma ForkWhileFull(c: Crypto, me: Card, g: Group, e: Epoch, room: bool)
    requires Inv(c, me.id, g) && g.record.frozen.Some? && g.record.frozen.value.NoRoomForHeader?
    requires g.record.head.Some? && LinkOk(c, g.record.anchor, g.record.head.value, e)
    ensures var o := g.record.frozen.value.observed;
      Append(c, me, g, e, room) ==
        if e.id == o.id then (g, Duplicate) else (g.(record := g.record.(frozen := Some(Forked(o, e)))), Frozen)
  {
    hide EpochOk, ChainOk, Keyed, AdmissionInv, InvitationInv, FenceOk;
    LinkParts(c, g.record.anchor, g.record.head.value, e);
    LinkParts(c, g.record.anchor, g.record.head.value, g.record.frozen.value.observed);
  }

  /** Every item of the page could be decoded and was adopted or known. */
  predicate Smooth(c: Crypto, me: Card, g: Group, proofs: seq<Proof>)
    decreases |proofs|
  {
    proofs == [] ||
    (proofs[0].epoch.Some? &&
     var (h, step) := Append(c, me, g, proofs[0].epoch.value, proofs[0].room);
     (step.Adopted? || step.Duplicate?) && Smooth(c, me, h, proofs[1..]))
  }

  /** What one item that is neither adopted nor known makes of a page. */
  predicate StopsPage(c: Crypto, me: Card, before: Page, item: Proof, page: Page) {
    && page.accepted == before.accepted
    && if item.epoch.None? then page.group == before.group && page.rejected && !page.missing && !page.failed
       else
         var (h, step) := Append(c, me, before.group, item.epoch.value, item.room);
         && page.group == h && !step.Adopted? && !step.Duplicate?
         && (page.missing <==> step.MissingProof?) && (page.rejected <==> step.Invalid?) && (page.failed <==> step.Failed?)
  }

  /** A page counts up to its first item that is not adopted or known, and reports what became of that one: missing
      its parent, rejected, failed, or frozen on. */
  lemma {:induction false} PageStopsAt(c: Crypto, me: Card, g: Group, proofs: seq<Proof>) returns (k: nat)
    ensures k <= |proofs| && Smooth(c, me, g, proofs[..k])
    ensures var before := ObservePage(c, me, g, proofs[..k]); !before.missing && !before.rejected && !before.failed
    ensures k == |proofs| || StopsPage(c, me, ObservePage(c, me, g, proofs[..k]), proofs[k], ObservePage(c, me, g, proofs))
    decreases |proofs|
  {
    hide Append, StopsPage;
    k := 0;
    if proofs == [] {
    } else if proofs[0].epoch.None? {
      StopsNow(c, me, g, proofs);
    } else {
      var (h, step) := Append(c, me, g, proofs[0].epoch.value, proofs[0].room);
      if step.Adopted? || step.Duplicate? {
        var rest := PageStopsAt(c, me, h, proofs[1..]);
        k := rest + 1;
        assert proofs[..k][0] == proofs[0] && proofs[..k][1..] == proofs[1..][..rest];
        if k < |proofs| { StopsLater(c, me, g, proofs, h, rest); }
      } else {
        StopsNow(c, me, g, proofs);
      }
    }
  }

  lemma StopsNow(c: Crypto, me: Card, g: Group, proofs: seq<Proof>)
    requires proofs != []
    requires proofs[0].epoch.Some? ==>
      var step := Append(c, me, g, proofs[0].epoch.value, proofs[0].room).1; !step.Adopted? && !step.Duplicate?
    ensures StopsPage(c, me, ObservePage(c, me, g, proofs[..0]), proofs[0], ObservePage(c, me, g, proofs))
  {
    hide Append;
    assert proofs[..0] == [];
  }

  lemma StopsLater(c: Crypto, me: Card, g: Group, proofs: seq<Proof>, h: Group, rest: nat)
    requires proofs != [] && proofs[0].epoch.Some? && rest + 1 < |proofs|
    requires var (next, step) := Append(c, me, g, proofs[0].epoch.value, proofs[0].room); next == h && (step.Adopted? || step.Duplicate?)
    requires StopsPage(c, me, ObservePage(c, me, h, proofs[1..][..rest]), proofs[rest + 1], ObservePage(c, me, h, proofs[1..]))
    ensures StopsPage(c, me, ObservePage(c, me, g, proofs[..rest + 1]), proofs[rest + 1], ObservePage(c, me, g, proofs))
  {
    hide Append;
    assert proofs[..rest + 1][0] == proofs[0] && proofs[..rest + 1][1..] == proofs[1..][..rest];
  }

  /** An invitation is remembered, and a consent forgotten, exactly when it is for this group and card and
      the group goes on. */
  lemma InvitationRememberedExactly(c: Crypto, me: Card, g: Group, anchor: Anchor, parent: Epoch, invitation: Invitation)
    ensures RememberInvitation(c, me, g, anchor, parent, invitation).Some? <==>
      InvitationOk(c, invitation, anchor, parent, me) && anchor.id == g.record.anchor.id && Running(g.record)
    ensures RememberInvitation(c, me, g, anchor, parent, invitation).Some? ==>
      var h := RememberInvitation(c, me, g, anchor, parent, invitation).value;
      h == g.(record := g.record.(
        invitation := Some(invitation), invitationParent := Some(parent), invitationCard := Some(me), consent := None))
  {
    hide InvitationOk;
  }

  /** A consent counts exactly when the head is still the open epoch that invited this card, which is not on it. */
  lemma AcceptedExactly(c: Crypto, me: Card, g: Group, expected: Id, consent: Consent)
    ensures Accept(c, me, g, expected, consent).Some? <==>
      var r := g.record;
      && r.frozen.None? && r.head.Some? && r.head.value.body.open && r.head.value.id == expected
      && r.invitation.Some? && InvitationOk(c, r.invitation.value, r.anchor, r.head.value, me)
      && ConsentOk(c, consent, r.anchor, r.head.value, me) && consent.body.invitation == r.invitation.value.id
      && !Listed(c, me, r.head.value)
    ensures Accept(c, me, g, expected, consent).Some? ==>
      Accept(c, me, g, expected, consent).value == g.(record := g.record.(consent := Some(consent)))
  {
    hide InvitationOk, ConsentOk;
  }

  /** Leaving is refused only to the creator, and for want of a signed request while the card is on an open head.
      It is one decision: a second does not change the first. */
  lemma LeftExactly(c: Crypto, me: Card, g: Group, request: Leave, nonce: Nonce)
    ensures
      var r := g.record;
      var asks := r.head.Some? && r.head.value.body.open && Listed(c, me, r.head.value);
      && (LeaveGroup(c, me, g, request, nonce).Some? <==>
            me.id != r.anchor.body.creator.id && (r.left.None? && asks ==> LeaveOk(c, request, r.anchor, r.head.value, me)))
      && (LeaveGroup(c, me, g, request, nonce).Some? ==>
            var q := LeaveGroup(c, me, g, request, nonce).value.record;
            && LeaveGroup(c, me, g, request, nonce).value == g.(record := q)
            && q == r.(left := q.left, admitted := None, checked := None,
                       invitation := None, invitationParent := None, invitationCard := None, consent := None)
            && q.left == (if r.left.Some? then r.left
                          else if asks then Some(Fence(Some(r.head.value.id), request.body.nonce, Some(request), Some(me)))
                          else if r.head.Some? then Some(Fence(Some(r.head.value.id), nonce, None, None))
                          else Some(Fence(None, nonce, None, None)))
            && (Running(r) ==> StatusOf(c, me, g.(record := q)) == Some(HasLeft)))
  {
    hide LeaveOk;
  }

  /** An invited member who consents, and is shown the successor that takes the consent up with its private
      snapshot, is active. */
  lemma JoiningWorks(c: Crypto, me: Card, g: Group, consent: Consent, next: Epoch, after: Snapshot)
    requires c.Injective() && Inv(c, me.id, g) && g.record.frozen.None? && g.record.head.Some?
    requires g.record.invitation.Some? && InvitationOk(c, g.record.invitation.value, g.record.anchor, g.record.head.value, me)
    requires ConsentOk(c, consent, g.record.anchor, g.record.head.value, me) && consent.body.invitation == g.record.invitation.value.id
    requires !Listed(c, me, g.record.head.value)
    requires next.body.open && TransitionOk(c, g.record.anchor, g.record.head.value, next, after)
    requires consent in after.joins && me in after.members
    ensures
      var one := Apply(c, State(me, g), Accepting(g.record.head.value.id, consent));
      var two := Apply(c, one, SeeHeaders([Proof(Some(next), true)]));
      var all := Apply(c, two, SeeSnapshot(next.id, after, true));
      StatusOf(c, me, all.group) == Some(Active) && all.group.record.head == Some(next) && all.group.record.title == Some(after.title)
  {
    hide Inv, TransitionOk, InvitationOk, ConsentOk, LinkOk, EpochOk, Grows, c.Injective, Append, Adopting, ObserveSnapshot;
    var head := g.record.head.value;
    ConsentIsToOpen(c, consent, g.record.anchor, head, me);
    AcceptedExactly(c, me, g, head.id, consent);
    AcceptKeepsInv(c, me, g, head.id, consent);
    var g1 := g.(record := g.record.(consent := Some(consent)));
    TransitionParts(c, g.record.anchor, head, next, after);
    AppendSuccessor(c, me, g1, next, true);
    var g2 := Adopting(me, g1, next);
    HeadShown(c, me, g1, next);
    SnapshotAdmits(c, me, g1, head, next, after, consent);
  }

  lemma ConsentIsToOpen(c: Crypto, consent: Consent, anchor: Anchor, parent: Epoch, me: Card)
    requires ConsentOk(c, consent, anchor, parent, me)
    ensures parent.body.open
  {
    hide EpochOk;
  }

  lemma HeadShown(c: Crypto, me: Card, g: Group, next: Epoch)
    requires Append(c, me, g, next, true) == (Adopting(me, g, next), Adopted)
    ensures Observe(c, me, g, [Proof(Some(next), true)]) == Adopting(me, g, next)
  {
    hide Append, Adopting;
    var page := ObservePage(c, me, Adopting(me, g, next), []);
    assert [Proof(Some(next), true)][1..] == [];
    assert ObservePage(c, me, g, [Proof(Some(next), true)]) == page.(accepted := page.accepted + 1);
  }

  lemma SnapshotAdmits(c: Crypto, me: Card, g: Group, head: Epoch, next: Epoch, after: Snapshot, consent: Consent)
    requires c.Injective() && Inv(c, me.id, g) && g.record.frozen.None? && g.record.head == Some(head) && head.body.open
    requires g.record.consent == Some(consent) && ConsentOk(c, consent, g.record.anchor, head, me)
    requires next.body.open && TransitionOk(c, g.record.anchor, head, next, after)
    requires consent in after.joins && me in after.members
    ensures
      var h := ObserveSnapshot(c, me, Adopting(me, g, next), next.id, after, true);
      h.Some? && StatusOf(c, me, h.value) == Some(Active) && h.value.record.head == Some(next) && h.value.record.title == Some(after.title)
  {
    hide Inv, TransitionOk, ConsentOk, LinkOk, EpochOk, SnapshotOk, Grows, c.Injective, Indexed, CheckedSnapshot, ApplyOwnConsent, StatusOf, Verified;
    var g2 := Adopting(me, g, next);
    SuccessorOnChain(c, me, g, head, next, after);
    TransitionParts(c, g.record.anchor, head, next, after);
    SnapshotListsCard(c, g.record.anchor, next, after, me);
    var ready := AR.StoredReady(c, me, g2, next.id, after);
    assert ready.headers == g2.headers && ready.record == g2.record;
    AppliedNow(c, me, ready, head, next, after, consent);
    ObserveSnapshotKeepsInv(c, me, g2, next.id, after, true);
    var h := ObserveSnapshot(c, me, g2, next.id, after, true).value;
    assert h == Admitting(c, me, ready, next).(record := Admitting(c, me, ready, next).record.(title := Some(after.title)));
    AR.ActiveExactly(c, me, h);
  }

  /** The successor is the head, is found by its hash, and its snapshot passes where its parent is the old head. */
  lemma SuccessorOnChain(c: Crypto, me: Card, g: Group, head: Epoch, next: Epoch, after: Snapshot)
    requires c.Injective() && Inv(c, me.id, g) && g.record.frozen.None? && g.record.head == Some(head) && head.body.open
    requires TransitionOk(c, g.record.anchor, head, next, after)
    ensures var h := Adopting(me, g, next);
      && Inv(c, me.id, h) && h.record.head == Some(next) && h.record.frozen.None? && h.record.consent == g.record.consent
      && FindEpoch(h, next.id) == Some(next) && Header(h, next.body.number) == Some(next)
      && next.body.number > 0 && HasParent(c, h, next) && Header(h, next.body.number - 1) == Some(head)
      && CheckedSnapshot(c, h, next, after)
  {
    hide Inv, TransitionOk, LinkOk, EpochOk, SnapshotOk, Grows, c.Injective, ChainOk;
    var h := Adopting(me, g, next);
    TransitionParts(c, g.record.anchor, head, next, after);
    AppendSuccessor(c, me, g, next, true);
    AdoptingGrows(c, me, g, next);
    AdoptingKeepsInv(c, me, g, next);
    InvIndexed(c, me.id, g);
    InvIndexed(c, me.id, h);
    HeadIsLast(g);
    var n := next.body.number;
    LinkParts(c, g.record.anchor, head, next);
    FindFromFinds(c, h, n, 0);
    ParentOnChain(c, h, n);
  }

  lemma SnapshotListsCard(c: Crypto, anchor: Anchor, next: Epoch, after: Snapshot, me: Card)
    requires me in after.members && SnapshotOk(c, after, anchor, next)
    ensures Listed(c, me, next)
  {
    hide EpochOk, SnapshotShape;
    var i :| 0 <= i < |after.members| && after.members[i] == me;
    assert Commitments(c, after.members)[i] == Member(me.id, c.CardHash(me));
  }

  lemma AppliedNow(c: Crypto, me: Card, g: Group, head: Epoch, next: Epoch, after: Snapshot, consent: Consent)
    requires g.record.consent == Some(consent) && g.record.head == Some(next) && next.body.number > 0
    requires Header(g, next.body.number) == Some(next) && HasParent(c, g, next) && Header(g, next.body.number - 1) == Some(head)
    requires ConsentOk(c, consent, g.record.anchor, head, me) && consent in after.joins && me in after.members && Listed(c, me, next)
    ensures ApplyOwnConsent(c, me, g, next, after) == Some(Admitting(c, me, g, next))
  {
    hide ConsentOk, HasParent;
    assert HoldsCard(c, after, me);
    assert HoldsJoin(after, consent.id) by {
      var j :| 0 <= j < |after.joins| && after.joins[j] == consent;
    }
    assert StaysFrom(c, me, g, next.body.number);
  }

  predicate IsCreator(me: Card, g: Group) {
    me.id == g.record.anchor.body.creator.id && me.signKey == g.record.anchor.body.creator.signKey
  }

  /** Only the creator commits, only from the head, and only with its own cursor there; and such a commit goes
      through where the store has room: the successor is the head, with its snapshot, and the creator goes on
      being active if listed with the same card. */
  lemma CommittingWorks(c: Crypto, me: Card, g: Group, next: Epoch, after: Snapshot)
    requires c.Injective() && Inv(c, me.id, g) && StatusOf(c, me, g) == Some(Active) && g.record.consent.None?
    requires IsCreator(me, g) && next.body.open && TransitionOk(c, g.record.anchor, g.record.head.value, next, after)
    ensures g.record.head.Some? && Commit(c, me, g, g.record.head.value.id, next, after, true, true).Some?
    ensures var h := Commit(c, me, g, g.record.head.value.id, next, after, true, true).value;
      && h.record.head == Some(next) && next.body.snapshotHash in h.snapshots && h.snapshots[next.body.snapshotHash] == after
      && h.record.title == Some(after.title)
      && (Listed(c, me, next) ==> StatusOf(c, me, h) == Some(Active))
      && (!Listed(c, me, next) ==> h.record.admitted.None?)
  {
    hide Inv, TransitionOk, LinkOk, EpochOk, SnapshotOk, Grows, c.Injective, Indexed, ApplyOwnConsent, StatusOf, Verified, SnapshotAt, AdvanceChecked, Append;
    StatusExactly(c, me, g);
    AdmittedHasHead(c, me.id, g);
    var head := g.record.head.value;
    TransitionParts(c, g.record.anchor, head, next, after);
    LinkParts(c, g.record.anchor, head, next);
    AppendSuccessor(c, me, g, next, true);
    CommittedIsVerified(c, me, g, next, after);
    HeadIsFound(c, me, g);
    var h := Ready(Adopting(me, g, next), next, after);
    SuccessorOnChain(c, me, g, head, next, after);
    NoConsentApplies(c, me, h, next, after);
    InvIndexed(c, me.id, h);
    CursorReaches(c, me, h, next, after);
  }

  lemma HeadIsFound(c: Crypto, me: Card, g: Group)
    requires Inv(c, me.id, g) && StatusOf(c, me, g) == Some(Active)
    ensures g.record.head.Some? && SnapshotAt(c, g, g.record.head.value).Found?
  {
    hide Inv, SnapshotAt;
  }

  lemma NoConsentApplies(c: Crypto, me: Card, g: Group, next: Epoch, after: Snapshot)
    requires g.record.consent.None?
    ensures ApplyOwnConsent(c, me, g, next, after) == Some(g)
  {
    hide HasParent, ConsentOk, HoldsCard, HoldsJoin;
  }

  /** From the epoch before, the cursor of an admitted member moves to a head whose snapshot is verified. */
  lemma CursorReaches(c: Crypto, me: Card, g: Group, next: Epoch, after: Snapshot)
    requires Inv(c, me.id, g) && g.record.head == Some(next) && next.body.open && g.record.frozen.None? && g.record.left.None?
    requires g.record.title == Some(after.title) && Indexed(g) && Verified(c, g, next, after)
    requires g.record.admitted.Some? ==> g.record.checked == Some(HeadNumber(g) - 1)
    ensures AdvanceChecked(c, g).Some?
    ensures var h := AdvanceChecked(c, g).value;
      && h.record.head == g.record.head && h.snapshots == g.snapshots && h.record.title == Some(after.title)
      && h.record.admitted == g.record.admitted && h.record.frozen == g.record.frozen && h.record.left == g.record.left
      && (g.record.admitted.Some? && g.record.admitted.value.cardHash == c.hash(CardDoc(me)) ==> StatusOf(c, me, h) == Some(Active))
  {
    hide Inv, SnapshotOk, TransitionOk, Grows, Indexed, SnapshotAt, StatusOf, ChainInv;
    AdvanceCheckedKeepsInv(c, me.id, g);
    InvIndexed(c, me.id, g);
    OnChain(c, g, next);
    if g.record.admitted.Some? {
      var n := HeadNumber(g);
      var h := Checking(g, n, after.title);
      assert AdvanceFrom(c, h, n + 1) == Some(h);
      assert AdvanceChecked(c, g) == Some(h);
      StatusExactly(c, me, h);
    }
  }

  /** Only the creator closes a group, from its head; the closing epoch then is the head and the group is closed. */
  lemma ClosingWorks(c: Crypto, me: Card, g: Group, next: Epoch, room: bool)
    requires c.Injective() && Inv(c, me.id, g) && StatusOf(c, me, g) == Some(Active)
    requires IsCreator(me, g) && !next.body.open && LinkOk(c, g.record.anchor, g.record.head.value, next)
    ensures g.record.head.Some? && CloseGroup(c, me, g, g.record.head.value.id, next, room).Some?
    ensures var h := CloseGroup(c, me, g, g.record.head.value.id, next, room).value;
      h.record.head == Some(next) && StatusOf(c, me, h) == Some(Closed)
  {
    hide Inv, TransitionOk, LinkOk, EpochOk, SnapshotOk, Grows, c.Injective, Indexed, StatusOf, SnapshotAt, AdvanceChecked, Append, CheckedSnapshot;
    StatusExactly(c, me, g);
    AdmittedHasHead(c, me.id, g);
    HeadIsFound(c, me, g);
    var head := g.record.head.value;
    LinkParts(c, g.record.anchor, head, next);
    AppendSuccessor(c, me, g, next, room);
    AdoptingKeepsInv(c, me, g, next);
    var h := Adopting(me, g, next);
    AdvanceCheckedKeepsInv(c, me.id, h);
    ClosedIsReached(c, me, g, next);
    StatusExactly(c, me, AdvanceChecked(c, h).value);
  }

  lemma ClosedIsReached(c: Crypto, me: Card, g: Group, next: Epoch)
    requires Inv(c, me.id, g) && g.record.head.Some? && SnapshotAt(c, g, g.record.head.value).Found?
    requires Inv(c, me.id, Adopting(me, g, next)) && next.body.number == HeadNumber(g) + 1
    requires g.record.checked == Some(HeadNumber(g))
    requires g.record.head.value.body.open && !next.body.open && LinkOk(c, g.record.anchor, g.record.head.value, next)
    ensures AdvanceChecked(c, Adopting(me, g, next)).Some?
  {
    hide Inv, TransitionOk, LinkOk, EpochOk, SnapshotOk, Grows, Indexed, SnapshotAt, HasCard, Epochs, Fits, ChainInv;
    var h := Adopting(me, g, next);
    InvIndexed(c, me.id, h);
    InvIndexed(c, me.id, g);
    var n: nat := next.body.number;
    HeadIsLast(g);
    HeadIsLast(h);
    FoundParts(c, g, g.record.head.value);
    SealedSnapshot(c, g.record.anchor, g.record.head.value, next);
    ParentOnChain(c, h, n);
    LookupMeans(c, h, n);
    assert Header(h, n - 1) == g.record.head by { HeadsBelow(c, me, g, next); }
    assert SnapshotAt(c, h, next).Found? by { FitsNow(c, h, next, n); }
    if h.record.admitted.Some? {
      var moved := Checking(h, n, SnapshotAt(c, h, next).snapshot.title);
      assert AdvanceFrom(c, moved, n + 1) == Some(moved);
    }
  }

  lemma HeadsBelow(c: Crypto, me: Card, g: Group, next: Epoch)
    requires Indexed(g) && g.record.head.Some? && g.record.head.value.body.open && next.body.number == HeadNumber(g) + 1
    ensures Header(Adopting(me, g, next), HeadNumber(g)) == g.record.head
  {
  }

  lemma FitsNow(c: Crypto, h: Group, next: Epoch, n: nat)
    requires ChainInv(c, h) && 0 < n == HeadNumber(h) && Epochs(h)[n] == next && next.body.snapshotHash in h.snapshots
    requires SnapshotOk(c, h.snapshots[next.body.snapshotHash], h.record.anchor, next)
    requires Header(h, n - 1).Some? && TransitionOk(c, h.record.anchor, Header(h, n - 1).value, next, h.snapshots[next.body.snapshotHash])
    ensures SnapshotAt(c, h, next).Found?
  {
    hide ChainInv, SnapshotOk, TransitionOk, SnapshotAt;
    LookupMeans(c, h, n);
    ParentOnChain(c, h, n);
  }

  lemma FoundParts(c: Crypto, g: Group, e: Epoch)
    requires SnapshotAt(c, g, e).Found?
    ensures e.body.snapshotHash in g.snapshots && SnapshotOk(c, g.snapshots[e.body.snapshotHash], g.record.anchor, e)
  {
    hide SnapshotOk, TransitionOk, HasParent;
  }

  /** A closing epoch keeps the snapshot of the epoch it closes. */
  lemma SealedSnapshot(c: Crypto, anchor: Anchor, head: Epoch, next: Epoch)
    requires LinkOk(c, anchor, head, next) && !next.body.open
    ensures next.body.snapshotHash == head.body.snapshotHash
    ensures forall s :: SnapshotOk(c, s, anchor, head) ==> SnapshotOk(c, s, anchor, next) && TransitionOk(c, anchor, head, next, s)
  {
    hide SnapshotShape, AnchorOk, RosterOk, FirstOk;
  }

  /** Nobody else extends the group: what is committed or closed is by the creator, from this open head, and is
      then the head. */
  lemma OnlyTheCreator(
      c: Crypto, me: Card, g: Group, expected: Id, next: Epoch, after: Snapshot, room: bool, roomAfter: bool)
    requires c.Injective() && Inv(c, me.id, g)
    ensures Commit(c, me, g, expected, next, after, room, roomAfter).Some? ==>
      && IsCreator(me, g) && g.record.frozen.None? && g.record.head.Some? && g.record.head.value.id == expected
      && g.record.checked == Some(g.record.head.value.body.number) && room && roomAfter
      && next.body.open && TransitionOk(c, g.record.anchor, g.record.head.value, next, after)
      && Commit(c, me, g, expected, next, after, room, roomAfter).value.record.head == Some(next)
    ensures CloseGroup(c, me, g, expected, next, room).Some? ==>
      && IsCreator(me, g) && g.record.frozen.None? && g.record.head.Some? && g.record.head.value.id == expected
      && !next.body.open && LinkOk(c, g.record.anchor, g.record.head.value, next)
      && CloseGroup(c, me, g, expected, next, room).value.record.head == Some(next)
  {
    hide Inv, TransitionOk, LinkOk, EpochOk, Grows, c.Injective, Indexed, AdvanceChecked, Append, SnapshotAt, ApplyOwnConsent;
    if Commit(c, me, g, expected, next, after, room, roomAfter).Some? {
      TransitionParts(c, g.record.anchor, g.record.head.value, next, after);
      AppendSuccessor(c, me, g, next, room);
      CommittedIsVerified(c, me, g, next, after);
      var ready := Ready(Adopting(me, g, next), next, after);
      ApplyKeepsInv(c, me, ready, next, after);
      AdvanceCheckedKeepsInv(c, me.id, ApplyOwnConsent(c, me, ready, next, after).value);
    }
    if CloseGroup(c, me, g, expected, next, room).Some? {
      AppendSuccessor(c, me, g, next, room);
      AppendKeepsInv(c, me, g, next, room);
      AdvanceCheckedKeepsInv(c, me.id, Adopting(me, g, next));
    }
  }

  /** A private snapshot is taken only from a member with standing or a pending consent, only for a retained epoch
      that lists the card, only if it is that epoch's and a proper step from the one before, and while frozen only
      if it is the one the group waits for; then it is in store, unless there is no room for it. */
  lemma SnapshotTakenOnly(c: Crypto, me: Card, g: Group, epochId: Id, s: Snapshot, room: bool)
    requires c.Injective() && Inv(c, me.id, g) && ObserveSnapshot(c, me, g, epochId, s, room).Some?
    ensures Indexed(g) && (g.record.admitted.Some? || g.record.consent.Some?)
    ensures exists n: nat :: n <= HeadNumber(g) && Takes(c, me, g, epochId, s, n)
    ensures g.record.frozen.Some? ==> g.record.frozen.value.NoRoomForSnapshot? && g.record.frozen.value.observed.id == epochId
    ensures var h := ObserveSnapshot(c, me, g, epochId, s, room).value;
      var hash := c.hash(SnapshotDoc(s));
      if hash !in g.snapshots && !room then
        h == g.(record := g.record.(frozen := h.record.frozen)) && h.record.frozen.Some? && h.record.frozen.value.NoRoomForSnapshot?
      else h.snapshots == g.snapshots[hash := s] && h.record.frozen.None?
  {
    hide Inv, EpochOk, LinkOk, SnapshotOk, TransitionOk, c.Injective, Indexed, Absorb, CheckedSnapshot, FindEpoch, HasCard, Takes;
    InvIndexed(c, me.id, g);
    FoundIsOnChain(c, g, epochId);
    var e := FindEpoch(g, epochId).value;
    OnChain(c, g, e);
    CheckedIsTaken(c, me, g, epochId, s, e);
    var hash := e.body.snapshotHash;
    CheckedIsHash(c, g, e, s);
    SameDocument(c, g, hash, s);
    if hash in g.snapshots || room {
      var ready := AR.StoredReady(c, me, g, epochId, s);
      AbsorbKeepsInv(c, me, ready, e, s);
      AbsorbThaws(c, me, ready, e, s);
      assert hash in g.snapshots ==> g.snapshots[hash := s] == g.snapshots;
    }
  }

  ghost predicate Takes(c: Crypto, me: Card, g: Group, epochId: Id, s: Snapshot, n: nat)
    requires Indexed(g) && n <= HeadNumber(g)
  {
    var e := Epochs(g)[n];
    && e.id == epochId && Listed(c, me, e) && SnapshotOk(c, s, g.record.anchor, e)
    && (n > 0 ==> TransitionOk(c, g.record.anchor, Epochs(g)[n - 1], e, s))
  }

  lemma CheckedIsTaken(c: Crypto, me: Card, g: Group, epochId: Id, s: Snapshot, e: Epoch)
    requires ChainInv(c, g) && CheckedSnapshot(c, g, e, s) && HasCard(Some(e), me.id, c.CardHash(me)) && e.id == epochId
    requires 0 <= e.body.number <= HeadNumber(g) && Epochs(g)[e.body.number] == e
    ensures Takes(c, me, g, epochId, s, e.body.number)
  {
    hide ChainInv, SnapshotOk, TransitionOk, LinkOk;
    if e.body.number > 0 { ParentOnChain(c, g, e.body.number); }
  }

  lemma AbsorbThaws(c: Crypto, me: Card, g: Group, e: Epoch, s: Snapshot)
    requires Inv(c, me.id, g) && Verified(c, g, e, s) && g.record.frozen.None? && Absorb(c, me, g, e, s).Some?
    ensures Absorb(c, me, g, e, s).value.record.frozen.None?
  {
    hide Inv, Grows, ApplyOwnConsent, AdvanceChecked, Verified, Indexed;
    ApplyKeepsInv(c, me, g, e, s);
    AppliedUnfrozen(c, me, g, e, s);
    AdvanceCheckedKeepsInv(c, me.id, ApplyOwnConsent(c, me, g, e, s).value);
  }

  lemma AppliedUnfrozen(c: Crypto, me: Card, g: Group, e: Epoch, s: Snapshot)
    requires ApplyOwnConsent(c, me, g, e, s).Some?
    ensures ApplyOwnConsent(c, me, g, e, s).value.record.frozen == g.record.frozen
  {
    hide HasParent, ConsentOk, HoldsCard, HoldsJoin;
  }

  /** Without room for it, such a snapshot freezes the group on its epoch, and nothing else changes. */
  lemma SnapshotWithoutRoom(c: Crypto, me: Card, g: Group, s: Snapshot, n: nat)
    requires c.Injective() && Inv(c, me.id, g) && n <= HeadNumber(g) && Indexed(g) && Takes(c, me, g, Epochs(g)[n].id, s, n)
    requires g.record.admitted.Some? || g.record.consent.Some?
    requires g.record.frozen.Some? ==> g.record.frozen.value.NoRoomForSnapshot? && g.record.frozen.value.observed.id == Epochs(g)[n].id
    requires c.hash(SnapshotDoc(s)) !in g.snapshots
    ensures ObserveSnapshot(c, me, g, Epochs(g)[n].id, s, false)
      == Some(g.(record := g.record.(frozen := Some(NoRoomForSnapshot(Epochs(g)[n])))))
  {
    hide Inv, EpochOk, LinkOk, SnapshotOk, TransitionOk, c.Injective, Indexed, Absorb, CheckedSnapshot, ChainOk;
    InvIndexed(c, me.id, g);
    var e := Epochs(g)[n];
    FindFromFinds(c, g, n, 0);
    ChainNumbers(c, g, n);
    TakenIsChecked(c, me, g, e, s, n);
    CheckedIsHash(c, g, e, s);
  }

  lemma TakenIsChecked(c: Crypto, me: Card, g: Group, e: Epoch, s: Snapshot, n: nat)
    requires ChainInv(c, g) && n <= HeadNumber(g) && Epochs(g)[n] == e && e.body.number == n && Takes(c, me, g, e.id, s, n)
    ensures CheckedSnapshot(c, g, e, s)
  {
    hide ChainInv, SnapshotOk, TransitionOk, LinkOk;
    if n > 0 { ParentOnChain(c, g, n); }
  }

  /** Once there is room, a group frozen for want of it goes on from the very epoch it froze on. */
  lemma ResumingWorks(c: Crypto, me: Card, g: Group)
    requires c.Injective() && Inv(c, me.id, g) && g.record.frozen.Some? && g.record.frozen.value.NoRoomForHeader?
    ensures ResumeCapacity(c, me, g, true).Some?
    ensures var h := ResumeCapacity(c, me, g, true).value; h.record.frozen.None? && h.record.head == Some(g.record.frozen.value.observed)
    ensures ResumeCapacity(c, me, g, false).Some? && (g.record.frozen.value.observed.body.open ==> ResumeCapacity(c, me, g, false).value == g)
  {
    hide EpochOk, LinkOk, ChainOk, Keyed, AdmissionInv, InvitationInv, FenceOk, c.Injective, Append;
    var o := g.record.frozen.value.observed;
    var h := Thawing(g);
    FreezingKeepsInv(c, me.id, g, h);
    FromOpen(c, g.record.anchor, g.record.head.value, o);
    AppendSuccessor(c, me, h, o, true);
    AppendSuccessor(c, me, h, o, false);
  }

  lemma FromOpen(c: Crypto, anchor: Anchor, parent: Epoch, next: Epoch)
    requires LinkOk(c, anchor, parent, next)
    ensures parent.body.open
  {
    hide EpochOk;
  }
}

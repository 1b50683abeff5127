/** Safety of whole runs of the registry, and agreement between replicas of one group. */
module AuthorityRuns {
  import opened Common
  import opened Groups
  import opened GroupProofs
  import opened Authority
  import opened AuthorityProofs

  // Every reachable record

  lemma ApplyKeepsInv(c: Crypto, s: State, e: Event)
    requires c.Injective() && Inv(c, s.me.id, s.group)
    ensures var t := Apply(c, s, e); t.me.id == s.me.id && Inv(c, t.me.id, t.group) && Grows(s.group, t.group)
  {
    hide Inv, Grows, Attempt, c.Injective;
    AttemptKeepsInv(c, s.me, s.group, e);
    InvGrows(c, s.me.id, s.group);
  }

  /** From any reachable state on, the chain and the stored snapshots only grow. */
  lemma {:induction false} RunKeepsInv(c: Crypto, s: State, events: seq<Event>)
    requires c.Injective() && Inv(c, s.me.id, s.group)
    ensures var t := After(c, s, events); t.me.id == s.me.id && Inv(c, t.me.id, t.group) && Grows(s.group, t.group)
    decreases |events|
  {
    hide Inv, Grows, Apply, c.Injective;
    if events == [] {
      InvGrows(c, s.me.id, s.group);
    } else {
      var before := After(c, s, events[..|events| - 1]);
      RunKeepsInv(c, s, events[..|events| - 1]);
      ApplyKeepsInv(c, before, events[|events| - 1]);
      GrowsOver(s.group, before.group, After(c, s, events).group);
    }
  }

  /** No run ever stores a record that a later load would reject, and its status can always be shown. */
  lemma EveryRecordLoads(c: Crypto, s: State, events: seq<Event>)
    requires c.Injective() && Starts(c, s)
    ensures var t := After(c, s, events); Loads(c, t.me.id, t.group) && StatusOf(c, t.me, t.group).Some?
  {
    hide Inv, Loads, StatusOf, Starts, Grows, c.Injective;
    StartsInv(c, s);
    RunKeepsInv(c, s, events);
    var t := After(c, s, events);
    InvLoads(c, t.me.id, t.group);
    ActiveExactly(c, t.me, t.group);
  }

  // What "active" means

  /** The card on every roster from epoch `k`, all of them open, and every private snapshot verified. */
  ghost predicate VerifiedHistory(c: Crypto, me: Card, g: Group, k: int)
    requires Indexed(g)
  {
    && 0 <= k <= HeadNumber(g)
    && forall n :: k <= n <= HeadNumber(g) ==>
         && Epochs(g)[n].body.open
         && Member(me.id, c.CardHash(me)) in Epochs(g)[n].body.members
         && SnapshotAt(c, g, Epochs(g)[n]).Found?
  }

  lemma ActiveExactly(c: Crypto, me: Card, g: Group)
    requires Inv(c, me.id, g)
    ensures StatusOf(c, me, g).Some?
    ensures StatusOf(c, me, g) == Some(Active) <==>
      && IsOpen(g) && g.record.left.None? && g.record.admitted.Some?
      && g.record.admitted.value.cardHash == c.CardHash(me) && g.record.checked == Some(HeadNumber(g))
  {
    hide ChainOk, Keyed, MarksInv, InvitationInv, SnapshotAt;
    if g.record.admitted.Some? && g.record.checked == Some(HeadNumber(g)) {
      var k :| AdmittedSince(c, me.id, g, k);
      assert SnapshotAt(c, g, Epochs(g)[HeadNumber(g)]).Found?;
      HeadIsLast(g);
    }
  }

  /** "Active" implies a gap-free verified history since the epoch that admitted this card. */
  lemma ActiveMeansVerified(c: Crypto, me: Card, g: Group)
    requires Inv(c, me.id, g) && StatusOf(c, me, g) == Some(Active)
    ensures exists k :: VerifiedHistory(c, me, g, k) && Epochs(g)[k].id == g.record.admitted.value.epochId
    ensures PathOk(c, g.record.anchor, Epochs(g))
  {
    hide EpochOk, LinkOk, PathOk, Keyed, MarksInv, InvitationInv, SnapshotAt, StatusOf;
    ActiveExactly(c, me, g);
    var k :| AdmittedSince(c, me.id, g, k);
    forall n | k <= n <= HeadNumber(g)
      ensures Epochs(g)[n].body.open && Member(me.id, c.CardHash(me)) in Epochs(g)[n].body.members {
      OpenAlong(c, g, n);
      assert HasCard(Header(g, n), me.id, g.record.admitted.value.cardHash);
    }
    assert VerifiedHistory(c, me, g, k);
  }

  lemma OpenAlong(c: Crypto, g: Group, n: nat)
    requires ChainInv(c, g) && g.record.head.Some? && g.record.head.value.body.open && n <= HeadNumber(g)
    ensures Epochs(g)[n].body.open
  {
    hide EpochOk;
    HeadIsLast(g);
    if n < HeadNumber(g) { ChainLink(c, g.record.anchor, Epochs(g), n + 1); }
  }

  // Leaving

  /** The consents made by the successful acceptances of a run. */
  ghost function Made(c: Crypto, s: State, events: seq<Event>): set<Consent> {
    if events == [] then {}
    else
      var earlier := After(c, s, events[..|events| - 1]);
      var e := events[|events| - 1];
      Made(c, s, events[..|events| - 1])
      + (if e.Accepting? && Attempt(c, earlier.me, earlier.group, e).Some? then {e.consent} else {})
  }

  /** The admission rests on this consent: the snapshot of the admitting epoch carries it. */
  ghost predicate RestsOn(c: Crypto, g: Group, consent: Consent)
    requires Indexed(g) && g.record.admitted.Some?
  {
    exists n :: 0 <= n < |Epochs(g)| && AdmitsBy(c, g, Epochs(g)[n], consent)
  }

  ghost predicate AdmitsBy(c: Crypto, g: Group, e: Epoch, consent: Consent)
    requires g.record.admitted.Some?
  {
    && e.id == g.record.admitted.value.epochId
    && SnapshotAt(c, g, e).Found? && HoldsJoin(SnapshotAt(c, g, e).snapshot, consent.id)
  }

  lemma RestsOnGrows(c: Crypto, g: Group, h: Group, consent: Consent)
    requires Grows(g, h) && g.record.admitted.Some? && h.record.admitted == g.record.admitted && RestsOn(c, g, consent)
    ensures RestsOn(c, h, consent)
  {
    hide SnapshotAt, HoldsJoin, Indexed;
    var n :| 0 <= n < |Epochs(g)| && AdmitsBy(c, g, Epochs(g)[n], consent);
    assert Epochs(h)[n] == Epochs(g)[n];
    FoundStays(c, g, h, Epochs(g)[n]);
    assert AdmitsBy(c, h, Epochs(h)[n], consent);
  }

  /** Where an operation's admission and pending consent come from. */
  ghost predicate Sourced(c: Crypto, g: Group, h: Group)
    requires Indexed(h)
  {
    && (h.record.admitted.Some? && h.record.admitted != g.record.admitted ==>
          g.record.consent.Some? && RestsOn(c, h, g.record.consent.value))
    && (h.record.consent.Some? ==> h.record.consent == g.record.consent)
    && (h.record.admitted.None? && g.record.left.Some? ==> h.record.left == g.record.left)
  }

  ghost predicate Quiet(g: Group, h: Group) {
    && (h.record.admitted == g.record.admitted || h.record.admitted.None?)
    && (h.record.consent == g.record.consent || h.record.consent.None?)
    && (g.record.left.Some? ==> h.record.left == g.record.left)
  }

  lemma AppendIsQuiet(c: Crypto, me: Card, g: Group, e: Epoch, room: bool)
    ensures var h := Append(c, me, g, e, room).0; Quiet(g, h) && h.record.consent == g.record.consent && h.record.left == g.record.left
  {
    hide EpochOk, LinkOk, HasCard;
  }

  lemma {:induction false} PageIsQuiet(c: Crypto, me: Card, g: Group, proofs: seq<Proof>)
    ensures Quiet(g, ObservePage(c, me, g, proofs).group)
    decreases |proofs|
  {
    hide Append;
    if proofs != [] && proofs[0].epoch.Some? {
      var (h, step) := Append(c, me, g, proofs[0].epoch.value, proofs[0].room);
      AppendIsQuiet(c, me, g, proofs[0].epoch.value, proofs[0].room);
      if step.Adopted? || step.Duplicate? { PageIsQuiet(c, me, h, proofs[1..]); }
    }
  }

  /** Honouring a consent and moving the cursor: an admission that is new rests on the pending consent. */
  lemma AbsorbSourced(c: Crypto, me: Card, g: Group, e: Epoch, s: Snapshot, applied: Group, h: Group)
    requires Inv(c, me.id, g) && Verified(c, g, e, s)
    requires ApplyOwnConsent(c, me, g, e, s) == Some(applied)
    requires Indexed(h) && Grows(applied, h) && h.record.admitted == applied.record.admitted
    requires h.record.consent == applied.record.consent && h.record.left == applied.record.left
    ensures Sourced(c, g, h)
  {
    hide HasParent, ConsentOk, HoldsCard, HoldsJoin, SnapshotAt, Inv, Indexed, StaysFrom;
    if applied != g {
      assert applied == Admitting(c, me, g, e);
      ApplyKeepsInvHere(c, me, g, e, s);
      FoundStays(c, g, applied, e);
      var n :| 0 <= n < |Epochs(g)| && Epochs(g)[n] == e;
      assert Epochs(applied)[n] == e;
      assert AdmitsBy(c, applied, e, g.record.consent.value);
      RestsOnGrows(c, applied, h, g.record.consent.value);
    }
  }

  lemma ApplyKeepsInvHere(c: Crypto, me: Card, g: Group, e: Epoch, s: Snapshot)
    requires Inv(c, me.id, g) && Verified(c, g, e, s) && ApplyOwnConsent(c, me, g, e, s).Some?
    ensures Grows(g, ApplyOwnConsent(c, me, g, e, s).value)
  {
    hide ApplyOwnConsent, Inv, Grows, Verified;
    AuthorityProofs.ApplyKeepsInv(c, me, g, e, s);
  }

  lemma SnapshotSourced(c: Crypto, me: Card, g: Group, epochId: Id, s: Snapshot, room: bool)
    requires c.Injective() && Inv(c, me.id, g) && ObserveSnapshot(c, me, g, epochId, s, room).Some?
    ensures var h := ObserveSnapshot(c, me, g, epochId, s, room).value; Indexed(h) && Sourced(c, g, h)
  {
    hide Inv, Grows, AdvanceChecked, ApplyOwnConsent, CheckedSnapshot, FindEpoch, HasCard, Indexed, c.Injective, Verified, RestsOn;
    var h := ObserveSnapshot(c, me, g, epochId, s, room).value;
    ObserveSnapshotKeepsInv(c, me, g, epochId, s, room);
    InvIndexed(c, me.id, h);
    var e := FindEpoch(g, epochId).value;
    var hash := e.body.snapshotHash;
    if (hash in g.snapshots && g.snapshots[hash] == s) || room {
      var ready := StoredReady(c, me, g, epochId, s);
      var applied := ApplyOwnConsent(c, me, ready, e, s).value;
      AuthorityProofs.ApplyKeepsInv(c, me, ready, e, s);
      AdvanceCheckedKeepsInv(c, me.id, applied);
      var advanced := AdvanceChecked(c, applied).value;
      AdvancedParts(c, me.id, applied, advanced);
      if h != advanced { RelabelGrows(c, me.id, advanced, h); } else { InvGrows(c, me.id, advanced); }
      GrowsOver(applied, advanced, h);
      AbsorbSourced(c, me, ready, e, s, applied, h);
    }
  }

  lemma AdvancedParts(c: Crypto, id: Id, g: Group, h: Group)
    requires Advances(c, id, g, Some(h))
    ensures h.record.admitted == g.record.admitted && h.record.consent == g.record.consent && h.record.left == g.record.left
    ensures Inv(c, id, h)
  {
    hide Inv;
  }

  lemma RelabelGrows(c: Crypto, id: Id, g: Group, h: Group)
    requires Inv(c, id, g) && h == g.(record := g.record.(title := h.record.title))
    ensures Grows(g, h)
  {
    hide Inv, Grows;
    SameStoreGrows(c, id, g, h);
  }

  lemma StoredReady(c: Crypto, me: Card, g: Group, epochId: Id, s: Snapshot) returns (ready: Group)
    requires c.Injective() && Inv(c, me.id, g) && AcceptsSnapshot(c, me, g, epochId)
    requires CheckedSnapshot(c, g, FindEpoch(g, epochId).value, s)
    ensures var e := FindEpoch(g, epochId).value;
      ready == Thawing(if e.body.snapshotHash in g.snapshots && g.snapshots[e.body.snapshotHash] == s then g else Storing(g, e, s))
    ensures Inv(c, me.id, ready) && Verified(c, ready, FindEpoch(g, epochId).value, s) && Grows(g, ready)
  {
    hide Inv, Grows, CheckedSnapshot, FindEpoch, HasCard, Indexed, c.Injective, Verified;
    InvIndexed(c, me.id, g);
    FoundIsOnChain(c, g, epochId);
    var e := FindEpoch(g, epochId).value;
    CheckedIsHash(c, g, e, s);
    StoringKeepsInv(c, me.id, g, e, s);
    var stored := Storing(g, e, s);
    if e.body.snapshotHash in g.snapshots && g.snapshots[e.body.snapshotHash] == s { assert stored == g; }
    ready := Thawing(stored);
    FreezingKeepsInv(c, me.id, stored, ready);
    GrowsOver(g, stored, ready);
    StoredIsVerified(c, g, ready, e, s);
  }

  lemma CommitSourced(
      c: Crypto, me: Card, g: Group, expected: Id, next: Epoch, after: Snapshot, room: bool, roomAfter: bool)
    requires c.Injective() && Inv(c, me.id, g) && Commit(c, me, g, expected, next, after, room, roomAfter).Some?
    ensures var h := Commit(c, me, g, expected, next, after, room, roomAfter).value; Indexed(h) && Sourced(c, g, h)
  {
    hide Inv, Grows, Append, AdvanceChecked, ApplyOwnConsent, TransitionOk, SnapshotAt, c.Injective, Verified, RestsOn, HasCard;
    var h := Commit(c, me, g, expected, next, after, room, roomAfter).value;
    TransitionParts(c, g.record.anchor, g.record.head.value, next, after);
    AppendSuccessor(c, me, g, next, room);
    CommittedIsVerified(c, me, g, next, after);
    var ready := Ready(Adopting(me, g, next), next, after);
    AuthorityProofs.ApplyKeepsInv(c, me, ready, next, after);
    var applied := ApplyOwnConsent(c, me, ready, next, after).value;
    AdvanceCheckedKeepsInv(c, me.id, applied);
    AdvancedParts(c, me.id, applied, h);
    InvIndexed(c, me.id, h);
    AbsorbSourced(c, me, ready, next, after, applied, h);
  }

  lemma StepSourced(c: Crypto, me: Card, g: Group, e: Event)
    requires c.Injective() && Inv(c, me.id, g) && !e.Accepting? && Attempt(c, me, g, e).Some?
    ensures var h := Attempt(c, me, g, e).value; Indexed(h) && Sourced(c, g, h)
  {
    hide Inv, Grows, ObservePage, ObserveSnapshot, Append, Commit, AdvanceChecked, NewFence, RestsOn, Indexed;
    hide InvitationOk, c.Injective, LinkOk;
    AttemptKeepsInv(c, me, g, e);
    var h := Attempt(c, me, g, e).value;
    InvIndexed(c, me.id, h);
    match e
    case NewCard(_) =>
    case SeeHeaders(proofs) => PageIsQuiet(c, me, g, proofs);
    case SeeSnapshot(id, s, room) => SnapshotSourced(c, me, g, id, s, room);
    case Resume(room) =>
      if g.record.frozen.value.NoRoomForHeader? { AppendIsQuiet(c, me, Thawing(g), g.record.frozen.value.observed, room); }
    case Invited(_, _, _) =>
    case Accepting(_, _) =>
    case Committing(expected, next, after, room, more) => CommitSourced(c, me, g, expected, next, after, room, more);
    case Closing(expected, closed, room) =>
      AppendIsQuiet(c, me, g, closed, room);
      var grown := Append(c, me, g, closed, room).0;
      AppendKeepsInv(c, me, g, closed, room);
      AdvanceCheckedKeepsInv(c, me.id, grown);
      AdvancedParts(c, me.id, grown, h);
    case Leaving(_, _) =>
  }

  lemma AcceptOnlyConsents(c: Crypto, me: Card, g: Group, expected: Id, consent: Consent)
    ensures Accept(c, me, g, expected, consent).Some? ==>
      Accept(c, me, g, expected, consent).value == g.(record := g.record.(consent := Some(consent)))
  {
    hide ConsentOk, InvitationOk, HasCard;
  }

  /** What a run says about admission, starting where there is neither admission nor consent. */
  ghost predicate OnlyByConsent(c: Crypto, s: State, t: State, made: set<Consent>)
    requires Indexed(t.group)
  {
    && (t.group.record.consent.Some? ==> t.group.record.consent.value in made)
    && (t.group.record.admitted.Some? ==> exists x :: x in made && RestsOn(c, t.group, x))
    && (made == {} ==> t.group.record.left == s.group.record.left)
  }

  /** After leaving, membership returns only through a consent made by a later acceptance. */
  lemma {:induction false} ReturnNeedsConsent(c: Crypto, s: State, events: seq<Event>)
    requires c.Injective() && Inv(c, s.me.id, s.group)
    requires s.group.record.admitted.None? && s.group.record.consent.None? && s.group.record.left.Some?
    ensures var t := After(c, s, events); Indexed(t.group) && OnlyByConsent(c, s, t, Made(c, s, events))
    decreases |events|
  {
    hide Inv, Grows, RestsOn, Attempt, c.Injective, Indexed;
    RunKeepsInv(c, s, events);
    InvIndexed(c, s.me.id, After(c, s, events).group);
    if events != [] {
      var early, e := events[..|events| - 1], events[|events| - 1];
      RunKeepsInv(c, s, early);
      InvIndexed(c, s.me.id, After(c, s, early).group);
      ReturnNeedsConsent(c, s, early);
      ReturnStep(c, s, After(c, s, early), e, Made(c, s, early), Made(c, s, events));
    }
  }

  lemma ReturnStep(c: Crypto, s: State, b: State, e: Event, made: set<Consent>, more: set<Consent>)
    requires c.Injective() && Inv(c, b.me.id, b.group) && Indexed(b.group) && OnlyByConsent(c, s, b, made)
    requires s.group.record.left.Some? && Indexed(Apply(c, b, e).group)
    requires more == made + (if e.Accepting? && Attempt(c, b.me, b.group, e).Some? then {e.consent} else {})
    ensures OnlyByConsent(c, s, Apply(c, b, e), more)
  {
    hide Inv, Grows, RestsOn, Attempt, c.Injective, Indexed;
    var t := Apply(c, b, e);
    ApplyKeepsInv(c, b, e);
    if Attempt(c, b.me, b.group, e).Some? {
      if e.Accepting? {
        ConsentStep(c, b.me, b.group, e);
      } else {
        StepSourced(c, b.me, b.group, e);
      }
    }
    if t.group.record.admitted.Some? && t.group.record.admitted == b.group.record.admitted {
      var x :| x in made && RestsOn(c, b.group, x);
      RestsOnGrows(c, b.group, t.group, x);
    }
  }

  lemma ConsentStep(c: Crypto, me: Card, g: Group, e: Event)
    requires e.Accepting? && Attempt(c, me, g, e).Some?
    ensures Attempt(c, me, g, e).value == g.(record := g.record.(consent := Some(e.consent)))
  {
    hide Accept;
    AcceptOnlyConsents(c, me, g, e.expected, e.consent);
  }

  /** Leaving holds: whatever is seen afterwards, "active" needs a fresh acceptance, carried by the admitting epoch itself. */
  lemma LeftStaysLeft(c: Crypto, s: State, request: Leave, nonce: Nonce, events: seq<Event>)
    requires c.Injective() && Inv(c, s.me.id, s.group) && LeaveGroup(c, s.me, s.group, request, nonce).Some?
    ensures var b := Apply(c, s, Leaving(request, nonce)); var t := After(c, b, events);
      && Indexed(t.group)
      && (Made(c, b, events) == {} ==>
            t.group.record.left.Some? && t.group.record.left == b.group.record.left
            && StatusOf(c, t.me, t.group) in {Some(HasLeft), Some(Closed), Some(IsForked), Some(IsFull)})
      && (StatusOf(c, t.me, t.group) == Some(Active) ==>
            t.group.record.admitted.Some? && exists x :: x in Made(c, b, events) && RestsOn(c, t.group, x))
  {
    hide Inv, Grows, RestsOn, c.Injective, Indexed, NewFence, After, Made;
    var b := Apply(c, s, Leaving(request, nonce));
    ApplyKeepsInv(c, s, Leaving(request, nonce));
    RunKeepsInv(c, b, events);
    ReturnNeedsConsent(c, b, events);
    var t := After(c, b, events);
    ActiveExactly(c, t.me, t.group);
  }

  // Forks and endings

  lemma {:induction false} ForkedPage(c: Crypto, me: Card, g: Group, proofs: seq<Proof>)
    requires g.record.frozen.Some? && g.record.frozen.value.Forked?
    ensures ObservePage(c, me, g, proofs).group == g
    decreases |proofs|
  {
    hide EpochOk, LinkOk;
  }

  lemma ForkedStep(c: Crypto, s: State, e: Event)
    requires s.group.record.frozen.Some? && s.group.record.frozen.value.Forked?
    ensures var h := Apply(c, s, e).group;
      SameStore(s.group, h) && h.record.frozen == s.group.record.frozen
  {
    hide EpochOk, LinkOk, ObservePage, Absorb, NewFence, InvitationOk;
    if e.SeeHeaders? { ForkedPage(c, s.me, s.group, e.proofs); }
  }

  /** A forked group stays forked, on the same evidence, with the same head and chain, for ever. */
  lemma {:induction false} ForkedForEver(c: Crypto, s: State, events: seq<Event>)
    requires s.group.record.frozen.Some? && s.group.record.frozen.value.Forked?
    ensures var h := After(c, s, events).group; SameStore(s.group, h) && h.record.frozen == s.group.record.frozen
    ensures StatusOf(c, After(c, s, events).me, After(c, s, events).group) == Some(IsForked)
    decreases |events|
  {
    hide Apply;
    if events != [] {
      ForkedForEver(c, s, events[..|events| - 1]);
      ForkedStep(c, After(c, s, events[..|events| - 1]), events[|events| - 1]);
    }
  }

  /** A closed chain is never extended. */
  lemma ClosedForEver(c: Crypto, s: State, events: seq<Event>)
    requires c.Injective() && Inv(c, s.me.id, s.group) && s.group.record.head.Some? && !s.group.record.head.value.body.open
    ensures After(c, s, events).group.record.head == s.group.record.head
  {
    hide Inv, After, ChainOk, c.Injective, Grows;
    RunKeepsInv(c, s, events);
    var h := After(c, s, events).group;
    InvIndexed(c, s.me.id, s.group);
    InvIndexed(c, s.me.id, h);
    ClosedIsLast(c, s.group, h);
  }

  lemma ClosedIsLast(c: Crypto, g: Group, h: Group)
    requires ChainInv(c, g) && ChainInv(c, h) && Grows(g, h) && g.record.head.Some? && !g.record.head.value.body.open
    ensures h.record.head == g.record.head
  {
    hide EpochOk;
    HeadIsLast(g);
    HeadsGrow(g, h);
    if HeadNumber(h) > HeadNumber(g) { ChainLink(c, h.record.anchor, Epochs(h), HeadNumber(g) + 1); }
    HeadIsLast(h);
  }

  lemma HeadsGrow(g: Group, h: Group)
    requires Grows(g, h) && g.record.head.Some?
    ensures h.record.head.Some? && HeadNumber(g) <= HeadNumber(h) && Epochs(h)[HeadNumber(g)] == Epochs(g)[HeadNumber(g)]
  {
  }

  // Replicas

  ghost predicate AgreeAt(a: seq<Epoch>, b: seq<Epoch>, n: int) {
    0 <= n < |a| && n < |b| && a[n].id == b[n].id
  }

  /** One id in common means the whole history below it in common. */
  lemma {:induction false} AgreeBelow(c: Crypto, anchor: Anchor, a: seq<Epoch>, b: seq<Epoch>, n: nat, m: nat)
    requires c.Injective() && ChainOk(c, anchor, a) && ChainOk(c, anchor, b) && AgreeAt(a, b, n) && m <= n
    ensures AgreeAt(a, b, m) && a[m].body == b[m].body
    decreases n - m
  {
    hide EpochOk, PathOk, ChainOk, c.Injective;
    ChainLink(c, anchor, a, n);
    ChainLink(c, anchor, b, n);
    SameIdSameBody(c, anchor, a[n], b[n]);
    if m < n {
      LinkParts(c, anchor, a[n - 1], a[n]);
      LinkParts(c, anchor, b[n - 1], b[n]);
      AgreeBelow(c, anchor, a, b, n - 1, m);
    }
  }

  ghost predicate Comparable(a: seq<Epoch>, b: seq<Epoch>) {
    forall n :: 0 <= n < |a| && n < |b| ==> AgreeAt(a, b, n)
  }

  ghost predicate FirstDifference(a: seq<Epoch>, b: seq<Epoch>, n: int) {
    && 0 <= n < |a| && n < |b| && !AgreeAt(a, b, n)
    && (forall m :: 0 <= m < n ==> AgreeAt(a, b, m))
    && (forall m :: n <= m < |a| && m < |b| ==> !AgreeAt(a, b, m))
  }

  /** Two chains of one anchor are prefixes of one another, or part for good at one place. */
  lemma ComparableOrParted(c: Crypto, anchor: Anchor, a: seq<Epoch>, b: seq<Epoch>)
    requires c.Injective() && ChainOk(c, anchor, a) && ChainOk(c, anchor, b)
    ensures Comparable(a, b) || exists n :: FirstDifference(a, b, n)
  {
    hide ChainOk, c.Injective;
    if !Comparable(a, b) {
      var k :| 0 <= k < |a| && k < |b| && !AgreeAt(a, b, k);
      var n := FirstParting(c, anchor, a, b, k);
      forall m | n <= m < |a| && m < |b| ensures !AgreeAt(a, b, m) {
        if AgreeAt(a, b, m) { AgreeBelow(c, anchor, a, b, m, n); }
      }
      assert FirstDifference(a, b, n);
    }
  }

  lemma {:induction false} FirstParting(c: Crypto, anchor: Anchor, a: seq<Epoch>, b: seq<Epoch>, k: nat) returns (n: nat)
    requires c.Injective() && ChainOk(c, anchor, a) && ChainOk(c, anchor, b)
    requires k < |a| && k < |b| && !AgreeAt(a, b, k)
    ensures n <= k && !AgreeAt(a, b, n) && forall m :: 0 <= m < n ==> AgreeAt(a, b, m)
    decreases k
  {
    hide ChainOk, c.Injective;
    if k == 0 {
      n := 0;
    } else if AgreeAt(a, b, k - 1) {
      n := k;
      forall m | 0 <= m < n ensures AgreeAt(a, b, m) { AgreeBelow(c, anchor, a, b, k - 1, m); }
    } else {
      n := FirstParting(c, anchor, a, b, k - 1);
    }
  }

  ghost predicate NotForked(g: Group) {
    g.record.frozen.Some? ==> !g.record.frozen.value.Forked?
  }

  /** Shown the other replica's epoch at the first difference, a replica freezes on exactly that pair. */
  lemma DifferenceFreezes(c: Crypto, me: Card, g: Group, h: Group, hid: Id, n: nat, room: bool)
    requires c.Injective() && Inv(c, me.id, g) && Inv(c, hid, h) && h.record.anchor == g.record.anchor && NotForked(g)
    requires FirstDifference(Epochs(g), Epochs(h), n)
    ensures Append(c, me, g, Epochs(h)[n], room) == (Freezing(g, Forked(Epochs(g)[n], Epochs(h)[n])), Frozen)
  {
    hide EpochOk, LinkOk, ChainOk, AdmissionInv, InvitationInv, FenceOk, Keyed, c.Injective, Extend, FirstDifference, Indexed;
    PartingPlace(c, g, h, n);
    var e := Epochs(h)[n];
    RivalOnChain(c, me.id, g, n);
    if n > 0 {
      assert Header(g, n - 1) == Some(Epochs(g)[n - 1]) by { ParentOnChain(c, g, n); }
    }
  }

  /** The certificates on both sides of a parting, and the link of the stranger to the common parent. */
  lemma PartingPlace(c: Crypto, g: Group, h: Group, n: nat)
    requires c.Injective() && ChainInv(c, g) && ChainInv(c, h) && h.record.anchor == g.record.anchor
    requires FirstDifference(Epochs(g), Epochs(h), n)
    ensures n <= HeadNumber(g) && n <= HeadNumber(h) && Epochs(g)[n].id != Epochs(h)[n].id
    ensures EpochOk(c, g.record.anchor, Epochs(h)[n]) && Epochs(h)[n].body.number == n
    ensures n > 0 ==> Epochs(h)[n].body.previous == Some(Epochs(g)[n - 1].id)
    ensures n > 0 ==> LinkOk(c, g.record.anchor, Epochs(g)[n - 1], Epochs(h)[n])
  {
    hide EpochOk, ChainOk, c.Injective, PathOk;
    ChainNumbers(c, h, n);
    if n > 0 {
      assert AgreeAt(Epochs(g), Epochs(h), n - 1);
      AgreeBelow(c, g.record.anchor, Epochs(g), Epochs(h), n - 1, n - 1);
      ChainLink(c, g.record.anchor, Epochs(g), n - 1);
      ChainLink(c, h.record.anchor, Epochs(h), n);
      LinkTransfers(c, g.record.anchor, Epochs(h)[n - 1], Epochs(g)[n - 1], Epochs(h)[n]);
    }
  }

  lemma LinkTransfers(c: Crypto, anchor: Anchor, p: Epoch, q: Epoch, e: Epoch)
    requires LinkOk(c, anchor, p, e) && EpochOk(c, anchor, q) && q.id == p.id && q.body == p.body
    ensures LinkOk(c, anchor, q, e) && e.body.previous == Some(q.id)
  {
    hide EpochOk;
  }

  lemma RivalOnChain(c: Crypto, id: Id, g: Group, n: nat)
    requires Inv(c, id, g) && n <= HeadNumber(g)
    ensures Indexed(g) && Rival(g, n) == Some(Epochs(g)[n])
  {
    hide EpochOk, ChainOk, AdmissionInv, InvitationInv, FenceOk, Keyed;
    if g.record.frozen.Some? && g.record.frozen.value.NoRoomForHeader? {
      LinkParts(c, g.record.anchor, g.record.head.value, g.record.frozen.value.observed);
    }
  }

  /** Two unforked replicas of one anchor agree as far as both go, or either one's epoch at the parting freezes the
      other, on the same pair of certificates whichever sees it. */
  lemma ForkAgreement(c: Crypto, me: Card, g: Group, you: Card, h: Group)
    requires c.Injective() && Inv(c, me.id, g) && Inv(c, you.id, h) && h.record.anchor == g.record.anchor
    requires NotForked(g) && NotForked(h)
    ensures Comparable(Epochs(g), Epochs(h))
      || exists n :: FirstDifference(Epochs(g), Epochs(h), n)
                     && forall room :: Append(c, me, g, Epochs(h)[n], room).0.record.frozen == Some(Forked(Epochs(g)[n], Epochs(h)[n]))
                                       && Append(c, you, h, Epochs(g)[n], room).0.record.frozen == Some(Forked(Epochs(h)[n], Epochs(g)[n]))
  {
    hide Inv, ChainOk, c.Injective, Append, FirstDifference, AgreeAt;
    InvIndexed(c, me.id, g);
    InvIndexed(c, you.id, h);
    ComparableOrParted(c, g.record.anchor, Epochs(g), Epochs(h));
    if n :| FirstDifference(Epochs(g), Epochs(h), n) {
      OtherWay(Epochs(g), Epochs(h), n);
      forall room
        ensures Append(c, me, g, Epochs(h)[n], room).0.record.frozen == Some(Forked(Epochs(g)[n], Epochs(h)[n]))
                && Append(c, you, h, Epochs(g)[n], room).0.record.frozen == Some(Forked(Epochs(h)[n], Epochs(g)[n])) {
        DifferenceFreezes(c, me, g, h, you.id, n, room);
        DifferenceFreezes(c, you, h, g, me.id, n, room);
      }
    }
  }

  lemma OtherWay(a: seq<Epoch>, b: seq<Epoch>, n: int)
    requires FirstDifference(a, b, n)
    ensures FirstDifference(b, a, n) && 0 <= n < |a| && n < |b|
  {
    forall m | 0 <= m < n ensures AgreeAt(b, a, m) { assert AgreeAt(a, b, m); }
    forall m | n <= m < |b| && m < |a| ensures !AgreeAt(b, a, m) { assert !AgreeAt(a, b, m); }
  }

  // Pages

  /** What a page adopts is counted, and nothing after the item that stops it has any effect. */
  lemma {:induction false} PageTail(c: Crypto, me: Card, g: Group, proofs: seq<Proof>, tail: seq<Proof>)
    ensures var page := ObservePage(c, me, g, proofs);
      ObservePage(c, me, g, proofs + tail).group
        == if page.missing || page.rejected || page.failed then page.group
           else if Stops(c, me, g, proofs) then page.group
           else ObservePage(c, me, page.group, tail).group
    decreases |proofs|
  {
    hide Append;
    if proofs == [] {
      assert proofs + tail == tail;
    } else {
      assert (proofs + tail)[0] == proofs[0] && (proofs + tail)[1..] == proofs[1..] + tail;
      if proofs[0].epoch.Some? {
        var (h, step) := Append(c, me, g, proofs[0].epoch.value, proofs[0].room);
        if step.Adopted? || step.Duplicate? { PageTail(c, me, h, proofs[1..], tail); }
      }
    }
  }

  /** Whether some item of the page finds or leaves the group frozen. */
  function Stops(c: Crypto, me: Card, g: Group, proofs: seq<Proof>): bool
    decreases |proofs|
  {
    proofs != [] && proofs[0].epoch.Some? &&
    var (h, step) := Append(c, me, g, proofs[0].epoch.value, proofs[0].room);
    step.Frozen? || ((step.Adopted? || step.Duplicate?) && Stops(c, me, h, proofs[1..]))
  }

  /** A malformed last item cannot undo what the page before it established. */
  lemma MalformedTailIsHarmless(c: Crypto, me: Card, g: Group, proofs: seq<Proof>, bad: Proof)
    requires bad.epoch.None?
    ensures ObservePage(c, me, g, proofs + [bad]).group == ObservePage(c, me, g, proofs).group
  {
    hide Append;
    PageTail(c, me, g, proofs, [bad]);
  }

  lemma {:induction false} PageCounts(c: Crypto, me: Card, g: Group, proofs: seq<Proof>)
    requires c.Injective() && Inv(c, me.id, g)
    ensures var page := ObservePage(c, me, g, proofs); HeadNumber(page.group) == HeadNumber(g) + page.accepted
    decreases |proofs|
  {
    hide Inv, EpochOk, LinkOk, HasCard, c.Injective;
    if proofs != [] && proofs[0].epoch.Some? {
      var (h, step) := Append(c, me, g, proofs[0].epoch.value, proofs[0].room);
      AppendKeepsInv(c, me, g, proofs[0].epoch.value, proofs[0].room);
      AppendCounts(c, me, g, proofs[0].epoch.value, proofs[0].room);
      if step.Adopted? || step.Duplicate? { PageCounts(c, me, h, proofs[1..]); }
    }
  }

  lemma AppendCounts(c: Crypto, me: Card, g: Group, e: Epoch, room: bool)
    ensures var (h, step) := Append(c, me, g, e, room);
      HeadNumber(h) == HeadNumber(g) + (if step.Adopted? then 1 else 0)
  {
    hide EpochOk, LinkOk, HasCard;
  }
}

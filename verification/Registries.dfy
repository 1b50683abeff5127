/** The registry itself: one group's record, changed in place inside transactions that may be abandoned. */
module Registries {
  import opened Common
  import Texts
  import opened Groups
  import A = Authority

  class Registry {
    const c: Crypto
    const anchor: Anchor
    const me: Card
    var head: Option<Epoch>
    var title: Option<Texts.Text>
    var everJoined: bool
    var admitted: Option<A.Admission>
    var checked: Option<int>
    var invitation: Option<Invitation>
    var invitationParent: Option<Epoch>
    var invitationCard: Option<Card>
    var consent: Option<Consent>
    var left: Option<A.Fence>
    var frozen: Option<A.Freeze>
    var headers: map<int, Epoch>
    var snapshots: map<Id, Snapshot>

    constructor (c: Crypto, me: Card, g: A.Group)
      ensures this.c == c && this.me == me && anchor == g.record.anchor && View() == g
    {
      this.c, this.me, anchor := c, me, g.record.anchor;
      head, title, everJoined, admitted := g.record.head, g.record.title, g.record.everJoined, g.record.admitted;
      checked, invitation, invitationParent := g.record.checked, g.record.invitation, g.record.invitationParent;
      invitationCard, consent, left, frozen := g.record.invitationCard, g.record.consent, g.record.left, g.record.frozen;
      headers, snapshots := g.headers, g.snapshots;
    }

    function View(): A.Group
      reads this
    {
      A.Group(
        A.Record(anchor, head, title, everJoined, admitted, checked, invitation, invitationParent, invitationCard, consent, left, frozen),
        headers, snapshots)
    }

    /** Abandons a transaction. */
    method Restore(g: A.Group)
      requires g.record.anchor == anchor
      modifies this
      ensures View() == g
    {
      RestoreInvitation(g.record);
      head, title, everJoined, admitted := g.record.head, g.record.title, g.record.everJoined, g.record.admitted;
      checked, left, frozen := g.record.checked, g.record.left, g.record.frozen;
      headers, snapshots := g.headers, g.snapshots;
    }

    method RestoreInvitation(r: A.Record)
      modifies `invitation, `invitationParent, `invitationCard, `consent
      ensures invitation == r.invitation && invitationParent == r.invitationParent
      ensures invitationCard == r.invitationCard && consent == r.consent
    {
      invitation, invitationParent, invitationCard, consent := r.invitation, r.invitationParent, r.invitationCard, r.consent;
    }

    method Header(n: int) returns (e: Option<Epoch>)
      ensures e == A.Header(View(), n)
    {
      if n in headers { return Some(headers[n]); }
      if head.Some? && !head.value.body.open && head.value.body.number == n { return head; }
      return None;
    }

    method FindEpoch(id: Id) returns (e: Option<Epoch>)
      ensures e == A.FindEpoch(View(), id)
    {
      var n := 0;
      while head.Some? && n <= head.value.body.number
        invariant 0 <= n
        invariant A.FindEpoch(View(), id) == A.FindFrom(View(), id, n)
        decreases A.HeadNumber(View()) - n
      {
        e := Header(n);
        if e.Some? && e.value.id == id { return; }
        n := n + 1;
      }
      return None;
    }

    /** The verified parent, or nothing where it is missing or does not link. */
    method Parent(e: Epoch) returns (p: Option<Epoch>)
      ensures p.Some? == A.HasParent(c, View(), e)
      ensures p.Some? ==> p == A.Header(View(), e.body.number - 1)
    {
      hide LinkOk;
      p := Header(e.body.number - 1);
      if p.None? || e.body.previous != Some(p.value.id) { return None; }
      var link := VerifyEpochLink(c, anchor, p.value, e);
      if link.None? { return None; }
    }

    method CheckSnapshot(e: Epoch, s: Snapshot) returns (ok: bool)
      requires c.Injective()
      ensures ok == A.CheckedSnapshot(c, View(), e, s)
    {
      hide SnapshotOk, TransitionOk, A.HasParent, c.Injective;
      ok := VerifySnapshot(c, s, anchor, e);
      if !ok || e.body.number == 0 { return; }
      var p := Parent(e);
      if p.None? { return false; }
      var kind := VerifySnapshotTransition(c, anchor, p.value, e, s);
      ok := kind.Some?;
    }

    method Snapshot(e: Epoch) returns (r: A.Lookup)
      requires c.Injective()
      ensures r == A.SnapshotAt(c, View(), e)
    {
      hide A.CheckedSnapshot, c.Injective;
      if e.body.snapshotHash !in snapshots { return A.Missing; }
      var s := snapshots[e.body.snapshotHash];
      var ok := CheckSnapshot(e, s);
      return if ok then A.Found(s) else A.Corrupt;
    }

    /** Another certificate for an epoch that is there already: proof of a fork, if it hangs from the same parent. */
    method Challenge(same: Epoch, e: Epoch) returns (step: A.Step)
      modifies `frozen
      ensures (View(), step) == A.Challenge(c, old(View()), same, e)
    {
      hide LinkOk;
      if same.id == e.id { return A.Duplicate; }
      if e.body.number > 0 {
        var parent := Header(e.body.number - 1);
        if parent.None? || e.body.previous != Some(parent.value.id) { return A.MissingProof; }
        var link := VerifyEpochLink(c, anchor, parent.value, e);
        if link.None? { return A.Invalid; }
      }
      frozen := Some(A.Forked(same, e));
      return A.Frozen;
    }

    /** A certificate for an epoch that is not there yet. */
    method Extend(e: Epoch, room: bool) returns (step: A.Step)
      modifies `head, `headers, `frozen, `admitted, `checked
      ensures (View(), step) == A.Extend(c, me, old(View()), e, room)
    {
      hide LinkOk;
      if head.Some? {
        if e.body.number != head.value.body.number + 1 || e.body.previous != Some(head.value.id) { return A.MissingProof; }
        var link := VerifyEpochLink(c, anchor, head.value, e);
        if link.None? { return A.Invalid; }
      } else if e.body.number != 0 {
        return A.MissingProof;
      }
      if e.body.open {
        if !room {
          if head.None? { return A.Failed; }
          frozen := Some(A.NoRoomForHeader(e));
          return A.Frozen;
        }
        headers := headers[e.body.number := e];
      }
      head := Some(e);
      if admitted.Some? && Member(me.id, admitted.value.cardHash) !in e.body.members {
        admitted, checked := None, None;
      }
      return A.Adopted;
    }

    method Append(e: Epoch, room: bool) returns (step: A.Step)
      modifies `head, `headers, `frozen, `admitted, `checked
      ensures (View(), step) == A.Append(c, me, old(View()), e, room)
    {
      hide EpochOk, LinkOk, A.Challenge, A.Extend;
      var ok := VerifyEpoch(c, anchor, e);
      if !ok { return A.Invalid; }
      if frozen.Some? && frozen.value.Forked? { return A.Frozen; }
      var same: Option<Epoch>;
      if frozen.Some? && frozen.value.observed.body.number == e.body.number {
        same := Some(frozen.value.observed);
      } else {
        same := Header(e.body.number);
      }
      if same.Some? {
        step := Challenge(same.value, e);
      } else if frozen.Some? {
        step := A.Frozen;
      } else {
        step := Extend(e, room);
      }
    }

    /** Observes a page inside one transaction; a rejected item ends it, an error abandons it. */
    method ObservePage(proofs: seq<A.Proof>) returns (page: A.Page)
      modifies this
      ensures page == A.ObservePage(c, me, old(View()), proofs)
      ensures View() == A.Observe(c, me, old(View()), proofs)
    {
      hide A.Append;
      var before := View();
      var k, accepted := 0, 0;
      while k < |proofs|
        invariant 0 <= k <= |proofs|
        invariant var rest := A.ObservePage(c, me, View(), proofs[k..]);
          A.ObservePage(c, me, before, proofs) == rest.(accepted := rest.accepted + accepted)
      {
        if proofs[k].epoch.None? {
          return A.Page(View(), accepted, false, true, false);
        }
        var step := Append(proofs[k].epoch.value, proofs[k].room);
        assert proofs[k..][1..] == proofs[k + 1..];
        match step {
          case Adopted => accepted := accepted + 1;
          case Duplicate =>
          case Frozen => return A.Page(View(), accepted, false, false, false);
          case MissingProof => return A.Page(View(), accepted, true, false, false);
          case Invalid => return A.Page(View(), accepted, false, true, false);
          case Failed =>
            page := A.Page(View(), accepted, false, false, true);
            Restore(before);
            return;
        }
        k := k + 1;
      }
      page := A.Page(View(), accepted, false, false, false);
    }

    method HoldsJoin(s: Snapshot, id: Id) returns (found: bool)
      ensures found == A.HoldsJoin(s, id)
    {
      found := false;
      for j := 0 to |s.joins|
        invariant found <==> exists i :: 0 <= i < j && s.joins[i].id == id
      {
        if s.joins[j].id == id { found := true; }
      }
    }

    method HoldsCard(s: Snapshot) returns (local: bool)
      ensures local == A.HoldsCard(c, s, me)
    {
      local := false;
      for j := 0 to |s.members|
        invariant local <==> exists i :: 0 <= i < j && s.members[i].id == me.id && c.CardHash(s.members[i]) == c.CardHash(me)
      {
        if s.members[j].id == me.id && c.CardHash(s.members[j]) == c.CardHash(me) { local := true; }
      }
    }

    /** Whether every header from number `from` to the head has the local card. */
    method Stays(from: int) returns (stays: bool)
      requires head.Some?
      ensures stays == A.StaysFrom(c, me, View(), from)
    {
      var n := from;
      while n <= head.value.body.number
        invariant forall k :: from <= k < n && k <= A.HeadNumber(View()) ==> A.HasCard(A.Header(View(), k), me.id, c.CardHash(me))
        decreases head.value.body.number - n
      {
        var h := Header(n);
        if h.None? || Member(me.id, c.CardHash(me)) !in h.value.body.members { return false; }
        n := n + 1;
      }
      return true;
    }

    method Admit(e: Epoch)
      modifies this
      ensures View() == A.Admitting(c, me, old(View()), e)
    {
      DropInvitation();
      admitted, checked, everJoined, left := Some(A.Admission(c.CardHash(me), e.id)), Some(e.body.number), true, None;
    }

    /** Forgets the pending invitation and consent. */
    method DropInvitation()
      modifies `invitation, `invitationParent, `invitationCard, `consent
      ensures invitation.None? && invitationParent.None? && invitationCard.None? && consent.None?
    {
      invitation, invitationParent, invitationCard, consent := None, None, None, None;
    }

    /** Whether an error should abandon the transaction. */
    method ApplyOwnConsent(e: Epoch, s: Snapshot) returns (ok: bool)
      modifies this
      ensures var next := A.ApplyOwnConsent(c, me, old(View()), e, s);
        ok == next.Some? && (ok ==> View() == next.value)
    {
      hide A.HasParent, ConsentOk, c.CardHash, A.Header, A.Admitting, A.StaysFrom, A.HoldsCard, A.HoldsJoin;
      if consent.None? || head.None? { return true; }
      var found := HoldsJoin(s, consent.value.id);
      if !found { return true; }
      var local := HoldsCard(s);
      if !local || e.body.number == 0 { return false; }
      var p := Parent(e);
      if p.None? || !ConsentOk(c, consent.value, anchor, p.value, me) { return false; }
      var stays := Stays(e.body.number);
      if !stays { return true; }
      Admit(e);
      return true;
    }

    method AdvanceChecked() returns (ok: bool)
      requires c.Injective()
      modifies `checked, `title
      ensures var next := A.AdvanceChecked(c, old(View()));
        ok == next.Some? && (ok ==> View() == next.value)
    {
      hide A.SnapshotAt, c.Injective;
      if admitted.None? || checked.None? || head.None? { return true; }
      var n := checked.value + 1;
      while n <= head.value.body.number
        invariant A.AdvanceChecked(c, old(View())) == A.AdvanceFrom(c, View(), n)
        decreases head.value.body.number - n
      {
        var e := Header(n);
        if e.None? { return false; }
        var found := Snapshot(e.value);
        match found {
          case Missing => return true;
          case Corrupt => return false;
          case Found(s) => checked, title := Some(n), Some(s.title);
        }
        n := n + 1;
      }
      return true;
    }

    /** Runs the two follow-ups of a stored snapshot. */
    method Absorb(e: Epoch, s: Snapshot) returns (ok: bool)
      requires c.Injective()
      modifies this
      ensures var next := A.Absorb(c, me, old(View()), e, s);
        ok == next.Some? && (ok ==> View() == next.value)
    {
      hide A.ApplyOwnConsent, A.AdvanceChecked, c.Injective;
      ok := ApplyOwnConsent(e, s);
      if !ok { return; }
      ok := AdvanceChecked();
      if !ok { return; }
      if admitted.Some? && head.Some? && head.value.id == e.id && checked == Some(head.value.body.number) {
        title := Some(s.title);
      }
    }

    method ObserveSnapshot(epochId: Id, s: Snapshot, room: bool) returns (ok: bool)
      requires c.Injective()
      modifies this
      ensures var next := A.ObserveSnapshot(c, me, old(View()), epochId, s, room);
        ok == next.Some? && View() == if ok then next.value else old(View())
    {
      hide A.FindEpoch, A.CheckedSnapshot, A.Absorb, c.Injective, c.CardHash;
      var before := View();
      if frozen.Some? && !(frozen.value.NoRoomForSnapshot? && frozen.value.observed.id == epochId) { return false; }
      var found := FindEpoch(epochId);
      if found.None? { return false; }
      var e := found.value;
      ok := CheckSnapshot(e, s);
      if !ok { return; }
      if Member(me.id, c.CardHash(me)) !in e.body.members { return false; }
      if admitted.None? && consent.None? { return false; }
      var key := e.body.snapshotHash;
      if !(key in snapshots && snapshots[key] == s) {
        if !room {
          frozen := Some(A.NoRoomForSnapshot(e));
          return true;
        }
        snapshots := snapshots[key := s];
      }
      frozen := None;
      ok := Absorb(e, s);
      if !ok { Restore(before); }
    }

    method ResumeCapacity(room: bool) returns (ok: bool)
      modifies this
      ensures var next := A.ResumeCapacity(c, me, old(View()), room);
        ok == next.Some? && View() == if ok then next.value else old(View())
    {
      hide A.Append;
      var before := View();
      if frozen.None? || frozen.value.Forked? { return false; }
      if frozen.value.NoRoomForSnapshot? { return true; }
      var observed := frozen.value.observed;
      frozen := None;
      var step := Append(observed, room);
      if step.Invalid? || step.Failed? {
        Restore(before);
        return false;
      }
      return true;
    }

    method RememberInvitation(anchor: Anchor, parent: Epoch, received: Invitation) returns (ok: bool)
      modifies this
      ensures var next := A.RememberInvitation(c, me, old(View()), anchor, parent, received);
        ok == next.Some? && View() == if ok then next.value else old(View())
    {
      hide InvitationOk;
      if !InvitationOk(c, received, anchor, parent, me) || anchor.id != this.anchor.id { return false; }
      if frozen.Some? || (head.Some? && !head.value.body.open) { return false; }
      invitation, invitationParent, invitationCard, consent := Some(received), Some(parent), Some(me), None;
      return true;
    }

    method Accept(expected: Id, signed: Consent) returns (ok: bool)
      modifies `consent
      ensures var next := A.Accept(c, me, old(View()), expected, signed);
        ok == next.Some? && View() == if ok then next.value else old(View())
    {
      hide InvitationOk, ConsentOk, c.CardHash;
      if frozen.Some? || head.None? || !head.value.body.open || head.value.id != expected || invitation.None? { return false; }
      if Member(me.id, c.CardHash(me)) in head.value.body.members { return false; }
      if !InvitationOk(c, invitation.value, anchor, head.value, me) { return false; }
      if !ConsentOk(c, signed, anchor, head.value, me) || signed.body.invitation != invitation.value.id { return false; }
      consent := Some(signed);
      return true;
    }

    method IsOwner(expected: Id, allChecked: bool) returns (ok: bool)
      ensures ok == A.IsOwner(me, View(), expected, allChecked)
    {
      if anchor.body.creator.id != me.id || anchor.body.creator.signKey != me.signKey { return false; }
      if frozen.Some? || head.None? || !head.value.body.open || head.value.id != expected { return false; }
      if allChecked && checked != Some(head.value.body.number) { return false; }
      return true;
    }

    method Commit(expected: Id, next: Epoch, after: Snapshot, room: bool, roomAfter: bool) returns (ok: bool)
      requires c.Injective()
      modifies this
      ensures var result := A.Commit(c, me, old(View()), expected, next, after, room, roomAfter);
        ok == result.Some? && View() == if ok then result.value else old(View())
    {
      hide A.Append, A.ApplyOwnConsent, A.AdvanceChecked, A.SnapshotAt, TransitionOk, c.Injective, LinkOk, SnapshotOk;
      var before := View();
      ok := IsOwner(expected, true);
      if !ok { return; }
      var current := Snapshot(head.value);
      if !current.Found? { return false; }
      if !next.body.open { return false; }
      var kind := VerifySnapshotTransition(c, anchor, head.value, next, after);
      if kind.None? { return false; }
      var step := Append(next, room);
      if step.Invalid? || step.Failed? || frozen.Some? || !roomAfter {
        Restore(before);
        return false;
      }
      snapshots := snapshots[next.body.snapshotHash := after];
      title := Some(after.title);
      ok := ApplyOwnConsent(next, after);
      if ok { ok := AdvanceChecked(); }
      if !ok { Restore(before); }
    }

    method Close(expected: Id, next: Epoch, room: bool) returns (ok: bool)
      requires c.Injective()
      modifies this
      ensures var result := A.CloseGroup(c, me, old(View()), expected, next, room);
        ok == result.Some? && View() == if ok then result.value else old(View())
    {
      hide A.Append, A.AdvanceChecked, LinkOk, c.Injective;
      var before := View();
      ok := IsOwner(expected, false);
      if !ok { return; }
      if next.body.open { return false; }
      var link := VerifyEpochLink(c, anchor, head.value, next);
      if link.None? { return false; }
      var step := Append(next, room);
      if step.Invalid? || step.Failed? || frozen.Some? {
        Restore(before);
        return false;
      }
      ok := AdvanceChecked();
      if !ok { Restore(before); }
    }

    method Leave(request: Leave, nonce: Nonce) returns (ok: bool)
      modifies this
      ensures var result := A.LeaveGroup(c, me, old(View()), request, nonce);
        ok == result.Some? && View() == if ok then result.value else old(View())
    {
      hide LeaveOk, c.CardHash;
      if anchor.body.creator.id == me.id { return false; }
      if left.None? {
        var at := if head.Some? then Some(head.value.id) else None;
        if head.Some? && head.value.body.open && Member(me.id, c.CardHash(me)) in head.value.body.members {
          if !LeaveOk(c, request, anchor, head.value, me) { return false; }
          left := Some(A.Fence(at, request.body.nonce, Some(request), Some(me)));
        } else {
          left := Some(A.Fence(at, nonce, None, None));
        }
      }
      DropInvitation();
      admitted, checked := None, None;
      return true;
    }

    method Status() returns (status: Option<A.Status>)
      requires c.Injective()
      ensures status == A.StatusOf(c, me, View())
    {
      hide A.SnapshotAt, c.Injective, c.CardHash;
      if frozen.Some? { return Some(if frozen.value.Forked? then A.IsForked else A.IsFull); }
      if head.Some? && !head.value.body.open { return Some(A.Closed); }
      if left.Some? { return Some(A.HasLeft); }
      if head.None? { return Some(A.AwaitingProof); }
      if admitted.None? { return Some(if consent.Some? || !everJoined then A.Joining else A.Removed); }
      if admitted.value.cardHash != c.CardHash(me) { return Some(A.CardChanged); }
      if checked != Some(head.value.body.number) { return Some(A.AwaitingSnapshot); }
      var found := Snapshot(head.value);
      match found {
        case Missing => return Some(A.AwaitingSnapshot);
        case Corrupt => return None;
        case Found(_) => return Some(A.Active);
      }
    }
  }
}

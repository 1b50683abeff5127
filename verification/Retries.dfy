/** What a member's registry says about sending again, and why a send it rules out is ruled out for good. */
module Retries {
  import opened Common
  import opened Groups
  import opened GroupProofs
  import opened Authority
  import opened AuthorityProofs
  import opened Access
  import opened AccessProofs
  import opened Verdicts
  import Texts
  import R = AuthorityRuns
  import L = Ledger
  import Ls = Ledgers

  /** A member's registry: its card and what it holds about each group it has enrolled in. */
  datatype Registry = Registry(me: Card, groups: map<Id, Group>)

  ghost predicate Sound(c: Crypto, r: Registry) {
    c.Injective() && forall id :: id in r.groups ==> Inv(c, r.me.id, r.groups[id]) && StatusOf(c, r.me, r.groups[id]).Some?
  }

  ghost function RetryIn(c: Crypto, me: Card, g: Group, epochId: Id): L.Retry
    requires Inv(c, me.id, g) && StatusOf(c, me, g).Some?
  {
    L.RetryDecision(me, Some(ChainOf(c, me, g)), epochId)
  }

  /** The answers an outbox is reconciled with. */
  ghost function ChainsOf(c: Crypto, r: Registry): Ls.Chains
    requires Sound(c, r)
  {
    (group: Id, epochId: Id) => AnswerIn(c, r, group, epochId)
  }

  ghost function AnswerIn(c: Crypto, r: Registry, group: Id, epochId: Id): L.Retry
    requires Sound(c, r)
  {
    if group !in r.groups then L.RetryDecision(r.me, None, epochId)
    else
      hide Inv, StatusOf;
      RetryIn(c, r.me, r.groups[group], epochId)
  }

  /** An epoch of the chain, with the local member on its roster. */
  ghost predicate SentIn(me: Card, g: Group, epochId: Id, n: nat)
    requires Indexed(g)
  {
    n <= HeadNumber(g) && Epochs(g)[n].id == epochId && exists m :: m in Epochs(g)[n].body.members && m.id == me.id
  }

  /** A send is allowed again exactly while active, by a member of its epoch, with nobody dropped since; it is ruled
      out for good where the group is over for this member, where somebody else sent it, or where somebody was
      dropped; and otherwise it may wait for news. */
  lemma RetryExactly(c: Crypto, me: Card, g: Group, epochId: Id)
    requires c.Injective() && Inv(c, me.id, g) && StatusOf(c, me, g).Some?
    ensures Indexed(g)
    ensures RetryIn(c, me, g, epochId) == L.Allowed <==> (
      StatusOf(c, me, g) == Some(Active) && exists n: nat :: SentIn(me, g, epochId, n) && OnlyGrew(Epochs(g), n))
    ensures RetryIn(c, me, g, epochId).Terminal? <==> (
      || StatusOf(c, me, g).value in {HasLeft, Closed, IsForked, Removed, Authority.CardChanged}
      || exists n: nat :: n <= HeadNumber(g) && Epochs(g)[n].id == epochId && !(SentIn(me, g, epochId, n) && OnlyGrew(Epochs(g), n)))
    ensures RetryIn(c, me, g, epochId) == L.Terminal(L.NotAnAuthor) <==> (
      && StatusOf(c, me, g).value !in {HasLeft, Closed, IsForked, Removed, Authority.CardChanged}
      && exists n: nat :: n <= HeadNumber(g) && Epochs(g)[n].id == epochId && !SentIn(me, g, epochId, n))
    ensures StatusOf(c, me, g).value !in {HasLeft, Closed, IsForked, Removed, Authority.CardChanged} && RetryIn(c, me, g, epochId).Terminal? ==>
      RetryIn(c, me, g, epochId).reason in {L.NotAnAuthor, L.EpochChanged}
  {
    hide ChainOk, Inv, StatusOf, SnapshotAt, c.Injective, Compatible, Indexed, FindEpoch, OnlyGrew;
    InvIndexed(c, me.id, g);
    FindFinds(Epochs(g), epochId);
    if Find(Epochs(g), epochId).Some? {
      var e := Find(Epochs(g), epochId).value;
      var n :| 0 <= n < |Epochs(g)| && Epochs(g)[n] == e;
      CompatibleExactly(c, g, n);
      OnlyPlace(c, g, epochId, n);
    }
  }

  lemma OnlyPlace(c: Crypto, g: Group, id: Id, n: nat)
    requires c.Injective() && ChainInv(c, g) && n <= HeadNumber(g) && Epochs(g)[n].id == id
    ensures forall k: nat :: k <= HeadNumber(g) && Epochs(g)[k].id == id ==> k == n
  {
    hide ChainOk, c.Injective, Indexed;
    forall k: nat | k <= HeadNumber(g) && Epochs(g)[k].id == id ensures k == n {
      if k < n {
        IdsDiffer(c, g.record.anchor, Epochs(g), k, n);
      } else if n < k {
        IdsDiffer(c, g.record.anchor, Epochs(g), n, k);
      }
    }
  }

  /** The reason named for a group that is over. */
  lemma OverExactly(c: Crypto, me: Card, g: Group, epochId: Id)
    requires Inv(c, me.id, g) && StatusOf(c, me, g).Some?
    ensures var shown := StatusOf(c, me, g).value;
      && (shown == HasLeft ==> RetryIn(c, me, g, epochId) == L.Terminal(L.LeftGroup))
      && (shown == Closed ==> RetryIn(c, me, g, epochId) == L.Terminal(L.GroupClosed))
      && (shown == IsForked ==> RetryIn(c, me, g, epochId) == L.Terminal(L.GroupForked))
      && (shown == Removed ==> RetryIn(c, me, g, epochId) == L.Terminal(L.EpochChanged))
      && (shown == Authority.CardChanged ==> RetryIn(c, me, g, epochId) == L.Terminal(L.CardChanged))
  {
    hide Inv, StatusOf, Find, Compatible;
  }

  /** So it is then to nobody who is not on the head. */
  lemma AllowedMeansAdmissible(c: Crypto, me: Card, g: Group, epochId: Id)
    requires c.Injective() && Inv(c, me.id, g) && StatusOf(c, me, g).Some? && RetryIn(c, me, g, epochId) == L.Allowed
    ensures Indexed(g) && StatusOf(c, me, g) == Some(Active) && g.record.head.Some? && Find(Epochs(g), epochId).Some?
    ensures var e := Find(Epochs(g), epochId).value;
      me.id in MemberIds(e.body.members) && MemberIds(e.body.members) <= MemberIds(g.record.head.value.body.members)
  {
    hide ChainOk, Inv, StatusOf, SnapshotAt, c.Injective, Compatible, Indexed, FindEpoch;
    InvIndexed(c, me.id, g);
    FindFinds(Epochs(g), epochId);
    var e := Find(Epochs(g), epochId).value;
    var n :| 0 <= n < |Epochs(g)| && Epochs(g)[n] == e;
    ChainNumbers(c, g, n);
    SettledWithin(c, g, e);
  }

  /** Whether the chain has parted from the audience of this epoch. */
  ghost predicate PartedFrom(g: Group, epochId: Id)
    requires Indexed(g)
  {
    Find(Epochs(g), epochId).Some? && !Compatible(Epochs(g), g.record.head, Find(Epochs(g), epochId).value)
  }

  lemma PartedStays(c: Crypto, id: Id, you: Id, g: Group, h: Group, epochId: Id)
    requires Inv(c, id, g) && Inv(c, you, h) && Grows(g, h) && Indexed(g) && Indexed(h) && PartedFrom(g, epochId)
    ensures PartedFrom(h, epochId)
  {
    hide ChainOk, Inv, Compatible, Indexed;
    InvIndexed(c, id, g);
    InvIndexed(c, you, h);
    FindFinds(Epochs(g), epochId);
    var e := Find(Epochs(g), epochId).value;
    var n :| 0 <= n < |Epochs(g)| && Epochs(g)[n] == e;
    IncompatibleForEver(c, g, h, n);
    FindGrows(Epochs(g), Epochs(h), epochId);
  }

  /** Once a group has dropped somebody since the epoch of a send, or has closed, no later state of the registry allows
      that send again or leaves it open: whatever the status by then, the answer is final. */
  lemma PartedIsFinal(c: Crypto, s: State, events: seq<Event>, epochId: Id)
    requires c.Injective() && Inv(c, s.me.id, s.group) && Indexed(s.group) && PartedFrom(s.group, epochId)
    ensures var t := After(c, s, events); Inv(c, t.me.id, t.group) && StatusOf(c, t.me, t.group).Some?
    ensures var t := After(c, s, events); RetryIn(c, t.me, t.group, epochId).Terminal?
  {
    hide Inv, Grows, StatusOf, c.Injective, Indexed, PartedFrom;
    R.RunKeepsInv(c, s, events);
    var t := After(c, s, events);
    InvIndexed(c, t.me.id, t.group);
    R.ActiveExactly(c, t.me, t.group);
    PartedStays(c, s.me.id, t.me.id, s.group, t.group, epochId);
    FinalHere(c, t.me, t.group, epochId);
  }

  lemma FinalHere(c: Crypto, me: Card, g: Group, epochId: Id)
    requires Inv(c, me.id, g) && Indexed(g) && StatusOf(c, me, g).Some? && PartedFrom(g, epochId)
    ensures RetryIn(c, me, g, epochId).Terminal?
  {
    hide Inv, Indexed, StatusOf, Compatible, Find;
  }

  /** So a group send of an outbox to such an epoch has a stop, needs one now, or is confirmed by all its readers. */
  lemma PartedSendsStop(c: Crypto, r: Registry, entries: seq<L.Stop>, outbox: map<Texts.Text, Ls.Sent>, op: Texts.Text)
    requires Sound(c, r) && op in outbox && outbox[op].epoch.Some? && outbox[op].conversation in r.groups
    requires Indexed(r.groups[outbox[op].conversation]) && PartedFrom(r.groups[outbox[op].conversation], outbox[op].epoch.value)
    ensures op in L.Operations(entries) || op in Ls.Needed(entries, outbox, ChainsOf(c, r)) || !Ls.Unfinished(outbox[op])
  {
    hide Inv, Indexed, StatusOf, PartedFrom, RetryIn, c.Injective;
    FinalHere(c, r.me, r.groups[outbox[op].conversation], outbox[op].epoch.value);
  }
}

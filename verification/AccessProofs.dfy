/** Who can read newly admitted content, and why an admission is never taken back. */
module AccessProofs {
  import opened Common
  import opened Groups
  import opened GroupProofs
  import opened Authority
  import opened AuthorityProofs
  import opened Access
  import R = AuthorityRuns

  function IdsOf(epochs: seq<Epoch>): set<Id> {
    set n | 0 <= n < |epochs| :: epochs[n].id
  }

  /** What the access layer reads from a registry about one group. */
  ghost function ChainOf(c: Crypto, me: Card, g: Group): Chain
    requires Indexed(g) && StatusOf(c, me, g).Some?
  {
    Chain(g.record.anchor.id, StatusOf(c, me, g).value, g.record.head, Epochs(g),
          map id | id in IdsOf(Epochs(g)) && FindEpoch(g, id).Some? :: SnapshotAt(c, g, FindEpoch(g, id).value))
  }

  /** A chain as the registry keeps it: numbered from zero, linked, ending at the head. */
  ghost predicate Proper(c: Crypto, anchor: Anchor, epochs: seq<Epoch>, head: Option<Epoch>) {
    && ChainOk(c, anchor, epochs)
    && head == if epochs == [] then None else Some(epochs[|epochs| - 1])
  }

  lemma GroupIsProper(c: Crypto, g: Group)
    requires ChainInv(c, g)
    ensures Proper(c, g.record.anchor, Epochs(g), g.record.head)
  {
    hide ChainOk;
    if g.record.head.Some? { HeadIsLast(g); }
  }

  // Compatibility is the nonrestrictive path

  lemma {:induction false} WalkSkips(epochs: seq<Epoch>, head: Option<Epoch>, k: nat, n: nat)
    requires n <= k < |epochs| && forall i :: 0 <= i < |epochs| ==> epochs[i].body.number == i
    ensures Walk(epochs, head, epochs[k], epochs[k], n) == Walk(epochs, head, epochs[k], epochs[k], k + 1)
    decreases k - n
  {
    if n < k { WalkSkips(epochs, head, k, n + 1); }
  }

  lemma {:induction false} WalkIsUnrestricted(c: Crypto, anchor: Anchor, epochs: seq<Epoch>, head: Option<Epoch>, k: nat, n: nat)
    requires Proper(c, anchor, epochs, head) && k < n <= |epochs|
    ensures Walk(epochs, head, epochs[k], epochs[n - 1], n) <==> Unrestricted(epochs[n - 1..])
    decreases |epochs| - n
  {
    hide EpochOk, Keeps;
    if n < |epochs| {
      WalkIsUnrestricted(c, anchor, epochs, head, k, n + 1);
      ChainLink(c, anchor, epochs, n);
      LinkParts(c, anchor, epochs[n - 1], epochs[n]);
      UnrestrictedHead(epochs[n - 1..]);
      assert epochs[n - 1..][1..] == epochs[n..];
    }
  }

  lemma UnrestrictedHead(path: seq<Epoch>)
    requires |path| > 1
    ensures Unrestricted(path) <==> LinkKind(path[0], path[1]) == Nonrestrictive && Unrestricted(path[1..])
  {
    hide LinkKind;
    var rest := path[1..];
    if Unrestricted(path) {
      assert LinkKind(path[1 - 1], path[1]) == Nonrestrictive;
      forall i {:trigger rest[i]} | 0 < i < |rest| ensures LinkKind(rest[i - 1], rest[i]) == Nonrestrictive {
        assert path[i + 1] == rest[i] && path[i + 1 - 1] == rest[i - 1];
      }
    }
    if LinkKind(path[0], path[1]) == Nonrestrictive && Unrestricted(rest) {
      forall i {:trigger path[i]} | 0 < i < |path| ensures LinkKind(path[i - 1], path[i]) == Nonrestrictive {
        if i > 1 { assert rest[i - 1] == path[i] && rest[i - 1 - 1] == path[i - 1]; }
      }
    }
  }

  /** An epoch is compatible exactly when the chain from it to the head classifies as nonrestrictive. */
  lemma CompatibleIsNonrestrictive(c: Crypto, anchor: Anchor, epochs: seq<Epoch>, head: Option<Epoch>, k: nat)
    requires Proper(c, anchor, epochs, head) && k < |epochs|
    ensures PathOk(c, anchor, epochs[k..])
    ensures Compatible(epochs, head, epochs[k]) <==> Unrestricted(epochs[k..])
  {
    hide EpochOk, LinkOk, Walk, Unrestricted;
    WalkSkips(epochs, head, k, 0);
    WalkIsUnrestricted(c, anchor, epochs, head, k, k + 1);
    var path := epochs[k..];
    ChainLink(c, anchor, epochs, k);
    forall i {:trigger path[i]} | 0 < i < |path| ensures LinkOk(c, anchor, path[i - 1], path[i]) {
      ChainLink(c, anchor, epochs, k + i);
    }
  }

  /** Compatibility that is lost stays lost, whatever the chain grows by. */
  lemma IncompatibleForEver(c: Crypto, g: Group, h: Group, k: nat)
    requires ChainInv(c, g) && ChainInv(c, h) && Grows(g, h) && k <= HeadNumber(g)
    requires !Compatible(Epochs(g), g.record.head, Epochs(g)[k])
    ensures Epochs(h)[k] == Epochs(g)[k] && !Compatible(Epochs(h), h.record.head, Epochs(h)[k])
  {
    hide ChainOk, Compatible, Unrestricted, Proper;
    GroupIsProper(c, g);
    GroupIsProper(c, h);
    CompatibleIsNonrestrictive(c, g.record.anchor, Epochs(g), g.record.head, k);
    CompatibleIsNonrestrictive(c, h.record.anchor, Epochs(h), h.record.head, k);
    if Unrestricted(Epochs(h)[k..]) { PrefixUnrestricted(Epochs(g)[k..], Epochs(h)[k..]); }
  }

  lemma PrefixUnrestricted(short: seq<Epoch>, long: seq<Epoch>)
    requires short <= long && Unrestricted(long)
    ensures Unrestricted(short)
  {
    hide LinkKind;
    forall i {:trigger short[i]} | 0 < i < |short| ensures LinkKind(short[i - 1], short[i]) == Nonrestrictive {
      assert long[i] == short[i] && long[i - 1] == short[i - 1];
    }
  }

  // Audiences

  function MemberIds(members: seq<Member>): set<Id> {
    set i | 0 <= i < |members| :: members[i].id
  }

  lemma KeptIds(before: seq<Member>, after: seq<Member>)
    requires Keeps(before, after)
    ensures MemberIds(before) <= MemberIds(after)
  {
    forall id | id in MemberIds(before) ensures id in MemberIds(after) {
      var i :| 0 <= i < |before| && before[i].id == id;
      assert before[i] in after;
    }
  }

  lemma {:induction false} FindFinds(epochs: seq<Epoch>, id: Id)
    ensures Find(epochs, id).Some? ==> Find(epochs, id).value.id == id && Find(epochs, id).value in epochs
    ensures Find(epochs, id).None? ==> forall e :: e in epochs ==> e.id != id
    decreases |epochs|
  {
    if epochs != [] && epochs[0].id != id { FindFinds(epochs[1..], id); }
  }

  lemma {:induction false} FindGrows(a: seq<Epoch>, b: seq<Epoch>, id: Id)
    requires a <= b && Find(a, id).Some?
    ensures Find(b, id) == Find(a, id)
    decreases |a|
  {
    if a[0].id != id { FindGrows(a[1..], b[1..], id); }
  }

  lemma SnapshotIs(c: Crypto, me: Card, g: Group, id: Id)
    requires c.Injective() && Inv(c, me.id, g) && StatusOf(c, me, g).Some? && Find(Epochs(g), id).Some?
    ensures var e := Find(Epochs(g), id).value;
      0 <= e.body.number < |Epochs(g)| && e == Epochs(g)[e.body.number] && SnapshotOf(ChainOf(c, me, g), id) == SnapshotAt(c, g, e)
  {
    hide ChainOk, Keyed, AdmissionInv, InvitationInv, MarksInv, StatusOf, SnapshotAt, c.Injective, Indexed, FindFrom;
    FindFinds(Epochs(g), id);
    var e := Find(Epochs(g), id).value;
    OnChain(c, g, e);
    FindFromFinds(c, g, e.body.number, 0);
    assert e.id in IdsOf(Epochs(g));
  }

  lemma RosterIds(c: Crypto, g: Group, e: Epoch, s: Snapshot)
    requires SnapshotAt(c, g, e) == Found(s)
    ensures CardIds(s.members) == MemberIds(e.body.members)
  {
    hide EpochOk, SnapshotShape, TransitionOk, HasParent;
    assert Commitments(c, s.members) == e.body.members;
    assert forall i :: 0 <= i < |s.members| ==> e.body.members[i].id == s.members[i].id;
  }

  /** What an accepted decision has established. */
  lemma AcceptedParts(
      c: Crypto, me: Card, ch: Chain, k: Candidate, prior: Option<Context>, target: Option<Context>)
    requires Decide(c, me, Some(ch), k, prior, target).Accepted?
    ensures ParseBinding(k.content).Some? && EnvelopeOk(c, me, k)
    ensures var b := ParseBinding(k.content).value;
      && Find(ch.epochs, b.epochId).Some? && SnapshotOf(ch, b.epochId).Found?
      && CardsFor(ch, k, b, target, SnapshotOf(ch, b.epochId).snapshot.members).Roster?
  {
  }

  /** Newly admitted content that is not historical is read only by members of the current head. */
  lemma ReadersAreOnTheHead(
      c: Crypto, me: Card, g: Group, k: Candidate, target: Option<Context>)
    requires c.Injective() && Inv(c, me.id, g) && StatusOf(c, me, g).Some?
    requires Decide(c, me, Some(ChainOf(c, me, g)), k, None, target).Accepted? && k.content.audience != Some(Historical)
    ensures StatusOf(c, me, g) == Some(Active) && g.record.head.Some?
    ensures Decide(c, me, Some(ChainOf(c, me, g)), k, None, target).context.readers <= MemberIds(g.record.head.value.body.members)
  {
    hide ChainOk, Inv, StatusOf, SnapshotAt, c.Injective, Compatible, Indexed, ParseBinding, EnvelopeOk, AudienceOk;
    hide CardsFor, FindEpoch, ReaderIds, CardIds;
    InvIndexed(c, me.id, g);
    var ch := ChainOf(c, me, g);
    AcceptedParts(c, me, ch, k, None, target);
    ParsedAudience(k.content);
    var b := ParseBinding(k.content).value;
    SnapshotIs(c, me, g, b.epochId);
    var e := Find(Epochs(g), b.epochId).value;
    var s := SnapshotAt(c, g, e).snapshot;
    SettledWithin(c, g, e);
    RosterIds(c, g, e, s);
    var cards := CardsFor(ch, k, b, target, s.members).cards;
    CardsWithin(ch, k, b, target, s);
    AudienceIs(c, k, cards);
  }

  lemma ParsedAudience(content: Content)
    ensures ParseBinding(content).Some? ==> content.audience == Some(ParseBinding(content).value.audience)
    ensures ParseBinding(content).Some? && content.audience == Some(Historical) ==>
      ParseBinding(content).value.target.Some? && ParseBinding(content).value.target.value.1 == ParseBinding(content).value.epochId
  {
  }

  /** A compatible epoch's members are all on the head. */
  lemma SettledWithin(c: Crypto, g: Group, e: Epoch)
    requires ChainInv(c, g) && 0 <= e.body.number < |Epochs(g)| && e == Epochs(g)[e.body.number]
    ensures Compatible(Epochs(g), g.record.head, e) ==>
      g.record.head.Some? && MemberIds(e.body.members) <= MemberIds(g.record.head.value.body.members)
  {
    hide ChainOk, Compatible, Unrestricted, PathOk;
    GroupIsProper(c, g);
    var n := e.body.number;
    CompatibleIsNonrestrictive(c, g.record.anchor, Epochs(g), g.record.head, n);
    if Compatible(Epochs(g), g.record.head, e) {
      var path := Epochs(g)[n..];
      NonrestrictivePaths(path);
      assert Keeps(path[0].body.members, path[|path| - 1].body.members);
      KeptIds(e.body.members, g.record.head.value.body.members);
    }
  }

  lemma CardsWithin(ch: Chain, k: Candidate, b: Binding, target: Option<Context>, s: Snapshot)
    requires CardsFor(ch, k, b, target, s.members).Roster? && SnapshotOf(ch, b.epochId) == Found(s)
    requires b.audience.Historical? ==> b.target.Some? && b.target.value.1 == b.epochId
    ensures CardIds(CardsFor(ch, k, b, target, s.members).cards) <= CardIds(s.members)
    ensures !b.audience.ForEpoch? ==>
      target.Some? && CardIds(CardsFor(ch, k, b, target, s.members).cards) == CardIds(s.members) * target.value.readers
    ensures b.audience.ForEpoch? ==> CardsFor(ch, k, b, target, s.members).cards == s.members
  {
    hide SnapshotOf;
    if !b.audience.ForEpoch? {
      FilteredIds(s.members, target.value.readers);
    }
  }

  lemma FilteredIds(cards: seq<Card>, readers: set<Id>)
    ensures CardIds(Filtered(cards, readers)) == CardIds(cards) * readers
  {
    hide Filtered;
    var r := Filtered(cards, readers);
    forall id | id in CardIds(cards) && id in readers ensures id in CardIds(r) {
      var i :| 0 <= i < |cards| && cards[i].id == id;
      assert cards[i] in r;
    }
    forall id | id in CardIds(r) ensures id in CardIds(cards) && id in readers {
      var i :| 0 <= i < |r| && r[i].id == id;
      assert r[i] in cards;
    }
  }

  lemma AudienceIs(c: Crypto, k: Candidate, cards: seq<Card>)
    requires AudienceOk(c, k, cards)
    ensures CardIds(cards) == ReaderIds(k.readers)
  {
  }

  /** Exactly who reads accepted content: the epoch's whole roster, or what it shares with the target's readers. */
  lemma ReadersExactly(
      c: Crypto, me: Card, g: Group, k: Candidate, prior: Option<Context>, target: Option<Context>)
    requires c.Injective() && Inv(c, me.id, g) && StatusOf(c, me, g).Some?
    requires Decide(c, me, Some(ChainOf(c, me, g)), k, prior, target).Accepted?
    ensures Find(Epochs(g), Decide(c, me, Some(ChainOf(c, me, g)), k, prior, target).context.epochId).Some?
    ensures k.content.audience != Some(ForEpoch) ==> target.Some?
    ensures var x := Decide(c, me, Some(ChainOf(c, me, g)), k, prior, target).context;
      var roster := MemberIds(Find(Epochs(g), x.epochId).value.body.members);
      x.readers == if k.content.audience == Some(ForEpoch) then roster else roster * target.value.readers
  {
    hide ChainOk, Inv, StatusOf, SnapshotAt, c.Injective, Compatible, Indexed, ParseBinding, EnvelopeOk, AudienceOk;
    hide CardsFor, FindEpoch, ReaderIds, CardIds;
    InvIndexed(c, me.id, g);
    var ch := ChainOf(c, me, g);
    AcceptedParts(c, me, ch, k, prior, target);
    ParsedAudience(k.content);
    var b := ParseBinding(k.content).value;
    SnapshotIs(c, me, g, b.epochId);
    var e := Find(Epochs(g), b.epochId).value;
    var s := SnapshotAt(c, g, e).snapshot;
    RosterIds(c, g, e, s);
    CardsWithin(ch, k, b, target, s);
    AudienceIs(c, k, CardsFor(ch, k, b, target, s.members).cards);
  }

  // Stability

  /** Under a longer chain with more snapshots, everything the decision reads is where it was. */
  lemma CardsStay(
      c: Crypto, me: Card, g: Group, you: Card, h: Group, k: Candidate, b: Binding, target: Option<Context>, members: seq<Card>)
    requires c.Injective() && Inv(c, me.id, g) && Inv(c, you.id, h) && Grows(g, h)
    requires StatusOf(c, me, g).Some? && StatusOf(c, you, h).Some?
    requires CardsFor(ChainOf(c, me, g), k, b, target, members).Roster?
    ensures CardsFor(ChainOf(c, you, h), k, b, target, members) == CardsFor(ChainOf(c, me, g), k, b, target, members)
  {
    hide ChainOk, Inv, StatusOf, SnapshotAt, c.Injective, Indexed, FindEpoch, AuthorOk, Filtered, CardIds;
    if !b.audience.ForEpoch? {
      InvIndexed(c, me.id, g);
      InvIndexed(c, you.id, h);
      FoundSame(c, me, g, you, h, target.value.epochId);
    }
  }

  lemma FoundSame(c: Crypto, me: Card, g: Group, you: Card, h: Group, id: Id)
    requires c.Injective() && Inv(c, me.id, g) && Inv(c, you.id, h) && Grows(g, h)
    requires StatusOf(c, me, g).Some? && StatusOf(c, you, h).Some?
    requires Find(Epochs(g), id).Some?
    ensures Find(Epochs(h), id) == Find(Epochs(g), id)
    ensures SnapshotOf(ChainOf(c, me, g), id).Found? ==>
      SnapshotOf(ChainOf(c, you, h), id) == SnapshotOf(ChainOf(c, me, g), id)
  {
    hide ChainOk, Inv, StatusOf, SnapshotAt, c.Injective, Indexed, FindEpoch, ChainOf, SnapshotOf;
    FindGrows(Epochs(g), Epochs(h), id);
    SnapshotIs(c, me, g, id);
    SnapshotIs(c, you, h, id);
    var e := Find(Epochs(g), id).value;
    if SnapshotAt(c, g, e).Found? { FoundStays(c, g, h, e); }
  }

  lemma EnvelopeIgnoresCards(c: Crypto, me: Card, you: Card, k: Candidate)
    requires me.id == you.id
    ensures EnvelopeOk(c, me, k) == EnvelopeOk(c, you, k)
  {
  }

  /** An admission is stable: once accepted, the same content is accepted again with the same context, whatever
      headers, snapshots, departures, closings and forks the group has seen since. */
  lemma AdmissionIsStable(
      c: Crypto, me: Card, g: Group, you: Card, h: Group, k: Candidate, prior: Option<Context>, target: Option<Context>)
    requires c.Injective() && Inv(c, me.id, g) && Inv(c, you.id, h) && Grows(g, h) && me.id == you.id
    requires StatusOf(c, me, g).Some? && StatusOf(c, you, h).Some?
    requires Decide(c, me, Some(ChainOf(c, me, g)), k, prior, target).Accepted?
    ensures var x := Decide(c, me, Some(ChainOf(c, me, g)), k, prior, target).context;
      Decide(c, you, Some(ChainOf(c, you, h)), k, Some(x), target) == Accepted(x, true)
  {
    hide ChainOk, Inv, StatusOf, SnapshotAt, c.Injective, Indexed, FindEpoch, ParseBinding, AudienceOk;
    hide CardsFor, EnvelopeOk, Compatible, SnapshotOf, ReaderIds;
    var ch := ChainOf(c, me, g);
    AcceptedParts(c, me, ch, k, prior, target);
    var b := ParseBinding(k.content).value;
    InvIndexed(c, me.id, g);
    InvIndexed(c, you.id, h);
    EnvelopeIgnoresCards(c, me, you, k);
    EnvelopeId(c, me, k);
    FoundSame(c, me, g, you, h, b.epochId);
    CardsStay(c, me, g, you, h, k, b, target, SnapshotOf(ch, b.epochId).snapshot.members);
  }

  lemma EnvelopeId(c: Crypto, me: Card, k: Candidate)
    requires EnvelopeOk(c, me, k)
    ensures k.id.Address?
  {
  }

  /** The same over whole runs of the registry. */
  lemma AdmissionOutlivesRuns(
      c: Crypto, s: State, events: seq<Event>, k: Candidate, prior: Option<Context>, target: Option<Context>)
    requires c.Injective() && Inv(c, s.me.id, s.group) && StatusOf(c, s.me, s.group).Some?
    requires Decide(c, s.me, Some(ChainOf(c, s.me, s.group)), k, prior, target).Accepted?
    ensures var t := After(c, s, events);
      && Indexed(t.group) && StatusOf(c, t.me, t.group).Some?
      && var x := Decide(c, s.me, Some(ChainOf(c, s.me, s.group)), k, prior, target).context;
         Decide(c, t.me, Some(ChainOf(c, t.me, t.group)), k, Some(x), target) == Accepted(x, true)
  {
    hide Inv, Grows, StatusOf, Decide, c.Injective, ChainOf, Indexed;
    R.RunKeepsInv(c, s, events);
    var t := After(c, s, events);
    InvIndexed(c, s.me.id, s.group);
    InvIndexed(c, t.me.id, t.group);
    R.ActiveExactly(c, t.me, t.group);
    AdmissionIsStable(c, s.me, s.group, t.me, t.group, k, prior, target);
  }
}

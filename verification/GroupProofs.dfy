/** What a verified chain of epochs says about rosters and consents. */
module GroupProofs {
  import opened Common
  import opened Groups

  /** Whoever is on a roster of the path is on every later one, with the same card. */
  predicate NeverShrinks(path: seq<Epoch>) {
    forall i, j, m :: 0 <= i <= j < |path| && m in path[i].body.members ==> m in path[j].body.members
  }

  predicate StaysOpen(path: seq<Epoch>) {
    forall i :: 0 < i < |path| ==> path[i].body.open
  }

  /** A path is nonrestrictive exactly when it stays open and nobody, and nobody's card, ever drops off the roster. */
  lemma NonrestrictivePaths(path: seq<Epoch>)
    ensures Unrestricted(path) <==> StaysOpen(path) && NeverShrinks(path)
  {
    if Unrestricted(path) {
      forall i | 0 < i < |path| ensures path[i].body.open {
        assert LinkKind(path[i - 1], path[i]) == Nonrestrictive;
      }
      forall i, j, m | 0 <= i <= j < |path| && m in path[i].body.members ensures m in path[j].body.members {
        KeepsAlong(path, i, j);
      }
    }
    if StaysOpen(path) && NeverShrinks(path) {
      forall i {:trigger path[i]} | 0 < i < |path| ensures LinkKind(path[i - 1], path[i]) == Nonrestrictive {
        assert Keeps(path[i - 1].body.members, path[i].body.members);
      }
    }
  }

  lemma {:induction false} KeepsAlong(path: seq<Epoch>, i: nat, j: nat)
    requires Unrestricted(path) && i <= j < |path|
    ensures Keeps(path[i].body.members, path[j].body.members)
    decreases j
  {
    if i < j {
      KeepsAlong(path, i, j - 1);
      assert LinkKind(path[j - 1], path[j]) == Nonrestrictive;
    }
  }

  /** A path is up to 1024 certificates of the group, each of the last one's successor: numbered in a row,
      naming their predecessor's hash, with nothing after a closed one. */
  lemma PathExactly(c: Crypto, anchor: Anchor, path: seq<Epoch>)
    ensures PathOk(c, anchor, path) <==>
      && 1 <= |path| <= 1024
      && (forall e :: e in path ==> EpochOk(c, anchor, e))
      && (forall i {:trigger path[i]} :: 0 < i < |path| ==> Succeeds(c, path[i - 1], path[i]))
  {
    hide EpochOk, LinkOk, Succeeds;
    forall i {:trigger path[i]} | 0 < i < |path|
      ensures LinkOk(c, anchor, path[i - 1], path[i]) <==>
        EpochOk(c, anchor, path[i - 1]) && EpochOk(c, anchor, path[i]) && Succeeds(c, path[i - 1], path[i])
    {
      LinkIsSuccession(c, anchor, path[i - 1], path[i]);
    }
    if PathOk(c, anchor, path) {
      forall i | 0 <= i < |path| ensures EpochOk(c, anchor, path[i]) {
        if i > 0 {
          assert LinkOk(c, anchor, path[i - 1], path[i]);
        }
      }
    }
  }

  predicate Succeeds(c: Crypto, parent: Epoch, next: Epoch) {
    && parent.body.open && next.body.number == parent.body.number + 1
    && next.body.previous == Some(c.hash(EpochDoc(parent.body)))
    && (next.body.open || (next.body.members == parent.body.members && next.body.snapshotHash == parent.body.snapshotHash))
  }

  lemma LinkIsSuccession(c: Crypto, anchor: Anchor, parent: Epoch, next: Epoch)
    ensures LinkOk(c, anchor, parent, next) <==> EpochOk(c, anchor, parent) && EpochOk(c, anchor, next) && Succeeds(c, parent, next)
  {
    hide EpochOk;
    LinkExactly(c, anchor, parent, next);
  }

  /** Two certificates with one hash carry one body. */
  lemma SameIdSameBody(c: Crypto, anchor: Anchor, a: Epoch, b: Epoch)
    requires c.Injective() && EpochOk(c, anchor, a) && EpochOk(c, anchor, b) && a.id == b.id
    ensures a.body == b.body
  {
    hide AnchorOk, RosterOk, FirstOk, PlaceOk;
    assert c.hash(EpochDoc(a.body)) == c.hash(EpochDoc(b.body));
  }

  /** A chain from epoch 0: `snaps[n]` is the private snapshot of epoch n. */
  ghost predicate Chain(c: Crypto, anchor: Anchor, epochs: seq<Epoch>, snaps: seq<Snapshot>) {
    && 1 <= |epochs| == |snaps|
    && EpochOk(c, anchor, epochs[0]) && epochs[0].body.number == 0 && SnapshotOk(c, snaps[0], anchor, epochs[0])
    && forall n {:trigger epochs[n]} :: 0 < n < |epochs| ==> TransitionOk(c, anchor, epochs[n - 1], epochs[n], snaps[n])
  }

  /** The holder of this card asked, under the card's own signature, to follow epoch k - 1, and epoch k took it in. */
  ghost predicate JoinedAt(c: Crypto, anchor: Anchor, epochs: seq<Epoch>, snaps: seq<Snapshot>, m: Member, k: int)
    requires |epochs| == |snaps|
  {
    && 0 < k < |epochs| && epochs[k].body.open && m !in epochs[k - 1].body.members
    && HolderAsked(c, anchor, epochs[k - 1], snaps[k], m)
  }

  ghost predicate HolderAsked(c: Crypto, anchor: Anchor, parent: Epoch, s: Snapshot, m: Member) {
    exists consent, card :: Asked(c, anchor, parent, s, m, consent, card)
  }

  predicate Asked(c: Crypto, anchor: Anchor, parent: Epoch, s: Snapshot, m: Member, consent: Consent, card: Card) {
    && consent in s.joins && card in s.members && m == Member(card.id, c.hash(CardDoc(card)))
    && consent.body.group == anchor.id && consent.body.parent == parent.id && consent.body.cardHash == m.cardHash
    && c.signed(ConsentDoc(consent.body), consent.signature, card.signKey)
  }

  ghost predicate OnRosters(epochs: seq<Epoch>, m: Member, from: int, to: int) {
    0 <= from <= to < |epochs| && forall n :: from <= n <= to ==> m in epochs[n].body.members
  }

  /** How a card came to be on the roster of epoch n: founding card or own consent, and on the roster ever since. */
  ghost predicate Provenance(c: Crypto, anchor: Anchor, epochs: seq<Epoch>, snaps: seq<Snapshot>, m: Member, n: int)
    requires |epochs| == |snaps|
  {
    || (m == Member(anchor.body.creator.id, c.CardHash(anchor.body.creator)) && OnRosters(epochs, m, 0, n))
    || exists k :: JoinedAt(c, anchor, epochs, snaps, m, k) && OnRosters(epochs, m, k, n)
  }

  lemma {:induction false} ConsentProvenance(
      c: Crypto, anchor: Anchor, epochs: seq<Epoch>, snaps: seq<Snapshot>, m: Member, n: nat)
    requires Chain(c, anchor, epochs, snaps) && n < |epochs| && m in epochs[n].body.members
    ensures Provenance(c, anchor, epochs, snaps, m, n)
    decreases n
  {
    hide EpochOk, SnapshotOk, TransitionOk, ConsentOk, JoinedAt;
    if n == 0 {
      FounderAlone(c, anchor, epochs[0], m);
      assert OnRosters(epochs, m, 0, 0);
    } else {
      assert TransitionOk(c, anchor, epochs[n - 1], epochs[n], snaps[n]);
      if m in epochs[n - 1].body.members {
        ConsentProvenance(c, anchor, epochs, snaps, m, n - 1);
        StillThere(epochs, m, n);
        if k :| JoinedAt(c, anchor, epochs, snaps, m, k) && OnRosters(epochs, m, k, n - 1) {
          assert OnRosters(epochs, m, k, n);
        } else {
          assert OnRosters(epochs, m, 0, n);
        }
      } else {
        NewcomerConsented(c, anchor, epochs, snaps, m, n);
        assert OnRosters(epochs, m, n, n);
      }
    }
  }

  lemma StillThere(epochs: seq<Epoch>, m: Member, n: nat)
    requires 0 < n < |epochs| && m in epochs[n].body.members
    ensures forall from :: OnRosters(epochs, m, from, n - 1) ==> OnRosters(epochs, m, from, n)
  {
  }

  lemma FounderAlone(c: Crypto, anchor: Anchor, e: Epoch, m: Member)
    requires EpochOk(c, anchor, e) && e.body.number == 0 && m in e.body.members
    ensures m == Member(anchor.body.creator.id, c.CardHash(anchor.body.creator))
  {
  }

  lemma NewcomerConsented(c: Crypto, anchor: Anchor, epochs: seq<Epoch>, snaps: seq<Snapshot>, m: Member, n: nat)
    requires 0 < n < |epochs| == |snaps| && TransitionOk(c, anchor, epochs[n - 1], epochs[n], snaps[n])
    requires m in epochs[n].body.members && m !in epochs[n - 1].body.members
    ensures JoinedAt(c, anchor, epochs, snaps, m, n)
  {
    hide EpochOk, ConsentOk, SnapshotShape;
    var s := snaps[n];
    var i :| 0 <= i < |epochs[n].body.members| && epochs[n].body.members[i] == m;
    var card := s.members[i];
    assert m == Commitments(c, s.members)[i];
    assert IsChanged(c, epochs[n - 1], card);
    var j :| 0 <= j < |s.joins| && ConsentOk(c, s.joins[j], anchor, epochs[n - 1], card);
    ConsentExactly(c, s.joins[j], anchor, epochs[n - 1], card);
    assert Asked(c, anchor, epochs[n - 1], s, m, s.joins[j], card);
  }

  /** The members of an epoch that were not on its parent's roster, or were there with another card. */
  function Newcomers(parent: Epoch, next: Epoch): set<Member> {
    set m | m in next.body.members && m !in parent.body.members
  }

  /** In an open transition the consents and the newcomers are in bijection: the same cards, each once on both sides. */
  lemma ConsentsAreOnePerNewcomer(c: Crypto, anchor: Anchor, parent: Epoch, next: Epoch, after: Snapshot)
    requires c.Injective() && TransitionOk(c, anchor, parent, next, after) && next.body.open
    ensures forall m :: m in Newcomers(parent, next) ==> m.cardHash in Consented(after)
    ensures forall h :: h in Consented(after) ==> exists m :: m in Newcomers(parent, next) && m.cardHash == h
    ensures forall m, n :: m in next.body.members && n in next.body.members && m != n ==> m.cardHash != n.cardHash
    ensures |after.joins| == |Newcomers(parent, next)|
  {
    hide EpochOk, ConsentOk, JoinOk, c.CardHash, c.Injective;
    assert Commitments(c, after.members) == next.body.members;
    forall m | m in Newcomers(parent, next) ensures m.cardHash in Consented(after) {
      var i :| 0 <= i < |next.body.members| && next.body.members[i] == m;
      assert m == Member(after.members[i].id, c.CardHash(after.members[i]));
      assert IsChanged(c, parent, after.members[i]);
    }
    forall h | h in Consented(after) ensures exists m :: m in Newcomers(parent, next) && m.cardHash == h {
      assert h in Changed(c, parent, after);
      var i :| 0 <= i < |after.members| && IsChanged(c, parent, after.members[i]) && h == c.CardHash(after.members[i]);
      assert next.body.members[i] == Member(after.members[i].id, h);
    }
    forall m, n | m in next.body.members && n in next.body.members && m != n ensures m.cardHash != n.cardHash {
      var i :| 0 <= i < |next.body.members| && next.body.members[i] == m;
      var j :| 0 <= j < |next.body.members| && next.body.members[j] == n;
      DifferentCards(c, after, i, j);
    }
    ConsentedSize(c, after);
    HashesOf(Newcomers(parent, next), Consented(after));
  }

  lemma {:induction false} HashesOf(members: set<Member>, hashes: set<Id>)
    requires forall m :: m in members ==> m.cardHash in hashes
    requires forall h :: h in hashes ==> exists m :: m in members && m.cardHash == h
    requires forall m, n :: m in members && n in members && m != n ==> m.cardHash != n.cardHash
    ensures |members| == |hashes|
    decreases |members|
  {
    if members == {} {
      assert hashes == {};
    } else {
      var m :| m in members;
      HashesOf(members - {m}, hashes - {m.cardHash});
    }
  }
}

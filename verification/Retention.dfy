/** The router's table of packets kept for links that attach later. */
module Retention {
  import opened Common
  import opened Packets

  type Table = map<Id, Retained>

  function Sizes(t: Table): map<Id, nat> {
    map id | id in t :: |t[id].encoded|
  }

  ghost function Bytes(t: Table): nat {
    Total(Sizes(t))
  }

  ghost predicate Inv(t: Table) {
    && |t| <= MaxTransfers && Bytes(t) <= MaxPendingBytes
    && (forall id :: id in t ==> t[id].Id() == id && 0 < |t[id].encoded|)
    && (forall a, b :: a in t && b in t && a != b ==> t[a].sequence != t[b].sequence)
  }

  function Live(t: Table, now: int): Table {
    map id | id in t && t[id].Expires() > now :: t[id]
  }

  ghost predicate Fits(t: Table, size: nat) {
    |t| < MaxTransfers && Bytes(t) + size <= MaxPendingBytes
  }

  /** The order of replacement: least urgent first, oldest first within a priority. */
  predicate ReplacedBefore(a: Retained, b: Retained) {
    Rank(a.Priority()) > Rank(b.Priority()) || (a.Priority() == b.Priority() && a.sequence < b.sequence)
  }

  /** A packet may push out what is no more urgent than itself. */
  function Replaceable(t: Table, p: Priority): set<Id> {
    set id | id in t && Rank(t[id].Priority()) >= Rank(p)
  }

  ghost predicate IsVictim(t: Table, p: Priority, id: Id) {
    id in Replaceable(t, p) && forall other :: other in Replaceable(t, p) && other != id ==> ReplacedBefore(t[id], t[other])
  }

  lemma {:induction false} FirstOf(t: Table, candidates: set<Id>) returns (id: Id)
    requires Inv(t) && candidates <= t.Keys && candidates != {}
    ensures id in candidates && forall other :: other in candidates && other != id ==> ReplacedBefore(t[id], t[other])
    decreases |candidates|
  {
    var x :| x in candidates;
    if candidates == {x} {
      id := x;
    } else {
      var y := FirstOf(t, candidates - {x});
      id := if ReplacedBefore(t[x], t[y]) then x else y;
    }
  }

  ghost function Victim(t: Table, p: Priority): Id
    requires Inv(t) && Replaceable(t, p) != {}
    ensures IsVictim(t, p, Victim(t, p))
  {
    assert exists id :: IsVictim(t, p, id) by {
      var id := FirstOf(t, Replaceable(t, p));
      assert IsVictim(t, p, id);
    }
    var id :| IsVictim(t, p, id);
    id
  }

  lemma VictimIsUnique(t: Table, p: Priority, id: Id)
    requires Inv(t) && IsVictim(t, p, id)
    ensures id == Victim(t, p)
  {
  }

  /** What is left once room has been made, or once nothing replaceable is left. */
  ghost function MakeRoom(t: Table, p: Priority, size: nat): Table
    requires Inv(t)
    decreases |t|
  {
    if Fits(t, size) || Replaceable(t, p) == {} then t
    else
      WithoutIsInv(t, Victim(t, p));
      MakeRoom(t - {Victim(t, p)}, p, size)
  }

  /** The table after a packet was offered to it: what has expired is gone, and the packet is as it was first kept, or
      kept now, or refused. */
  ghost predicate Kept(before: Table, after: Table, p: Packet, encoded: seq<Byte>, relayOnly: bool, now: int) {
    && Inv(Live(before, now))
    && var live := Live(before, now);
       var room := MakeRoom(live, p.body.priority, |encoded|);
       if p.id in live then after == live
       else if Fits(room, |encoded|) then
         && p.id in after && after == room[p.id := after[p.id]]
         && after[p.id].packet == p && after[p.id].encoded == encoded && after[p.id].relayOnly == relayOnly
       else after == room
  }

  lemma RoomStep(t: Table, p: Priority, size: nat, v: Id)
    requires Inv(t) && !Fits(t, size) && IsVictim(t, p, v)
    ensures Inv(t - {v}) && |t - {v}| + 1 == |t|
    ensures MakeRoom(t, p, size) == MakeRoom(t - {v}, p, size)
  {
    hide Inv, Fits;
    VictimIsUnique(t, p, v);
    WithoutIsInv(t, v);
    assert (t - {v}).Keys == t.Keys - {v};
  }

  lemma RoomDone(t: Table, p: Priority, size: nat)
    requires Inv(t) && (Fits(t, size) || Replaceable(t, p) == {})
    ensures MakeRoom(t, p, size) == t
  {
  }

  lemma EntryOk(t: Table, id: Id)
    requires Inv(t) && id in t
    ensures t[id].Id() == id && 0 < |t[id].encoded|
  {
  }

  lemma BytesRemove(t: Table, id: Id)
    requires id in t
    ensures Bytes(t) == |t[id].encoded| + Bytes(t - {id})
  {
    TotalRemove(Sizes(t), id);
    assert Sizes(t) - {id} == Sizes(t - {id});
  }

  lemma WithoutIsInv(t: Table, id: Id)
    requires Inv(t) && id in t
    ensures Inv(t - {id}) && |t - {id}| < |t|
  {
    hide Total;
    BytesRemove(t, id);
    assert (t - {id}).Keys == t.Keys - {id};
  }

  lemma {:induction false} SubtableIsInv(small: Table, large: Table)
    requires Inv(large) && forall id :: id in small ==> id in large && small[id] == large[id]
    ensures Inv(small)
    decreases |large|
  {
    hide Inv;
    if id :| id in large && id !in small {
      WithoutIsInv(large, id);
      SubtableIsInv(small, large - {id});
    } else {
      assert small == large;
    }
  }

  lemma AddIsInv(t: Table, value: Retained)
    requires Inv(t) && Fits(t, |value.encoded|) && value.Id() !in t && 0 < |value.encoded|
    requires forall id :: id in t ==> t[id].sequence != value.sequence
    ensures Inv(t[value.Id() := value]) && Bytes(t[value.Id() := value]) == Bytes(t) + |value.encoded|
  {
    hide Bytes;
    BytesAdd(t, value);
    assert |t[value.Id() := value]| == |t| + 1 by { assert t[value.Id() := value].Keys == t.Keys + {value.Id()}; }
  }

  lemma BytesAdd(t: Table, value: Retained)
    requires value.Id() !in t
    ensures Bytes(t[value.Id() := value]) == Bytes(t) + |value.encoded|
  {
    hide Total;
    TotalInsert(Sizes(t), value.Id(), |value.encoded|);
    assert Sizes(t[value.Id() := value]) == Sizes(t)[value.Id() := |value.encoded|];
  }

  /** Making room takes only what is no more urgent, in order, and not more than it must. */
  ghost predicate RoomMadeProperly(t: Table, p: Priority, size: nat, left: Table) {
    && Inv(left) && left.Keys <= t.Keys
    && (forall id :: id in left ==> left[id] == t[id])
    && (forall gone :: gone in t && gone !in left ==> Rank(t[gone].Priority()) >= Rank(p))
    && (forall gone, kept :: gone in t && gone !in left && kept in Replaceable(left, p) ==> ReplacedBefore(t[gone], left[kept]))
    && (Fits(left, size) || Replaceable(left, p) == {})
    && (Fits(t, size) ==> left == t)
  }

  lemma OneMoreReplaced(t: Table, p: Priority, size: nat, left: Table)
    requires Inv(t) && !Fits(t, size) && Replaceable(t, p) != {}
    requires RoomMadeProperly(t - {Victim(t, p)}, p, size, left)
    ensures RoomMadeProperly(t, p, size, left)
  {
    hide Inv, Fits;
    var v := Victim(t, p);
    forall gone, kept | gone in t && gone !in left && kept in Replaceable(left, p) ensures ReplacedBefore(t[gone], left[kept]) {
      assert gone == v ==> kept in Replaceable(t, p);
      assert gone != v ==> gone in t - {v};
    }
    forall gone | gone in t && gone !in left ensures Rank(t[gone].Priority()) >= Rank(p) {
      assert gone != v ==> gone in t - {v};
    }
  }

  lemma {:induction false} RoomOutcome(t: Table, p: Priority, size: nat)
    requires Inv(t)
    ensures RoomMadeProperly(t, p, size, MakeRoom(t, p, size))
    decreases |t|
  {
    hide Inv, Fits, Victim;
    if !Fits(t, size) && Replaceable(t, p) != {} {
      var v := Victim(t, p);
      WithoutIsInv(t, v);
      RoomOutcome(t - {v}, p, size);
      OneMoreReplaced(t, p, size, MakeRoom(t - {v}, p, size));
    }
  }

  /** Making room is never excessive: with the last packet given up put back, the new one would not fit. */
  ghost predicate LastReplaced(t: Table, size: nat, left: Table, last: Id) {
    && last in t && last !in left
    && (forall gone :: gone in t && gone !in left && gone != last ==> ReplacedBefore(t[gone], t[last]))
    && !Fits(left[last := t[last]], size)
  }

  lemma {:induction false} RoomIsNeeded(t: Table, p: Priority, size: nat) returns (last: Id)
    requires Inv(t) && MakeRoom(t, p, size) != t
    ensures LastReplaced(t, size, MakeRoom(t, p, size), last)
    decreases |t|
  {
    hide Inv, Fits;
    var v := Victim(t, p);
    WithoutIsInv(t, v);
    var next := t - {v};
    var left := MakeRoom(next, p, size);
    if left == next {
      last := v;
      assert next[v := t[v]] == t;
    } else {
      last := RoomIsNeeded(next, p, size);
      RoomOutcome(next, p, size);
      assert last in Replaceable(t, p);
      forall gone | gone in t && gone !in left && gone != last ensures ReplacedBefore(t[gone], t[last]) {
        if gone != v {
          assert gone in next;
        }
      }
    }
  }

  /** What a packet of priority `p` can push out: everything that is not more urgent. */
  function Displaceable(t: Table, p: Priority): set<Id> {
    set id | id in t && AsUrgent(p, t[id].packet.body.priority)
  }

  ghost predicate RoomFor(t: Table, size: nat) {
    |t| < 64 && Bytes(t) + size <= 16 * 1048576
  }

  predicate GoneSooner(a: Retained, b: Retained) {
    var p, q := a.packet.body.priority, b.packet.body.priority;
    AsUrgent(q, p) && (p == q ==> a.sequence < b.sequence)
  }

  lemma RoomIsFit(t: Table, size: nat)
    ensures Fits(t, size) <==> RoomFor(t, size)
  {
    hide Bytes;
  }

  lemma DisplaceableAre(t: Table, p: Priority)
    ensures Displaceable(t, p) == Replaceable(t, p)
  {
  }

  lemma {:induction false} BytesMonotone(small: Table, large: Table)
    requires forall id :: id in small ==> id in large && small[id] == large[id]
    ensures Bytes(small) <= Bytes(large) && |small| <= |large|
  {
    TotalMonotone(Sizes(small), Sizes(large));
    CardinalitySubset(small.Keys, large.Keys);
  }

  /** There will be room exactly when there is once everything displaceable is gone. Only displaceable
      packets go, all of them where that does not help, and none where there was room already. */
  lemma RoomCosts(t: Table, p: Priority, size: nat)
    requires Inv(t)
    ensures var left, core := MakeRoom(t, p, size), t - Displaceable(t, p);
      && (forall id :: id in left ==> id in t && left[id] == t[id])
      && t.Keys - left.Keys <= Displaceable(t, p)
      && (RoomFor(core, size) <==> RoomFor(left, size))
      && (!RoomFor(core, size) ==> left == core)
      && (RoomFor(t, size) ==> left == t)
  {
    hide Inv, RoomFor, Fits, Displaceable, MakeRoom;
    var left := MakeRoom(t, p, size);
    DisplaceableAre(t, p);
    RoomOutcome(t, p, size);
    assert forall gone :: gone in t && gone !in left ==> gone in Replaceable(t, p);
    RoomIsFit(left, size);
    RoomIsFit(t, size);
    CoreFits(t, p, size, left);
    CoreIsAll(t, p, size, left);
  }

  lemma CoreFits(t: Table, p: Priority, size: nat, left: Table)
    requires RoomMadeProperly(t, p, size, left)
    ensures RoomFor(left, size) ==> RoomFor(t - Displaceable(t, p), size)
  {
    hide Inv, Fits, Bytes;
    var core := t - Displaceable(t, p);
    assert forall id :: id in core ==> id in left && left[id] == core[id];
    BytesMonotone(core, left);
  }

  lemma CoreIsAll(t: Table, p: Priority, size: nat, left: Table)
    requires RoomMadeProperly(t, p, size, left)
    ensures !RoomFor(left, size) ==> left == t - Displaceable(t, p)
  {
    hide Inv, Fits, RoomFor;
    RoomIsFit(left, size);
    if Replaceable(left, p) == {} {
      forall id | id in left ensures id !in Displaceable(t, p) {
        assert id !in Replaceable(left, p);
      }
      forall id | id in t && id !in Displaceable(t, p) ensures id in left {
      }
      assert left == t - Displaceable(t, p);
    }
  }

  /** What is not past its deadline. */
  function Alive(t: Table, now: int): Table {
    map id | id in t && now < t[id].packet.body.expires :: t[id]
  }

  /** Offering a packet to the table first drops what has expired. A packet still kept stays as it was first kept; a
      new one is kept exactly when it would fit without everything it may displace, and nothing else comes in. */
  lemma KeptExactly(before: Table, after: Table, p: Packet, encoded: seq<Byte>, relayOnly: bool, now: int)
    requires Kept(before, after, p, encoded, relayOnly, now)
    ensures p.id in Alive(before, now) ==> after == Alive(before, now)
    ensures p.id !in Alive(before, now) ==>
      (p.id in after <==> RoomFor(Alive(before, now) - Displaceable(Alive(before, now), p.body.priority), |encoded|))
    ensures p.id !in Alive(before, now) && p.id in after ==>
      after[p.id].packet == p && after[p.id].encoded == encoded && after[p.id].relayOnly == relayOnly
    ensures forall id :: id in after && id != p.id ==> id in before && now < before[id].packet.body.expires && after[id] == before[id]
    ensures forall id :: id in Alive(before, now) && id !in after ==> id in Displaceable(Alive(before, now), p.body.priority)
  {
    hide Inv, Fits, RoomFor, MakeRoom, Displaceable;
    var live := Live(before, now);
    assert live == Alive(before, now);
    RoomCosts(live, p.body.priority, |encoded|);
    RoomIsFit(MakeRoom(live, p.body.priority, |encoded|), |encoded|);
  }

  /** The least urgent go first, the oldest first among them; and what goes last had to go. */
  lemma DisplacedInOrder(t: Table, p: Priority, size: nat)
    requires Inv(t)
    ensures var left := MakeRoom(t, p, size);
      && (forall gone, kept :: gone in t && gone !in left && kept in left && kept in Displaceable(t, p) ==> GoneSooner(t[gone], t[kept]))
      && (left != t ==> exists last ::
            && last in t && last !in left
            && (forall gone :: gone in t && gone !in left && gone != last ==> GoneSooner(t[gone], t[last]))
            && !RoomFor(left[last := t[last]], size))
  {
    hide RoomFor, Fits, MakeRoom, Inv;
    var left := MakeRoom(t, p, size);
    DisplaceableAre(t, p);
    DisplaceableAre(left, p);
    RoomOutcome(t, p, size);
    if left != t {
      var last := RoomIsNeeded(t, p, size);
      RoomIsFit(left[last := t[last]], size);
    }
  }

  /** A packet is refused only when everything kept is more urgent than it, and then everything
      that was not more urgent has been given up for nothing. */
  lemma RefusalKeepsOnlyMoreUrgent(t: Table, p: Priority, size: nat)
    requires Inv(t) && !Fits(MakeRoom(t, p, size), size)
    ensures MakeRoom(t, p, size) == map id | id in t && Rank(t[id].Priority()) < Rank(p) :: t[id]
  {
    RoomOutcome(t, p, size);
    var left := MakeRoom(t, p, size);
    forall id | id in left ensures Rank(t[id].Priority()) < Rank(p) {
      assert id !in Replaceable(left, p);
    }
  }

  /** An SOS of legal size always finds room. */
  lemma SOSDisplacesEverythingElse(t: Table, size: nat)
    requires Inv(t) && size <= MaxPendingBytes
    ensures Fits(MakeRoom(t, SOS, size), size)
  {
    RoomOutcome(t, SOS, size);
    var left := MakeRoom(t, SOS, size);
    if Replaceable(left, SOS) == {} {
      assert forall id :: id in left ==> id in Replaceable(left, SOS);
      assert left == map[];
      assert Sizes(left) == map[];
      TotalEmpty<Id>();
    }
  }
}

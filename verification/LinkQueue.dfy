/** Admission to a link's queue: the byte and slot budget, and what is shed to stay in it. */
module LinkQueue {
  import opened Common
  import opened Packets
  import opened Scheduler

  function Sizes(pending: map<Id, Transfer>): map<Id, nat> {
    map id | id in pending :: |pending[id].value.encoded|
  }

  ghost function Bytes(pending: map<Id, Transfer>): nat {
    Total(Sizes(pending))
  }

  function ByteLimit(p: Priority): nat {
    if p == SOS then MaxPendingBytes else MaxPendingBytes - SOSReserveBytes
  }

  function SlotLimit(p: Priority): nat {
    if p == SOS then MaxTransfers else MaxTransfers - SOSReserveSlots
  }

  ghost predicate Fits(pending: map<Id, Transfer>, value: Retained) {
    |pending| < SlotLimit(value.Priority()) && Bytes(pending) + |value.encoded| <= ByteLimit(value.Priority())
  }

  /** Less urgent than `p`, not on the wire, and either unsent or completely sent. */
  predicate Expendable(t: Transfer, p: Priority) {
    !t.inFlight && Rank(t.Priority()) > Rank(p) && (t.next == 0 || t.next == t.Count())
  }

  function Expendables(pending: map<Id, Transfer>, p: Priority): set<Id> {
    set id | id in pending && Expendable(pending[id], p)
  }

  /** The order of shedding: least urgent first, newest first within a priority. */
  predicate ShedBefore(a: Transfer, b: Transfer) {
    Rank(a.Priority()) > Rank(b.Priority()) || (a.Priority() == b.Priority() && a.value.sequence > b.value.sequence)
  }

  ghost predicate IsVictim(pending: map<Id, Transfer>, p: Priority, id: Id) {
    && id in Expendables(pending, p)
    && forall other :: other in Expendables(pending, p) && other != id ==> ShedBefore(pending[id], pending[other])
  }

  lemma {:induction false} VictimOfExists(pending: map<Id, Transfer>, candidates: set<Id>) returns (id: Id)
    requires WellKeyed(pending) && candidates <= pending.Keys && candidates != {}
    ensures id in candidates
    ensures forall other :: other in candidates && other != id ==> ShedBefore(pending[id], pending[other])
    decreases |candidates|
  {
    var x :| x in candidates;
    if candidates == {x} {
      id := x;
    } else {
      var y := VictimOfExists(pending, candidates - {x});
      id := if ShedBefore(pending[x], pending[y]) then x else y;
    }
  }

  lemma VictimExists(pending: map<Id, Transfer>, p: Priority)
    requires WellKeyed(pending) && Expendables(pending, p) != {}
    ensures exists id :: IsVictim(pending, p, id)
  {
    var id := VictimOfExists(pending, Expendables(pending, p));
    assert IsVictim(pending, p, id);
  }

  ghost function Victim(pending: map<Id, Transfer>, p: Priority): Id
    requires WellKeyed(pending) && Expendables(pending, p) != {}
    ensures IsVictim(pending, p, Victim(pending, p))
  {
    VictimExists(pending, p);
    var id :| IsVictim(pending, p, id);
    id
  }

  /** What is left after shedding for `value`: one victim at a time until it fits or nothing is expendable. */
  ghost function Shed(pending: map<Id, Transfer>, value: Retained): map<Id, Transfer>
    requires WellKeyed(pending)
    decreases |pending|
  {
    if Fits(pending, value) || Expendables(pending, value.Priority()) == {} then pending
    else Shed(pending - {Victim(pending, value.Priority())}, value)
  }

  lemma ShedStep(pending: map<Id, Transfer>, value: Retained, v: Id)
    requires WellKeyed(pending) && !Fits(pending, value) && IsVictim(pending, value.Priority(), v)
    ensures WellKeyed(pending - {v}) && Shed(pending, value) == Shed(pending - {v}, value)
    ensures |pending - {v}| + 1 == |pending|
  {
    hide Fits;
    assert (pending - {v}).Keys == pending.Keys - {v};
    assert v == Victim(pending, value.Priority());
  }

  lemma ShedDone(pending: map<Id, Transfer>, value: Retained)
    requires WellKeyed(pending) && (Fits(pending, value) || Expendables(pending, value.Priority()) == {})
    ensures Shed(pending, value) == pending
  {
  }

  /** The queue of a link after a packet has been offered to it. */
  ghost function Offered(active: bool, pending: map<Id, Transfer>, turn: nat, value: Retained, now: int): map<Id, Transfer>
    requires WellKeyed(pending)
  {
    if !active || value.Id() in pending || value.Expires() <= now then pending else
      var left := Shed(pending, value);
      if Fits(left, value) then left[value.Id() := Transfer(value, 0, 0, 0, turn, false)] else left
  }

  ghost predicate WithinBudget(pending: map<Id, Transfer>) {
    && |pending| <= MaxTransfers && Bytes(pending) <= MaxPendingBytes
    && |Rest(pending)| <= MaxTransfers - SOSReserveSlots
    && Bytes(Rest(pending)) <= MaxPendingBytes - SOSReserveBytes
  }

  /** The traffic that is not SOS. */
  function Rest(pending: map<Id, Transfer>): map<Id, Transfer> {
    map id | id in pending && pending[id].Priority() != SOS :: pending[id]
  }

  lemma BytesRemove(pending: map<Id, Transfer>, id: Id)
    requires id in pending
    ensures Bytes(pending) == |pending[id].value.encoded| + Bytes(pending - {id})
  {
    TotalRemove(Sizes(pending), id);
    assert Sizes(pending) - {id} == Sizes(pending - {id});
  }

  lemma BytesInsert(pending: map<Id, Transfer>, id: Id, t: Transfer)
    requires id !in pending
    ensures Bytes(pending[id := t]) == Bytes(pending) + |t.value.encoded|
  {
    TotalInsert(Sizes(pending), id, |t.value.encoded|);
    assert Sizes(pending[id := t]) == Sizes(pending)[id := |t.value.encoded|];
  }

  lemma BytesReplace(pending: map<Id, Transfer>, id: Id, t: Transfer)
    requires id in pending && t.value == pending[id].value
    ensures Bytes(pending[id := t]) == Bytes(pending)
  {
    assert Sizes(pending[id := t]) == Sizes(pending);
  }

  lemma RestReplace(pending: map<Id, Transfer>, id: Id, t: Transfer)
    requires id in pending && t.value == pending[id].value
    ensures Bytes(Rest(pending[id := t])) == Bytes(Rest(pending)) && |Rest(pending[id := t])| == |Rest(pending)|
  {
    hide Bytes;
    var next := pending[id := t];
    if pending[id].Priority() == SOS {
      assert Rest(next) == Rest(pending);
    } else {
      assert Rest(next) == Rest(pending)[id := t];
      BytesReplace(Rest(pending), id, t);
      assert Rest(next).Keys == Rest(pending).Keys;
    }
  }

  lemma ReplaceKeepsBudget(pending: map<Id, Transfer>, id: Id, t: Transfer)
    requires WithinBudget(pending) && id in pending && t.value == pending[id].value
    ensures WithinBudget(pending[id := t]) && Bytes(pending[id := t]) == Bytes(pending)
  {
    hide Bytes, Rest;
    BytesReplace(pending, id, t);
    RestReplace(pending, id, t);
    assert pending[id := t].Keys == pending.Keys;
  }

  lemma {:induction false} BytesMonotone(small: map<Id, Transfer>, large: map<Id, Transfer>)
    requires forall id :: id in small ==> id in large && small[id] == large[id]
    ensures Bytes(small) <= Bytes(large) && |small| <= |large|
    decreases |large|
  {
    CardinalitySubset(small.Keys, large.Keys);
    if large != small {
      var id :| id in large && id !in small;
      BytesRemove(large, id);
      BytesMonotone(small, large - {id});
    }
  }

  lemma {:induction false} SubmapWithinBudget(small: map<Id, Transfer>, large: map<Id, Transfer>)
    requires WithinBudget(large)
    requires forall id :: id in small ==> id in large && small[id] == large[id]
    ensures WithinBudget(small)
  {
    BytesMonotone(small, large);
    BytesMonotone(Rest(small), Rest(large));
  }

  /** Whatever is admitted when it fits keeps both budgets: the total, and the share that is not SOS. */
  lemma AdmissionKeepsBudget(pending: map<Id, Transfer>, value: Retained, t: Transfer)
    requires WithinBudget(pending) && Fits(pending, value) && value.Id() !in pending && t.value == value
    ensures WithinBudget(pending[value.Id() := t])
  {
    hide Bytes;
    var next := pending[value.Id() := t];
    assert |next| == |pending| + 1 by { assert next.Keys == pending.Keys + {value.Id()}; }
    BytesInsert(pending, value.Id(), t);
    if value.Priority() == SOS {
      assert Rest(next) == Rest(pending);
    } else {
      BytesMonotone(Rest(next), next);
    }
  }

  /** What shedding may and may not take: only expendable transfers go, each before every
      expendable transfer that stays, and it stops at the first point where the value fits. */
  ghost predicate ShedProperly(pending: map<Id, Transfer>, value: Retained, left: map<Id, Transfer>) {
    var p := value.Priority();
    && WellKeyed(left)
    && left.Keys <= pending.Keys
    && (forall id :: id in left ==> left[id] == pending[id])
    && (forall gone :: gone in pending && gone !in left ==> Expendable(pending[gone], p))
    && (forall gone, kept :: gone in pending && gone !in left && kept in left && Expendable(left[kept], p) ==> ShedBefore(pending[gone], left[kept]))
    && (Fits(left, value) || Expendables(left, p) == {})
  }

  lemma ShedOneMore(pending: map<Id, Transfer>, value: Retained, v: Id, left: map<Id, Transfer>)
    requires WellKeyed(pending) && IsVictim(pending, value.Priority(), v)
    requires ShedProperly(pending - {v}, value, left)
    ensures ShedProperly(pending, value, left)
  {
    var p := value.Priority();
    forall gone, kept | gone in pending && gone !in left && kept in left && Expendable(left[kept], p)
      ensures ShedBefore(pending[gone], left[kept])
    {
      if gone == v {
        assert kept in Expendables(pending, p);
      } else {
        assert gone in pending - {v};
      }
    }
    forall gone | gone in pending && gone !in left ensures Expendable(pending[gone], p) {
      if gone != v {
        assert gone in pending - {v};
      }
    }
  }

  lemma {:induction false} ShedOutcome(pending: map<Id, Transfer>, value: Retained)
    requires WellKeyed(pending)
    ensures ShedProperly(pending, value, Shed(pending, value))
    decreases |pending|
  {
    if !Fits(pending, value) && Expendables(pending, value.Priority()) != {} {
      var v := Victim(pending, value.Priority());
      ShedOutcome(pending - {v}, value);
      ShedOneMore(pending, value, v, Shed(pending - {v}, value));
    }
  }

  lemma ShedIsSubmap(pending: map<Id, Transfer>, value: Retained)
    requires WellKeyed(pending)
    ensures forall id :: id in Shed(pending, value) ==> id in pending && Shed(pending, value)[id] == pending[id]
  {
    ShedOutcome(pending, value);
  }

  /** Offering a packet adds at most a transfer of that packet. */
  lemma OfferedFrom(active: bool, pending: map<Id, Transfer>, turn: nat, value: Retained, now: int)
    requires WellKeyed(pending)
    ensures var next := Offered(active, pending, turn, value, now);
      forall id :: id in next ==> next[id].value == value || (id in pending && next[id] == pending[id])
  {
    ShedIsSubmap(pending, value);
  }

  lemma OfferedWhenPast(active: bool, pending: map<Id, Transfer>, turn: nat, value: Retained, now: int)
    requires WellKeyed(pending)
    ensures value.Expires() <= now ==> Offered(active, pending, turn, value, now) == pending
  {
  }

  lemma OfferedWhenFits(active: bool, pending: map<Id, Transfer>, turn: nat, value: Retained, now: int)
    requires WellKeyed(pending)
    ensures active && Fits(pending, value) && value.Id() !in pending && value.Expires() > now ==>
      Offered(active, pending, turn, value, now) == pending[value.Id() := Transfer(value, 0, 0, 0, turn, false)]
  {
    hide Fits;
    if Fits(pending, value) {
      ShedDone(pending, value);
    }
  }

  /** Shedding is never excessive: put the last victim back and the value no longer fits. */
  ghost predicate LastShed(pending: map<Id, Transfer>, value: Retained, left: map<Id, Transfer>, last: Id) {
    && last in pending && last !in left
    && (forall gone :: gone in pending && gone !in left && gone != last ==> ShedBefore(pending[gone], pending[last]))
    && !Fits(left[last := pending[last]], value)
  }

  lemma {:induction false} ShedIsNeeded(pending: map<Id, Transfer>, value: Retained) returns (last: Id)
    requires WellKeyed(pending) && Shed(pending, value) != pending
    ensures LastShed(pending, value, Shed(pending, value), last)
    decreases |pending|
  {
    var v := Victim(pending, value.Priority());
    var next := pending - {v};
    var left := Shed(next, value);
    if left == next {
      last := v;
      assert next[v := pending[v]] == pending;
    } else {
      last := ShedIsNeeded(next, value);
      ShedOutcome(next, value);
      assert last in Expendables(pending, value.Priority());
      forall gone | gone in pending && gone !in left && gone != last ensures ShedBefore(pending[gone], pending[last]) {
        if gone != v {
          assert gone in next;
        }
      }
    }
  }

  /** What a packet of priority `p` can displace: less urgent, not on the wire, and not half sent. */
  function Displaceable(pending: map<Id, Transfer>, p: Priority): set<Id> {
    set id | id in pending && !pending[id].inFlight && !AsUrgent(pending[id].value.packet.body.priority, p)
          && (pending[id].next == 0 || pending[id].next == (|pending[id].value.encoded| + 2047) / 2048)
  }

  lemma DisplaceableAre(pending: map<Id, Transfer>, p: Priority)
    ensures Displaceable(pending, p) == Expendables(pending, p)
  {
  }

  ghost predicate RoomFor(pending: map<Id, Transfer>, value: Retained) {
    if value.packet.body.priority == SOS then |pending| < 64 && Bytes(pending) + |value.encoded| <= 16 * 1048576
    else |pending| < 62 && Bytes(pending) + |value.encoded| <= 16 * 1048576 - 65536
  }

  lemma RoomIsFit(pending: map<Id, Transfer>, value: Retained)
    ensures Fits(pending, value) <==> RoomFor(pending, value)
  {
    hide Bytes;
  }

  /** A packet is admitted exactly when it is new, alive, and fits once everything it may displace is gone;
      what it costs is no more than that, and all of that where it is refused. */
  lemma AdmittedExactly(active: bool, pending: map<Id, Transfer>, turn: nat, value: Retained, now: int)
    requires WellKeyed(pending)
    ensures var after := Offered(active, pending, turn, value, now);
      if !active || value.Id() in pending || value.packet.body.expires <= now then after == pending
      else if RoomFor(pending - Displaceable(pending, value.packet.body.priority), value) then
        && value.Id() in after && after[value.Id()] == Transfer(value, 0, 0, 0, turn, false)
        && (forall id :: id in after && id != value.Id() ==> id in pending && after[id] == pending[id])
        && pending.Keys - after.Keys <= Displaceable(pending, value.packet.body.priority)
        && (RoomFor(pending, value) ==> pending.Keys <= after.Keys)
      else after == pending - Displaceable(pending, value.packet.body.priority)
  {
    hide WellKeyed, RoomFor, Displaceable, Shed, Fits;
    ShedCosts(pending, value);
    RoomIsFit(Shed(pending, value), value);
  }

  lemma ShedCosts(pending: map<Id, Transfer>, value: Retained)
    requires WellKeyed(pending)
    ensures var left, core := Shed(pending, value), pending - Displaceable(pending, value.packet.body.priority);
      && (forall id :: id in left ==> id in pending && left[id] == pending[id])
      && pending.Keys - left.Keys <= Displaceable(pending, value.packet.body.priority)
      && (RoomFor(core, value) <==> RoomFor(left, value))
      && (!RoomFor(core, value) ==> left == core)
      && (RoomFor(pending, value) ==> left == pending)
  {
    hide WellKeyed, RoomFor, Displaceable, Shed, Fits;
    var left := Shed(pending, value);
    DisplaceableAre(pending, value.Priority());
    ShedOutcome(pending, value);
    assert forall gone :: gone in pending && gone !in left ==> gone in Expendables(pending, value.Priority());
    RoomIsFit(left, value);
    RoomIsFit(pending, value);
    CoreFits(pending, value, left);
    CoreIsAll(pending, value, left);
    if Fits(pending, value) {
      ShedDone(pending, value);
    }
  }

  lemma CoreFits(pending: map<Id, Transfer>, value: Retained, left: map<Id, Transfer>)
    requires ShedProperly(pending, value, left)
    ensures RoomFor(left, value) ==> RoomFor(pending - Displaceable(pending, value.packet.body.priority), value)
  {
    hide WellKeyed, Bytes, Fits;
    var core := pending - Displaceable(pending, value.Priority());
    DisplaceableAre(pending, value.Priority());
    assert forall id :: id in core ==> id in left && left[id] == core[id];
    BytesMonotone(core, left);
  }

  lemma CoreIsAll(pending: map<Id, Transfer>, value: Retained, left: map<Id, Transfer>)
    requires ShedProperly(pending, value, left)
    ensures !RoomFor(left, value) ==> left == pending - Displaceable(pending, value.packet.body.priority)
  {
    hide WellKeyed, Fits, RoomFor;
    RoomIsFit(left, value);
    DisplaceableAre(pending, value.Priority());
    if Expendables(left, value.Priority()) == {} {
      forall id | id in left ensures id !in Displaceable(pending, value.Priority()) {
        assert id !in Expendables(left, value.Priority());
      }
      assert left == pending - Displaceable(pending, value.Priority());
    }
  }

  /** The least urgent go first, the newest first among them; and what goes last had to go. */
  lemma DisplacedInOrder(pending: map<Id, Transfer>, value: Retained)
    requires WellKeyed(pending)
    ensures var left := Shed(pending, value);
      && (forall gone, kept :: gone in pending && gone !in left && kept in left && kept in Displaceable(pending, value.packet.body.priority) ==>
            GoneSooner(pending[gone], pending[kept]))
      && (left != pending ==> exists last ::
            && last in pending && last !in left
            && (forall gone :: gone in pending && gone !in left && gone != last ==> GoneSooner(pending[gone], pending[last]))
            && !RoomFor(left[last := pending[last]], value))
  {
    hide RoomFor, Fits, Shed, WellKeyed;
    var left := Shed(pending, value);
    DisplaceableAre(pending, value.Priority());
    ShedOutcome(pending, value);
    if left != pending {
      var last := ShedIsNeeded(pending, value);
      RoomIsFit(left[last := pending[last]], value);
    }
  }

  predicate GoneSooner(a: Transfer, b: Transfer) {
    var p, q := a.value.packet.body.priority, b.value.packet.body.priority;
    AsUrgent(q, p) && (p == q ==> a.value.sequence > b.value.sequence)
  }

  /** A refusal is not free: every expendable transfer was shed before the value was refused. */
  lemma RefusalShedsEverythingExpendable(pending: map<Id, Transfer>, value: Retained)
    requires WellKeyed(pending) && !Fits(Shed(pending, value), value)
    ensures Shed(pending, value).Keys == pending.Keys - Expendables(pending, value.Priority())
  {
    ShedOutcome(pending, value);
    var left := Shed(pending, value);
    forall id | id in left ensures id !in Expendables(pending, value.Priority()) {
      assert id !in Expendables(left, value.Priority());
    }
  }

  /** The reserve works: while no SOS is queued, an SOS of at most 64 KiB is admitted and nothing is shed. */
  lemma SOSReserve(pending: map<Id, Transfer>, value: Retained)
    requires WellKeyed(pending) && WithinBudget(pending)
    requires forall id :: id in pending ==> pending[id].Priority() != SOS
    requires value.Priority() == SOS && |value.encoded| <= SOSReserveBytes
    ensures Fits(pending, value) && Shed(pending, value) == pending
  {
    assert Rest(pending) == pending;
  }
}

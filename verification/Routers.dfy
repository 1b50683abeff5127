/** The router: bounded tables shared by its links, flooding, and local delivery. */
module Routers {
  import opened Common
  import opened Packets
  import Scheduler
  import LinkQueue
  import opened Links
  import Retention
  import H = SeenHistory
  import Flood

  const MaxDeliveries := 64
  const MaxLinks := 24

  datatype Delivery = Delivery(payload: seq<Byte>, hops: seq<Name>, source: Name, id: Id)

  datatype Verdict = Stopped | PastDeadline | AlreadySeen | NamedInHops | QueueFull | Accepted

  datatype Sending = Rejected | RouterStopped | Paused | Known | NoRoom | Sent

  function PayloadBytes(d: seq<Delivery>): nat {
    if d == [] then 0 else PayloadBytes(d[..|d| - 1]) + |d[|d| - 1].payload|
  }

  /** A queue without the packets that match. */
  function Unmatched(pending: map<Id, Scheduler.Transfer>, matching: Retained -> bool): map<Id, Scheduler.Transfer> {
    map id | id in pending && !matching(pending[id].value) :: pending[id]
  }

  /** A retained table without the packets that match. */
  function Unkept(t: Retention.Table, matching: Retained -> bool): Retention.Table {
    map id | id in t && !matching(t[id]) :: t[id]
  }

  /** The packets a router sent itself whose payload matches. */
  function OwnMatching(name: Name, matching: seq<Byte> -> bool): Retained -> bool {
    (v: Retained) => v.packet.body.source == name && matching(v.packet.body.payload)
  }

  const RelayedOnly := (v: Retained) => v.relayOnly

  /** What cancelling leaves is what others sent or does not match, and turning relaying off what is not only relayed:
      in the table and in a queue alike, as it was. */
  lemma LeftExactly(t: Retention.Table, pending: map<Id, Scheduler.Transfer>, name: Name, matching: seq<Byte> -> bool)
    ensures var table, queue := Unkept(t, OwnMatching(name, matching)), Unmatched(pending, OwnMatching(name, matching));
      && (forall id :: id in table <==> id in t && (t[id].packet.body.source == name ==> !matching(t[id].packet.body.payload)))
      && (forall id :: id in queue <==>
            id in pending && (pending[id].value.packet.body.source == name ==> !matching(pending[id].value.packet.body.payload)))
      && (forall id :: id in table ==> table[id] == t[id]) && (forall id :: id in queue ==> queue[id] == pending[id])
    ensures var table, queue := Unkept(t, RelayedOnly), Unmatched(pending, RelayedOnly);
      && (forall id :: id in table <==> id in t && !t[id].relayOnly) && (forall id :: id in table ==> table[id] == t[id])
      && (forall id :: id in queue <==> id in pending && !pending[id].value.relayOnly)
      && (forall id :: id in queue ==> queue[id] == pending[id])
  {
  }

  lemma {:induction false} PayloadBytesPop(d: seq<Delivery>)
    requires d != []
    ensures PayloadBytes(d) == |d[0].payload| + PayloadBytes(d[1..])
    decreases |d|
  {
    if |d| > 1 {
      PayloadBytesPop(d[..|d| - 1]);
      assert d[..|d| - 1][1..] == d[1..][..|d[1..]| - 1];
    }
  }

  /** Kept packets few and small enough that even the traffic that is not SOS fits a queue whole. */
  ghost predicate Small(t: Retention.Table) {
    |t| <= MaxTransfers - SOSReserveSlots && Retention.Bytes(t) <= MaxPendingBytes - SOSReserveBytes
  }

  lemma SmallAlwaysFits(t: Retention.Table, pending: map<Id, Scheduler.Transfer>, id: Id)
    requires Small(t) && id in t && id !in pending
    requires forall k :: k in pending ==> k in t && pending[k].value == t[k]
    ensures LinkQueue.Fits(pending, t[id])
  {
    hide Total;
    var sizes := LinkQueue.Sizes(pending);
    TotalInsert(sizes, id, |t[id].encoded|);
    TotalMonotone(sizes[id := |t[id].encoded|], Retention.Sizes(t));
    CardinalitySubset(pending.Keys + {id}, t.Keys);
  }

  /** A list without repeats and a lookup table that hold the same entries are equally long. */
  lemma {:induction false} EntriesCount(h: H.History, seen: map<Id, int>)
    requires forall i, j :: 0 <= i < j < |h| ==> h[i].id != h[j].id
    requires forall e :: e in h ==> e.id in seen && seen[e.id] == e.expires
    requires forall id :: id in seen ==> H.Entry(id, seen[id]) in h
    ensures |seen| == |h|
    decreases |h|
  {
    if h == [] {
      assert seen == map[];
    } else {
      var first, rest := h[0], seen - {h[0].id};
      assert h == [first] + h[1..];
      forall id | id in rest ensures H.Entry(id, rest[id]) in h[1..] {
        assert H.Entry(id, seen[id]) != first;
      }
      EntriesCount(h[1..], rest);
      assert rest.Keys == seen.Keys - {first.id};
    }
  }

  /** Offering one kept packet to a queue of kept packets. */
  lemma ReplayedOne(
      t: Retention.Table, before: map<Id, Scheduler.Transfer>, after: map<Id, Scheduler.Transfer>, turn: nat, id: Id, now: int)
    requires Scheduler.WellKeyed(before) && id in t && t[id].Id() == id && id !in before
    requires forall k :: k in before ==> k in t && before[k].value == t[k]
    requires after == LinkQueue.Offered(true, before, turn, t[id], now) && forall k :: k in after ==> after[k].value.Id() == k
    ensures forall k :: k in after ==> (k == id || k in before) && k in t && after[k].value == t[k]
    ensures Small(t) ==> before.Keys <= after.Keys && (t[id].Expires() > now ==> id in after)
  {
    hide LinkQueue.Offered, Scheduler.WellKeyed, Small, LinkQueue.Fits;
    if Small(t) { SmallAlwaysFits(t, before, id); }
    LinkQueue.OfferedFrom(true, before, turn, t[id], now);
    LinkQueue.OfferedWhenFits(true, before, turn, t[id], now);
    LinkQueue.OfferedWhenPast(true, before, turn, t[id], now);
  }

  lemma OneMoreKept(t: Retention.Table, id: Id, v: Retained)
    requires id !in t
    ensures |t[id := v]| == |t| + 1
  {
    assert t[id := v].Keys == t.Keys + {id};
  }

  /** The bytes decode to the packet of this name. */
  predicate Names(decode: seq<Byte> -> Option<Packet>, encoded: seq<Byte>, id: Id) {
    decode(encoded).Some? && decode(encoded).value.id == id
  }

  /** The bytes the fragment completes, if it does. */
  ghost function Whole(t: R.Table, part: R.Part, now: int): seq<Byte> {
    var outcome := R.Receive(t - R.Stale(t, now), part, now).1;
    if outcome.Complete? then outcome.encoded else []
  }

  /** The bytes of the copy that is passed on. */
  function CopyOf(self: Name, p: Packet, encode: Packet -> seq<Byte>): seq<Byte> {
    var copy := Flood.Forwarded(self, p);
    if copy.Some? then encode(copy.value) else encode(p)
  }

  /** What a table keeps of a packet is what it kept before, or the packet itself. */
  lemma KeptAsIs(before: Retention.Table, after: Retention.Table, p: Packet, encoded: seq<Byte>, now: int)
    requires Retention.Kept(before, after, p, encoded, true, now) && p.id in after
    ensures (p.id in before && after[p.id] == before[p.id])
      || (after[p.id].packet == p && after[p.id].encoded == encoded && after[p.id].relayOnly)
  {
    hide Retention.Inv, Retention.Fits;
    Retention.RoomOutcome(Retention.Live(before, now), p.body.priority, |encoded|);
  }

  predicate Delivers(before: seq<Delivery>, after: seq<Delivery>, p: Packet) {
    after == before + [Delivery(p.body.payload, p.hops, p.body.source, p.id)]
  }

  function Relayable(t: Retention.Table, relay: bool): set<Id> {
    set id | id in t && (!t[id].relayOnly || relay)
  }

  /** An empty queue after these kept packets were offered to it, one after the other. */
  ghost function OfferedEach(t: Retention.Table, order: seq<Id>, turn: nat, now: int): map<Id, Scheduler.Transfer> {
    if order == [] then map[]
    else
      var before := OfferedEach(t, order[..|order| - 1], turn, now);
      var id := order[|order| - 1];
      if id in t && Scheduler.WellKeyed(before) then LinkQueue.Offered(true, before, turn, t[id], now) else before
  }

  /** The queue of a new link: everything relayable was offered to it once, in some order. */
  ghost predicate ReplayedFrom(t: Retention.Table, relay: bool, pending: map<Id, Scheduler.Transfer>, turn: nat, now: int) {
    exists order ::
      (forall id :: id in order <==> id in Relayable(t, relay)) && |order| == |Relayable(t, relay)|
      && pending == OfferedEach(t, order, turn, now)
  }

  /** Part of the way: `todo` are the kept packets not looked at yet. */
  ghost predicate Offering(
    t: Retention.Table, relay: bool, todo: set<Id>, order: seq<Id>, pending: map<Id, Scheduler.Transfer>, turn: nat, now: int)
  {
    && (forall id :: id in order <==> id in Relayable(t, relay) - todo) && |order| == |Relayable(t, relay) - todo|
    && pending == OfferedEach(t, order, turn, now)
  }

  lemma NoneOffered(t: Retention.Table, relay: bool, turn: nat, now: int)
    ensures Offering(t, relay, t.Keys, [], map[], turn, now)
  {
    assert Relayable(t, relay) - t.Keys == {};
  }

  lemma OneMoreOffered(
      t: Retention.Table, relay: bool, todo: set<Id>, order: seq<Id>, before: map<Id, Scheduler.Transfer>, id: Id, turn: nat, now: int)
    requires Offering(t, relay, todo, order, before, turn, now) && id in todo && id in Relayable(t, relay)
    requires Scheduler.WellKeyed(before)
    ensures Offering(t, relay, todo - {id}, order + [id], LinkQueue.Offered(true, before, turn, t[id], now), turn, now)
  {
    hide LinkQueue.Offered, Scheduler.WellKeyed;
    assert (order + [id])[..|order|] == order;
    assert Relayable(t, relay) - (todo - {id}) == (Relayable(t, relay) - todo) + {id};
  }

  lemma NotOffered(
      t: Retention.Table, relay: bool, todo: set<Id>, order: seq<Id>, pending: map<Id, Scheduler.Transfer>, id: Id, turn: nat, now: int)
    requires Offering(t, relay, todo, order, pending, turn, now) && id !in Relayable(t, relay)
    ensures Offering(t, relay, todo - {id}, order, pending, turn, now)
  {
    hide OfferedEach;
    assert Relayable(t, relay) - (todo - {id}) == Relayable(t, relay) - todo;
  }

  lemma AllOffered(
      t: Retention.Table, relay: bool, order: seq<Id>, pending: map<Id, Scheduler.Transfer>, turn: nat, now: int)
    requires Offering(t, relay, {}, order, pending, turn, now)
    ensures ReplayedFrom(t, relay, pending, turn, now)
  {
    hide OfferedEach;
    assert Relayable(t, relay) - {} == Relayable(t, relay);
  }

  class Router {
    const name: Name
    var relay: bool
    var lowPower: bool
    var stopped: bool
    var links: set<Link>
    var retained: Retention.Table
    var retainedBytes: nat
    var sequence: nat
    var seen: map<Id, int>
    var seenOrder: H.History
    var deliveries: seq<Delivery>
    var deliveryBytes: nat
    var dropped: nat
    /** Which packet each arrival number was given to: snapshots outlive the retained table. */
    ghost var issued: map<nat, Id>

    ghost predicate Issued(v: Retained)
      reads `issued
    {
      v.sequence in issued && issued[v.sequence] == v.Id()
    }

    ghost predicate ValidRetained()
      reads `retained, `retainedBytes, `sequence, `issued
    {
      && Retention.Inv(retained) && retainedBytes == Retention.Bytes(retained)
      && (forall id :: id in retained ==> Issued(retained[id]))
      && (forall n :: n in issued ==> n <= sequence)
    }

    /** The lookup table and the list hold the same entries. */
    ghost predicate ValidSeen()
      reads `seen, `seenOrder
    {
      && H.Inv(seenOrder)
      && (forall e :: e in seenOrder ==> e.id in seen && seen[e.id] == e.expires)
      && (forall id :: id in seen ==> H.Entry(id, seen[id]) in seenOrder)
    }

    ghost predicate ValidDeliveries()
      reads `deliveries, `deliveryBytes
    {
      |deliveries| <= MaxDeliveries && deliveryBytes == PayloadBytes(deliveries) <= MaxPendingBytes
    }

    /** With relaying off, nothing that is only relayed is kept or queued. */
    ghost predicate Consents(v: Retained)
      reads `relay
    {
      v.relayOnly ==> relay
    }

    ghost predicate LinkOk(l: Link)
      reads `issued, `relay, l
    {
      l.Valid() && forall id :: id in l.pending ==> Issued(l.pending[id].value) && Consents(l.pending[id].value)
    }

    ghost predicate Valid()
      reads this, links
    {
      ValidRetained() && ValidSeen() && ValidDeliveries() && LinksOk() && RetainedConsents()
    }

    /** The limits on everything the router holds, read off its invariant. */
    lemma Limits()
      requires Valid()
      ensures |retained| <= 64 && retainedBytes == Retention.Bytes(retained) <= 16 * 1048576
      ensures |deliveries| <= 64 && deliveryBytes == PayloadBytes(deliveries) <= 16 * 1048576
      ensures |seen| == |seenOrder| <= 4096 && |links| <= 24
      ensures forall l :: l in links ==> |l.pending| <= 64 && l.pendingBytes == LinkQueue.Bytes(l.pending) <= MaxPendingBytes
      ensures forall l :: l in links ==>
        |LinkQueue.Rest(l.pending)| <= 62 && LinkQueue.Bytes(LinkQueue.Rest(l.pending)) <= MaxPendingBytes - 64 * 1024
      ensures forall l :: l in links ==> |l.assemblies| <= 8 && l.assemblyBytes == R.TableBytes(l.assemblies) <= MaxPendingBytes
      ensures forall l :: l in links ==> |l.controls| <= 64 && |Scheduler.PartialIds(l.View(), SOS)| <= 7
      ensures !relay ==> (forall id :: id in retained ==> !retained[id].relayOnly)
      ensures !relay ==> forall l, id :: l in links && id in l.pending ==> !l.pending[id].value.relayOnly
    {
      hide Retention.Bytes, LinkQueue.Bytes, R.TableBytes, Scheduler.Inv, Scheduler.PartialIds, LinkQueue.Rest, Total;
      EntriesCount(seenOrder, seen);
      forall l | l in links ensures |Scheduler.PartialIds(l.View(), SOS)| <= 7 {
        SP.PartialLimits(l.View());
      }
    }

    constructor (name: Name, relay: bool)
      ensures Valid() && this.name == name && this.relay == relay && !stopped && links == {}
      ensures retained == map[] && seenOrder == [] && deliveries == []
    {
      this.name, this.relay, lowPower, stopped, links := name, relay, false, false, {};
      retained, retainedBytes, sequence, seen, seenOrder := map[], 0, 0, map[], [];
      deliveries, deliveryBytes, dropped, issued := [], 0, 0, map[];
      new;
      assert Retention.Sizes(map[]) == map[];
    }

    // The memory of packets seen

    method HasSeen(id: Id, now: int) returns (answer: bool)
      requires ValidSeen()
      modifies `seen, `seenOrder
      ensures ValidSeen()
      ensures answer == H.Live(old(seenOrder), id, now) && seenOrder == H.Ask(old(seenOrder), id, now)
    {
      hide H.Inv;
      H.KeepIsInv(seenOrder, (e: H.Entry) => e.id != id || e.expires > now);
      if id !in seen {
        H.KeepAll(seenOrder, (e: H.Entry) => e.id != id || e.expires > now);
        return false;
      }
      if seen[id] <= now {
        seenOrder := H.Ask(seenOrder, id, now);
        seen := seen - {id};
        return false;
      }
      H.KeepAll(seenOrder, (e: H.Entry) => e.id != id || e.expires > now);
      return true;
    }

    method Remember(p: Packet)
      requires ValidSeen()
      modifies `seen, `seenOrder
      ensures ValidSeen()
      ensures seenOrder == if H.Knows(old(seenOrder), p.id) then old(seenOrder) else H.Remember(old(seenOrder), p.id, p.body.expires)
    {
      if p.id in seen {
        return;
      }
      H.RememberIsInv(seenOrder, p.id, p.body.expires);
      ghost var before := seenOrder;
      if |seenOrder| >= H.MaxSeen {
        seen := seen - {seenOrder[0].id};
        seenOrder := seenOrder[1..];
      }
      assert forall e :: e in seenOrder ==> e in before;
      seen := seen[p.id := p.body.expires];
      seenOrder := seenOrder + [H.Entry(p.id, p.body.expires)];
    }

    method SweepSeen(now: int)
      requires ValidSeen()
      modifies `seen, `seenOrder
      ensures ValidSeen() && seenOrder == H.Sweep(old(seenOrder), now)
    {
      H.KeepIsInv(seenOrder, (e: H.Entry) => e.expires > now);
      seenOrder := H.Sweep(seenOrder, now);
      seen := map id | id in seen && seen[id] > now :: seen[id];
    }

    // The retained table

    method RemoveRetained(id: Id)
      requires ValidRetained()
      modifies `retained, `retainedBytes
      ensures ValidRetained() && retained == old(retained) - {id}
    {
      hide Retention.Inv, Retention.Bytes;
      if id in retained {
        Retention.WithoutIsInv(retained, id);
        Retention.BytesRemove(retained, id);
        retainedBytes := retainedBytes - |retained[id].encoded|;
        retained := retained - {id};
      } else {
        assert retained - {id} == retained;
      }
    }

    method ExpireRetained(now: int)
      requires ValidRetained()
      modifies `retained, `retainedBytes
      ensures ValidRetained() && retained == Retention.Live(old(retained), now)
    {
      hide Retention.Inv, Retention.Bytes;
      var todo := retained.Keys;
      while todo != {}
        invariant ValidRetained() && todo <= retained.Keys
        invariant forall id :: id in retained ==> id in old(retained) && retained[id] == old(retained)[id]
        invariant forall id :: id in old(retained) ==> (id in retained <==> id in todo || old(retained)[id].Expires() > now)
        decreases |todo|
      {
        var id :| id in todo;
        todo := todo - {id};
        if retained[id].Expires() <= now {
          RemoveRetained(id);
        }
      }
    }

    method FindVictim(p: Priority) returns (victim: Option<Id>)
      requires ValidRetained()
      ensures victim.None? ==> Retention.Replaceable(retained, p) == {}
      ensures victim.Some? ==> Retention.IsVictim(retained, p, victim.value)
    {
      hide Retention.Bytes;
      victim := None;
      var todo := retained.Keys;
      while todo != {}
        invariant todo <= retained.Keys
        invariant victim.None? ==> Retention.Replaceable(retained, p) <= todo
        invariant victim.Some? ==> victim.value in Retention.Replaceable(retained, p)
        invariant victim.Some? ==> forall id :: id in Retention.Replaceable(retained, p) && id !in todo && id != victim.value ==>
                    Retention.ReplacedBefore(retained[victim.value], retained[id])
        decreases |todo|
      {
        var id :| id in todo;
        todo := todo - {id};
        if Rank(retained[id].Priority()) >= Rank(p) && (victim.None? || Retention.ReplacedBefore(retained[id], retained[victim.value])) {
          victim := Some(id);
        }
      }
    }

    method MakeRoom(p: Priority, size: nat) returns (fits: bool)
      requires ValidRetained()
      modifies `retained, `retainedBytes, `dropped
      ensures ValidRetained() && Retention.Inv(old(retained))
      ensures retained == Retention.MakeRoom(old(retained), p, size) && fits == Retention.Fits(retained, size)
      ensures forall id :: id in retained ==> id in old(retained) && retained[id] == old(retained)[id]
      ensures dropped == old(dropped) + |old(retained)| - |retained|
    {
      hide Retention.Inv, Retention.Bytes, Retention.MakeRoom, Retention.IsVictim, Retention.Replaceable;
      while |retained| >= MaxTransfers || retainedBytes + size > MaxPendingBytes
        invariant ValidRetained()
        invariant dropped == old(dropped) + |old(retained)| - |retained|
        invariant Retention.MakeRoom(retained, p, size) == Retention.MakeRoom(old(retained), p, size)
        invariant forall id :: id in retained ==> id in old(retained) && retained[id] == old(retained)[id]
        decreases |retained|
      {
        var victim := FindVictim(p);
        if victim.None? {
          Retention.RoomDone(retained, p, size);
          return false;
        }
        Retention.RoomStep(retained, p, size, victim.value);
        RemoveRetained(victim.value);
        dropped := dropped + 1;
      }
      Retention.RoomDone(retained, p, size);
      return true;
    }

    /** Keeps a packet that is not kept yet, if room can be made. */
    method Admit(p: Packet, encoded: seq<Byte>, relayOnly: bool) returns (value: Option<Retained>)
      requires ValidRetained() && p.id !in retained && 0 < |encoded|
      modifies `retained, `retainedBytes, `sequence, `dropped, `issued
      ensures ValidRetained() && Retention.Inv(old(retained))
      ensures var room := Retention.MakeRoom(old(retained), p.body.priority, |encoded|);
        if Retention.Fits(room, |encoded|)
        then value == Some(Retained(p, encoded, relayOnly, sequence)) && Issued(value.value) && retained == room[p.id := value.value]
        else value == None && retained == room
      ensures forall id :: id in retained && id != p.id ==> id in old(retained) && retained[id] == old(retained)[id]
      ensures value.None? ==> p.id !in retained
      ensures dropped == old(dropped) + |old(retained)| + 1 - |retained|
      ensures forall n :: n in old(issued) ==> n in issued && issued[n] == old(issued)[n]
    {
      hide Retention.Inv, Retention.Bytes, Retention.MakeRoom, Retention.Fits, ValidRetained, Issued;
      var fits := MakeRoom(p.body.priority, |encoded|);
      if !fits {
        dropped := dropped + 1;
        return None;
      }
      var v := Add(p, encoded, relayOnly);
      return Some(v);
    }

    /** Keeps a packet there is room for. */
    method Add(p: Packet, encoded: seq<Byte>, relayOnly: bool) returns (v: Retained)
      requires ValidRetained() && p.id !in retained && 0 < |encoded| && Retention.Fits(retained, |encoded|)
      modifies `retained, `retainedBytes, `sequence, `issued
      ensures ValidRetained() && v == Retained(p, encoded, relayOnly, sequence) && Issued(v)
      ensures retained == old(retained)[p.id := v] && |retained| == |old(retained)| + 1
      ensures forall n :: n in old(issued) ==> n in issued && issued[n] == old(issued)[n]
    {
      hide Retention.Inv, Retention.Bytes, Retention.Fits;
      sequence := sequence + 1;
      v := Retained(p, encoded, relayOnly, sequence);
      Retention.AddIsInv(retained, v);
      issued := issued[sequence := p.id];
      retainedBytes := retainedBytes + |encoded|;
      OneMoreKept(retained, p.id, v);
      retained := retained[p.id := v];
    }

    /** Keeps a packet for later links. A packet already kept is returned as it was first kept. */
    method Retain(p: Packet, encoded: seq<Byte>, relayOnly: bool, now: int) returns (value: Option<Retained>)
      requires ValidRetained() && ValidSeen() && 0 < |encoded|
      modifies `retained, `retainedBytes, `sequence, `seen, `seenOrder, `dropped, `issued
      ensures ValidRetained() && ValidSeen()
      ensures seenOrder == H.Sweep(old(seenOrder), now)
      ensures Retention.Inv(Retention.Live(old(retained), now))
      ensures var live := Retention.Live(old(retained), now);
        var room := Retention.MakeRoom(live, p.body.priority, |encoded|);
        if p.id in live then value == Some(live[p.id]) && retained == live
        else if Retention.Fits(room, |encoded|) then value == Some(Retained(p, encoded, relayOnly, sequence)) && retained == room[p.id := value.value]
        else value == None && retained == room
      ensures forall id :: id in retained && id != p.id ==> id in old(retained) && retained[id] == old(retained)[id]
      ensures Retention.Kept(old(retained), retained, p, encoded, relayOnly, now)
      ensures value.None? <==> p.id !in retained
      ensures value.Some? ==> retained[p.id] == value.value && Issued(value.value) && value.value.Id() == p.id && 0 < |value.value.encoded|
      ensures value.Some? ==> (p.id in old(retained) && value.value == old(retained)[p.id]) || value.value.relayOnly == relayOnly
      ensures var live := Retention.Live(old(retained), now);
        dropped == if p.id in live then old(dropped) else old(dropped) + |live| + 1 - |retained|
      ensures forall n :: n in old(issued) ==> n in issued && issued[n] == old(issued)[n]
    {
      hide Retention.Inv, Retention.Bytes, Retention.MakeRoom, Retention.Fits, H.Inv;
      ExpireRetained(now);
      SweepSeen(now);
      if p.id in retained {
        Retention.EntryOk(retained, p.id);
        return Some(retained[p.id]);
      }
      value := Admit(p, encoded, relayOnly);
    }

    // Links

    method OfferOne(l: Link, value: Retained, now: int) returns (ok: bool)
      requires LinkOk(l) && 0 < |value.encoded| && Issued(value) && Consents(value)
      modifies l`pending, l`pendingBytes, l`dropped
      ensures LinkOk(l) && Scheduler.WellKeyed(old(l.pending))
      ensures l.pending == LinkQueue.Offered(l.active, old(l.pending), l.turn, value, now)
    {
      hide Link.Valid, Link.ValidQueue, Link.ValidTable, Link.ValidControls, LinkQueue.Offered, Scheduler.WellKeyed, LinkOk;
      LinkParts(l);
      l.Parts();
      l.SnapshotsKeyed();
      ok := l.Enqueue(value, now);
      l.Parts();
      LinkQueue.OfferedFrom(l.active, old(l.pending), l.turn, value, now);
      LinkGains(l, old(l.pending), value);
    }

    lemma LinkGains(l: Link, before: map<Id, Scheduler.Transfer>, value: Retained)
      requires l.Valid() && forall id :: id in before ==> Issued(before[id].value) && Consents(before[id].value)
      requires Issued(value) && Consents(value)
      requires forall id :: id in l.pending ==> l.pending[id].value == value || (id in before && l.pending[id] == before[id])
      ensures LinkOk(l)
    {
      hide Link.Valid, Issued, Consents;
    }

    /** Offers a packet to some of the links. */
    method OfferAll(value: Retained, targets: set<Link>, now: int) returns (taken: nat)
      requires targets <= links && 0 < |value.encoded| && Issued(value) && Consents(value)
      requires forall l :: l in links ==> LinkOk(l)
      modifies targets`pending, targets`pendingBytes, targets`dropped
      ensures forall l :: l in links ==> LinkOk(l)
      ensures forall l :: l in targets ==> Scheduler.WellKeyed(old(l.pending)) && l.pending == LinkQueue.Offered(l.active, old(l.pending), l.turn, value, now)
    {
      hide LinkOk, Issued, Consents, LinkQueue.Offered, Scheduler.WellKeyed;
      taken := 0;
      var todo := targets;
      while todo != {}
        invariant todo <= targets
        invariant forall l :: l in links ==> LinkOk(l)
        invariant forall l :: l in todo ==> l.pending == old(l.pending)
        invariant forall l :: l in targets - todo ==>
                    Scheduler.WellKeyed(old(l.pending)) && l.pending == LinkQueue.Offered(l.active, old(l.pending), l.turn, value, now)
        decreases |todo|
      {
        var l :| l in todo;
        todo := todo - {l};
        var ok := OfferOne(l, value, now);
        if ok {
          taken := taken + 1;
        }
      }
    }

    ghost predicate LinksOk()
      reads `issued, `relay, `links, links
    {
      |links| <= MaxLinks && forall l :: l in links ==> LinkOk(l)
    }

    ghost predicate RetainedConsents()
      reads `retained, `relay
    {
      forall id :: id in retained ==> Consents(retained[id])
    }

    /** Keeps a packet and says what became of the tables; queued snapshots stay accounted for. */
    method Keep(p: Packet, encoded: seq<Byte>, relayOnly: bool, now: int) returns (value: Option<Retained>)
      requires ValidRetained() && ValidSeen() && LinksOk() && RetainedConsents() && 0 < |encoded| && (relayOnly ==> relay)
      modifies `retained, `retainedBytes, `sequence, `seen, `seenOrder, `dropped, `issued
      ensures ValidRetained() && ValidSeen() && LinksOk() && RetainedConsents()
      ensures seenOrder == H.Sweep(old(seenOrder), now)
      ensures Retention.Kept(old(retained), retained, p, encoded, relayOnly, now)
      ensures value.None? <==> p.id !in retained
      ensures value.Some? ==> retained[p.id] == value.value && Issued(value.value) && Consents(value.value) && 0 < |value.value.encoded|
      ensures value.Some? ==> (p.id in old(retained) && value.value == old(retained)[p.id]) || value.value.packet == p
      ensures forall id :: id in retained && id != p.id ==> id in old(retained) && retained[id] == old(retained)[id]
    {
      hide Retention.Kept, Retention.Inv, Retention.Bytes, Retention.MakeRoom, Retention.Fits, H.Inv, Link.Valid;
      label before:
      value := Retain(p, encoded, relayOnly, now);
      forall l | l in links ensures LinkOk(l) {
        assert old@before(LinkOk(l));
      }
    }

    /** Sends a packet of our own: remembered, kept for links to come, and offered to every link. */
    method Publish(p: Packet, encoded: seq<Byte>, relayOnly: bool, now: int) returns (sent: bool)
      requires Valid() && 0 < |encoded| && (relayOnly ==> relay) && !H.Knows(seenOrder, p.id)
      modifies `retained, `retainedBytes, `sequence, `seen, `seenOrder, `dropped, `issued, links`pending, links`pendingBytes, links`dropped
      ensures Valid() && sent == (p.id in retained) && Retention.Kept(old(retained), retained, p, encoded, relayOnly, now)
      ensures !sent ==> seenOrder == H.Sweep(old(seenOrder), now) && forall l :: l in links ==> l.pending == old(l.pending)
      ensures sent ==>
        && seenOrder == H.Remember(H.Sweep(old(seenOrder), now), p.id, p.body.expires)
        && forall l :: l in links ==> Scheduler.WellKeyed(old(l.pending)) && l.pending == LinkQueue.Offered(l.active, old(l.pending), l.turn, retained[p.id], now)
    {
      hide LinkOk, Issued, Consents, H.Knows, H.Sweep, H.Remember, Retention.Kept, ValidRetained, ValidSeen, ValidDeliveries, LinkQueue.Offered, Scheduler.WellKeyed, Link.Valid, H.Inv;
      H.SweepForgets(seenOrder, p.id, now);
      var value := Keep(p, encoded, relayOnly, now);
      if value.None? {
        return false;
      }
      Remember(p);
      var _ := OfferAll(value.value, links, now);
      return true;
    }

    method Broadcast(p: Packet, encoded: seq<Byte>, relayOnly: bool, now: int) returns (sent: Sending)
      requires Valid() && p.hops == [name] && p.body.source == name && 0 < |encoded|
      modifies `retained, `retainedBytes, `sequence, `seen, `seenOrder, `dropped, `issued, links`pending, links`pendingBytes, links`dropped
      ensures Valid()
      ensures
        if p.body.expires - now < 1 || p.body.expires - now > 3_600_000 || |encoded| > 6 * 1048576 then sent == Rejected
        else if stopped then sent == RouterStopped
        else if relayOnly && !relay then sent == Paused
        else if H.Live(old(seenOrder), p.id, now) then sent == Known
        else sent == (if p.id in retained then Sent else NoRoom)
      ensures sent != Sent ==> forall l :: l in links ==> l.pending == old(l.pending)
      ensures sent.Rejected? || sent.RouterStopped? || sent.Paused? ==> seenOrder == old(seenOrder) && retained == old(retained)
      ensures sent.Known? ==> seenOrder == H.Ask(old(seenOrder), p.id, now) && retained == old(retained)
      ensures sent.NoRoom? ==> seenOrder == H.Sweep(H.Ask(old(seenOrder), p.id, now), now)
      ensures sent.Sent? || sent.NoRoom? ==> Retention.Kept(old(retained), retained, p, encoded, relayOnly, now)
      ensures sent == Sent ==>
        && seenOrder == H.Remember(H.Sweep(H.Ask(old(seenOrder), p.id, now), now), p.id, p.body.expires)
        && forall l :: l in links ==> Scheduler.WellKeyed(old(l.pending)) && l.pending == LinkQueue.Offered(l.active, old(l.pending), l.turn, retained[p.id], now)
    {
      hide Retention.Kept, ValidRetained, ValidSeen, ValidDeliveries, LinksOk, RetainedConsents, LinkQueue.Offered, Scheduler.WellKeyed, Link.Valid, H.Ask, H.Sweep, H.Remember;
      if p.body.expires - now < 1 || p.body.expires - now > MaxTTL || |encoded| > MaxPacketBytes {
        return Rejected;
      }
      if stopped {
        return RouterStopped;
      }
      if relayOnly && !relay {
        return Paused;
      }
      var known := HasSeen(p.id, now);
      if known {
        return Known;
      }
      H.AskForgetsExpired(old(seenOrder), p.id, now);
      var ok := Publish(p, encoded, relayOnly, now);
      return if ok then Sent else NoRoom;
    }

    /** Whether a packet is passed on: relaying is on, its hops leave room for this router, and the longer copy fits. */
    predicate Forwards(p: Packet, encoded: seq<Byte>)
      reads `relay
    {
      relay && Flood.Forwarded(name, p).Some? && |encoded| <= MaxPacketBytes
    }

    /** What accepting a packet does to the table and to the other links: the copy with this router among its hops is kept
        where it can be, and offered to each of them. */
    twostate predicate PassedOn(p: Packet, encoded: seq<Byte>, source: Link, now: int)
      reads this, links
    {
      if Forwards(p, encoded) then
        && Retention.Kept(old(retained), retained, Flood.Forwarded(name, p).value, encoded, true, now)
        && forall l :: l in old(links) && l in links && l != source ==>
             if p.id in retained
             then Scheduler.WellKeyed(old(l.pending)) && l.pending == LinkQueue.Offered(l.active, old(l.pending), l.turn, retained[p.id], now)
             else l.pending == old(l.pending)
      else retained == old(retained) && forall l :: l in old(links) && l in links && l != source ==> l.pending == old(l.pending)
    }

    /** So an accepted packet spreads exactly while relaying is on, its hops leave room and the copy is within 6 MiB:
        the copy names this router last, and every other open link that has room for it queues it. */
    twostate lemma PassedOnMeans(p: Packet, encoded: seq<Byte>, source: Link, now: int)
      requires PassedOn(p, encoded, source, now)
      ensures !(relay && |p.hops| < p.body.maxHops && |encoded| <= 6 * 1048576) ==>
        retained == old(retained) && forall l :: l in old(links) && l in links && l != source ==> l.pending == old(l.pending)
      ensures relay && |p.hops| < p.body.maxHops && |encoded| <= 6 * 1048576 && p.id in retained ==>
        (p.id in old(retained) && retained[p.id] == old(retained)[p.id])
        || (retained[p.id].packet == Packet(p.id, p.body, p.hops + [name]) && retained[p.id].encoded == encoded && retained[p.id].relayOnly)
      ensures relay && |p.hops| < p.body.maxHops && |encoded| <= 6 * 1048576 && p.id in retained ==>
        forall l | l in old(links) && l in links && l != source && l.active && retained[p.id].Id() !in old(l.pending)
          && LinkQueue.RoomFor(old(l.pending), retained[p.id]) && now < retained[p.id].packet.body.expires ::
          l.pending == old(l.pending)[retained[p.id].Id() := Scheduler.Transfer(retained[p.id], 0, 0, 0, l.turn, false)]
    {
      hide Scheduler.WellKeyed, LinkQueue.Offered, LinkQueue.Fits, LinkQueue.RoomFor, Retention.Inv, Retention.MakeRoom, Retention.Fits;
      if Forwards(p, encoded) && p.id in retained {
        var value := retained[p.id];
        KeptAsIs(old(retained), retained, Flood.Forwarded(name, p).value, encoded, now);
        forall l | l in old(links) && l in links && l != source && l.active && value.Id() !in old(l.pending)
          && LinkQueue.RoomFor(old(l.pending), value) && now < value.packet.body.expires
          ensures l.pending == old(l.pending)[value.Id() := Scheduler.Transfer(value, 0, 0, 0, l.turn, false)]
        {
          LinkQueue.RoomIsFit(old(l.pending), value);
          LinkQueue.OfferedWhenFits(l.active, old(l.pending), l.turn, value, now);
        }
      }
    }

    /** Hands a packet to the application, unless its queue is full. */
    method Deliver(p: Packet) returns (ok: bool)
      requires ValidDeliveries()
      modifies `deliveries, `deliveryBytes, `dropped
      ensures ValidDeliveries()
      ensures ok == (|old(deliveries)| < 64 && PayloadBytes(old(deliveries)) + |p.body.payload| <= 16 * 1048576)
      ensures deliveries == if ok then old(deliveries) + [Delivery(p.body.payload, p.hops, p.body.source, p.id)] else old(deliveries)
      ensures dropped == old(dropped) + if ok then 0 else 1
    {
      if |deliveries| >= MaxDeliveries || deliveryBytes + |p.body.payload| > MaxPendingBytes {
        dropped := dropped + 1;
        return false;
      }
      var d := Delivery(p.body.payload, p.hops, p.body.source, p.id);
      assert (deliveries + [d])[..|deliveries|] == deliveries;
      deliveries := deliveries + [d];
      deliveryBytes := deliveryBytes + |p.body.payload|;
      return true;
    }

    /** Passes a packet on to every link but the one it came from. */
    method Relay(p: Packet, encoded: seq<Byte>, source: Link, now: int)
      requires Valid() && relay && 0 < |encoded|
      modifies `retained, `retainedBytes, `sequence, `seen, `seenOrder, `dropped, `issued, links`pending, links`pendingBytes, links`dropped
      ensures Valid() && seenOrder == H.Sweep(old(seenOrder), now)
      ensures source.pending == old(source.pending)
      ensures Retention.Kept(old(retained), retained, p, encoded, true, now)
      ensures p.id in retained ==>
        forall l :: l in links && l != source ==> Scheduler.WellKeyed(old(l.pending)) && l.pending == LinkQueue.Offered(l.active, old(l.pending), l.turn, retained[p.id], now)
      ensures p.id !in retained ==> forall l :: l in links ==> l.pending == old(l.pending)
    {
      hide LinkOk, Issued, Consents, Retention.Kept, ValidRetained, ValidSeen, ValidDeliveries, LinkQueue.Offered, Scheduler.WellKeyed, Link.Valid, H.Sweep;
      var value := Keep(p, encoded, true, now);
      if value.Some? {
        var _ := OfferAll(value.value, links - {source}, now);
      }
    }

    /** A complete packet arrives over a link. */
    method Receive(p: Packet, source: Link, encoded: seq<Byte>, now: int) returns (verdict: Verdict)
      requires Valid() && Flood.LegalHops(p) && 0 < |encoded|
      modifies `retained, `retainedBytes, `sequence, `seen, `seenOrder, `dropped, `issued, `deliveries, `deliveryBytes, links`pending, links`pendingBytes, links`dropped
      ensures Valid() && source.pending == old(source.pending)
      ensures verdict ==
        if stopped || !source.active then Stopped
        else if p.body.expires <= now then PastDeadline
        else if H.Live(old(seenOrder), p.id, now) then AlreadySeen
        else if name in p.hops then NamedInHops
        else if |old(deliveries)| < 64 && PayloadBytes(old(deliveries)) + |p.body.payload| <= 16 * 1048576 then Accepted
        else QueueFull
      ensures verdict.Accepted? ==>
        && deliveries == old(deliveries) + [Delivery(p.body.payload, p.hops, p.body.source, p.id)]
        && H.Enabled(old(seenOrder), now, H.Delivered(p.id, p.body.expires, now))
        && var h := H.Effect(old(seenOrder), H.Delivered(p.id, p.body.expires, now));
           seenOrder == if Forwards(p, encoded) then H.Effect(h, H.Swept(now)) else h
      ensures verdict.Accepted? ==> PassedOn(p, encoded, source, now)
      ensures !verdict.Accepted? ==> deliveries == old(deliveries) && retained == old(retained) && (seenOrder == old(seenOrder) || seenOrder == H.Ask(old(seenOrder), p.id, now))
      ensures verdict.Accepted? && Forwards(p, encoded) && p.id !in retained ==> forall l :: l in links ==> l.pending == old(l.pending)
      ensures !verdict.Accepted? ==> retained == old(retained) && forall l :: l in links ==> l.pending == old(l.pending)
    {
      hide Flood.LegalHops, Retention.Kept, ValidRetained, ValidSeen, ValidDeliveries, LinksOk, RetainedConsents, LinkQueue.Offered;
      hide Scheduler.WellKeyed, Link.Valid, H.Ask, H.Sweep, H.Remember, H.Knows, H.Live, PayloadBytes;
      if stopped || !source.active {
        return Stopped;
      }
      if p.body.expires <= now {
        return PastDeadline;
      }
      var known := HasSeen(p.id, now);
      if known {
        return AlreadySeen;
      }
      if name in p.hops {
        return NamedInHops;
      }
      var delivered := Deliver(p);
      if !delivered {
        return QueueFull;
      }
      H.AskForgetsExpired(old(seenOrder), p.id, now);
      Remember(p);
      if Forwards(p, encoded) {
        Relay(Flood.Forwarded(name, p).value, encoded, source, now);
      }
      return Accepted;
    }

    lemma LinkParts(l: Link)
      requires LinkOk(l)
      ensures l.Valid() && forall id :: id in l.pending ==> Issued(l.pending[id].value) && Consents(l.pending[id].value)
    {
      hide Link.Valid, Issued, Consents;
    }

    /** A link of the router took a frame in or put one on the wire: the packets queued on it are those that were, or fewer. */
    lemma LinkStays(l: Link, before: map<Id, Scheduler.Transfer>)
      requires l.Valid() && forall id :: id in before ==> Issued(before[id].value) && Consents(before[id].value)
      requires forall id :: id in l.pending ==> id in before && l.pending[id].value == before[id].value
      ensures LinkOk(l)
    {
      hide Link.Valid, Issued, Consents;
    }

    /** An acknowledgement arrives: the packet leaves the queue of that link. */
    method Acknowledged(l: Link, id: Id)
      requires Valid() && l in links
      modifies l`pending, l`pendingBytes
      ensures Valid() && l.pending == old(l.pending) - {id}
    {
      hide ValidRetained, ValidSeen, ValidDeliveries, Link.Valid, Link.ValidQueue, Link.ValidTable, Link.ValidControls, Issued, Consents, LinkOk;
      LinkParts(l);
      l.TakeAck(id);
      LinkStays(l, old(l.pending));
      forall k | k in links ensures LinkOk(k) { assert old(LinkOk(k)); }
    }

    /** The first half of a turn of a link's writer. */
    method Writes(l: Link, env: Scheduler.Env) returns (frame: Option<Links.Frame>)
      requires Valid() && l in links && l.active && l.flight.None?
      modifies l`pending, l`pendingBytes, l`assemblies, l`assemblyBytes, l`acknowledged, l`ackWindow, l`acksWindow, l`turn, l`flight
      ensures Valid()
      ensures forall id :: id in l.pending ==> id in old(l.pending) && l.pending[id].value == old(l.pending)[id].value
    {
      hide ValidRetained, ValidSeen, ValidDeliveries, Link.Valid, Issued, Consents, LinkOk, Scheduler.Choice, Scheduler.Ready, Scheduler.Begun;
      LinkParts(l);
      frame := l.NextFrame(env);
      LinkStays(l, old(l.pending));
      forall k | k in links ensures LinkOk(k) { assert old(LinkOk(k)); }
    }

    /** The second half: the frame was written. */
    method Wrote(l: Link, frame: Links.Frame, now: int)
      requires Valid() && l in links && (frame.Data? <==> l.flight.Some?)
      modifies l`pending, l`turn, l`priorityTurns, l`flight, l`controls, l`controlSet, l`controlTurn
      ensures Valid() && l.pending.Keys == old(l.pending).Keys && l.flight.None?
      ensures forall id :: id in l.pending ==> l.pending[id].value == old(l.pending)[id].value
    {
      hide ValidRetained, ValidSeen, ValidDeliveries, Link.Valid, Issued, Consents, LinkOk, Scheduler.Finished;
      LinkParts(l);
      l.FinishFrame(frame, now);
      LinkStays(l, old(l.pending));
      forall k | k in links ensures LinkOk(k) { assert old(LinkOk(k)); }
    }

    /** A packet put together on a link: delivered and passed on where it is accepted, and acknowledged unless it is refused. */
    method TakeIn(l: Link, p: Packet, copy: seq<Byte>, now: int) returns (v: Verdict)
      requires Valid() && l in links && Flood.LegalHops(p) && 0 < |copy|
      modifies `retained, `retainedBytes, `sequence, `seen, `seenOrder, `dropped, `issued, `deliveries, `deliveryBytes
      modifies links`pending, links`pendingBytes, links`dropped, l`controls, l`controlSet
      ensures Valid() && l.pending == old(l.pending)
      ensures v.Accepted? ==> Delivers(old(deliveries), deliveries, p) && H.Knows(seenOrder, p.id) && PassedOn(p, copy, l, now)
      ensures !v.Accepted? ==>
        deliveries == old(deliveries) && retained == old(retained) && forall k :: k in links ==> k.pending == old(k.pending)
      ensures l.controls == if v in {AlreadySeen, NamedInHops, Accepted} then Answered(old(l.controls), l.acknowledged, p.id, now) else old(l.controls)
    {
      hide ValidRetained, ValidSeen, ValidDeliveries, LinkOk, PayloadBytes, H.Effect, H.Ask, H.Live, H.Enabled, Retention.Kept;
      hide LinkQueue.Offered, Scheduler.WellKeyed, Answered, Forwards;
      ghost var seenThen := seenOrder;
      v := Receive(p, l, copy, now);
      if v.Accepted? { H.DeliveredIsKnown(seenThen, p.id, p.body.expires, now); }
      if v in {AlreadySeen, NamedInHops, Accepted} { Answer(l, p.id, now); }
    }

    /** A fragment arrives over a link, and with the last one a packet. `decode` and `encode` are the packet codec. */
    method Arrive(
        l: Link, part: R.Part, now: int, later: int, decode: seq<Byte> -> Option<Packet>, encode: Packet -> seq<Byte>)
      returns (verdict: Option<Verdict>)
      requires Valid() && l in links && (forall p :: 0 < |encode(p)|)
      requires forall e :: decode(e).Some? ==> Flood.LegalHops(decode(e).value)
      modifies `retained, `retainedBytes, `sequence, `seen, `seenOrder, `dropped, `issued, `deliveries, `deliveryBytes
      modifies links`pending, links`pendingBytes, links`dropped
      modifies l`assemblies, l`assemblyBytes, l`acknowledged, l`ackWindow, l`acksWindow, l`controls, l`controlSet
      ensures Valid()
      ensures !R.WellFormed(part) || !l.active ==> verdict.None? && l.assemblies == old(l.assemblies) && seenOrder == old(seenOrder)
      ensures R.WellFormed(part) && l.active && H.Live(old(seenOrder), part.id, now) ==> verdict == Some(AlreadySeen)
      ensures R.WellFormed(part) && l.active && !H.Live(old(seenOrder), part.id, now) ==>
        var (table, outcome) := R.Receive(old(l.assemblies) - R.Stale(old(l.assemblies), now), part, now);
        l.assemblies == table && (verdict.Some? <==> outcome.Complete? && Names(decode, outcome.encoded, part.id))
      ensures verdict != Some(Accepted) ==> deliveries == old(deliveries)
      ensures verdict == Some(Accepted) ==> H.Knows(seenOrder, part.id)
      ensures l.pending == if R.WellFormed(part) && l.active then old(l.pending) - Links.Expired(old(l.pending), now) else old(l.pending)
      ensures verdict == Some(Accepted) ==> Names(decode, Whole(old(l.assemblies), part, now), part.id)
      ensures verdict == Some(Accepted) ==> deliveries != [] && deliveries[|deliveries| - 1].id == part.id
      ensures verdict == Some(Accepted) ==>
        var p := decode(Whole(old(l.assemblies), part, now)).value;
        Delivers(old(deliveries), deliveries, p) && PassedOn(p, CopyOf(name, p, encode), l, later)
      ensures verdict != Some(Accepted) ==> retained == old(retained) && forall k :: k in links && k != l ==> k.pending == old(k.pending)
      ensures if verdict.Some? && verdict.value in {AlreadySeen, NamedInHops, Accepted} then l.controls == old(l.controls) || l.controls == old(l.controls) + [part.id]
              else l.controls == old(l.controls)
    {
      hide ValidRetained, ValidSeen, ValidDeliveries, Link.Valid, Link.ValidQueue, Link.ValidTable, Link.ValidControls, Issued, Consents, LinkOk;
      hide R.WellFormed, R.Receive, R.Stale, H.Live, H.Ask, H.Effect, Links.Expired, Retention.Kept, LinkQueue.Offered, Scheduler.WellKeyed;
      hide Flood.LegalHops, PayloadBytes, Scheduler.Inv, H.Enabled, Forwards;
      if !R.WellFormed(part) || !l.active { return None; }
      LinkParts(l);
      var known := HasSeen(part.id, now);
      var arrival := l.ReceivePart(part, now, known);
      LinkStays(l, old(l.pending));
      forall k | k in links ensures LinkOk(k) { assert old(LinkOk(k)); }
      if known { return Some(AlreadySeen); }
      if !arrival.outcome.Complete? { return None; }
      var p := decode(arrival.outcome.encoded);
      if p.None? || p.value.id != part.id { return None; }
      var v := TakeIn(l, p.value, CopyOf(name, p.value, encode), later);
      return Some(v);
    }

    method Answer(l: Link, id: Id, now: int)
      requires Valid() && l in links
      modifies l`controls, l`controlSet, l`dropped
      ensures Valid() && l.controls == Answered(old(l.controls), l.acknowledged, id, now)
    {
      hide ValidRetained, ValidSeen, ValidDeliveries, Link.Valid, Link.ValidQueue, Link.ValidTable, Link.ValidControls, Issued, Consents, LinkOk;
      LinkParts(l);
      l.Answer(id, now);
      LinkStays(l, old(l.pending));
      forall k | k in links ensures LinkOk(k) { assert old(LinkOk(k)); }
    }

    /** The oldest delivery, for the application. */
    method Next() returns (delivery: Option<Delivery>)
      requires ValidDeliveries()
      modifies `deliveries, `deliveryBytes
      ensures ValidDeliveries()
      ensures if old(deliveries) == [] then delivery == None && deliveries == []
              else delivery == Some(old(deliveries)[0]) && deliveries == old(deliveries)[1..]
    {
      if deliveries == [] {
        return None;
      }
      PayloadBytesPop(deliveries);
      delivery := Some(deliveries[0]);
      deliveryBytes := deliveryBytes - |deliveries[0].payload|;
      deliveries := deliveries[1..];
    }

    /** Withdraws from one link's queue every packet that matches. */
    method Withdraw(l: Link, matching: Retained -> bool)
      requires l.ValidQueue()
      modifies l`pending, l`pendingBytes
      ensures l.ValidQueue()
      ensures l.pending == Unmatched(old(l.pending), matching)
    {
      hide Link.ValidQueue;
      var todo := l.pending.Keys;
      while todo != {}
        invariant l.ValidQueue() && todo <= l.pending.Keys
        invariant forall id :: id in l.pending ==> id in old(l.pending) && l.pending[id] == old(l.pending)[id]
        invariant forall id :: id in old(l.pending) ==> (id in l.pending <==> id in todo || !matching(old(l.pending)[id].value))
        decreases |todo|
      {
        var id :| id in todo;
        todo := todo - {id};
        if matching(l.pending[id].value) {
          l.RemoveTransfer(id);
        }
      }
    }

    /** Withdraws from every link's queue every packet that matches. */
    method WithdrawAll(matching: Retained -> bool)
      requires forall l :: l in links ==> LinkOk(l)
      modifies links`pending, links`pendingBytes
      ensures forall l :: l in links ==> LinkOk(l) && l.pending == Unmatched(old(l.pending), matching)
    {
      hide Link.Valid, LinkOk, Issued, Consents, Unmatched;
      var todo := links;
      while todo != {}
        invariant todo <= links
        invariant forall l :: l in links ==> LinkOk(l)
        invariant forall l :: l in todo ==> l.pending == old(l.pending)
        invariant forall l :: l in links - todo ==> l.pending == Unmatched(old(l.pending), matching)
        decreases |todo|
      {
        var l :| l in todo;
        todo := todo - {l};
        WithdrawFrom(l, matching);
      }
    }

    method WithdrawFrom(l: Link, matching: Retained -> bool)
      requires LinkOk(l)
      modifies l`pending, l`pendingBytes
      ensures LinkOk(l) && l.pending == Unmatched(old(l.pending), matching)
    {
      hide Link.Valid, Link.ValidQueue, Link.ValidTable, Link.ValidControls, LinkOk, Issued, Consents;
      LinkParts(l);
      l.Parts();
      Withdraw(l, matching);
      l.Parts();
      LinkStays(l, old(l.pending));
    }

    method DropRetained(matching: Retained -> bool)
      requires ValidRetained()
      modifies `retained, `retainedBytes
      ensures ValidRetained()
      ensures retained == Unkept(old(retained), matching)
    {
      hide Retention.Inv, Retention.Bytes;
      var todo := retained.Keys;
      while todo != {}
        invariant ValidRetained() && todo <= retained.Keys
        invariant forall id :: id in retained ==> id in old(retained) && retained[id] == old(retained)[id]
        invariant forall id :: id in old(retained) ==> (id in retained <==> id in todo || !matching(old(retained)[id]))
        decreases |todo|
      {
        var id :| id in todo;
        todo := todo - {id};
        if matching(retained[id]) {
          RemoveRetained(id);
        }
      }
    }

    /** A link is as it should be after relaying is switched, if nothing on it depends on that. */
    twostate lemma RelayChanged(l: Link)
      requires l in old(links) && old(LinkOk(l)) && issued == old(issued) && l.pending == old(l.pending)
      requires old(l.Valid()) ==> l.Valid()
      requires relay || forall id :: id in l.pending ==> !l.pending[id].value.relayOnly
      ensures LinkOk(l)
    {
      hide Link.Valid;
    }

    /** Turning relaying off withdraws what is only relayed from the table and from every queue. */
    method SetRelay(enabled: bool)
      requires Valid()
      modifies `relay, `retained, `retainedBytes, links`pending, links`pendingBytes
      ensures Valid() && relay == enabled
      ensures enabled ==> retained == old(retained) && forall l :: l in links ==> l.pending == old(l.pending)
      ensures !enabled ==> retained == Unkept(old(retained), RelayedOnly)
      ensures !enabled ==> forall l :: l in links ==> l.pending == Unmatched(old(l.pending), RelayedOnly)
    {
      hide ValidSeen, ValidDeliveries, LinkOk, Retention.Inv, Retention.Bytes;
      if !enabled {
        DropRetained(RelayedOnly);
        assert forall l :: l in links ==> old(LinkOk(l)) && LinkOk(l);
        WithdrawAll(RelayedOnly);
      }
      assert forall l :: l in links ==> LinkOk(l);
      label before:
      relay := enabled;
      forall l | l in links ensures LinkOk(l) {
        RelayChanged@before(l);
      }
    }

    /** Withdraws packets of our own that match: from the table and from every queue. */
    method CancelLocal(matching: seq<Byte> -> bool)
      requires Valid()
      modifies `retained, `retainedBytes, links`pending, links`pendingBytes
      ensures Valid()
      ensures retained == Unkept(old(retained), OwnMatching(name, matching))
      ensures forall l :: l in links ==> l.pending == Unmatched(old(l.pending), OwnMatching(name, matching))
    {
      hide ValidSeen, ValidDeliveries, LinkOk, Retention.Inv, Retention.Bytes, Unmatched;
      var ours := OwnMatching(name, matching);
      DropRetained(ours);
      assert forall l :: l in links ==> old(LinkOk(l)) && LinkOk(l);
      WithdrawAll(ours);
    }

    method ReplayOne(l: Link, id: Id, now: int)
      requires ValidRetained() && l.Valid() && l.active && id in retained && id !in l.pending
      requires forall k :: k in l.pending ==> k in retained && l.pending[k].value == retained[k]
      modifies l`pending, l`pendingBytes, l`dropped
      ensures l.Valid()
      ensures forall k :: k in l.pending ==> (k == id || k in old(l.pending)) && l.pending[k].value == retained[k]
      ensures Small(retained) ==> old(l.pending).Keys <= l.pending.Keys && (retained[id].Expires() > now ==> id in l.pending)
      ensures Scheduler.WellKeyed(old(l.pending)) && l.pending == LinkQueue.Offered(true, old(l.pending), l.turn, retained[id], now)
    {
      hide Link.Valid, Link.ValidQueue, Link.ValidTable, Link.ValidControls, Retention.Inv, Retention.Bytes, Retention.Sizes;
      hide LinkQueue.Offered, Scheduler.WellKeyed, Small;
      l.Parts();
      RetainedEntry(id);
      ghost var before := l.pending;
      var _ := l.Enqueue(retained[id], now);
      l.SnapshotsKeyed();
      ReplayedOne(retained, before, l.pending, l.turn, id, now);
      l.Parts();
    }

    lemma RetainedEntry(id: Id)
      requires ValidRetained() && id in retained
      ensures retained[id].Id() == id && 0 < |retained[id].encoded|
      ensures forall k :: k in retained && k != id ==> retained[k].sequence != retained[id].sequence
    {
      hide Retention.Bytes;
    }

    /** Offers a new link everything kept that may be relayed. */
    method Replay(l: Link, now: int)
      requires ValidRetained() && l.Valid() && l.pending == map[] && l.active
      modifies l`pending, l`pendingBytes, l`dropped
      ensures l.Valid()
      ensures forall id :: id in l.pending ==> id in retained && l.pending[id].value == retained[id]
      ensures Small(retained) ==> forall id :: id in retained && (!retained[id].relayOnly || relay) && retained[id].Expires() > now ==> id in l.pending
      ensures ReplayedFrom(retained, relay, l.pending, l.turn, now)
    {
      hide Link.Valid, ValidRetained, Small, LinkQueue.Offered, Scheduler.WellKeyed, Offering;
      var todo := retained.Keys;
      ghost var order: seq<Id> := [];
      NoneOffered(retained, relay, l.turn, now);
      while todo != {}
        invariant todo <= retained.Keys && l.Valid()
        invariant forall id :: id in l.pending ==> id in retained - todo && l.pending[id].value == retained[id]
        invariant Small(retained) ==> forall id :: id in retained - todo && (!retained[id].relayOnly || relay) && retained[id].Expires() > now ==> id in l.pending
        invariant Offering(retained, relay, todo, order, l.pending, l.turn, now)
        decreases |todo|
      {
        var id :| id in todo;
        if !retained[id].relayOnly || relay {
          ghost var before := l.pending;
          ReplayOne(l, id, now);
          OneMoreOffered(retained, relay, todo, order, before, id, l.turn, now);
          order := order + [id];
        } else {
          NotOffered(retained, relay, todo, order, l.pending, id, l.turn, now);
        }
        todo := todo - {id};
      }
      AllOffered(retained, relay, order, l.pending, l.turn, now);
    }

    /** A link attaches and is offered everything kept that may be relayed. */
    method Attach(now: int) returns (link: Option<Link>)
      requires Valid()
      modifies `links
      ensures Valid()
      ensures if stopped || |old(links)| >= 24 then link == None && links == old(links)
              else link.Some? && fresh(link.value) && links == old(links) + {link.value} && link.value.active
      ensures link.Some? ==> forall id :: id in link.value.pending ==> id in retained && link.value.pending[id].value == retained[id]
      ensures link.Some? ==> ReplayedFrom(retained, relay, link.value.pending, link.value.turn, now)
      ensures link.Some? && Small(retained) ==>
        forall id :: id in retained && (!retained[id].relayOnly || relay) && retained[id].Expires() > now ==> id in link.value.pending
    {
      hide ValidSeen, ValidDeliveries, Link.Valid, Retention.Inv, Retention.Bytes, Small, ReplayedFrom;
      if stopped || |links| >= MaxLinks {
        return None;
      }
      var l := new Link(now);
      Replay(l, now);
      CardinalityInsert(links, l);
      forall k | k in links ensures LinkOk(k) {
        assert old(LinkOk(k));
      }
      links := links + {l};
      return Some(l);
    }

    /** A link closes: it forgets its queue and leaves the router. */
    method Detach(l: Link)
      requires Valid() && l in links
      modifies `links, l
      ensures Valid() && links == old(links) - {l} && !l.active && l.pending == map[]
    {
      hide ValidRetained, ValidSeen, ValidDeliveries, Link.ValidQueue, Link.ValidTable, Link.ValidControls;
      assert forall k :: k in links ==> LinkOk(k);
      l.Close();
      links := links - {l};
      assert forall k :: k in links ==> LinkOk(k);
    }
  }
}

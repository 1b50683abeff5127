/** A sending link and the receiving end of it, with the frames in between kept in order. */
module LinkPair {
  import opened Common
  import opened Packets
  import S = Scheduler
  import SP = SchedulerProofs
  import R = Reassembly
  import RP = ReassemblyProofs

  /** A data frame on the wire. `busy` remembers which packets the sender was in the middle of when it wrote it, and
      their sizes. */
  datatype Frame = Frame(part: R.Part, busy: map<Id, nat>)

  /** `known` are the packets ever queued, `seen` those the receiver has accepted, `acks` those it has acknowledged. */
  datatype State =
    State(sender: S.State, wire: seq<Frame>, table: R.Table, known: map<Id, seq<Byte>>, seen: set<Id>, acks: set<Id>)

  datatype Event =
    | Send(env: S.Env, id: Id)
    | Written(now: int)
    | Queue(value: Retained)
    | Shed(id: Id)
    | Acknowledged(id: Id)
    | Deliver(now: int, accepted: bool)

  // The sender's side

  function Sizes(pending: map<Id, S.Transfer>): map<Id, nat> {
    map id | id in pending :: |pending[id].value.encoded|
  }

  ghost function PendingBytes(s: S.State): nat {
    Total(Sizes(s.pending))
  }

  function OccupiedAll(s: S.State): set<Id> {
    set id | id in s.pending && s.pending[id].Occupied()
  }

  /** The fragment that will be on the wire next for a queued packet, once any frame being written is counted. */
  function Cursor(t: S.Transfer): nat {
    var next := if t.inFlight then t.next + 1 else t.next;
    if next >= t.Count() then 0 else next
  }

  /** A packet that left the queue had no fragment left to send in this round, so the next one would be its first. */
  function CursorOf(s: S.State, id: Id): nat {
    if id in s.pending then Cursor(s.pending[id]) else 0
  }

  function Following(index: nat, count: nat): nat {
    if index + 1 >= count then 0 else index + 1
  }

  /** The next fragment of a packet to arrive: on the wire, or else still to be sent. */
  function Coming(s: S.State, wire: seq<Frame>, id: Id): nat {
    if wire == [] then CursorOf(s, id)
    else if wire[0].part.id == id then wire[0].part.index
    else Coming(s, wire[1..], id)
  }

  // The pair

  /** What admission may push out to make room: nothing of it, or all of it, has been sent. */
  predicate Sheddable(t: S.Transfer) {
    !t.inFlight && (t.next == 0 || t.next == t.Count())
  }

  ghost predicate Enabled(p: State, e: Event) {
    && S.Inv(p.sender)
    && match e
       case Send(env, id) => S.Enabled(p.sender, S.Begin(env, id))
       case Written(now) => S.Enabled(p.sender, S.Finish(now))
       case Queue(value) =>
         && S.Enabled(p.sender, S.Insert(value)) && RP.IsPacket(value.encoded)
         && PendingBytes(p.sender) + |value.encoded| <= MaxPendingBytes
         && (value.Id() in p.known ==> p.known[value.Id()] == value.encoded)
       case Shed(id) => id in p.sender.pending && Sheddable(p.sender.pending[id])
       case Acknowledged(id) => id in p.acks
       case Deliver(_, _) => p.wire != []
  }

  ghost function FrameFor(s: S.State, id: Id): Frame
    requires id in s.pending && s.pending[id].next < s.pending[id].Count()
  {
    Frame(R.PartOf(id, s.pending[id].value.encoded, s.pending[id].next), Busy(s, id))
  }

  function Busy(s: S.State, id: Id): map<Id, nat>
    requires id in s.pending
  {
    map x | x in OccupiedAll(s) + {id} :: |s.pending[x].value.encoded|
  }

  lemma SendHasFragment(s: S.State, env: S.Env, id: Id)
    requires S.Inv(s) && S.Enabled(s, S.Begin(env, id))
    ensures var t := S.Apply(s, S.Begin(env, id));
      id in t.pending && t.pending[id].next < t.pending[id].Count() && t.pending[id] == S.Begun(s.pending[id]) && id in s.pending
  {
    hide S.Choice, S.Caps, S.TurnsOk, S.InRange, S.FlightOk, S.Begun;
    SP.TurnsInRange(s);
    SP.ChoiceIsQueued(s, env, id);
    assert S.WellKeyed(s.pending) && 0 < |s.pending[id].value.encoded|;
    SP.BegunInRange(s.pending[id]);
  }

  ghost function Delivered(p: State, now: int, accepted: bool): (State, R.Outcome)
    requires p.wire != []
  {
    var part, rest := p.wire[0].part, p.wire[1..];
    if part.id in p.seen then (p.(wire := rest, acks := p.acks + {part.id}), R.Incomplete)
    else
      var (table, outcome) := R.Receive(p.table, part, now);
      if outcome.Complete? && accepted then
        (p.(wire := rest, table := table, seen := p.seen + {part.id}, acks := p.acks + {part.id}), outcome)
      else (p.(wire := rest, table := table), outcome)
  }

  ghost function Apply(p: State, e: Event): State
    requires Enabled(p, e)
  {
    match e
    case Send(env, id) =>
      SendHasFragment(p.sender, env, id);
      var t := S.Apply(p.sender, S.Begin(env, id));
      p.(sender := t, wire := p.wire + [FrameFor(t, id)])
    case Written(now) => p.(sender := S.Apply(p.sender, S.Finish(now)))
    case Queue(value) => p.(sender := S.Apply(p.sender, S.Insert(value)), known := p.known[value.Id() := value.encoded])
    case Shed(id) => p.(sender := S.Apply(p.sender, S.Drop({id})))
    case Acknowledged(id) => p.(sender := S.Apply(p.sender, S.Drop({id})))
    case Deliver(now, accepted) => Delivered(p, now, accepted).0
  }

  // Invariant

  /** Queued packets are known, and fit their limits. */
  ghost predicate SenderOk(s: S.State, known: map<Id, seq<Byte>>) {
    && S.Inv(s) && PendingBytes(s) <= MaxPendingBytes
    && (forall id :: id in s.pending ==> id in known && s.pending[id].value.encoded == known[id])
    && (forall id :: id in known ==> RP.IsPacket(known[id]))
  }

  /** The packets in the middle of being sent when the frame was written were few and small enough. */
  ghost predicate BusyFits(busy: map<Id, nat>) {
    |busy| <= MaxAssemblies && Total(busy) <= MaxPendingBytes
  }

  /** The frame is a fragment of a known packet, and what follows for that packet is the fragment after it. */
  ghost predicate FrameOk(s: S.State, known: map<Id, seq<Byte>>, f: Frame, rest: seq<Frame>) {
    var id := f.part.id;
    && id in known
    && f.part.index < FragmentCount(known[id])
    && f.part == R.PartOf(id, known[id], f.part.index)
    && Coming(s, rest, id) == Following(f.part.index, f.part.count)
    && id in f.busy && f.busy[id] == |known[id]| && BusyFits(f.busy)
  }

  /** Every packet half way through at this frame was known to be so when the frame was sent. */
  ghost predicate BusyOk(p: State, k: nat)
    requires k < |p.wire|
  {
    forall id :: id in p.known && id !in p.seen && Coming(p.sender, p.wire[k..], id) > 0 ==>
      id in p.wire[k].busy && p.wire[k].busy[id] == |p.known[id]|
  }

  ghost predicate WireOk(p: State) {
    forall k :: 0 <= k < |p.wire| && p.wire[k].part.id !in p.seen ==>
      FrameOk(p.sender, p.known, p.wire[k], p.wire[k + 1..]) && BusyOk(p, k)
  }

  /** Of every packet the receiver has exactly the fragments before the one coming next. */
  ghost predicate TableOk(p: State) {
    && R.Inv(p.table)
    && (forall id :: id in p.table ==> id !in p.seen && id in p.known)
    && (forall id :: id in p.known && id !in p.seen ==>
          RP.Holds(p.table, id, p.known[id], Below(Coming(p.sender, p.wire, id))))
  }

  ghost predicate Inv(p: State) {
    SenderOk(p.sender, p.known) && p.acks <= p.seen && WireOk(p) && TableOk(p)
  }

  lemma SenderParts(s: S.State, known: map<Id, seq<Byte>>)
    requires SenderOk(s, known)
    ensures S.Inv(s) && PendingBytes(s) <= MaxPendingBytes
    ensures forall id :: id in s.pending ==>
      && id in known && s.pending[id].value.encoded == known[id]
      && RP.IsPacket(s.pending[id].value.encoded) && s.pending[id].next <= s.pending[id].Count() && s.pending[id].Count() >= 1
  {
    hide S.Caps, S.TurnsOk, S.FlightOk;
  }

  // Where a packet is on the wire

  lemma {:induction false} ComingAppended(s: S.State, t: S.State, wire: seq<Frame>, f: Frame, id: Id)
    requires CursorOf(s, id) == if f.part.id == id then f.part.index else CursorOf(t, id)
    ensures Coming(t, wire + [f], id) == Coming(s, wire, id)
    decreases |wire|
  {
    hide CursorOf;
    if wire == [] {
      assert (wire + [f])[1..] == [];
    } else {
      assert (wire + [f])[1..] == wire[1..] + [f];
      ComingAppended(s, t, wire[1..], f, id);
    }
  }

  lemma {:induction false} ComingSame(s: S.State, t: S.State, wire: seq<Frame>, id: Id)
    requires CursorOf(s, id) == CursorOf(t, id)
    ensures Coming(t, wire, id) == Coming(s, wire, id)
    decreases |wire|
  {
    hide CursorOf;
    if wire != [] { ComingSame(s, t, wire[1..], id); }
  }

  lemma {:induction false} ComingBound(s: S.State, wire: seq<Frame>, id: Id, n: nat)
    requires CursorOf(s, id) < n
    requires forall k :: 0 <= k < |wire| && wire[k].part.id == id ==> wire[k].part.index < n
    ensures Coming(s, wire, id) < n
    decreases |wire|
  {
    hide CursorOf;
    if wire != [] && wire[0].part.id != id {
      assert forall k :: 0 <= k < |wire[1..]| ==> wire[1..][k] == wire[k + 1];
      ComingBound(s, wire[1..], id, n);
    }
  }

  // The two ends

  /** The packets in the middle of being sent, with the one just begun, are never more than the receiver can hold. */
  lemma FewBusy(s: S.State, env: S.Env, id: Id)
    requires S.Inv(s) && S.Enabled(s, S.Begin(env, id))
    ensures var t := S.Apply(s, S.Begin(env, id)); |OccupiedAll(t) + {id}| <= MaxAssemblies
  {
    hide S.InRange, S.WellKeyed, S.TurnsOk, S.Before, S.PartialIds, S.OccupiedIds, S.Ready, S.Caps, S.Begun;
    SP.InvParts(s);
    SP.ChoiceIsQueued(s, env, id);
    var t := S.Apply(s, S.Begin(env, id));
    SP.BeginKeepsCaps(s, env, id);
    SP.IdleOccupiedIsPartial(s, SOS);
    SP.IdleOccupiedIsPartial(s, Normal);
    SP.IdleOccupiedIsPartial(s, Bulk);
    AllOccupied(s);
    AllOccupied(t);
    CapsTotal(t);
    if s.pending[id].Partial() {
      PartialStaysOccupied(s, id);
    } else {
      Others(s, t, id);
      CardinalityAdd(OccupiedAll(s), id);
      CardinalitySubset(OccupiedAll(t) + {id}, OccupiedAll(s) + {id});
    }
  }

  lemma CardinalityAdd(s: set<Id>, id: Id)
    ensures |s + {id}| <= |s| + 1
  {
    if id in s { assert s + {id} == s; }
  }

  lemma CapsTotal(s: S.State)
    requires S.Caps(s)
    ensures S.OccupiedCount(s) <= MaxAssemblies
  {
  }

  lemma AllOccupied(s: S.State)
    ensures |OccupiedAll(s)| == S.OccupiedCount(s)
  {
    OccupiedSplits(s);
    var a, b, c := S.OccupiedIds(s, SOS), S.OccupiedIds(s, Normal), S.OccupiedIds(s, Bulk);
    hide S.OccupiedIds, OccupiedAll;
    assert |a + b| == |a| + |b|;
  }

  lemma OccupiedSplits(s: S.State)
    ensures OccupiedAll(s) == S.OccupiedIds(s, SOS) + S.OccupiedIds(s, Normal) + S.OccupiedIds(s, Bulk)
    ensures S.OccupiedIds(s, SOS) !! S.OccupiedIds(s, Normal)
    ensures S.OccupiedIds(s, SOS) + S.OccupiedIds(s, Normal) !! S.OccupiedIds(s, Bulk)
  {
  }

  lemma PartialStaysOccupied(s: S.State, id: Id)
    requires id in s.pending && s.pending[id].Partial()
    ensures S.Begun(s.pending[id]).Occupied()
  {
  }

  lemma Others(s: S.State, t: S.State, id: Id)
    requires id in s.pending && t.pending == s.pending[id := S.Begun(s.pending[id])]
    ensures OccupiedAll(t) <= OccupiedAll(s) + {id}
  {
    hide S.Begun;
  }

  lemma BegunCursor(t: S.Transfer)
    requires !t.inFlight && t.next <= t.Count() && t.Count() >= 1
    ensures Cursor(t) == S.Begun(t).next && Cursor(S.Begun(t)) == Following(S.Begun(t).next, t.Count())
    ensures S.Begun(t).value == t.value && S.Begun(t).Count() == t.Count()
  {
  }

  lemma FinishedCursor(t: S.Transfer, turn: nat, now: int)
    requires t.inFlight && t.next < t.Count()
    ensures Cursor(S.Finished(t, turn, now)) == Cursor(t) && S.Finished(t, turn, now).value == t.value
  {
  }

  /** A queued packet with its next fragment past the first is in the middle of being sent. */
  lemma CursorMeansOccupied(t: S.Transfer)
    requires !t.inFlight && Cursor(t) > 0
    ensures t.Occupied()
  {
  }

  /** The packets in the middle of being sent are part of the queue, so they are within its byte limit. */
  lemma BusyIsFit(s: S.State, id: Id)
    requires PendingBytes(s) <= MaxPendingBytes && id in s.pending && |OccupiedAll(s) + {id}| <= MaxAssemblies
    ensures BusyFits(Busy(s, id))
  {
    hide Total;
    TotalMonotone(Busy(s, id), Sizes(s.pending));
    assert Busy(s, id).Keys == OccupiedAll(s) + {id};
    assert |Busy(s, id)| == |Busy(s, id).Keys|;
  }

  // Steps

  /** For packets not accepted yet nothing changes but the arrival of new ones, none of whose fragments is about. */
  ghost predicate Carries(p: State, q: State) {
    && q.wire == p.wire && q.seen == p.seen && q.table == p.table && q.acks == p.acks
    && (forall id :: id in p.known ==> id in q.known && q.known[id] == p.known[id])
    && (forall id :: id in p.known && id !in p.seen ==> CursorOf(q.sender, id) == CursorOf(p.sender, id))
    && (forall id :: id in q.known && id !in p.known && id !in p.seen ==> CursorOf(q.sender, id) == 0)
  }

  lemma {:induction false} NotOnWire(s: S.State, wire: seq<Frame>, id: Id)
    requires CursorOf(s, id) == 0 && forall k :: 0 <= k < |wire| ==> wire[k].part.id != id
    ensures Coming(s, wire, id) == 0
    decreases |wire|
  {
    hide CursorOf;
    if wire != [] {
      assert forall k :: 0 <= k < |wire[1..]| ==> wire[1..][k] == wire[k + 1];
      NotOnWire(s, wire[1..], id);
    }
  }

  lemma FramesAreKnown(p: State, id: Id)
    requires WireOk(p) && id !in p.seen && id !in p.known
    ensures forall k :: 0 <= k < |p.wire| ==> p.wire[k].part.id != id
  {
    hide Coming;
    forall k | 0 <= k < |p.wire| ensures p.wire[k].part.id != id {
      if p.wire[k].part.id !in p.seen { assert FrameOk(p.sender, p.known, p.wire[k], p.wire[k + 1..]); }
    }
  }

  lemma ComingCarried(p: State, q: State, wire: seq<Frame>, id: Id)
    requires Carries(p, q) && id in q.known && id !in p.seen
    requires id !in p.known ==> forall k :: 0 <= k < |wire| ==> wire[k].part.id != id
    ensures id in p.known ==> Coming(q.sender, wire, id) == Coming(p.sender, wire, id)
    ensures id !in p.known ==> Coming(q.sender, wire, id) == 0
  {
    hide CursorOf, Coming;
    if id in p.known { ComingSame(p.sender, q.sender, wire, id); } else { NotOnWire(q.sender, wire, id); }
  }

  lemma WireCarried(p: State, q: State)
    requires WireOk(p) && Carries(p, q)
    ensures WireOk(q)
  {
    hide CursorOf, Coming, BusyFits;
    forall k | 0 <= k < |q.wire| && q.wire[k].part.id !in q.seen
      ensures FrameOk(q.sender, q.known, q.wire[k], q.wire[k + 1..]) && BusyOk(q, k) {
      assert FrameOk(p.sender, p.known, p.wire[k], p.wire[k + 1..]) && BusyOk(p, k);
      ComingCarried(p, q, p.wire[k + 1..], p.wire[k].part.id);
      forall id | id in q.known && id !in q.seen && Coming(q.sender, q.wire[k..], id) > 0
        ensures id in q.wire[k].busy && q.wire[k].busy[id] == |q.known[id]| {
        if id !in p.known { FramesAreKnown(p, id); }
        ComingCarried(p, q, p.wire[k..], id);
      }
    }
  }

  lemma TableCarried(p: State, q: State)
    requires WireOk(p) && TableOk(p) && Carries(p, q)
    ensures TableOk(q)
  {
    hide CursorOf, Coming, R.Inv, WireOk;
    forall id | id in q.known && id !in q.seen
      ensures RP.Holds(q.table, id, q.known[id], Below(Coming(q.sender, q.wire, id))) {
      if id !in p.known { FramesAreKnown(p, id); }
      ComingCarried(p, q, p.wire, id);
    }
  }

  lemma SenderCarried(s: S.State, t: S.State, known: map<Id, seq<Byte>>)
    requires SenderOk(s, known) && S.Inv(t) && Sizes(t.pending) == Sizes(s.pending)
    requires forall id :: id in t.pending ==> id in s.pending && t.pending[id].value == s.pending[id].value
    ensures SenderOk(t, known)
  {
    hide S.Inv;
  }

  lemma WrittenCarries(p: State, now: int)
    requires Inv(p) && Enabled(p, Written(now))
    ensures Carries(p, Apply(p, Written(now))) && Sizes(Apply(p, Written(now)).sender.pending) == Sizes(p.sender.pending)
  {
    hide S.Caps, S.WellKeyed, S.TurnsOk, S.InRange, Cursor, R.Inv, RP.Holds, WireOk, TableOk, PendingBytes, S.Finished;
    var s := p.sender;
    SP.TurnsInRange(s);
    var id := s.flight.value.id;
    if id in s.pending && s.pending[id].inFlight { FinishedCursor(s.pending[id], s.turn, now); }
  }

  lemma WrittenKeepsInv(p: State, now: int)
    requires Inv(p) && Enabled(p, Written(now))
    ensures Inv(Apply(p, Written(now)))
  {
    hide S.Inv, Coming, R.Inv, RP.Holds, RP.IsPacket, WireOk, TableOk, Carries, PendingBytes, S.Finished;
    SP.TurnsInRange(p.sender);
    SP.FinishKeepsInv(p.sender, now);
    var q := Apply(p, Written(now));
    WrittenCarries(p, now);
    if p.sender.flight.value.id in p.sender.pending && p.sender.pending[p.sender.flight.value.id].inFlight {
      SP.InvParts(p.sender);
      FinishedCursor(p.sender.pending[p.sender.flight.value.id], p.sender.turn, now);
    }
    SenderCarried(p.sender, q.sender, p.known);
    WireCarried(p, q);
    TableCarried(p, q);
  }

  lemma QueueBytes(pending: map<Id, S.Transfer>, t: S.Transfer)
    requires t.value.Id() !in pending
    ensures Total(Sizes(pending[t.value.Id() := t])) == Total(Sizes(pending)) + |t.value.encoded|
  {
    hide Total;
    TotalInsert(Sizes(pending), t.value.Id(), |t.value.encoded|);
    assert Sizes(pending[t.value.Id() := t]) == Sizes(pending)[t.value.Id() := |t.value.encoded|];
  }

  lemma QueueCarries(p: State, value: Retained)
    requires SenderOk(p.sender, p.known) && Enabled(p, Queue(value))
    ensures Carries(p, Apply(p, Queue(value))) && PendingBytes(Apply(p, Queue(value)).sender) <= MaxPendingBytes
  {
    hide S.Caps, S.WellKeyed, S.TurnsOk, S.FlightOk, S.InRange, Total, RP.IsPacket;
    SP.TurnsInRange(p.sender);
    QueueBytes(p.sender.pending, S.Transfer(value, 0, 0, 0, p.sender.turn, false));
  }

  lemma QueueKeepsInv(p: State, value: Retained)
    requires Inv(p) && Enabled(p, Queue(value))
    ensures Inv(Apply(p, Queue(value)))
  {
    hide S.Inv, Coming, R.Inv, RP.Holds, RP.IsPacket, WireOk, TableOk, Carries, PendingBytes;
    SP.TurnsInRange(p.sender);
    SP.InsertKeepsInv(p.sender, value);
    var q := Apply(p, Queue(value));
    QueueCarries(p, value);
    WireCarried(p, q);
    TableCarried(p, q);
  }

  /** A transfer leaves the queue: one the receiver has accepted, or one with nothing half sent. */
  lemma DropCarries(p: State, q: State, id: Id)
    requires SenderOk(p.sender, p.known) && |p.sender.turns| == 3
    requires id in p.seen || (id in p.sender.pending && Sheddable(p.sender.pending[id]))
    requires q == p.(sender := p.sender.(pending := p.sender.pending - {id}))
    ensures Carries(p, q) && PendingBytes(q.sender) <= MaxPendingBytes
  {
    hide S.Inv, Total;
    SenderParts(p.sender, p.known);
    if id in p.sender.pending && Sheddable(p.sender.pending[id]) { assert Cursor(p.sender.pending[id]) == 0; }
    TotalMonotone(Sizes(q.sender.pending), Sizes(p.sender.pending));
  }

  lemma DropKeepsInv(p: State, q: State, id: Id)
    requires Inv(p) && |p.sender.turns| == 3
    requires id in p.seen || (id in p.sender.pending && Sheddable(p.sender.pending[id]))
    requires q == p.(sender := p.sender.(pending := p.sender.pending - {id}))
    ensures Inv(q)
  {
    hide S.Inv, Coming, R.Inv, RP.Holds, RP.IsPacket, WireOk, TableOk, Carries, PendingBytes, Sheddable;
    SP.DropKeepsInv(p.sender, {id});
    DropCarries(p, q, id);
    WireCarried(p, q);
    TableCarried(p, q);
  }

  // Sending

  lemma CursorsAfterSend(s: S.State, known: map<Id, seq<Byte>>, env: S.Env, id: Id)
    requires SenderOk(s, known) && S.Enabled(s, S.Begin(env, id))
    ensures var t := S.Apply(s, S.Begin(env, id));
      && id in s.pending && id in t.pending && t.pending.Keys == s.pending.Keys && t.pending[id].next < t.pending[id].Count()
      && (forall k :: k in s.pending ==> t.pending[k].value == s.pending[k].value)
      && (forall k :: k in s.pending && k != id ==> t.pending[k] == s.pending[k] && !t.pending[k].inFlight)
      && Cursor(s.pending[id]) == t.pending[id].next
      && Cursor(t.pending[id]) == Following(t.pending[id].next, t.pending[id].Count())
  {
    hide S.Caps, S.WellKeyed, S.TurnsOk, S.Choice, Cursor, S.Begun;
    SendHasFragment(s, env, id);
    SenderParts(s, known);
    assert !s.pending[id].inFlight;
    BegunCursor(s.pending[id]);
  }

  /** What sending a fragment does to the sender, its position on the wire included. */
  ghost predicate Sends(p: State, q: State, id: Id) {
    && id in q.sender.pending && q.sender.pending[id].next < q.sender.pending[id].Count()
    && q == p.(sender := q.sender, wire := p.wire + [FrameFor(q.sender, id)])
    && id in p.known && q.sender.pending[id].value.encoded == p.known[id]
    && Cursor(q.sender.pending[id]) == Following(q.sender.pending[id].next, q.sender.pending[id].Count())
    && (forall x :: CursorOf(p.sender, x) == if x == id then q.sender.pending[id].next else CursorOf(q.sender, x))
    && (forall x :: x in q.sender.pending ==> x in p.known && q.sender.pending[x].value.encoded == p.known[x])
    && (forall x :: x in q.sender.pending && x != id ==> !q.sender.pending[x].inFlight)
  }

  lemma SendSends(p: State, env: S.Env, id: Id)
    requires SenderOk(p.sender, p.known) && Enabled(p, Send(env, id))
    ensures Sends(p, Apply(p, Send(env, id)), id) && BusyFits(Busy(Apply(p, Send(env, id)).sender, id))
    ensures Sizes(Apply(p, Send(env, id)).sender.pending) == Sizes(p.sender.pending)
  {
    hide S.Caps, S.WellKeyed, S.TurnsOk, S.Choice, S.InRange, S.FlightOk, Cursor, S.Begun, PendingBytes, Sizes, OccupiedAll, Busy, RP.IsPacket, BusyFits;
    SP.TurnsInRange(p.sender);
    SenderParts(p.sender, p.known);
    CursorsAfterSend(p.sender, p.known, env, id);
    SendKeepsSizes(p.sender, p.known, env, id);
    var t := S.Apply(p.sender, S.Begin(env, id));
    FewBusy(p.sender, env, id);
    BusyIsFit(t, id);
  }

  lemma SendKeepsSizes(s: S.State, known: map<Id, seq<Byte>>, env: S.Env, id: Id)
    requires SenderOk(s, known) && S.Enabled(s, S.Begin(env, id))
    ensures var t := S.Apply(s, S.Begin(env, id)); Sizes(t.pending) == Sizes(s.pending) && PendingBytes(t) == PendingBytes(s)
  {
    hide S.Inv, S.Choice, S.Begun, Total, Cursor;
    SP.TurnsInRange(s);
    CursorsAfterSend(s, known, env, id);
  }

  lemma SendKeepsWire(p: State, q: State, id: Id)
    requires WireOk(p) && Sends(p, q, id) && BusyFits(Busy(q.sender, id))
    ensures WireOk(q)
  {
    hide Cursor, CursorOf, Coming, BusyFits, Sends;
    var m := |p.wire|;
    SendWire(p, q, id);
    forall k | 0 <= k < |q.wire| && q.wire[k].part.id !in q.seen
      ensures FrameOk(q.sender, q.known, q.wire[k], q.wire[k + 1..]) && BusyOk(q, k) {
      if k < m {
        OldFrameStays(p, q, id, k);
      } else {
        assert q.wire[m + 1..] == [] && q.wire[m..] == [q.wire[m]];
        NewFrame(p, q, id);
      }
    }
  }

  lemma SendWire(p: State, q: State, id: Id)
    requires Sends(p, q, id)
    ensures |q.wire| == |p.wire| + 1 && q.seen == p.seen && forall k :: 0 <= k < |p.wire| ==> q.wire[k] == p.wire[k]
  {
    hide Cursor, CursorOf, FrameFor;
  }

  lemma OldFrameStays(p: State, q: State, id: Id, k: nat)
    requires k < |p.wire| && WireOk(p) && p.wire[k].part.id !in p.seen && Sends(p, q, id)
    ensures k < |q.wire| && FrameOk(q.sender, q.known, q.wire[k], q.wire[k + 1..]) && BusyOk(q, k)
  {
    hide Cursor, CursorOf, Coming, BusyFits, Busy;
    var f := q.wire[|p.wire|];
    assert q.wire[k + 1..] == p.wire[k + 1..] + [f] && q.wire[k..] == p.wire[k..] + [f];
    assert FrameOk(p.sender, p.known, p.wire[k], p.wire[k + 1..]) && BusyOk(p, k);
    ComingAppended(p.sender, q.sender, p.wire[k + 1..], f, p.wire[k].part.id);
    forall x | x in q.known && x !in q.seen && Coming(q.sender, q.wire[k..], x) > 0
      ensures x in q.wire[k].busy && q.wire[k].busy[x] == |q.known[x]| {
      ComingAppended(p.sender, q.sender, p.wire[k..], f, x);
    }
  }

  lemma NewFrame(p: State, q: State, id: Id)
    requires Sends(p, q, id) && BusyFits(Busy(q.sender, id)) && q.wire[|p.wire|..] == [q.wire[|p.wire|]]
    ensures FrameOk(q.sender, q.known, q.wire[|p.wire|], []) && BusyOk(q, |p.wire|)
  {
    hide Cursor, BusyFits;
    var m := |p.wire|;
    assert q.wire[m] == FrameFor(q.sender, id);
    forall x | x in q.known && x !in q.seen && Coming(q.sender, q.wire[m..], x) > 0
      ensures x in q.wire[m].busy && q.wire[m].busy[x] == |q.known[x]| {
      if x != id {
        assert [q.wire[m]][1..] == [] && Coming(q.sender, [q.wire[m]], x) == Coming(q.sender, [], x) == CursorOf(q.sender, x);
        CursorMeansOccupied(q.sender.pending[x]);
      }
    }
  }

  lemma SendKeepsTable(p: State, q: State, id: Id)
    requires TableOk(p) && Sends(p, q, id)
    ensures TableOk(q)
  {
    hide Cursor, CursorOf, Coming, R.Inv, RP.Holds, Busy;
    forall x | x in q.known && x !in q.seen
      ensures RP.Holds(q.table, x, q.known[x], Below(Coming(q.sender, q.wire, x))) {
      ComingAppended(p.sender, q.sender, p.wire, q.wire[|p.wire|], x);
    }
  }

  lemma SendKeepsInv(p: State, env: S.Env, id: Id)
    requires Inv(p) && Enabled(p, Send(env, id))
    ensures Inv(Apply(p, Send(env, id)))
  {
    hide S.Choice, S.Inv, RP.IsPacket, R.Inv, RP.Holds, WireOk, TableOk, S.Begun, PendingBytes, Sends, BusyFits, FrameFor;
    SP.TurnsInRange(p.sender);
    SP.BeginKeepsInv(p.sender, env, id);
    SendSends(p, env, id);
    CursorsAfterSend(p.sender, p.known, env, id);
    var q := Apply(p, Send(env, id));
    SenderCarried(p.sender, q.sender, p.known);
    SendKeepsWire(p, q, id);
    SendKeepsTable(p, q, id);
  }

  // Delivering

  /** The frame at the head of the wire, of a packet the receiver has not accepted. */
  ghost predicate Arriving(p: State, id: Id, encoded: seq<Byte>, i: nat) {
    && p.wire != [] && id !in p.seen && id in p.known && encoded == p.known[id]
    && i < FragmentCount(encoded) && p.wire[0].part == R.PartOf(id, encoded, i) && RP.IsPacket(encoded)
    && RP.Holds(p.table, id, encoded, Below(i)) && Coming(p.sender, p.wire[1..], id) == Following(i, FragmentCount(encoded))
    && id in p.wire[0].busy && p.wire[0].busy[id] == |encoded| && BusyFits(p.wire[0].busy) && BusyOk(p, 0)
  }

  lemma HeadArrives(p: State) returns (id: Id, encoded: seq<Byte>, i: nat)
    requires Inv(p) && p.wire != [] && p.wire[0].part.id !in p.seen
    ensures Arriving(p, id, encoded, i) && id == p.wire[0].part.id && i == p.wire[0].part.index
  {
    hide S.Inv, R.Inv, RP.Holds, PendingBytes, BusyFits, BusyOk;
    assert p.wire[0 + 1..] == p.wire[1..];
    id, i := p.wire[0].part.id, p.wire[0].part.index;
    encoded := p.known[id];
  }

  /** Everything half received was half sent when this frame was written. */
  lemma HalfReceivedIsBusy(p: State, id: Id, encoded: seq<Byte>, i: nat, x: Id)
    requires TableOk(p) && Arriving(p, id, encoded, i) && x in p.table
    ensures x in p.known && x !in p.seen && RP.Holds(p.table, x, p.known[x], Below(Coming(p.sender, p.wire, x)))
    ensures Coming(p.sender, p.wire, x) > 0 && x in p.wire[0].busy && p.wire[0].busy[x] == |p.known[x]|
  {
    hide R.Inv, Coming;
    assert p.wire[0..] == p.wire;
    assert RP.Holds(p.table, x, p.known[x], Below(Coming(p.sender, p.wire, x)));
  }

  lemma FewOpen(p: State, id: Id, encoded: seq<Byte>, i: nat)
    requires TableOk(p) && Arriving(p, id, encoded, i)
    ensures id in p.table || |p.table| < MaxAssemblies
  {
    hide R.Inv, Coming, TableOk, BusyOk, RP.Holds;
    if id !in p.table {
      forall x | x in p.table ensures x in p.wire[0].busy.Keys - {id} {
        HalfReceivedIsBusy(p, id, encoded, i, x);
      }
      CardinalitySubset(p.table.Keys, p.wire[0].busy.Keys - {id});
      assert |p.table| == |p.table.Keys| && |p.wire[0].busy| == |p.wire[0].busy.Keys|;
    }
  }

  lemma HeldBytes(t: R.Table, id: Id, encoded: seq<Byte>, i: nat)
    requires i <= FragmentCount(encoded) && RP.Holds(t, id, encoded, Below(i)) && id in t
    ensures t[id].bytes <= |encoded|
  {
    RP.PiecesSize(encoded, Below(i));
  }

  lemma HeldBytesWithNext(t: R.Table, id: Id, encoded: seq<Byte>, i: nat)
    requires i < FragmentCount(encoded) && RP.Holds(t, id, encoded, Below(i))
    ensures (if id in t then t[id].bytes else 0) + |R.Fragment(encoded, i)| <= |encoded|
  {
    RP.PieceAdded(encoded, Below(i), i);
    assert Below(i) + {i} == Below(i + 1);
    RP.PiecesSize(encoded, Below(i + 1));
    if id !in t {
      assert RP.Pieces(encoded, Below(0)) == map[];
      assert Below(i) == {};
      TotalEmpty<nat>();
      assert R.PartSizes(map[]) == map[];
    }
  }

  lemma ComingInRange(p: State, id: Id)
    requires WireOk(p) && SenderOk(p.sender, p.known) && id in p.known && id !in p.seen
    ensures Coming(p.sender, p.wire, id) < FragmentCount(p.known[id])
  {
    hide S.Inv, PendingBytes, BusyOk, BusyFits;
    SenderParts(p.sender, p.known);
    forall k | 0 <= k < |p.wire| && p.wire[k].part.id == id ensures p.wire[k].part.index < FragmentCount(p.known[id]) {
      assert FrameOk(p.sender, p.known, p.wire[k], p.wire[k + 1..]);
    }
    ComingBound(p.sender, p.wire, id, FragmentCount(p.known[id]));
  }

  /** Everything half received, with the fragment arriving, is within what the sender had queued. */
  lemma BytesFit(p: State, id: Id, encoded: seq<Byte>, i: nat)
    requires Inv(p) && Arriving(p, id, encoded, i)
    ensures R.TableBytes(p.table) + |R.Fragment(encoded, i)| <= MaxPendingBytes
  {
    hide S.Inv, R.Inv, RP.Holds, Coming, WireOk, TableOk, BusyOk;
    var more := (if id in p.table then p.table[id].bytes else 0) + |R.Fragment(encoded, i)|;
    var held := R.AssemblySizes(p.table)[id := more];
    HeldBytesWithNext(p.table, id, encoded, i);
    forall x | x in held ensures x in p.wire[0].busy && held[x] <= p.wire[0].busy[x] {
      if x != id {
        HalfReceivedIsBusy(p, id, encoded, i, x);
        ComingInRange(p, x);
        HeldBytes(p.table, x, p.known[x], Coming(p.sender, p.wire, x));
      }
    }
    TotalBounded(held, p.wire[0].busy);
    OneReplaced(R.AssemblySizes(p.table), id, more);
  }

  lemma OneReplaced(m: map<Id, nat>, id: Id, v: nat)
    ensures Total(m[id := v]) == Total(m) - (if id in m then m[id] else 0) + v
  {
    TotalRemove(m[id := v], id);
    assert m[id := v] - {id} == m - {id};
    if id in m { TotalRemove(m, id); } else { assert m - {id} == m; }
  }

  /** A fragment that arrives is never refused and never contradicts what is there. The last one of a packet completes
      it, with exactly the bytes that were queued; any other is kept. */
  lemma NeverRefused(p: State, now: int)
    requires Inv(p) && p.wire != [] && p.wire[0].part.id !in p.seen
    ensures var part := p.wire[0].part; part.id in p.known
    ensures var part := p.wire[0].part; var (u, outcome) := R.Receive(p.table, part, now);
      outcome == if part.index + 1 == part.count then R.Complete(p.known[part.id]) else R.Incomplete
  {
    var id, encoded, i := HeadArrives(p);
    FragmentFound(p, id, encoded, i, now);
  }

  lemma FragmentFound(p: State, id: Id, encoded: seq<Byte>, i: nat, now: int)
    requires Inv(p) && Arriving(p, id, encoded, i)
    ensures var (u, outcome) := R.Receive(p.table, R.PartOf(id, encoded, i), now);
      if i + 1 == FragmentCount(encoded) then outcome == R.Complete(encoded) && id !in u
      else outcome == R.Incomplete && RP.Holds(u, id, encoded, Below(i + 1))
  {
    hide S.Inv, R.Inv, RP.Holds, Coming, WireOk, TableOk, SenderOk, R.Receive, BusyOk, BusyFits;
    FewOpen(p, id, encoded, i);
    BytesFit(p, id, encoded, i);
    assert Below(i) + {i} == Below(i + 1);
    assert i !in Below(i) && i in RP.Indices(encoded);
    FewerThanAll(i, FragmentCount(encoded));
    RP.FragmentArrives(p.table, id, encoded, Below(i), i, now);
  }

  lemma FewerThanAll(i: nat, n: nat)
    requires i < n
    ensures Below(i) < Below(n) && (Below(i + 1) == Below(n) <==> i + 1 == n)
  {
    assert i in Below(n) && i !in Below(i);
    if i + 1 < n { assert i + 1 in Below(n) && i + 1 !in Below(i + 1); }
  }

  lemma ReceivedKeys(t: R.Table, part: R.Part, now: int)
    ensures var (u, outcome) := R.Receive(t, part, now); u.Keys <= t.Keys + {part.id} && (outcome.Complete? ==> part.id !in u)
  {
    hide R.WellFormed, R.Contradicts, R.Overflows, R.Full;
  }

  lemma ShiftedWire(p: State, q: State)
    requires WireOk(p) && p.wire != [] && q.wire == p.wire[1..] && q.sender == p.sender && q.known == p.known && p.seen <= q.seen
    ensures WireOk(q)
  {
    hide Coming, BusyFits;
    forall k | 0 <= k < |q.wire| && q.wire[k].part.id !in q.seen
      ensures FrameOk(q.sender, q.known, q.wire[k], q.wire[k + 1..]) && BusyOk(q, k) {
      assert q.wire[k + 1..] == p.wire[k + 2..] && q.wire[k..] == p.wire[k + 1..] && q.wire[k] == p.wire[k + 1];
      assert FrameOk(p.sender, p.known, p.wire[k + 1], p.wire[k + 1 + 1..]) && BusyOk(p, k + 1);
    }
  }

  lemma SeenKeepsTable(p: State, q: State)
    requires TableOk(p) && p.wire != [] && p.wire[0].part.id in p.seen
    requires q.wire == p.wire[1..] && q.sender == p.sender && q.known == p.known && q.seen == p.seen && q.table == p.table
    ensures TableOk(q)
  {
    hide R.Inv, RP.Holds;
  }

  lemma ArrivalHeld(p: State, q: State, id: Id, encoded: seq<Byte>, i: nat, now: int, x: Id)
    requires Inv(p) && Arriving(p, id, encoded, i)
    requires q.wire == p.wire[1..] && q.sender == p.sender && q.known == p.known && q.table == R.Receive(p.table, R.PartOf(id, encoded, i), now).0
    requires q.seen == p.seen || (q.seen == p.seen + {id} && i + 1 == FragmentCount(encoded))
    requires x in q.known && x !in q.seen
    ensures RP.Holds(q.table, x, q.known[x], Below(Coming(q.sender, q.wire, x)))
  {
    hide Inv, S.Inv, R.Inv, RP.Holds, R.Receive, BusyOk, Coming, RP.IsPacket;
    if x == id {
      FragmentFound(p, id, encoded, i, now);
      if i + 1 == FragmentCount(encoded) { GoneHoldsNothing(q.table, id, encoded); }
    } else {
      OtherHeld(p, x, R.PartOf(id, encoded, i), now);
    }
  }

  lemma ArrivalKeepsTable(p: State, q: State, id: Id, encoded: seq<Byte>, i: nat, now: int)
    requires Inv(p) && Arriving(p, id, encoded, i)
    requires q.wire == p.wire[1..] && q.sender == p.sender && q.known == p.known && q.table == R.Receive(p.table, R.PartOf(id, encoded, i), now).0
    requires q.seen == p.seen || (q.seen == p.seen + {id} && i + 1 == FragmentCount(encoded))
    ensures TableOk(q)
  {
    hide S.Inv, R.Inv, RP.Holds, R.Receive, WireOk, SenderOk, BusyOk, Coming, RP.IsPacket;
    var part := R.PartOf(id, encoded, i);
    FragmentFound(p, id, encoded, i, now);
    R.ReceiveKeepsInv(p.table, part, now);
    ReceivedKeys(p.table, part, now);
    forall x | x in q.known && x !in q.seen
      ensures RP.Holds(q.table, x, q.known[x], Below(Coming(q.sender, q.wire, x))) {
      ArrivalHeld(p, q, id, encoded, i, now, x);
    }
  }

  lemma GoneHoldsNothing(t: R.Table, id: Id, encoded: seq<Byte>)
    requires id !in t
    ensures RP.Holds(t, id, encoded, Below(0))
  {
  }

  lemma OtherHeld(p: State, x: Id, part: R.Part, now: int)
    requires Inv(p) && p.wire != [] && x in p.known && x !in p.seen && part.id != x && p.wire[0].part == part
    ensures RP.Holds(R.Receive(p.table, part, now).0, x, p.known[x], Below(Coming(p.sender, p.wire[1..], x)))
  {
    hide S.Inv, R.Inv, RP.Holds, R.Receive, WireOk, PendingBytes;
    var encoded := p.known[x];
    ComingInRange(p, x);
    var j := Coming(p.sender, p.wire, x);
    assert Below(j) <= RP.Indices(encoded);
    RP.OtherPacketsLeaveItAlone(p.table, part, now, x, encoded, Below(j));
  }

  lemma DeliverKeepsInv(p: State, now: int, accepted: bool)
    requires Inv(p) && Enabled(p, Deliver(now, accepted))
    ensures Inv(Apply(p, Deliver(now, accepted)))
  {
    hide S.Inv, R.Inv, RP.Holds, R.Receive, WireOk, SenderOk, TableOk, BusyOk;
    var q := Apply(p, Deliver(now, accepted));
    ShiftedWire(p, q);
    if p.wire[0].part.id in p.seen {
      SeenKeepsTable(p, q);
    } else {
      var id, encoded, i := HeadArrives(p);
      FragmentFound(p, id, encoded, i, now);
      ArrivalKeepsTable(p, q, id, encoded, i, now);
    }
  }

  lemma StepKeepsInv(p: State, e: Event)
    requires Inv(p) && Enabled(p, e)
    ensures Inv(Apply(p, e))
  {
    hide S.Inv, SenderOk, WireOk, TableOk, S.Enabled;
    match e
    case Send(env, id) => SendKeepsInv(p, env, id);
    case Written(now) => WrittenKeepsInv(p, now);
    case Queue(value) => QueueKeepsInv(p, value);
    case Shed(id) =>
      SP.TurnsInRange(p.sender);
      DropKeepsInv(p, Apply(p, e), id);
    case Acknowledged(id) =>
      SP.TurnsInRange(p.sender);
      DropKeepsInv(p, Apply(p, e), id);
    case Deliver(now, accepted) => DeliverKeepsInv(p, now, accepted);
  }

  // Runs

  ghost predicate Runs(p: State, events: seq<Event>)
    decreases |events|
  {
    events == [] || (Enabled(p, events[0]) && Runs(Apply(p, events[0]), events[1..]))
  }

  ghost function After(p: State, events: seq<Event>): State
    requires Runs(p, events)
    decreases |events|
  {
    if events == [] then p else After(Apply(p, events[0]), events[1..])
  }

  lemma {:induction false} RunKeepsInv(p: State, events: seq<Event>)
    requires Inv(p) && Runs(p, events)
    ensures Inv(After(p, events))
    decreases |events|
  {
    hide Inv, Enabled, Apply;
    if events != [] {
      StepKeepsInv(p, events[0]);
      RunKeepsInv(Apply(p, events[0]), events[1..]);
    }
  }

  /** Two ends that have just been joined. */
  predicate Fresh(p: State) {
    p.sender.pending == map[] && p.sender.turn == 0 && p.sender.turns == [0, 0, 0] && p.sender.flight.None?
    && p.wire == [] && p.table == map[] && p.known == map[] && p.seen == {} && p.acks == {}
  }

  lemma FreshInv(p: State)
    requires Fresh(p)
    ensures Inv(p)
  {
    assert Sizes(p.sender.pending) == map[];
    TotalEmpty<Id>();
    assert R.AssemblySizes(p.table) == map[];
  }

  /** Over one ordered link, without cancellation or expiry, the sender's caps mean that the receiver never has to refuse
      a fragment: in every run, whatever arrives is kept, or completes a packet with exactly the bytes that were queued.
      Packets pushed out of the queue to make room are covered. */
  lemma ReceiverNeverRefuses(p: State, events: seq<Event>, now: int)
    requires Fresh(p) && Runs(p, events)
    requires After(p, events).wire != [] && After(p, events).wire[0].part.id !in After(p, events).seen
    ensures var q := After(p, events); var part := q.wire[0].part; part.id in q.known
    ensures var q := After(p, events); var part := q.wire[0].part;
      R.Receive(q.table, part, now).1
      == if part.index + 1 == part.count then R.Complete(q.known[part.id]) else R.Incomplete
  {
    hide Inv, Runs, After;
    FreshInv(p);
    RunKeepsInv(p, events);
    NeverRefused(After(p, events), now);
  }
}

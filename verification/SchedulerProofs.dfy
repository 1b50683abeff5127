/** What the scheduler keeps, step by step and over whole runs. */
module SchedulerProofs {
  import opened Common
  import opened Packets
  import opened Scheduler

  lemma InvParts(s: State)
    requires Inv(s)
    ensures |s.pending| <= MaxTransfers && TurnsOk(s) && WellKeyed(s.pending) && InRange(s) && FlightOk(s) && Caps(s)
  {
  }

  lemma TurnsInRange(s: State)
    requires Inv(s)
    ensures |s.turns| == 3 && forall i :: 0 <= i < 3 ==> s.turns[i] <= s.turn
  {
  }

  // Caps

  /** With no frame on the wire, being occupied is being partly sent. */
  lemma IdleOccupiedIsPartial(s: State, p: Priority)
    requires FlightOk(s) && s.flight.None?
    ensures OccupiedIds(s, p) == PartialIds(s, p)
  {
    assert forall id :: id in s.pending ==> !s.pending[id].inFlight;
  }

  /** Replacing one transfer by another of its priority changes one cell of the count. */
  lemma OccupiedReplace(s: State, t: State, id: Id, p: Priority)
    requires id in s.pending && id in t.pending && t.pending == s.pending[id := t.pending[id]]
    requires t.pending[id].Priority() == s.pending[id].Priority()
    ensures |OccupiedIds(t, p)| <= |OccupiedIds(s, p)| + (if p == s.pending[id].Priority() && t.pending[id].Occupied() && !s.pending[id].Occupied() then 1 else 0)
  {
    hide OccupiedIds, Transfer.Occupied;
    OccupiedChange(s, t, id, p);
    if p == s.pending[id].Priority() && t.pending[id].Occupied() && !s.pending[id].Occupied() {
      CardinalitySubset(OccupiedIds(t, p), OccupiedIds(s, p) + {id});
      if id in OccupiedIds(s, p) { assert OccupiedIds(s, p) + {id} == OccupiedIds(s, p); } else { CardinalityInsert(OccupiedIds(s, p), id); }
    } else {
      CardinalitySubset(OccupiedIds(t, p), OccupiedIds(s, p));
    }
  }

  lemma OccupiedChange(s: State, t: State, id: Id, p: Priority)
    requires id in s.pending && id in t.pending && t.pending == s.pending[id := t.pending[id]]
    requires t.pending[id].Priority() == s.pending[id].Priority()
    ensures OccupiedIds(t, p) <= OccupiedIds(s, p) + {id}
    ensures !(p == s.pending[id].Priority() && t.pending[id].Occupied() && !s.pending[id].Occupied()) ==> OccupiedIds(t, p) <= OccupiedIds(s, p)
  {
    hide Transfer.Occupied;
  }

  /** Starting a transfer is exactly what the caps leave room for. */
  lemma BeginKeepsCaps(s: State, env: Env, id: Id)
    requires Inv(s) && Enabled(s, Begin(env, id))
    ensures Caps(Apply(s, Begin(env, id)))
  {
    hide InRange, WellKeyed, TurnsOk, Before, PartialIds, OccupiedIds, Ready;
    TurnsInRange(s);
    ChoiceIsQueued(s, env, id);
    var t := Apply(s, Begin(env, id));
    IdleOccupiedIsPartial(s, SOS);
    IdleOccupiedIsPartial(s, Normal);
    IdleOccupiedIsPartial(s, Bulk);
    OccupiedReplace(s, t, id, SOS);
    OccupiedReplace(s, t, id, Normal);
    OccupiedReplace(s, t, id, Bulk);
  }

  lemma ReplaceKeepsKeyed(m: map<Id, Transfer>, id: Id, t: Transfer)
    requires WellKeyed(m) && id in m && t.value == m[id].value
    ensures WellKeyed(m[id := t])
  {
  }

  lemma BegunInRange(t: Transfer)
    requires 0 < |t.value.encoded|
    ensures Begun(t).next < t.Count() && Begun(t).Count() == t.Count() && Begun(t).inFlight
    ensures Begun(t).scheduled == t.scheduled && Begun(t).value == t.value
  {
  }

  lemma BeginKeepsRange(s: State, env: Env, id: Id)
    requires Inv(s) && Enabled(s, Begin(env, id))
    ensures InRange(Apply(s, Begin(env, id))) && FlightOk(Apply(s, Begin(env, id)))
  {
    hide Caps, TurnsOk, Choice, Begun;
    TurnsInRange(s);
    ChoiceIsQueued(s, env, id);
    assert WellKeyed(s.pending);
    BegunInRange(s.pending[id]);
    assert forall k :: k in s.pending ==> !s.pending[k].inFlight;
  }

  lemma DueIsQueued(s: State, env: Env, id: Id)
    requires Due(s, env, id)
    ensures id in s.pending
  {
  }

  lemma ChoiceIsQueued(s: State, env: Env, id: Id)
    requires |s.turns| == 3 && Choice(s, env, id)
    ensures id in s.pending
  {
  }

  lemma BeginKeepsInv(s: State, env: Env, id: Id)
    requires Inv(s) && Enabled(s, Begin(env, id))
    ensures Inv(Apply(s, Begin(env, id)))
  {
    hide Caps, InRange, FlightOk, WellKeyed, Choice;
    BeginKeepsCaps(s, env, id);
    BeginKeepsRange(s, env, id);
    ChoiceIsQueued(s, env, id);
    ReplaceKeepsKeyed(s.pending, id, Begun(s.pending[id]));
    assert s.pending[id := Begun(s.pending[id])].Keys == s.pending.Keys;
  }

  lemma FinishKeepsCaps(s: State, now: int)
    requires Inv(s) && Enabled(s, Finish(now))
    ensures Caps(Apply(s, Finish(now)))
  {
    hide WellKeyed, InRange, OccupiedIds;
    var t := Apply(s, Finish(now));
    var id := s.flight.value.id;
    if id in s.pending && s.pending[id].inFlight {
      OccupiedReplace(s, t, id, SOS);
      OccupiedReplace(s, t, id, Normal);
      OccupiedReplace(s, t, id, Bulk);
    } else {
      SameOccupied(s, t);
    }
  }

  lemma SameOccupied(s: State, t: State)
    requires t.pending == s.pending
    ensures forall p :: OccupiedIds(t, p) == OccupiedIds(s, p)
  {
  }

  lemma FinishKeepsRange(s: State, now: int)
    requires Inv(s) && Enabled(s, Finish(now))
    ensures InRange(Apply(s, Finish(now))) && FlightOk(Apply(s, Finish(now)))
  {
    hide Caps, WellKeyed;
  }

  lemma FinishKeepsInv(s: State, now: int)
    requires Inv(s) && Enabled(s, Finish(now))
    ensures Inv(Apply(s, Finish(now)))
  {
    hide Caps, WellKeyed, InRange, FlightOk;
    FinishKeepsCaps(s, now);
    FinishKeepsRange(s, now);
    var id := s.flight.value.id;
    if id in s.pending && s.pending[id].inFlight {
      ReplaceKeepsKeyed(s.pending, id, Finished(s.pending[id], s.turn, now));
      assert s.pending[id := Finished(s.pending[id], s.turn, now)].Keys == s.pending.Keys;
    }
  }

  lemma DropKeepsCaps(s: State, ids: set<Id>)
    requires |s.turns| == 3 && Caps(s)
    ensures Caps(Apply(s, Drop(ids)))
  {
    hide OccupiedIds;
    DropShrinks(s, ids, SOS);
    DropShrinks(s, ids, Normal);
    DropShrinks(s, ids, Bulk);
  }

  lemma DropShrinks(s: State, ids: set<Id>, p: Priority)
    requires |s.turns| == 3
    ensures |OccupiedIds(Apply(s, Drop(ids)), p)| <= |OccupiedIds(s, p)|
  {
    CardinalitySubset(OccupiedIds(Apply(s, Drop(ids)), p), OccupiedIds(s, p));
  }

  lemma DropKeepsInv(s: State, ids: set<Id>)
    requires Inv(s)
    ensures Inv(Apply(s, Drop(ids)))
  {
    hide Caps, TurnsOk, WellKeyed, InRange, FlightOk;
    var t := s.(pending := s.pending - ids);
    TurnsInRange(s);
    DropKeepsCaps(s, ids);
    CardinalitySubset((s.pending - ids).Keys, s.pending.Keys);
    assert WellKeyed(t.pending) by { DropKeepsKeys(s.pending, ids); }
    DropKeepsFlight(s, ids);
    TurnsSame(s, t);
  }

  lemma DropKeepsKeys(pending: map<Id, Transfer>, ids: set<Id>)
    requires WellKeyed(pending)
    ensures WellKeyed(pending - ids)
  {
  }

  lemma DropKeepsFlight(s: State, ids: set<Id>)
    requires InRange(s) && FlightOk(s)
    ensures InRange(s.(pending := s.pending - ids)) && FlightOk(s.(pending := s.pending - ids))
  {
  }

  lemma TurnsSame(s: State, t: State)
    requires TurnsOk(s) && t.turn == s.turn && t.turns == s.turns && t.flight == s.flight
    ensures TurnsOk(t)
  {
  }

  lemma InsertKeepsCaps(s: State, value: Retained)
    requires Inv(s) && Enabled(s, Insert(value))
    ensures Caps(Apply(s, Insert(value)))
  {
    hide WellKeyed, InRange, TurnsOk, FlightOk;
    TurnsInRange(s);
    var t := Apply(s, Insert(value));
    assert forall p :: OccupiedIds(t, p) == OccupiedIds(s, p);
  }

  lemma InsertKeepsInv(s: State, value: Retained)
    requires Inv(s) && Enabled(s, Insert(value))
    ensures Inv(Apply(s, Insert(value)))
  {
    hide Caps;
    InsertKeepsCaps(s, value);
    InsertKeepsKeyed(s.pending, value, Transfer(value, 0, 0, 0, s.turn, false));
  }

  lemma InsertKeepsKeyed(m: map<Id, Transfer>, value: Retained, t: Transfer)
    requires WellKeyed(m) && value.Id() !in m && t.value == value && 0 < |value.encoded|
    requires forall id :: id in m ==> m[id].value.sequence != value.sequence
    ensures WellKeyed(m[value.Id() := t]) && |m[value.Id() := t]| == |m| + 1
  {
    assert m[value.Id() := t].Keys == m.Keys + {value.Id()};
  }

  lemma StepKeepsInv(s: State, e: Event)
    requires Inv(s) && Enabled(s, e)
    ensures Inv(Apply(s, e))
  {
    hide Inv;
    match e
    case Begin(env, id) => BeginKeepsInv(s, env, id);
    case Finish(now) => FinishKeepsInv(s, now);
    case Drop(ids) => DropKeepsInv(s, ids);
    case Insert(value) => InsertKeepsInv(s, value);
  }

  /** Whatever selections, acknowledgements, arrivals, expiries and cancellations
      interleave, the invariant holds after every run. */
  lemma {:induction false} RunKeepsInv(s: State, events: seq<Event>)
    requires Inv(s) && Runs(s, events)
    ensures Inv(After(s, events))
    decreases |events|
  {
    hide Inv;
    if events != [] {
      StepKeepsInv(s, events[0]);
      RunKeepsInv(Apply(s, events[0]), events[1..]);
    }
  }

  /** The limits on partly sent transfers, read off the invariant. */
  lemma PartialLimits(s: State)
    requires Inv(s)
    ensures |PartialIds(s, SOS)| <= 7 && |PartialIds(s, Normal)| <= 5 && |PartialIds(s, Bulk)| <= 5
    ensures |PartialIds(s, Normal)| + |PartialIds(s, Bulk)| <= 6
    ensures PartialCount(s) <= 8
  {
    forall p ensures |PartialIds(s, p)| <= |OccupiedIds(s, p)| {
      CardinalitySubset(PartialIds(s, p), OccupiedIds(s, p));
    }
  }

  // Work conservation

  lemma NothingPartial(s: State, env: Env, p: Priority)
    requires forall id :: id in s.pending && s.pending[id].Partial() ==> !Ready(s, env, id)
    requires p == Bulk ==> !env.lowPower
    ensures PartialIds(s, p) == {}
  {
    forall id | id in PartialIds(s, p) ensures false {
      assert Ready(s, env, id);
    }
  }

  lemma ReservedBound(s: State, env: Env, p: Priority)
    ensures Reserved(s, env, p) <= 2
    ensures env.lowPower && p != Bulk ==> Reserved(s, env, p) <= 1
  {
    var waiting := set q | q in AllPriorities && q != p && Waiting(s, env, q);
    CardinalitySubset(waiting, AllPriorities - {p});
    assert |AllPriorities - {p}| == 2;
    if env.lowPower && p != Bulk {
      assert !Waiting(s, env, Bulk);
      CardinalitySubset(waiting, AllPriorities - {p, Bulk});
      assert |AllPriorities - {p, Bulk}| == 1;
    }
  }

  /** The caps and reserves never stall the link: while any transfer is ready, one is due.
      This includes low power with bulk transfers left half sent. */
  lemma WorkConserving(s: State, env: Env, id: Id)
    requires Inv(s) && Ready(s, env, id)
    ensures exists other :: Due(s, env, other)
  {
    hide WellKeyed, InRange, FlightOk, TurnsOk, Caps, Reserved, PartialIds;
    if other :| other in s.pending && s.pending[other].Partial() && Ready(s, env, other) {
      assert Due(s, env, other);
    } else {
      var p := s.pending[id].Priority();
      PartialLimits(s);
      NothingPartial(s, env, SOS);
      NothingPartial(s, env, Normal);
      if !env.lowPower {
        NothingPartial(s, env, Bulk);
      }
      ReservedBound(s, env, p);
      assert Due(s, env, id);
    }
  }

  lemma NothingDue(s: State, env: Env)
    requires Inv(s) && forall id :: !Due(s, env, id)
    ensures forall id :: !Ready(s, env, id)
  {
    forall id ensures !Ready(s, env, id) {
      if Ready(s, env, id) {
        WorkConserving(s, env, id);
      }
    }
  }

  lemma DueIsReady(s: State, env: Env, id: Id)
    requires Due(s, env, id)
    ensures Ready(s, env, id)
  {
    hide MayStart;
  }

  lemma DueAreQueued(s: State, env: Env)
    ensures forall id :: Due(s, env, id) ==> id in s.pending
  {
  }

  /** The serving order is a strict order: a first due transfer exists and sorting finds it. */
  lemma BeforeIsOrder(turn: nat, turns: seq<nat>)
    requires |turns| == 3
    ensures forall a: Transfer :: !Before(turn, turns, a, a)
    ensures forall a: Transfer, b: Transfer, c: Transfer :: Before(turn, turns, a, b) && Before(turn, turns, b, c) ==> Before(turn, turns, a, c)
  {
  }

  // What is selected, in terms of the transfers themselves

  predicate AsOld(a: Transfer, b: Transfer) {
    a.scheduled < b.scheduled || (a.scheduled == b.scheduled && a.value.sequence <= b.value.sequence)
  }

  /** Three turns in four are the most urgent priority's; the fourth is the one's that was served longest
      ago. Within a priority the transfer served longest ago goes first, and the older of two such. */
  ghost predicate GoesFirst(s: State, id: Id, other: Id)
    requires |s.turns| == 3 && id in s.pending && other in s.pending
  {
    var p, q := s.pending[id].value.packet.body.priority, s.pending[other].value.packet.body.priority;
    && ((s.turn + 1) % 4 != 0 ==> AsUrgent(p, q))
    && ((s.turn + 1) % 4 == 0 ==> s.turns[Rank(p)] <= s.turns[Rank(q)])
    && (p == q ==> AsOld(s.pending[id], s.pending[other]))
  }

  lemma ChoiceGoesFirst(s: State, env: Env, id: Id)
    requires |s.turns| == 3 && Choice(s, env, id)
    ensures id in s.pending && forall other :: Due(s, env, other) ==> other in s.pending && GoesFirst(s, id, other)
  {
    hide MayStart, Ready;
    DueIsQueued(s, env, id);
    forall other | Due(s, env, other) ensures other in s.pending && GoesFirst(s, id, other) {
      DueIsQueued(s, env, other);
      assert !Before(s.turn, s.turns, s.pending[other], s.pending[id]);
    }
  }

  /** A transfer that could be put on the wire but for the caps. */
  predicate Sendable(s: State, env: Env, id: Id) {
    && id in s.pending
    && !(env.lowPower && s.pending[id].value.packet.body.priority == Bulk)
    && (2048 * s.pending[id].next < |s.pending[id].value.encoded| || s.pending[id].sent + env.retry <= env.now)
  }

  function HalfSent(s: State, p: Priority): set<Id> {
    set id | id in s.pending && s.pending[id].value.packet.body.priority == p
          && 0 < s.pending[id].next && 2048 * s.pending[id].next < |s.pending[id].value.encoded|
  }

  /** One slot is set aside for a priority with something to send and nothing half sent. */
  function Slot(s: State, env: Env, p: Priority): (n: nat)
    ensures n <= 1
  {
    if HalfSent(s, p) == {} && exists id :: id in s.pending && Sendable(s, env, id) && s.pending[id].value.packet.body.priority == p then 1 else 0
  }

  /** Bulk waits for power, and what was sent completely waits out the retry interval; nothing else is kept from being ready. */
  lemma ReadyIsSendable(s: State, env: Env)
    ensures forall id :: Ready(s, env, id) <==> Sendable(s, env, id)
    ensures forall p :: PartialIds(s, p) == HalfSent(s, p)
  {
  }

  /** When a ready transfer is held back: it is not half sent, and seven SOS, or six others or five of its
      own priority, are; or with the slots set aside for the other two priorities all eight are taken. */
  lemma HeldBackExactly(s: State, env: Env, id: Id)
    requires Ready(s, env, id)
    ensures
      var p := s.pending[id].value.packet.body.priority;
      var sos, normal, bulk := |HalfSent(s, SOS)|, |HalfSent(s, Normal)|, |HalfSent(s, Bulk)|;
      var slots := Slot(s, env, SOS) + Slot(s, env, Normal) + Slot(s, env, Bulk) - Slot(s, env, p);
      !Due(s, env, id) <==>
        && id !in HalfSent(s, p)
        && (sos + normal + bulk + slots >= 8 || (if p == SOS then sos >= 7 else normal + bulk >= 6 || |HalfSent(s, p)| >= 5))
  {
    hide PartialIds, HalfSent, Waiting, Ready, Slot;
    ReadyIsSendable(s, env);
    ReservedCounts(s, env, s.pending[id].Priority());
    HalfSentIsPartial(s, id);
  }

  lemma HalfSentIsPartial(s: State, id: Id)
    requires id in s.pending
    ensures s.pending[id].Partial() <==> id in HalfSent(s, s.pending[id].Priority())
  {
  }

  lemma WaitingIsSlot(s: State, env: Env, p: Priority)
    ensures Waiting(s, env, p) <==> Slot(s, env, p) == 1
  {
    hide PartialIds, HalfSent, Ready, Sendable;
    ReadyIsSendable(s, env);
    assert |PartialIds(s, p)| == 0 <==> HalfSent(s, p) == {};
    if id :| id in s.pending && Ready(s, env, id) && s.pending[id].Priority() == p {
      assert s.pending[id].value.packet.body.priority == p;
      assert Sendable(s, env, id);
    }
    if id :| id in s.pending && Sendable(s, env, id) && s.pending[id].value.packet.body.priority == p {
      assert Ready(s, env, id) && s.pending[id].Priority() == p;
    }
  }

  lemma CountOf(w: set<Priority>, q: Priority)
    ensures |w| == |w - {q}| + (if q in w then 1 else 0)
  {
    if q in w {
      CardinalityInsert(w - {q}, q);
      assert w - {q} + {q} == w;
    } else {
      assert w - {q} == w;
    }
  }

  lemma CountByPriority(w: set<Priority>)
    ensures |w| == (if SOS in w then 1 else 0) + (if Normal in w then 1 else 0) + (if Bulk in w then 1 else 0)
  {
    CountOf(w, SOS);
    CountOf(w - {SOS}, Normal);
    CountOf(w - {SOS} - {Normal}, Bulk);
    forall q ensures q !in w - {SOS} - {Normal} - {Bulk} {
      match q
      case SOS =>
      case Normal =>
      case Bulk =>
    }
    assert w - {SOS} - {Normal} - {Bulk} == {};
  }

  lemma ReservedCounts(s: State, env: Env, p: Priority)
    ensures Reserved(s, env, p) == Slot(s, env, SOS) + Slot(s, env, Normal) + Slot(s, env, Bulk) - Slot(s, env, p)
  {
    hide Waiting, Slot;
    WaitingIsSlot(s, env, SOS);
    WaitingIsSlot(s, env, Normal);
    WaitingIsSlot(s, env, Bulk);
    CountByPriority(set q | q in AllPriorities && q != p && Waiting(s, env, q));
  }

  // Sending again

  /** `x` was sent completely at time `at`; every selection of the run is within the retry interval of it. */
  ghost predicate WithinInterval(s: State, events: seq<Event>, x: Id, at: int)
    requires Runs(s, events)
    decreases |events|
  {
    events == [] ||
    (&& (events[0].Begin? ==> events[0].env.now < at + events[0].env.retry)
     && (events[0].Drop? ==> x !in events[0].ids)
     && WithinInterval(Apply(s, events[0]), events[1..], x, at))
  }

  predicate NeverSelects(events: seq<Event>, x: Id) {
    forall e :: e in events && e.Begin? ==> e.id != x
  }

  predicate Rests(s: State, x: Id, at: int) {
    x in s.pending && !s.pending[x].inFlight && 2048 * s.pending[x].next >= |s.pending[x].value.encoded| && s.pending[x].sent == at
  }

  lemma RestsOn(s: State, e: Event, x: Id, at: int)
    requires Inv(s) && Enabled(s, e) && Rests(s, x, at)
    requires e.Begin? ==> e.env.now < at + e.env.retry
    requires e.Drop? ==> x !in e.ids
    ensures Rests(Apply(s, e), x, at) && (e.Begin? ==> e.id != x)
  {
    hide Caps, InRange, MayStart, PartialIds;
  }

  lemma {:induction false} RestsThrough(s: State, events: seq<Event>, x: Id, at: int)
    requires Inv(s) && Runs(s, events) && Rests(s, x, at) && WithinInterval(s, events, x, at)
    ensures NeverSelects(events, x)
    decreases |events|
  {
    hide Inv, Rests;
    if events != [] {
      RestsOn(s, events[0], x, at);
      StepKeepsInv(s, events[0]);
      RestsThrough(Apply(s, events[0]), events[1..], x, at);
      assert events == [events[0]] + events[1..];
    }
  }

  /** Once the last fragment of a transfer was written, no run puts any of it on the wire again before
      the retry interval is over. */
  lemma NotResentEarly(s: State, now: int, events: seq<Event>, x: Id)
    requires Inv(s) && Enabled(s, Finish(now)) && x in s.pending && s.pending[x].inFlight
    requires s.pending[x].next + 1 == s.pending[x].Count()
    requires Runs(Apply(s, Finish(now)), events) && WithinInterval(Apply(s, Finish(now)), events, x, now)
    ensures NeverSelects(events, x)
  {
    var t := Apply(s, Finish(now));
    FinishKeepsInv(s, now);
    assert Rests(t, x, now);
    RestsThrough(t, events, x, now);
  }

  // Bounded waiting

  /** The priorities that went ahead of `c` since `c` was last served. */
  function Overtook(s: State, c: Priority): set<Priority>
    requires |s.turns| == 3
  {
    if s.flight.Some? && s.flight.value.priority == c then {} else
      set q | q in AllPriorities && q != c
           && (s.turns[Rank(c)] < s.turns[Rank(q)] || (s.flight.Some? && s.flight.value.priority == q))
  }

  /** How many selections may pass, counting the one that serves it, before `c` is served. */
  function Patience(s: State, c: Priority): nat
    requires |s.turns| == 3
    ensures 1 <= Patience(s, c) <= 9
  {
    Wait(|Overtook(s, c)|, s.turn)
  }

  /** With `overtook` of the other two priorities already served since. */
  function Wait(overtook: nat, turn: nat): (n: nat)
    ensures 1 <= n <= 9
  {
    var r := turn % 4;
    if overtook == 0 then (if r == 3 then 9 else 8 - r) else if overtook == 1 then 8 - r else 4 - r
  }

  lemma WaitDrops(before: nat, after: nat, turn: nat)
    requires before <= after <= before + 1 && 1 <= after <= 2
    requires Fair(turn) ==> before < after
    ensures Wait(after, turn + 1) < Wait(before, turn)
  {
  }

  lemma OvertookBound(s: State, c: Priority)
    requires |s.turns| == 3
    ensures |Overtook(s, c)| <= 2
  {
    CardinalitySubset(Overtook(s, c), AllPriorities - {c});
    assert |AllPriorities - {c}| == 2;
  }

  /** Only serving `c` forgets who overtook it. */
  lemma QuietStepKeepsOvertook(s: State, e: Event, c: Priority)
    requires Inv(s) && Enabled(s, e) && !e.Begin?
    ensures Overtook(Apply(s, e), c) == Overtook(s, c)
  {
    hide Caps, InRange, WellKeyed, FlightOk;
  }

  lemma OvertookGains(s: State, t: State, c: Priority, a: Priority)
    requires |s.turns| == 3 && t.turns == s.turns
    requires s.flight.None? && t.flight.Some? && t.flight.value.priority == a && a != c
    ensures Overtook(t, c) == Overtook(s, c) + {a}
  {
  }

  lemma PatienceDrops(s: State, t: State, c: Priority, a: Priority)
    requires |s.turns| == 3 && t.turns == s.turns && t.turn == s.turn + 1
    requires s.flight.None? && t.flight.Some? && t.flight.value.priority == a && a != c
    requires Fair(s.turn) ==> a !in Overtook(s, c)
    ensures Patience(t, c) < Patience(s, c)
  {
    hide Overtook, Fair;
    var before, after := Overtook(s, c), Overtook(t, c);
    OvertookGains(s, t, c, a);
    OvertookBound(t, c);
    if a in before {
      assert after == before;
    } else {
      CardinalityInsert(before, a);
    }
    assert 1 <= |after| by { CardinalitySubset({a}, after); }
    WaitDrops(|before|, |after|, s.turn);
  }

  /** A selection that passes over a due `c` brings the turn of `c` nearer. */
  lemma SkippedTurnUsesPatience(s: State, env: Env, id: Id, c: Priority, x: Id)
    requires Inv(s) && Enabled(s, Begin(env, id)) && s.pending[id].Priority() != c
    requires Due(s, env, x) && s.pending[x].Priority() == c
    ensures Patience(Apply(s, Begin(env, id)), c) < Patience(s, c)
  {
    var a := s.pending[id].Priority();
    assert !Before(s.turn, s.turns, s.pending[x], s.pending[id]);
    assert Fair(s.turn) ==> a !in Overtook(s, c);
    PatienceDrops(s, Apply(s, Begin(env, id)), c, a);
  }

  function Selections(events: seq<Event>): nat {
    if events == [] then 0 else (if events[0].Begin? then 1 else 0) + Selections(events[1..])
  }

  /** At every selection of the run some transfer of priority `c` is due, and none is served. */
  ghost predicate PassesOver(s: State, events: seq<Event>, c: Priority)
    requires Runs(s, events)
    decreases |events|
  {
    events == [] || (Passes(s, events[0], c) && PassesOver(Apply(s, events[0]), events[1..], c))
  }

  ghost predicate Passes(s: State, e: Event, c: Priority)
    requires |s.turns| == 3 && Enabled(s, e)
  {
    e.Begin? ==> s.pending[e.id].Priority() != c && exists x :: Due(s, e.env, x) && s.pending[x].Priority() == c
  }

  lemma PassingUsesPatience(s: State, e: Event, c: Priority)
    requires Inv(s) && Enabled(s, e) && Passes(s, e, c)
    ensures Patience(Apply(s, e), c) + (if e.Begin? then 1 else 0) <= Patience(s, c)
  {
    if e.Begin? {
      var x :| Due(s, e.env, x) && s.pending[x].Priority() == c;
      SkippedTurnUsesPatience(s, e.env, e.id, c, x);
    } else {
      QuietStepKeepsOvertook(s, e, c);
    }
  }

  lemma {:induction false} PatienceRunsOut(s: State, events: seq<Event>, c: Priority)
    requires Inv(s) && Runs(s, events) && PassesOver(s, events, c)
    ensures Selections(events) < Patience(s, c)
    decreases |events|
  {
    if events != [] {
      PassingUsesPatience(s, events[0], c);
      StepKeepsInv(s, events[0]);
      PatienceRunsOut(Apply(s, events[0]), events[1..], c);
    }
  }

  /** Bounded waiting of a priority: whatever else happens, nine consecutive selections
      cannot all pass over a priority that has a due transfer at each of them. */
  lemma PriorityServedWithinNine(s: State, events: seq<Event>, c: Priority)
    requires Inv(s) && Runs(s, events) && PassesOver(s, events, c)
    ensures Selections(events) <= 8
  {
    PatienceRunsOut(s, events, c);
  }

  // Bounded waiting of one transfer

  /** Transfers of the same priority that are served before `x`. */
  function Ahead(s: State, x: Id): set<Id>
    requires x in s.pending
  {
    set y | y in s.pending && y != x && !s.pending[y].inFlight
         && s.pending[y].Priority() == s.pending[x].Priority() && Earlier(s.pending[y], s.pending[x])
  }

  function Potential(s: State, x: Id): nat
    requires |s.turns| == 3 && x in s.pending
  {
    9 * |Ahead(s, x)| + Patience(s, s.pending[x].Priority())
  }

  /** `x` waits, and newcomers queue behind it. */
  predicate Settled(s: State, x: Id) {
    x in s.pending && !s.pending[x].inFlight && s.pending[x].scheduled < s.turn
  }

  /** The step neither serves nor removes `x`, and `x` was due if a selection was made. */
  ghost predicate Skips(s: State, e: Event, x: Id)
    requires |s.turns| == 3
  {
    match e
    case Begin(env, id) => Due(s, env, x) && id != x
    case Finish(_) => true
    case Drop(ids) => x !in ids
    case Insert(_) => true
  }

  /** A peer of the same priority was ahead, and is not any more. */
  lemma SkippedForPeer(s: State, env: Env, id: Id, x: Id)
    requires Inv(s) && Enabled(s, Begin(env, id)) && Skips(s, Begin(env, id), x)
    requires s.pending[id].Priority() == s.pending[x].Priority()
    ensures |Ahead(s, x)| == |Ahead(Apply(s, Begin(env, id)), x)| + 1
  {
    hide Caps, InRange, MayStart, Ready;
    DueIsQueued(s, env, x);
    ChoiceIsQueued(s, env, id);
    var t := Apply(s, Begin(env, id));
    assert !Before(s.turn, s.turns, s.pending[x], s.pending[id]);
    assert s.pending[x].value.sequence != s.pending[id].value.sequence;
    assert id in Ahead(s, x);
    assert Ahead(s, x) == Ahead(t, x) + {id};
    CardinalityInsert(Ahead(t, x), id);
  }

  /** A transfer of another priority was not ahead, and being served does not put it there. */
  lemma SkippedForOther(s: State, env: Env, id: Id, x: Id)
    requires Inv(s) && Enabled(s, Begin(env, id)) && x in s.pending
    requires s.pending[id].Priority() != s.pending[x].Priority()
    ensures Ahead(Apply(s, Begin(env, id)), x) == Ahead(s, x)
  {
    hide Caps, InRange, WellKeyed, FlightOk;
    assert id !in Ahead(s, x);
  }

  lemma SkippedSelection(s: State, env: Env, id: Id, x: Id)
    requires Inv(s) && Enabled(s, Begin(env, id)) && Skips(s, Begin(env, id), x)
    ensures var t := Apply(s, Begin(env, id)); Settled(t, x) && t.pending[x] == s.pending[x]
    ensures Potential(Apply(s, Begin(env, id)), x) < Potential(s, x)
  {
    hide Caps, MayStart, WellKeyed, Choice, Ahead, Patience;
    TurnsInRange(s);
    ChoiceIsQueued(s, env, id);
    var c := s.pending[x].Priority();
    if s.pending[id].Priority() == c {
      SkippedForPeer(s, env, id, x);
    } else {
      SkippedForOther(s, env, id, x);
      SkippedTurnUsesPatience(s, env, id, c, x);
    }
  }

  lemma QuietStepKeepsPotential(s: State, e: Event, x: Id)
    requires Inv(s) && Enabled(s, e) && !e.Begin? && Skips(s, e, x) && Settled(s, x)
    ensures Settled(Apply(s, e), x) && Apply(s, e).pending[x] == s.pending[x]
    ensures Potential(Apply(s, e), x) <= Potential(s, x)
  {
    hide Caps, InRange;
    var t := Apply(s, e);
    QuietStepKeepsOvertook(s, e, s.pending[x].Priority());
    CardinalitySubset(Ahead(t, x), Ahead(s, x));
  }

  ghost predicate SkipsThroughout(s: State, events: seq<Event>, x: Id)
    requires Runs(s, events)
    decreases |events|
  {
    events == [] || (Skips(s, events[0], x) && SkipsThroughout(Apply(s, events[0]), events[1..], x))
  }

  lemma {:induction false} PotentialRunsOut(s: State, events: seq<Event>, x: Id)
    requires Inv(s) && Runs(s, events) && SkipsThroughout(s, events, x) && Settled(s, x)
    ensures Selections(events) < Potential(s, x)
    decreases |events|
  {
    if events != [] {
      var e := events[0];
      if e.Begin? {
        SkippedSelection(s, e.env, e.id, x);
      } else {
        QuietStepKeepsPotential(s, e, x);
      }
      StepKeepsInv(s, e);
      PotentialRunsOut(Apply(s, e), events[1..], x);
    }
  }

  lemma PotentialBound(s: State, x: Id)
    requires Inv(s) && x in s.pending
    ensures Potential(s, x) <= 9 * MaxTransfers
  {
    CardinalitySubset(Ahead(s, x), s.pending.Keys - {x});
    assert |s.pending.Keys - {x}| == |s.pending.Keys| - 1;
  }

  /** Bounded waiting of a transfer: one that is due at every selection, and is not
      withdrawn, is served within any 577 consecutive selections. Arrivals never delay it. */
  lemma {:induction false} TransferServed(s: State, events: seq<Event>, x: Id)
    requires Inv(s) && Runs(s, events) && SkipsThroughout(s, events, x) && x in s.pending
    ensures Selections(events) <= 576
    decreases |events|
  {
    if events != [] {
      var e := events[0];
      var t := Apply(s, e);
      StepKeepsInv(s, e);
      if e.Begin? {
        SkippedSelection(s, e.env, e.id, x);
        PotentialRunsOut(t, events[1..], x);
        PotentialBound(t, x);
      } else {
        TransferServed(t, events[1..], x);
      }
    }
  }

  /** Each selection of the run serves another transfer, and bulk is not held back for power. */
  ghost predicate Starves(s: State, events: seq<Event>, x: Id)
    requires Runs(s, events)
    decreases |events|
  {
    events == [] ||
    (&& x in s.pending
     && (events[0].Begin? ==> events[0].id != x && !(events[0].env.lowPower && s.pending[x].Priority() == Bulk))
     && (events[0].Drop? ==> x !in events[0].ids)
     && Starves(Apply(s, events[0]), events[1..], x))
  }

  lemma StarvedStep(s: State, e: Event, x: Id)
    requires Inv(s) && Enabled(s, e) && x in s.pending && s.pending[x].Partial() && !s.pending[x].inFlight
    requires e.Begin? ==> e.id != x && !(e.env.lowPower && s.pending[x].Priority() == Bulk)
    requires e.Drop? ==> x !in e.ids
    ensures Skips(s, e, x)
    ensures x in Apply(s, e).pending && Apply(s, e).pending[x] == s.pending[x]
  {
    hide Caps, WellKeyed, InRange, MayStart;
  }

  lemma {:induction false} StarvedPartialIsSkipped(s: State, events: seq<Event>, x: Id)
    requires Inv(s) && Runs(s, events) && Starves(s, events, x)
    requires x in s.pending && s.pending[x].Partial() && !s.pending[x].inFlight
    ensures SkipsThroughout(s, events, x)
    decreases |events|
  {
    hide Inv, Skips, Due, Choice;
    if events != [] {
      StarvedStep(s, events[0], x);
      StepKeepsInv(s, events[0]);
      StarvedPartialIsSkipped(Apply(s, events[0]), events[1..], x);
    }
  }

  /** A transfer once started cannot starve: unless it is acknowledged, withdrawn or held
      back for power, its next fragment is on the wire within 577 selections. */
  lemma StartedTransferProgresses(s: State, events: seq<Event>, x: Id)
    requires Inv(s) && Runs(s, events) && Starves(s, events, x)
    requires x in s.pending && s.pending[x].Partial() && !s.pending[x].inFlight
    ensures Selections(events) <= 576
  {
    StarvedPartialIsSkipped(s, events, x);
    TransferServed(s, events, x);
  }
}

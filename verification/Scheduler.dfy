/** The three-priority fragment scheduler of a link, as a state machine.

    A step is one section of the source that holds the router mutex. `Begin` and
    `Finish` are the two halves of writing one data frame; the frame is on the
    wire between them, and anything else may happen meanwhile. */
module Scheduler {
  import opened Common
  import opened Packets

  /** One queued packet: `next` is the fragment to write next, `scheduled` the
      data turn that last served it. */
  datatype Transfer = Transfer(value: Retained, sent: int, attempts: nat, next: nat, scheduled: nat, inFlight: bool) {
    function Count(): nat {
      FragmentCount(value.encoded)
    }

    predicate Partial() {
      0 < next < Count()
    }

    /** Partly sent, or about to be once the frame on the wire is written. */
    predicate Occupied() {
      Partial() || (inFlight && next == 0 && 1 < Count())
    }

    function Priority(): Priority {
      value.Priority()
    }
  }

  /** The data frame being written. Its transfer may have left the queue since. */
  datatype Flight = Flight(id: Id, priority: Priority)

  datatype State = State(pending: map<Id, Transfer>, turn: nat, turns: seq<nat>, flight: Option<Flight>)

  datatype Env = Env(now: int, retry: int, lowPower: bool)

  const MaxPartialSOS := 7
  const MaxPartialRest := 6
  const MaxPartialEach := 5
  const AllPriorities := {SOS, Normal, Bulk}

  // Counting transfers

  function PartialIds(s: State, p: Priority): set<Id> {
    set id | id in s.pending && s.pending[id].Partial() && s.pending[id].Priority() == p
  }

  function OccupiedIds(s: State, p: Priority): set<Id> {
    set id | id in s.pending && s.pending[id].Occupied() && s.pending[id].Priority() == p
  }

  function PartialCount(s: State): nat {
    |PartialIds(s, SOS)| + |PartialIds(s, Normal)| + |PartialIds(s, Bulk)|
  }

  function OccupiedCount(s: State): nat {
    |OccupiedIds(s, SOS)| + |OccupiedIds(s, Normal)| + |OccupiedIds(s, Bulk)|
  }

  // Selection

  predicate Ready(s: State, env: Env, id: Id) {
    && id in s.pending
    && var t := s.pending[id];
       && !(env.lowPower && t.Priority() == Bulk)
       && (t.next < t.Count() || env.now - t.sent >= env.retry)
  }

  /** A priority that has work ready but nothing partly sent. */
  predicate Waiting(s: State, env: Env, p: Priority) {
    && |PartialIds(s, p)| == 0
    && exists id | id in s.pending :: Ready(s, env, id) && s.pending[id].Priority() == p
  }

  ghost function Reserved(s: State, env: Env, p: Priority): nat {
    |set q | q in AllPriorities && q != p && Waiting(s, env, q)|
  }

  /** Whether a transfer of priority `p` that is not partly sent may be started. */
  ghost predicate MayStart(s: State, env: Env, p: Priority) {
    && (if p == SOS then |PartialIds(s, SOS)| < MaxPartialSOS
        else |PartialIds(s, Normal)| + |PartialIds(s, Bulk)| < MaxPartialRest && |PartialIds(s, p)| < MaxPartialEach)
    && PartialCount(s) + Reserved(s, env, p) < MaxAssemblies
  }

  ghost predicate Due(s: State, env: Env, id: Id) {
    && Ready(s, env, id)
    && (s.pending[id].Partial() || MayStart(s, env, s.pending[id].Priority()))
  }

  predicate Fair(turn: nat) {
    (turn + 1) % 4 == 0
  }

  /** The order in which due transfers are served at the given turn. */
  predicate Before(turn: nat, turns: seq<nat>, a: Transfer, b: Transfer)
    requires |turns| == 3
  {
    var pa, pb := Rank(a.Priority()), Rank(b.Priority());
    if Fair(turn) && turns[pa] != turns[pb] then turns[pa] < turns[pb]
    else if !Fair(turn) && pa != pb then pa < pb
    else Earlier(a, b)
  }

  predicate Earlier(a: Transfer, b: Transfer) {
    a.scheduled < b.scheduled || (a.scheduled == b.scheduled && a.value.sequence < b.value.sequence)
  }

  /** `id` is a transfer the scheduler may pick: due, with no due transfer ahead of it. */
  ghost predicate Choice(s: State, env: Env, id: Id)
    requires |s.turns| == 3
  {
    && Due(s, env, id)
    && forall other :: Due(s, env, other) ==> !Before(s.turn, s.turns, s.pending[other], s.pending[id])
  }

  // Invariant

  /** Keys are packet ids and no two queued snapshots share an arrival number. */
  ghost predicate WellKeyed(pending: map<Id, Transfer>) {
    && (forall id :: id in pending ==> pending[id].value.Id() == id && 0 < |pending[id].value.encoded|)
    && (forall a, b :: a in pending && b in pending && a != b ==> pending[a].value.sequence != pending[b].value.sequence)
  }

  ghost predicate Caps(s: State) {
    && |OccupiedIds(s, SOS)| <= MaxPartialSOS
    && |OccupiedIds(s, Normal)| <= MaxPartialEach
    && |OccupiedIds(s, Bulk)| <= MaxPartialEach
    && |OccupiedIds(s, Normal)| + |OccupiedIds(s, Bulk)| <= MaxPartialRest
    && OccupiedCount(s) <= MaxAssemblies
  }

  /** Turns only grow; while a frame is on the wire its turn is newer than every finished one. */
  ghost predicate TurnsOk(s: State) {
    && |s.turns| == 3
    && (forall i :: 0 <= i < 3 ==> s.turns[i] <= s.turn)
    && (s.flight.Some? ==> forall i :: 0 <= i < 3 ==> s.turns[i] < s.turn)
  }

  ghost predicate InRange(s: State) {
    forall id :: id in s.pending ==> s.pending[id].next <= s.pending[id].Count() && s.pending[id].scheduled <= s.turn
  }

  /** Only the transfer on the wire is marked so, and it has a fragment to write. */
  ghost predicate FlightOk(s: State) {
    forall id :: id in s.pending && s.pending[id].inFlight ==>
      s.flight == Some(Flight(id, s.pending[id].Priority())) && s.pending[id].next < s.pending[id].Count()
  }

  ghost predicate Inv(s: State) {
    |s.pending| <= MaxTransfers && TurnsOk(s) && WellKeyed(s.pending) && InRange(s) && FlightOk(s) && Caps(s)
  }

  // Steps

  datatype Event =
    | Begin(env: Env, id: Id)     // select a transfer and put its next fragment on the wire
    | Finish(now: int)            // the frame was written
    | Drop(ids: set<Id>)          // acknowledged, expired, cancelled or evicted
    | Insert(value: Retained)     // a new transfer is queued

  function Restarted(t: Transfer): Transfer {
    if t.next >= t.Count() then t.(next := 0) else t
  }

  function Begun(t: Transfer): Transfer {
    var u := Restarted(t);
    u.(attempts := if u.next == 0 then u.attempts + 1 else u.attempts, inFlight := true)
  }

  function Finished(t: Transfer, turn: nat, now: int): Transfer {
    t.(inFlight := false, next := t.next + 1, scheduled := turn,
       sent := if t.next + 1 == t.Count() then now else t.sent)
  }

  ghost predicate Enabled(s: State, e: Event)
    requires |s.turns| == 3
  {
    match e
    case Begin(env, id) => s.flight.None? && Choice(s, env, id)
    case Finish(now) => s.flight.Some?
    case Drop(ids) => true
    case Insert(value) =>
      && value.Id() !in s.pending && |s.pending| < MaxTransfers && 0 < |value.encoded|
      && forall id :: id in s.pending ==> s.pending[id].value.sequence != value.sequence
  }

  ghost function Apply(s: State, e: Event): State
    requires |s.turns| == 3 && Enabled(s, e)
  {
    match e
    case Begin(env, id) =>
      s.(turn := s.turn + 1,
         pending := s.pending[id := Begun(s.pending[id])],
         flight := Some(Flight(id, s.pending[id].Priority())))
    case Finish(now) =>
      var f := s.flight.value;
      s.(flight := None,
         turns := s.turns[Rank(f.priority) := s.turn],
         pending := if f.id in s.pending && s.pending[f.id].inFlight
                    then s.pending[f.id := Finished(s.pending[f.id], s.turn, now)] else s.pending)
    case Drop(ids) =>
      s.(pending := s.pending - ids)
    case Insert(value) =>
      s.(pending := s.pending[value.Id() := Transfer(value, 0, 0, 0, s.turn, false)])
  }

  /** A run: every event is enabled where it happens. */
  ghost predicate Runs(s: State, events: seq<Event>)
    decreases |events|
  {
    |s.turns| == 3 && (events == [] || (Enabled(s, events[0]) && Runs(Apply(s, events[0]), events[1..])))
  }

  ghost function After(s: State, events: seq<Event>): State
    requires Runs(s, events)
    decreases |events|
  {
    if events == [] then s else After(Apply(s, events[0]), events[1..])
  }
}

/** A link of the router: its outgoing queue, its control queue and its reassembly table. */
module Links {
  import opened Common
  import opened Packets
  import opened Scheduler
  import SP = SchedulerProofs
  import opened LinkQueue
  import R = Reassembly

  const MaxControl := 64
  const MaxACKsPerSecond := 64
  const Second := 1000

  datatype Frame = Ack(id: Id) | Data(part: R.Part)

  datatype Arrival = Closed | Duplicate | Taken(outcome: R.Outcome)

  /** A number for each priority. */
  datatype Counts = Counts(sos: nat, normal: nat, bulk: nat) {
    function Of(p: Priority): nat {
      match p
      case SOS => sos
      case Normal => normal
      case Bulk => bulk
    }

    function Bump(p: Priority): Counts {
      match p
      case SOS => this.(sos := sos + 1)
      case Normal => this.(normal := normal + 1)
      case Bulk => this.(bulk := bulk + 1)
    }
  }

  function Expired(pending: map<Id, Transfer>, now: int): set<Id> {
    set id | id in pending && pending[id].value.Expires() <= now
  }

  /** The control queue after an acknowledgement was asked for: one a second for each packet, and never more than fit. */
  function Answered(controls: seq<Id>, acknowledged: map<Id, int>, id: Id, now: int): seq<Id> {
    if id in controls || (id in acknowledged && now - acknowledged[id] < Second) || |controls| >= MaxControl then controls
    else controls + [id]
  }

  /** The queue grows exactly when no acknowledgement of the packet is queued, none was sent within
      the last second, and fewer than 64 wait. */
  lemma AnsweredExactly(controls: seq<Id>, marks: map<Id, int>, id: Id, now: int)
    ensures var after := Answered(controls, marks, id, now);
      && controls <= after
      && (forall k :: k in after <==> (k in controls || (k == id && |controls| < 64 && (id in marks ==> now >= marks[id] + 1000))))
      && (|after| == |controls| || (|after| == |controls| + 1 && id !in controls))
  {
  }

  /** Marks older than a second make no difference to it. */
  lemma AnsweredPruned(controls: seq<Id>, marks: map<Id, int>, kept: map<Id, int>, id: Id, now: int)
    requires kept == map k | k in marks && now - marks[k] < Second :: marks[k]
    ensures Answered(controls, kept, id, now) == Answered(controls, marks, id, now)
  {
  }

  ghost predicate NoDuplicates(s: seq<Id>) {
    forall i, j :: 0 <= i < j < |s| ==> s[i] != s[j]
  }

  lemma TableParts(t: R.Table)
    requires R.Inv(t)
    ensures forall id :: id in t ==> R.Sound(t[id]) && t[id].bytes <= MaxPacketBytes
  {
    hide R.Sound, R.TableBytes;
  }

  /** What putting the next fragment of the chosen transfer on the wire does to the queue. */
  lemma Started(s: State, env: Env, id: Id)
    requires Inv(s) && WithinBudget(s.pending) && s.flight.None? && Choice(s, env, id)
    ensures |s.turns| == 3 && Enabled(s, Begin(env, id)) && id in s.pending
    ensures Begun(s.pending[id]).next < Begun(s.pending[id]).Count() && Begun(s.pending[id]).value == s.pending[id].value
    ensures var t := Apply(s, Begin(env, id));
      && t == State(s.pending[id := Begun(s.pending[id])], s.turn + 1, s.turns, Some(Flight(id, Begun(s.pending[id]).Priority())))
      && Inv(t) && WithinBudget(t.pending) && Bytes(t.pending) == Bytes(s.pending)
  {
    hide Bytes, WithinBudget, Inv, Choice, Begun;
    SP.InvParts(s);
    SP.ChoiceIsQueued(s, env, id);
    SP.BeginKeepsInv(s, env, id);
    SP.BegunInRange(s.pending[id]);
    BegunSame(s.pending[id]);
    ReplaceKeepsBudget(s.pending, id, Begun(s.pending[id]));
  }

  /** The fragment put on the wire is the next one, or the first one again, and only the first starts another attempt. */
  lemma BegunMeans(t: Transfer)
    requires 0 < |t.value.encoded|
    ensures Begun(t).next == if 2048 * t.next < |t.value.encoded| then t.next else 0
    ensures Begun(t).attempts == t.attempts + (if Begun(t).next == 0 then 1 else 0)
  {
  }

  lemma BegunSame(t: Transfer)
    ensures Begun(t).value == t.value
  {
  }

  class Link {
    var active: bool
    var pending: map<Id, Transfer>
    var pendingBytes: nat
    var turn: nat
    var priorityTurns: seq<nat>
    var flight: Option<Flight>
    var assemblies: R.Table
    var assemblyBytes: nat
    var controls: seq<Id>
    var controlSet: set<Id>
    var controlTurn: bool
    var acknowledged: map<Id, int>
    var ackWindow: int
    var acksWindow: nat
    var dropped: nat

    function View(): State
      reads `pending, `turn, `priorityTurns, `flight
    {
      State(pending, turn, priorityTurns, flight)
    }

    ghost predicate ValidControls()
      reads `controls, `controlSet, `acksWindow
    {
      && NoDuplicates(controls) && |controls| <= MaxControl && acksWindow <= MaxACKsPerSecond
      && (forall id :: id in controls <==> id in controlSet)
    }

    ghost predicate ValidQueue()
      reads `pending, `turn, `priorityTurns, `flight, `pendingBytes
    {
      Inv(View()) && WithinBudget(pending) && pendingBytes == Bytes(pending)
    }

    ghost predicate ValidTable()
      reads `assemblies, `assemblyBytes
    {
      R.Inv(assemblies) && assemblyBytes == R.TableBytes(assemblies)
    }

    ghost predicate Valid()
      reads this
    {
      ValidQueue() && ValidTable() && ValidControls()
    }

    lemma SnapshotsKeyed()
      requires ValidQueue()
      ensures forall id :: id in pending ==> pending[id].value.Id() == id && 0 < |pending[id].value.encoded|
    {
      SP.InvParts(View());
    }

    constructor (now: int)
      ensures Valid() && active && pending == map[] && assemblies == map[] && controls == [] && turn == 0
    {
      active, pending, pendingBytes, turn, priorityTurns, flight := true, map[], 0, 0, [0, 0, 0], None;
      assemblies, assemblyBytes, controls, controlSet, controlTurn := map[], 0, [], {}, true;
      acknowledged, ackWindow, acksWindow, dropped := map[], now, 0, 0;
      new;
      EmptyQueue(View());
    }

    /** Everything queued, half received or waiting to be acknowledged is forgotten. */
    method Close()
      requires Valid()
      modifies this
      ensures Valid() && !active && pending == map[] && assemblies == map[] && controls == [] && acknowledged == map[]
    {
      hide Inv, WithinBudget, Bytes, R.Inv, R.TableBytes;
      SP.TurnsInRange(View());
      active, pending, pendingBytes, flight := false, map[], 0, None;
      assemblies, assemblyBytes, controls, controlSet, acknowledged := map[], 0, [], {}, map[];
      EmptyQueue(View());
    }

    // The queue

    /** Takes a transfer out of the queue; not an error if it is not there. */
    method RemoveTransfer(id: Id)
      requires ValidQueue()
      modifies `pending, `pendingBytes
      ensures ValidQueue() && pending == old(pending) - {id}
    {
      hide Inv, WithinBudget, Bytes;
      ghost var before := View();
      if id in pending {
        BytesRemove(pending, id);
        pendingBytes := pendingBytes - |pending[id].value.encoded|;
        pending := pending - {id};
      } else {
        assert pending - {id} == pending;
      }
      Withdrawn(before, {id});
    }

    /** An acknowledgement arrives: the packet leaves the queue. */
    method TakeAck(id: Id)
      requires Valid()
      modifies `pending, `pendingBytes
      ensures Valid() && pending == old(pending) - {id}
    {
      hide Valid, ValidQueue, ValidTable, ValidControls, Inv, View;
      Parts();
      RemoveTransfer(id);
      Parts();
    }

    /** Drops packets past their deadline, half-received packets past theirs, and old acknowledgement marks. */
    method Maintain(now: int)
      requires Valid()
      modifies `pending, `pendingBytes, `assemblies, `assemblyBytes, `acknowledged, `ackWindow, `acksWindow
      ensures Valid()
      ensures pending == old(pending) - Expired(old(pending), now)
      ensures forall id :: id in pending <==> id in old(pending) && now < old(pending)[id].value.packet.body.expires
      ensures assemblies == old(assemblies) - R.Stale(old(assemblies), now)
      ensures acknowledged == map id | id in old(acknowledged) && now - old(acknowledged)[id] < 1000 :: old(acknowledged)[id]
      ensures if now - old(ackWindow) >= 1000 then ackWindow == now && acksWindow == 0 else ackWindow == old(ackWindow) && acksWindow == old(acksWindow)
    {
      hide Inv, WithinBudget, Bytes, R.Inv, R.TableBytes, NoDuplicates, ValidQueue, ValidTable;
      ExpireTransfers(now);
      ExpireAssemblies(now);
      acknowledged := map id | id in acknowledged && now - acknowledged[id] < Second :: acknowledged[id];
      if now - ackWindow >= Second {
        ackWindow := now;
        acksWindow := 0;
      }
    }

    method ExpireTransfers(now: int)
      requires ValidQueue()
      modifies `pending, `pendingBytes
      ensures ValidQueue() && pending == old(pending) - Expired(old(pending), now)
    {
      hide Inv, WithinBudget, Bytes;
      var todo := pending.Keys;
      while todo != {}
        invariant ValidQueue()
        invariant todo <= pending.Keys
        invariant forall id :: id in pending ==> id in old(pending) && pending[id] == old(pending)[id]
        invariant forall id :: id in old(pending) ==> (id in pending <==> id in todo || id !in Expired(old(pending), now))
        decreases |todo|
      {
        var id :| id in todo;
        todo := todo - {id};
        if pending[id].value.Expires() <= now {
          RemoveTransfer(id);
        }
      }
    }

    /** The expendable transfer that goes first, if any. */
    method FindVictim(p: Priority) returns (victim: Option<Id>)
      requires ValidQueue()
      ensures victim.None? ==> Expendables(pending, p) == {}
      ensures victim.Some? ==> IsVictim(pending, p, victim.value)
    {
      hide Bytes, WithinBudget, Caps, InRange, FlightOk, TurnsOk;
      victim := None;
      var todo := pending.Keys;
      while todo != {}
        invariant todo <= pending.Keys
        invariant victim.None? ==> Expendables(pending, p) <= todo
        invariant victim.Some? ==> victim.value in Expendables(pending, p)
        invariant victim.Some? ==> forall id :: id in Expendables(pending, p) && id !in todo && id != victim.value ==>
                    ShedBefore(pending[victim.value], pending[id])
        decreases |todo|
      {
        var id :| id in todo;
        todo := todo - {id};
        if Expendable(pending[id], p) && (victim.None? || ShedBefore(pending[id], pending[victim.value])) {
          victim := Some(id);
        }
      }
    }

    /** Sheds expendable transfers until the packet fits or nothing expendable is left. */
    method Shed(value: Retained) returns (fits: bool)
      requires ValidQueue()
      modifies `pending, `pendingBytes, `dropped
      ensures ValidQueue() && WellKeyed(old(pending))
      ensures pending == LinkQueue.Shed(old(pending), value) && fits == Fits(pending, value)
      ensures dropped == old(dropped) + |old(pending)| - |pending|
    {
      hide Bytes, WithinBudget, Inv, WellKeyed, LinkQueue.Shed, IsVictim, Expendables;
      SP.InvParts(View());
      ghost var goal := LinkQueue.Shed(pending, value);
      while |pending| >= SlotLimit(value.Priority()) || pendingBytes + |value.encoded| > ByteLimit(value.Priority())
        invariant ValidQueue() && WellKeyed(pending)
        invariant LinkQueue.Shed(pending, value) == goal
        invariant dropped == old(dropped) + |old(pending)| - |pending|
        decreases |pending|
      {
        var victim := FindVictim(value.Priority());
        if victim.None? {
          ShedDone(pending, value);
          return false;
        }
        ShedStep(pending, value, victim.value);
        RemoveTransfer(victim.value);
        dropped := dropped + 1;
      }
      ShedDone(pending, value);
      return true;
    }

    /** Queues a packet, shedding expendable traffic to make room for it. A packet that does not
        fit even then is refused; what was shed for it stays shed. */
    method Enqueue(value: Retained, now: int) returns (ok: bool)
      requires ValidQueue() && 0 < |value.encoded|
      requires forall id :: id in pending && id != value.Id() ==> pending[id].value.sequence != value.sequence
      modifies `pending, `pendingBytes, `dropped
      ensures ValidQueue() && WellKeyed(old(pending))
      ensures pending == Offered(active, old(pending), turn, value, now)
      ensures ok <==> value.Id() in pending && value.Id() !in old(pending)
      ensures dropped == old(dropped) +
        (if !active || value.Id() in old(pending) || value.Expires() <= now then 0
         else |old(pending)| - |LinkQueue.Shed(old(pending), value)| + (if ok then 0 else 1))
    {
      hide Bytes, WithinBudget, Inv, WellKeyed, LinkQueue.Shed, Fits;
      SP.InvParts(View());
      if !active || value.Id() in pending || value.Expires() <= now {
        return false;
      }
      ShedIsSubmap(pending, value);
      var fits := Shed(value);
      if !fits {
        dropped := dropped + 1;
        return false;
      }
      Queued(View(), value);
      pendingBytes := pendingBytes + |value.encoded|;
      pending := pending[value.Id() := Transfer(value, 0, 0, 0, turn, false)];
      return true;
    }

    /** One pass over the queue: how many transfers of each priority are partly sent, and which are ready. */
    method Survey(env: Env) returns (counts: Counts, ready: seq<Id>)
      requires ValidQueue()
      ensures Tally(View(), counts)
      ensures forall id :: id in ready <==> Ready(View(), env, id)
    {
      hide Inv, Bytes, WithinBudget, PartialAmong;
      counts := Counts(0, 0, 0);
      ready := [];
      var todo := pending.Keys;
      ghost var seen: set<Id> := {};
      PartialAmongEnds(View());
      while todo != {}
        invariant todo <= pending.Keys && seen == pending.Keys - todo
        invariant TallyAmong(View(), counts, seen)
        invariant forall id :: id in ready <==> id !in todo && Ready(View(), env, id)
        decreases |todo|
      {
        var id :| id in todo;
        var t := pending[id];
        TallyGrows(View(), counts, seen, id);
        todo, seen := todo - {id}, seen + {id};
        if t.Partial() {
          counts := counts.Bump(t.Priority());
        }
        if !(env.lowPower && t.Priority() == Bulk) && (t.next < t.Count() || env.now - t.sent >= env.retry) {
          ready := ready + [id];
        }
      }
      assert seen == pending.Keys;
    }

    lemma ReadyAreQueued(env: Env, ready: seq<Id>)
      requires forall id :: id in ready <==> Ready(View(), env, id)
      ensures forall j :: 0 <= j < |ready| ==> ready[j] in ready && ready[j] in pending
    {
      forall j | 0 <= j < |ready| ensures ready[j] in ready && ready[j] in pending {
        assert ready[j] in ready;
        assert Ready(View(), env, ready[j]);
      }
    }

    /** The priorities with a ready transfer and none partly sent. */
    method WaitingPriorities(env: Env, counts: Counts, ready: seq<Id>) returns (waiting: set<Priority>)
      requires Tally(View(), counts) && forall id :: id in ready <==> Ready(View(), env, id)
      ensures waiting == set q | q in AllPriorities && Waiting(View(), env, q)
    {
      hide PartialIds;
      waiting := {};
      ReadyAreQueued(env, ready);
      var i := 0;
      while i < |ready|
        invariant 0 <= i <= |ready|
        invariant forall q :: q in waiting <==> counts.Of(q) == 0 && exists j | 0 <= j < i :: pending[ready[j]].Priority() == q
      {
        if counts.Of(pending[ready[i]].Priority()) == 0 {
          waiting := waiting + {pending[ready[i]].Priority()};
        }
        i := i + 1;
      }
      forall q ensures q in waiting <==> Waiting(View(), env, q) {
        if Waiting(View(), env, q) {
          var id :| id in pending && Ready(View(), env, id) && pending[id].Priority() == q;
          assert id in ready;
        }
      }
    }

    /** The ready transfers that may be served now: those partly sent, and those the caps let start. */
    method DueTransfers(env: Env, counts: Counts, ready: seq<Id>, waiting: set<Priority>) returns (due: seq<Id>)
      requires Tally(View(), counts) && forall id :: id in ready <==> Ready(View(), env, id)
      requires waiting == set q | q in AllPriorities && Waiting(View(), env, q)
      ensures forall id :: id in due <==> Due(View(), env, id)
    {
      hide PartialIds, Waiting, Reserved;
      due := [];
      ReadyAreQueued(env, ready);
      var i := 0;
      while i < |ready|
        invariant 0 <= i <= |ready|
        invariant forall id :: id in due <==> id in ready[..i] && Due(View(), env, id)
      {
        var t := pending[ready[i]];
        var p := t.Priority();
        ReservedIs(View(), env, p, waiting);
        var reserved := if p in waiting then |waiting| - 1 else |waiting|;
        var capped := if p == SOS then counts.sos >= MaxPartialSOS
                      else counts.normal + counts.bulk >= MaxPartialRest || counts.Of(p) >= MaxPartialEach;
        if t.Partial() || (!capped && counts.sos + counts.normal + counts.bulk < MaxAssemblies - reserved) {
          due := due + [ready[i]];
        }
        i := i + 1;
      }
      assert ready[..i] == ready;
    }

    /** The transfer that sorting would put first. */
    method First(due: seq<Id>) returns (best: Id)
      requires |priorityTurns| == 3 && due != [] && forall id :: id in due ==> id in pending
      ensures best in due && forall id :: id in due ==> !Before(turn, priorityTurns, pending[id], pending[best])
    {
      hide Before;
      SP.BeforeIsOrder(turn, priorityTurns);
      best := due[0];
      var i := 1;
      while i < |due|
        invariant 1 <= i <= |due| && best in due
        invariant forall id :: id in due[..i] ==> !Before(turn, priorityTurns, pending[id], pending[best])
      {
        if Before(turn, priorityTurns, pending[due[i]], pending[best]) {
          best := due[i];
        }
        i := i + 1;
      }
      assert due[..i] == due;
    }

    /** Picks the transfer whose next fragment is written, or nothing when no transfer is ready. */
    method Select(env: Env) returns (choice: Option<Id>)
      requires ValidQueue()
      ensures choice.Some? ==> Choice(View(), env, choice.value)
      ensures choice.None? ==> forall id :: !SP.Sendable(View(), env, id)
      ensures choice.Some? ==> |priorityTurns| == 3 && SP.Sendable(View(), env, choice.value) && forall other :: Due(View(), env, other) ==>
        other in pending && SP.GoesFirst(View(), choice.value, other)
    {
      hide Bytes, WithinBudget, Inv, Ready, Due, Before, Waiting, Tally, SP.Sendable, SP.GoesFirst;
      SP.InvParts(View());
      var counts, ready := Survey(env);
      var waiting := WaitingPriorities(env, counts, ready);
      var due := DueTransfers(env, counts, ready, waiting);
      SP.DueAreQueued(View(), env);
      SP.ReadyIsSendable(View(), env);
      if due == [] {
        SP.NothingDue(View(), env);
        return None;
      }
      var best := First(due);
      SP.ChoiceGoesFirst(View(), env, best);
      SP.DueIsReady(View(), env, best);
      return Some(best);
    }

    lemma Parts()
      ensures Valid() <==> ValidQueue() && ValidTable() && ValidControls()
      ensures ValidQueue() ==> |priorityTurns| == 3 && Inv(View())
      ensures ValidControls() ==> acksWindow <= MaxACKsPerSecond
    {
      hide Bytes, WithinBudget, R.Inv, R.TableBytes, NoDuplicates;
    }

    /** Counts the acknowledgement at the head of the control queue as sent. */
    method TakeControl(now: int)
      requires ValidControls() && controls != [] && acksWindow < MaxACKsPerSecond
      modifies `acknowledged, `acksWindow
      ensures ValidControls() && acksWindow == old(acksWindow) + 1 && acknowledged == old(acknowledged)[controls[0] := now]
    {
      acksWindow := acksWindow + 1;
      acknowledged := acknowledged[controls[0] := now];
    }

    /** The first half of a turn of the writer: what to put on the wire, if anything. */
    method NextFrame(env: Env) returns (frame: Option<Frame>)
      requires Valid() && active && flight.None?
      modifies `pending, `pendingBytes, `assemblies, `assemblyBytes, `acknowledged, `ackWindow, `acksWindow, `turn, `flight
      ensures Valid()
      ensures var live := State(old(pending) - Expired(old(pending), env.now), old(turn), priorityTurns, None);
        match frame
        case None => View() == live && (forall id :: !SP.Sendable(live, env, id)) && (controls == [] || acksWindow == 64)
        case Some(Ack(id)) => View() == live && controls != [] && id == controls[0] && (controlTurn || forall id :: !SP.Sendable(live, env, id))
        case Some(Data(part)) =>
          && Enabled(live, Begin(env, part.id)) && View() == Apply(live, Begin(env, part.id))
          && part == R.PartOf(part.id, pending[part.id].value.encoded, pending[part.id].next)
          && (controlTurn ==> controls == [] || acksWindow == 64)
      ensures forall id :: id in pending ==> id in old(pending) && pending[id].value == old(pending)[id].value
    {
      hide Bytes, WithinBudget, Inv, Choice, SP.Sendable, R.Inv, R.TableBytes, NoDuplicates, Expired, R.Stale, Apply;
      hide Valid, ValidQueue, ValidTable, ValidControls;
      Parts();
      Maintain(env.now);
      Parts();
      ghost var live := View();
      var choice := Select(env);
      if acksWindow < MaxACKsPerSecond && controls != [] && (controlTurn || choice.None?) {
        TakeControl(env.now);
        assert View() == live;
        Parts();
        return Some(Ack(controls[0]));
      }
      if choice.None? {
        return None;
      }
      assert controlTurn ==> controls == [] || acksWindow == MaxACKsPerSecond;
      var part := StartFrame(env, choice.value);
      Parts();
      return Some(Data(part));
    }

    /** Marks the chosen transfer as being on the wire and cuts its next fragment. */
    method StartFrame(env: Env, id: Id) returns (part: R.Part)
      requires ValidQueue() && flight.None? && Choice(View(), env, id)
      modifies `pending, `turn, `flight
      ensures ValidQueue() && View() == Apply(old(View()), Begin(env, id)) && id in pending
      ensures pending[id].next < pending[id].Count() && part == R.PartOf(id, pending[id].value.encoded, pending[id].next)
      ensures id in old(pending) && part.index == (if 2048 * old(pending)[id].next < |old(pending)[id].value.encoded| then old(pending)[id].next else 0)
      ensures pending[id].attempts == old(pending)[id].attempts + (if part.index == 0 then 1 else 0)
      ensures forall k :: k in pending ==> k in old(pending) && pending[k].value == old(pending)[k].value
    {
      hide Bytes, WithinBudget, Inv, Choice, Begun, R.Fragment, Apply, Enabled;
      SP.TurnsInRange(View());
      SnapshotsKeyed();
      SP.ChoiceIsQueued(View(), env, id);
      Started(View(), env, id);
      BegunMeans(pending[id]);
      turn := turn + 1;
      pending := pending[id := Begun(pending[id])];
      flight := Some(Flight(id, pending[id].Priority()));
      return R.PartOf(id, pending[id].value.encoded, pending[id].next);
    }

    /** The second half: the frame was written. */
    method FinishFrame(frame: Frame, now: int)
      requires Valid() && (frame.Data? <==> flight.Some?)
      modifies `pending, `turn, `priorityTurns, `flight, `controls, `controlSet, `controlTurn
      ensures Valid()
      ensures frame.Data? ==> View() == Apply(old(View()), Finish(now)) && controlTurn && controls == old(controls)
      ensures frame.Ack? ==> View() == old(View()) && !controlTurn
      ensures pending.Keys == old(pending).Keys && forall id :: id in pending ==> pending[id].value == old(pending)[id].value
      ensures frame.Ack? ==> controls == (if old(controls) != [] && old(controls)[0] == frame.id then old(controls)[1..] else old(controls))
    {
      hide Bytes, WithinBudget, Inv, R.Inv, R.TableBytes;
      if frame.Ack? {
        if controls != [] && controls[0] == frame.id {
          controlSet := controlSet - {frame.id};
          controls := controls[1..];
        }
        controlTurn := false;
      } else {
        SP.TurnsInRange(View());
        SP.FinishKeepsInv(View(), now);
        var f := flight.value;
        ghost var after := Apply(View(), Finish(now));
        if f.id in pending && pending[f.id].inFlight {
          ReplaceKeepsBudget(pending, f.id, Finished(pending[f.id], turn, now));
          pending := pending[f.id := Finished(pending[f.id], turn, now)];
        }
        priorityTurns := priorityTurns[Rank(f.priority) := turn];
        flight := None;
        controlTurn := true;
        assert View() == after;
      }
    }

    /** Queues an acknowledgement, unless one for the packet is queued or was sent within the last second. */
    method Acknowledge(id: Id, now: int)
      requires ValidControls()
      modifies `controls, `controlSet, `dropped
      ensures ValidControls()
      ensures controls == Answered(old(controls), acknowledged, id, now)
      ensures dropped == old(dropped) +
        if id !in old(controls) && (id in acknowledged ==> now - acknowledged[id] >= 1000) && |old(controls)| >= 64 then 1 else 0
    {
      if id in controlSet || (id in acknowledged && now - acknowledged[id] < Second) {
        return;
      }
      if |controls| >= MaxControl {
        dropped := dropped + 1;
        return;
      }
      controls := controls + [id];
      controlSet := controlSet + {id};
    }

    /** Acknowledges a packet that has just been taken. */
    method Answer(id: Id, now: int)
      requires Valid()
      modifies `controls, `controlSet, `dropped
      ensures Valid() && controls == Answered(old(controls), acknowledged, id, now)
    {
      hide Valid, ValidQueue, ValidTable, ValidControls, Answered;
      Parts();
      Acknowledge(id, now);
      Parts();
    }

    /** A fragment arrives. `seen` says whether the router remembers having delivered the packet. */
    method ReceivePart(part: R.Part, now: int, seen: bool) returns (arrival: Arrival)
      requires Valid()
      modifies `pending, `pendingBytes, `assemblies, `assemblyBytes, `acknowledged, `ackWindow, `acksWindow, `controls, `controlSet, `dropped
      ensures Valid()
      ensures var live := old(assemblies) - R.Stale(old(assemblies), now);
        if !R.WellFormed(part) then arrival == Taken(R.Malformed) && assemblies == old(assemblies)
        else if !active then arrival == Closed && assemblies == old(assemblies)
        else if seen then arrival == Duplicate && assemblies == live
        else arrival == Taken(R.Receive(live, part, now).1) && assemblies == R.Receive(live, part, now).0
      ensures pending == if R.WellFormed(part) && active then old(pending) - Expired(old(pending), now) else old(pending)
      ensures controls == if arrival.Duplicate? then Answered(old(controls), old(acknowledged), part.id, now) else old(controls)
    {
      hide R.WellFormed, R.Receive, R.Stale, Expired, Answered, Valid, ValidQueue, ValidTable, ValidControls;
      if !R.WellFormed(part) {
        return Taken(R.Malformed);
      }
      if !active {
        return Closed;
      }
      if seen {
        AnswerAgain(part.id, now);
        return Duplicate;
      }
      Maintain(now);
      var outcome := Assemble(part, now);
      return Taken(outcome);
    }

    /** A fragment of a packet already had: only the acknowledgement is repeated. */
    method AnswerAgain(id: Id, now: int)
      requires Valid()
      modifies `pending, `pendingBytes, `assemblies, `assemblyBytes, `acknowledged, `ackWindow, `acksWindow, `controls, `controlSet, `dropped
      ensures Valid() && pending == old(pending) - Expired(old(pending), now)
      ensures assemblies == old(assemblies) - R.Stale(old(assemblies), now)
      ensures controls == Answered(old(controls), old(acknowledged), id, now)
    {
      hide R.Stale, Expired, Answered, Valid, ValidQueue, ValidTable, ValidControls;
      Maintain(now);
      AnsweredPruned(controls, old(acknowledged), acknowledged, id, now);
      Parts();
      Acknowledge(id, now);
      Parts();
    }

    method Assemble(part: R.Part, now: int) returns (outcome: R.Outcome)
      requires Valid() && R.WellFormed(part)
      modifies `assemblies, `assemblyBytes
      ensures Valid() && (assemblies, outcome) == R.Receive(old(assemblies), part, now)
    {
      hide R.WellFormed, R.Receive, Valid, ValidQueue, ValidTable, ValidControls;
      Parts();
      outcome := AddPart(part, now);
      Parts();
    }

    method RemoveAssembly(id: Id)
      requires ValidTable()
      modifies `assemblies, `assemblyBytes
      ensures ValidTable() && assemblies == old(assemblies) - {id}
    {
      hide R.Inv, R.TableBytes;
      R.DiscardKeepsInv(assemblies, id);
      if id in assemblies {
        R.TableRemove(assemblies, id);
        assemblyBytes := assemblyBytes - assemblies[id].bytes;
        assemblies := assemblies - {id};
      } else {
        assert assemblies - {id} == assemblies;
      }
    }

    method AddPart(part: R.Part, now: int) returns (outcome: R.Outcome)
      requires ValidTable() && R.WellFormed(part)
      modifies `assemblies, `assemblyBytes
      ensures ValidTable()
      ensures (assemblies, outcome) == R.Receive(old(assemblies), part, now)
    {
      hide R.TableBytes, R.WellFormed, R.Inv, R.Sound, R.Concat;
      TableParts(assemblies);
      R.ReceiveKeepsInv(assemblies, part, now);
      if part.id !in assemblies && |assemblies| >= MaxAssemblies {
        return R.Refused;
      }
      var a := R.Opened(assemblies, part, now);
      if part.count != a.count || (part.index in a.parts && a.parts[part.index] != part.data) {
        RemoveAssembly(part.id);
        return R.Changed;
      }
      if part.index !in a.parts && (a.bytes + |part.data| > MaxPacketBytes || assemblyBytes + |part.data| > MaxPendingBytes) {
        RemoveAssembly(part.id);
        return R.Refused;
      }
      var b := R.Added(a, part, now);
      R.OpenedIsSound(assemblies, part, now);
      R.WellFormedIndex(part);
      R.AddedIsSound(a, part, now);
      R.PartCountIsFull(b);
      if |b.parts| != b.count {
        R.TablePut(assemblies, part.id, b);
        assemblyBytes := assemblyBytes - (if part.id in assemblies then a.bytes else 0) + b.bytes;
        assemblies := assemblies[part.id := b];
        return R.Incomplete;
      }
      RemoveAssembly(part.id);
      var encoded := Join(b);
      return R.Complete(encoded);
    }

    method Join(a: R.Assembly) returns (encoded: seq<Byte>)
      requires R.Full(a)
      ensures encoded == R.Concat(a.parts, a.count)
    {
      encoded := [];
      var index := 0;
      while index < a.count
        invariant 0 <= index <= a.count && encoded == R.Concat(a.parts, index)
      {
        encoded := encoded + a.parts[index];
        index := index + 1;
      }
    }

    method ExpireAssemblies(now: int)
      requires ValidTable()
      modifies `assemblies, `assemblyBytes
      ensures ValidTable() && assemblies == old(assemblies) - R.Stale(old(assemblies), now)
    {
      hide R.Inv, R.TableBytes;
      var todo := assemblies.Keys;
      while todo != {}
        invariant ValidTable()
        invariant todo <= assemblies.Keys
        invariant forall id :: id in assemblies ==> id in old(assemblies) && assemblies[id] == old(assemblies)[id]
        invariant forall id :: id in old(assemblies) ==> (id in assemblies <==> id in todo || id !in R.Stale(old(assemblies), now))
        decreases |todo|
      {
        var id :| id in todo;
        todo := todo - {id};
        if now - assemblies[id].updated > R.IdleLimit || now - assemblies[id].since > R.AgeLimit {
          RemoveAssembly(id);
        }
      }
    }
  }

  function PartialAmong(s: State, p: Priority, seen: set<Id>): set<Id> {
    set id | id in seen && id in s.pending && s.pending[id].Partial() && s.pending[id].Priority() == p
  }

  ghost predicate TallyAmong(s: State, counts: Counts, seen: set<Id>) {
    counts == Counts(|PartialAmong(s, SOS, seen)|, |PartialAmong(s, Normal, seen)|, |PartialAmong(s, Bulk, seen)|)
  }

  ghost predicate Tally(s: State, counts: Counts) {
    counts == Counts(|PartialIds(s, SOS)|, |PartialIds(s, Normal)|, |PartialIds(s, Bulk)|)
  }

  lemma ReservedIs(s: State, env: Env, p: Priority, waiting: set<Priority>)
    requires waiting == set q | q in AllPriorities && Waiting(s, env, q)
    ensures Reserved(s, env, p) == if p in waiting then |waiting| - 1 else |waiting|
  {
    hide Waiting;
    assert (set q | q in AllPriorities && q != p && Waiting(s, env, q)) == waiting - {p};
  }

  lemma PartialAmongEnds(s: State)
    ensures forall p :: PartialAmong(s, p, {}) == {}
    ensures forall p :: PartialAmong(s, p, s.pending.Keys) == PartialIds(s, p)
  {
  }

  lemma TallyGrows(s: State, counts: Counts, seen: set<Id>, id: Id)
    requires TallyAmong(s, counts, seen) && id in s.pending && id !in seen
    ensures var p := s.pending[id].Priority();
      TallyAmong(s, if s.pending[id].Partial() then counts.Bump(p) else counts, seen + {id})
  {
    PartialAmongGrows(s, seen, id);
  }

  lemma PartialAmongGrows(s: State, seen: set<Id>, id: Id)
    requires id in s.pending && id !in seen
    ensures forall p :: |PartialAmong(s, p, seen + {id})| == |PartialAmong(s, p, seen)| + (if s.pending[id].Partial() && s.pending[id].Priority() == p then 1 else 0)
  {
    forall p ensures |PartialAmong(s, p, seen + {id})| == |PartialAmong(s, p, seen)| + (if s.pending[id].Partial() && s.pending[id].Priority() == p then 1 else 0) {
      if s.pending[id].Partial() && s.pending[id].Priority() == p {
        assert PartialAmong(s, p, seen + {id}) == PartialAmong(s, p, seen) + {id};
      } else {
        assert PartialAmong(s, p, seen + {id}) == PartialAmong(s, p, seen);
      }
    }
  }

  /** Putting a transfer in keeps the scheduler's invariant and the budget. */
  lemma Queued(s: State, value: Retained)
    requires Inv(s) && WithinBudget(s.pending) && Fits(s.pending, value) && 0 < |value.encoded|
    requires value.Id() !in s.pending && forall id :: id in s.pending ==> s.pending[id].value.sequence != value.sequence
    ensures var next := s.pending[value.Id() := Transfer(value, 0, 0, 0, s.turn, false)];
      && Inv(s.(pending := next)) && WithinBudget(next)
      && Bytes(next) == Bytes(s.pending) + |value.encoded|
  {
    hide Inv, WithinBudget, Bytes;
    SP.TurnsInRange(s);
    SP.InsertKeepsInv(s, value);
    AdmissionKeepsBudget(s.pending, value, Transfer(value, 0, 0, 0, s.turn, false));
    BytesInsert(s.pending, value.Id(), Transfer(value, 0, 0, 0, s.turn, false));
  }

  /** Taking transfers out keeps the scheduler's invariant and the budget. */
  lemma Withdrawn(s: State, ids: set<Id>)
    requires Inv(s) && WithinBudget(s.pending)
    ensures Inv(s.(pending := s.pending - ids)) && WithinBudget(s.pending - ids)
  {
    hide Inv, WithinBudget;
    SP.TurnsInRange(s);
    SP.DropKeepsInv(s, ids);
    SubmapWithinBudget(s.pending - ids, s.pending);
  }

  lemma EmptyQueue(s: State)
    requires s.pending == map[] && s.flight.None? && |s.turns| == 3 && forall i :: 0 <= i < 3 ==> s.turns[i] <= s.turn
    ensures Inv(s) && WithinBudget(s.pending) && Bytes(s.pending) == 0
    ensures R.Inv(map[]) && R.TableBytes(map[]) == 0
  {
    assert forall p :: OccupiedIds(s, p) == {};
    assert Sizes(s.pending) == map[] && Rest(s.pending) == map[];
    assert R.AssemblySizes(map[]) == map[];
  }
}

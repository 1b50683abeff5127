/** A recorded stop is permanent, and recording one never runs out of room. */
module LedgerProofs {
  import opened Common
  import opened Texts
  import opened Ledger
  import Z = StopSizes

  lemma {:induction false} FindStopFinds(entries: seq<Stop>, operation: Text)
    ensures FindStop(entries, operation).Some? ==>
      FindStop(entries, operation).value in entries && FindStop(entries, operation).value.operation == operation
    ensures FindStop(entries, operation).Some? <==> operation in Operations(entries)
    decreases |entries|
  {
    if entries != [] {
      FindStopFinds(entries[1..], operation);
      assert entries == [entries[0]] + entries[1..];
      if operation in Operations(entries[1..]) {
        var i :| 0 <= i < |entries[1..]| && entries[1..][i].operation == operation;
        assert entries[i + 1].operation == operation;
      }
      if operation in Operations(entries) && entries[0].operation != operation {
        var i :| 0 <= i < |entries| && entries[i].operation == operation;
        assert entries[1..][i - 1].operation == operation;
      }
    }
  }

  /** A stop is found by its operation: no other has it. */
  lemma {:induction false} FindStopIs(entries: seq<Stop>, stop: Stop)
    requires stop in entries
    requires forall i, j :: 0 <= i < j < |entries| ==> entries[i].operation != entries[j].operation
    ensures FindStop(entries, stop.operation) == Some(stop)
    decreases |entries|
  {
    var k :| 0 <= k < |entries| && entries[k] == stop;
    if k > 0 {
      assert entries[1..][k - 1] == stop;
      FindStopIs(entries[1..], stop);
    }
  }

  lemma {:induction false} OperationsCount(entries: seq<Stop>)
    requires forall i, j :: 0 <= i < j < |entries| ==> entries[i].operation != entries[j].operation
    ensures |Operations(entries)| == |entries|
    decreases |entries|
  {
    if entries != [] {
      var n := |entries| - 1;
      OperationsCount(entries[..n]);
      assert Operations(entries) == Operations(entries[..n]) + {entries[n].operation};
    }
  }

  lemma RecordingKeepsInv(s: Stops, e: Entry, reason: Reason)
    requires Inv(s) && |s.entries| < StopLimit && s.clock < MaxSafe
    requires OperationOk(e.operation) && e.operation !in Operations(s.entries)
    ensures Inv(Recording(s, e, reason))
    ensures Operations(Recording(s, e, reason).entries) == Operations(s.entries) + {e.operation}
  {
    hide OperationOk;
    var next := Recording(s, e, reason);
    var n := |s.entries|;
    assert forall i :: 0 <= i < n ==> next.entries[i] == s.entries[i] && s.entries[i].operation in Operations(s.entries);
    assert next.entries[n].operation == e.operation;
    forall op | op in Operations(s.entries) ensures op in Operations(next.entries) {
      var i :| 0 <= i < n && s.entries[i].operation == op;
      assert next.entries[i].operation == op;
    }
    forall op | op in Operations(next.entries) ensures op in Operations(s.entries) + {e.operation} {
      var i :| 0 <= i < n + 1 && next.entries[i].operation == op;
    }
  }

  /** Reconciling fails for want of room exactly when 256 other operations are stopped: bytes never run out first. */
  lemma FullExactly(s: Stops, e: Entry, unfinished: bool, retry: Retry)
    requires Inv(s)
    ensures Reconcile(s, e, unfinished, retry).1.Full? <==>
      OperationOk(e.operation) && e.operation !in Operations(s.entries) && unfinished && retry.Terminal? && |s.entries| == 256
  {
    hide OperationOk, StopBytes, Operations;
    FindStopFinds(s.entries, e.operation);
    if OperationOk(e.operation) && e.operation !in Operations(s.entries) && retry.Terminal?
       && |s.entries| < StopLimit && s.clock < MaxSafe {
      RecordingKeepsInv(s, e, retry.reason);
      Z.StopsFit(Recording(s, e, retry.reason).entries);
    }
  }

  /** With all stops, and this entry, among at most 256 operations, reconciling always finds room. */
  lemma RoomWithinOutbox(s: Stops, e: Entry, unfinished: bool, retry: Retry, outbox: set<Text>)
    requires Inv(s) && Operations(s.entries) + {e.operation} <= outbox && |outbox| <= 256
    ensures !Reconcile(s, e, unfinished, retry).1.Full?
  {
    hide OperationOk, Operations, Reconcile;
    FullExactly(s, e, unfinished, retry);
    OperationsCount(s.entries);
    if e.operation !in Operations(s.entries) {
      CardinalityInsert(Operations(s.entries), e.operation);
      CardinalitySubset(Operations(s.entries) + {e.operation}, outbox);
    }
  }

  /** Without that, it need not: a 257th operation whose group is gone cannot be stopped. */
  lemma OneTooMany(s: Stops, e: Entry)
    requires Inv(s) && |s.entries| == 256 && OperationOk(e.operation) && e.operation !in Operations(s.entries)
    ensures Reconcile(s, e, true, Terminal(LeftGroup)) == (s, Full)
  {
    hide OperationOk, Operations;
    FindStopFinds(s.entries, e.operation);
  }

  lemma {:induction false} RetainedHas(entries: seq<Stop>, operations: set<Text>)
    ensures forall x :: x in Retained(entries, operations) <==> x in entries && x.operation in operations
    decreases |entries|
  {
    if entries != [] {
      var n := |entries| - 1;
      RetainedHas(entries[..n], operations);
      assert entries == entries[..n] + [entries[n]];
    }
  }

  lemma {:induction false} RetainedDiffer(entries: seq<Stop>, operations: set<Text>)
    requires forall i, j :: 0 <= i < j < |entries| ==> entries[i].operation != entries[j].operation
    ensures var r := Retained(entries, operations);
      |r| <= |entries| && forall i, j :: 0 <= i < j < |r| ==> r[i].operation != r[j].operation
    decreases |entries|
  {
    if entries != [] {
      var n := |entries| - 1;
      RetainedDiffer(entries[..n], operations);
      RetainedHas(entries[..n], operations);
    }
  }

  predicate InOrder(entries: seq<Stop>) {
    forall i, j :: 0 <= i < j < |entries| ==> entries[i].observed < entries[j].observed
  }

  lemma LaterOnly(early: seq<Stop>, last: Stop)
    requires InOrder(early) && forall stop :: stop in early ==> stop.observed < last.observed
    ensures InOrder(early + [last])
  {
  }

  /** The stops that stay keep their order: they are still numbered as recorded. */
  lemma {:induction false} RetainedInOrder(entries: seq<Stop>, operations: set<Text>)
    requires InOrder(entries)
    ensures InOrder(Retained(entries, operations))
    decreases |entries|
  {
    if entries != [] {
      var early, last := entries[..|entries| - 1], entries[|entries| - 1];
      RetainedInOrder(early, operations);
      RetainedHas(early, operations);
      assert forall stop :: stop in early ==> stop.observed < last.observed;
      LaterOnly(Retained(early, operations), last);
    }
  }

  lemma RetireHas(s: Stops, operations: set<Text>)
    ensures forall x :: x in Retire(s, operations).entries <==> x in s.entries && x.operation in operations
  {
    RetainedHas(s.entries, operations);
  }

  lemma RetireKeepsInv(s: Stops, operations: set<Text>)
    requires Inv(s)
    ensures Inv(Retire(s, operations)) && Operations(Retire(s, operations).entries) == Operations(s.entries) * operations
  {
    hide OperationOk;
    RetainedDiffer(s.entries, operations);
    RetainedHas(s.entries, operations);
    var r := Retained(s.entries, operations);
    forall i | 0 <= i < |r| ensures StopOk(r[i]) {
      assert r[i] in s.entries;
      var j :| 0 <= j < |s.entries| && s.entries[j] == r[i];
    }
    forall op | op in Operations(s.entries) * operations ensures op in Operations(r) {
      var i :| 0 <= i < |s.entries| && s.entries[i].operation == op;
      assert s.entries[i] in r;
    }
    forall op | op in Operations(r) ensures op in Operations(s.entries) * operations {
      var i :| 0 <= i < |r| && r[i].operation == op;
      assert r[i] in s.entries;
    }
  }

  // Runs

  datatype Event = Reconciling(entry: Entry, unfinished: bool, retry: Retry) | Retiring(operations: set<Text>)

  ghost function Apply(s: Stops, e: Event): Stops
    requires Inv(s)
  {
    match e
    case Reconciling(entry, unfinished, retry) => Reconcile(s, entry, unfinished, retry).0
    case Retiring(operations) => Retire(s, operations)
  }

  lemma ReconcileKeepsInv(s: Stops, e: Entry, unfinished: bool, retry: Retry)
    requires Inv(s)
    ensures Inv(Reconcile(s, e, unfinished, retry).0) && s.entries <= Reconcile(s, e, unfinished, retry).0.entries
  {
    hide OperationOk, StopBytes, Operations;
    FindStopFinds(s.entries, e.operation);
    if Reconcile(s, e, unfinished, retry).0 != s { RecordingKeepsInv(s, e, retry.reason); }
  }

  lemma ApplyKeepsInv(s: Stops, e: Event)
    requires Inv(s)
    ensures Inv(Apply(s, e))
  {
    hide Inv, Reconcile, Retire;
    if e.Reconciling? {
      ReconcileKeepsInv(s, e.entry, e.unfinished, e.retry);
    } else {
      RetireKeepsInv(s, e.operations);
    }
  }

  ghost function After(s: Stops, events: seq<Event>): (t: Stops)
    requires Inv(s)
    ensures Inv(t)
    decreases |events|
  {
    if events == [] then s
    else
      ApplyKeepsInv(After(s, events[..|events| - 1]), events[|events| - 1]);
      Apply(After(s, events[..|events| - 1]), events[|events| - 1])
  }

  /** Whether no event of the run lets go of this operation. */
  predicate Keeps(events: seq<Event>, operation: Text) {
    forall i :: 0 <= i < |events| && events[i].Retiring? ==> operation in events[i].operations
  }

  lemma StopStaysOneStep(s: Stops, e: Event, stop: Stop)
    requires Inv(s) && stop in s.entries && (e.Retiring? ==> stop.operation in e.operations)
    ensures stop in Apply(s, e).entries
  {
    hide Inv, Reconcile, Retained;
    if e.Reconciling? {
      ReconcileKeepsInv(s, e.entry, e.unfinished, e.retry);
    } else {
      RetainedHas(s.entries, e.operations);
    }
  }

  /** A stop is final: until its operation leaves the outbox, whatever is reconciled in between and whatever the
      group's chain says by then, the same entry is answered with the same stop, and nothing is written. */
  lemma {:induction false} StopIsPermanent(s: Stops, events: seq<Event>, stop: Stop)
    requires Inv(s) && stop in s.entries && Keeps(events, stop.operation)
    ensures stop in After(s, events).entries
    ensures forall e: Entry, unfinished, retry :: Matches(stop, e) ==>
      Reconcile(After(s, events), e, unfinished, retry) == (After(s, events), Stopped(stop))
    decreases |events|
  {
    hide Inv, Apply, Reconcile, Matches;
    if events != [] {
      var n := |events| - 1;
      StopIsPermanent(s, events[..n], stop);
      StopStaysOneStep(After(s, events[..n]), events[n], stop);
    }
    forall e: Entry, unfinished, retry | Matches(stop, e)
      ensures Reconcile(After(s, events), e, unfinished, retry) == (After(s, events), Stopped(stop)) {
      StoppedAgain(After(s, events), e, unfinished, retry, stop);
    }
  }

  lemma StoppedAgain(s: Stops, e: Entry, unfinished: bool, retry: Retry, stop: Stop)
    requires Inv(s) && stop in s.entries && Matches(stop, e)
    ensures Reconcile(s, e, unfinished, retry) == (s, Stopped(stop))
  {
    hide OperationOk;
    FindStopIs(s.entries, stop);
    var i :| 0 <= i < |s.entries| && s.entries[i] == stop;
    assert StopOk(s.entries[i]);
  }
}

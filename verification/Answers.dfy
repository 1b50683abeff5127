/** What reconciling an outbox tells each of its sends, and when a stop is recorded, refused or repeated. */
module Answers {
  import opened Common
  import opened Texts
  import opened Ledger
  import opened Ledgers
  import opened LedgerProofs
  import opened Spellings
  import Acc = Access
  import M = Admissions

  const Pattern: string := "xxxxxxxx-xxxx-4xxx-yxxx-xxxxxxxxxxxx"

  /** A lower-case hexadecimal digit for x, one of 8, 9, a and b for y, and anything else as it stands. */
  predicate Fits(r: Rune, p: char) {
    if p == 'x' then 48 <= r <= 57 || 97 <= r <= 102
    else if p == 'y' then r == 56 || r == 57 || r == 97 || r == 98
    else r == p as int
  }

  /** Operations are identified by random identifiers, version 4. */
  lemma OperationExactly(t: Text)
    ensures OperationOk(t) <==> |t| == |Pattern| && forall i :: 0 <= i < |t| ==> Fits(t[i], Pattern[i])
  {
    if |t| == 36 {
      forall i | 0 <= i < 36 && i !in {8, 13, 14, 18, 19, 23} ensures Pattern[i] == 'x' {
      }
      assert Pattern[8] == '-' && Pattern[13] == '-' && Pattern[18] == '-' && Pattern[23] == '-';
      assert Pattern[14] == '4' && Pattern[19] == 'y';
      if OperationOk(t) {
        forall i | 0 <= i < 36 ensures Fits(t[i], Pattern[i]) {
        }
      }
      if forall i :: 0 <= i < |t| ==> Fits(t[i], Pattern[i]) {
        assert Fits(t[14], Pattern[14]) && Fits(t[19], Pattern[19]);
        forall i | 0 <= i < 36 ensures if i in {8, 13, 18, 23} then t[i] == 45 else IsHex(t[i]) {
          assert Fits(t[i], Pattern[i]);
        }
      }
    }
  }

  /** One send against the stops on record. A stop answers for it, if it is for the same content, group and epoch;
      one that is finished, or whose group does not rule it out for good, needs none; otherwise it gets one, with
      the group's reason and the next number, while fewer than 256 are on record and a number is left. */
  lemma ReconcileExactly(s: Stops, e: Entry, unfinished: bool, retry: Retry)
    requires Inv(s) && OperationOk(e.operation)
    ensures forall stop :: stop in s.entries && stop.operation == e.operation ==>
      Reconcile(s, e, unfinished, retry) ==
        (s, if stop.id == e.id && stop.group == e.group && stop.epochId == e.epochId then Stopped(stop) else Inconsistent)
    ensures (forall stop :: stop in s.entries ==> stop.operation != e.operation) ==>
      Reconcile(s, e, unfinished, retry) ==
        if !unfinished then (s, Completed)
        else match retry
             case Terminal(reason) =>
               if |s.entries| >= 256 then (s, Full)
               else if s.clock >= 9007199254740991 then (s, Inconsistent)
               else
                 var stop := Stop(e.operation, e.id, e.group, e.epochId, reason, s.clock + 1);
                 (Stops(s.entries + [stop], s.clock + 1), Stopped(stop))
             case _ => (s, Decided(retry))
  {
    hide OperationOk, StopBytes, Storable;
    SameOperationOnce(s, e.operation);
    FindStopFinds(s.entries, e.operation);
    FullExactly(s, e, unfinished, retry);
    if FindStop(s.entries, e.operation).None? {
      NotAmong(s.entries, e.operation);
    }
  }

  lemma SameOperationOnce(s: Stops, operation: Text)
    requires Inv(s)
    ensures forall stop :: stop in s.entries && stop.operation == operation ==> FindStop(s.entries, operation) == Some(stop)
    ensures |s.entries| <= 256
  {
    forall stop | stop in s.entries && stop.operation == operation ensures FindStop(s.entries, operation) == Some(stop) {
      FindStopIs(s.entries, stop);
    }
  }

  lemma NotAmong(entries: seq<Stop>, operation: Text)
    ensures operation in Operations(entries) <==> exists stop :: stop in entries && stop.operation == operation
  {
    if stop :| stop in entries && stop.operation == operation {
      var i :| 0 <= i < |entries| && entries[i] == stop;
    }
  }

  predicate IsStopped(entries: seq<Stop>, operation: Text) {
    exists stop :: stop in entries && stop.operation == operation
  }

  /** Some reader other than the author has not confirmed. */
  predicate Waits(sent: Sent) {
    exists reader :: reader in sent.others && reader !in sent.received
  }

  /** What each entry of a reconciled outbox is told: it is marked stopped exactly where the ledger holds a stop
      for it; its content may be offered exactly where there is none, its admission is on record and the group
      allows it; and it may be sent again exactly where besides some reader has not confirmed. Nothing else of
      the entry changes, and entries that are not for a group are left alone. */
  lemma AnswersExactly(
      entries: seq<Stop>, history: map<Id, M.History>, outbox: map<Text, Sent>, chains: Chains,
      next: map<Text, Sent>, answers: map<Text, Answer>, op: Text)
    requires Results(entries, history, outbox, chains, next, answers) && op in outbox
    ensures op in next && next[op] == outbox[op].(stopped := next[op].stopped)
    ensures outbox[op].epoch.None? ==> next[op] == outbox[op] && op !in answers
    ensures outbox[op].epoch.Some? ==> op in answers && (next[op].stopped <==> IsStopped(entries, op))
    ensures outbox[op].epoch.Some? ==>
      (answers[op].seed <==>
        !IsStopped(entries, op) && outbox[op].id in history && chains(outbox[op].conversation, outbox[op].epoch.value) == Allowed)
    ensures outbox[op].epoch.Some? ==> (answers[op].allowed <==> answers[op].seed && Waits(outbox[op]))
  {
    hide Operations;
    NotAmong(entries, op);
  }

  /** Which sends must be stopped: those of a group that rules them out for good, without a stop, and not confirmed by all. */
  lemma NeededExactly(entries: seq<Stop>, outbox: map<Text, Sent>, chains: Chains, op: Text)
    ensures op in Needed(entries, outbox, chains) <==>
      && op in outbox && outbox[op].epoch.Some? && !IsStopped(entries, op) && Waits(outbox[op])
      && chains(outbox[op].conversation, outbox[op].epoch.value).Terminal?
  {
    hide Operations;
    NotAmong(entries, op);
  }

  /** The stop a send gets is for its content, group and epoch, and gives its group's reason. */
  lemma StopGivesReason(entries: seq<Stop>, op: Text, sent: Sent, chains: Chains)
    requires StoppedFor(entries, op, sent, chains)
    ensures sent.epoch.Some?
    ensures exists stop :: (
      stop in entries && stop == Stop(op, sent.id, sent.conversation, sent.epoch.value, stop.reason, stop.observed)
      && chains(sent.conversation, sent.epoch.value) == Terminal(stop.reason))
  {
    var stop :| stop in entries && StopsSend(stop, op, sent, chains);
  }

  /** What an outbox entry must agree with: no stop without an epoch, none for anything else, one where it is marked
      stopped; and its admission, where on record, is of this very message, to these readers, until this deadline. */
  lemma AgreementExactly(s: Stops, history: map<Id, M.History>, op: Text, sent: Sent)
    requires Inv(s)
    ensures Agrees(s.entries, history, op, sent) <==>
      && OperationOk(op)
      && (sent.epoch == None || sent.stopped ==> (IsStopped(s.entries, op) <==> sent.epoch.Some?))
      && (forall stop :: stop in s.entries && stop.operation == op ==>
            stop.id == sent.id && stop.group == sent.conversation && Some(stop.epochId) == sent.epoch)
      && (sent.epoch.Some? && sent.id in history ==>
            history[sent.id].expires == sent.expires &&
            history[sent.id].context == Acc.Context(history[sent.id].context.id, sent.conversation, sent.epoch.value, sent.author, Acc.Message, sent.others + {sent.author}))
  {
    hide OperationOk, Storable, Operations;
    SameOperationOnce(s, op);
    FindStopFinds(s.entries, op);
    NotAmong(s.entries, op);
  }
}

/** The ledger as it runs, and its reconciliation with the outbox. */
module Ledgers {
  import opened Common
  import opened Texts
  import opened Ledger
  import opened Spellings
  import G = Groups
  import Acc = Access
  import M = Admissions
  import J = Json
  import C = JsonCodec
  import JP = JsonProofs
  import Z = StopSizes
  import opened StopCodec
  import opened LedgerProofs

  /** One entry of the outbox: the immutable send, and how many of its readers confirmed it. */
  datatype Sent = Sent(
    id: Address, conversation: Address, epoch: Option<Address>, stopped: bool, author: Id, others: set<Id>, received: set<Id>, expires: int)

  function EntryOf(operation: Text, sent: Sent): Entry
    requires sent.epoch.Some?
  {
    Entry(operation, sent.id, sent.conversation, sent.epoch.value)
  }

  predicate Unfinished(sent: Sent) {
    !(sent.others <= sent.received)
  }

  type Chains = (Id, Id) -> Retry

  /** The record of admission, where there is one, is of exactly this message. */
  predicate HistoryMatches(history: map<Id, M.History>, sent: Sent)
    requires sent.epoch.Some?
  {
    sent.id in history ==>
      var h := history[sent.id];
      h.context.kind.Message? && h.context.author == sent.author && h.context.group == sent.conversation
      && h.context.epochId == sent.epoch.value && h.expires == sent.expires && h.context.readers == sent.others + {sent.author}
  }

  /** Nothing about this outbox entry contradicts the ledger. */
  predicate Agrees(entries: seq<Stop>, history: map<Id, M.History>, operation: Text, sent: Sent) {
    && OperationOk(operation)
    && (sent.epoch.None? ==> FindStop(entries, operation).None?)
    && (sent.epoch.Some? ==>
          && (sent.stopped ==> FindStop(entries, operation).Some?)
          && (FindStop(entries, operation).Some? ==> Matches(FindStop(entries, operation).value, EntryOf(operation, sent)))
          && HistoryMatches(history, sent))
  }

  /** The sends that have to be stopped now. */
  function Needed(entries: seq<Stop>, outbox: map<Text, Sent>, chains: Chains): set<Text> {
    set op | op in outbox && outbox[op].epoch.Some? && op !in Operations(entries) && Unfinished(outbox[op])
             && chains(outbox[op].conversation, outbox[op].epoch.value).Terminal?
  }

  datatype Answer = Answer(allowed: bool, seed: bool)

  function Marked(entries: seq<Stop>, operation: Text, sent: Sent): Sent {
    if sent.epoch.Some? then sent.(stopped := operation in Operations(entries)) else sent
  }

  /** Whether the send may be tried again, and whether its content may still be offered to others. */
  function AnswerFor(entries: seq<Stop>, history: map<Id, M.History>, chains: Chains, operation: Text, sent: Sent): Answer
    requires sent.epoch.Some?
  {
    var open := operation !in Operations(entries) && sent.id in history && chains(sent.conversation, sent.epoch.value).Allowed?;
    Answer(open && Unfinished(sent), open)
  }

  /** The ledger holds a stop for exactly this send, with the reason its group's chain gives. */
  ghost predicate StoppedFor(entries: seq<Stop>, operation: Text, sent: Sent, chains: Chains) {
    sent.epoch.Some? && exists stop :: stop in entries && StopsSend(stop, operation, sent, chains)
  }

  predicate StopsSend(stop: Stop, operation: Text, sent: Sent, chains: Chains)
    requires sent.epoch.Some?
  {
    Matches(stop, EntryOf(operation, sent)) && chains(sent.conversation, sent.epoch.value) == Terminal(stop.reason)
  }

  ghost predicate AllAgree(entries: seq<Stop>, history: map<Id, M.History>, outbox: map<Text, Sent>) {
    forall op :: op in outbox ==> Agrees(entries, history, op, outbox[op])
  }

  /** When reconciling an outbox succeeds: the outbox and the ledger agree, and all the stops together fit. */
  ghost predicate Reconcilable(
    entries: seq<Stop>, history: map<Id, M.History>, clock: nat, outbox: map<Text, Sent>, chains: Chains)
  {
    && AllAgree(entries, history, outbox)
    && |Operations(entries) + Needed(entries, outbox, chains)| <= StopLimit
    && clock + |Needed(entries, outbox, chains)| <= MaxSafe
  }

  /** What reconciling returns: every entry marked, every group entry answered, from the ledger as it is afterwards. */
  ghost predicate Results(
    entries: seq<Stop>, history: map<Id, M.History>, outbox: map<Text, Sent>, chains: Chains,
    next: map<Text, Sent>, answers: map<Text, Answer>)
  {
    && next.Keys == outbox.Keys && (forall op :: op in outbox ==> next[op] == Marked(entries, op, outbox[op]))
    && (forall op :: op in answers <==> op in outbox && outbox[op].epoch.Some?)
    && (forall op :: op in answers ==> answers[op] == AnswerFor(entries, history, chains, op, outbox[op]))
  }

  ghost predicate AllStopped(before: seq<Stop>, now: seq<Stop>, outbox: map<Text, Sent>, chains: Chains) {
    forall op :: op in outbox && op in Needed(before, outbox, chains) ==> StoppedFor(now, op, outbox[op], chains)
  }

  function Done(outbox: map<Text, Sent>, todo: set<Text>): map<Text, Sent> {
    map op | op in outbox && op !in todo :: outbox[op]
  }

  /** Replacing the outbox: what is stored and which stops are left, or nothing at all. */
  ghost predicate Replaced(
    s: Stops, history: map<Id, M.History>, next: map<Text, Sent>, chains: Chains, ok: bool, t: Stops, stored: map<Text, Sent>)
  {
    && (ok <==> Reconcilable(s.entries, history, s.clock, next, chains))
    && (!ok ==> t == s)
    && (ok ==>
          && Operations(t.entries) == (Operations(s.entries) + Needed(s.entries, next, chains)) * next.Keys
          && t.clock == s.clock + |Needed(s.entries, next, chains)|
          && stored.Keys == next.Keys && forall op :: op in next ==> stored[op] == Marked(t.entries, op, next[op]))
  }

  class GroupLedger {
    var stops: seq<Stop>
    var history: map<Id, M.History>
    var held: map<Id, M.Held>
    var clock: nat
    var losses: M.Losses
    var stopRetired: nat

    constructor ()
      ensures Valid() && stops == [] && history == map[] && held == map[] && clock == 0
    {
      stops, history, held, clock := [], map[], map[], 0;
      losses, stopRetired := M.Losses(0, 0, 0, 0), 0;
      new;
      TotalEmpty<Id>();
      assert M.HeldSizes(held) == map[];
    }

    function StopView(): Stops
      reads `stops, `clock
    {
      Stops(stops, clock)
    }

    function BookView(): M.Book
      reads `history, `held, `clock, `losses
    {
      M.Book(history, held, clock, losses)
    }

    ghost predicate Valid()
      reads this
    {
      Ledger.Inv(StopView()) && M.Inv(BookView()) && stopRetired <= MaxSafe
    }

    /** The stop of an operation, if there is one; a malformed identifier is an error. */
    method Stop(operation: Text) returns (ok: bool, stop: Option<Stop>)
      ensures ok == OperationOk(operation) && stop == if ok then FindStop(stops, operation) else None
    {
      hide OperationOk;
      if !OperationOk(operation) { return false, None; }
      var n := 0;
      while n < |stops|
        invariant 0 <= n <= |stops|
        invariant FindStop(stops, operation) == FindStop(stops[n..], operation)
      {
        assert stops[n..][1..] == stops[n + 1..];
        if stops[n].operation == operation { return true, Some(stops[n]); }
        n := n + 1;
      }
      return true, None;
    }

    /** Whether this many stops still fit the limit on their stored form. */
    static method Fits(entries: seq<Stop>) returns (ok: bool)
      requires StopsOk(entries)
      ensures |entries| <= StopLimit ==> ok == (|StopBytes(entries)| <= StopByteLimit)
    {
      hide J.Print, J.Shallow, J.Proper, StopSetJson, StopOk;
      StopsPrintable(entries);
      var bytes := C.Canonical(AnyNumber, StopSetJson(entries));
      StopsShallow(entries);
      if |entries| <= StopLimit { Z.StopsFit(entries); }
      ok := bytes.Some? && |bytes.value| <= StopByteLimit;
    }

    method ReconcileRetry(e: Entry, unfinished: bool, retry: Retry) returns (outcome: Outcome)
      requires Valid()
      modifies `stops, `clock
      ensures Valid()
      ensures (StopView(), outcome) == Reconcile(old(StopView()), e, unfinished, retry)
    {
      hide OperationOk, StopBytes, M.HistoryInv, M.HeldInv, Operations;
      ReconcileKeepsInv(StopView(), e, unfinished, retry);
      FindStopFinds(stops, e.operation);
      var ok, previous := Stop(e.operation);
      if !ok { return Inconsistent; }
      if previous.Some? {
        return if Matches(previous.value, e) then Stopped(previous.value) else Inconsistent;
      }
      if !unfinished { return Completed; }
      if !retry.Terminal? { return Decided(retry); }
      if |stops| >= StopLimit { return Full; }
      if clock >= MaxSafe { return Inconsistent; }
      var stop := Ledger.Stop(e.operation, e.id, e.group, e.epochId, retry.reason, clock + 1);
      RecordingKeepsInv(StopView(), e, retry.reason);
      var fits := Fits(stops + [stop]);
      if !fits { return Full; }
      M.ClockAdvances(BookView(), clock + 1);
      stops, clock := stops + [stop], clock + 1;
      return Stopped(stop);
    }

    /** One outbox entry: its place in the ledger checked, its stop recorded where its group no longer allows it. */
    method ReconcileOne(operation: Text, sent: Sent, chains: Chains) returns (ok: bool, next: Sent, answer: Answer)
      requires Valid()
      modifies `stops, `clock
      ensures Valid() && old(stops) <= stops
      ensures ok <==> Agrees(old(stops), history, operation, sent)
                      && (operation in Needed(old(stops), map[operation := sent], chains) ==>
                            old(|stops|) < StopLimit && old(clock) < MaxSafe)
      ensures ok ==> Operations(stops) == Operations(old(stops)) + Needed(old(stops), map[operation := sent], chains)
      ensures ok ==> clock == old(clock) + |Needed(old(stops), map[operation := sent], chains)|
      ensures ok ==> next == Marked(stops, operation, sent)
      ensures ok && sent.epoch.Some? ==> answer == AnswerFor(stops, history, chains, operation, sent)
      ensures ok ==> forall op :: op in Needed(old(stops), map[operation := sent], chains) ==> StoppedFor(stops, op, sent, chains)
    {
      hide OperationOk, Ledger.Inv, M.Inv, Operations, Reconcile, HistoryMatches;
      next, answer := sent, Answer(false, false);
      FindStopFinds(stops, operation);
      NeededOne(stops, operation, sent, chains);
      var previous: Option<Stop>;
      ok, previous := Stop(operation);
      if !ok { return; }
      if sent.epoch.None? { return previous.None?, next, answer; }
      if sent.stopped && previous.None? { return false, next, answer; }
      if !HistoryMatches(history, sent) { return false, next, answer; }
      var retry := chains(sent.conversation, sent.epoch.value);
      ReconcileCases(StopView(), EntryOf(operation, sent), Unfinished(sent), retry);
      var outcome := ReconcileRetry(EntryOf(operation, sent), Unfinished(sent), retry);
      if outcome.Full? || outcome.Inconsistent? { return false, next, answer; }
      FindStopFinds(stops, operation);
      ok := true;
      next := sent.(stopped := outcome.Stopped?);
      var admitted := sent.id in history;
      answer := Answer(outcome == Decided(Allowed) && admitted, admitted && !outcome.Stopped? && retry.Allowed?);
    }

    method ReconcileOutbox(outbox: map<Text, Sent>, chains: Chains)
      returns (ok: bool, next: map<Text, Sent>, answers: map<Text, Answer>)
      requires Valid()
      modifies `stops, `clock
      ensures Valid()
      ensures ok <==> Reconcilable(old(stops), history, old(clock), outbox, chains)
      ensures ok ==> old(stops) <= stops && Operations(stops) == Operations(old(stops)) + Needed(old(stops), outbox, chains)
      ensures ok ==> Results(stops, history, outbox, chains, next, answers)
      ensures ok ==> AllStopped(old(stops), stops, outbox, chains) && clock == old(clock) + |Needed(old(stops), outbox, chains)|
      ensures !ok ==> stops == old(stops) && clock == old(clock)
    {
      hide Ledger.Inv, M.Inv, Operations, Agrees, Needed, StoppedFor, Results, AllStopped, Reconcilable, AllAgree, Midway;
      var before, start := stops, clock;
      next, answers := map[], map[];
      var todo := outbox.Keys;
      NothingDone(before, history, outbox, chains);
      StopsInv(StopView());
      while todo != {}
        invariant Valid() && Midway(before, stops, outbox, todo, chains)
        invariant clock == start + |Needed(before, Done(outbox, todo), chains)| <= MaxSafe && |stops| <= StopLimit
        invariant AllAgree(before, history, Done(outbox, todo))
        invariant Results(stops, history, Done(outbox, todo), chains, next, answers)
        invariant AllStopped(before, stops, Done(outbox, todo), chains)
        decreases |todo|
      {
        MidwayParts(before, stops, outbox, todo, chains);
        var op :| op in todo;
        ghost var earlier := stops;
        OthersUntouched(before, stops, history, outbox, todo, op, chains);
        var sent: Sent, answer: Answer;
        ok, sent, answer := ReconcileOne(op, outbox[op], chains);
        if !ok {
          OneFailed(before, earlier, history, start, outbox, todo, op, chains);
          stops, clock := before, start;
          return;
        }
        StopsInv(StopView());
        NeededStep(before, outbox, todo, op, chains);
        MidwayStep(before, earlier, stops, outbox, todo, op, chains);
        DoneStep(before, earlier, stops, history, outbox, todo, op, chains, next, answers, answer);
        next := next[op := sent];
        if outbox[op].epoch.Some? { answers := answers[op := answer]; }
        todo := todo - {op};
      }
      StopsInv(StopView());
      MidwayParts(before, stops, outbox, todo, chains);
      assert Done(outbox, todo) == outbox;
      AllReconciled(before, stops, history, start, outbox, chains);
      ok := true;
    }

    method RetireStops(retained: set<Text>)
      requires Valid()
      modifies `stops, `stopRetired
      ensures Valid() && StopView() == Retire(old(StopView()), retained) && |stops| <= old(|stops|)
      ensures stopRetired == M.Plus(old(stopRetired), |old(stops)| - |stops|)
    {
      hide OperationOk, M.HistoryInv, M.HeldInv, Operations;
      RetireKeepsInv(StopView(), retained);
      RetainedDiffer(stops, retained);
      var after: seq<Stop> := [];
      var n := 0;
      while n < |stops|
        invariant 0 <= n <= |stops|
        invariant after == Retained(stops[..n], retained)
      {
        assert stops[..n + 1][..n] == stops[..n];
        if stops[n].operation in retained { after := after + [stops[n]]; }
        n := n + 1;
      }
      assert stops[..n] == stops;
      if |after| == |stops| {
        NothingRetired(stops, retained);
        return;
      }
      stopRetired := M.Plus(stopRetired, |stops| - |after|);
      stops := after;
    }

    /** Replacing the outbox: reconciled first, then the stops of operations that left it are let go. */
    method Persist(next: map<Text, Sent>, chains: Chains) returns (ok: bool, stored: map<Text, Sent>, answers: map<Text, Answer>)
      requires Valid()
      modifies `stops, `clock, `stopRetired
      ensures Valid()
      ensures Replaced(old(StopView()), history, next, chains, ok, StopView(), stored)
      ensures ok ==> forall stop :: stop in old(stops) && stop.operation in next ==> stop in stops
      ensures ok ==> Results(stops, history, next, chains, stored, answers)
      ensures !ok ==> stopRetired == old(stopRetired)
    {
      hide Ledger.Inv, M.Inv, Operations, Needed, AllStopped, Reconcilable, Retire, Marked, AnswerFor;
      ok, stored, answers := ReconcileOutbox(next, chains);
      if !ok { return; }
      ghost var full := stops;
      RetireKeepsInv(StopView(), next.Keys);
      RetireHas(StopView(), next.Keys);
      RetireStops(next.Keys);
      ResultsRetained(full, stops, history, next, chains, stored, answers);
    }

    /** The oldest record that may make way. */
    method FindOldest(a: M.Arrival) returns (oldest: Option<Id>)
      requires M.Inv(BookView())
      ensures oldest.None? <==> M.Removable(history, a) == {}
      ensures oldest.Some? ==> oldest.value == M.Oldest(BookView(), a)
    {
      hide M.HeldInv;
      oldest := None;
      var todo := history.Keys;
      while todo != {}
        invariant todo <= history.Keys
        invariant oldest.None? ==> M.Removable(history, a) <= todo
        invariant oldest.Some? ==> M.IsOldest(history, M.Removable(history, a) - todo, oldest.value)
        decreases |todo|
      {
        var id :| id in todo;
        todo := todo - {id};
        if id !in a.guarded && Some(id) != a.target {
          if oldest.None? || history[id].observed < history[oldest.value].observed { oldest := Some(id); }
        }
      }
    }

    method CountHeld(table: map<Id, M.Held>) returns (total: nat)
      ensures total == M.HeldBytes(table)
    {
      total := 0;
      var todo := table.Keys;
      assert M.HeldSizes(table) - (table.Keys - todo) == M.HeldSizes(table);
      while todo != {}
        invariant todo <= table.Keys
        invariant total + Total(M.HeldSizes(table) - (table.Keys - todo)) == M.HeldBytes(table)
        decreases |todo|
      {
        var id :| id in todo;
        TotalRemove(M.HeldSizes(table) - (table.Keys - todo), id);
        assert M.HeldSizes(table) - (table.Keys - todo) - {id} == M.HeldSizes(table) - (table.Keys - (todo - {id}));
        total := total + table[id].bytes;
        todo := todo - {id};
      }
      assert M.HeldSizes(table) - (table.Keys - todo) == map[];
      TotalEmpty<Id>();
    }

    method FindExpired(now: int) returns (gone: set<Id>)
      ensures gone == M.Expired(held, now)
    {
      var todo := held.Keys;
      gone := {};
      while todo != {}
        invariant todo <= held.Keys && gone == M.Expired(held, now) - todo
        decreases |todo|
      {
        var id :| id in todo;
        if held[id].expires <= now { gone := gone + {id}; }
        todo := todo - {id};
      }
    }

    method ExpireHeld(now: int)
      modifies `held, `losses
      ensures BookView() == M.Expiring(old(BookView()), now)
    {
      var gone := FindExpired(now);
      if gone != {} {
        held := held - gone;
        losses := losses.(holdExpired := M.Plus(losses.holdExpired, |gone|));
      }
    }

    /** Holds a content back, where there is room for it. */
    method RetainHeld(a: M.Arrival, decision: Acc.Decision) returns (ok: bool, kept: bool)
      requires M.Inv(BookView()) && M.ArrivalOk(a)
      modifies `held, `losses, `clock
      ensures var r := M.Retain(old(BookView()), a, decision); ok == r.Some? && (ok ==> (BookView(), kept) == r.value)
      ensures !ok ==> history == old(history)
    {
      hide M.HeldInv, M.HistoryInv, M.Expired, M.HeldBytes, M.Expiring, M.Plus;
      if decision.Invalid? { return true, false; }
      if a.id in held {
        var h := held[a.id];
        ok := Some(h.group) == a.group && Some(h.epochId) == a.epochId && h.bytes == a.bytes && h.expires == a.expires;
        return ok, true;
      }
      ExpireHeld(a.now);
      var total := CountHeld(held);
      if |held| >= M.L.HeldLimit || total + a.bytes > M.L.HeldByteLimit {
        losses := losses.(holdRefused := M.Plus(losses.holdRefused, 1));
        return true, false;
      }
      if a.group.None? || a.epochId.None? { return true, false; }
      if clock >= MaxSafe { return false, false; }
      clock := clock + 1;
      if !a.roomHeld {
        losses := losses.(holdRefused := M.Plus(losses.holdRefused, 1));
        return true, false;
      }
      held := held[a.id := M.Held(a.group.value, a.epochId.value, decision.Quarantined?, clock, a.expires, a.bytes)];
      return true, true;
    }

    method MakeWay(id: Id)
      modifies `history, `losses
      ensures history == old(history) - {id} && losses == old(losses).(historyRetired := M.Plus(old(losses).historyRetired, 1))
    {
      history := history - {id};
      losses := losses.(historyRetired := M.Plus(losses.historyRetired, 1));
    }

    /** Records an admission, making way for it where the history is full. Where that cannot be, it is counted as refused. */
    method RememberAdmission(a: M.Arrival, context: Acc.Context) returns (ok: bool, kept: bool)
      requires M.Inv(BookView()) && a.id !in history
      modifies `history, `clock, `losses
      ensures ok <==> !(M.Numbers(old(BookView()), a) && old(clock) >= MaxSafe)
      ensures ok ==> kept == M.Remember(old(BookView()), a, context).Some?
      ensures ok && kept ==> BookView() == M.Remember(old(BookView()), a, context).value
      ensures ok && !kept ==> BookView() == M.Refused(old(BookView()), a)
      ensures !ok ==> BookView() == old(BookView())
    {
      hide M.HeldInv, M.HistoryInv, M.Removable, M.Oldest, M.Plus;
      M.HistoryBound(BookView());
      var retire: Option<Id> := None;
      if |history| == M.L.AcceptedLimit { retire := FindOldest(a); }
      if |history| < M.L.AcceptedLimit || retire.Some? {
        if clock >= MaxSafe { return false, false; }
        clock := clock + 1;
        if a.room {
          if retire.Some? { MakeWay(retire.value); }
          history := history[a.id := M.History(context, clock, a.expires)];
          return true, true;
        }
      }
      losses := losses.(historyRefused := M.Plus(losses.historyRefused, 1));
      return true, false;
    }

    /** Decides about one content and records the outcome. An error changes nothing. */
    method Consider(a: M.Arrival, judge: M.Judge) returns (result: M.Result)
      requires Valid() && M.Fair(judge, a.id)
      modifies `history, `held, `losses, `clock
      ensures Valid()
      ensures (BookView(), result) == M.Consider(old(BookView()), a, judge)
    {
      hide M.HeldInv, M.HistoryInv, M.Retain, M.Remember, M.Removable, M.Refused, M.Numbers, StopsOk, M.Fair;
      var before := BookView();
      M.ConsiderKeepsInv(before, a, judge);
      M.ConsiderClock(before, a, judge);
      if !M.ArrivalOk(a) { return M.Failed; }
      var prior := if a.id in history then Some(history[a.id].context) else None;
      var target := if a.target.Some? && a.target.value in history then Some(history[a.target.value].context) else None;
      var decision := judge(prior, target);
      if decision.Failure? { return M.Failed; }
      if decision.Accepted? {
        if a.id in history {
          held := held - {a.id};
          return M.Done(decision, false);
        }
        var done, kept := RememberAdmission(a, decision.context);
        if !done { return M.Failed; }
        if kept {
          held := held - {a.id};
          return M.Done(decision, false);
        }
        decision := Acc.Quarantined;
        M.RefusedKeepsInv(before, a);
      }
      var ok, kept := RetainHeld(a, decision);
      if !ok {
        history, held, clock, losses := before.history, before.held, before.clock, before.losses;
        return M.Failed;
      }
      return M.Done(decision, kept);
    }
  }

  /** The ledger as some entries of the outbox have left it. */
  ghost predicate Midway(before: seq<Stop>, now: seq<Stop>, outbox: map<Text, Sent>, todo: set<Text>, chains: Chains) {
    && before <= now && todo <= outbox.Keys
    && (forall i, j :: 0 <= i < j < |now| ==> now[i].operation != now[j].operation)
    && Operations(now) == Operations(before) + Needed(before, Done(outbox, todo), chains)
  }

  lemma NeededIn(entries: seq<Stop>, outbox: map<Text, Sent>, chains: Chains)
    ensures Needed(entries, outbox, chains) <= outbox.Keys && Needed(entries, outbox, chains) !! Operations(entries)
  {
    hide Operations;
  }

  /** An entry not reached yet finds the ledger, as far as it is concerned, as it was. */
  lemma OthersUntouched(
      before: seq<Stop>, now: seq<Stop>, history: map<Id, M.History>, outbox: map<Text, Sent>, todo: set<Text>, op: Text, chains: Chains)
    requires Midway(before, now, outbox, todo, chains) && op in todo
    ensures op in Operations(now) <==> op in Operations(before)
    ensures Agrees(now, history, op, outbox[op]) == Agrees(before, history, op, outbox[op])
    ensures Needed(now, map[op := outbox[op]], chains) == Needed(before, map[op := outbox[op]], chains)
  {
    hide Operations, OperationOk, Matches, HistoryMatches, Needed;
    NeededIn(before, Done(outbox, todo), chains);
    NeededOne(now, op, outbox[op], chains);
    NeededOne(before, op, outbox[op], chains);
    FindStopFinds(now, op);
    FindStopFinds(before, op);
    if op in Operations(before) {
      var stop := FindStop(before, op).value;
      var i :| 0 <= i < |before| && before[i] == stop;
      assert now[i] == stop;
      FindStopIs(now, stop);
    }
  }

  /** The entries done and one more: what they need is disjoint. */
  lemma NeededStep(before: seq<Stop>, outbox: map<Text, Sent>, todo: set<Text>, op: Text, chains: Chains)
    requires op in todo && todo <= outbox.Keys
    ensures Needed(before, Done(outbox, todo - {op}), chains)
      == Needed(before, Done(outbox, todo), chains) + Needed(before, map[op := outbox[op]], chains)
    ensures |Needed(before, Done(outbox, todo - {op}), chains)|
      == |Needed(before, Done(outbox, todo), chains)| + |Needed(before, map[op := outbox[op]], chains)|
    ensures Done(outbox, todo - {op}).Keys == Done(outbox, todo).Keys + {op}
  {
    NeededUnion(before, outbox, todo, op, chains);
    hide Operations, Unfinished, Needed;
    NeededIn(before, Done(outbox, todo), chains);
    NeededOne(before, op, outbox[op], chains);
  }

  lemma NeededUnion(before: seq<Stop>, outbox: map<Text, Sent>, todo: set<Text>, op: Text, chains: Chains)
    requires op in todo && todo <= outbox.Keys
    ensures Needed(before, Done(outbox, todo - {op}), chains)
      == Needed(before, Done(outbox, todo), chains) + Needed(before, map[op := outbox[op]], chains)
  {
    hide Operations, Unfinished;
  }

  lemma NeededGrows(before: seq<Stop>, outbox: map<Text, Sent>, todo: set<Text>, chains: Chains)
    ensures Needed(before, Done(outbox, todo), chains) <= Needed(before, outbox, chains)
  {
    hide Operations, Unfinished;
  }

  lemma OneFailed(
      before: seq<Stop>, now: seq<Stop>, history: map<Id, M.History>, start: nat, outbox: map<Text, Sent>, todo: set<Text>,
      op: Text, chains: Chains)
    requires Midway(before, now, outbox, todo, chains) && op in todo && |now| <= StopLimit
    requires !(Agrees(before, history, op, outbox[op])
               && (op in Needed(before, map[op := outbox[op]], chains) ==>
                     |now| < StopLimit && start + |Needed(before, Done(outbox, todo), chains)| < MaxSafe))
    ensures !Reconcilable(before, history, start, outbox, chains)
  {
    hide Operations, Agrees, Needed;
    if Agrees(before, history, op, outbox[op]) {
      NeededOne(before, op, outbox[op], chains);
      NeededStep(before, outbox, todo, op, chains);
      NeededGrows(before, outbox, todo - {op}, chains);
      NeededIn(before, outbox, chains);
      NeededIn(before, Done(outbox, todo), chains);
      CardinalitySubset(Needed(before, Done(outbox, todo - {op}), chains), Needed(before, outbox, chains));
      OperationsCount(now);
      assert op !in Operations(now);
      CardinalityInsert(Operations(now), op);
      CardinalitySubset(Operations(now) + {op}, Operations(before) + Needed(before, outbox, chains));
    }
  }

  /** The access decision is a fair judge: it admits the content under its own identifier, and never contradicts a record. */
  lemma DecideIsFair(c: G.Crypto, me: G.Card, chain: Option<Acc.Chain>, k: Acc.Candidate, id: Id)
    requires k.id == Acc.Address(id)
    ensures M.Fair((prior, target) => Acc.Decide(c, me, chain, k, prior, target), id)
  {
    hide Acc.ParseBinding, Acc.EnvelopeOk, Acc.CardsFor, Acc.AudienceOk, Acc.Find, Acc.SnapshotOf, Acc.Compatible;
  }

  lemma ResultsRetained(
      full: seq<Stop>, kept: seq<Stop>, history: map<Id, M.History>, next: map<Text, Sent>, chains: Chains,
      stored: map<Text, Sent>, answers: map<Text, Answer>)
    requires Results(full, history, next, chains, stored, answers) && Operations(kept) == Operations(full) * next.Keys
    ensures Results(kept, history, next, chains, stored, answers)
  {
    hide Operations, Unfinished;
  }

  /** While every stop belongs to the outbox and no other group send is added, 256 entries never ask for too many stops. */
  lemma RoomForAllStops(
      entries: seq<Stop>, history: map<Id, M.History>, clock: nat, outbox: set<Text>, next: map<Text, Sent>, chains: Chains)
    requires Operations(entries) <= outbox && |outbox| <= 256
    requires forall op :: op in next && next[op].epoch.Some? ==> op in outbox
    requires AllAgree(entries, history, next) && clock + StopLimit <= MaxSafe
    ensures Reconcilable(entries, history, clock, next, chains)
  {
    hide Operations, AllAgree, Unfinished;
    assert Needed(entries, next, chains) <= outbox;
    CardinalitySubset(Operations(entries) + Needed(entries, next, chains), outbox);
    CardinalitySubset(Needed(entries, next, chains), outbox);
  }

  lemma StopsInv(s: Stops)
    requires Ledger.Inv(s)
    ensures |s.entries| <= StopLimit && s.clock <= MaxSafe
    ensures forall i, j :: 0 <= i < j < |s.entries| ==> s.entries[i].operation != s.entries[j].operation
  {
    hide StopsOk;
  }

  lemma NothingDone(before: seq<Stop>, history: map<Id, M.History>, outbox: map<Text, Sent>, chains: Chains)
    ensures Done(outbox, outbox.Keys) == map[] && Needed(before, Done(outbox, outbox.Keys), chains) == {}
    ensures AllAgree(before, history, map[]) && Results(before, history, map[], chains, map[], map[])
    ensures AllStopped(before, before, map[], chains)
    ensures (forall i, j :: 0 <= i < j < |before| ==> before[i].operation != before[j].operation) ==>
      Midway(before, before, outbox, outbox.Keys, chains)
  {
    hide Operations;
  }

  lemma MidwayStep(
      before: seq<Stop>, earlier: seq<Stop>, now: seq<Stop>, outbox: map<Text, Sent>, todo: set<Text>, op: Text, chains: Chains)
    requires Midway(before, earlier, outbox, todo, chains) && op in todo && earlier <= now
    requires forall i, j :: 0 <= i < j < |now| ==> now[i].operation != now[j].operation
    requires Operations(now) == Operations(earlier) + Needed(before, map[op := outbox[op]], chains)
    ensures Midway(before, now, outbox, todo - {op}, chains)
  {
    hide Operations, Needed, Done;
    NeededStep(before, outbox, todo, op, chains);
  }

  lemma MidwayParts(before: seq<Stop>, now: seq<Stop>, outbox: map<Text, Sent>, todo: set<Text>, chains: Chains)
    requires Midway(before, now, outbox, todo, chains)
    ensures before <= now && todo <= outbox.Keys && Operations(now) == Operations(before) + Needed(before, Done(outbox, todo), chains)
  {
    hide Operations, Needed;
  }

  lemma AllReconciled(before: seq<Stop>, now: seq<Stop>, history: map<Id, M.History>, start: nat, outbox: map<Text, Sent>, chains: Chains)
    requires AllAgree(before, history, outbox) && Operations(now) == Operations(before) + Needed(before, outbox, chains)
    requires |now| <= StopLimit && start + |Needed(before, outbox, chains)| <= MaxSafe
    requires forall i, j :: 0 <= i < j < |now| ==> now[i].operation != now[j].operation
    ensures Reconcilable(before, history, start, outbox, chains)
  {
    hide Operations, Needed, AllAgree;
    OperationsCount(now);
  }

  /** One more entry done: what was recorded for the others stays as it was. */
  lemma DoneStep(
      before: seq<Stop>, earlier: seq<Stop>, now: seq<Stop>, history: map<Id, M.History>, outbox: map<Text, Sent>, todo: set<Text>,
      op: Text, chains: Chains, next: map<Text, Sent>, answers: map<Text, Answer>, answer: Answer)
    requires Midway(before, earlier, outbox, todo, chains) && op in todo && earlier <= now
    requires Operations(now) == Operations(earlier) + Needed(before, map[op := outbox[op]], chains)
    requires AllAgree(before, history, Done(outbox, todo)) && Agrees(before, history, op, outbox[op])
    requires Results(earlier, history, Done(outbox, todo), chains, next, answers)
    requires AllStopped(before, earlier, Done(outbox, todo), chains)
    requires forall x :: x in Needed(before, map[op := outbox[op]], chains) ==> StoppedFor(now, x, outbox[op], chains)
    requires outbox[op].epoch.Some? ==> answer == AnswerFor(now, history, chains, op, outbox[op])
    ensures AllAgree(before, history, Done(outbox, todo - {op}))
    ensures AllStopped(before, now, Done(outbox, todo - {op}), chains)
    ensures Results(now, history, Done(outbox, todo - {op}), chains, next[op := Marked(now, op, outbox[op])],
                    if outbox[op].epoch.Some? then answers[op := answer] else answers)
  {
    hide Operations, Unfinished, Needed, StoppedFor, Agrees, Results, AllStopped;
    NeededOne(before, op, outbox[op], chains);
    assert Done(outbox, todo - {op}).Keys == Done(outbox, todo).Keys + {op};
    StoppedStep(before, earlier, now, outbox, todo, op, chains);
    ResultsStep(before, earlier, now, history, outbox, todo, op, chains, next, answers, answer);
  }

  lemma StoppedStep(
      before: seq<Stop>, earlier: seq<Stop>, now: seq<Stop>, outbox: map<Text, Sent>, todo: set<Text>, op: Text, chains: Chains)
    requires op in todo && todo <= outbox.Keys && earlier <= now && AllStopped(before, earlier, Done(outbox, todo), chains)
    requires forall x :: x in Needed(before, map[op := outbox[op]], chains) ==> StoppedFor(now, x, outbox[op], chains)
    ensures AllStopped(before, now, Done(outbox, todo - {op}), chains)
  {
    hide Operations, Needed, StopsSend;
    NeededStep(before, outbox, todo, op, chains);
    NeededOne(before, op, outbox[op], chains);
    NeededIn(before, Done(outbox, todo), chains);
    forall x | x in Done(outbox, todo - {op}) && x in Needed(before, Done(outbox, todo - {op}), chains)
      ensures StoppedFor(now, x, outbox[x], chains) {
      if x != op {
        assert x in Done(outbox, todo) && x in Needed(before, Done(outbox, todo), chains);
        var stop :| stop in earlier && StopsSend(stop, x, outbox[x], chains);
        assert stop in now;
      }
    }
  }

  lemma OnlyOperationsMatter(earlier: seq<Stop>, now: seq<Stop>, history: map<Id, M.History>, chains: Chains, x: Text, sent: Sent)
    requires x in Operations(now) <==> x in Operations(earlier)
    ensures Marked(now, x, sent) == Marked(earlier, x, sent)
    ensures sent.epoch.Some? ==> AnswerFor(now, history, chains, x, sent) == AnswerFor(earlier, history, chains, x, sent)
  {
    hide Operations;
  }

  lemma ResultsStep(
      before: seq<Stop>, earlier: seq<Stop>, now: seq<Stop>, history: map<Id, M.History>, outbox: map<Text, Sent>, todo: set<Text>,
      op: Text, chains: Chains, next: map<Text, Sent>, answers: map<Text, Answer>, answer: Answer)
    requires op in todo && todo <= outbox.Keys && Results(earlier, history, Done(outbox, todo), chains, next, answers)
    requires forall x :: x != op ==> (x in Operations(now) <==> x in Operations(earlier))
    requires outbox[op].epoch.Some? ==> answer == AnswerFor(now, history, chains, op, outbox[op])
    ensures Results(now, history, Done(outbox, todo - {op}), chains, next[op := Marked(now, op, outbox[op])],
                    if outbox[op].epoch.Some? then answers[op := answer] else answers)
  {
    hide Operations, Marked, AnswerFor;
    var fewer, more := Done(outbox, todo), Done(outbox, todo - {op});
    assert more.Keys == fewer.Keys + {op} && op !in fewer;
    forall x | x in fewer ensures Marked(now, x, outbox[x]) == Marked(earlier, x, outbox[x]) {
      OnlyOperationsMatter(earlier, now, history, chains, x, outbox[x]);
    }
    forall x | x in fewer && outbox[x].epoch.Some?
      ensures AnswerFor(now, history, chains, x, outbox[x]) == AnswerFor(earlier, history, chains, x, outbox[x]) {
      OnlyOperationsMatter(earlier, now, history, chains, x, outbox[x]);
    }
  }

  lemma NeededOne(entries: seq<Stop>, operation: Text, sent: Sent, chains: Chains)
    ensures Needed(entries, map[operation := sent], chains)
      == if sent.epoch.Some? && operation !in Operations(entries) && Unfinished(sent)
            && chains(sent.conversation, sent.epoch.value).Terminal? then {operation} else {}
  {
    hide Operations, Unfinished;
  }

  /** What reconciling one entry does, case by case. */
  lemma ReconcileCases(s: Stops, e: Entry, unfinished: bool, retry: Retry)
    requires Ledger.Inv(s) && OperationOk(e.operation)
    ensures var (next, outcome) := Reconcile(s, e, unfinished, retry); var previous := FindStop(s.entries, e.operation);
      && s.entries <= next.entries
      && (previous.Some? ==> next == s && outcome == if Matches(previous.value, e) then Stopped(previous.value) else Inconsistent)
      && (previous.None? && !(unfinished && retry.Terminal?) ==>
            next == s && !outcome.Stopped? && !outcome.Full? && !outcome.Inconsistent?
            && (outcome == Decided(Allowed) <==> unfinished && retry.Allowed?))
      && (previous.None? && unfinished && retry.Terminal? ==>
            (outcome.Stopped? <==> |s.entries| < StopLimit && s.clock < MaxSafe)
            && (!outcome.Stopped? ==> outcome.Full? || outcome.Inconsistent?)
            && (outcome.Stopped? ==>
                  next == Recording(s, e, retry.reason) && Operations(next.entries) == Operations(s.entries) + {e.operation}
                  && Matches(outcome.stop, e) && outcome.stop.reason == retry.reason && outcome.stop in next.entries))
  {
    hide OperationOk, StopBytes, Operations, StopOk;
    FindStopFinds(s.entries, e.operation);
    FullExactly(s, e, unfinished, retry);
    if e.operation !in Operations(s.entries) && |s.entries| < StopLimit && s.clock < MaxSafe && retry.Terminal? {
      RecordingKeepsInv(s, e, retry.reason);
    }
  }

  lemma {:induction false} NothingRetired(entries: seq<Stop>, operations: set<Text>)
    requires |Retained(entries, operations)| == |entries|
    ensures Retained(entries, operations) == entries
    decreases |entries|
  {
    if entries != [] {
      RetainedShrinks(entries[..|entries| - 1], operations);
      NothingRetired(entries[..|entries| - 1], operations);
    }
  }

  lemma {:induction false} RetainedShrinks(entries: seq<Stop>, operations: set<Text>)
    ensures |Retained(entries, operations)| <= |entries|
    decreases |entries|
  {
    if entries != [] { RetainedShrinks(entries[..|entries| - 1], operations); }
  }
}

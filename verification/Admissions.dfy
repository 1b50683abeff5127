/** Which admissions the ledger remembers and which content it holds back, within their limits. */
module Admissions {
  import opened Common
  import opened Access
  import L = Ledger

  datatype History = History(context: Context, observed: nat, expires: int)

  datatype Held = Held(group: Id, epochId: Id, quarantined: bool, observed: nat, expires: int, bytes: nat)

  datatype Losses = Losses(historyRetired: nat, historyRefused: nat, holdRefused: nat, holdExpired: nat)

  datatype Book = Book(history: map<Id, History>, held: map<Id, Held>, clock: nat, losses: Losses)

  /** Counters stop at the largest exact integer. */
  function Plus(count: nat, more: nat): nat {
    if more > L.MaxSafe - count then L.MaxSafe else count + more
  }

  function HeldSizes(held: map<Id, Held>): map<Id, nat> {
    map id | id in held :: held[id].bytes
  }

  ghost function HeldBytes(held: map<Id, Held>): nat {
    Total(HeldSizes(held))
  }

  function Expired(held: map<Id, Held>, now: int): set<Id> {
    set id | id in held && held[id].expires <= now
  }

  ghost predicate HistoryInv(history: map<Id, History>, clock: nat) {
    && |history| <= L.AcceptedLimit
    && (forall id :: id in history ==> history[id].context.id == id && 0 < history[id].observed <= clock)
    && (forall x, y :: x in history && y in history && x != y ==> history[x].observed != history[y].observed)
  }

  ghost predicate HeldInv(held: map<Id, Held>, clock: nat) {
    && |held| <= L.HeldLimit && HeldBytes(held) <= L.HeldByteLimit
    && (forall id :: id in held ==> held[id].observed <= clock)
  }

  ghost predicate Inv(b: Book) {
    b.clock <= L.MaxSafe && HistoryInv(b.history, b.clock) && HeldInv(b.held, b.clock)
  }

  /** One verified, decrypted content, with what surrounds it. `room` flags say whether the store takes the record. */
  datatype Arrival = Arrival(
    id: Id, target: Option<Id>, group: Option<Id>, epochId: Option<Id>, expires: int, bytes: int,
    guarded: set<Id>, now: int, room: bool, roomHeld: bool)

  /** The decision about a content, given its own earlier record and its target's. */
  type Judge = (Option<Context>, Option<Context>) -> Decision

  datatype Result = Failed | Done(decision: Decision, held: bool)

  predicate ArrivalOk(a: Arrival) {
    0 < a.expires <= L.MaxSafe && a.expires > a.now && 1 <= a.bytes <= L.BundleBytes
  }

  function ContextOf(history: map<Id, History>, id: Option<Id>): Option<Context> {
    if id.Some? && id.value in history then Some(history[id.value].context) else None
  }

  function Removable(history: map<Id, History>, a: Arrival): set<Id> {
    set id | id in history && id !in a.guarded && Some(id) != a.target
  }

  predicate IsOldest(history: map<Id, History>, candidates: set<Id>, id: Id)
    requires candidates <= history.Keys
  {
    id in candidates && forall other :: other in candidates && other != id ==> history[id].observed < history[other].observed
  }

  lemma {:induction false} OldestExists(history: map<Id, History>, candidates: set<Id>) returns (id: Id)
    requires candidates <= history.Keys && candidates != {}
    requires forall x, y :: x in history && y in history && x != y ==> history[x].observed != history[y].observed
    ensures IsOldest(history, candidates, id)
    decreases |candidates|
  {
    var x :| x in candidates;
    if candidates == {x} {
      id := x;
    } else {
      var y := OldestExists(history, candidates - {x});
      id := if history[x].observed < history[y].observed then x else y;
    }
  }

  ghost function Oldest(b: Book, a: Arrival): (id: Id)
    requires Inv(b) && Removable(b.history, a) != {}
    ensures IsOldest(b.history, Removable(b.history, a), id)
  {
    assert exists id :: IsOldest(b.history, Removable(b.history, a), id) by {
      var id := OldestExists(b.history, Removable(b.history, a));
    }
    var id :| IsOldest(b.history, Removable(b.history, a), id);
    id
  }

  /** Remembering an admission: the oldest record nothing protects makes way when the history is full. */
  ghost function Remember(b: Book, a: Arrival, context: Context): Option<Book>
    requires Inv(b) && a.id !in b.history
  {
    var full := |b.history| == L.AcceptedLimit;
    if full && Removable(b.history, a) == {} then None
    else if !a.room then None
    else
      var entry := History(context, b.clock + 1, a.expires);
      var kept := if full then b.history - {Oldest(b, a)} else b.history;
      Some(b.(history := kept[a.id := entry], clock := b.clock + 1,
              losses := if full then b.losses.(historyRetired := Plus(b.losses.historyRetired, 1)) else b.losses))
  }

  function Expiring(b: Book, now: int): Book {
    var gone := Expired(b.held, now);
    if gone == {} then b
    else b.(held := b.held - gone, losses := b.losses.(holdExpired := Plus(b.losses.holdExpired, |gone|)))
  }

  function Refusing(b: Book): Book {
    b.(losses := b.losses.(holdRefused := Plus(b.losses.holdRefused, 1)))
  }

  /** Holding content back. Nothing is an error that aborts the transaction. */
  ghost function Retain(b: Book, a: Arrival, decision: Decision): Option<(Book, bool)>
    requires Inv(b) && ArrivalOk(a)
  {
    if decision.Invalid? then Some((b, false))
    else if a.id in b.held then
      var h := b.held[a.id];
      if Some(h.group) == a.group && Some(h.epochId) == a.epochId && h.bytes == a.bytes && h.expires == a.expires
      then Some((b, true)) else None
    else
      var c := Expiring(b, a.now);
      if |c.held| >= L.HeldLimit || HeldBytes(c.held) + a.bytes > L.HeldByteLimit then Some((Refusing(c), false))
      else if a.group.None? || a.epochId.None? then Some((c, false))
      else if c.clock >= L.MaxSafe then None
      else
        var d := c.(clock := c.clock + 1);
        if !a.roomHeld then Some((Refusing(d), false))
        else
          var entry := Held(a.group.value, a.epochId.value, decision.Quarantined?, d.clock, a.expires, a.bytes);
          Some((d.(held := d.held[a.id := entry]), true))
  }

  /** Whether remembering this admission gets as far as taking a number from the shared sequence. */
  predicate Numbers(b: Book, a: Arrival) {
    |b.history| < L.AcceptedLimit || Removable(b.history, a) != {}
  }

  /** An admission that could not be remembered: counted, and the content is held back instead. */
  function Refused(b: Book, a: Arrival): Book {
    b.(clock := if Numbers(b, a) then b.clock + 1 else b.clock,
       losses := b.losses.(historyRefused := Plus(b.losses.historyRefused, 1)))
  }

  ghost function Holding(b: Book, c: Book, a: Arrival, decision: Decision): (Book, Result)
    requires Inv(c) && ArrivalOk(a)
  {
    var kept := Retain(c, a, decision);
    if kept.None? then (b, Failed) else (kept.value.0, Done(decision, kept.value.1))
  }

  ghost function Consider(b: Book, a: Arrival, judge: Judge): (Book, Result)
    requires Inv(b)
  {
    if !ArrivalOk(a) then (b, Failed)
    else
      var decision := judge(ContextOf(b.history, Some(a.id)), ContextOf(b.history, a.target));
      if decision.Failure? then (b, Failed)
      else if !decision.Accepted? then Holding(b, b, a, decision)
      else if a.id in b.history then (b.(held := b.held - {a.id}), Done(decision, false))
      else if Numbers(b, a) && b.clock >= L.MaxSafe then (b, Failed)
      else
        var kept := Remember(b, a, decision.context);
        if kept.Some? then (kept.value.(held := b.held - {a.id}), Done(decision, false))
        else Holding(b, Refused(b, a), a, Quarantined)
  }

  // What considering keeps

  lemma HeldShrinks(held: map<Id, Held>, gone: set<Id>)
    ensures HeldBytes(held - gone) <= HeldBytes(held) && |held - gone| <= |held|
  {
    TotalMonotone(HeldSizes(held - gone), HeldSizes(held));
    assert (held - gone).Keys == held.Keys - gone;
    CardinalitySubset((held - gone).Keys, held.Keys);
  }

  lemma HistoryShrinks(history: map<Id, History>, clock: nat, gone: set<Id>)
    requires HistoryInv(history, clock)
    ensures HistoryInv(history - gone, clock)
  {
    assert (history - gone).Keys == history.Keys - gone;
    CardinalitySubset((history - gone).Keys, history.Keys);
  }

  lemma HistoryAdds(history: map<Id, History>, clock: nat, id: Id, entry: History)
    requires HistoryInv(history, clock) && id !in history && entry.context.id == id && entry.observed == clock + 1
    requires |history| < L.AcceptedLimit
    ensures HistoryInv(history[id := entry], clock + 1)
  {
    var more := history[id := entry];
    NewestIsDistinct(history, clock, id, entry);
    OneMoreEntry(history, id, entry);
    EntriesStayOrdered(history, clock, id, entry);
  }

  lemma OneMoreEntry(history: map<Id, History>, id: Id, entry: History)
    requires id !in history
    ensures |history[id := entry]| == |history| + 1
  {
    assert history[id := entry].Keys == history.Keys + {id};
  }

  lemma EntriesStayOrdered(history: map<Id, History>, clock: nat, id: Id, entry: History)
    requires HistoryInv(history, clock) && entry.context.id == id && entry.observed == clock + 1
    ensures var more := history[id := entry]; forall x :: x in more ==> more[x].context.id == x && 0 < more[x].observed <= clock + 1
  {
  }

  lemma NewestIsDistinct(history: map<Id, History>, clock: nat, id: Id, entry: History)
    requires HistoryInv(history, clock) && entry.observed == clock + 1
    ensures var more := history[id := entry];
      forall x, y :: x in more && y in more && x != y ==> more[x].observed != more[y].observed
  {
    var more := history[id := entry];
    forall x, y | x in more && y in more && x != y ensures more[x].observed != more[y].observed {
      if x == id {
        assert history[y].observed <= clock;
      } else if y == id {
        assert history[x].observed <= clock;
      }
    }
  }

  lemma HistoryGrows(history: map<Id, History>, clock: nat, gone: set<Id>, id: Id, entry: History)
    requires HistoryInv(history, clock) && id !in history && entry.context.id == id && entry.observed == clock + 1
    requires |history - gone| < L.AcceptedLimit
    ensures HistoryInv((history - gone)[id := entry], clock + 1)
  {
    hide HistoryInv;
    HistoryShrinks(history, clock, gone);
    HistoryAdds(history - gone, clock, id, entry);
  }

  lemma RememberKeepsInv(b: Book, a: Arrival, context: Context)
    requires Inv(b) && a.id !in b.history && context.id == a.id && b.clock < L.MaxSafe
    ensures Remember(b, a, context).Some? ==> Inv(Remember(b, a, context).value)
  {
    hide HeldBytes, Removable, HistoryInv;
    if Remember(b, a, context).Some? {
      var full := |b.history| == L.AcceptedLimit;
      var gone := if full then {Oldest(b, a)} else {};
      assert b.history - {} == b.history;
      SmallerHistory(b, a);
      HistoryGrows(b.history, b.clock, gone, a.id, History(context, b.clock + 1, a.expires));
    }
  }

  lemma SmallerHistory(b: Book, a: Arrival)
    requires Inv(b) && (|b.history| == L.AcceptedLimit ==> Removable(b.history, a) != {})
    ensures |b.history| == L.AcceptedLimit ==> |b.history - {Oldest(b, a)}| < L.AcceptedLimit
    ensures |b.history| != L.AcceptedLimit ==> |b.history| < L.AcceptedLimit
  {
    hide HeldInv;
    if |b.history| == L.AcceptedLimit {
      OldestIsKept(b, a);
      assert (b.history - {Oldest(b, a)}).Keys == b.history.Keys - {Oldest(b, a)};
    }
  }

  lemma OldestIsKept(b: Book, a: Arrival)
    requires Inv(b) && Removable(b.history, a) != {}
    ensures Oldest(b, a) in b.history && Oldest(b, a) !in a.guarded && Some(Oldest(b, a)) != a.target
  {
    hide Inv;
  }

  lemma HeldGrows(held: map<Id, Held>, clock: nat, id: Id, h: Held)
    requires HeldInv(held, clock) && id !in held && |held| < L.HeldLimit && HeldBytes(held) + h.bytes <= L.HeldByteLimit
    requires h.observed <= clock
    ensures HeldInv(held[id := h], clock)
  {
    hide HeldBytes;
    HeldBytesAdd(held, id, h);
    assert |held[id := h]| == |held| + 1 by { assert held[id := h].Keys == held.Keys + {id}; }
  }

  lemma HeldBytesAdd(held: map<Id, Held>, id: Id, h: Held)
    requires id !in held
    ensures HeldBytes(held[id := h]) == HeldBytes(held) + h.bytes
  {
    hide Total;
    TotalInsert(HeldSizes(held), id, h.bytes);
    assert HeldSizes(held[id := h]) == HeldSizes(held)[id := h.bytes];
  }

  lemma HoldKeepsInv(b: Book, id: Id, h: Held)
    requires Inv(b) && id !in b.held && |b.held| < L.HeldLimit && HeldBytes(b.held) + h.bytes <= L.HeldByteLimit
    requires h.observed <= b.clock
    ensures Inv(b.(held := b.held[id := h]))
  {
    hide HeldInv, HistoryInv;
    HeldGrows(b.held, b.clock, id, h);
  }

  lemma FewerHeldKeepsInv(b: Book, gone: set<Id>)
    requires Inv(b)
    ensures Inv(b.(held := b.held - gone))
  {
    hide HeldBytes;
    HeldShrinks(b.held, gone);
  }

  lemma CountersKeepInv(b: Book, losses: Losses, clock: nat)
    requires Inv(b) && b.clock <= clock <= L.MaxSafe
    ensures Inv(b.(losses := losses, clock := clock))
  {
    hide HeldBytes;
  }

  lemma ExpiringKeepsInv(b: Book, now: int)
    requires Inv(b)
    ensures Inv(Expiring(b, now)) && Expiring(b, now).history == b.history && Expiring(b, now).clock == b.clock
    ensures Expiring(b, now).held.Keys <= b.held.Keys
  {
    hide Inv;
    var gone := Expired(b.held, now);
    FewerHeldKeepsInv(b, gone);
    InvClock(b);
    CountersKeepInv(b.(held := b.held - gone), Expiring(b, now).losses, b.clock);
  }

  lemma ClockAdvances(b: Book, clock: nat)
    requires Inv(b) && b.clock <= clock <= L.MaxSafe
    ensures Inv(b.(clock := clock))
  {
    hide HeldBytes;
  }

  lemma InvClock(b: Book)
    requires Inv(b)
    ensures b.clock <= L.MaxSafe
  {
    hide HeldBytes;
  }

  lemma RetainKeepsInv(b: Book, a: Arrival, decision: Decision)
    requires Inv(b) && ArrivalOk(a)
    ensures Retain(b, a, decision).Some? ==>
      Inv(Retain(b, a, decision).value.0) && Retain(b, a, decision).value.0.history == b.history
  {
    hide Inv, Expiring, HeldBytes;
    if Retain(b, a, decision).Some? && !decision.Invalid? && a.id !in b.held {
      var c := Expiring(b, a.now);
      ExpiringKeepsInv(b, a.now);
      InvClock(c);
      CountersKeepInv(c, Refusing(c).losses, c.clock);
      if c.clock < L.MaxSafe {
        var d := c.(clock := c.clock + 1);
        CountersKeepInv(c, c.losses, c.clock + 1);
        CountersKeepInv(d, Refusing(d).losses, d.clock);
        if a.group.Some? && a.epochId.Some? && |c.held| < L.HeldLimit && HeldBytes(c.held) + a.bytes <= L.HeldByteLimit {
          HoldKeepsInv(d, a.id, Held(a.group.value, a.epochId.value, decision.Quarantined?, d.clock, a.expires, a.bytes));
        }
      }
    }
  }

  lemma RefusedKeepsInv(b: Book, a: Arrival)
    requires Inv(b) && (Numbers(b, a) ==> b.clock < L.MaxSafe)
    ensures Inv(Refused(b, a)) && Refused(b, a).history == b.history
  {
    hide Inv, Numbers;
    InvClock(b);
    CountersKeepInv(b, Refused(b, a).losses, Refused(b, a).clock);
  }

  /** What a decision promises about the context it admits. */
  ghost predicate Fair(judge: Judge, id: Id) {
    forall p, t :: judge(p, t).Accepted? ==> judge(p, t).context.id == id && (p.Some? ==> judge(p, t).context == p.value)
  }

  lemma ConsiderKeepsInv(b: Book, a: Arrival, judge: Judge)
    requires Inv(b) && Fair(judge, a.id)
    ensures Inv(Consider(b, a, judge).0)
  {
    hide Inv, Remember, Retain, Removable, HeldBytes;
    InvClock(b);
    var decision := judge(ContextOf(b.history, Some(a.id)), ContextOf(b.history, a.target));
    FewerHeldKeepsInv(b, {a.id});
    if ArrivalOk(a) && !decision.Failure? {
      if !decision.Accepted? {
        RetainKeepsInv(b, a, decision);
      } else if a.id !in b.history && !(Numbers(b, a) && b.clock >= L.MaxSafe) {
        RefusedKeepsInv(b, a);
        RetainKeepsInv(Refused(b, a), a, Quarantined);
        if Remember(b, a, decision.context).Some? {
          RememberNumbers(b, a, decision.context);
          RememberKeepsInv(b, a, decision.context);
          FewerHeldKeepsInv(Remember(b, a, decision.context).value, {a.id});
        }
      }
    }
  }

  lemma RememberNumbers(b: Book, a: Arrival, context: Context)
    requires Inv(b) && a.id !in b.history && Remember(b, a, context).Some?
    ensures Numbers(b, a) && Remember(b, a, context).value.held == b.held
  {
    hide HeldBytes;
  }

  /** An admission on record is never altered. It goes only to make way in a full history, and only when neither
      guarded, nor the content's own record, nor its target's. */
  lemma RecordsAreImmutable(b: Book, a: Arrival, judge: Judge, id: Id)
    requires Inv(b) && id in b.history
    ensures var c := Consider(b, a, judge).0;
      (id in c.history ==> c.history[id] == b.history[id])
      && (id !in c.history ==> |b.history| == L.AcceptedLimit && id !in a.guarded && Some(id) != a.target && id != a.id)
  {
    hide Inv, Retain, Removable, HeldBytes, Oldest;
    InvClock(b);
    var decision := judge(ContextOf(b.history, Some(a.id)), ContextOf(b.history, a.target));
    if ArrivalOk(a) && !decision.Failure? {
      if !decision.Accepted? {
        RetainKeepsInv(b, a, decision);
      } else if a.id !in b.history && !(Numbers(b, a) && b.clock >= L.MaxSafe) {
        RefusedKeepsInv(b, a);
        RetainKeepsInv(Refused(b, a), a, Quarantined);
        if |b.history| == L.AcceptedLimit && Removable(b.history, a) != {} { OldestIsKept(b, a); }
      }
    }
  }

  /** Accepted content is on record with the decision's context, and no longer held back. */
  lemma AcceptedIsRecorded(b: Book, a: Arrival, judge: Judge)
    requires Inv(b) && Fair(judge, a.id) && Consider(b, a, judge).1.Done? && Consider(b, a, judge).1.decision.Accepted?
    ensures var (c, r) := Consider(b, a, judge);
      a.id in c.history && a.id !in c.held && c.history[a.id].context == r.decision.context
  {
    hide Inv, Retain, Removable, HeldBytes, Oldest;
    var decision := judge(ContextOf(b.history, Some(a.id)), ContextOf(b.history, a.target));
    assert Fair(judge, a.id);
  }

  lemma HistoryBound(b: Book)
    requires Inv(b)
    ensures |b.history| <= L.AcceptedLimit
  {
    hide HeldInv;
  }

  lemma RetainClock(b: Book, a: Arrival, decision: Decision)
    requires Inv(b) && ArrivalOk(a)
    ensures Retain(b, a, decision).Some? ==> b.clock <= Retain(b, a, decision).value.0.clock
  {
    hide Inv, HeldBytes, Expiring;
    ExpiringKeepsInv(b, a.now);
  }

  lemma RememberClock(b: Book, a: Arrival, context: Context)
    requires Inv(b) && a.id !in b.history
    ensures Remember(b, a, context).Some? ==> b.clock <= Remember(b, a, context).value.clock
  {
    hide Inv, HeldBytes, Oldest, Removable;
  }

  lemma ConsiderClock(b: Book, a: Arrival, judge: Judge)
    requires Inv(b)
    ensures b.clock <= Consider(b, a, judge).0.clock
  {
    hide Inv, Remember, Retain;
    if ArrivalOk(a) {
      var decision := judge(ContextOf(b.history, Some(a.id)), ContextOf(b.history, a.target));
      RetainClock(b, a, decision);
      if !decision.Failure? && decision.Accepted? && a.id !in b.history && !(Numbers(b, a) && b.clock >= L.MaxSafe) {
        RememberClock(b, a, decision.context);
        RefusedKeepsInv(b, a);
        RetainClock(Refused(b, a), a, Quarantined);
      }
    }
  }
}

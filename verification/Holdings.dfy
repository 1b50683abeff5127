/** What considering one content does to the ledger's book, outcome by outcome. */
module Holdings {
  import opened Common
  import opened Access
  import opened Admissions
  import L = Ledger

  /** What is still held back at `now`. */
  function Live(b: Book, now: int): map<Id, Held> {
    map id | id in b.held && now < b.held[id].expires :: b.held[id]
  }

  ghost function Size(held: map<Id, Held>): nat {
    Total(Sizes(held))
  }

  function Sizes(held: map<Id, Held>): map<Id, nat> {
    map id | id in held :: held[id].bytes
  }

  /** Within 128 contents and 16 MiB. */
  ghost predicate RoomFor(held: map<Id, Held>, bytes: int) {
    |held| < 128 && Size(held) + bytes <= 16 * 1048576
  }

  function OneMore(count: nat): nat {
    if count < 9007199254740991 then count + 1 else 9007199254740991
  }

  predicate Legal(a: Arrival) {
    0 < a.expires <= 9007199254740991 && a.now < a.expires && 1 <= a.bytes <= 6 * 1048576
  }

  /** The decision, given the record of the content itself and of its target. */
  function Verdict(b: Book, a: Arrival, judge: Judge): Decision {
    judge(if a.id in b.history then Some(b.history[a.id].context) else None,
          if a.target.Some? && a.target.value in b.history then Some(b.history[a.target.value].context) else None)
  }

  /** A content that is not to be had for good is held back: once, while there is room for it among what has not
      expired, with its group, its epoch, its size, its deadline and its status. */
  ghost predicate HeldBack(b: Book, a: Arrival, quarantined: bool, c: Book, held: bool)
    requires Legal(a)
  {
    var live := Live(b, a.now);
    if a.id in b.held then held && c == b
    else
    ExpiryCounted(b.losses.holdExpired, c.losses.holdExpired, |b.held.Keys - live.Keys|) &&
    if RoomFor(live, a.bytes) && a.group.Some? && a.epochId.Some? && a.roomHeld then
      && held && c.clock == b.clock + 1
      && c.held == live[a.id := Held(a.group.value, a.epochId.value, quarantined, b.clock + 1, a.expires, a.bytes)]
      && c.history == b.history && c.losses.holdRefused == b.losses.holdRefused
    else
      && !held && c.held == live && c.history == b.history
      && c.losses.holdRefused ==
           (if RoomFor(live, a.bytes) && (a.group.None? || a.epochId.None?) then b.losses.holdRefused else OneMore(b.losses.holdRefused))
  }

  predicate ExpiryCounted(before: nat, after: nat, gone: nat) {
    after == if gone == 0 then before else Min(before + gone, 9007199254740991)
  }

  /** It is an error where the same identifier is held with other particulars, or the sequence is exhausted. */
  ghost predicate CannotHold(b: Book, a: Arrival) {
    if a.id in b.held then
      var h := b.held[a.id];
      a.group != Some(h.group) || a.epochId != Some(h.epochId) || a.bytes != h.bytes || a.expires != h.expires
    else RoomFor(Live(b, a.now), a.bytes) && a.group.Some? && a.epochId.Some? && b.clock >= 9007199254740991
  }

  lemma LiveIsUnexpired(b: Book, now: int)
    ensures b.held - Expired(b.held, now) == Live(b, now)
    ensures b.held.Keys - Live(b, now).Keys == Expired(b.held, now)
    ensures Expired(b.held, now) == {} ==> Live(b, now) == b.held
  {
  }

  lemma SizeIsHeldBytes(held: map<Id, Held>)
    ensures HeldBytes(held) == Size(held)
  {
    assert HeldSizes(held) == Sizes(held);
  }

  lemma LiveIsRest(b: Book, now: int)
    ensures Expiring(b, now).held == Live(b, now) && Expiring(b, now).clock == b.clock && Expiring(b, now).history == b.history
    ensures Expiring(b, now).losses.holdRefused == b.losses.holdRefused
    ensures HeldBytes(Live(b, now)) == Size(Live(b, now))
    ensures ExpiryCounted(b.losses.holdExpired, Expiring(b, now).losses.holdExpired, |b.held.Keys - Live(b, now).Keys|)
  {
    hide Live, Expired, HeldBytes, Size;
    LiveIsUnexpired(b, now);
    SizeIsHeldBytes(Live(b, now));
  }

  lemma RetainExactly(b: Book, a: Arrival, decision: Decision)
    requires Inv(b) && ArrivalOk(a) && !decision.Invalid?
    ensures Retain(b, a, decision).None? <==> CannotHold(b, a)
    ensures Retain(b, a, decision).Some? ==> HeldBack(b, a, decision.Quarantined?, Retain(b, a, decision).value.0, Retain(b, a, decision).value.1)
  {
    hide Inv, Retain, HeldBack, CannotHold;
    if a.id in b.held {
      RetainsAgain(b, a, decision);
    } else {
      RetainsAnew(b, a, decision);
    }
  }

  lemma RetainsAgain(b: Book, a: Arrival, decision: Decision)
    requires Inv(b) && ArrivalOk(a) && !decision.Invalid? && a.id in b.held
    ensures Retain(b, a, decision).None? <==> CannotHold(b, a)
    ensures Retain(b, a, decision).Some? ==> HeldBack(b, a, decision.Quarantined?, Retain(b, a, decision).value.0, Retain(b, a, decision).value.1)
  {
    hide Inv, Expiring, HeldBytes, Size, Live, ExpiryCounted;
  }

  lemma RetainsAnew(b: Book, a: Arrival, decision: Decision)
    requires Inv(b) && ArrivalOk(a) && !decision.Invalid? && a.id !in b.held
    ensures Retain(b, a, decision).None? <==> CannotHold(b, a)
    ensures Retain(b, a, decision).Some? ==> HeldBack(b, a, decision.Quarantined?, Retain(b, a, decision).value.0, Retain(b, a, decision).value.1)
  {
    hide Inv, Expiring, HeldBytes, Size, Live, ExpiryCounted, Plus;
    LiveIsRest(b, a.now);
    PlusOne();
  }

  lemma PlusOne()
    ensures forall count :: Plus(count, 1) == OneMore(count)
  {
  }

  /** What cannot be decided yet, or not any more, is held back; nothing else in the book changes for it. */
  lemma UndecidedIsHeld(b: Book, a: Arrival, judge: Judge)
    requires Inv(b) && Legal(a) && (Verdict(b, a, judge).Awaiting? || Verdict(b, a, judge).Quarantined?)
    ensures Consider(b, a, judge).1 == Failed <==> CannotHold(b, a)
    ensures Consider(b, a, judge).1 == Failed ==> Consider(b, a, judge).0 == b
    ensures Consider(b, a, judge).1 != Failed ==>
      && Consider(b, a, judge).1.decision == Verdict(b, a, judge)
      && HeldBack(b, a, Verdict(b, a, judge).Quarantined?, Consider(b, a, judge).0, Consider(b, a, judge).1.held)
  {
    hide Inv, Retain, HeldBack, CannotHold, Remember;
    RetainExactly(b, a, Verdict(b, a, judge));
  }

  /** What is malformed, refused or fails leaves no trace. */
  lemma RefusalIsTraceless(b: Book, a: Arrival, judge: Judge)
    requires Inv(b) && (!Legal(a) || Verdict(b, a, judge).Failure? || Verdict(b, a, judge).Invalid?)
    ensures Consider(b, a, judge) == (b, if Legal(a) && Verdict(b, a, judge).Invalid? then Done(Invalid, false) else Failed)
  {
    hide Inv, Remember;
  }

  /** The record made to go: of those neither guarded nor the target's, the one observed first. */
  ghost predicate Retires(b: Book, a: Arrival, gone: Id) {
    && gone in b.history && gone !in a.guarded && a.target != Some(gone)
    && forall other :: other in b.history && other !in a.guarded && a.target != Some(other) ==> b.history[gone].observed <= b.history[other].observed
  }

  ghost predicate Replaceable(b: Book, a: Arrival) {
    exists id :: id in b.history && id !in a.guarded && a.target != Some(id)
  }

  /** An admission that is new is on record from now on, under the next number; only where 4096 are on record already
      does the oldest unprotected one go. Either way the content is not held back any more. */
  lemma AdmissionIsRecorded(b: Book, a: Arrival, judge: Judge)
    requires Inv(b) && Legal(a) && Verdict(b, a, judge).Accepted? && a.id !in b.history
    requires a.room && b.clock < 9007199254740991 && (|b.history| < 4096 || Replaceable(b, a))
    ensures var (c, r) := Consider(b, a, judge);
      && r == Done(Verdict(b, a, judge), false) && c.clock == b.clock + 1 && c.held == b.held - {a.id}
      && (|b.history| < 4096 ==>
            c.history == b.history[a.id := History(Verdict(b, a, judge).context, b.clock + 1, a.expires)] && c.losses == b.losses)
      && (|b.history| == 4096 ==> exists gone: Id :: (
            Retires(b, a, gone)
            && c.history == (b.history - {gone})[a.id := History(Verdict(b, a, judge).context, b.clock + 1, a.expires)]
            && c.losses == b.losses.(historyRetired := Plus(b.losses.historyRetired, 1))))
  {
    hide Inv, Remember, Numbers, Retires;
    HistoryBound(b);
    CandidatesAre(b, a);
    RememberExactly(b, a, Verdict(b, a, judge).context);
  }

  lemma RememberExactly(b: Book, a: Arrival, context: Context)
    requires Inv(b) && a.id !in b.history && a.room && (|b.history| < 4096 || Removable(b.history, a) != {}) && |b.history| <= 4096
    ensures Numbers(b, a) && Remember(b, a, context).Some?
    ensures var c := Remember(b, a, context).value;
      && c.clock == b.clock + 1 && c.held == b.held
      && (|b.history| < 4096 ==> c.history == b.history[a.id := History(context, b.clock + 1, a.expires)] && c.losses == b.losses)
      && (|b.history| == 4096 ==> exists gone: Id :: (
            Retires(b, a, gone)
            && c.history == (b.history - {gone})[a.id := History(context, b.clock + 1, a.expires)]
            && c.losses == b.losses.(historyRetired := Plus(b.losses.historyRetired, 1))))
  {
    hide Inv, Oldest, Removable, Retires;
    if |b.history| == 4096 {
      OldestRetires(b, a);
    }
  }

  lemma CandidatesAre(b: Book, a: Arrival)
    ensures Replaceable(b, a) <==> Removable(b.history, a) != {}
  {
    if id :| id in b.history && id !in a.guarded && a.target != Some(id) {
      assert id in Removable(b.history, a);
    }
  }

  lemma OldestRetires(b: Book, a: Arrival)
    requires Inv(b) && Removable(b.history, a) != {}
    ensures Retires(b, a, Oldest(b, a))
  {
    hide Inv, Oldest;
    var gone := Oldest(b, a);
    forall other | other in b.history && other !in a.guarded && a.target != Some(other)
      ensures b.history[gone].observed <= b.history[other].observed
    {
      assert other in Removable(b.history, a);
    }
  }

  /** Content on record already is accepted without another record, and not held back any more. */
  lemma AdmissionIsConfirmed(b: Book, a: Arrival, judge: Judge)
    requires Inv(b) && Legal(a) && Verdict(b, a, judge).Accepted? && a.id in b.history
    ensures Consider(b, a, judge) == (b.(held := b.held - {a.id}), Done(Verdict(b, a, judge), false))
  {
    hide Inv, Remember, Retain;
  }

  /** An admission that finds no room is counted and held back as quarantined; one that finds no number fails. */
  lemma AdmissionIsPutOff(b: Book, a: Arrival, judge: Judge)
    requires Inv(b) && Legal(a) && Verdict(b, a, judge).Accepted? && a.id !in b.history
    requires !(a.room && b.clock < 9007199254740991 && (|b.history| < 4096 || Replaceable(b, a)))
    ensures
      var (c, r) := Consider(b, a, judge);
      var makesWay := |b.history| < 4096 || Replaceable(b, a);
      var d := b.(clock := if makesWay then b.clock + 1 else b.clock, losses := b.losses.(historyRefused := Plus(b.losses.historyRefused, 1)));
      if makesWay && b.clock >= 9007199254740991 then r == Failed && c == b
      else if CannotHold(d, a) then r == Failed && c == b
      else r.Done? && r.decision == Quarantined && HeldBack(d, a, true, c, r.held)
  {
    hide Inv, Retain, HeldBack, CannotHold, Removable, Replaceable, Oldest;
    HistoryBound(b);
    CandidatesAre(b, a);
    if Numbers(b, a) && b.clock >= L.MaxSafe {
    } else {
      RefusedKeepsInv(b, a);
      RetainExactly(Admissions.Refused(b, a), a, Quarantined);
    }
  }

  /** The limits of the book: 4096 admissions, 128 contents held back, 16 MiB of them. */
  lemma BookLimits(b: Book)
    requires Inv(b)
    ensures |b.history| <= 4096 && |b.held| <= 128 && Size(b.held) <= 16 * 1048576
  {
    hide HeldBytes, Size;
    SizeIsHeldBytes(b.held);
  }

  /** A counter of losses goes up by as many as were lost, and stops at the largest exact integer. */
  lemma LossesAddUp(count: nat, more: nat)
    requires count <= 9007199254740991
    ensures Plus(count, more) == Min(count + more, 9007199254740991)
  {
  }
}

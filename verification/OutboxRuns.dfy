/** The outbox replaced again and again: why that is never refused for want of room. */
module OutboxRuns {
  import opened Common
  import opened Texts
  import opened Ledger
  import opened LedgerProofs
  import opened Ledgers
  import M = Admissions

  function GroupSends(outbox: map<Text, Sent>): set<Text> {
    set op | op in outbox && outbox[op].epoch.Some?
  }

  /** Every stop belongs to a group send of the outbox. */
  ghost predicate Covered(s: Stops, outbox: map<Text, Sent>) {
    Inv(s) && Operations(s.entries) <= GroupSends(outbox)
  }

  /** One replacement: when it starts the shared sequence may have moved on. */
  datatype Change = Change(
    clock: nat, history: map<Id, M.History>, next: map<Text, Sent>, chains: Chains, ok: bool, stops: Stops, stored: map<Text, Sent>)

  function Before(s: Stops, c: Change): Stops {
    Stops(s.entries, c.clock)
  }

  function Outbox(outbox: map<Text, Sent>, c: Change): map<Text, Sent> {
    if c.ok then c.stored else outbox
  }

  /** The replacements follow one another, each as the ledger carries it out. */
  ghost predicate Follow(s: Stops, outbox: map<Text, Sent>, changes: seq<Change>)
    decreases |changes|
  {
    changes == [] ||
    var c := changes[0];
    && s.clock <= c.clock && Inv(c.stops) && Replaced(Before(s, c), c.history, c.next, c.chains, c.ok, c.stops, c.stored)
    && Follow(c.stops, Outbox(outbox, c), changes[1..])
  }

  /** At every replacement the group sends before and after, together, are at most 256, and the sequence is not used up. */
  ghost predicate Modest(outbox: map<Text, Sent>, changes: seq<Change>)
    decreases |changes|
  {
    changes == [] ||
    var c := changes[0];
    && |GroupSends(outbox) + GroupSends(c.next)| <= 256 && c.clock + 256 <= 9007199254740991
    && Modest(Outbox(outbox, c), changes[1..])
  }

  /** A replacement fails only where the new outbox contradicts the ledger. */
  ghost predicate OnlyForContradiction(s: Stops, changes: seq<Change>)
    decreases |changes|
  {
    changes == [] ||
    var c := changes[0];
    && (c.ok <==> AllAgree(s.entries, c.history, c.next))
    && OnlyForContradiction(c.stops, changes[1..])
  }

  lemma RoomForChange(s: Stops, outbox: map<Text, Sent>, c: Change)
    requires Covered(s, outbox) && |GroupSends(outbox) + GroupSends(c.next)| <= StopLimit && c.clock + StopLimit <= MaxSafe
    requires AllAgree(s.entries, c.history, c.next)
    ensures Reconcilable(s.entries, c.history, c.clock, c.next, c.chains)
  {
    hide Inv, Operations, AllAgree, Unfinished;
    RoomForAllStops(s.entries, c.history, c.clock, GroupSends(outbox) + GroupSends(c.next), c.next, c.chains);
  }

  /** The stops kept belong to the outbox kept. */
  lemma StaysCovered(s: Stops, outbox: map<Text, Sent>, c: Change)
    requires Covered(s, outbox) && Inv(c.stops) && Replaced(Before(s, c), c.history, c.next, c.chains, c.ok, c.stops, c.stored)
    ensures Covered(c.stops, Outbox(outbox, c))
  {
    hide Inv, Operations, HistoryMatches, Unfinished, OperationOk;
    if c.ok {
      forall op | op in Operations(c.stops.entries) ensures op in GroupSends(c.stored) {
        assert op in c.next && Agrees(s.entries, c.history, op, c.next[op]);
        if op in Operations(s.entries) { FindStopFinds(s.entries, op); }
        assert c.stored[op] == Marked(c.stops.entries, op, c.next[op]);
      }
    } else {
      SameOperations(s, c.clock);
    }
  }

  lemma SameOperations(s: Stops, clock: nat)
    ensures Operations(Stops(s.entries, clock).entries) == Operations(s.entries)
  {
  }

  /** However often the outbox is replaced, and whatever the groups' chains say each time: the stops stay within the
      outbox, and while the group sends before and after each replacement are together at most 256, none is refused for
      want of room. */
  lemma {:induction false} NeverRefusedForRoom(s: Stops, outbox: map<Text, Sent>, changes: seq<Change>)
    requires Covered(s, outbox) && Follow(s, outbox, changes) && Modest(outbox, changes)
    ensures OnlyForContradiction(s, changes)
    decreases |changes|
  {
    hide Covered, AllAgree, Inv;
    if changes != [] {
      var c := changes[0];
      if AllAgree(s.entries, c.history, c.next) { RoomForChange(s, outbox, c); }
      StaysCovered(s, outbox, c);
      NeverRefusedForRoom(c.stops, Outbox(outbox, c), changes[1..]);
    }
  }
}

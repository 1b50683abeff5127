/** The bounded memory of packets already delivered or sent, oldest first. */
module SeenHistory {
  import opened Common

  const MaxSeen := 4096

  datatype Entry = Entry(id: Id, expires: int)

  type History = seq<Entry>

  predicate Knows(h: History, id: Id) {
    exists e :: e in h && e.id == id
  }

  /** The answer to "has this packet been seen?". */
  predicate Live(h: History, id: Id, now: int) {
    exists e :: e in h && e.id == id && e.expires > now
  }

  ghost predicate Inv(h: History) {
    |h| <= MaxSeen && forall i, j :: 0 <= i < j < |h| ==> h[i].id != h[j].id
  }

  /** The entries that pass the filter, in order. */
  function Keep(h: History, f: Entry -> bool): (k: History)
    ensures |k| <= |h| && forall e :: e in k <==> e in h && f(e)
  {
    if h == [] then [] else Keep(h[..|h| - 1], f) + (if f(h[|h| - 1]) then [h[|h| - 1]] else [])
  }

  /** Drops every entry whose deadline has passed. */
  function Sweep(h: History, now: int): History {
    Keep(h, (e: Entry) => e.expires > now)
  }

  /** Asking about a packet drops its entry if that has expired. */
  function Ask(h: History, id: Id, now: int): History {
    Keep(h, (e: Entry) => e.id != id || e.expires > now)
  }

  /** A packet not known yet goes to the young end; the oldest makes room. */
  function Remember(h: History, id: Id, expires: int): History {
    (if |h| >= MaxSeen then h[1..] else h) + [Entry(id, expires)]
  }

  // Runs

  datatype Event =
    | Asked(id: Id, now: int)
    | Swept(now: int)
    | Remembered(id: Id, expires: int, now: int)   // a packet of our own is sent
    | Delivered(id: Id, expires: int, now: int)    // a packet is handed to the application

  function Effect(h: History, e: Event): History {
    match e
    case Asked(id, now) => Ask(h, id, now)
    case Swept(now) => Sweep(h, now)
    case Remembered(id, expires, now) => Remember(h, id, expires)
    case Delivered(id, expires, now) => Remember(Ask(h, id, now), id, expires)
  }

  predicate Enabled(h: History, clock: int, e: Event) {
    && clock <= e.now
    && (e.Remembered? ==> !Knows(h, e.id))
    && (e.Delivered? ==> !Live(h, e.id, e.now) && e.now < e.expires)
  }

  predicate Runs(h: History, clock: int, events: seq<Event>)
    decreases |events|
  {
    events == [] || (Enabled(h, clock, events[0]) && Runs(Effect(h, events[0]), events[0].now, events[1..]))
  }

  function After(h: History, events: seq<Event>): History
    decreases |events|
  {
    if events == [] then h else After(Effect(h, events[0]), events[1..])
  }

  function Clock(clock: int, events: seq<Event>): int {
    if events == [] then clock else events[|events| - 1].now
  }

  /** The other packets remembered during the run. */
  function Others(events: seq<Event>, id: Id): set<Id>
    decreases |events|
  {
    if events == [] then {} else
      (if (events[0].Remembered? || events[0].Delivered?) && events[0].id != id then {events[0].id} else {}) + Others(events[1..], id)
  }

  // Invariant

  lemma {:induction false} KeepIsInv(h: History, f: Entry -> bool)
    requires Inv(h)
    ensures Inv(Keep(h, f))
    decreases |h|
  {
    if h != [] {
      var rest, last := h[..|h| - 1], h[|h| - 1];
      KeepIsInv(rest, f);
      forall e | e in Keep(rest, f) ensures e.id != last.id {
        assert e in rest;
      }
    }
  }

  lemma {:induction false} KeepAll(h: History, f: Entry -> bool)
    requires forall e :: e in h ==> f(e)
    ensures Keep(h, f) == h
    decreases |h|
  {
    if h != [] {
      assert h == h[..|h| - 1] + [h[|h| - 1]];
      assert forall e :: e in h[..|h| - 1] ==> e in h;
      KeepAll(h[..|h| - 1], f);
    }
  }

  lemma RememberIsInv(h: History, id: Id, expires: int)
    requires Inv(h) && !Knows(h, id)
    ensures Inv(Remember(h, id, expires))
  {
    var rest := if |h| >= MaxSeen then h[1..] else h;
    forall i | 0 <= i < |rest| ensures rest[i].id != id {
      assert rest[i] in h;
    }
  }

  lemma AskForgetsExpired(h: History, id: Id, now: int)
    requires !Live(h, id, now)
    ensures !Knows(Ask(h, id, now), id)
  {
  }

  lemma SweepForgets(h: History, id: Id, now: int)
    requires !Knows(h, id)
    ensures !Knows(Sweep(h, now), id)
  {
  }

  lemma EffectIsInv(h: History, clock: int, e: Event)
    requires Inv(h) && Enabled(h, clock, e)
    ensures Inv(Effect(h, e))
  {
    hide Inv, Keep, Remember;
    match e
    case Asked(id, now) => KeepIsInv(h, (x: Entry) => x.id != id || x.expires > now);
    case Swept(now) => KeepIsInv(h, (x: Entry) => x.expires > now);
    case Remembered(id, expires, now) => RememberIsInv(h, id, expires);
    case Delivered(id, expires, now) =>
      KeepIsInv(h, (x: Entry) => x.id != id || x.expires > now);
      AskForgetsExpired(h, id, now);
      RememberIsInv(Ask(h, id, now), id, expires);
  }

  // At-most-once delivery

  /** The packets remembered after `id`. */
  function NewerThan(h: History, id: Id): set<Id> {
    if h == [] || h[|h| - 1].id == id then {} else NewerThan(h[..|h| - 1], id) + {h[|h| - 1].id}
  }

  lemma {:induction false} KeepShrinksNewer(h: History, f: Entry -> bool, e: Entry)
    requires Inv(h) && e in h && f(e)
    ensures NewerThan(Keep(h, f), e.id) <= NewerThan(h, e.id)
    decreases |h|
  {
    var rest, last := h[..|h| - 1], h[|h| - 1];
    if last.id == e.id {
      var i :| 0 <= i < |h| && h[i] == e;
      assert i == |h| - 1;
      assert Keep(h, f)[..|Keep(h, f)| - 1] == Keep(rest, f);
    } else {
      KeepShrinksNewer(rest, f, e);
      if f(last) {
        assert Keep(h, f)[..|Keep(h, f)| - 1] == Keep(rest, f);
      } else {
        assert Keep(h, f) == Keep(rest, f);
      }
    }
  }

  lemma {:induction false} DropFrontKeepsNewer(h: History, id: Id)
    requires h != [] && h[0].id != id && Knows(h, id)
    ensures NewerThan(h[1..], id) == NewerThan(h, id)
    decreases |h|
  {
    var rest, last := h[..|h| - 1], h[|h| - 1];
    assert h[1..][..|h[1..]| - 1] == rest[1..];
    if last.id != id {
      assert Knows(rest, id) by { var e :| e in h && e.id == id; assert e in rest; }
      DropFrontKeepsNewer(rest, id);
    }
  }

  lemma {:induction false} NewerThanFront(h: History)
    requires Inv(h) && h != []
    ensures |NewerThan(h, h[0].id)| == |h| - 1
    ensures forall x :: x in NewerThan(h, h[0].id) ==> Knows(h, x)
    decreases |h|
  {
    var rest, last := h[..|h| - 1], h[|h| - 1];
    if |h| > 1 {
      NewerThanFront(rest);
      forall x | x in NewerThan(rest, h[0].id) ensures Knows(h, x) && x != last.id {
        var e :| e in rest && e.id == x;
        assert e in h;
      }
      assert last in h;
    }
  }

  /** As long as the entry is there, everything younger was remembered since. It goes only when
      it expires or when enough other packets have been remembered. */
  ghost predicate Tracks(h: History, clock: int, e: Entry, others: set<Id>) {
    (e in h && NewerThan(h, e.id) <= others) || e.expires <= clock || MaxSeen <= |others|
  }

  lemma RememberTracks(h: History, clock: int, e: Entry, others: set<Id>, id: Id, expires: int)
    requires Inv(h) && e in h && NewerThan(h, e.id) <= others && !Knows(h, id)
    ensures Tracks(Remember(h, id, expires), clock, e, others + {id})
  {
    var next := Remember(h, id, expires);
    var kept := if |h| >= MaxSeen then h[1..] else h;
    assert next[..|next| - 1] == kept;
    if |h| >= MaxSeen && h[0].id == e.id {
      NewerThanFront(h);
      CardinalityInsert(NewerThan(h, e.id), id);
      CardinalitySubset(NewerThan(h, e.id) + {id}, others + {id});
    } else {
      if |h| >= MaxSeen {
        DropFrontKeepsNewer(h, e.id);
        assert e in h[1..];
      }
      assert NewerThan(next, e.id) == NewerThan(h, e.id) + {id};
    }
  }

  lemma StepTracks(h: History, clock: int, e: Entry, others: set<Id>, event: Event)
    requires Inv(h) && Tracks(h, clock, e, others) && Enabled(h, clock, event)
    ensures Tracks(Effect(h, event), event.now, e, others + Others([event], e.id))
  {
    hide Inv, Keep, NewerThan, Remember;
    var more := others + Others([event], e.id);
    CardinalitySubset(others, more);
    if e in h && NewerThan(h, e.id) <= others && event.now < e.expires {
      match event
      case Asked(id, now) => KeepShrinksNewer(h, (x: Entry) => x.id != id || x.expires > now, e);
      case Swept(now) => KeepShrinksNewer(h, (x: Entry) => x.expires > now, e);
      case Remembered(id, expires, now) => RememberTracks(h, now, e, others, id, expires);
      case Delivered(id, expires, now) =>
        var f := (x: Entry) => x.id != id || x.expires > now;
        assert id != e.id;
        KeepShrinksNewer(h, f, e);
        KeepIsInv(h, f);
        AskForgetsExpired(h, id, now);
        RememberTracks(Ask(h, id, now), now, e, others, id, expires);
    }
  }

  lemma {:induction false} RunTracks(h: History, clock: int, e: Entry, others: set<Id>, events: seq<Event>)
    requires Inv(h) && Tracks(h, clock, e, others) && Runs(h, clock, events)
    ensures Inv(After(h, events))
    ensures Tracks(After(h, events), Clock(clock, events), e, others + Others(events, e.id))
    decreases |events|
  {
    hide Inv, Tracks, NewerThan, Enabled, Effect;
    if events == [] {
      assert others + Others(events, e.id) == others;
    } else {
      StepTracks(h, clock, e, others, events[0]);
      EffectIsInv(h, clock, events[0]);
      RunTracks(Effect(h, events[0]), events[0].now, e, others + Others([events[0]], e.id), events[1..]);
      assert others + Others([events[0]], e.id) + Others(events[1..], e.id) == others + Others(events, e.id);
    }
  }

  /** At most once: between two deliveries of one packet, with one deadline, at least 4096
      other packets were remembered, whatever was asked, swept, sent or delivered meanwhile. */
  lemma RedeliveryNeedsManyOthers(h: History, clock: int, id: Id, expires: int, first: int, events: seq<Event>, second: int)
    requires Inv(h) && Enabled(h, clock, Delivered(id, expires, first))
    requires var h1 := Effect(h, Delivered(id, expires, first));
      && Runs(h1, first, events)
      && Enabled(After(h1, events), Clock(first, events), Delivered(id, expires, second))
    ensures 4096 <= |Others(events, id)|
  {
    hide Inv, Keep, NewerThan;
    var deliver := Delivered(id, expires, first);
    var h1 := Effect(h, deliver);
    var e := Entry(id, expires);
    EffectIsInv(h, clock, deliver);
    JustRemembered(Ask(h, id, first), id, expires);
    RunTracks(h1, first, e, {}, events);
    assert {} + Others(events, id) == Others(events, id);
  }

  /** The packet was sent or delivered during the run, with a deadline after `now`. */
  predicate Happened(events: seq<Event>, id: Id, now: int) {
    exists e :: e in events && (e.Remembered? || e.Delivered?) && e.id == id && now < e.expires
  }

  lemma {:induction false} EntriesHappened(h: History, events: seq<Event>, e: Entry, now: int)
    requires e in After(h, events) && now < e.expires
    ensures e in h || Happened(events, e.id, now)
    decreases |events|
  {
    hide Keep;
    if events != [] {
      EntriesHappened(Effect(h, events[0]), events[1..], e, now);
      assert events == [events[0]] + events[1..];
      if Happened(events[1..], e.id, now) {
        var x :| x in events[1..] && (x.Remembered? || x.Delivered?) && x.id == e.id && now < x.expires;
        assert x in events;
      } else {
        assert e in Effect(h, events[0]);
        assert e in h || events[0].Remembered? || events[0].Delivered?;
      }
    }
  }

  /** Only what a router sent or delivered, and what has not passed its deadline, counts as seen. */
  lemma SeenHappened(events: seq<Event>, id: Id, now: int)
    requires Live(After([], events), id, now)
    ensures Happened(events, id, now)
  {
    hide After;
    var e :| e in After([], events) && e.id == id && e.expires > now;
    EntriesHappened([], events, e, now);
  }

  /** What was delivered counts as seen until its deadline or until 4096 others were remembered. */
  lemma StillSeen(h: History, clock: int, id: Id, expires: int, first: int, events: seq<Event>, now: int)
    requires Inv(h) && Enabled(h, clock, Delivered(id, expires, first))
    requires Runs(Effect(h, Delivered(id, expires, first)), first, events)
    requires Clock(first, events) <= now < expires && |Others(events, id)| < 4096
    ensures Live(After(Effect(h, Delivered(id, expires, first)), events), id, now)
  {
    hide Inv, Keep, NewerThan;
    var deliver := Delivered(id, expires, first);
    EffectIsInv(h, clock, deliver);
    JustRemembered(Ask(h, id, first), id, expires);
    RunTracks(Effect(h, deliver), first, Entry(id, expires), {}, events);
    assert {} + Others(events, id) == Others(events, id);
  }

  /** Sweeping drops exactly what is past its deadline; asking drops at most the packet's own entry, if it is. */
  lemma DroppedExactly(h: History, id: Id, now: int)
    ensures forall e :: e in Sweep(h, now) <==> e in h && now < e.expires
    ensures forall e :: e in Ask(h, id, now) <==> e in h && (e.id == id ==> now < e.expires)
  {
    hide Keep;
  }

  /** What was just delivered is known, and sweeping at once does not change that. */
  lemma DeliveredIsKnown(h: History, id: Id, expires: int, now: int)
    requires expires > now
    ensures Knows(Effect(h, Delivered(id, expires, now)), id)
    ensures Knows(Effect(Effect(h, Delivered(id, expires, now)), Swept(now)), id)
  {
    var k := Effect(h, Delivered(id, expires, now));
    assert k[|k| - 1] == Entry(id, expires);
    assert Entry(id, expires) in Effect(k, Swept(now));
  }

  lemma JustRemembered(h: History, id: Id, expires: int)
    ensures Entry(id, expires) in Remember(h, id, expires) && NewerThan(Remember(h, id, expires), id) == {}
  {
  }
}

/** A network of routers with their memories: how often a packet is taken, and how many copies of it there can be. */
module FloodRuns {
  import opened Common
  import opened Packets
  import opened Flood
  import H = SeenHistory

  datatype State = State(net: Network, memory: map<Name, H.History>, clock: int)

  datatype Event =
    | Sends(p: Packet, now: int)                            // a router broadcasts a packet of its own
    | Takes(self: Name, p: Packet, forwards: bool, now: int) // a router accepts a copy, and passes it on or not
    | Asks(self: Name, id: Id, now: int)
    | Sweeps(self: Name, now: int)

  function Memory(s: State, r: Name): H.History {
    if r in s.memory then s.memory[r] else []
  }

  /** The router an event happens at. */
  function At(e: Event): Name {
    if e.Sends? then e.p.body.source else e.self
  }

  /** What an event does to the memory of its router. */
  function Own(e: Event): H.Event {
    match e
    case Sends(p, now) => H.Remembered(p.id, p.body.expires, now)
    case Takes(self, p, forwards, now) => H.Delivered(p.id, p.body.expires, now)
    case Asks(self, id, now) => H.Asked(id, now)
    case Sweeps(self, now) => H.Swept(now)
  }

  ghost predicate CanDo(s: State, e: Event) {
    && s.clock <= e.now && H.Enabled(Memory(s, At(e)), s.clock, Own(e))
    && (e.Sends? ==> Enabled(s.net, Originate(e.p)))
    && (e.Takes? ==> Enabled(s.net, Accept(e.self, e.p, e.forwards)))
  }

  function Do(s: State, e: Event): State {
    var net := match e
      case Sends(p, now) => Apply(s.net, Originate(p))
      case Takes(self, p, forwards, now) => Apply(s.net, Accept(self, p, forwards))
      case _ => s.net;
    State(net, s.memory[At(e) := H.Effect(Memory(s, At(e)), Own(e))], e.now)
  }

  ghost predicate Goes(s: State, events: seq<Event>)
    decreases |events|
  {
    events == [] || (CanDo(s, events[0]) && Goes(Do(s, events[0]), events[1..]))
  }

  function Then(s: State, events: seq<Event>): State
    decreases |events|
  {
    if events == [] then s else Then(Do(s, events[0]), events[1..])
  }

  /** What one router's memory goes through. */
  function Seen(events: seq<Event>, r: Name): seq<H.Event>
    decreases |events|
  {
    if events == [] then [] else (if At(events[0]) == r then [Own(events[0])] else []) + Seen(events[1..], r)
  }

  lemma {:induction false} Splits(s: State, a: seq<Event>, b: seq<Event>)
    ensures Then(s, a + b) == Then(Then(s, a), b)
    ensures Goes(s, a + b) <==> Goes(s, a) && Goes(Then(s, a), b)
    decreases |a|
  {
    hide CanDo, Do;
    if a == [] {
      assert a + b == b;
    } else {
      assert (a + b)[1..] == a[1..] + b;
      Splits(Do(s, a[0]), a[1..], b);
    }
  }

  /** Each router's memory lives through a run of its own. */
  lemma {:induction false} OwnRun(s: State, events: seq<Event>, r: Name, clock: int)
    requires Goes(s, events) && clock <= s.clock
    ensures H.Runs(Memory(s, r), clock, Seen(events, r))
    ensures Memory(Then(s, events), r) == H.After(Memory(s, r), Seen(events, r))
    ensures H.Clock(clock, Seen(events, r)) <= Then(s, events).clock
    decreases |events|
  {
    hide H.Effect, H.Knows, H.Live;
    if events != [] {
      var e, rest := events[0], Seen(events[1..], r);
      var t := Do(s, e);
      if At(e) == r {
        OwnRun(t, events[1..], r, e.now);
        assert ([Own(e)] + rest)[1..] == rest;
      } else {
        OwnRun(t, events[1..], r, clock);
        assert [] + rest == rest;
      }
    }
  }

  ghost predicate Remembers(s: State) {
    forall r :: H.Inv(Memory(s, r))
  }

  lemma {:induction false} StillRemembers(s: State, events: seq<Event>)
    requires Remembers(s) && Goes(s, events)
    ensures Remembers(Then(s, events))
    decreases |events|
  {
    hide H.Inv, H.Effect;
    if events != [] {
      H.EffectIsInv(Memory(s, At(events[0])), s.clock, Own(events[0]));
      forall r ensures H.Inv(Memory(Do(s, events[0]), r)) {
        assert r == At(events[0]) || Memory(Do(s, events[0]), r) == Memory(s, r);
      }
      StillRemembers(Do(s, events[0]), events[1..]);
    }
  }

  /** A router of the network takes a packet a second time, with the same deadline, only if it has remembered at least
      4096 other packets in between. */
  lemma TakenAgain(s: State, first: Event, events: seq<Event>, second: Event)
    requires Remembers(s) && CanDo(s, first) && Goes(Do(s, first), events) && CanDo(Then(Do(s, first), events), second)
    requires first.Takes? && second.Takes? && first.self == second.self
    requires first.p.id == second.p.id && first.p.body.expires == second.p.body.expires
    ensures 4096 <= |H.Others(Seen(events, first.self), first.p.id)|
  {
    hide H.Inv, H.Effect, H.Live, H.Others;
    var r, t := first.self, Do(s, first);
    OwnRun(t, events, r, first.now);
    H.RedeliveryNeedsManyOthers(Memory(s, r), s.clock, first.p.id, first.p.body.expires, first.now, Seen(events, r), second.now);
  }

  // How many copies

  /** Copies under one identifier carry one packet, as hashing its body makes sure. */
  ghost predicate OneDeadline(events: seq<Event>) {
    forall i, j :: 0 <= i < j < |events| && events[i].Takes? && events[j].Takes? && events[i].p.id == events[j].p.id ==>
      events[i].p.body.expires == events[j].p.body.expires
  }

  /** Between no two events of the run does a router remember 4096 packets other than a given one. */
  ghost predicate Unhurried(events: seq<Event>) {
    forall i, j, r, id :: 0 <= i <= j <= |events| ==> |H.Others(Seen(events[i..j], r), id)| < 4096
  }

  const Start := State(Network({}, {}), map[], 0)

  lemma {:induction false} TakenBefore(events: seq<Event>, r: Name, id: Id) returns (i: nat)
    requires Goes(Start, events) && (r, id) in Then(Start, events).net.accepted
    ensures i < |events| && events[i].Takes? && events[i].self == r && events[i].p.id == id
    decreases |events|
  {
    hide CanDo;
    if events == [] {
      assert false;
    } else {
      var n := |events| - 1;
      assert events == events[..n] + [events[n]];
      Splits(Start, events[..n], [events[n]]);
      LastStep(Then(Start, events[..n]), events[n]);
      if (r, id) in Then(Start, events[..n]).net.accepted {
        i := TakenBefore(events[..n], r, id);
      } else {
        i := n;
      }
    }
  }

  lemma LastStep(s: State, e: Event)
    ensures Then(s, [e]) == Do(s, e) && (Goes(s, [e]) <==> CanDo(s, e))
  {
    hide CanDo, Do;
    assert [e][1..] == [];
  }

  /** In such a run no router takes a packet it has taken before. */
  lemma TakesOnce(events: seq<Event>, e: Event)
    requires Goes(Start, events + [e]) && e.Takes? && OneDeadline(events + [e]) && Unhurried(events + [e])
    ensures (e.self, e.p.id) !in Then(Start, events).net.accepted
  {
    hide CanDo, Do, H.Others, Unhurried, OneDeadline;
    Splits(Start, events, [e]);
    LastStep(Then(Start, events), e);
    if (e.self, e.p.id) in Then(Start, events).net.accepted {
      var i := TakenBefore(events, e.self, e.p.id);
      var a, b := events[..i], events[i + 1..];
      var s := Then(Start, a);
      assert events == a + ([events[i]] + b);
      Splits(Start, a, [events[i]] + b);
      Splits(s, [events[i]], b);
      LastStep(s, events[i]);
      NothingRemembered();
      StillRemembers(Start, a);
      SameDeadline(events + [e], i, |events|);
      assert (events + [e])[i + 1..|events|] == b;
      FewOthers(events + [e], i + 1, |events|, e.self, e.p.id);
      TakenAgain(s, events[i], b, e);
    }
  }

  lemma NothingRemembered()
    ensures Remembers(Start)
  {
  }

  lemma SameDeadline(events: seq<Event>, i: nat, j: nat)
    requires OneDeadline(events) && i < j < |events| && events[i].Takes? && events[j].Takes? && events[i].p.id == events[j].p.id
    ensures events[i].p.body.expires == events[j].p.body.expires
  {
  }

  lemma FewOthers(events: seq<Event>, i: nat, j: nat, r: Name, id: Id)
    requires Unhurried(events) && i <= j <= |events|
    ensures |H.Others(Seen(events[i..j], r), id)| < 4096
  {
  }

  function Last(p: Packet): Name
    requires p.hops != []
  {
    p.hops[|p.hops| - 1]
  }

  /** The copies of a packet that some router passed on. */
  function Relayed(n: Network, id: Id): set<Packet> {
    set p | p in n.copies && p.id == id && |p.hops| > 1
  }

  function Takers(n: Network, id: Id): set<Name> {
    set a | a in n.accepted && a.1 == id :: a.0
  }

  /** No router passed a packet on twice. */
  ghost predicate OneCopyEach(n: Network) {
    && Inv(n)
    && forall p, q :: p in n.copies && q in n.copies && p.id == q.id && |p.hops| > 1 && |q.hops| > 1 && Last(p) == Last(q) ==> p == q
  }

  lemma LastAccepted(n: Network, p: Packet)
    requires Inv(n) && p in n.copies && |p.hops| > 1
    ensures (Last(p), p.id) in n.accepted
  {
    assert Travelled(n, p);
  }

  lemma CopyKept(n: Network, e: Flood.Event)
    requires OneCopyEach(n) && Enabled(n, e) && (e.Accept? ==> (e.self, e.p.id) !in n.accepted)
    ensures OneCopyEach(Apply(n, e))
  {
    hide Inv;
    Flood.StepKeepsInv(n, e);
    var m := Apply(n, e);
    forall p, q | p in m.copies && q in m.copies && p.id == q.id && |p.hops| > 1 && |q.hops| > 1 && Last(p) == Last(q) ensures p == q {
      if p in n.copies { LastAccepted(n, p); }
      if q in n.copies { LastAccepted(n, q); }
    }
  }

  lemma {:induction false} KeepsOneCopyEach(events: seq<Event>)
    requires Goes(Start, events) && OneDeadline(events) && Unhurried(events)
    ensures OneCopyEach(Then(Start, events).net)
    decreases |events|
  {
    hide OneCopyEach, CanDo, Unhurried, OneDeadline, Goes;
    if events == [] {
      NoCopies();
    } else {
      var n, e := |events| - 1, events[|events| - 1];
      assert events == events[..n] + [e];
      Splits(Start, events[..n], [e]);
      LastStep(Then(Start, events[..n]), e);
      Shorter(events, n);
      KeepsOneCopyEach(events[..n]);
      Moves(Then(Start, events[..n]), e);
      if e.Takes? {
        TakesOnce(events[..n], e);
        CopyKept(Then(Start, events[..n]).net, Accept(e.self, e.p, e.forwards));
      } else if e.Sends? {
        CopyKept(Then(Start, events[..n]).net, Originate(e.p));
      }
    }
  }

  lemma NoCopies()
    ensures OneCopyEach(Start.net)
  {
  }

  lemma Moves(s: State, e: Event)
    requires CanDo(s, e)
    ensures e.Takes? ==> Enabled(s.net, Accept(e.self, e.p, e.forwards))
    ensures e.Sends? ==> Enabled(s.net, Originate(e.p))
  {
  }

  lemma Shorter(events: seq<Event>, n: nat)
    requires n <= |events| && OneDeadline(events) && Unhurried(events)
    ensures OneDeadline(events[..n]) && Unhurried(events[..n])
  {
    hide H.Others;
    forall i, j, r, id | 0 <= i <= j <= n ensures |H.Others(Seen(events[..n][i..j], r), id)| < 4096 {
      assert events[..n][i..j] == events[i..j];
    }
  }

  lemma {:induction false} OneEach(copies: set<Packet>, routers: set<Name>)
    requires forall p :: p in copies ==> p.hops != [] && Last(p) in routers
    requires forall p, q :: p in copies && q in copies && Last(p) == Last(q) ==> p == q
    ensures |copies| <= |routers|
    decreases |copies|
  {
    if copies != {} {
      var p :| p in copies;
      OneEach(copies - {p}, routers - {Last(p)});
    }
  }

  /** However the flood runs, as long as no router forgets in between, every router passes a packet on at most once:
      there are never more relayed copies of a packet than routers that took it, and each took it exactly once. */
  lemma FloodIsBounded(events: seq<Event>, id: Id)
    requires Goes(Start, events) && OneDeadline(events) && Unhurried(events)
    ensures |Relayed(Then(Start, events).net, id)| <= |Takers(Then(Start, events).net, id)|
    ensures forall i, j :: 0 <= i < j < |events| && events[i].Takes? && events[j].Takes? && events[i].self == events[j].self ==>
      events[i].p.id != events[j].p.id
  {
    KeepsOneCopyEach(events);
    var n := Then(Start, events).net;
    forall p | p in Relayed(n, id) ensures Last(p) in Takers(n, id) {
      LastAccepted(n, p);
      assert (Last(p), id) in n.accepted;
    }
    OneEach(Relayed(n, id), Takers(n, id));
    forall i, j | 0 <= i < j < |events| && events[i].Takes? && events[j].Takes? && events[i].self == events[j].self
      ensures events[i].p.id != events[j].p.id {
      DifferentTakes(events, i, j);
    }
  }

  lemma DifferentTakes(events: seq<Event>, i: nat, j: nat)
    requires Goes(Start, events) && OneDeadline(events) && Unhurried(events)
    requires i < j < |events| && events[i].Takes? && events[j].Takes? && events[i].self == events[j].self
    ensures events[i].p.id != events[j].p.id
  {
    hide CanDo, Do, H.Others, Unhurried, OneDeadline;
    if events[i].p.id == events[j].p.id {
      var a, b, c := events[..i], events[i + 1..j], events[j..];
      var s := Then(Start, a);
      assert events == a + ([events[i]] + (b + c)) && c == [events[j]] + events[j + 1..];
      Splits(Start, a, [events[i]] + (b + c));
      Splits(s, [events[i]], b + c);
      LastStep(s, events[i]);
      Splits(Do(s, events[i]), b, c);
      Splits(Then(Do(s, events[i]), b), [events[j]], events[j + 1..]);
      LastStep(Then(Do(s, events[i]), b), events[j]);
      NothingRemembered();
      StillRemembers(Start, a);
      SameDeadline(events, i, j);
      FewOthers(events, i + 1, j, events[i].self, events[i].p.id);
      TakenAgain(s, events[i], b, events[j]);
    }
  }
}

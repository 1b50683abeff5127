/** How copies of a packet spread over a network of routers. */
module Flood {
  import opened Common
  import opened Packets

  ghost predicate Distinct(hops: seq<Name>) {
    forall i, j :: 0 <= i < j < |hops| ==> hops[i] != hops[j]
  }

  /** What a router checks of the hops of a packet it decodes. */
  ghost predicate LegalHops(p: Packet) {
    1 <= p.body.maxHops <= MaxHops && 1 <= |p.hops| <= p.body.maxHops && Distinct(p.hops) && p.hops[0] == p.body.source
  }

  /** The copy a router passes on: itself added to the hops, if the packet may still travel. */
  function Forwarded(self: Name, p: Packet): Option<Packet> {
    if |p.hops| < p.body.maxHops then Some(p.(hops := p.hops + [self])) else None
  }

  function Upstream(p: Packet, k: nat): Packet
    requires k <= |p.hops|
  {
    p.(hops := p.hops[..k])
  }

  /** Copies that have been on some wire, and which router accepted which packet. */
  datatype Network = Network(copies: set<Packet>, accepted: set<(Name, Id)>)

  datatype Event =
    | Originate(p: Packet)                            // a router broadcasts a packet of its own
    | Accept(self: Name, p: Packet, forwards: bool)   // a router takes a copy that does not name it yet

  ghost predicate Enabled(n: Network, e: Event) {
    match e
    case Originate(p) => LegalHops(p) && p.hops == [p.body.source]
    case Accept(self, p, forwards) => p in n.copies && self !in p.hops
  }

  function Apply(n: Network, e: Event): Network {
    match e
    case Originate(p) => n.(copies := n.copies + {p})
    case Accept(self, p, forwards) =>
      var next := Forwarded(self, p);
      Network(if forwards && next.Some? then n.copies + {next.value} else n.copies, n.accepted + {(self, p.id)})
  }

  ghost predicate Runs(n: Network, events: seq<Event>)
    decreases |events|
  {
    events == [] || (Enabled(n, events[0]) && Runs(Apply(n, events[0]), events[1..]))
  }

  function After(n: Network, events: seq<Event>): Network
    decreases |events|
  {
    if events == [] then n else After(Apply(n, events[0]), events[1..])
  }

  /** A copy came along its own hops: its source sent it, and each later hop accepted and
      forwarded the copy naming the hops before it. */
  ghost predicate Travelled(n: Network, p: Packet) {
    && LegalHops(p)
    && (forall k :: 1 <= k <= |p.hops| ==> Upstream(p, k) in n.copies)
    && (forall k :: 1 <= k < |p.hops| ==> (p.hops[k], p.id) in n.accepted)
  }

  ghost predicate Inv(n: Network) {
    forall p :: p in n.copies ==> Travelled(n, p)
  }

  lemma TravelledGrows(n: Network, m: Network, p: Packet)
    requires Travelled(n, p) && n.copies <= m.copies && n.accepted <= m.accepted
    ensures Travelled(m, p)
  {
  }

  /** Forwarding keeps the hops legal, and leaves strictly fewer hops to go. */
  lemma ForwardingIsLegal(self: Name, p: Packet)
    requires LegalHops(p) && self !in p.hops && Forwarded(self, p).Some?
    ensures var q := Forwarded(self, p).value;
      LegalHops(q) && 0 <= q.body.maxHops - |q.hops| < p.body.maxHops - |p.hops|
  {
  }

  lemma ForwardedTravelled(n: Network, self: Name, p: Packet)
    requires Inv(n) && Enabled(n, Accept(self, p, true)) && Forwarded(self, p).Some?
    ensures Travelled(Apply(n, Accept(self, p, true)), Forwarded(self, p).value)
  {
    var q := Forwarded(self, p).value;
    var m := Apply(n, Accept(self, p, true));
    ForwardingIsLegal(self, p);
    forall k | 1 <= k <= |q.hops| ensures Upstream(q, k) in m.copies {
      if k < |q.hops| {
        assert q.hops[..k] == p.hops[..k];
        assert Upstream(p, k) in n.copies;
      } else {
        assert Upstream(q, k) == q;
      }
    }
  }

  lemma StepKeepsInv(n: Network, e: Event)
    requires Inv(n) && Enabled(n, e)
    ensures Inv(Apply(n, e))
  {
    hide Travelled;
    var m := Apply(n, e);
    forall p | p in m.copies ensures Travelled(m, p) {
      if p in n.copies {
        TravelledGrows(n, m, p);
      } else if e.Originate? {
        OriginTravelled(m, p);
      } else {
        ForwardedTravelled(n, e.self, e.p);
      }
    }
  }

  lemma OriginTravelled(n: Network, p: Packet)
    requires LegalHops(p) && p.hops == [p.body.source] && p in n.copies
    ensures Travelled(n, p)
  {
    assert Upstream(p, 1) == p;
  }

  lemma {:induction false} RunKeepsInv(n: Network, events: seq<Event>)
    requires Inv(n) && Runs(n, events)
    ensures Inv(After(n, events))
    decreases |events|
  {
    hide Inv;
    if events != [] {
      StepKeepsInv(n, events[0]);
      RunKeepsInv(Apply(n, events[0]), events[1..]);
    }
  }

  /** In any network of routers, every copy that is ever sent travels a simple path from its
      source of at most twelve routers, each of which accepted the packet. */
  lemma FloodFollowsSimplePaths(events: seq<Event>, p: Packet)
    requires Runs(Network({}, {}), events) && p in After(Network({}, {}), events).copies
    ensures Travelled(After(Network({}, {}), events), p) && |p.hops| <= 12
  {
    RunKeepsInv(Network({}, {}), events);
  }

  /** The packet goes out and each router of the path takes and forwards it in turn. */
  function Spread(p: Packet, path: seq<Name>): seq<Event>
    requires path != []
  {
    if |path| == 1 then [Originate(p.(hops := path))]
    else
      var last := |path| - 1;
      Spread(p, path[..last]) + [Accept(path[last], p.(hops := path[..last]), true)]
  }

  lemma {:induction false} RunsOnce(n: Network, events: seq<Event>, e: Event)
    requires Runs(n, events) && Enabled(After(n, events), e)
    ensures Runs(n, events + [e]) && After(n, events + [e]) == Apply(After(n, events), e)
    decreases |events|
  {
    hide Enabled, Apply;
    if events != [] {
      RunsOnce(Apply(n, events[0]), events[1..], e);
      assert (events + [e])[1..] == events[1..] + [e];
    }
  }

  lemma {:induction false} SpreadArrives(p: Packet, path: seq<Name>)
    requires 1 <= |path| <= p.body.maxHops <= 12 && Distinct(path) && path[0] == p.body.source
    ensures Runs(Network({}, {}), Spread(p, path)) && p.(hops := path) in After(Network({}, {}), Spread(p, path)).copies
    decreases |path|
  {
    var last := |path| - 1;
    if last == 0 {
      assert path == [p.body.source];
      RunsOnce(Network({}, {}), [], Originate(p.(hops := path)));
      assert [] + [Originate(p.(hops := path))] == Spread(p, path);
    } else {
      SpreadArrives(p, path[..last]);
      assert path == path[..last] + [path[last]];
      RunsOnce(Network({}, {}), Spread(p, path[..last]), Accept(path[last], p.(hops := path[..last]), true));
    }
  }

  /** Flooding reaches as far as the packet's own hop limit, and no further: some run sends a copy along
      a path exactly when the path starts at the source, repeats no router, and is no longer than that. */
  lemma PathsExactly(p: Packet)
    ensures (exists events :: Runs(Network({}, {}), events) && p in After(Network({}, {}), events).copies) <==>
      1 <= |p.hops| <= p.body.maxHops <= 12 && Distinct(p.hops) && p.hops[0] == p.body.source
  {
    hide After, Runs, Travelled;
    if 1 <= |p.hops| <= p.body.maxHops <= 12 && Distinct(p.hops) && p.hops[0] == p.body.source {
      SpreadArrives(p, p.hops);
    }
    if events :| Runs(Network({}, {}), events) && p in After(Network({}, {}), events).copies {
      FloodFollowsSimplePaths(events, p);
      TravelledIsLegal(After(Network({}, {}), events), p);
    }
  }

  lemma TravelledIsLegal(n: Network, p: Packet)
    requires Travelled(n, p)
    ensures LegalHops(p)
  {
  }
}

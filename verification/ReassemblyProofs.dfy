/** A packet cut into fragments comes back whole, exactly when its last fragment arrives. */
module ReassemblyProofs {
  import opened Common
  import opened Packets
  import opened Reassembly

  /** What happens to the table between two looks at it: parts of any packet arrive in any
      order and any number of times, and assemblies are given up. */
  datatype Event = Arrive(part: Part, now: int) | GiveUp(ids: set<Id>)

  ghost function Apply(t: Table, e: Event): Table {
    match e
    case Arrive(part, now) => Receive(t, part, now).0
    case GiveUp(ids) => t - ids
  }

  ghost function After(t: Table, events: seq<Event>): Table {
    if events == [] then t else Apply(After(t, events[..|events| - 1]), events[|events| - 1])
  }

  predicate IsPacket(encoded: seq<Byte>) {
    1 <= |encoded| <= MaxPacketBytes
  }

  function Indices(encoded: seq<Byte>): set<nat> {
    Below(FragmentCount(encoded))
  }

  function Arrived(events: seq<Event>, id: Id): set<nat> {
    if events == [] then {} else
      var e := events[|events| - 1];
      Arrived(events[..|events| - 1], id) + (if e.Arrive? && e.part.id == id then {e.part.index} else {})
  }

  /** The table had room for the part: too many packets at once or too many bytes in all would refuse it. */
  ghost predicate Room(t: Table, p: Part) {
    (p.id in t || |t| < MaxAssemblies) && TableBytes(t) + |p.data| <= MaxPendingBytes
  }

  /** Of packet `id`, only its own fragments arrive, each finds room, and it is not given up. */
  ghost predicate Undisturbed(t: Table, events: seq<Event>, id: Id, encoded: seq<Byte>) {
    events == [] ||
    (var e := events[|events| - 1];
     var before := events[..|events| - 1];
     && Undisturbed(t, before, id, encoded)
     && (e.GiveUp? ==> id !in e.ids)
     && (e.Arrive? && e.part.id == id ==>
           e.part.index < FragmentCount(encoded) && e.part == PartOf(id, encoded, e.part.index) && Room(After(t, before), e.part)))
  }

  function Pieces(encoded: seq<Byte>, indices: set<nat>): map<nat, seq<Byte>>
  {
    map i | i in indices && i < FragmentCount(encoded) :: Fragment(encoded, i)
  }

  lemma {:induction false} ConcatPrefix(encoded: seq<Byte>, n: nat)
    requires n <= FragmentCount(encoded)
    ensures Concat(Pieces(encoded, Indices(encoded)), n) == encoded[..Offset(encoded, n)]
    decreases n
  {
    if n > 0 {
      ConcatPrefix(encoded, n - 1);
      var a, b := Offset(encoded, n - 1), Offset(encoded, n);
      assert encoded[..a] + encoded[a..b] == encoded[..b];
    }
  }

  lemma {:induction false} ConcatSame(a: map<nat, seq<Byte>>, b: map<nat, seq<Byte>>, n: nat)
    requires forall i :: 0 <= i < n ==> i in a && i in b && a[i] == b[i]
    ensures Concat(a, n) == Concat(b, n)
    decreases n
  {
    if n > 0 {
      ConcatSame(a, b, n - 1);
    }
  }

  /** All the fragments, joined in index order, are the packet. */
  lemma FragmentsJoin(encoded: seq<Byte>)
    requires IsPacket(encoded)
    ensures Concat(Pieces(encoded, Indices(encoded)), FragmentCount(encoded)) == encoded
  {
    ConcatPrefix(encoded, FragmentCount(encoded));
    assert encoded[..|encoded|] == encoded;
  }

  lemma PieceAdded(encoded: seq<Byte>, indices: set<nat>, index: nat)
    requires indices <= Indices(encoded) && index in Indices(encoded) && index !in indices
    ensures Total(PartSizes(Pieces(encoded, indices + {index}))) == Total(PartSizes(Pieces(encoded, indices))) + |Fragment(encoded, index)|
  {
    hide Total;
    var fewer := PartSizes(Pieces(encoded, indices));
    TotalInsert(fewer, index, |Fragment(encoded, index)|);
    assert PartSizes(Pieces(encoded, indices + {index})) == fewer[index := |Fragment(encoded, index)|];
  }

  lemma NoPieces(encoded: seq<Byte>)
    ensures Total(PartSizes(Pieces(encoded, {}))) == 0
  {
    assert PartSizes(Pieces(encoded, {})) == map[];
  }

  lemma NextPiece(encoded: seq<Byte>, n: nat)
    requires 0 < n <= FragmentCount(encoded)
    requires Total(PartSizes(Pieces(encoded, Below(n - 1)))) == Offset(encoded, n - 1)
    ensures Total(PartSizes(Pieces(encoded, Below(n)))) == Offset(encoded, n)
  {
    hide Total, Pieces, PartSizes, Fragment;
    PieceAdded(encoded, Below(n - 1), n - 1);
    assert Below(n) == Below(n - 1) + {n - 1};
  }

  lemma {:induction false} PrefixSize(encoded: seq<Byte>, n: nat)
    requires n <= FragmentCount(encoded)
    ensures Total(PartSizes(Pieces(encoded, Below(n)))) == Offset(encoded, n)
    decreases n
  {
    hide Total, Pieces, PartSizes;
    if n == 0 {
      NoPieces(encoded);
    } else {
      PrefixSize(encoded, n - 1);
      NextPiece(encoded, n);
    }
  }

  /** Some of the fragments never weigh more than the packet. */
  lemma PiecesSize(encoded: seq<Byte>, indices: set<nat>)
    requires indices <= Indices(encoded)
    ensures Total(PartSizes(Pieces(encoded, indices))) <= |encoded|
  {
    PrefixSize(encoded, FragmentCount(encoded));
    TotalMonotone(PartSizes(Pieces(encoded, indices)), PartSizes(Pieces(encoded, Indices(encoded))));
  }

  lemma FragmentsAreWellFormed(id: Id, encoded: seq<Byte>, index: nat)
    requires IsPacket(encoded) && index < FragmentCount(encoded)
    ensures WellFormed(PartOf(id, encoded, index))
  {
  }

  /** The table holds exactly the fragments in `indices` of the packet. */
  ghost predicate Holds(t: Table, id: Id, encoded: seq<Byte>, indices: set<nat>) {
    && (id in t <==> indices != {})
    && (id in t ==> t[id].parts == Pieces(encoded, indices) && t[id].count == FragmentCount(encoded) && Sound(t[id]))
  }

  lemma PieceJoins(a: Assembly, id: Id, encoded: seq<Byte>, indices: set<nat>, index: nat, now: int)
    requires indices <= Indices(encoded) && index in Indices(encoded)
    requires a.parts == Pieces(encoded, indices) && a.count == FragmentCount(encoded) && Sound(a)
    ensures var b := Added(a, PartOf(id, encoded, index), now);
      b.parts == Pieces(encoded, indices + {index}) && b.count == a.count && Sound(b)
  {
    AddedIsSound(a, PartOf(id, encoded, index), now);
    var b := Added(a, PartOf(id, encoded, index), now);
    assert b.parts == Pieces(encoded, indices + {index});
  }

  lemma PieceFits(t: Table, a: Assembly, id: Id, encoded: seq<Byte>, indices: set<nat>, index: nat)
    requires IsPacket(encoded) && indices <= Indices(encoded) && index in Indices(encoded)
    requires a.parts == Pieces(encoded, indices) && a.count == FragmentCount(encoded) && Sound(a)
    requires Room(t, PartOf(id, encoded, index))
    ensures !Contradicts(a, PartOf(id, encoded, index)) && !Overflows(t, a, PartOf(id, encoded, index))
  {
    if index !in indices {
      PieceAdded(encoded, indices, index);
      PiecesSize(encoded, indices + {index});
    }
  }

  lemma OpenedHolds(t: Table, p: Part, encoded: seq<Byte>, indices: set<nat>, now: int)
    requires indices <= Indices(encoded) && Holds(t, p.id, encoded, indices) && p.count == FragmentCount(encoded)
    ensures var a := Opened(t, p, now);
      a.parts == Pieces(encoded, indices) && a.count == FragmentCount(encoded) && Sound(a)
  {
    EmptyAssemblyIsSound(p.count, now);
    if p.id !in t {
      assert Pieces(encoded, {}) == map[];
    }
  }

  lemma FullWhenAllArrived(b: Assembly, encoded: seq<Byte>, indices: set<nat>)
    requires indices <= Indices(encoded) && b.parts == Pieces(encoded, indices) && b.count == FragmentCount(encoded)
    ensures Full(b) <==> indices == Indices(encoded)
  {
    if indices != Indices(encoded) {
      var missing :| missing in Indices(encoded) && missing !in indices;
      assert missing !in b.parts;
    }
  }

  /** One more fragment: complete, with exactly the packet's bytes, iff none is missing any more. */
  lemma FragmentArrives(t: Table, id: Id, encoded: seq<Byte>, indices: set<nat>, index: nat, now: int)
    requires IsPacket(encoded) && indices < Indices(encoded) && index in Indices(encoded)
    requires Holds(t, id, encoded, indices) && Room(t, PartOf(id, encoded, index))
    ensures var (u, outcome) := Receive(t, PartOf(id, encoded, index), now);
      if indices + {index} == Indices(encoded) then outcome == Complete(encoded) && id !in u
      else outcome == Incomplete && Holds(u, id, encoded, indices + {index})
  {
    var p := PartOf(id, encoded, index);
    var a := Opened(t, p, now);
    FragmentsAreWellFormed(id, encoded, index);
    OpenedHolds(t, p, encoded, indices, now);
    PieceFits(t, a, id, encoded, indices, index);
    PieceJoins(a, id, encoded, indices, index, now);
    FullWhenAllArrived(Added(a, p, now), encoded, indices + {index});
    FragmentsJoin(encoded);
  }

  lemma {:induction false} ArrivedAreIndices(t: Table, events: seq<Event>, id: Id, encoded: seq<Byte>)
    requires Undisturbed(t, events, id, encoded)
    ensures Arrived(events, id) <= Indices(encoded)
    decreases |events|
  {
    if events != [] {
      ArrivedAreIndices(t, events[..|events| - 1], id, encoded);
    }
  }

  lemma OtherPacketsLeaveItAlone(t: Table, p: Part, now: int, id: Id, encoded: seq<Byte>, indices: set<nat>)
    requires indices <= Indices(encoded) && Holds(t, id, encoded, indices) && p.id != id
    ensures Holds(Receive(t, p, now).0, id, encoded, indices)
  {
    hide Holds;
    OthersUntouched(t, p, now, id);
    HoldsSame(t, Receive(t, p, now).0, id, encoded, indices);
  }

  lemma OthersUntouched(t: Table, p: Part, now: int, id: Id)
    requires p.id != id
    ensures var u := Receive(t, p, now).0; (id in u <==> id in t) && (id in t ==> u[id] == t[id])
  {
    hide WellFormed, Contradicts, Overflows, Full, Added, Concat;
  }

  lemma HoldsSame(t: Table, u: Table, id: Id, encoded: seq<Byte>, indices: set<nat>)
    requires indices <= Indices(encoded) && Holds(t, id, encoded, indices)
    requires (id in u <==> id in t) && (id in t ==> u[id] == t[id])
    ensures Holds(u, id, encoded, indices)
  {
  }

  lemma {:induction false} HeldSoFar(t: Table, events: seq<Event>, id: Id, encoded: seq<Byte>)
    requires IsPacket(encoded) && id !in t && Undisturbed(t, events, id, encoded)
    requires Arrived(events, id) != Indices(encoded)
    ensures Arrived(events, id) <= Indices(encoded)
    ensures Holds(After(t, events), id, encoded, Arrived(events, id))
    decreases |events|
  {
    ArrivedAreIndices(t, events, id, encoded);
    if events != [] {
      var before, e := events[..|events| - 1], events[|events| - 1];
      ArrivedAreIndices(t, before, id, encoded);
      HeldSoFar(t, before, id, encoded);
      var u := After(t, before);
      if e.Arrive? && e.part.id == id {
        FragmentArrives(u, id, encoded, Arrived(before, id), e.part.index, e.now);
      } else if e.Arrive? {
        OtherPacketsLeaveItAlone(u, e.part, e.now, id, encoded, Arrived(before, id));
      }
    }
  }

  /** The packet is rebuilt byte for byte when the last of its fragments arrives, and not
      before: in whatever order, however often repeated, and whatever other packets are
      being put together on the link meanwhile. */
  lemma PacketRebuilt(t: Table, events: seq<Event>, id: Id, encoded: seq<Byte>, index: nat, now: int)
    requires IsPacket(encoded) && id !in t && Undisturbed(t, events, id, encoded)
    requires Arrived(events, id) != Indices(encoded) && index < FragmentCount(encoded)
    requires Room(After(t, events), PartOf(id, encoded, index))
    ensures Receive(After(t, events), PartOf(id, encoded, index), now).1 ==
      if Arrived(events, id) + {index} == Indices(encoded) then Complete(encoded) else Incomplete
  {
    HeldSoFar(t, events, id, encoded);
    FragmentArrives(After(t, events), id, encoded, Arrived(events, id), index, now);
  }

  // What else a fragment does

  /** The legal fragments: at most 3072 of a packet, all but the last of 2048 bytes. */
  lemma MalformedExactly(t: Table, p: Part, now: int)
    ensures Receive(t, p, now).1.Malformed? <==>
      !(1 <= p.count <= 3072 && p.index < p.count && 1 <= |p.data| <= 2048 && (p.index + 1 < p.count ==> |p.data| == 2048))
    ensures Receive(t, p, now).1.Malformed? ==> Receive(t, p, now).0 == t
  {
    hide Full, Concat, Overflows;
  }

  /** A fragment that disagrees with what is held of its packet, in count or in bytes, drops all of it. */
  lemma ContradictionExactly(t: Table, p: Part, now: int)
    requires !Receive(t, p, now).1.Malformed?
    ensures Receive(t, p, now).1.Changed? <==>
      p.id in t && (t[p.id].count != p.count || (p.index in t[p.id].parts && t[p.id].parts[p.index] != p.data))
    ensures Receive(t, p, now).1.Changed? ==> Receive(t, p, now).0 == t - {p.id}
  {
    hide WellFormed, Full, Concat, Overflows;
  }

  /** A fragment not held yet, of a packet it does not contradict, is refused exactly when it is the first
      of a ninth packet, or its packet would pass 6 MiB, or the table 16 MiB; then its packet is dropped. */
  lemma RefusedExactly(t: Table, p: Part, now: int)
    requires !Receive(t, p, now).1.Malformed? && !Receive(t, p, now).1.Changed?
    ensures Receive(t, p, now).1.Refused? <==>
      if p.id !in t then |t| >= 8 || TableBytes(t) + |p.data| > 16 * 1048576
      else p.index !in t[p.id].parts && (t[p.id].bytes + |p.data| > 6 * 1048576 || TableBytes(t) + |p.data| > 16 * 1048576)
    ensures Receive(t, p, now).1.Refused? ==> Receive(t, p, now).0 == t - {p.id}
  {
    hide Full, Concat, TableBytes;
  }

  /** A fragment that leaves its packet incomplete is held from now on and counted; only a fragment
      not held before moves the packet's idle deadline, and nothing moves its age. */
  lemma HeldExactly(t: Table, p: Part, now: int)
    requires Receive(t, p, now).1.Incomplete?
    ensures var u := Receive(t, p, now).0;
      && p.id in u && u == t[p.id := u[p.id]]
      && if p.id !in t then u[p.id] == Assembly(map[p.index := p.data], p.count, |p.data|, now, now)
         else if p.index in t[p.id].parts then u[p.id] == t[p.id]
         else u[p.id] == Assembly(t[p.id].parts[p.index := p.data], p.count, t[p.id].bytes + |p.data|, t[p.id].since, now)
  {
    hide WellFormed, Full, Concat, Overflows;
  }

  /** A packet is kept waiting two minutes for its next fragment, and an hour in all. */
  lemma StaleExactly(t: Table, now: int)
    ensures forall id :: id in t - Stale(t, now) <==> id in t && now - t[id].updated <= 2 * 60 * 1000 && now - t[id].since <= 60 * 60 * 1000
  {
  }

  /** The arrivals that opened the packet and that brought its latest fragment. */
  ghost predicate Dated(events: seq<Event>, id: Id, first: nat, last: nat) {
    && first <= last < |events|
    && events[first].Arrive? && events[first].part.id == id && id !in After(map[], events[..first])
    && events[last].Arrive? && events[last].part.id == id
    && (id in After(map[], events[..last]) ==> events[last].part.index !in After(map[], events[..last])[id].parts)
    && id in After(map[], events[..last + 1]) && id in After(map[], events)
    && After(map[], events[..last + 1])[id] == After(map[], events)[id]
    && After(map[], events)[id].since == events[first].now
    && After(map[], events)[id].updated == events[last].now
  }

  lemma PrefixOf(events: seq<Event>, before: seq<Event>, k: nat)
    requires events != [] && before == events[..|events| - 1] && k < |events|
    ensures before[..k] == events[..k]
  {
  }

  /** In every run the two deadlines of a packet count from those two arrivals: repeats do not extend them. */
  lemma {:induction false} DeadlinesCountFromArrivals(events: seq<Event>, id: Id) returns (first: nat, last: nat)
    requires id in After(map[], events)
    ensures Dated(events, id, first, last)
  {
    hide Receive;
    var n := |events| - 1;
    var before := events[..n];
    var e := events[n];
    var t, u := After(map[], before), After(map[], events);
    assert events[..n + 1] == events;
    var moved := e.Arrive? && e.part.id == id && !(id in t && t[id] == u[id]);
    if !moved {
      if !(e.Arrive? && e.part.id == id) {
        OthersStay(t, e, id);
      }
      first, last := DeadlinesCountFromArrivals(before, id);
      PrefixOf(events, before, first);
      PrefixOf(events, before, last);
      PrefixOf(events, before, last + 1);
      assert before[..n] == before;
    } else {
      ArrivalHolds(t, e.part, e.now);
      last := n;
      if id in t {
        first, last := DeadlinesCountFromArrivals(before, id);
        PrefixOf(events, before, first);
        last := n;
      } else {
        first := n;
      }
    }
  }

  lemma OthersStay(t: Table, e: Event, id: Id)
    requires id in Apply(t, e) && (e.Arrive? ==> e.part.id != id)
    ensures id in t && t[id] == Apply(t, e)[id]
  {
    hide WellFormed, Full, Concat, Overflows, Contradicts;
  }

  lemma ArrivalHolds(t: Table, p: Part, now: int)
    requires p.id in Receive(t, p, now).0
    ensures var u := Receive(t, p, now).0;
      || (p.id in t && u[p.id] == t[p.id])
      || (p.id !in t && u[p.id].since == now && u[p.id].updated == now)
      || (p.id in t && p.index !in t[p.id].parts && u[p.id].since == t[p.id].since && u[p.id].updated == now)
  {
    hide WellFormed, Full, Concat, Overflows;
  }
}

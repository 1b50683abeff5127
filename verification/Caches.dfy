/** What one transaction remembers of its reads: dropped whenever the transaction has written. */
module Caches {
  import opened Common
  import G = Groupstore
  import P = GroupstoreProofs

  /** What a read computes from everything stored; nothing where there is no valid record. */
  type Load<V> = (map<G.Key, G.Stored>, Id) -> Option<V>

  /** Whether the stored record is small enough to be remembered. */
  type Small = (map<G.Key, G.Stored>, Id) -> bool

  /** Values read since the last write, oldest first. */
  datatype Cache<V> = Cache(generation: nat, values: map<Id, V>, order: seq<Id>)

  function Remember<V>(c: Cache<V>, limit: nat, id: Id, v: V): Cache<V> {
    if |c.order| >= limit && c.order != [] then
      c.(values := (c.values - {c.order[0]})[id := v], order := c.order[1..] + [id])
    else c.(values := c.values[id := v], order := c.order + [id])
  }

  function Renewed<V>(c: Cache<V>, generation: nat): Cache<V> {
    if c.generation == generation then c else Cache(generation, map[], [])
  }

  /** A read through the cache. */
  function Fetch<V>(
      c: Cache<V>, limit: nat, m: map<G.Key, G.Stored>, generation: nat, id: Id, load: Load<V>, small: Small): (Cache<V>, Option<V>)
  {
    var now := Renewed(c, generation);
    if id in now.values then (now, Some(now.values[id]))
    else
      var v := load(m, id);
      if v.None? then (now, None) else if small(m, id) then (Remember(now, limit, id, v.value), v) else (now, v)
  }

  ghost predicate Shape<V>(c: Cache<V>, limit: nat) {
    && |c.order| <= limit && (forall i, j :: 0 <= i < j < |c.order| ==> c.order[i] != c.order[j])
    && (forall id :: id in c.values <==> id in c.order)
  }

  /** The cache never holds more than its limit, and what it holds for this generation is what reading would give. */
  ghost predicate CacheInv<V>(c: Cache<V>, limit: nat, m: map<G.Key, G.Stored>, generation: nat, load: Load<V>) {
    && c.generation <= generation
    && Shape(c, limit)
    && (c.generation == generation ==> forall id :: id in c.values ==> load(m, id) == Some(c.values[id]))
  }

  lemma FetchReads<V>(c: Cache<V>, limit: nat, m: map<G.Key, G.Stored>, generation: nat, id: Id, load: Load<V>, small: Small)
    requires limit > 0 && CacheInv(c, limit, m, generation, load)
    ensures Fetch(c, limit, m, generation, id, load, small).1 == load(m, id)
    ensures CacheInv(Fetch(c, limit, m, generation, id, load, small).0, limit, m, generation, load)
  {
    hide Shape;
    RenewedShape(c, limit, generation);
    var now := Renewed(c, generation);
    var v := load(m, id);
    if id !in now.values && v.Some? { RememberShape(now, limit, id, v.value); }
  }

  /** A value read anew is remembered exactly where its record is small; whatever is not of this generation is
      forgotten first, and what is remembered is only what was read. */
  lemma RememberedExactly<V>(c: Cache<V>, limit: nat, m: map<G.Key, G.Stored>, generation: nat, id: Id, load: Load<V>, small: Small)
    requires c.generation == generation ==> id !in c.values
    ensures var next := Fetch(c, limit, m, generation, id, load, small).0;
      && next.generation == generation
      && (id in next.values <==> load(m, id).Some? && small(m, id))
      && (forall k :: k in next.values && k != id ==> c.generation == generation && k in c.values && next.values[k] == c.values[k])
  {
  }

  /** And a value remembered is not read again before the next write. */
  lemma FetchOnce<V>(
      c: Cache<V>, limit: nat, m: map<G.Key, G.Stored>, generation: nat, id: Id, load: Load<V>, small: Small, later: map<G.Key, G.Stored>)
    requires Fetch(c, limit, m, generation, id, load, small).1.Some? && small(m, id)
    ensures var (next, v) := Fetch(c, limit, m, generation, id, load, small);
      Fetch(next, limit, later, generation, id, load, small) == (next, v)
  {
  }

  lemma RenewedShape<V>(c: Cache<V>, limit: nat, generation: nat)
    requires Shape(c, limit)
    ensures Shape(Renewed(c, generation), limit)
  {
  }

  lemma RememberShape<V>(c: Cache<V>, limit: nat, id: Id, v: V)
    requires limit > 0 && Shape(c, limit) && id !in c.values
    ensures Shape(Remember(c, limit, id, v), limit)
  {
    var next := Remember(c, limit, id, v);
    if |c.order| >= limit {
      assert c.order == [c.order[0]] + c.order[1..];
      assert forall x :: x in c.order[1..] ==> x != c.order[0];
    }
    assert forall x :: x in next.order <==> x == id || (x in c.order && (|c.order| >= limit ==> x != c.order[0]));
  }

  // Reads and writes, interleaved

  datatype Event = Writing(op: P.Op) | Reading(id: Id)

  datatype State<V> = State(tx: G.Tx, cache: Cache<V>)

  function Apply<V>(d: G.Digest, limit: nat, s: State<V>, e: Event, load: Load<V>, small: Small): State<V> {
    match e
    case Writing(op) => State(P.Step(d, s.tx, op).0, s.cache)
    case Reading(id) => State(s.tx, Fetch(s.cache, limit, G.View(s.tx), s.tx.generation, id, load, small).0)
  }

  function After<V>(d: G.Digest, limit: nat, s: State<V>, events: seq<Event>, load: Load<V>, small: Small): State<V> {
    if events == [] then s else Apply(d, limit, After(d, limit, s, events[..|events| - 1], load, small), events[|events| - 1], load, small)
  }

  ghost predicate StateInv<V>(d: G.Digest, limit: nat, s: State<V>, load: Load<V>) {
    s.tx.failed.None? ==> G.TxInv(d, s.tx) && CacheInv(s.cache, limit, G.View(s.tx), s.tx.generation, load)
  }

  lemma WriteKeepsCache<V>(d: G.Digest, limit: nat, s: State<V>, op: P.Op, load: Load<V>, small: Small)
    requires StateInv(d, limit, s, load)
    ensures StateInv(d, limit, Apply(d, limit, s, Writing(op), load, small), load)
  {
    hide G.Accounted, G.Sealed, G.Contents, G.KeyOk;
    if s.tx.failed.Some? {
      P.LatchedStays(d, s.tx, op);
    } else if P.Step(d, s.tx, op).0.failed.None? {
      P.StepKeeps(d, s.tx, op);
      WriteMovesOn(d, s.tx, op);
    }
  }

  /** A write that changes anything starts a new generation. */
  lemma WriteMovesOn(d: G.Digest, t: G.Tx, op: P.Op)
    requires G.TxInv(d, t) && t.failed.None? && P.Step(d, t, op).0.failed.None?
    ensures var u := P.Step(d, t, op).0; u.generation > t.generation || u == t
  {
    hide G.Accounted, G.Sealed, G.Contents, G.KeyOk;
    match op
    case Putting(key, plain, class_, slot, salt) => P.PutRefinesMap(d, t, key, plain, class_, slot, salt);
    case Deleting(key) => P.DeleteRefinesMap(d, t, key);
  }

  lemma {:induction false} RunKeepsCache<V>(d: G.Digest, limit: nat, s: State<V>, events: seq<Event>, load: Load<V>, small: Small)
    requires limit > 0 && StateInv(d, limit, s, load)
    ensures StateInv(d, limit, After(d, limit, s, events, load, small), load)
    decreases |events|
  {
    hide CacheInv, G.TxInv, Fetch;
    if events != [] {
      var before, e := After(d, limit, s, events[..|events| - 1], load, small), events[|events| - 1];
      RunKeepsCache(d, limit, s, events[..|events| - 1], load, small);
      match e
      case Writing(op) => WriteKeepsCache(d, limit, before, op, load, small);
      case Reading(id) =>
        if before.tx.failed.None? { FetchReads(before.cache, limit, G.View(before.tx), before.tx.generation, id, load, small); }
    }
  }

  /** However reads and writes alternate, a read through the cache returns what reading the store would. */
  lemma CachedReadsAreReads<V>(d: G.Digest, limit: nat, k: G.Disk, events: seq<Event>, load: Load<V>, small: Small, id: Id)
    requires limit > 0 && G.DiskInv(d, k) && k.index.revision < G.MaxRevision
    ensures var s := After(d, limit, State(G.Begin(k), Cache(0, map[], [])), events, load, small);
      s.tx.failed.None? ==>
        Fetch(s.cache, limit, G.View(s.tx), s.tx.generation, id, load, small).1 == load(G.View(s.tx), id) && |s.cache.values| <= limit
  {
    hide G.Accounted, G.Sealed, Fetch, After;
    var start := State(G.Begin(k), Cache(0, map[], []));
    RunKeepsCache(d, limit, start, events, load, small);
    var s := After(d, limit, start, events, load, small);
    if s.tx.failed.None? {
      FetchReads(s.cache, limit, G.View(s.tx), s.tx.generation, id, load, small);
      FewValues(s.cache.values, s.cache.order);
    }
  }

  lemma {:induction false} FewValues<V>(values: map<Id, V>, order: seq<Id>)
    requires forall id :: id in values ==> id in order
    ensures |values| <= |order|
    decreases |order|
  {
    if order == [] {
      assert values == map[];
    } else {
      var rest := values - {order[0]};
      FewValues(rest, order[1..]);
      assert rest.Keys == values.Keys - {order[0]};
    }
  }

  /** An empty cache that has remembered these values, one after the other. */
  function Remembering<V>(limit: nat, pairs: seq<(Id, V)>): Cache<V> {
    if pairs == [] then Cache(0, map[], [])
    else
      var last := pairs[|pairs| - 1];
      Remember(Remembering(limit, pairs[..|pairs| - 1]), limit, last.0, last.1)
  }

  /** Of values remembered one after the other it holds the latest, as many as its limit. */
  lemma {:induction false} LatestAreHeld<V>(limit: nat, pairs: seq<(Id, V)>)
    requires limit > 0 && forall i, j :: 0 <= i < j < |pairs| ==> pairs[i].0 != pairs[j].0
    ensures
      var from := if |pairs| <= limit then 0 else |pairs| - limit;
      var c := Remembering(limit, pairs);
      && |c.order| == |pairs| - from
      && (forall i :: 0 <= i < |c.order| ==> c.order[i] == pairs[from + i].0)
      && (forall i :: 0 <= i < |pairs| ==> (pairs[i].0 in c.values <==> from <= i))
      && (forall i :: from <= i < |pairs| ==> c.values[pairs[i].0] == pairs[i].1)
    decreases |pairs|
  {
    if pairs != [] {
      var early := pairs[..|pairs| - 1];
      LatestAreHeld(limit, early);
      var c := Remembering(limit, early);
      var last := pairs[|pairs| - 1];
      assert forall i :: 0 <= i < |early| ==> early[i] == pairs[i] && early[i].0 != last.0;
      if |c.order| >= limit {
        var from := |early| - limit;
        assert c.order[0] == pairs[from].0;
        assert forall i :: 0 <= i < |early| && i != from ==> pairs[i].0 != pairs[from].0;
      }
    }
  }

  // The bounded cache as it runs

  class ReadCache<V(==)> {
    const limit: nat
    var generation: nat
    var values: map<Id, V>
    var order: seq<Id>

    constructor (limit: nat, generation: nat)
      ensures this.limit == limit && View() == Cache(generation, map[], [])
    {
      this.limit, this.generation, values, order := limit, generation, map[], [];
    }

    function View(): Cache<V>
      reads this
    {
      Cache(generation, values, order)
    }

    method Keep(id: Id, v: V)
      modifies this
      ensures View() == Remember(old(View()), limit, id, v)
    {
      if |order| >= limit && order != [] {
        values := values - {order[0]};
        order := order[1..];
      }
      values := values[id := v];
      order := order + [id];
    }

    method Read(m: map<G.Key, G.Stored>, current: nat, id: Id, load: Load<V>, small: Small) returns (v: Option<V>)
      modifies this
      ensures (View(), v) == Fetch(old(View()), limit, m, current, id, load, small)
    {
      if generation != current { values, order, generation := map[], [], current; }
      if id in values { return Some(values[id]); }
      v := load(m, id);
      if v.Some? && small(m, id) { Keep(id, v.value); }
    }
  }
}

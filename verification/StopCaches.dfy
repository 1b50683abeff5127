/** The stops as one transaction reads and writes them: remembered when read, and again when written. */
module StopCaches {
  import opened Common
  import opened Spellings
  import opened Ledger
  import opened StopCodec
  import G = Groupstore
  import P = GroupstoreProofs
  import K = Caches
  import S = Stores
  import PS = ProfileStores
  import C = JsonCodec
  import J = Json
  import Z = StopSizes

  type Contents = map<G.Key, G.Stored>

  const StopKey: G.Key := Ascii("group-access:stops")

  /** What the store says about the stops: none where nothing is stored, nothing where what is stored is damaged. */
  ghost function Load(m: Contents): Option<seq<Stop>> {
    if StopKey !in m then Some([]) else DecodeStops(m[StopKey].plain)
  }

  datatype Cache = Cache(cached: bool, generation: nat, entries: seq<Stop>)

  /** A read: what is remembered, if nothing was written since. A failed read remembers nothing. */
  ghost function Read(c: Cache, m: Contents, generation: nat): (Cache, Option<seq<Stop>>) {
    if c.cached && c.generation == generation then (c, Some(c.entries))
    else
      var loaded := Load(m);
      (if loaded.Some? then Cache(true, generation, loaded.value) else c, loaded)
  }

  /** A write: the stored form is put, or deleted where no stop is left, and what was written is remembered. */
  ghost function Write(d: G.Digest, t: G.Tx, c: Cache, entries: seq<Stop>, slot: Id, salt: nat): (G.Tx, Cache, Option<G.Error>)
    requires StopsOk(entries)
  {
    if |StopBytes(entries)| > StopByteLimit then (t, c, Some(G.Capacity))
    else
      var (u, error) := if entries == [] then G.Delete(t, StopKey) else G.Put(d, t, StopKey, StopBytes(entries), G.Checkpoint, slot, salt);
      (u, if error.None? then Cache(true, u.generation, entries) else c, error)
  }

  // Runs

  /** The ledger reads or writes the stops, or anything at all is put or deleted. */
  datatype Event = Reading | Writing(entries: seq<Stop>, slot: Id, salt: nat) | Other(op: P.Op)

  datatype State = State(tx: G.Tx, cache: Cache)

  ghost predicate Enabled(e: Event) {
    e.Writing? ==> Storable(e.entries)
  }

  ghost function Apply(d: G.Digest, s: State, e: Event): State
    requires Enabled(e)
  {
    match e
    case Reading => State(s.tx, Read(s.cache, G.View(s.tx), s.tx.generation).0)
    case Writing(entries, slot, salt) =>
      var (u, c, error) := Write(d, s.tx, s.cache, entries, slot, salt);
      State(u, c)
    case Other(op) => State(P.Step(d, s.tx, op).0, s.cache)
  }

  ghost predicate Runs(events: seq<Event>) {
    forall i :: 0 <= i < |events| ==> Enabled(events[i])
  }

  ghost function After(d: G.Digest, s: State, events: seq<Event>): State
    requires Runs(events)
    decreases |events|
  {
    if events == [] then s else Apply(d, After(d, s, events[..|events| - 1]), events[|events| - 1])
  }

  /** What is remembered for this generation is what the store says. */
  ghost predicate CacheInv(c: Cache, m: Contents, generation: nat) {
    c.generation <= generation && (c.cached && c.generation == generation ==> Load(m) == Some(c.entries))
  }

  ghost predicate Inv(d: G.Digest, s: State) {
    s.tx.failed.None? ==> G.TxInv(d, s.tx) && CacheInv(s.cache, G.View(s.tx), s.tx.generation)
  }

  lemma ReadReads(c: Cache, m: Contents, generation: nat)
    requires CacheInv(c, m, generation)
    ensures Read(c, m, generation).1 == Load(m) && CacheInv(Read(c, m, generation).0, m, generation)
  {
    hide Load;
  }

  /** What was read once is not read again before the next write, and a failed read is not remembered. */
  lemma ReadOnce(c: Cache, m: Contents, generation: nat, later: Contents)
    ensures Read(c, m, generation).1.Some? ==> Read(Read(c, m, generation).0, later, generation).1 == Read(c, m, generation).1
    ensures Read(c, m, generation).1.None? ==> Read(c, m, generation).0 == c
  {
    hide Load;
  }

  lemma KeyIsLegal()
    ensures G.KeyOk(StopKey) && |StopKey| == 18
  {
  }

  /** What has just been written is what the store says. */
  lemma WrittenLoads(m: Contents, entries: seq<Stop>)
    requires Storable(entries)
    ensures Load(m[StopKey := G.Stored(StopBytes(entries), G.Checkpoint)]) == Some(entries)
    ensures Load(m - {StopKey}) == Some([])
  {
    hide Storable, DecodeStops, StopBytes;
    StopsDecode(entries);
  }

  lemma WriteKeepsInv(d: G.Digest, s: State, entries: seq<Stop>, slot: Id, salt: nat)
    requires Inv(d, s) && Storable(entries) && s.tx.failed.None?
    ensures Inv(d, Apply(d, s, Writing(entries, slot, salt)))
    ensures var (u, c, error) := Write(d, s.tx, s.cache, entries, slot, salt);
      error.None? ==> u.failed.None? && Load(G.View(u)) == Some(entries)
  {
    hide G.Accounted, G.Sealed, G.Contents, G.KeyOk, G.TxInv, G.Put, G.Delete, Load, StopOk, StopBytes;
    StopsDecode(entries);
    WrittenLoads(G.View(s.tx), entries);
    if entries == [] {
      P.DeleteRefinesMap(d, s.tx, StopKey);
      DeleteKeeps(d, s.tx);
    } else {
      P.PutRefinesMap(d, s.tx, StopKey, StopBytes(entries), G.Checkpoint, slot, salt);
      PutKeeps(d, s.tx, StopBytes(entries), slot, salt);
    }
  }

  lemma PutKeeps(d: G.Digest, t: G.Tx, plain: seq<Byte>, slot: Id, salt: nat)
    requires G.TxInv(d, t) && t.failed.None?
    ensures var (u, error) := G.Put(d, t, StopKey, plain, G.Checkpoint, slot, salt);
      && (error.None? ==> u.failed.None? && G.TxInv(d, u))
      && (error.Some? && u.failed.None? ==> u == t)
  {
    hide G.TxInv, G.Readable, G.Accounted, G.KeyOk;
    if G.Put(d, t, StopKey, plain, G.Checkpoint, slot, salt).1.None? {
      P.PutKeepsInv(d, t, StopKey, plain, G.Checkpoint, slot, salt);
    }
  }

  lemma DeleteKeeps(d: G.Digest, t: G.Tx)
    requires G.TxInv(d, t) && t.failed.None?
    ensures var (u, error) := G.Delete(t, StopKey);
      && (error.None? ==> u.failed.None? && G.TxInv(d, u) && (u == t || u.generation == t.generation + 1))
      && (error.Some? ==> u == t)
  {
    hide G.TxInv, G.Readable, G.KeyOk;
    if G.Delete(t, StopKey).1.None? { P.DeleteKeepsInv(d, t, StopKey); }
  }

  lemma OtherKeepsInv(d: G.Digest, s: State, op: P.Op)
    requires Inv(d, s)
    ensures Inv(d, Apply(d, s, Other(op)))
  {
    hide G.TxInv, G.Readable, Load;
    if s.tx.failed.Some? {
      P.LatchedStays(d, s.tx, op);
    } else if P.Step(d, s.tx, op).0.failed.None? {
      P.StepKeeps(d, s.tx, op);
      K.WriteMovesOn(d, s.tx, op);
    }
  }

  lemma LatchedWrite(d: G.Digest, s: State, entries: seq<Stop>, slot: Id, salt: nat)
    requires s.tx.failed.Some? && Storable(entries)
    ensures Apply(d, s, Writing(entries, slot, salt)).tx.failed.Some?
  {
    hide Storable, StopBytes;
  }

  lemma StepKeepsInv(d: G.Digest, s: State, e: Event)
    requires Inv(d, s) && Enabled(e)
    ensures Inv(d, Apply(d, s, e))
  {
    hide G.TxInv, G.Readable, CacheInv, Load, Read, Storable;
    match e
    case Reading => if s.tx.failed.None? { ReadReads(s.cache, G.View(s.tx), s.tx.generation); }
    case Writing(entries, slot, salt) =>
      if s.tx.failed.None? { WriteKeepsInv(d, s, entries, slot, salt); } else { LatchedWrite(d, s, entries, slot, salt); }
    case Other(op) => OtherKeepsInv(d, s, op);
  }

  lemma {:induction false} RunKeepsInv(d: G.Digest, s: State, events: seq<Event>)
    requires Inv(d, s) && Runs(events)
    ensures Inv(d, After(d, s, events))
    decreases |events|
  {
    hide Inv, Apply, Enabled;
    if events != [] {
      RunKeepsInv(d, s, events[..|events| - 1]);
      StepKeepsInv(d, After(d, s, events[..|events| - 1]), events[|events| - 1]);
    }
  }

  /** However reads and writes of the stops and of anything else alternate in a transaction, refused and failed ones
      included, every read of the stops returns what decoding the store as it then is would. */
  lemma StopReadsAreReads(d: G.Digest, k: G.Disk, events: seq<Event>)
    requires G.DiskInv(d, k) && k.index.revision < G.MaxRevision && Runs(events)
    ensures var s := After(d, State(G.Begin(k), Cache(false, 0, [])), events);
      s.tx.failed.None? ==> Read(s.cache, G.View(s.tx), s.tx.generation).1 == Load(G.View(s.tx))
  {
    hide G.Accounted, G.Sealed, After, Load, Read, Runs;
    var start := State(G.Begin(k), Cache(false, 0, []));
    RunKeepsInv(d, start, events);
    var s := After(d, start, events);
    if s.tx.failed.None? { ReadReads(s.cache, G.View(s.tx), s.tx.generation); }
  }

  /** And a write that succeeds is what the next read returns, the empty list included. */
  lemma WrittenIsRead(d: G.Digest, k: G.Disk, events: seq<Event>, entries: seq<Stop>, slot: Id, salt: nat)
    requires G.DiskInv(d, k) && k.index.revision < G.MaxRevision && Runs(events) && Storable(entries)
    ensures var s := After(d, State(G.Begin(k), Cache(false, 0, [])), events);
      var (u, c, error) := Write(d, s.tx, s.cache, entries, slot, salt);
      s.tx.failed.None? && error.None? ==>
        Read(c, G.View(u), u.generation).1 == Some(entries) && Load(G.View(u)) == Some(entries)
  {
    hide G.Accounted, G.Sealed, After, Load, Runs, Storable, StopBytes, G.Put, G.Delete;
    var start := State(G.Begin(k), Cache(false, 0, []));
    RunKeepsInv(d, start, events);
    var s := After(d, start, events);
    if s.tx.failed.None? { WriteKeepsInv(d, s, entries, slot, salt); }
  }

  /** The stops are one record, a checkpoint, which ordinary data cannot crowd out; a write touches nothing else, and
      without stops there is no record. */
  lemma WrittenAsCheckpoint(d: G.Digest, t: G.Tx, c: Cache, entries: seq<Stop>, slot: Id, salt: nat)
    requires G.TxInv(d, t) && Storable(entries) && Write(d, t, c, entries, slot, salt).2.None?
    ensures var u := Write(d, t, c, entries, slot, salt).0;
      G.View(u) == if entries == [] then G.View(t) - {Ascii("group-access:stops")}
                   else G.View(t)[Ascii("group-access:stops") := G.Stored(StopBytes(entries), G.Checkpoint)]
  {
    hide G.Accounted, G.Sealed, G.Put, G.Delete, StopBytes, Ascii, G.View, StopOk;
    if entries == [] {
      P.DeleteRefinesMap(d, t, StopKey);
    } else {
      P.PutRefinesMap(d, t, StopKey, StopBytes(entries), G.Checkpoint, slot, salt);
    }
  }

  // As it runs

  class StopCache {
    var cached: bool
    var generation: nat
    var entries: seq<Stop>

    constructor ()
      ensures View() == Cache(false, 0, [])
    {
      cached, generation, entries := false, 0, [];
    }

    function View(): Cache
      reads this
    {
      Cache(cached, generation, entries)
    }

    method Stops(store: S.Store) returns (stops: Option<seq<Stop>>)
      requires PS.Ready(store)
      modifies this, store`failed
      ensures PS.Ready(store) && store.Working() == old(store.Working())
      ensures (View(), stops) == Read(old(View()), store.Contents(), store.generation)
    {
      hide PS.Ready, S.Store.Valid, DecodeStops, G.Contents, G.KeyOk;
      if cached && generation == store.generation { return Some(entries); }
      KeyIsLegal();
      var stored := PS.GetRecord(store, StopKey);
      if stored.None? {
        stops := Some([]);
      } else {
        stops := Decode(stored.value.plain);
        if stops.None? { return; }
      }
      cached, generation, entries := true, store.generation, stops.value;
    }

    method WriteStops(store: S.Store, list: seq<Stop>, slot: Id, salt: nat) returns (error: Option<G.Error>)
      requires PS.Ready(store) && store.writable && Storable(list)
      modifies this, store
      ensures store.Valid() && store.active
      ensures (store.Working(), View(), error) == Write(store.digest, old(store.Working()), old(View()), list, slot, salt)
    {
      hide S.Store.Valid, G.Put, G.Delete, G.Contents, G.KeyOk, StopOk, J.Print, J.Proper, J.Shallow, StopSetJson;
      StopsPrintable(list);
      StopsShallow(list);
      Z.StopsFit(list);
      var encoded := C.Canonical(AnyNumber, StopSetJson(list));
      if |list| == 0 {
        error := store.Delete(StopKey);
      } else {
        error := store.Put(StopKey, encoded.value, G.Checkpoint, slot, salt);
      }
      if error.Some? { return; }
      cached, generation, entries := true, store.generation, list;
    }
  }
}

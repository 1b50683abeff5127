/** The store as it runs: one transaction at a time over the records on disk. */
module Stores {
  import opened Common
  import G = Groupstore
  import P = GroupstoreProofs
  import Z = StopSizes

  class Store {
    const digest: G.Digest
    var disk: G.Disk
    var active: bool
    var poisoned: bool
    var writable: bool
    var revision: nat
    var limits: G.Limits
    var entries: seq<G.Entry>
    var records: map<Id, G.Envelope>
    var changed: bool
    var generation: nat
    var failed: Option<G.Error>

    constructor (digest: G.Digest, limits: G.Limits)
      requires G.LimitsOk(limits) && G.Accounted(G.Index(0, limits, []))
      ensures this.digest == digest && Valid() && !active && !poisoned && disk.index.entries == []
    {
      this.digest := digest;
      disk := G.Disk(G.Index(0, limits, []), map[]);
      active, poisoned, writable := false, false, false;
      revision, this.limits, entries, records, changed, generation, failed := 0, limits, [], map[], false, 0, None;
    }

    function Working(): G.Tx
      reads `revision, `limits, `entries, `records, `changed, `generation, `failed
    {
      G.Tx(G.Index(revision, limits, entries), records, changed, generation, failed)
    }

    function Contents(): map<G.Key, G.Stored>
      reads `revision, `limits, `entries, `records, `changed, `generation, `failed
    {
      G.View(Working())
    }

    ghost predicate Valid()
      reads this
    {
      && G.DiskInv(digest, disk)
      && (active ==> WorkingOk())
    }

    /** The working copy of a transaction that has not failed. */
    ghost predicate WorkingOk()
      reads this
    {
      && (writable ==> disk.index.revision < G.MaxRevision) && (changed ==> writable)
      && revision == disk.index.revision && limits == disk.index.limits
      && (failed.None? ==> G.Readable(digest, Working()))
      && (!changed && failed.None? ==> entries == disk.index.entries && records == disk.records)
    }

    /** Opens a transaction. One that could not commit for want of a revision is refused, and poisons the store. */
    method Begin(toWrite: bool) returns (ok: bool)
      requires Valid()
      modifies this
      ensures Valid() && disk == old(disk)
      ensures ok <==> !old(active) && !old(poisoned) && (toWrite ==> disk.index.revision < 9007199254740991)
      ensures poisoned <==> old(poisoned) || (toWrite && !old(active) && disk.index.revision == 9007199254740991)
      ensures ok ==> active && writable == toWrite && Working() == G.Begin(disk)
      ensures !ok ==> active == old(active)
    {
      hide G.Accounted, G.Sealed;
      if active || poisoned { return false; }
      if toWrite && disk.index.revision == G.MaxRevision {
        poisoned := true;
        return false;
      }
      active, writable := true, toWrite;
      revision, limits, entries, records := disk.index.revision, disk.index.limits, disk.index.entries, disk.records;
      changed, generation, failed := false, 0, None;
      ok := true;
    }

    method Find(key: G.Key) returns (e: Option<G.Entry>)
      ensures e == G.Find(entries, key)
    {
      var n := 0;
      while n < |entries|
        invariant 0 <= n <= |entries| && G.Find(entries, key) == G.Find(entries[n..], key)
      {
        assert entries[n..][1..] == entries[n + 1..];
        if entries[n].key == key { return Some(entries[n]); }
        n := n + 1;
      }
      return None;
    }

    method Get(key: G.Key) returns (found: Option<G.Stored>, error: Option<G.Error>)
      requires Valid() && active
      modifies `failed
      ensures Valid()
      ensures (Working(), found, error) == G.Get(digest, old(Working()), key)
    {
      hide G.Accounted, G.Sealed, G.KeyOk, G.TxInv;
      if failed.Some? { return None, failed; }
      if !G.KeyOk(key) { return None, Some(G.Rejected); }
      var e := Find(key);
      if e.None? { return None, None; }
      var slot := e.value.slot;
      if slot !in records || !G.EntryOk(digest, e.value, records, e.value.revision) {
        failed := Some(G.Latched(true));
        return None, failed;
      }
      return Some(G.Stored(records[slot].plain, e.value.class_)), None;
    }

    method Remaining(key: G.Key) returns (rest: seq<G.Entry>)
      ensures rest == G.Without(entries, key)
    {
      rest := [];
      var n := 0;
      while n < |entries|
        invariant 0 <= n <= |entries| && rest == G.Without(entries[..n], key)
      {
        assert entries[..n + 1][..n] == entries[..n];
        if entries[n].key != key { rest := rest + [entries[n]]; }
        n := n + 1;
      }
      assert entries[..n] == entries;
    }

    /** The index as it would be with this record, and whether it fits. */
    method Prepare(key: G.Key, plain: seq<Byte>, class_: G.Class, slot: Id, salt: nat) returns (fits: bool, candidate: seq<G.Entry>)
      requires G.LimitsOk(limits)
      ensures var next := G.Candidate(digest, Working(), key, plain, class_, slot, salt);
        candidate == next.entries && fits == G.Accounted(next) && next.revision == revision + 1
    {
      hide G.Accounted;
      var envelope := G.Envelope(plain, key, revision + 1, salt);
      var rest := Remaining(key);
      candidate := rest + [G.Entry(key, slot, revision + 1, digest(envelope), |plain| + G.Overhead, class_)];
      fits := G.Account(G.Index(revision + 1, limits, candidate));
    }

    /** Gives the record of a key back, if there is one. */
    method Free(key: G.Key)
      modifies `records
      ensures records == G.Freed(old(Working()), key)
    {
      var previous := Find(key);
      if previous.Some? { records := records - {previous.value.slot}; }
    }

    method Put(key: G.Key, plain: seq<Byte>, class_: G.Class, slot: Id, salt: nat) returns (error: Option<G.Error>)
      requires Valid() && active && writable
      modifies `entries, `records, `changed, `generation, `failed
      ensures Valid()
      ensures (Working(), error) == G.Put(digest, old(Working()), key, plain, class_, slot, salt)
      ensures error.None? ==> Contents() == old(Contents())[key := G.Stored(plain, class_)] && generation == old(generation) + 1
      ensures error.Some? && old(failed).None? && failed.None? ==> Working() == old(Working())
    {
      hide G.Accounted, G.Sealed, G.KeyOk, G.Contents, G.Find, G.Candidate, G.LimitsOk, G.Freed;
      ghost var before := Working();
      LimitsStay(disk);
      if failed.None? { P.PutRefinesMap(digest, Working(), key, plain, class_, slot, salt); }
      if failed.Some? { return failed; }
      if !G.KeyOk(key) || |plain| > G.MaxRecord { return Some(G.Rejected); }
      var fits, candidate := Prepare(key, plain, class_, slot, salt);
      if !fits { return Some(G.Capacity); }
      Free(key);
      if slot in records {
        failed := Some(G.Latched(false));
        return failed;
      }
      P.PutKeepsInv(digest, before, key, plain, class_, slot, salt);
      records := records[slot := G.Envelope(plain, key, revision + 1, salt)];
      entries, changed, generation := candidate, true, generation + 1;
      return None;
    }

    method Delete(key: G.Key) returns (error: Option<G.Error>)
      requires Valid() && active && writable
      modifies `entries, `records, `changed, `generation
      ensures Valid()
      ensures (Working(), error) == G.Delete(old(Working()), key)
      ensures error.None? ==> Contents() == old(Contents()) - {key}
      ensures error.None? && key in old(Contents()) ==> generation == old(generation) + 1
      ensures error.Some? || key !in old(Contents()) ==> Working() == old(Working())
    {
      hide G.Accounted, G.Sealed, G.KeyOk, G.Contents;
      ghost var before := Working();
      if failed.None? { P.DeleteRefinesMap(digest, Working(), key); }
      if failed.Some? { return failed; }
      if !G.KeyOk(key) { return Some(G.Rejected); }
      var e := Find(key);
      if e.None? { return None; }
      P.DeleteKeepsInv(digest, before, key);
      var rest := Remaining(key);
      records := records - {e.value.slot};
      entries, changed, generation := rest, true, generation + 1;
      return None;
    }

    method Abort(error: G.Error) returns (first: G.Error)
      requires Valid() && active
      modifies `failed
      ensures Valid() && Working() == old(Working()).(failed := Some(first))
      ensures first == if old(failed).Some? then old(failed).value else error
    {
      if failed.Some? { return failed.value; }
      failed := Some(error);
      return error;
    }

    /** Commits what was written, or drops it. `ok` is what the callback reported. */
    method End(ok: bool, integrity: bool) returns (committed: bool)
      requires Valid() && active
      modifies this
      ensures Valid() && !active
      ensures committed == (ok && old(failed).None?)
      ensures (disk, committed) == G.Finish(old(disk), old(Working()), ok)
      ensures committed ==> G.Contents(disk.index.entries, disk.records) == old(Contents())
      ensures poisoned == (old(poisoned) || (!ok && integrity) || old(failed) == Some(G.Latched(true)))
    {
      hide G.Accounted, G.Sealed, G.Contents;
      active := false;
      if (!ok && integrity) || failed == Some(G.Latched(true)) { poisoned := true; }
      if !ok || failed.Some? { return false; }
      P.CommitAlwaysFits(digest, disk, Working());
      if changed {
        disk := G.Disk(G.Index(revision + 1, limits, entries), records);
      }
      committed := true;
    }
  }

  lemma LimitsStay(k: G.Disk)
    ensures forall d :: G.DiskInv(d, k) ==> G.LimitsOk(k.index.limits)
  {
    hide G.Sealed, G.Accounted, G.LimitsOk;
  }

  /** An empty store fits its own limits exactly when they leave room for two brackets. */
  lemma EmptyFits(limits: G.Limits)
    requires G.LimitsOk(limits)
    ensures G.Accounted(G.Index(0, limits, [])) <==> limits.reserve + 2 <= limits.total
  {
    assert Z.Power10(4) == 10000;
    assert Z.Power10(8) == 100000000;
    Z.DecimalLength(limits.total, 8);
    Z.DecimalLength(limits.reserve, 8);
    Z.DecimalLength(0, 1);
  }
}

/** The store refines a plain map, commits never lack room, and checkpoints keep their reserve. */
module GroupstoreProofs {
  import opened Common
  import opened Groupstore

  // Entries

  predicate Distinct(entries: seq<Entry>) {
    forall i, j :: 0 <= i < j < |entries| ==> entries[i].key != entries[j].key && entries[i].slot != entries[j].slot
  }

  lemma {:induction false} FindIn(entries: seq<Entry>, key: Key)
    ensures Find(entries, key).Some? <==> key in KeysOf(entries)
    ensures Find(entries, key).Some? ==> Find(entries, key).value in entries && Find(entries, key).value.key == key
    decreases |entries|
  {
    if entries != [] {
      FindIn(entries[1..], key);
      assert entries == [entries[0]] + entries[1..];
      if key in KeysOf(entries) && entries[0].key != key {
        var i :| 0 <= i < |entries| && entries[i].key == key;
        assert entries[1..][i - 1].key == key;
      }
      if key in KeysOf(entries[1..]) {
        var i :| 0 <= i < |entries[1..]| && entries[1..][i].key == key;
        assert entries[i + 1].key == key;
      }
    }
  }

  lemma FindIs(entries: seq<Entry>, e: Entry)
    requires Distinct(entries) && e in entries
    ensures Find(entries, e.key) == Some(e) && e.key in KeysOf(entries)
  {
    var i :| 0 <= i < |entries| && entries[i] == e;
    FindIn(entries, e.key);
    var found := Find(entries, e.key).value;
    var j :| 0 <= j < |entries| && entries[j] == found;
    SameKeySamePlace(entries, i, j);
  }

  lemma SameKeySamePlace(entries: seq<Entry>, i: nat, j: nat)
    requires Distinct(entries) && i < |entries| && j < |entries| && entries[i].key == entries[j].key
    ensures i == j
  {
  }

  lemma {:induction false} WithoutHas(entries: seq<Entry>, key: Key)
    ensures forall e :: e in Without(entries, key) <==> e in entries && e.key != key
    ensures Distinct(entries) ==> Distinct(Without(entries, key))
    decreases |entries|
  {
    if entries != [] {
      var n := |entries| - 1;
      WithoutHas(entries[..n], key);
      assert entries == entries[..n] + [entries[n]];
      if Distinct(entries) {
        assert Distinct(entries[..n]);
        forall e | e in entries[..n] ensures e.key != entries[n].key && e.slot != entries[n].slot {
          var i :| 0 <= i < n && entries[i] == e;
        }
      }
    }
  }

  lemma {:induction false} WithoutAbsent(entries: seq<Entry>, key: Key)
    requires key !in KeysOf(entries)
    ensures Without(entries, key) == entries
    decreases |entries|
  {
    if entries != [] {
      var n := |entries| - 1;
      assert entries[n].key in KeysOf(entries);
      forall k | k in KeysOf(entries[..n]) ensures k in KeysOf(entries) {
        var i :| 0 <= i < n && entries[..n][i].key == k;
        assert entries[i].key == k;
      }
      WithoutAbsent(entries[..n], key);
    }
  }

  lemma {:induction false} OfClassHas(entries: seq<Entry>, c: Class)
    ensures forall e :: e in OfClass(entries, c) <==> e in entries && e.class_ == c
    decreases |entries|
  {
    if entries != [] {
      OfClassHas(entries[..|entries| - 1], c);
      assert entries == entries[..|entries| - 1] + [entries[|entries| - 1]];
    }
  }

  lemma {:induction false} ClassesCommute(entries: seq<Entry>, key: Key, c: Class)
    ensures OfClass(Without(entries, key), c) == Without(OfClass(entries, c), key)
    decreases |entries|
  {
    if entries != [] {
      var n := |entries| - 1;
      ClassesCommute(entries[..n], key, c);
      var rest := Without(entries[..n], key);
      assert (rest + [entries[n]])[..|rest|] == rest;
      var chosen := OfClass(entries[..n], c);
      assert (chosen + [entries[n]])[..|chosen|] == chosen;
    }
  }

  // Sizes

  lemma {:induction false} FiguresStep(n: nat)
    ensures Figures(n) <= Figures(n + 1) <= Figures(n) + 1
    decreases n
  {
    if n >= 10 {
      if (n + 1) / 10 == n / 10 + 1 { FiguresStep(n / 10); }
    }
  }

  lemma SumsStep(entries: seq<Entry>, e: Entry)
    ensures Weights(entries + [e]) == Weights(entries) + EntryBytes(e) + 1
    ensures RecordBytes(entries + [e]) == RecordBytes(entries) + e.bytes + 64
    ensures OfClass(entries + [e], Data) == if e.class_.Data? then OfClass(entries, Data) + [e] else OfClass(entries, Data)
    ensures OfClass(entries + [e], Checkpoint) == if e.class_.Checkpoint? then OfClass(entries, Checkpoint) + [e] else OfClass(entries, Checkpoint)
  {
    assert (entries + [e])[..|entries|] == entries;
  }

  lemma {:induction false} WithoutIsSmaller(entries: seq<Entry>, key: Key)
    ensures Weights(Without(entries, key)) <= Weights(entries) && RecordBytes(Without(entries, key)) <= RecordBytes(entries)
    ensures key in KeysOf(entries) ==> Weights(Without(entries, key)) + 200 <= Weights(entries)
    decreases |entries|
  {
    hide EntryBytes;
    if entries != [] {
      var n := |entries| - 1;
      WithoutIsSmaller(entries[..n], key);
      EntryAtLeast(entries[n]);
      SumsStep(Without(entries[..n], key), entries[n]);
      if key in KeysOf(entries) && entries[n].key != key {
        var i :| 0 <= i < |entries| && entries[i].key == key;
        assert entries[..n][i].key == key;
      }
    }
  }

  lemma EntryAtLeast(e: Entry)
    ensures EntryBytes(e) >= 199
  {
  }

  lemma ListAtLeast(entries: seq<Entry>)
    ensures ListBytes(entries) == (if entries == [] then 2 else 1 + Weights(entries))
    ensures Weights(entries) <= ListBytes(entries) + 1
    ensures entries != [] ==> Weights(entries) >= 200
  {
    hide EntryBytes;
    if entries != [] { EntryAtLeast(entries[|entries| - 1]); }
  }

  lemma ListShrinks(entries: seq<Entry>, key: Key)
    ensures ListBytes(Without(entries, key)) <= ListBytes(entries)
    ensures key in KeysOf(entries) ==> ListBytes(Without(entries, key)) < ListBytes(entries)
  {
    hide EntryBytes, Without, Weights;
    WithoutIsSmaller(entries, key);
    ListAtLeast(entries);
    ListAtLeast(Without(entries, key));
    if entries == [] { assert Without(entries, key) == [] by { WithoutAbsent(entries, key); } }
  }

  /** Removing a record keeps within every limit, even where the next revision has one more digit. */
  lemma DeletingFits(b: Index, key: Key)
    requires Accounted(b) && key in KeysOf(b.entries)
    ensures Accounted(Index(b.revision + 1, b.limits, Without(b.entries, key)))
    ensures Accounted(Index(b.revision, b.limits, Without(b.entries, key)))
  {
    hide ListBytes, RecordBytes, OfClass, Without, Figures, KeysOf;
    ListShrinks(b.entries, key);
    WithoutIsSmaller(b.entries, key);
    ClassesCommute(b.entries, key, Data);
    ListShrinks(OfClass(b.entries, Data), key);
    WithoutIsSmaller(OfClass(b.entries, Data), key);
    FiguresStep(b.revision);
  }

  // Transactions keep their invariant

  lemma SlotsOf(entries: seq<Entry>, slot: Id)
    ensures slot in Slots(entries) <==> exists e :: e in entries && e.slot == slot
  {
    if slot in Slots(entries) {
      var i :| 0 <= i < |entries| && entries[i].slot == slot;
      assert entries[i] in entries;
    }
    if e :| e in entries && e.slot == slot {
      var i :| 0 <= i < |entries| && entries[i] == e;
    }
  }

  lemma SealedParts(d: Digest, entries: seq<Entry>, records: map<Id, Envelope>, newest: nat)
    requires Sealed(d, entries, records, newest)
    ensures Distinct(entries) && records.Keys == Slots(entries)
    ensures forall e :: e in entries ==> EntryOk(d, e, records, newest)
  {
    hide EntryOk;
  }

  lemma SealedFrom(d: Digest, entries: seq<Entry>, records: map<Id, Envelope>, newest: nat)
    requires Distinct(entries) && records.Keys == Slots(entries) && forall e :: e in entries ==> EntryOk(d, e, records, newest)
    ensures Sealed(d, entries, records, newest)
  {
    hide EntryOk;
  }

  /** Taking a key out, with its record. */
  lemma RemovingIsSealed(d: Digest, t: Tx, key: Key, newest: nat)
    requires Sealed(d, t.index.entries, t.records, newest)
    ensures Sealed(d, Without(t.index.entries, key), Freed(t, key), newest)
  {
    hide KeyOk;
    var entries := t.index.entries;
    var rest, records := Without(entries, key), Freed(t, key);
    SealedParts(d, entries, t.records, newest);
    WithoutHas(entries, key);
    FindIn(entries, key);
    forall e | e in rest ensures EntryOk(d, e, records, newest) {
      if Find(entries, key).Some? { SlotsDiffer(entries, e, Find(entries, key).value); }
    }
    forall slot ensures slot in records <==> slot in Slots(rest) {
      SlotsOf(entries, slot);
      SlotsOf(rest, slot);
      if slot in records {
        var e :| e in entries && e.slot == slot;
        if e.key == key { FindIs(entries, e); }
      }
      if e :| e in rest && e.slot == slot {
        if Find(entries, key).Some? { SlotsDiffer(entries, e, Find(entries, key).value); }
      }
    }
    SealedFrom(d, rest, records, newest);
  }

  lemma SlotsDiffer(entries: seq<Entry>, a: Entry, b: Entry)
    requires Distinct(entries) && a in entries && b in entries && a.key != b.key
    ensures a.slot != b.slot
  {
    var i :| 0 <= i < |entries| && entries[i] == a;
    var j :| 0 <= j < |entries| && entries[j] == b;
    if i < j { assert entries[i].slot != entries[j].slot; } else { assert entries[j].slot != entries[i].slot; }
  }

  lemma NewerIsSealed(d: Digest, entries: seq<Entry>, records: map<Id, Envelope>, old_: nat, newest: nat)
    requires Sealed(d, entries, records, old_) && old_ <= newest
    ensures Sealed(d, entries, records, newest)
  {
    hide KeyOk;
  }

  /** Adding an entry for a key that is not there, in a slot that is free. */
  lemma AddingIsSealed(d: Digest, entries: seq<Entry>, records: map<Id, Envelope>, newest: nat, e: Entry, envelope: Envelope)
    requires Sealed(d, entries, records, newest) && e.slot !in records && (forall x :: x in entries ==> x.key != e.key)
    requires EntryOk(d, e, records[e.slot := envelope], newest)
    ensures Sealed(d, entries + [e], records[e.slot := envelope], newest)
  {
    hide KeyOk;
    var more, all := entries + [e], records[e.slot := envelope];
    SealedParts(d, entries, records, newest);
    forall x | x in entries ensures EntryOk(d, x, all, newest) && x.slot != e.slot {
      SlotsOf(entries, x.slot);
    }
    forall slot ensures slot in all <==> slot in Slots(more) {
      SlotsOf(entries, slot);
      SlotsOf(more, slot);
    }
    SealedFrom(d, more, all, newest);
  }

  ghost function Newest(t: Tx): nat {
    if t.changed then t.index.revision + 1 else t.index.revision
  }

  lemma PutKeepsInv(d: Digest, t: Tx, key: Key, plain: seq<Byte>, class_: Class, slot: Id, salt: nat)
    requires TxInv(d, t) && Put(d, t, key, plain, class_, slot, salt).1.None?
    ensures TxInv(d, Put(d, t, key, plain, class_, slot, salt).0)
  {
    hide Accounted, Sealed, Without;
    var next := Candidate(d, t, key, plain, class_, slot, salt);
    var newest := t.index.revision + 1;
    NewerIsSealed(d, t.index.entries, t.records, Newest(t), newest);
    RemovingIsSealed(d, t, key, newest);
    WithoutHas(t.index.entries, key);
    var envelope := Envelope(plain, key, newest, salt);
    var e := Entry(key, slot, newest, d(envelope), |plain| + Overhead, class_);
    AddingIsSealed(d, Without(t.index.entries, key), Freed(t, key), newest, e, envelope);
  }

  lemma DeleteKeepsInv(d: Digest, t: Tx, key: Key)
    requires TxInv(d, t) && Delete(t, key).1.None?
    ensures TxInv(d, Delete(t, key).0)
  {
    hide Accounted, Sealed, Without, Freed;
    if Find(t.index.entries, key).Some? {
      var newest := t.index.revision + 1;
      FindIn(t.index.entries, key);
      NewerIsSealed(d, t.index.entries, t.records, Newest(t), newest);
      RemovingIsSealed(d, t, key, newest);
      DeletingFits(if t.changed then t.index.(revision := newest) else t.index, key);
    }
  }

  // What readers see

  lemma ContentsAt(d: Digest, entries: seq<Entry>, records: map<Id, Envelope>, newest: nat, key: Key)
    requires Sealed(d, entries, records, newest)
    ensures key in Contents(entries, records) <==> key in KeysOf(entries)
    ensures key in KeysOf(entries) ==> Find(entries, key).Some? && Find(entries, key).value.slot in records
    ensures key in KeysOf(entries) ==>
      Contents(entries, records)[key] == Stored(records[Find(entries, key).value.slot].plain, Find(entries, key).value.class_)
  {
    SealedParts(d, entries, records, newest);
    FindIn(entries, key);
  }

  /** Whoever holds an entry of the index reads its record. */
  lemma ContentsOf(d: Digest, entries: seq<Entry>, records: map<Id, Envelope>, newest: nat, e: Entry)
    requires Sealed(d, entries, records, newest) && e in entries
    ensures e.key in Contents(entries, records) && e.slot in records
    ensures Contents(entries, records)[e.key] == Stored(records[e.slot].plain, e.class_)
  {
    hide EntryOk;
    SealedParts(d, entries, records, newest);
    FindIs(entries, e);
    ContentsAt(d, entries, records, newest, e.key);
  }

  lemma ContentsFrom(d: Digest, entries: seq<Entry>, records: map<Id, Envelope>, newest: nat, key: Key)
    requires Sealed(d, entries, records, newest)
    ensures key in Contents(entries, records) ==>
      exists e :: e in entries && e.key == key && e.slot in records && Contents(entries, records)[key] == Stored(records[e.slot].plain, e.class_)
  {
    hide EntryOk;
    ContentsAt(d, entries, records, newest, key);
    FindIn(entries, key);
    if key in Contents(entries, records) { assert Find(entries, key).value in entries; }
  }

  /** A record that is there under the same slot, entry for entry, reads the same. */
  lemma SameView(d: Digest, a: seq<Entry>, x: map<Id, Envelope>, b: seq<Entry>, y: map<Id, Envelope>, newest: nat, key: Key)
    requires Sealed(d, a, x, newest) && Sealed(d, b, y, newest)
    requires forall e :: e in a && e.key != key <==> e in b && e.key != key
    requires forall e :: e in a && e.key != key && e.slot in x && e.slot in y ==> x[e.slot] == y[e.slot]
    ensures forall k :: k != key ==> (k in Contents(a, x) <==> k in Contents(b, y))
    ensures forall k :: k != key && k in Contents(a, x) ==> Contents(a, x)[k] == Contents(b, y)[k]
  {
    hide Sealed, Contents;
    forall k | k != key ensures k in Contents(a, x) <==> k in Contents(b, y)
      ensures k in Contents(a, x) ==> Contents(a, x)[k] == Contents(b, y)[k] {
      ContentsFrom(d, a, x, newest, k);
      ContentsFrom(d, b, y, newest, k);
      if k in Contents(a, x) {
        var e :| e in a && e.key == k && e.slot in x && Contents(a, x)[k] == Stored(x[e.slot].plain, e.class_);
        ContentsOf(d, b, y, newest, e);
      }
      if k in Contents(b, y) {
        var e :| e in b && e.key == k && e.slot in y && Contents(b, y)[k] == Stored(y[e.slot].plain, e.class_);
        ContentsOf(d, a, x, newest, e);
      }
    }
  }

  lemma FreedKeeps(t: Tx, key: Key, slot: Id)
    ensures slot in Freed(t, key) ==> slot in t.records && Freed(t, key)[slot] == t.records[slot]
  {
  }

  /** A successful `Put` changes exactly one key of what readers see; any other leaves it, and the transaction, as they were. */
  lemma PutRefinesMap(d: Digest, t: Tx, key: Key, plain: seq<Byte>, class_: Class, slot: Id, salt: nat)
    requires TxInv(d, t)
    ensures var (u, error) := Put(d, t, key, plain, class_, slot, salt);
      && (error.None? ==> View(u) == View(t)[key := Stored(plain, class_)] && u.generation == t.generation + 1)
      && (error.Some? && error != Some(Latched(false)) ==> u == t)
  {
    hide Accounted, Sealed, Contents, Without, Freed;
    var (u, error) := Put(d, t, key, plain, class_, slot, salt);
    if error.None? {
      var newest := t.index.revision + 1;
      PutKeepsInv(d, t, key, plain, class_, slot, salt);
      NewerIsSealed(d, t.index.entries, t.records, Newest(t), newest);
      WithoutHas(t.index.entries, key);
      var e := u.index.entries[|u.index.entries| - 1];
      assert forall x :: x in t.index.entries && x.key != key ==> x in u.index.entries;
      forall x | x in t.index.entries && x.key != key && x.slot in t.records && x.slot in u.records
        ensures t.records[x.slot] == u.records[x.slot] {
        FreedKeeps(t, key, x.slot);
        NotTheNewSlot(d, u, x, e, newest);
      }
      SameView(d, t.index.entries, t.records, u.index.entries, u.records, newest, key);
      ContentsOf(d, u.index.entries, u.records, newest, e);
    }
  }

  lemma NotTheNewSlot(d: Digest, u: Tx, x: Entry, e: Entry, newest: nat)
    requires Sealed(d, u.index.entries, u.records, newest) && x in u.index.entries && e in u.index.entries && x.key != e.key
    ensures x.slot != e.slot
  {
    hide EntryOk;
    SealedParts(d, u.index.entries, u.records, newest);
    SlotsDiffer(u.index.entries, x, e);
  }

  lemma DeleteRefinesMap(d: Digest, t: Tx, key: Key)
    requires TxInv(d, t)
    ensures var (u, error) := Delete(t, key);
      && (error.None? ==> View(u) == View(t) - {key})
      && (error.None? && key in View(t) ==> u.generation == t.generation + 1)
      && (error.None? && key !in View(t) ==> u == t)
      && (error.Some? ==> u == t)
  {
    hide Accounted, Sealed, Contents, Without, Freed;
    var (u, error) := Delete(t, key);
    ContentsAt(d, t.index.entries, t.records, Newest(t), key);
    FindIn(t.index.entries, key);
    if error.None? && Find(t.index.entries, key).Some? {
      var newest := t.index.revision + 1;
      DeleteKeepsInv(d, t, key);
      NewerIsSealed(d, t.index.entries, t.records, Newest(t), newest);
      WithoutHas(t.index.entries, key);
      forall x | x in t.index.entries && x.key != key && x.slot in t.records && x.slot in u.records
        ensures t.records[x.slot] == u.records[x.slot] {
        FreedKeeps(t, key, x.slot);
      }
      SameView(d, t.index.entries, t.records, u.index.entries, u.records, newest, key);
      ContentsFrom(d, u.index.entries, u.records, newest, key);
    }
  }

  /** Reading returns what is there, and inside the invariant never meets a damaged record. */
  lemma GetReadsMap(d: Digest, t: Tx, key: Key)
    requires Readable(d, t) && t.failed.None? && KeyOk(key)
    ensures Get(d, t, key) == (t, if key in View(t) then Some(View(t)[key]) else None, None)
  {
    hide Accounted, Sealed, KeyOk;
    ContentsAt(d, t.index.entries, t.records, Newest(t), key);
    FindIn(t.index.entries, key);
    SealedParts(d, t.index.entries, t.records, Newest(t));
  }

  lemma ContentsKeys(d: Digest, t: Tx)
    requires Readable(d, t)
    ensures forall k :: k in View(t) ==> KeyOk(k)
  {
    hide Accounted, Sealed, KeyOk, Contents;
    SealedParts(d, t.index.entries, t.records, Newest(t));
    forall k | k in View(t) ensures KeyOk(k) {
      ContentsFrom(d, t.index.entries, t.records, Newest(t), k);
    }
  }

  // Commits

  /** A transaction whose operations succeeded always commits: room was accounted for at every step. */
  lemma CommitAlwaysFits(d: Digest, k: Disk, t: Tx)
    requires DiskInv(d, k) && Readable(d, t) && t.failed.None? && (t.changed ==> t.index.revision < MaxRevision)
    requires !t.changed ==> t.index == k.index && t.records == k.records
    ensures var (next, ok) := Finish(k, t, true);
      && ok && DiskInv(d, next)
      && Contents(next.index.entries, next.records) == View(t)
      && next.index.revision == t.index.revision + (if t.changed then 1 else 0)
  {
    hide Accounted, Sealed, Contents;
  }

  // Reserves

  /** The room the checkpoints of an index take in the index, with everything around the entries. */
  function CheckpointIndexBytes(b: Index): nat {
    FrameBytes(b.revision, b.limits) + Weights(OfClass(b.entries, Checkpoint))
  }

  function CheckpointBytes(b: Index): nat {
    64 + CheckpointIndexBytes(b) + RecordBytes(OfClass(b.entries, Checkpoint))
  }

  predicate OrdinaryFits(b: Index) {
    && ListBytes(OfClass(b.entries, Data)) + IndexReserve(b.limits) <= MaxIndex
    && OrdinaryBytes(b) + b.limits.reserve <= b.limits.total
  }

  lemma {:induction false} ClassesAddUp(entries: seq<Entry>)
    ensures Weights(entries) == Weights(OfClass(entries, Data)) + Weights(OfClass(entries, Checkpoint))
    ensures RecordBytes(entries) == RecordBytes(OfClass(entries, Data)) + RecordBytes(OfClass(entries, Checkpoint))
    decreases |entries|
  {
    hide EntryBytes;
    if entries != [] {
      var n := |entries| - 1;
      ClassesAddUp(entries[..n]);
      assert entries == entries[..n] + [entries[n]];
      SumsStep(entries[..n], entries[n]);
      SumsStep(OfClass(entries[..n], entries[n].class_), entries[n]);
    }
  }

  /** The partition is sound: ordinary data within its part and checkpoints within theirs are within the whole. */
  lemma PartsFitTheWhole(b: Index)
    requires LimitsOk(b.limits) && OrdinaryFits(b)
    requires CheckpointIndexBytes(b) <= IndexReserve(b.limits) && CheckpointBytes(b) <= b.limits.reserve
    ensures Accounted(b)
  {
    hide Weights, RecordBytes, OfClass, Figures;
    ClassesAddUp(b.entries);
    ListAtLeast(b.entries);
    ListAtLeast(OfClass(b.entries, Data));
    NoEntries(b.entries);
  }

  lemma NoEntries(entries: seq<Entry>)
    ensures entries == [] ==> OfClass(entries, Data) == [] && Weights(entries) == 0
    ensures OfClass(entries, Data) == [] ==> Weights(OfClass(entries, Data)) == 0
  {
  }

  /** However full ordinary data is, a checkpoint that stays within the reserve is always stored. */
  lemma CheckpointAlwaysFits(d: Digest, t: Tx, key: Key, plain: seq<Byte>, slot: Id, salt: nat)
    requires TxInv(d, t) && t.failed.None? && KeyOk(key) && |plain| <= MaxRecord && slot !in t.records
    requires var next := Candidate(d, t, key, plain, Checkpoint, slot, salt);
      CheckpointIndexBytes(next) <= IndexReserve(next.limits) && CheckpointBytes(next) <= next.limits.reserve
    ensures Put(d, t, key, plain, Checkpoint, slot, salt).1.None?
  {
    hide Sealed, Without, OfClass, CheckpointIndexBytes, CheckpointBytes, IndexBytes, SerializedBytes, KeyOk, RecordBytes, ListBytes;
    var next := Candidate(d, t, key, plain, Checkpoint, slot, salt);
    var rest := Without(t.index.entries, key);
    SumsStep(rest, next.entries[|rest|]);
    ClassesCommute(t.index.entries, key, Data);
    ListShrinks(OfClass(t.index.entries, Data), key);
    WithoutIsSmaller(OfClass(t.index.entries, Data), key);
    PartsFitTheWhole(next);
    FreedKeeps(t, key, slot);
  }

  // Whole transactions

  datatype Op =
    | Putting(key: Key, plain: seq<Byte>, class_: Class, slot: Id, salt: nat)
    | Deleting(key: Key)

  function Step(d: Digest, t: Tx, o: Op): (Tx, Option<Error>) {
    match o
    case Putting(key, plain, class_, slot, salt) => Put(d, t, key, plain, class_, slot, salt)
    case Deleting(key) => Delete(t, key)
  }

  function Run(d: Digest, t: Tx, ops: seq<Op>): Tx {
    if ops == [] then t else Step(d, Run(d, t, ops[..|ops| - 1]), ops[|ops| - 1]).0
  }

  /** The same operations on a plain map: those that were refused left it alone. */
  function OnMap(d: Digest, t: Tx, ops: seq<Op>): map<Key, Stored> {
    if ops == [] then View(t)
    else
      var m, o := OnMap(d, t, ops[..|ops| - 1]), ops[|ops| - 1];
      if Step(d, Run(d, t, ops[..|ops| - 1]), o).1.Some? then m
      else
        match o
        case Putting(key, plain, class_, _, _) => m[key := Stored(plain, class_)]
        case Deleting(key) => m - {key}
  }

  lemma StepKeeps(d: Digest, t: Tx, o: Op)
    requires TxInv(d, t) && t.failed.None? && Step(d, t, o).0.failed.None?
    ensures TxInv(d, Step(d, t, o).0) && Step(d, t, o).0.index.revision == t.index.revision
    ensures t.generation <= Step(d, t, o).0.generation
    ensures t.changed ==> Step(d, t, o).0.changed
    ensures !Step(d, t, o).0.changed ==> Step(d, t, o).0 == t
    ensures View(Step(d, t, o).0) == if Step(d, t, o).1.Some? then View(t)
      else match o { case Putting(key, plain, class_, _, _) => View(t)[key := Stored(plain, class_)] case Deleting(key) => View(t) - {key} }
  {
    hide Accounted, Sealed, Contents, Without, Freed, KeyOk;
    match o
    case Putting(key, plain, class_, slot, salt) =>
      PutRefinesMap(d, t, key, plain, class_, slot, salt);
      if Step(d, t, o).1.None? { PutKeepsInv(d, t, key, plain, class_, slot, salt); }
    case Deleting(key) =>
      DeleteRefinesMap(d, t, key);
      if Step(d, t, o).1.None? { DeleteKeepsInv(d, t, key); }
  }

  lemma LatchedStays(d: Digest, t: Tx, o: Op)
    requires t.failed.Some?
    ensures Step(d, t, o).0 == t
  {
  }

  lemma {:induction false} RunRefinesMap(d: Digest, t: Tx, ops: seq<Op>)
    requires TxInv(d, t) && Run(d, t, ops).failed.None?
    ensures TxInv(d, Run(d, t, ops)) && View(Run(d, t, ops)) == OnMap(d, t, ops)
    ensures Run(d, t, ops).index.revision == t.index.revision && (!Run(d, t, ops).changed ==> Run(d, t, ops) == t)
    decreases |ops|
  {
    hide TxInv, Step;
    if ops != [] {
      var early := ops[..|ops| - 1];
      if Run(d, t, early).failed.Some? { LatchedStays(d, Run(d, t, early), ops[|ops| - 1]); }
      RunRefinesMap(d, t, early);
      StepKeeps(d, Run(d, t, early), ops[|ops| - 1]);
      StepMap(d, t, ops);
    }
  }

  lemma StepMap(d: Digest, t: Tx, ops: seq<Op>)
    requires ops != []
    ensures OnMap(d, t, ops) ==
      var m, o := OnMap(d, t, ops[..|ops| - 1]), ops[|ops| - 1];
      if Step(d, Run(d, t, ops[..|ops| - 1]), o).1.Some? then m
      else match o { case Putting(key, plain, class_, _, _) => m[key := Stored(plain, class_)] case Deleting(key) => m - {key} }
  {
    hide Step, Run;
  }

  /** A transaction is all or nothing: committed, the disk holds the effect of its operations on the map, one revision on
      if anything was written; otherwise the disk is untouched. */
  lemma TransactionRefinesMap(d: Digest, k: Disk, ops: seq<Op>, ok: bool)
    requires DiskInv(d, k) && k.index.revision < MaxRevision
    ensures var t := Run(d, Begin(k), ops); var (next, committed) := Finish(k, t, ok);
      && (committed <==> ok && t.failed.None?)
      && (!committed ==> next == k)
      && (committed ==>
            && DiskInv(d, next) && Contents(next.index.entries, next.records) == OnMap(d, Begin(k), ops)
            && next.index.revision == k.index.revision + (if t.changed then 1 else 0))
  {
    hide Sealed, Accounted, Run, OnMap, Contents;
    var t := Run(d, Begin(k), ops);
    if ok && t.failed.None? {
      RunRefinesMap(d, Begin(k), ops);
      CommitAlwaysFits(d, k, t);
    }
  }
}

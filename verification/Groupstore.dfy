/** The protected store: an index of sealed records, changed inside transactions and bounded by a partition of its space. */
module Groupstore {
  import opened Common
  import Texts
  import opened Spellings

  const MaxIndex := 4 * 1024 * 1024
  const MaxRecord := 512 * 1024
  const Overhead := 61
  const MaxRevision := 9007199254740991

  /** Keys are ASCII: as many bytes as characters, and byte order is the order of UTF-16 units. */
  type Key = Texts.Text

  datatype Class = Data | Checkpoint

  datatype Limits = Limits(total: nat, reserve: nat)

  datatype Entry = Entry(key: Key, slot: Id, revision: nat, digest: Id, bytes: nat, class_: Class)

  datatype Index = Index(revision: nat, limits: Limits, entries: seq<Entry>)

  /** A sealed record opens only under the key and revision it was sealed with. */
  datatype Envelope = Envelope(plain: seq<Byte>, key: Key, revision: nat, salt: nat)

  type Digest = Envelope -> Id

  predicate KeyByte(b: nat) { 48 <= b < 58 || 97 <= b < 123 }

  predicate KeyOk(k: Key) {
    1 <= |k| <= 160 && KeyByte(k[0]) && forall i :: 0 <= i < |k| ==> KeyByte(k[i]) || k[i] in {58, 47, 46, 95, 45}
  }

  predicate LimitsOk(l: Limits) {
    32768 <= l.total <= 64 * 1024 * 1024 && 4096 <= l.reserve < l.total && l.reserve <= 4 * 1024 * 1024
  }

  // Sizes of the canonical index

  function Figures(n: nat): nat {
    |Decimal(n)|
  }

  /** {"bytes":…,"digest":"…","key":"…","revision":…,"slot":"…","storageClass":"…"} */
  function EntryBytes(e: Entry): nat {
    199 + Figures(e.bytes) + |e.key| + Figures(e.revision) + (if e.class_.Data? then 4 else 10)
  }

  /** An array of entries: two brackets and the separators. */
  function ListBytes(entries: seq<Entry>): nat {
    if entries == [] then 2 else 1 + Weights(entries)
  }

  /** Every entry with one separator. */
  function Weights(entries: seq<Entry>): nat {
    if entries == [] then 0 else Weights(entries[..|entries| - 1]) + EntryBytes(entries[|entries| - 1]) + 1
  }

  /** Everything in the signed index around its entries, and the envelope it is sealed in. */
  function FrameBytes(revision: nat, l: Limits): nat {
    Overhead + 373 + Figures(revision) + Figures(l.total) + Figures(l.reserve)
  }

  function IndexBytes(b: Index): nat {
    FrameBytes(b.revision, b.limits) + ListBytes(b.entries)
  }

  function RecordBytes(entries: seq<Entry>): nat {
    if entries == [] then 0 else RecordBytes(entries[..|entries| - 1]) + entries[|entries| - 1].bytes + 64
  }

  function OfClass(entries: seq<Entry>, c: Class): seq<Entry> {
    if entries == [] then []
    else
      var rest := OfClass(entries[..|entries| - 1], c);
      if entries[|entries| - 1].class_ == c then rest + [entries[|entries| - 1]] else rest
  }

  function IndexReserve(l: Limits): nat {
    if 128 * 1024 <= l.reserve / 4 then 128 * 1024 else l.reserve / 4
  }

  function SerializedBytes(b: Index): nat {
    IndexBytes(b) + 64 + RecordBytes(b.entries)
  }

  function OrdinaryBytes(b: Index): nat {
    RecordBytes(OfClass(b.entries, Data)) + ListBytes(OfClass(b.entries, Data))
  }

  /** The two limits on everything, and the two tighter ones on ordinary data. */
  predicate Accounted(b: Index) {
    && IndexBytes(b) <= MaxIndex
    && ListBytes(OfClass(b.entries, Data)) + IndexReserve(b.limits) <= MaxIndex
    && SerializedBytes(b) <= b.limits.total
    && OrdinaryBytes(b) + b.limits.reserve <= b.limits.total
  }

  method Account(b: Index) returns (ok: bool)
    requires LimitsOk(b.limits)
    ensures ok == Accounted(b)
  {
    hide EntryBytes, Figures;
    var serialized, ordinary: seq<Entry>, ordinaryBytes := IndexBytes(b) + 64, [], 0;
    var n := 0;
    while n < |b.entries|
      invariant 0 <= n <= |b.entries|
      invariant serialized == IndexBytes(b) + 64 + RecordBytes(b.entries[..n])
      invariant ordinary == OfClass(b.entries[..n], Data) && ordinaryBytes == RecordBytes(ordinary)
    {
      var e := b.entries[n];
      assert b.entries[..n + 1][..n] == b.entries[..n];
      serialized := serialized + e.bytes + 64;
      if e.class_.Data? {
        assert (ordinary + [e])[..|ordinary|] == ordinary;
        ordinary := ordinary + [e];
        ordinaryBytes := ordinaryBytes + e.bytes + 64;
      }
      n := n + 1;
    }
    assert b.entries[..n] == b.entries;
    var encoded := ListBytes(ordinary);
    ok := IndexBytes(b) <= MaxIndex && encoded <= MaxIndex - IndexReserve(b.limits) && serialized <= b.limits.total
          && ordinaryBytes + encoded <= b.limits.total - b.limits.reserve;
  }

  // Transactions

  datatype Stored = Stored(plain: seq<Byte>, class_: Class)

  datatype Error = Outside | Rejected | Capacity | Latched(integrity: bool)

  /** The state a transaction works on. `failed` is the first latched failure. */
  datatype Tx = Tx(index: Index, records: map<Id, Envelope>, changed: bool, generation: nat, failed: Option<Error>)

  function Without(entries: seq<Entry>, key: Key): seq<Entry> {
    if entries == [] then []
    else
      var rest := Without(entries[..|entries| - 1], key);
      if entries[|entries| - 1].key == key then rest else rest + [entries[|entries| - 1]]
  }

  function Find(entries: seq<Entry>, key: Key): Option<Entry> {
    if entries == [] then None
    else if entries[0].key == key then Some(entries[0])
    else Find(entries[1..], key)
  }

  function Slots(entries: seq<Entry>): set<Id> {
    set i | 0 <= i < |entries| :: entries[i].slot
  }

  predicate EntryOk(d: Digest, e: Entry, records: map<Id, Envelope>, newest: nat) {
    && KeyOk(e.key) && e.slot in records && 0 < e.revision <= newest
    && records[e.slot].key == e.key && records[e.slot].revision == e.revision
    && |records[e.slot].plain| <= MaxRecord && e.bytes == |records[e.slot].plain| + Overhead && e.digest == d(records[e.slot])
  }

  /** Index and records belong together, one entry a key and one slot an entry. */
  ghost predicate Sealed(d: Digest, entries: seq<Entry>, records: map<Id, Envelope>, newest: nat) {
    && (forall i :: 0 <= i < |entries| ==> EntryOk(d, entries[i], records, newest))
    && (forall i, j :: 0 <= i < j < |entries| ==> entries[i].key != entries[j].key && entries[i].slot != entries[j].slot)
    && records.Keys == Slots(entries)
  }

  function KeysOf(entries: seq<Entry>): set<Key> {
    set i | 0 <= i < |entries| :: entries[i].key
  }

  /** What a reader of the store sees. */
  function Contents(entries: seq<Entry>, records: map<Id, Envelope>): map<Key, Stored> {
    map k | k in KeysOf(entries) && Find(entries, k).Some? && Find(entries, k).value.slot in records ::
      Stored(records[Find(entries, k).value.slot].plain, Find(entries, k).value.class_)
  }

  function View(t: Tx): map<Key, Stored> {
    Contents(t.index.entries, t.records)
  }

  /** Until the commit the index keeps its old revision; what is written carries the next one. */
  ghost predicate Readable(d: Digest, t: Tx) {
    && LimitsOk(t.index.limits)
    && Sealed(d, t.index.entries, t.records, if t.changed then t.index.revision + 1 else t.index.revision)
    && (if t.changed then Accounted(t.index.(revision := t.index.revision + 1)) else Accounted(t.index))
  }

  /** The same, with a revision left to commit under. */
  ghost predicate TxInv(d: Digest, t: Tx) {
    Readable(d, t) && t.index.revision < MaxRevision
  }

  function Get(d: Digest, t: Tx, key: Key): (Tx, Option<Stored>, Option<Error>) {
    if t.failed.Some? then (t, None, t.failed)
    else if !KeyOk(key) then (t, None, Some(Rejected))
    else
      var e := Find(t.index.entries, key);
      if e.None? then (t, None, None)
      else if e.value.slot !in t.records || !EntryOk(d, e.value, t.records, e.value.revision) then
        (t.(failed := Some(Latched(true))), None, Some(Latched(true)))
      else (t, Some(Stored(t.records[e.value.slot].plain, e.value.class_)), None)
  }

  /** The index a successful `Put` would leave. */
  function Candidate(d: Digest, t: Tx, key: Key, plain: seq<Byte>, class_: Class, slot: Id, salt: nat): Index {
    var revision := t.index.revision + 1;
    var envelope := Envelope(plain, key, revision, salt);
    Index(revision, t.index.limits,
          Without(t.index.entries, key) + [Entry(key, slot, revision, d(envelope), |plain| + Overhead, class_)])
  }

  function Freed(t: Tx, key: Key): map<Id, Envelope> {
    var old_ := Find(t.index.entries, key);
    if old_.Some? then t.records - {old_.value.slot} else t.records
  }

  /** `slot` and `salt` are the random choices. A failed insertion latches; a lack of room does not. */
  function Put(d: Digest, t: Tx, key: Key, plain: seq<Byte>, class_: Class, slot: Id, salt: nat): (Tx, Option<Error>) {
    if t.failed.Some? then (t, t.failed)
    else if !KeyOk(key) || |plain| > MaxRecord then (t, Some(Rejected))
    else
      var next := Candidate(d, t, key, plain, class_, slot, salt);
      if !Accounted(next) then (t, Some(Capacity))
      else if slot in Freed(t, key) then (t.(records := Freed(t, key), failed := Some(Latched(false))), Some(Latched(false)))
      else
        (Tx(t.index.(entries := next.entries),
            Freed(t, key)[slot := Envelope(plain, key, next.revision, salt)], true, t.generation + 1, None), None)
  }

  function Delete(t: Tx, key: Key): (Tx, Option<Error>) {
    if t.failed.Some? then (t, t.failed)
    else if !KeyOk(key) then (t, Some(Rejected))
    else if Find(t.index.entries, key).None? then (t, None)
    else
      (Tx(t.index.(entries := Without(t.index.entries, key)), Freed(t, key), true, t.generation + 1, None), None)
  }

  // The store around its transactions

  /** What is on disk between transactions. */
  datatype Disk = Disk(index: Index, records: map<Id, Envelope>)

  ghost predicate DiskInv(d: Digest, k: Disk) {
    && LimitsOk(k.index.limits) && k.index.revision <= MaxRevision
    && Sealed(d, k.index.entries, k.records, k.index.revision) && Accounted(k.index)
  }

  function Begin(k: Disk): Tx {
    Tx(k.index, k.records, false, 0, None)
  }

  /** The end of a transaction whose callback reported `ok`. Nothing written, or a failure, leaves the disk alone. */
  function Finish(k: Disk, t: Tx, ok: bool): (Disk, bool) {
    if !ok || t.failed.Some? then (k, false)
    else if !t.changed then (k, true)
    else
      var next := t.index.(revision := t.index.revision + 1);
      if !Accounted(next) then (k, false) else (Disk(next, t.records), true)
  }
}

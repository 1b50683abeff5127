/** The sizes the store accounts with are the lengths of the canonical documents it writes. */
module IndexSizes {
  import opened Common
  import opened Texts
  import opened Groupstore
  import opened Spellings
  import J = Json
  import P = JsonProofs
  import S = Shortest
  import Z = StopSizes
  import GP = GroupstoreProofs

  function ClassText(c: Class): Text {
    if c.Data? then Ascii("data") else Ascii("checkpoint")
  }

  function EntryFields(e: Entry): map<Text, J.Value> {
    map[Ascii("key") := J.Str(e.key)]
      [Ascii("slot") := J.Str(HexText(e.slot, 64))]
      [Ascii("revision") := J.Num(Decimal(e.revision))]
      [Ascii("digest") := J.Str(HexText(e.digest, 64))]
      [Ascii("bytes") := J.Num(Decimal(e.bytes))]
      [Ascii("storageClass") := J.Str(ClassText(e.class_))]
  }

  function EntryJson(e: Entry): J.Value {
    J.Obj(EntryFields(e))
  }

  function ListJson(entries: seq<Entry>): J.Value {
    J.Arr(seq(|entries|, i requires 0 <= i < |entries| => EntryJson(entries[i])))
  }

  function LimitsJson(l: Limits): J.Value {
    J.Obj(map[Ascii("totalBytes") := J.Num(Decimal(l.total))][Ascii("reserveBytes") := J.Num(Decimal(l.reserve))])
  }

  function BodyFields(b: Index, owner: Id, store: Id): map<Text, J.Value> {
    map[Ascii("domain") := J.Str(Ascii("relayloom/local-group-registry/1"))]
      [Ascii("owner") := J.Str(HexText(owner, 64))]
      [Ascii("storeId") := J.Str(HexText(store, 64))]
      [Ascii("revision") := J.Num(Decimal(b.revision))]
      [Ascii("limits") := LimitsJson(b.limits)]
      [Ascii("entries") := ListJson(b.entries)]
  }

  /** The signed index; its signature is 64 bytes in base64. */
  function IndexJson(b: Index, owner: Id, store: Id, signature: Text): J.Value {
    J.Obj(map[Ascii("body") := J.Obj(BodyFields(b, owner, store))][Ascii("signature") := J.Str(signature)])
  }

  // Fields

  /** A field with its colon and its separator. */
  lemma OneField(fields: map<Text, J.Value>, k: Text, v: J.Value)
    requires S.AllFieldsProper(AnyNumber, fields) && k !in fields && Plain(k) && J.Proper(AnyNumber, v)
    ensures S.AllFieldsProper(AnyNumber, fields[k := v])
    ensures Total(S.FieldLengths(AnyNumber, fields[k := v])) == Total(S.FieldLengths(AnyNumber, fields)) + |k| + 4 + |J.Print(AnyNumber, v)|
  {
    hide J.Proper, J.Print, Plain, S.FieldLength, S.FieldLengths, Unpaired;
    KeyIsUnpaired(k);
    FieldIs(k, v);
    LengthsGrow(fields, k, v);
  }

  lemma FieldIs(k: Text, v: J.Value)
    requires Plain(k) && J.Proper(AnyNumber, v)
    ensures S.FieldLength(AnyNumber, k, v) == |k| + 4 + |J.Print(AnyNumber, v)|
  {
    hide J.Proper, J.Print, Plain;
    Z.PlainLength(k);
  }

  lemma LengthsGrow(fields: map<Text, J.Value>, k: Text, v: J.Value)
    requires S.AllFieldsProper(AnyNumber, fields) && k !in fields && Unpaired(k) && J.Proper(AnyNumber, v)
    ensures S.AllFieldsProper(AnyNumber, fields[k := v])
    ensures Total(S.FieldLengths(AnyNumber, fields[k := v])) == Total(S.FieldLengths(AnyNumber, fields)) + S.FieldLength(AnyNumber, k, v)
  {
    hide J.Proper, S.FieldLength, S.FieldLengths, Unpaired, Total;
    var more, lengths := S.FieldLengths(AnyNumber, fields[k := v]), S.FieldLengths(AnyNumber, fields);
    LengthsAre(fields);
    LengthsAre(fields[k := v]);
    assert more == lengths[k := S.FieldLength(AnyNumber, k, v)];
    TotalInsert(lengths, k, S.FieldLength(AnyNumber, k, v));
  }

  lemma LengthsAre(fields: map<Text, J.Value>)
    requires S.AllFieldsProper(AnyNumber, fields)
    ensures S.FieldLengths(AnyNumber, fields).Keys == fields.Keys
    ensures forall k :: k in fields ==> J.Proper(AnyNumber, fields[k]) && S.FieldLengths(AnyNumber, fields)[k] == S.FieldLength(AnyNumber, k, fields[k])
  {
    hide J.Proper, S.FieldLength, Unpaired;
  }

  lemma KeyIsUnpaired(k: Text)
    requires Plain(k)
    ensures Unpaired(k)
  {
    PlainIsUnpaired(k);
  }

  lemma NoField()
    ensures S.AllFieldsProper(AnyNumber, map[]) && Total(S.FieldLengths(AnyNumber, map[])) == 0
  {
    assert S.FieldLengths(AnyNumber, map[]) == map[];
    TotalEmpty<Text>();
  }

  lemma TextPrints(t: Text)
    requires Plain(t)
    ensures J.Proper(AnyNumber, J.Str(t)) && |J.Print(AnyNumber, J.Str(t))| == |t| + 2
  {
    KeyIsUnpaired(t);
    Z.PlainLength(t);
  }

  lemma NumberPrints(n: nat)
    ensures J.Proper(AnyNumber, J.Num(Decimal(n))) && |J.Print(AnyNumber, J.Num(Decimal(n)))| == Figures(n)
  {
    hide J.ScanNumber, Decimal;
    DecimalIsNumber(n);
  }

  lemma EntryNames()
    ensures Plain(Ascii("key")) && Plain(Ascii("slot")) && Plain(Ascii("revision"))
    ensures Plain(Ascii("digest")) && Plain(Ascii("bytes")) && Plain(Ascii("storageClass"))
    ensures |Ascii("key")| == 3 && |Ascii("slot")| == 4 && |Ascii("revision")| == 8
    ensures |Ascii("digest")| == 6 && |Ascii("bytes")| == 5 && |Ascii("storageClass")| == 12
  {
  }

  lemma ClassNames(c: Class)
    ensures Plain(ClassText(c)) && |ClassText(c)| == if c.Data? then 4 else 10
  {
  }

  lemma KeyIsPlain(k: Key)
    requires KeyOk(k)
    ensures Plain(k)
  {
  }

  /** An entry prints in as many bytes as it is accounted with. */
  lemma EntryLength(e: Entry)
    requires KeyOk(e.key)
    ensures J.Proper(AnyNumber, EntryJson(e)) && |J.Print(AnyNumber, EntryJson(e))| == EntryBytes(e)
  {
    hide J.Proper, J.Print, Plain, Ascii, HexText, Decimal, S.FieldLengths, S.AllFieldsProper, ClassText;
    EntryNames();
    ClassNames(e.class_);
    KeyIsPlain(e.key);
    HexIsPlain(e.slot);
    HexIsPlain(e.digest);
    TextPrints(e.key);
    TextPrints(HexText(e.slot, 64));
    TextPrints(HexText(e.digest, 64));
    TextPrints(ClassText(e.class_));
    NumberPrints(e.revision);
    NumberPrints(e.bytes);
    NoField();
    var one: map<Text, J.Value> := map[Ascii("key") := J.Str(e.key)];
    assert one == map[][Ascii("key") := J.Str(e.key)];
    OneField(map[], Ascii("key"), J.Str(e.key));
    var two := one[Ascii("slot") := J.Str(HexText(e.slot, 64))];
    OneField(one, Ascii("slot"), J.Str(HexText(e.slot, 64)));
    var three := two[Ascii("revision") := J.Num(Decimal(e.revision))];
    OneField(two, Ascii("revision"), J.Num(Decimal(e.revision)));
    var four := three[Ascii("digest") := J.Str(HexText(e.digest, 64))];
    OneField(three, Ascii("digest"), J.Str(HexText(e.digest, 64)));
    var five := four[Ascii("bytes") := J.Num(Decimal(e.bytes))];
    OneField(four, Ascii("bytes"), J.Num(Decimal(e.bytes)));
    OneField(five, Ascii("storageClass"), J.Str(ClassText(e.class_)));
    S.ObjectLength(AnyNumber, EntryFields(e));
  }

  lemma {:induction false} ItemsWeigh(entries: seq<Entry>, n: nat)
    requires n <= |entries| && forall e :: e in entries ==> KeyOk(e.key)
    ensures S.AllProper(AnyNumber, ListJson(entries).items)
    ensures S.ItemLengths(AnyNumber, ListJson(entries).items, n) == Weights(entries) - Weights(entries[..n])
    decreases |entries| - n
  {
    hide J.Proper, J.Print, EntryJson, KeyOk, EntryBytes;
    var items := ListJson(entries).items;
    forall i | 0 <= i < |items| ensures J.Proper(AnyNumber, items[i]) {
      EntryLength(entries[i]);
    }
    if n < |entries| {
      ItemsWeigh(entries, n + 1);
      EntryLength(entries[n]);
      assert entries[..n + 1][..n] == entries[..n];
    } else {
      assert entries[..n] == entries;
    }
  }

  /** So does a list of entries. */
  lemma ListLength(entries: seq<Entry>)
    requires forall e :: e in entries ==> KeyOk(e.key)
    ensures J.Proper(AnyNumber, ListJson(entries)) && |J.Print(AnyNumber, ListJson(entries))| == ListBytes(entries)
  {
    hide J.Proper, J.Print, EntryJson, KeyOk;
    ItemsWeigh(entries, 0);
    assert entries[..0] == [];
    S.ArrayLength(AnyNumber, ListJson(entries).items);
  }

  lemma LimitNames()
    ensures Plain(Ascii("totalBytes")) && Plain(Ascii("reserveBytes"))
    ensures |Ascii("totalBytes")| == 10 && |Ascii("reserveBytes")| == 12
  {
  }

  lemma LimitsLength(l: Limits)
    ensures J.Proper(AnyNumber, LimitsJson(l)) && |J.Print(AnyNumber, LimitsJson(l))| == 31 + Figures(l.total) + Figures(l.reserve)
  {
    hide J.Proper, J.Print, Plain, Ascii, Decimal, S.FieldLengths, S.AllFieldsProper;
    LimitNames();
    NumberPrints(l.total);
    NumberPrints(l.reserve);
    NoField();
    var one: map<Text, J.Value> := map[Ascii("totalBytes") := J.Num(Decimal(l.total))];
    assert one == map[][Ascii("totalBytes") := J.Num(Decimal(l.total))];
    OneField(map[], Ascii("totalBytes"), J.Num(Decimal(l.total)));
    OneField(one, Ascii("reserveBytes"), J.Num(Decimal(l.reserve)));
    S.ObjectLength(AnyNumber, LimitsJson(l).fields);
  }

  lemma BodyNames()
    ensures Plain(Ascii("domain")) && Plain(Ascii("owner")) && Plain(Ascii("storeId")) && Plain(Ascii("revision"))
    ensures Plain(Ascii("limits")) && Plain(Ascii("entries"))
    ensures |Ascii("domain")| == 6 && |Ascii("owner")| == 5 && |Ascii("storeId")| == 7 && |Ascii("revision")| == 8
    ensures |Ascii("limits")| == 6 && |Ascii("entries")| == 7
    ensures Ascii("domain") != Ascii("limits") && Ascii("storeId") != Ascii("entries")
  {
    assert Ascii("domain")[0] == 100 && Ascii("limits")[0] == 108 && Ascii("storeId")[0] == 115 && Ascii("entries")[0] == 101;
  }

  lemma DomainIsPlain()
    ensures Plain(Ascii("relayloom/local-group-registry/1")) && |Ascii("relayloom/local-group-registry/1")| == 32
  {
  }

  lemma BodyLength(b: Index, owner: Id, store: Id)
    requires forall e :: e in b.entries ==> KeyOk(e.key)
    ensures J.Proper(AnyNumber, J.Obj(BodyFields(b, owner, store)))
    ensures |J.Print(AnyNumber, J.Obj(BodyFields(b, owner, store)))|
      == 261 + Figures(b.revision) + Figures(b.limits.total) + Figures(b.limits.reserve) + ListBytes(b.entries)
  {
    hide J.Proper, J.Print, Plain, Ascii, HexText, Decimal, S.FieldLengths, S.AllFieldsProper, ListJson, LimitsJson, KeyOk;
    BodyNames();
    DomainIsPlain();
    HexIsPlain(owner);
    HexIsPlain(store);
    TextPrints(Ascii("relayloom/local-group-registry/1"));
    TextPrints(HexText(owner, 64));
    TextPrints(HexText(store, 64));
    NumberPrints(b.revision);
    LimitsLength(b.limits);
    ListLength(b.entries);
    NoField();
    var one: map<Text, J.Value> := map[Ascii("domain") := J.Str(Ascii("relayloom/local-group-registry/1"))];
    assert one == map[][Ascii("domain") := J.Str(Ascii("relayloom/local-group-registry/1"))];
    OneField(map[], Ascii("domain"), J.Str(Ascii("relayloom/local-group-registry/1")));
    var two := one[Ascii("owner") := J.Str(HexText(owner, 64))];
    OneField(one, Ascii("owner"), J.Str(HexText(owner, 64)));
    var three := two[Ascii("storeId") := J.Str(HexText(store, 64))];
    OneField(two, Ascii("storeId"), J.Str(HexText(store, 64)));
    var four := three[Ascii("revision") := J.Num(Decimal(b.revision))];
    OneField(three, Ascii("revision"), J.Num(Decimal(b.revision)));
    var five := four[Ascii("limits") := LimitsJson(b.limits)];
    OneField(four, Ascii("limits"), LimitsJson(b.limits));
    OneField(five, Ascii("entries"), ListJson(b.entries));
    S.ObjectLength(AnyNumber, BodyFields(b, owner, store));
  }

  lemma IndexNames()
    ensures Plain(Ascii("body")) && Plain(Ascii("signature")) && |Ascii("body")| == 4 && |Ascii("signature")| == 9
  {
  }

  /** The index is accounted with the length of its canonical JSON, signed by this owner, and of the 61 bytes it
      is sealed with. */
  lemma IndexLength(b: Index, owner: Id, store: Id, signature: Text)
    requires Plain(signature) && |signature| == 88 && forall e :: e in b.entries ==> KeyOk(e.key)
    ensures J.Proper(AnyNumber, IndexJson(b, owner, store, signature))
    ensures IndexBytes(b) == |J.Print(AnyNumber, IndexJson(b, owner, store, signature))| + 61
  {
    hide J.Proper, J.Print, Plain, Ascii, S.FieldLengths, S.AllFieldsProper, BodyFields, KeyOk, ListBytes, Figures;
    IndexNames();
    BodyLength(b, owner, store);
    TextPrints(signature);
    NoField();
    var body := J.Obj(BodyFields(b, owner, store));
    var one: map<Text, J.Value> := map[Ascii("body") := body];
    assert one == map[][Ascii("body") := body];
    OneField(map[], Ascii("body"), body);
    OneField(one, Ascii("signature"), J.Str(signature));
    S.ObjectLength(AnyNumber, IndexJson(b, owner, store, signature).fields);
  }

  /** What the records of some entries take, each with 64 bytes for its place. */
  function Taken(entries: seq<Entry>): nat {
    if entries == [] then 0 else entries[0].bytes + 64 + Taken(entries[1..])
  }

  /** The entries of ordinary data. */
  function Ordinary(entries: seq<Entry>): seq<Entry> {
    if entries == [] then [] else Own(entries[0]) + Ordinary(entries[1..])
  }

  lemma {:induction false} TakenSplits(a: seq<Entry>, e: Entry)
    ensures Taken(a + [e]) == Taken(a) + e.bytes + 64
    ensures Ordinary(a + [e]) == Ordinary(a) + Own(e)
    decreases |a|
  {
    hide Own;
    if a == [] {
      OneAhead(e, []);
      assert a + [e] == [e] + [] && Ordinary(a) == [];
    } else {
      var rest := a[1..];
      TakenSplits(rest, e);
      OneAhead(a[0], rest + [e]);
      OneAhead(a[0], rest);
      assert a == [a[0]] + rest && a + [e] == [a[0]] + (rest + [e]);
    }
  }

  /** The entry, if it is ordinary. */
  function Own(e: Entry): seq<Entry> {
    if e.class_ == Data then [e] else []
  }

  lemma OneAhead(e: Entry, rest: seq<Entry>)
    ensures Taken([e] + rest) == e.bytes + 64 + Taken(rest)
    ensures Ordinary([e] + rest) == Own(e) + Ordinary(rest)
  {
    assert ([e] + rest)[1..] == rest;
  }

  lemma {:induction false} TakenIs(entries: seq<Entry>)
    ensures RecordBytes(entries) == Taken(entries) && OfClass(entries, Data) == Ordinary(entries)
    decreases |entries|
  {
    if entries != [] {
      var last := |entries| - 1;
      TakenIs(entries[..last]);
      TakenSplits(entries[..last], entries[last]);
      assert entries == entries[..last] + [entries[last]];
    }
  }

  lemma {:induction false} OrdinaryAmong(entries: seq<Entry>)
    ensures forall e :: e in Ordinary(entries) ==> e in entries
    decreases |entries|
  {
    if entries != [] { OrdinaryAmong(entries[1..]); }
  }

  lemma {:induction false} OrdinaryTaken(entries: seq<Entry>)
    ensures RecordBytes(Ordinary(entries)) == Taken(Ordinary(entries))
  {
    TakenIs(Ordinary(entries));
  }

  /** What fits: the sealed index in 4 MiB, and with all records in the total; the list of ordinary entries in
      4 MiB less the index reserve, and with the ordinary records in the total less the reserve. The index reserve
      is a quarter of the reserve, at most 128 KiB. */
  lemma AccountedExactly(b: Index, owner: Id, store: Id, signature: Text)
    requires LimitsOk(b.limits) && Plain(signature) && |signature| == 88 && forall e :: e in b.entries ==> KeyOk(e.key)
    ensures J.Proper(AnyNumber, IndexJson(b, owner, store, signature)) && J.Proper(AnyNumber, ListJson(Ordinary(b.entries)))
    ensures Accounted(b) <==>
      var index := |J.Print(AnyNumber, IndexJson(b, owner, store, signature))| + 61;
      var list := |J.Print(AnyNumber, ListJson(Ordinary(b.entries)))|;
      && index <= 4 * 1048576
      && list + Min(128 * 1024, b.limits.reserve / 4) <= 4 * 1048576
      && index + 64 + Taken(b.entries) <= b.limits.total
      && list + Taken(Ordinary(b.entries)) + b.limits.reserve <= b.limits.total
  {
    hide J.Proper, J.Print, Plain, ListJson, IndexJson, KeyOk, ListBytes, IndexBytes, RecordBytes, OfClass, Ordinary, Taken;
    IndexLength(b, owner, store, signature);
    TakenIs(b.entries);
    OrdinaryAmong(b.entries);
    OrdinaryTaken(b.entries);
    ListLength(Ordinary(b.entries));
  }

  predicate KeyLetter(b: nat) {
    48 <= b <= 57 || 97 <= b <= 122
  }

  /** When a record is turned away: a key that is not up to 160 of a-z, 0-9 and : / . _ - with a letter or digit
      first, or more than 512 KiB, whatever the room; and otherwise exactly for want of room. */
  lemma PutRefusedExactly(d: Digest, t: Tx, key: Key, plain: seq<Byte>, class_: Class, slot: Id, salt: nat)
    requires t.failed.None?
    ensures var error := Put(d, t, key, plain, class_, slot, salt).1;
      var legal := 1 <= |key| <= 160 && KeyLetter(key[0])
        && (forall i :: 0 <= i < |key| ==> KeyLetter(key[i]) || key[i] == 58 || key[i] == 47 || key[i] == 46 || key[i] == 95 || key[i] == 45)
        && |plain| <= 524288;
      && (error == Some(Rejected) <==> !legal)
      && (error == Some(Capacity) <==> legal && !Accounted(Candidate(d, t, key, plain, class_, slot, salt)))
  {
    hide Accounted;
  }

  /** A put that fits is stored under a fresh place; where the place chosen is taken by another record, the
      transaction fails, and not for want of integrity. A delete is refused only for an illegal key. */
  lemma WrittenWhereFree(d: Digest, t: Tx, key: Key, plain: seq<Byte>, class_: Class, slot: Id, salt: nat)
    requires TxInv(d, t) && t.failed.None?
    ensures var (u, error) := Put(d, t, key, plain, class_, slot, salt);
      error != Some(Rejected) && error != Some(Capacity) ==>
        if exists e :: e in t.index.entries && e.key != key && e.slot == slot then error == Some(Latched(false)) && u.failed == error
        else error.None? && u.failed.None?
    ensures Delete(t, key).1 == if KeyOk(key) then None else Some(Rejected)
  {
    hide Accounted, KeyOk, EntryOk, Candidate, Contents;
    GP.SealedParts(d, t.index.entries, t.records, if t.changed then t.index.revision + 1 else t.index.revision);
    FreedSlots(d, t, key, slot);
  }

  lemma FreedSlots(d: Digest, t: Tx, key: Key, slot: Id)
    requires TxInv(d, t)
    ensures slot in Freed(t, key) <==> exists e :: e in t.index.entries && e.key != key && e.slot == slot
  {
    hide Accounted, KeyOk, EntryOk;
    var newest := if t.changed then t.index.revision + 1 else t.index.revision;
    GP.SealedParts(d, t.index.entries, t.records, newest);
    GP.RemovingIsSealed(d, t, key, newest);
    GP.SealedParts(d, Without(t.index.entries, key), Freed(t, key), newest);
    GP.SlotsOf(Without(t.index.entries, key), slot);
    GP.WithoutHas(t.index.entries, key);
  }

  /** The index a put is measured by: the next revision, everything under another key as it was, and this record
      with 61 bytes more than it has. */
  lemma CandidateExactly(d: Digest, t: Tx, key: Key, plain: seq<Byte>, class_: Class, slot: Id, salt: nat)
    ensures var next := Candidate(d, t, key, plain, class_, slot, salt);
      && next.revision == t.index.revision + 1 && next.limits == t.index.limits
      && (forall e :: e in next.entries && e.key != key <==> e in t.index.entries && e.key != key)
      && (forall e :: e in next.entries && e.key == key ==> e.bytes == |plain| + 61 && e.slot == slot && e.revision == next.revision && e.class_ == class_)
      && exists e :: e in next.entries && e.key == key
  {
    GP.WithoutHas(t.index.entries, key);
    var next := Candidate(d, t, key, plain, class_, slot, salt);
    assert next.entries[|next.entries| - 1].key == key;
  }

  /** The record is there, under its key and revision, of the length and with the digest the index gives. */
  predicate Intact(d: Digest, records: map<Id, Envelope>, key: Key, e: Entry) {
    && e.slot in records && records[e.slot].key == key && records[e.slot].revision == e.revision
    && |records[e.slot].plain| <= 524288 && e.bytes == |records[e.slot].plain| + 61 && e.digest == d(records[e.slot])
  }

  /** Reading a key that the index has fails for good exactly where its record is gone, is another's, has another
      revision or length, or does not have the digest the index gives; otherwise it is what is read. */
  lemma DamageExactly(d: Digest, t: Tx, key: Key, e: Entry)
    requires t.failed.None? && KeyOk(key) && Find(t.index.entries, key) == Some(e) && e.revision > 0
    ensures Get(d, t, key).2 == Some(Latched(true)) <==> !Intact(d, t.records, key, e)
    ensures Get(d, t, key).2 == Some(Latched(true)) ==> Get(d, t, key).0 == t.(failed := Some(Latched(true)))
    ensures Get(d, t, key).2 != Some(Latched(true)) ==>
      e.slot in t.records && Get(d, t, key) == (t, Some(Stored(t.records[e.slot].plain, e.class_)), None)
  {
    GP.FindIn(t.index.entries, key);
  }
}

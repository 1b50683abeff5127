/** Reading and writing the private document inside a transaction of the store. */
module ProfileStores {
  import opened Common
  import opened Texts
  import opened Profiles
  import G = Groupstore
  import S = Stores
  import opened Spellings
  import J = Json
  import C = JsonCodec
  import JP = JsonProofs
  import Q = GroupstoreProofs

  method ReadManifest(data: seq<Byte>) returns (m: Option<Manifest>)
    ensures m == DecodeManifest(data)
  {
    hide J.Print, J.Proper, J.Shallow, J.Size, J.DecodeJson, ManifestOk, ManifestJson, Ascii, ParseDecimal, ParseHex;
    var v := C.Decoded(AnyNumber, data, 1024);
    ghost var wanted := DecodeManifest(data);
    if wanted.Some? { ManifestReads(data, wanted.value); }
    if v.None? || !v.value.Obj? { return None; }
    var fields := v.value.fields;
    if Ascii("bytes") !in fields || Ascii("chunks") !in fields || Ascii("digest") !in fields { return None; }
    var bytes, chunks, digest := fields[Ascii("bytes")], fields[Ascii("chunks")], fields[Ascii("digest")];
    if !bytes.Num? || !chunks.Num? || !digest.Str? { return None; }
    var parsed := Manifest(ParseDecimal(bytes.token), ParseDecimal(chunks.token), ParseHex(digest.text));
    if !ManifestOk(parsed) { return None; }
    ManifestIsProper(parsed);
    ManifestSize(parsed);
    var encoded := C.Canonical(AnyNumber, ManifestJson(parsed));
    if encoded != Some(data) { return None; }
    assert Encodes(data, parsed);
    ManifestsDiffer(parsed, wanted.value);
    return Some(parsed);
  }

  /** The canonical form of a manifest decodes to its fields, and the fields parse back to it. */
  lemma ManifestReads(data: seq<Byte>, m: Manifest)
    requires Encodes(data, m)
    ensures J.DecodeJson(AnyNumber, data, 1024) == Some(ManifestJson(m)) && ManifestJson(m).Obj?
    ensures var fields := ManifestJson(m).fields;
      && Ascii("bytes") in fields && Ascii("chunks") in fields && Ascii("digest") in fields
      && fields[Ascii("bytes")] == J.Num(Decimal(m.bytes)) && ParseDecimal(Decimal(m.bytes)) == m.bytes
      && fields[Ascii("chunks")] == J.Num(Decimal(m.chunks)) && ParseDecimal(Decimal(m.chunks)) == m.chunks
      && fields[Ascii("digest")] == J.Str(HexText(m.digest, 64)) && ParseHex(HexText(m.digest, 64)) == m.digest
  {
    hide J.Print, J.Proper, J.Shallow, J.Size, J.DecodeJson, Ascii, ParseDecimal, ParseHex, Decimal, HexText, Domain;
    ManifestSize(m);
    JP.RoundTrip(AnyNumber, ManifestJson(m), 1024);
    NamesDiffer();
    HashFitsHex();
    DecimalParses(m.bytes);
    DecimalParses(m.chunks);
    HexParses(m.digest, 64);
  }

  lemma AsciiIsUnpaired(k: G.Key)
    requires G.KeyOk(k)
    ensures Unpaired(k)
  {
  }

  lemma NamesAreKeys(i: nat)
    requires i < 10000
    ensures G.KeyOk(PartKey(i)) && G.KeyOk(ManifestKey) && !(Prefix <= ManifestKey)
  {
    assert |Prefix| == 18 && |ManifestKey| == 17;
    PrefixBytes();
  }

  lemma PrefixBytes()
    ensures forall i :: 0 <= i < |Prefix| ==> G.KeyByte(Prefix[i]) || Prefix[i] == 58
    ensures forall i :: 0 <= i < |ManifestKey| ==> G.KeyByte(ManifestKey[i]) || ManifestKey[i] == 58
    ensures |Prefix| == 18 && Prefix[0] == 97 && ManifestKey[0] == 97
  {
  }

  ghost predicate Ready(store: S.Store)
    reads store
  {
    store.Valid() && store.active && store.failed.None?
  }

  lemma ReadyKeys(store: S.Store)
    requires Ready(store)
    ensures G.Readable(store.digest, store.Working())
    ensures forall k :: k in store.Contents() ==> Unpaired(k)
  {
    hide G.TxInv, G.Readable, G.KeyOk, G.Contents, G.DiskInv, Unpaired;
    Q.ContentsKeys(store.digest, store.Working());
    forall k | k in store.Contents() ensures Unpaired(k) { AsciiIsUnpaired(k); }
  }

  method GetRecord(store: S.Store, key: G.Key) returns (found: Option<G.Stored>)
    requires Ready(store) && G.KeyOk(key)
    modifies store`failed
    ensures Ready(store) && store.Working() == old(store.Working())
    ensures found == if key in store.Contents() then Some(store.Contents()[key]) else None
  {
    hide G.TxInv, G.Readable, G.KeyOk, G.Contents, G.DiskInv, S.Store.Valid;
    ReadyKeys(store);
    Q.GetReadsMap(store.digest, store.Working(), key);
    var error: Option<G.Error>;
    found, error := store.Get(key);
  }

  /** The keys of the document's parts, sorted. */
  method ListParts(store: S.Store) returns (keys: seq<G.Key>)
    requires Ready(store)
    ensures (forall k :: k in Prefixed(store.Contents()) ==> Unpaired(k)) && keys == J.SortedKeys(Prefixed(store.Contents()))
  {
    hide Unpaired, G.Contents, S.Store.Valid;
    ReadyKeys(store);
    keys := C.SortKeys(Prefixed(store.Contents()));
  }

  lemma SortedKeysAre(m: Contents, mf: Manifest, keys: seq<G.Key>)
    requires mf.chunks <= 10000 && PartsOk(m, mf)
    requires (forall k :: k in Prefixed(m) ==> Unpaired(k)) && keys == J.SortedKeys(Prefixed(m))
    ensures keys == PartKeys(mf.chunks)
  {
    hide Unpaired, PartKey;
    PartKeysSorted(mf.chunks, Prefixed(m));
  }

  lemma DecodedOk(data: seq<Byte>)
    ensures DecodeManifest(data).Some? ==> ManifestOk(DecodeManifest(data).value) && DecodeManifest(data).value.chunks <= 32
  {
    hide EncodeManifest;
  }

  method Read(h: Hash, store: S.Store) returns (doc: Document)
    requires Ready(store)
    modifies store`failed
    ensures Ready(store) && store.Working() == old(store.Working())
    ensures doc == ReadDocument(h, store.Contents())
  {
    hide Unpaired, G.Contents, DecodeManifest, Ready, ManifestKey, Prefix, PartKey, G.KeyOk, PartsOk;
    ghost var m := store.Contents();
    NamesAreKeys(0);
    var stored := GetRecord(store, ManifestKey);
    var keys := ListParts(store);
    if stored.None? { return if keys == [] then Nothing else Damaged; }
    DecodedOk(stored.value.plain);
    var mf := ReadManifest(stored.value.plain);
    if mf.None? { return Damaged; }
    var parts := ReadParts(store, mf.value, keys);
    if parts.None? || h(parts.value) != mf.value.digest { return Damaged; }
    return Whole(parts.value, mf.value.digest);
  }

  method ReadParts(store: S.Store, mf: Manifest, keys: seq<G.Key>) returns (bytes: Option<seq<Byte>>)
    requires Ready(store) && ManifestOk(mf) && mf.chunks <= 32
    requires (forall k :: k in Prefixed(store.Contents()) ==> Unpaired(k)) && keys == J.SortedKeys(Prefixed(store.Contents()))
    modifies store`failed
    ensures Ready(store) && store.Working() == old(store.Working())
    ensures bytes.Some? == PartsOk(store.Contents(), mf)
    ensures bytes.Some? ==> bytes.value == Joined(store.Contents(), mf.chunks)
  {
    hide Unpaired, G.Contents, Ready, Prefix, PartKey, G.KeyOk;
    hide PartsOk, Joined, G.View;
    ghost var m, before := store.Contents(), store.Working();
    if PartsOk(m, mf) { SortedKeysAre(m, mf, keys); }
    if |keys| != mf.chunks { return None; }
    var result: seq<Byte> := [];
    NoPartsYet(m);
    var i := 0;
    while i < |keys|
      invariant 0 <= i <= |keys| && Ready(store) && store.Working() == before
      invariant Listed(m, mf, keys, i) && result == Joined(m, i)
    {
      if PartsOk(m, mf) { PartThere(m, mf, i); }
      if keys[i] != PartKey(i) { return None; }
      NamesAreKeys(i);
      var piece := GetRecord(store, keys[i]);
      if piece.None? || |piece.value.plain| != PartEnd(mf.bytes, i) - i * 524288 { return None; }
      OneMorePart(m, mf, keys, i);
      result := result + piece.value.plain;
      i := i + 1;
    }
    AllListed(m, mf, keys);
    return Some(result);
  }

  /** The first `n` keys name the first `n` parts, each of its length. */
  ghost predicate Listed(m: Contents, mf: Manifest, keys: seq<G.Key>, n: nat)
    requires n <= |keys| && n <= 10000
  {
    forall j :: 0 <= j < n ==>
      keys[j] == PartKey(j) && PartKey(j) in m && |m[PartKey(j)].plain| == PartEnd(mf.bytes, j) - j * 524288
  }

  lemma NoPartsYet(m: Contents)
    ensures Joined(m, 0) == []
  {
  }

  lemma PartThere(m: Contents, mf: Manifest, i: nat)
    requires i < mf.chunks <= 10000 && PartsOk(m, mf)
    ensures PartKey(i) in m && |m[PartKey(i)].plain| == PartEnd(mf.bytes, i) - i * 524288
  {
    hide PartKey, Prefix;
  }

  lemma OneMorePart(m: Contents, mf: Manifest, keys: seq<G.Key>, i: nat)
    requires i < |keys| && i < 10000 && Listed(m, mf, keys, i) && keys[i] == PartKey(i) && PartKey(i) in m
    requires |m[PartKey(i)].plain| == PartEnd(mf.bytes, i) - i * 524288
    ensures Listed(m, mf, keys, i + 1) && Joined(m, i + 1) == Joined(m, i) + m[PartKey(i)].plain
  {
    hide PartKey;
  }

  lemma AllListed(m: Contents, mf: Manifest, keys: seq<G.Key>)
    requires mf.chunks <= 10000 && |keys| == mf.chunks && (forall k :: k in Prefixed(m) ==> Unpaired(k))
    requires keys == J.SortedKeys(Prefixed(m))
    requires Listed(m, mf, keys, mf.chunks)
    ensures PartsOk(m, mf)
  {
    hide Unpaired, PartKey, Prefix;
    assert keys == PartKeys(mf.chunks);
  }

  // Writing

  /** Whether the bytes are the canonical form of a JSON value. */
  ghost predicate IsCanonical(f: J.Spelling, data: seq<Byte>) {
    var v := J.DecodeJson(f, data, MaxBytes);
    v.Some? && J.Proper(f, v.value) && J.Print(f, v.value) == data
  }

  method CheckCanonical(f: J.Spelling, data: seq<Byte>) returns (ok: bool)
    requires |data| <= MaxBytes && J.Canonic(f)
    ensures ok == IsCanonical(f, data)
  {
    hide J.Print, J.Proper, J.Shallow, J.Size, J.DecodeJson;
    var v := C.Decoded(f, data, MaxBytes);
    if v.None? { return false; }
    JP.DecodedPrintsBack(f, data, MaxBytes);
    var encoded := C.Canonical(f, v.value);
    ok := encoded == Some(data);
  }

  /** After the first `n` parts have been put, everything else being as it was. */
  ghost predicate PartsPut(before: Contents, now: Contents, data: seq<Byte>, n: nat)
    requires n <= Chunks(|data|) <= 32
  {
    && (forall j :: 0 <= j < n ==> PartKey(j) in now && now[PartKey(j)].plain == Part(data, j))
    && (forall k :: k in now <==> k in before || k in PartKeys(n))
    && (forall k :: k in now && k !in PartKeys(n) ==> now[k] == before[k])
  }

  lemma PartPut(before: Contents, now: Contents, data: seq<Byte>, n: nat, stored: G.Stored)
    requires n < Chunks(|data|) <= 32 && PartsPut(before, now, data, n) && stored.plain == Part(data, n)
    ensures PartsPut(before, now[PartKey(n) := stored], data, n + 1)
  {
    hide PartKey;
    forall j | 0 <= j < n ensures PartKey(j) != PartKey(n) {
      if PartKey(j) == PartKey(n) { PartKeysDiffer(j, n); }
    }
    assert PartKeys(n + 1) == PartKeys(n) + [PartKey(n)];
  }

  method PutPart(store: S.Store, data: seq<Byte>, i: nat, choice: (Id, nat), ghost before: Contents) returns (ok: bool)
    requires Ready(store) && store.writable && i < Chunks(|data|) <= 32 && PartsPut(before, store.Contents(), data, i)
    modifies store
    ensures store.Valid() && store.active && store.writable
    ensures ok ==> Ready(store) && PartsPut(before, store.Contents(), data, i + 1)
  {
    hide PartKey, G.KeyOk, G.Contents, G.View, PartsPut, G.DiskInv, G.TxInv, G.Readable, S.Store.WorkingOk, S.Store.Valid, S.Store.Contents, Part;
    NamesAreKeys(i);
    ghost var now := store.Contents();
    var error := store.Put(PartKey(i), Part(data, i), G.Data, choice.0, choice.1);
    if error.Some? { return false; }
    PartPut(before, now, data, i, G.Stored(Part(data, i), G.Data));
    ok := true;
  }

  method PutParts(store: S.Store, data: seq<Byte>, random: nat -> (Id, nat)) returns (ok: bool)
    requires Ready(store) && store.writable && 1 <= |data| <= MaxBytes
    modifies store
    ensures store.Valid() && store.active && store.writable
    ensures ok ==> Ready(store) && PartsPut(old(store.Contents()), store.Contents(), data, Chunks(|data|))
  {
    hide PartsPut, S.Store.WorkingOk, S.Store.Valid, S.Store.Contents;
    ghost var before := store.Contents();
    NothingPut(before, data);
    var i := 0;
    while i < Chunks(|data|)
      invariant 0 <= i <= Chunks(|data|) <= 32 && Ready(store) && store.writable
      invariant PartsPut(before, store.Contents(), data, i)
    {
      ok := PutPart(store, data, i, random(i), before);
      if !ok { return; }
      i := i + 1;
    }
    ok := true;
  }

  lemma NothingPut(before: Contents, data: seq<Byte>)
    requires |data| <= MaxBytes
    ensures Chunks(|data|) <= 32 && PartsPut(before, before, data, 0)
  {
    hide PartKey;
  }

  /** The parts present are the first `n`. */
  ghost predicate HasParts(m: Contents, n: nat)
    requires n <= 10000
  {
    forall k :: k in Prefixed(m) <==> k in PartKeys(n)
  }

  lemma DocumentHasParts(h: Hash, m: Contents) returns (n: nat)
    requires !ReadDocument(h, m).Damaged?
    ensures n <= 32 && HasParts(m, n)
  {
    hide PartKey, DecodeManifest, Joined, ManifestKey, Prefix;
    if ManifestKey in m {
      DecodedOk(m[ManifestKey].plain);
      n := DecodeManifest(m[ManifestKey].plain).value.chunks;
    } else {
      n := 0;
    }
  }

  lemma PartsAfterPuts(before: Contents, now: Contents, data: seq<Byte>, n: nat)
    requires Chunks(|data|) <= 32 && n <= 32 && HasParts(before, n) && PartsPut(before, now, data, Chunks(|data|))
    ensures HasParts(now, if n <= Chunks(|data|) then Chunks(|data|) else n)
  {
    hide PartKey, Prefix;
    var total := if n <= Chunks(|data|) then Chunks(|data|) else n;
    forall k ensures k in Prefixed(now) <==> k in PartKeys(total) {
      if k in PartKeys(Chunks(|data|)) {
        var i :| 0 <= i < Chunks(|data|) && PartKeys(Chunks(|data|))[i] == k;
        PartKeyDigits(i);
        assert PartKeys(total)[i] == k;
      }
      if k in PartKeys(n) {
        var i :| 0 <= i < n && PartKeys(n)[i] == k;
        assert PartKeys(total)[i] == k;
      }
      if k in PartKeys(total) {
        var i :| 0 <= i < total && PartKeys(total)[i] == k;
        if i < Chunks(|data|) { assert PartKeys(Chunks(|data|))[i] == k; } else { assert PartKeys(n)[i] == k; }
      }
    }
  }

  /** The parts from `n` on removed, and nothing else. */
  ghost predicate Trimmed(before: Contents, now: Contents, n: nat, to: nat)
    requires n <= to <= 10000
  {
    && (forall k :: k in now <==> k in before && !(k in PartKeys(to) && k !in PartKeys(n)))
    && (forall k :: k in now ==> now[k] == before[k])
  }

  lemma TrimStep(before: Contents, now: Contents, n: nat, i: nat)
    requires n <= i < 10000 && Trimmed(before, now, n, i)
    ensures Trimmed(before, now - {PartKey(i)}, n, i + 1)
  {
    hide PartKey;
    assert PartKeys(i + 1) == PartKeys(i) + [PartKey(i)];
    assert PartKey(i) !in PartKeys(n) by {
      forall j | 0 <= j < n ensures PartKeys(n)[j] != PartKey(i) {
        if PartKey(j) == PartKey(i) { PartKeysDiffer(i, j); }
      }
    }
  }

  lemma NothingTrimmed(m: Contents, n: nat)
    requires n <= 10000
    ensures Trimmed(m, m, n, n)
  {
    hide PartKey;
  }

  method TrimParts(store: S.Store, n: nat, keys: seq<G.Key>) returns (ok: bool)
    requires Ready(store) && store.writable && n <= |keys| <= 32 && keys == PartKeys(|keys|)
    modifies store
    ensures store.Valid() && store.active && store.writable
    ensures ok ==> Ready(store) && Trimmed(old(store.Contents()), store.Contents(), n, |keys|)
  {
    hide PartKey, G.KeyOk, G.Contents, G.View, Trimmed, G.DiskInv, G.TxInv, G.Readable, S.Store.WorkingOk;
    ghost var before := store.Contents();
    NothingTrimmed(before, n);
    var i := n;
    while i < |keys|
      invariant n <= i <= |keys| && Ready(store) && store.writable
      invariant Trimmed(before, store.Contents(), n, i)
    {
      NamesAreKeys(i);
      TrimStep(before, store.Contents(), n, i);
      var error := store.Delete(keys[i]);
      if error.Some? { return false; }
      i := i + 1;
    }
    ok := true;
  }

  lemma PartsRemain(before: Contents, put: Contents, trimmed: Contents, data: seq<Byte>, total: nat)
    requires 1 <= |data| <= MaxBytes && Chunks(|data|) <= total <= 32
    requires PartsPut(before, put, data, Chunks(|data|)) && HasParts(put, total) && Trimmed(put, trimmed, Chunks(|data|), total)
    ensures HoldsParts(trimmed, data)
  {
    hide PartKey, Prefix, Part;
    var n := Chunks(|data|);
    forall i | 0 <= i < n ensures PartKey(i) in trimmed && trimmed[PartKey(i)].plain == Part(data, i) {
      assert PartKeys(n)[i] == PartKey(i);
    }
    forall k ensures k in Prefixed(trimmed) <==> k in PartKeys(n) {
      PartsHavePrefix(n, k);
      if k in PartKeys(n) {
        var i :| 0 <= i < n && PartKeys(n)[i] == k;
        assert PartKeys(total)[i] == k && PartKey(i) in trimmed;
      }
      if k in Prefixed(trimmed) { assert k in Prefixed(put); }
    }
  }

  lemma OthersRemain(before: Contents, put: Contents, trimmed: Contents, data: seq<Byte>, total: nat)
    requires Chunks(|data|) <= total <= 32
    requires PartsPut(before, put, data, Chunks(|data|)) && Trimmed(put, trimmed, Chunks(|data|), total)
    ensures OthersSame(before, trimmed)
  {
    hide PartKey, Prefix, Part, Chunks, ManifestKey;
    forall k | !(Prefix <= k) && k != ManifestKey
      ensures (k in trimmed <==> k in before) && (k in trimmed ==> trimmed[k] == before[k]) {
      PartsHavePrefix(total, k);
      PartsHavePrefix(Chunks(|data|), k);
    }
  }

  /** Parts put, surplus parts removed, manifest put: the document is written. */
  lemma AllWritten(h: Hash, before: Contents, put: Contents, trimmed: Contents, data: seq<Byte>, total: nat, stored: G.Stored)
    requires 1 <= |data| <= MaxBytes && Chunks(|data|) <= total <= 32
    requires PartsPut(before, put, data, Chunks(|data|)) && HasParts(put, total) && Trimmed(put, trimmed, Chunks(|data|), total)
    requires stored.plain == EncodeManifest(ManifestFor(h, data))
    ensures Written(h, before, trimmed[ManifestKey := stored], data)
  {
    hide PartKey, Prefix, ManifestKey, EncodeManifest, Chunks, Part, PartsPut, HasParts, Trimmed;
    NamesAreKeys(0);
    PartsRemain(before, put, trimmed, data, total);
    OthersRemain(before, put, trimmed, data, total);
    ManifestIsNoPart(trimmed, stored, data);
  }

  lemma ManifestIsNoPart(m: Contents, stored: G.Stored, data: seq<Byte>)
    requires 1 <= |data| <= MaxBytes && HoldsParts(m, data)
    ensures HoldsParts(m[ManifestKey := stored], data)
  {
    hide PartKey, Prefix, ManifestKey, Part;
    NamesAreKeys(0);
    var after, n := m[ManifestKey := stored], Chunks(|data|);
    assert forall k :: k in Prefixed(after) <==> k in Prefixed(m);
    forall i | 0 <= i < n ensures PartKey(i) in after && after[PartKey(i)].plain == Part(data, i) {
      assert PartKeys(n)[i] == PartKey(i);
      PartsHavePrefix(n, PartKey(i));
    }
  }

  lemma PartsHavePrefix(n: nat, k: G.Key)
    requires n <= 10000
    ensures k in PartKeys(n) ==> Prefix <= k
  {
    hide PartKey, Prefix;
    if k in PartKeys(n) {
      var i :| 0 <= i < n && PartKeys(n)[i] == k;
      PartKeyDigits(i);
    }
  }

  datatype Outcome = Refused | Stale | Failed | Stored(digest: Id)

  /** Whether the document found is the one the writer read before. */
  predicate Expected(found: Document, expected: Option<Id>) {
    match found
    case Nothing => expected.None?
    case Whole(_, digest) => expected == Some(digest)
    case Damaged => false
  }

  /** Replaces the document, provided nobody else did since. What fails part-way is for the transaction to abandon. */
  method Write(f: J.Spelling, h: Hash, store: S.Store, data: seq<Byte>, expected: Option<Id>, random: nat -> (Id, nat))
    returns (outcome: Outcome)
    requires Ready(store) && store.writable && HashOk(h) && J.Canonic(f)
    modifies store
    ensures store.Valid() && store.active
    ensures outcome.Refused? <==> !(1 <= |data| <= 16 * 1048576 && IsCanonical(f, data))
    ensures outcome.Stale? <==>
      && 1 <= |data| <= 16 * 1048576 && IsCanonical(f, data)
      && match expected
         case None => ReadDocument(h, old(store.Contents())) != Nothing
         case Some(digest) => !ReadDocument(h, old(store.Contents())).Whole? || ReadDocument(h, old(store.Contents())).digest != digest
    ensures outcome.Refused? || outcome.Stale? ==> store.Working() == old(store.Working())
    ensures outcome.Stored? ==> outcome.digest == h(data) && Ready(store)
    ensures outcome.Stored? && expected == Some(h(data)) ==> store.Working() == old(store.Working())
    ensures outcome.Stored? && expected != Some(h(data)) ==> Written(h, old(store.Contents()), store.Contents(), data)
  {
    hide PartKey, Prefix, ManifestKey, G.KeyOk, G.Contents, G.View, PartsPut, Trimmed, Written, HasParts, ReadDocument, IsCanonical;
    hide G.DiskInv, G.TxInv, G.Readable, S.Store.WorkingOk, Unpaired, EncodeManifest, ManifestJson, ManifestOk;
    if |data| < 1 || |data| > MaxBytes { return Refused; }
    var canonical := CheckCanonical(f, data);
    if !canonical { return Refused; }
    var previous := Read(h, store);
    if !Expected(previous, expected) { return Stale; }
    var digest := h(data);
    if expected == Some(digest) { return Stored(digest); }
    ghost var old_ := DocumentHasParts(h, store.Contents());
    var ok := Replace(h, store, data, random, old_);
    return if ok then Stored(digest) else Failed;
  }

  method WriteManifest(h: Hash, data: seq<Byte>) returns (encoded: seq<Byte>)
    requires HashOk(h) && 1 <= |data| <= MaxBytes
    ensures encoded == EncodeManifest(ManifestFor(h, data))
  {
    hide J.Print, J.Proper, J.Shallow, ManifestJson, ManifestOk, EncodeManifest;
    ManifestForOk(h, data);
    var bytes := C.Canonical(AnyNumber, ManifestJson(ManifestFor(h, data)));
    return bytes.value;
  }

  method PutManifest(h: Hash, store: S.Store, data: seq<Byte>, choice: (Id, nat)) returns (ok: bool)
    requires Ready(store) && store.writable && HashOk(h) && 1 <= |data| <= MaxBytes
    modifies store
    ensures store.Valid() && store.active
    ensures ok ==> Ready(store)
    ensures ok ==> store.Contents() == old(store.Contents())[ManifestKey := G.Stored(EncodeManifest(ManifestFor(h, data)), G.Data)]
  {
    hide PartKey, Prefix, ManifestKey, G.KeyOk, G.Contents, G.View, G.DiskInv, G.TxInv, G.Readable, EncodeManifest, ManifestFor;
    hide S.Store.WorkingOk, S.Store.Valid, S.Store.Contents;
    var encoded := WriteManifest(h, data);
    NamesAreKeys(0);
    var error := store.Put(ManifestKey, encoded, G.Data, choice.0, choice.1);
    ok := error.None?;
  }

  /** `count` is how many parts there were. */
  method Replace(h: Hash, store: S.Store, data: seq<Byte>, random: nat -> (Id, nat), ghost count: nat) returns (ok: bool)
    requires Ready(store) && store.writable && HashOk(h) && 1 <= |data| <= MaxBytes
    requires count <= 32 && HasParts(store.Contents(), count)
    modifies store
    ensures store.Valid() && store.active
    ensures ok ==> Ready(store) && Written(h, old(store.Contents()), store.Contents(), data)
  {
    hide PartKey, Prefix, ManifestKey, PartsPut, Trimmed, Written, HasParts, Chunks, Unpaired, EncodeManifest, ManifestFor;
    hide S.Store.Valid, S.Store.Contents;
    ghost var before := store.Contents();
    ok := PutParts(store, data, random);
    if !ok { return; }
    ghost var put := store.Contents();
    NothingPut(before, data);
    PartsAfterPuts(before, put, data, count);
    ghost var total := if count <= Chunks(|data|) then Chunks(|data|) else count;
    var keys := ListParts(store);
    KeysAreParts(put, total, keys);
    ok := TrimParts(store, Chunks(|data|), keys);
    if !ok { return; }
    ghost var trimmed := store.Contents();
    ok := PutManifest(h, store, data, random(Chunks(|data|)));
    if !ok { return; }
    AllWritten(h, before, put, trimmed, data, total, G.Stored(EncodeManifest(ManifestFor(h, data)), G.Data));
  }

  lemma ManifestForOk(h: Hash, data: seq<Byte>)
    requires HashOk(h) && 1 <= |data| <= MaxBytes
    ensures var m := ManifestFor(h, data); ManifestOk(m) && J.Proper(AnyNumber, ManifestJson(m))
    ensures var m := ManifestFor(h, data); J.Shallow(ManifestJson(m), 0) && |J.Print(AnyNumber, ManifestJson(m))| <= 1024
    ensures EncodeManifest(ManifestFor(h, data)) == J.Print(AnyNumber, ManifestJson(ManifestFor(h, data)))
  {
    hide J.Print, J.Proper, J.Shallow, J.Size;
    ManifestSize(ManifestFor(h, data));
  }

  lemma KeysAreParts(m: Contents, n: nat, keys: seq<G.Key>)
    requires n <= 10000 && HasParts(m, n) && (forall k :: k in Prefixed(m) ==> Unpaired(k)) && keys == J.SortedKeys(Prefixed(m))
    ensures keys == PartKeys(n)
  {
    hide Unpaired, PartKey, Prefix;
    PartKeysSorted(n, Prefixed(m));
  }

  /** A document written is the document read, and what other records hold is untouched. */
  lemma WriteThenRead(h: Hash, before: Contents, after: Contents, data: seq<Byte>)
    requires HashOk(h) && 1 <= |data| <= MaxBytes && Written(h, before, after, data)
    ensures ReadDocument(h, after) == Whole(data, h(data))
    ensures forall k :: !(Prefix <= k) && k != ManifestKey ==> (k in after <==> k in before) && (k in after ==> after[k] == before[k])
  {
    hide ReadDocument, ManifestKey, Prefix, PartKey, EncodeManifest;
    ReadAfterWrite(h, before, after, data);
  }
}

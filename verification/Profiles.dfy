/** One bounded private document kept in the protected store as numbered parts and a manifest. */
module Profiles {
  import opened Common
  import opened Texts
  import G = Groupstore
  import opened Spellings
  import J = Json
  import JP = JsonProofs
  import Z = StopSizes

  const MaxBytes := 16 * 1024 * 1024

  type Contents = map<G.Key, G.Stored>

  /** The hash of a document: a 256-bit number. */
  type Hash = seq<Byte> -> Id

  ghost predicate HashOk(h: Hash) {
    forall d: seq<Byte> :: h(d) < AddressLimit
  }

  const ManifestKey: G.Key := Ascii("application:state")
  const Prefix: G.Key := Ascii("application:state:")

  /** The name of a part: its number in four figures. */
  function PartKey(i: nat): G.Key
    requires i < 10000
  {
    Prefix + [48 + i / 1000, 48 + i / 100 % 10, 48 + i / 10 % 10, 48 + i % 10]
  }

  function Chunks(bytes: nat): nat {
    (bytes + 524287) / 524288
  }

  function PartEnd(bytes: nat, i: nat): nat {
    if (i + 1) * 524288 <= bytes then (i + 1) * 524288 else bytes
  }

  // The manifest

  datatype Manifest = Manifest(bytes: nat, chunks: nat, digest: Id)

  predicate ManifestOk(m: Manifest) {
    1 <= m.bytes <= MaxBytes && m.chunks == Chunks(m.bytes) && m.digest < AddressLimit
  }

  const Domain: Text := Ascii("relayloom/profile-state/1")

  function ManifestJson(m: Manifest): J.Value {
    J.Obj(map[Ascii("bytes") := J.Num(Decimal(m.bytes)), Ascii("chunks") := J.Num(Decimal(m.chunks)),
              Ascii("digest") := J.Str(HexText(m.digest, 64)), Ascii("domain") := J.Str(Domain)])
  }

  lemma ManifestIsProper(m: Manifest)
    ensures J.Proper(AnyNumber, ManifestJson(m))
  {
    hide J.ScanNumber, Unpaired, Decimal, HexText, Ascii;
    DecimalIsNumber(m.bytes);
    DecimalIsNumber(m.chunks);
    HexTextIsPlain(m.digest, 64);
    PlainIsUnpaired(HexText(m.digest, 64));
    NamesUnpaired();
  }

  lemma NamesUnpaired()
    ensures Unpaired(Ascii("bytes")) && Unpaired(Ascii("chunks")) && Unpaired(Ascii("digest")) && Unpaired(Ascii("domain"))
    ensures Unpaired(Domain)
  {
    hide Ascii, Unpaired, Domain;
    NamesPlain();
    PlainIsUnpaired(Ascii("bytes"));
    PlainIsUnpaired(Ascii("chunks"));
    PlainIsUnpaired(Ascii("digest"));
    PlainIsUnpaired(Ascii("domain"));
    PlainIsUnpaired(Domain);
  }

  ghost function EncodeManifest(m: Manifest): seq<Byte> {
    ManifestIsProper(m);
    J.Print(AnyNumber, ManifestJson(m))
  }

  /** The manifest these bytes are the canonical form of. */
  ghost predicate Encodes(data: seq<Byte>, m: Manifest) {
    ManifestOk(m) && EncodeManifest(m) == data && |data| <= 1024
  }

  ghost function DecodeManifest(data: seq<Byte>): (m: Option<Manifest>) {
    if m: Manifest :| Encodes(data, m) then Some(m) else None
  }

  lemma ManifestSize(m: Manifest)
    requires ManifestOk(m)
    ensures J.Proper(AnyNumber, ManifestJson(m)) && J.Shallow(ManifestJson(m), 0) && J.Size(ManifestJson(m)) <= J.MaxNodes
    ensures |EncodeManifest(m)| <= 1024
  {
    hide Decimal, HexText, Ascii, J.Print, Domain, J.Proper, J.Size;
    ManifestIsProper(m);
    ManifestIsSmall(m);
    ManifestLength(m);
  }

  lemma ManifestIsSmall(m: Manifest)
    ensures J.Shallow(ManifestJson(m), 0) && J.Size(ManifestJson(m)) <= J.MaxNodes
  {
    hide Decimal, HexText, Ascii, Domain, J.Size;
    var v := ManifestJson(m);
    FlatIsShallow(v.fields);
    FlatSize(v.fields);
    FourFields(m);
  }

  /** No field of the object holds an array or another object. */
  ghost predicate Flat(fields: map<Text, J.Value>) {
    forall k :: k in fields ==> fields[k].Num? || fields[k].Str?
  }

  lemma FlatIsShallow(fields: map<Text, J.Value>)
    requires Flat(fields)
    ensures J.Shallow(J.Obj(fields), 0)
  {
  }

  lemma FlatSize(fields: map<Text, J.Value>)
    requires Flat(fields)
    ensures J.Size(J.Obj(fields)) <= 1 + |fields|
  {
    var v := J.Obj(fields);
    JP.ObjectSize(v, fields);
    var sizes := J.FieldSizes(v, fields);
    Z.TotalBelow(sizes, 1);
    assert |sizes| == |fields| by { assert sizes.Keys == fields.Keys; }
  }

  lemma FourFields(m: Manifest)
    ensures |ManifestJson(m).fields| <= 4
  {
    hide Ascii;
    var names := [Ascii("bytes"), Ascii("chunks"), Ascii("digest"), Ascii("domain")];
    assert ManifestJson(m).fields.Keys == set k | k in names;
    Z.SetOfSeq(names);
    assert |ManifestJson(m).fields| == |ManifestJson(m).fields.Keys|;
  }

  lemma FieldLength(m: Manifest, k: Text)
    requires ManifestOk(m) && k in ManifestJson(m).fields && J.Proper(AnyNumber, ManifestJson(m))
    ensures |J.PrintField(AnyNumber, ManifestJson(m), ManifestJson(m).fields, k)| <= 100
  {
    hide J.PrintField, J.Proper, Plain, Decimal, HexText, Ascii, Domain;
    var v := ManifestJson(m);
    NamesPlain();
    HexIsPlain(m.digest);
    Z.SafeLength(m.bytes);
    Z.SafeLength(m.chunks);
    match v.fields[k]
    case Str(t) => Z.TextFieldLength(v, v.fields, k, t);
    case Num(token) => Z.NumberFieldLength(v, v.fields, k, token);
    case _ => assert false;
  }

  lemma DomainPlain()
    ensures Plain(Domain) && |Domain| == 25
  {
  }

  lemma FieldNamesPlain()
    ensures Plain(Ascii("bytes")) && Plain(Ascii("chunks")) && Plain(Ascii("digest")) && Plain(Ascii("domain"))
    ensures |Ascii("bytes")| == 5 && |Ascii("chunks")| == 6 && |Ascii("digest")| == 6 && |Ascii("domain")| == 6
  {
  }

  lemma NamesPlain()
    ensures Plain(Ascii("bytes")) && Plain(Ascii("chunks")) && Plain(Ascii("digest")) && Plain(Ascii("domain"))
    ensures |Ascii("bytes")| == 5 && |Ascii("chunks")| == 6 && |Ascii("digest")| == 6 && |Ascii("domain")| == 6
    ensures Plain(Domain) && |Domain| == 25
  {
    hide Ascii, Plain, Domain;
    DomainPlain();
    FieldNamesPlain();
  }

  lemma ManifestLength(m: Manifest)
    requires ManifestOk(m)
    ensures |EncodeManifest(m)| <= 1024
  {
    hide Decimal, HexText, Ascii, J.Print, J.PrintField, J.Proper, Domain, ManifestOk;
    ManifestIsProper(m);
    var v := ManifestJson(m);
    assert Ascii("bytes") in v.fields;
    Z.ObjectLength(v, v.fields);
    var lengths := Z.Lengths(v, v.fields);
    forall k | k in lengths ensures lengths[k] <= 101 { FieldLength(m, k); }
    Z.TotalBelow(lengths, 101);
    FourFields(m);
    assert |lengths| == |v.fields| by { assert lengths.Keys == v.fields.Keys; }
  }

  /** A manifest is known by its bytes. */
  lemma ManifestsDiffer(a: Manifest, b: Manifest)
    requires ManifestOk(a) && ManifestOk(b) && EncodeManifest(a) == EncodeManifest(b)
    ensures a == b
  {
    hide Decimal, HexText, J.Print, J.Proper, J.Shallow, J.Size, Ascii, Domain, ParseDecimal, ParseHex;
    ManifestSize(a);
    ManifestSize(b);
    JP.PrintIsInjective(AnyNumber, ManifestJson(a), ManifestJson(b));
    NamesDiffer();
    assert ManifestJson(a).fields == ManifestJson(b).fields;
    assert ManifestJson(a).fields[Ascii("bytes")] == ManifestJson(b).fields[Ascii("bytes")];
    assert ManifestJson(a).fields[Ascii("chunks")] == ManifestJson(b).fields[Ascii("chunks")];
    assert ManifestJson(a).fields[Ascii("digest")] == ManifestJson(b).fields[Ascii("digest")];
    HashFitsHex();
    DecimalParses(a.bytes);
    DecimalParses(b.bytes);
    HexParses(a.digest, 64);
    HexParses(b.digest, 64);
  }

  lemma NamesDiffer()
    ensures Ascii("bytes") != Ascii("chunks") && Ascii("bytes") != Ascii("digest") && Ascii("bytes") != Ascii("domain")
    ensures Ascii("chunks") != Ascii("digest") && Ascii("chunks") != Ascii("domain") && Ascii("digest") != Ascii("domain")
  {
    assert Ascii("bytes")[0] == 98 && Ascii("chunks")[0] == 99;
    assert Ascii("digest")[1] == 105 && Ascii("domain")[1] == 111;
    assert Ascii("digest")[0] == 100 && Ascii("domain")[0] == 100;
  }

  lemma ManifestDecodes(m: Manifest)
    requires ManifestOk(m)
    ensures DecodeManifest(EncodeManifest(m)) == Some(m)
  {
    hide ManifestOk, EncodeManifest;
    ManifestSize(m);
    assert Encodes(EncodeManifest(m), m);
    var found := DecodeManifest(EncodeManifest(m)).value;
    ManifestsDiffer(m, found);
  }

  // The names of the parts

  lemma FourDigits(i: nat)
    ensures i == i / 1000 * 1000 + i / 100 % 10 * 100 + i / 10 % 10 * 10 + i % 10
  {
    var a := i / 10;
    var b := a / 10;
    assert i == a * 10 + i % 10 && a == b * 10 + a % 10;
    assert i / 100 == b && i / 1000 == b / 10 && b == b / 10 * 10 + b % 10;
  }

  lemma PartKeyDigits(i: nat)
    requires i < 10000
    ensures i == i / 1000 * 1000 + i / 100 % 10 * 100 + i / 10 % 10 * 10 + i % 10
    ensures |PartKey(i)| == |Prefix| + 4 && Prefix <= PartKey(i)
    ensures PartKey(i)[|Prefix|] == 48 + i / 1000 && PartKey(i)[|Prefix| + 1] == 48 + i / 100 % 10
    ensures PartKey(i)[|Prefix| + 2] == 48 + i / 10 % 10 && PartKey(i)[|Prefix| + 3] == 48 + i % 10
  {
    hide Prefix;
    FourDigits(i);
  }

  lemma PartKeysDiffer(i: nat, j: nat)
    requires i < 10000 && j < 10000 && PartKey(i) == PartKey(j)
    ensures i == j
  {
    hide PartKey, Prefix;
    PartKeyDigits(i);
    PartKeyDigits(j);
  }

  lemma {:induction false} PlainUnits(t: Text)
    requires forall i :: 0 <= i < |t| ==> t[i] < 128
    ensures Units(t) == t
    decreases |t|
  {
    if t != [] { PlainUnits(t[1..]); }
  }

  lemma {:induction false} CommonStart(p: seq<nat>, a: seq<nat>, b: seq<nat>)
    ensures LessUnits(p + a, p + b) == LessUnits(a, b)
    decreases |p|
  {
    if p == [] {
      assert p + a == a && p + b == b;
    } else {
      assert (p + a)[1..] == p[1..] + a && (p + b)[1..] == p[1..] + b;
      CommonStart(p[1..], a, b);
    }
  }

  lemma FirstDigitDecides(x: nat, a: seq<nat>, y: nat, b: seq<nat>)
    ensures x < y ==> LessUnits([x] + a, [y] + b)
    ensures x == y ==> LessUnits([x] + a, [y] + b) == LessUnits(a, b)
  {
    assert ([x] + a)[1..] == a && ([y] + b)[1..] == b;
  }

  lemma DigitsDecide(a: nat, b: nat, x: nat, y: nat, c: nat, d: nat, z: nat, w: nat)
    requires a < c || (a == c && (b < d || (b == d && (x < z || (x == z && y < w)))))
    ensures LessUnits([a, b, x, y], [c, d, z, w])
  {
    hide LessUnits;
    assert [a, b, x, y] == [a] + [b, x, y] && [c, d, z, w] == [c] + [d, z, w];
    assert [b, x, y] == [b] + [x, y] && [d, z, w] == [d] + [z, w];
    assert [x, y] == [x] + [y] && [z, w] == [z] + [w] && [y] == [y] + [] && [w] == [w] + [];
    FirstDigitDecides(a, [b, x, y], c, [d, z, w]);
    FirstDigitDecides(b, [x, y], d, [z, w]);
    FirstDigitDecides(x, [y], z, [w]);
    FirstDigitDecides(y, [], w, []);
  }

  lemma PartKeyPlain(i: nat)
    requires i < 10000
    ensures Units(PartKey(i)) == PartKey(i)
  {
    hide Units, Prefix;
    PrefixPlain();
    PlainUnits(PartKey(i));
  }

  /** Parts are listed in the order of their numbers. */
  lemma PartKeysAscend(i: nat, j: nat)
    requires i < j < 10000
    ensures Less(PartKey(i), PartKey(j))
  {
    hide Units, LessUnits, Prefix;
    PartKeyPlain(i);
    PartKeyPlain(j);
    FourDigits(i);
    FourDigits(j);
    var a, b, x, y := 48 + i / 1000, 48 + i / 100 % 10, 48 + i / 10 % 10, 48 + i % 10;
    var c, d, z, w := 48 + j / 1000, 48 + j / 100 % 10, 48 + j / 10 % 10, 48 + j % 10;
    CommonStart(Prefix, [a, b, x, y], [c, d, z, w]);
    DigitsDecide(a, b, x, y, c, d, z, w);
  }

  lemma PrefixPlain()
    ensures forall i :: 0 <= i < |Prefix| ==> Prefix[i] < 128
  {
  }

  function PartKeys(n: nat): (s: seq<G.Key>)
    requires n <= 10000
    ensures |s| == n && forall i :: 0 <= i < n ==> s[i] == PartKey(i)
  {
    seq(n, i requires 0 <= i < n => PartKey(i))
  }

  lemma PartKeysSorted(n: nat, keys: set<G.Key>)
    requires n <= 10000 && (forall k :: k in keys <==> k in PartKeys(n))
    ensures (forall k :: k in keys ==> Unpaired(k)) && J.SortedKeys(keys) == PartKeys(n)
  {
    hide PartKey, Unpaired, Less;
    forall k | k in keys ensures Unpaired(k) {
      var i :| 0 <= i < n && PartKeys(n)[i] == k;
      PartKeyUnpaired(i);
    }
    forall i, j | 0 <= i < j < n ensures Less(PartKeys(n)[i], PartKeys(n)[j]) { PartKeysAscend(i, j); }
    JP.SortedIsUnique(keys, PartKeys(n));
  }

  lemma PartKeyUnpaired(i: nat)
    requires i < 10000
    ensures Unpaired(PartKey(i))
  {
    PrefixPlain();
  }

  // The document

  datatype Document = Nothing | Damaged | Whole(bytes: seq<Byte>, digest: Id)

  function Prefixed(m: Contents): set<G.Key> {
    set k | k in m && Prefix <= k
  }

  /** The parts of a document of this length, all there and each of its own length. */
  ghost predicate PartsOk(m: Contents, mf: Manifest)
    requires mf.chunks <= 10000
  {
    && (forall k :: k in Prefixed(m) <==> k in PartKeys(mf.chunks))
    && forall i :: 0 <= i < mf.chunks ==> PartKey(i) in m && |m[PartKey(i)].plain| == PartEnd(mf.bytes, i) - i * 524288
  }

  function Joined(m: Contents, n: nat): seq<Byte>
    requires n <= 10000 && forall i :: 0 <= i < n ==> PartKey(i) in m
  {
    if n == 0 then [] else Joined(m, n - 1) + m[PartKey(n - 1)].plain
  }

  ghost function ReadDocument(h: Hash, m: Contents): Document {
    if ManifestKey !in m then if Prefixed(m) == {} then Nothing else Damaged
    else
      var mf := DecodeManifest(m[ManifestKey].plain);
      if mf.None? || !PartsOk(m, mf.value) then Damaged
      else
        var bytes := Joined(m, mf.value.chunks);
        if h(bytes) != mf.value.digest then Damaged else Whole(bytes, mf.value.digest)
  }

  function Part(data: seq<Byte>, i: nat): seq<Byte>
    requires i * 524288 <= |data|
  {
    data[i * 524288..PartEnd(|data|, i)]
  }

  function ManifestFor(h: Hash, data: seq<Byte>): Manifest {
    Manifest(|data|, Chunks(|data|), h(data))
  }

  /** Exactly the parts of this document. */
  ghost predicate HoldsParts(m: Contents, data: seq<Byte>)
    requires 1 <= |data| <= MaxBytes
  {
    && (forall k :: k in Prefixed(m) <==> k in PartKeys(Chunks(|data|)))
    && (forall i :: 0 <= i < Chunks(|data|) ==> PartKey(i) in m && m[PartKey(i)].plain == Part(data, i))
  }

  /** No record but the document's own differs. */
  ghost predicate OthersSame(before: Contents, after: Contents) {
    forall k :: !(Prefix <= k) && k != ManifestKey ==> (k in after <==> k in before) && (k in after ==> after[k] == before[k])
  }

  /** The store after a document has been written: its parts and its manifest, and no other part. */
  ghost predicate Written(h: Hash, before: Contents, after: Contents, data: seq<Byte>)
    requires 1 <= |data| <= MaxBytes
  {
    && HoldsParts(after, data)
    && ManifestKey in after && after[ManifestKey].plain == EncodeManifest(ManifestFor(h, data))
    && OthersSame(before, after)
  }

  lemma {:induction false} JoinedParts(m: Contents, data: seq<Byte>, n: nat)
    requires 1 <= |data| <= MaxBytes && n <= Chunks(|data|)
    requires forall i :: 0 <= i < n ==> PartKey(i) in m && m[PartKey(i)].plain == Part(data, i)
    ensures Joined(m, n) == data[..if n * 524288 <= |data| then n * 524288 else |data|]
    decreases n
  {
    hide PartKey;
    if n > 0 {
      JoinedParts(m, data, n - 1);
      assert m[PartKey(n - 1)].plain == Part(data, n - 1);
    }
  }

  /** What was written is what is read, whatever was there before. */
  lemma ReadAfterWrite(h: Hash, before: Contents, after: Contents, data: seq<Byte>)
    requires HashOk(h) && 1 <= |data| <= MaxBytes && Written(h, before, after, data)
    ensures ReadDocument(h, after) == Whole(data, h(data))
  {
    hide PartKey, ManifestKey, Prefix, EncodeManifest, DecodeManifest, Joined;
    var mf := ManifestFor(h, data);
    ManifestDecodes(mf);
    forall i | 0 <= i < mf.chunks ensures |after[PartKey(i)].plain| == PartEnd(mf.bytes, i) - i * 524288 {
      assert after[PartKey(i)].plain == Part(data, i);
    }
    JoinedParts(after, data, mf.chunks);
    assert data[..|data|] == data;
  }

  lemma {:induction false} PartsOfJoined(m: Contents, mf: Manifest, n: nat)
    requires mf.chunks <= 10000 && mf.chunks == Chunks(mf.bytes) && n <= mf.chunks
    requires forall i :: 0 <= i < n ==> PartKey(i) in m && |m[PartKey(i)].plain| == PartEnd(mf.bytes, i) - i * 524288
    ensures |Joined(m, n)| == (if n * 524288 <= mf.bytes then n * 524288 else mf.bytes)
    ensures forall i :: 0 <= i < n ==> i * 524288 <= PartEnd(mf.bytes, i) <= |Joined(m, n)| && Joined(m, n)[i * 524288..PartEnd(mf.bytes, i)] == m[PartKey(i)].plain
    decreases n
  {
    hide PartKey;
    if n > 0 {
      PartsOfJoined(m, mf, n - 1);
      var before, last := Joined(m, n - 1), m[PartKey(n - 1)].plain;
      assert |m[PartKey(n - 1)].plain| == PartEnd(mf.bytes, n - 1) - (n - 1) * 524288;
      assert Joined(m, n)[(n - 1) * 524288..PartEnd(mf.bytes, n - 1)] == last;
      forall i | 0 <= i < n - 1
        ensures i * 524288 <= PartEnd(mf.bytes, i) <= |before| && Joined(m, n)[i * 524288..PartEnd(mf.bytes, i)] == m[PartKey(i)].plain
      {
        assert before[i * 524288..PartEnd(mf.bytes, i)] == m[PartKey(i)].plain;
        assert (before + last)[i * 524288..PartEnd(mf.bytes, i)] == before[i * 524288..PartEnd(mf.bytes, i)];
      }
    }
  }

  /** A document is read exactly where the store holds its manifest, with its length, its number of parts and its
      hash, and its parts, 512 KiB each up to the last, and no other part. There is none exactly where the store
      holds neither manifest nor part. */
  lemma DocumentExactly(h: Hash, m: Contents, data: seq<Byte>, digest: Id)
    requires HashOk(h)
    ensures ReadDocument(h, m) == Whole(data, digest) <==>
      && 1 <= |data| <= 16 * 1048576 && digest == h(data)
      && HoldsParts(m, data)
      && ManifestKey in m && m[ManifestKey].plain == EncodeManifest(Manifest(|data|, (|data| + 524287) / 524288, h(data)))
    ensures ReadDocument(h, m) == Nothing <==> ManifestKey !in m && forall k :: k in m ==> !(Prefix <= k)
  {
    hide PartKey, ManifestKey, Prefix, EncodeManifest, DecodeManifest, Joined;
    if 1 <= |data| <= MaxBytes && digest == h(data) && HoldsParts(m, data)
      && ManifestKey in m && m[ManifestKey].plain == EncodeManifest(ManifestFor(h, data))
    {
      ReadAfterWrite(h, m, m, data);
    }
    if ReadDocument(h, m) == Whole(data, digest) {
      var mf := DecodeManifest(m[ManifestKey].plain).value;
      DecodedManifest(m[ManifestKey].plain);
      PartsOfJoined(m, mf, mf.chunks);
      assert data == Joined(m, mf.chunks) && |data| == mf.bytes;
      forall i | 0 <= i < mf.chunks ensures PartKey(i) in m && m[PartKey(i)].plain == Part(data, i) {
        assert data[i * 524288..PartEnd(mf.bytes, i)] == m[PartKey(i)].plain;
      }
    }
    assert forall k :: k in Prefixed(m) <==> k in m && Prefix <= k;
    if k :| k in m && Prefix <= k {
      assert k in Prefixed(m);
    }
  }

  lemma DecodedManifest(plain: seq<Byte>)
    requires DecodeManifest(plain).Some?
    ensures var mf := DecodeManifest(plain).value; ManifestOk(mf) && EncodeManifest(mf) == plain && mf.chunks <= 32
  {
  }
}

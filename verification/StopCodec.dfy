/** Reading back the stored form of a set of stops. */
module StopCodec {
  import opened Common
  import opened Texts
  import opened Spellings
  import opened Ledger
  import J = Json
  import JP = JsonProofs
  import C = JsonCodec
  import Z = StopSizes

  // From JSON to stops

  function ParseReason(t: Text): Option<Reason> {
    if t == ReasonText(LeftGroup) then Some(LeftGroup)
    else if t == ReasonText(GroupClosed) then Some(GroupClosed)
    else if t == ReasonText(GroupForked) then Some(GroupForked)
    else if t == ReasonText(EpochChanged) then Some(EpochChanged)
    else if t == ReasonText(CardChanged) then Some(CardChanged)
    else if t == ReasonText(NotAnAuthor) then Some(NotAnAuthor)
    else None
  }

  function TextAt(fields: map<Text, J.Value>, k: Text): Option<Text> {
    if k in fields && fields[k].Str? then Some(fields[k].text) else None
  }

  function NumberAt(fields: map<Text, J.Value>, k: Text): Option<nat> {
    if k in fields && fields[k].Num? then Some(ParseDecimal(fields[k].token)) else None
  }

  function AddressAt(fields: map<Text, J.Value>, k: Text): Option<Address> {
    var t := TextAt(fields, k);
    if t.None? then None
    else
      var n := ParseHex(t.value);
      if n < AddressLimit then Some(n) else None
  }

  function ParseStop(v: J.Value): Option<Stop> {
    if !v.Obj? then None
    else
      var operation := TextAt(v.fields, Ascii("operationId"));
      var id := AddressAt(v.fields, Ascii("id"));
      var group := AddressAt(v.fields, Ascii("groupId"));
      var epochId := AddressAt(v.fields, Ascii("epochId"));
      var reason := TextAt(v.fields, Ascii("reason"));
      var observed := NumberAt(v.fields, Ascii("observed"));
      if NumberAt(v.fields, Ascii("version")) != Some(1) then None
      else if operation.None? || id.None? || group.None? || epochId.None? || reason.None? || observed.None? then None
      else if ParseReason(reason.value).None? then None
      else Some(Stop(operation.value, id.value, group.value, epochId.value, ParseReason(reason.value).value, observed.value))
  }

  function ParseStops(items: seq<J.Value>): Option<seq<Stop>> {
    if items == [] then Some([])
    else
      var front := ParseStops(items[..|items| - 1]);
      var last := ParseStop(items[|items| - 1]);
      if front.None? || last.None? then None else Some(front.value + [last.value])
  }

  function ParseStopSet(v: J.Value): Option<seq<Stop>> {
    if !v.Obj? || NumberAt(v.fields, Ascii("version")) != Some(1) then None
    else if Ascii("entries") !in v.fields || !v.fields[Ascii("entries")].Arr? then None
    else ParseStops(v.fields[Ascii("entries")].items)
  }

  /** The stops these bytes are the canonical form of. Anything else is an integrity error. */
  ghost function DecodeStops(raw: seq<Byte>): (r: Option<seq<Stop>>)
    ensures r.Some? ==> Storable(r.value) && StopBytes(r.value) == raw
  {
    var v := J.DecodeJson(AnyNumber, raw, StopByteLimit);
    var parsed := if v.Some? then ParseStopSet(v.value) else None;
    if parsed.None? || !Storable(parsed.value) || StopBytes(parsed.value) != raw then None else parsed
  }

  // What was written is what is read

  lemma ReasonParses(r: Reason)
    ensures ParseReason(ReasonText(r)) == Some(r)
  {
    hide Ascii;
    ReasonsDiffer();
  }

  lemma ReasonsDiffer()
    ensures |Ascii("group-left")| == 10 && |Ascii("group-closed")| == 12 && |Ascii("group-forked")| == 12
    ensures |Ascii("group-epoch-changed")| == 19 && |Ascii("group-card-changed")| == 18
    ensures |Ascii("group-invalid-original-author")| == 29 && Ascii("group-closed")[6] != Ascii("group-forked")[6]
  {
  }

  /** The names of the fields are different: their first two letters tell them apart. */
  lemma NamesDiffer()
    ensures Starts(Ascii("version"), 118, 101) && Starts(Ascii("operationId"), 111, 112) && Starts(Ascii("id"), 105, 100)
    ensures Starts(Ascii("groupId"), 103, 114) && Starts(Ascii("epochId"), 101, 112) && Starts(Ascii("reason"), 114, 101)
    ensures Starts(Ascii("observed"), 111, 98) && Starts(Ascii("entries"), 101, 110)
  {
  }

  predicate Starts(t: Text, a: Rune, b: Rune) {
    |t| >= 2 && t[0] == a && t[1] == b
  }

  lemma FieldsOf(s: Stop)
    ensures var f := StopFields(s);
      && NumberAt(f, Ascii("version")) == Some(1) && TextAt(f, Ascii("operationId")) == Some(s.operation)
      && AddressAt(f, Ascii("id")) == Some(s.id) && AddressAt(f, Ascii("groupId")) == Some(s.group)
      && AddressAt(f, Ascii("epochId")) == Some(s.epochId) && TextAt(f, Ascii("reason")) == Some(ReasonText(s.reason))
      && NumberAt(f, Ascii("observed")) == Some(s.observed)
  {
    hide Ascii, StopFields, AddressAt, NumberAt, TextAt, Decimal, HexText, ReasonText;
    FieldValues(s);
    DecimalFound(StopFields(s), Ascii("version"), 1);
    DecimalFound(StopFields(s), Ascii("observed"), s.observed);
    AddressFound(StopFields(s), Ascii("id"), s.id);
    AddressFound(StopFields(s), Ascii("groupId"), s.group);
    AddressFound(StopFields(s), Ascii("epochId"), s.epochId);
    TextFound(StopFields(s), Ascii("operationId"), s.operation);
    TextFound(StopFields(s), Ascii("reason"), ReasonText(s.reason));
  }

  ghost predicate Holds(fields: map<Text, J.Value>, k: Text, v: J.Value) {
    k in fields && fields[k] == v
  }

  lemma FieldValues(s: Stop)
    ensures var f := StopFields(s);
      && Holds(f, Ascii("version"), J.Num(Decimal(1))) && Holds(f, Ascii("operationId"), J.Str(s.operation))
      && Holds(f, Ascii("id"), J.Str(HexText(s.id, 64))) && Holds(f, Ascii("groupId"), J.Str(HexText(s.group, 64)))
      && Holds(f, Ascii("epochId"), J.Str(HexText(s.epochId, 64))) && Holds(f, Ascii("reason"), J.Str(ReasonText(s.reason)))
      && Holds(f, Ascii("observed"), J.Num(Decimal(s.observed)))
  {
    hide Ascii, Decimal, HexText, ReasonText;
    NamesDiffer();
  }

  lemma DecimalFound(fields: map<Text, J.Value>, k: Text, n: nat)
    requires Holds(fields, k, J.Num(Decimal(n)))
    ensures NumberAt(fields, k) == Some(n)
  {
    hide Decimal, ParseDecimal;
    DecimalParses(n);
  }

  lemma AddressFound(fields: map<Text, J.Value>, k: Text, id: Address)
    requires Holds(fields, k, J.Str(HexText(id, 64)))
    ensures AddressAt(fields, k) == Some(id)
  {
    hide HexText, ParseHex;
    HashFitsHex();
    HexParses(id, 64);
  }

  lemma TextFound(fields: map<Text, J.Value>, k: Text, t: Text)
    requires Holds(fields, k, J.Str(t))
    ensures TextAt(fields, k) == Some(t)
  {
  }

  lemma StopParses(s: Stop)
    ensures ParseStop(StopJson(s)) == Some(s)
  {
    hide StopFields, TextAt, NumberAt, AddressAt, ParseReason, Ascii, ReasonText;
    FieldsOf(s);
    ReasonParses(s.reason);
  }

  lemma {:induction false} StopsParse(entries: seq<Stop>, items: seq<J.Value>)
    requires |items| == |entries| && forall i :: 0 <= i < |items| ==> items[i] == StopJson(entries[i])
    ensures ParseStops(items) == Some(entries)
    decreases |entries|
  {
    hide ParseStop, StopJson;
    if entries != [] {
      var n := |entries| - 1;
      StopsParse(entries[..n], items[..n]);
      StopParses(entries[n]);
      assert entries == entries[..n] + [entries[n]];
    }
  }

  lemma StopSetParses(entries: seq<Stop>)
    ensures ParseStopSet(StopSetJson(entries)) == Some(entries)
  {
    hide Ascii, Decimal, ParseDecimal, ParseStops, StopJson;
    NamesDiffer();
    DecimalParses(1);
    StopsParse(entries, seq(|entries|, i requires 0 <= i < |entries| => StopJson(entries[i])));
  }

  lemma StopShallow(s: Stop)
    ensures J.Shallow(StopJson(s), 2)
  {
    hide HexText, Decimal, Ascii;
    forall k | k in StopFields(s) ensures J.Shallow(StopFields(s)[k], 3) {
    }
  }

  lemma StopsShallow(entries: seq<Stop>)
    ensures J.Shallow(StopSetJson(entries), 0)
  {
    hide StopJson, Decimal, Ascii;
    var items := seq(|entries|, i requires 0 <= i < |entries| => StopJson(entries[i]));
    forall i | 0 <= i < |items| ensures J.Shallow(items[i], 2) { StopShallow(entries[i]); }
    assert J.Shallow(J.Arr(items), 1);
  }

  lemma StopSize(s: Stop)
    ensures J.Size(StopJson(s)) <= 8
  {
    hide HexText, Decimal, Ascii, ReasonText;
    var v := StopJson(s);
    JP.ObjectSize(v, v.fields);
    var sizes := J.FieldSizes(v, v.fields);
    forall k | k in sizes ensures sizes[k] <= 1 {
    }
    Z.TotalBelow(sizes, 1);
    Z.SevenFields(s);
    assert |sizes| == |v.fields| by { assert sizes.Keys == v.fields.Keys; }
  }

  lemma {:induction false} ItemsSize(v: J.Value, items: seq<J.Value>, n: nat)
    requires v == J.Arr(items) && n <= |items| && forall i :: 0 <= i < |items| ==> J.Size(items[i]) <= 8
    ensures J.ItemSizes(v, items, n) <= (|items| - n) * 8
    decreases |items| - n
  {
    hide J.Size;
    if n < |items| { ItemsSize(v, items, n + 1); }
  }

  lemma EntriesSize(entries: seq<Stop>, items: seq<J.Value>)
    requires |items| == |entries| && forall i :: 0 <= i < |items| ==> items[i] == StopJson(entries[i])
    ensures J.Size(J.Arr(items)) <= 1 + |entries| * 8
  {
    hide StopJson;
    forall i | 0 <= i < |items| ensures J.Size(items[i]) <= 8 { StopSize(entries[i]); }
    ItemsSize(J.Arr(items), items, 0);
  }

  lemma StopsSize(entries: seq<Stop>)
    ensures J.Size(StopSetJson(entries)) <= 1 + 2 * (1 + |entries| * 8)
  {
    hide StopJson, Decimal, Ascii, Total;
    var items := seq(|entries|, i requires 0 <= i < |entries| => StopJson(entries[i]));
    EntriesSize(entries, items);
    SizeOfTwo(Ascii("version"), J.Num(Decimal(1)), Ascii("entries"), J.Arr(items), 1 + |entries| * 8);
  }

  lemma FewKeys(m: map<Text, nat>, a: Text, b: Text, n: nat)
    requires m.Keys == {a, b}
    ensures |m| * n <= 2 * n
  {
    CardinalitySubset(m.Keys, {a, b});
    assert |m| <= 2;
  }

  lemma SizeOfTwo(a: Text, x: J.Value, b: Text, y: J.Value, n: nat)
    requires J.Size(x) <= n && J.Size(y) <= n
    ensures J.Size(J.Obj(map[a := x, b := y])) <= 1 + 2 * n
  {
    var v := J.Obj(map[a := x, b := y]);
    JP.ObjectSize(v, v.fields);
    var sizes := J.FieldSizes(v, v.fields);
    assert sizes.Keys == {a, b} && forall k :: k in sizes ==> sizes[k] <= n;
    hide J.FieldSizes, J.Size;
    Z.TotalBelow(sizes, n);
    FewKeys(sizes, a, b, n);
  }

  /** The stored form of any storable list decodes to that list. */
  lemma StopsDecode(entries: seq<Stop>)
    requires Storable(entries)
    ensures |StopBytes(entries)| <= StopByteLimit && DecodeStops(StopBytes(entries)) == Some(entries)
  {
    hide J.Print, J.Proper, J.Shallow, J.Size, J.DecodeJson, StopSetJson, ParseStopSet, StopOk;
    StopsPrintable(entries);
    StopsShallow(entries);
    StopsSize(entries);
    Z.StopsFit(entries);
    JP.RoundTrip(AnyNumber, StopSetJson(entries), StopByteLimit);
    StopSetParses(entries);
  }

  /** So decoding succeeds on exactly the stored forms, and two lists with one stored form are one list. */
  lemma DecodesExactly(raw: seq<Byte>, entries: seq<Stop>)
    ensures DecodeStops(raw) == Some(entries) <==> Storable(entries) && StopBytes(entries) == raw
  {
    hide DecodeStops, Storable, StopBytes;
    if Storable(entries) { StopsDecode(entries); }
  }

  // Decoding as it runs

  /** The entries one by one, up to the first that is no stop. */
  method ReadItems(items: seq<J.Value>) returns (entries: Option<seq<Stop>>)
    ensures entries == ParseStops(items)
  {
    hide ParseStop;
    var read: seq<Stop> := [];
    for n := 0 to |items|
      invariant ParseStops(items[..n]) == Some(read)
    {
      assert items[..n + 1][..n] == items[..n];
      var stop := ParseStop(items[n]);
      if stop.None? {
        NoStop(items, n);
        return None;
      }
      read := read + [stop.value];
    }
    assert items[..|items|] == items;
    return Some(read);
  }

  lemma {:induction false} NoStop(items: seq<J.Value>, n: nat)
    requires n < |items| && ParseStop(items[n]).None?
    ensures ParseStops(items).None?
    decreases |items|
  {
    hide ParseStop;
    if n < |items| - 1 { NoStop(items[..|items| - 1], n); }
  }

  /** Every entry well formed, and no operation twice. */
  method CheckEntries(entries: seq<Stop>) returns (ok: bool)
    ensures ok == Storable(entries)
  {
    hide OperationOk;
    if |entries| > StopLimit { return false; }
    var seen: set<Text> := {};
    for n := 0 to |entries|
      invariant StopsOk(entries[..n])
      invariant forall i, j :: 0 <= i < j < n ==> entries[i].operation != entries[j].operation
      invariant forall op :: op in seen <==> exists i :: 0 <= i < n && entries[i].operation == op
    {
      if !StopOk(entries[n]) || entries[n].operation in seen { return false; }
      assert forall i :: 0 <= i < n ==> entries[..n][i] == entries[i];
      seen := seen + {entries[n].operation};
    }
    assert entries[..|entries|] == entries;
    return true;
  }

  method Decode(raw: seq<Byte>) returns (entries: Option<seq<Stop>>)
    ensures entries == DecodeStops(raw)
  {
    hide J.Print, J.Proper, J.Shallow, J.Size, J.DecodeJson, StopSetJson, ParseStops, Storable, StopOk, Ascii, NumberAt;
    var v := C.Decoded(AnyNumber, raw, StopByteLimit);
    if v.None? || !v.value.Obj? || NumberAt(v.value.fields, Ascii("version")) != Some(1) { return None; }
    if Ascii("entries") !in v.value.fields || !v.value.fields[Ascii("entries")].Arr? { return None; }
    var parsed := ReadItems(v.value.fields[Ascii("entries")].items);
    if parsed.None? { return None; }
    var ok := CheckEntries(parsed.value);
    if !ok { return None; }
    ok := Rewrites(parsed.value, raw);
    return if ok then parsed else None;
  }

  /** Whether the list, written again, gives the same bytes. */
  method Rewrites(entries: seq<Stop>, raw: seq<Byte>) returns (ok: bool)
    requires Storable(entries)
    ensures ok == (StopBytes(entries) == raw)
  {
    hide J.Print, J.Proper, J.Shallow, StopSetJson, StopOk;
    StopsPrintable(entries);
    StopsShallow(entries);
    Z.StopsFit(entries);
    var encoded := C.Canonical(AnyNumber, StopSetJson(entries));
    ok := encoded == Some(raw);
  }
}

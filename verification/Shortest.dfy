/** The canonical print against the decoder: of all that decodes to a value it is the shortest, and strings have no
    other spelling as short in lower-case digits. */
module Shortest {
  import opened Common
  import opened Texts
  import opened Json
  import opened JsonProofs

  // Strings

  /** However a character is spelled, its canonical spelling is no longer. */
  lemma EscapeIsShortest(d: seq<Byte>, at: nat)
    requires at < |d| && d[at] != 34 && ReadRune(d, at).Some?
    ensures var (r, next) := ReadRune(d, at).value; at + |Escape(r)| <= next
  {
    if d[at] != 92 {
      DecodeParts(d[at..]);
    }
  }

  lemma {:induction false} BodyIsShortest(d: seq<Byte>, at: nat, acc: Text, t: Text, end: nat)
    requires at <= |d| && ReadText(d, at, acc) == Some((acc + t, end))
    ensures at + |Body(t)| + 1 <= end
    decreases |d| - at
  {
    hide Escape, ReadRune;
    if d[at] == 34 {
      assert |acc + t| == |acc|;
      assert t == [];
    } else {
      var (r, next) := ReadRune(d, at).value;
      EscapeIsShortest(d, at);
      ReadTextAdds(d, next, acc + [r]);
      assert (acc + t)[..|acc| + 1] == acc + [r];
      assert t[0] == (acc + t)[|acc|] == r;
      assert acc + [r] + t[1..] == acc + t;
      BodyIsShortest(d, next, acc + [r], t[1..], end);
    }
  }

  /** Reading on only adds to what was read. */
  lemma {:induction false} ReadTextAdds(d: seq<Byte>, at: nat, acc: Text)
    requires at <= |d| && ReadText(d, at, acc).Some?
    ensures acc <= ReadText(d, at, acc).value.0
    decreases |d| - at
  {
    hide ReadRune;
    if d[at] != 34 {
      var (r, next) := ReadRune(d, at).value;
      ReadTextAdds(d, next, acc + [r]);
    }
  }

  /** Of everything the decoder reads as this string, its canonical print is the shortest. */
  lemma PrintTextIsShortest(t: Text, d: seq<Byte>)
    requires d != [] && d[0] == 34 && ReadText(d, 1, []) == Some((t, |d|))
    ensures |PrintText(t)| <= |d|
  {
    assert [] + t == t;
    BodyIsShortest(d, 1, [], t, |d|);
  }

  /** No escape from here to the end of the string has an upper-case digit. */
  predicate LowerCase(d: seq<Byte>, at: nat)
    requires at <= |d|
    decreases |d| - at
  {
    at == |d| || d[at] == 34 || ReadRune(d, at).None? ||
    (var next := ReadRune(d, at).value.1;
     (d[at] == 92 && d[at + 1] == 117 ==> forall i :: at + 2 <= i < next ==> !(65 <= d[i] <= 70)) && LowerCase(d, next))
  }

  /** A spelling as short as the canonical one, in lower-case digits, is the canonical one. */
  lemma ShortSpelling(d: seq<Byte>, at: nat)
    requires at < |d| && d[at] != 34 && ReadRune(d, at).Some?
    requires var (r, next) := ReadRune(d, at).value;
      next <= at + |Escape(r)| && (d[at] == 92 && d[at + 1] == 117 ==> forall i :: at + 2 <= i < next ==> !(65 <= d[i] <= 70))
    ensures var (r, next) := ReadRune(d, at).value; d[at..next] == Escape(r)
  {
    var (r, next) := ReadRune(d, at).value;
    if d[at] != 92 {
      DecodeParts(d[at..]);
      assert d[at..next] == d[at..][..next - at];
    } else if d[at + 1] != 117 {
      assert d[at..next] == [92, d[at + 1]];
    } else {
      UnitSpelled(d, at);
    }
  }

  lemma UnitSpelled(d: seq<Byte>, at: nat)
    requires at + 1 < |d| && d[at] == 92 && d[at + 1] == 117 && ReadRune(d, at).Some?
    requires var (r, next) := ReadRune(d, at).value; next <= at + |Escape(r)| && forall i :: at + 2 <= i < next ==> !(65 <= d[i] <= 70)
    ensures var (r, next) := ReadRune(d, at).value; d[at..next] == Escape(r)
  {
    hide HexDigit, HexValue;
    var (r, next) := ReadRune(d, at).value;
    var u := Unit(d, at + 2).value;
    assert next == at + 6 && r == u;
    assert Escape(r) == [92, 117, HexDigit(r / 4096), HexDigit(r / 256 % 16), HexDigit(r / 16 % 16), HexDigit(r % 16)];
    DigitSpelled(d[at + 2]);
    DigitSpelled(d[at + 3]);
    DigitSpelled(d[at + 4]);
    DigitSpelled(d[at + 5]);
    FourDigitsOf(HexValue(d[at + 2]).value, HexValue(d[at + 3]).value, HexValue(d[at + 4]).value, HexValue(d[at + 5]).value);
    assert d[at..next] == [d[at], d[at + 1], d[at + 2], d[at + 3], d[at + 4], d[at + 5]];
  }

  lemma FourDigitsOf(a: nat, b: nat, x: nat, y: nat)
    requires a < 16 && b < 16 && x < 16 && y < 16
    ensures var u := a * 4096 + b * 256 + x * 16 + y; u / 4096 == a && u / 256 % 16 == b && u / 16 % 16 == x && u % 16 == y
  {
    var u := a * 4096 + b * 256 + x * 16 + y;
    assert u / 256 == a * 16 + b;
    assert u / 16 == a * 256 + b * 16 + x;
  }

  lemma DigitSpelled(b: Byte)
    requires HexValue(b).Some? && !(65 <= b <= 70)
    ensures HexValue(b).value < 16 && HexDigit(HexValue(b).value) == b
  {
  }

  lemma {:induction false} BodyIsOnly(d: seq<Byte>, at: nat, acc: Text, t: Text, end: nat)
    requires at <= |d| && ReadText(d, at, acc) == Some((acc + t, end)) && end <= at + |Body(t)| + 1 && LowerCase(d, at)
    ensures d[at..end] == Body(t) + [34]
    decreases |d| - at
  {
    hide Escape, ReadRune;
    if d[at] == 34 {
      assert |acc + t| == |acc|;
      assert t == [];
    } else {
      var (r, next) := ReadRune(d, at).value;
      EscapeIsShortest(d, at);
      ReadTextAdds(d, next, acc + [r]);
      assert (acc + t)[..|acc| + 1] == acc + [r];
      assert t[0] == (acc + t)[|acc|] == r;
      assert acc + [r] + t[1..] == acc + t;
      BodyIsShortest(d, next, acc + [r], t[1..], end);
      ShortSpelling(d, at);
      BodyIsOnly(d, next, acc + [r], t[1..], end);
      assert d[at..end] == d[at..next] + d[next..end];
      assert Body(t) + [34] == Escape(r) + (Body(t[1..]) + [34]);
    }
  }

  lemma {:induction false} PrintIsLowerCase(d: seq<Byte>, at: nat, t: Text)
    requires At(d, at, Body(t) + [34]) && Unpaired(t)
    ensures LowerCase(d, at)
    decreases |t|
  {
    hide Escape, ReadRune, LowEscape, Encode;
    AtParts(d, at, Body(t), [34]);
    if t == [] {
      AtIndex(d, at, [34], 0);
    } else {
      var rest := t[1..];
      AtParts(d, at, Escape(t[0]), Body(rest));
      assert Body(t) + [34] == Escape(t[0]) + (Body(rest) + [34]);
      AtParts(d, at, Escape(t[0]), Body(rest) + [34]);
      if High(t[0]) {
        HexedLength(t[0]);
        assert |t| > 1 ==> !Low(t[0 + 1]);
        NoLowNext(d, at + 6, rest);
      }
      RuneReads(d, at, t[0]);
      PrintIsLowerCase(d, at + |Escape(t[0])|, rest);
      if d[at] == 92 && at + 1 < |d| && d[at + 1] == 117 {
        EscapeIsLowerCase(d, at, t[0]);
      }
    }
  }

  lemma EscapeIsLowerCase(d: seq<Byte>, at: nat, r: Rune)
    requires At(d, at, Escape(r)) && d[at] == 92 && at + 1 < |d| && d[at + 1] == 117
    ensures forall i :: at + 2 <= i < at + |Escape(r)| ==> !(65 <= d[i] <= 70)
  {
    forall i | at + 2 <= i < at + |Escape(r)| ensures !(65 <= d[i] <= 70) {
      AtIndex(d, at, Escape(r), 0);
      AtIndex(d, at, Escape(r), i - at);
    }
  }

  /** So the canonical print of a string is the one shortest spelling in lower-case digits: control characters and
      halves escaped, by a letter where there is one, and everything else as it stands. */
  lemma PrintTextExactly(t: Text, d: seq<Byte>)
    requires Unpaired(t)
    ensures d == PrintText(t) <==> (
      && d != [] && d[0] == 34 && ReadText(d, 1, []) == Some((t, |d|)) && LowerCase(d, 1)
      && forall e :: e != [] && e[0] == 34 && ReadText(e, 1, []) == Some((t, |e|)) ==> |d| <= |e|)
  {
    hide Body, ReadText, LowerCase;
    var p := PrintText(t);
    assert p == [34] + (Body(t) + [34]);
    assert p[0..0 + |p|] == p;
    PrintedTextReads(p, 0, t);
    AtParts(p, 0, [34], Body(t) + [34]);
    PrintIsLowerCase(p, 1, t);
    forall e | e != [] && e[0] == 34 && ReadText(e, 1, []) == Some((t, |e|)) ensures |p| <= |e| {
      PrintTextIsShortest(t, e);
    }
    if d != [] && d[0] == 34 && ReadText(d, 1, []) == Some((t, |d|)) && LowerCase(d, 1) && |d| <= |p| {
      assert [] + t == t;
      BodyIsOnly(d, 1, [], t, |d|);
      assert d == [d[0]] + d[1..|d|];
    }
  }

  // Values

  /** The canonical spelling of a number is no longer than the token. */
  ghost predicate NeverLonger(f: Spelling) {
    forall token :: IsNumber(token) && f(token).Some? ==> |f(token).value| <= |token|
  }

  ghost predicate AllProper(f: Spelling, items: seq<Value>) {
    forall i :: 0 <= i < |items| ==> Proper(f, items[i])
  }

  /** The items from the n-th on, each with the comma or bracket behind it. */
  ghost function ItemLengths(f: Spelling, items: seq<Value>, n: nat): nat
    requires AllProper(f, items) && n <= |items|
    decreases |items| - n
  {
    if n == |items| then 0 else |Print(f, items[n])| + 1 + ItemLengths(f, items, n + 1)
  }

  lemma {:induction false} ItemsLength(f: Spelling, v: Value, items: seq<Value>, n: nat)
    requires v == Arr(items) && Proper(f, v) && AllProper(f, items) && n <= |items|
    ensures |PrintItems(f, v, items, n)| == ItemLengths(f, items, n) - (if n == 0 < |items| then 1 else 0)
    decreases |items| - n
  {
    hide Proper, Print;
    if n < |items| {
      ItemParts(f, v, items, n);
      ItemsLength(f, v, items, n + 1);
    }
  }

  lemma ArrayLength(f: Spelling, items: seq<Value>)
    requires AllProper(f, items)
    ensures Proper(f, Arr(items))
    ensures |Print(f, Arr(items))| == if items == [] then 2 else 1 + ItemLengths(f, items, 0)
  {
    hide PrintItems;
    ArrayPrint(f, Arr(items), items);
    ItemsLength(f, Arr(items), items, 0);
  }

  ghost predicate AllFieldsProper(f: Spelling, fields: map<Text, Value>) {
    forall k :: k in fields ==> Unpaired(k) && Proper(f, fields[k])
  }

  /** A field with its colon, and the comma or brace behind it. */
  ghost function FieldLength(f: Spelling, k: Text, v: Value): nat
    requires Proper(f, v)
  {
    |PrintText(k)| + 2 + |Print(f, v)|
  }

  ghost function FieldLengths(f: Spelling, fields: map<Text, Value>): map<Text, nat>
    requires AllFieldsProper(f, fields)
  {
    map k | k in fields :: FieldLength(f, k, fields[k])
  }

  ghost function Among(lengths: map<Text, nat>, keys: seq<Text>): map<Text, nat> {
    map k | k in lengths && k in keys :: lengths[k]
  }

  lemma AmongStep(lengths: map<Text, nat>, keys: seq<Text>)
    requires keys != [] && Distinct(keys) && forall k :: k in keys ==> k in lengths
    ensures Total(Among(lengths, keys)) == lengths[keys[0]] + Total(Among(lengths, keys[1..]))
  {
    TotalRemove(Among(lengths, keys), keys[0]);
    assert forall k :: k in keys[1..] ==> k != keys[0];
    assert Among(lengths, keys) - {keys[0]} == Among(lengths, keys[1..]);
  }

  lemma {:induction false} FieldsLength(f: Spelling, v: Value, fields: map<Text, Value>, keys: seq<Text>)
    requires v == Obj(fields) && Proper(f, v) && AllFieldsProper(f, fields) && Distinct(keys) && |keys| <= |fields|
    requires forall k :: k in keys ==> k in fields
    ensures |PrintFields(f, v, fields, keys)| == Total(Among(FieldLengths(f, fields), keys)) - (if |keys| == |fields| > 0 then 1 else 0)
    decreases |keys|
  {
    hide Proper, Print, PrintText;
    if keys == [] {
      assert Among(FieldLengths(f, fields), keys) == map[];
      TotalEmpty<Text>();
    } else {
      FieldParts(f, v, fields, keys);
      AmongStep(FieldLengths(f, fields), keys);
      FieldsLength(f, v, fields, keys[1..]);
      FieldSplit(f, v, fields, keys[0], []);
    }
  }

  lemma ObjectLength(f: Spelling, fields: map<Text, Value>)
    requires AllFieldsProper(f, fields)
    ensures Proper(f, Obj(fields))
    ensures |Print(f, Obj(fields))| == if fields == map[] then 2 else 1 + Total(FieldLengths(f, fields))
  {
    hide Print, PrintFields;
    var v := Obj(fields);
    assert Proper(f, v);
    ObjectPrint(f, v, fields);
    var keys := SortedKeys(fields.Keys);
    SortedDistinct(fields.Keys);
    FieldsLength(f, v, fields, keys);
    assert Among(FieldLengths(f, fields), keys) == FieldLengths(f, fields);
    if fields == map[] {
      assert FieldLengths(f, fields) == map[];
      TotalEmpty<Text>();
    }
  }

  /** Another field, or another value for an old one, adds at most its own length. */
  lemma FieldAdds(f: Spelling, fields: map<Text, Value>, k: Text, v: Value)
    requires AllFieldsProper(f, fields) && Unpaired(k) && Proper(f, v)
    ensures AllFieldsProper(f, fields[k := v])
    ensures Total(FieldLengths(f, fields[k := v])) <= Total(FieldLengths(f, fields)) + FieldLength(f, k, v)
  {
    hide Proper, FieldLength;
    var more := FieldLengths(f, fields[k := v]);
    TotalRemove(more, k);
    assert more - {k} == FieldLengths(f, fields) - {k};
    if k in fields {
      TotalRemove(FieldLengths(f, fields), k);
    } else {
      assert FieldLengths(f, fields) - {k} == FieldLengths(f, fields);
    }
  }

  /** What was read from here is at least as long as the canonical print of the value. */
  ghost predicate Covered(f: Spelling, r: Out<Value>, from: nat) {
    r.Good? ==> Proper(f, r.value) && from + |Print(f, r.value)| <= r.at
  }

  lemma LeafIsCovered(f: Spelling, d: seq<Byte>, from: nat, nodes: nat, depth: nat)
    requires Canonic(f) && NeverLonger(f) && from <= |d| && Space(d, from) < |d| && d[Space(d, from)] !in {123, 91}
    ensures Covered(f, ReadValue(f, d, from, nodes, depth), from)
  {
    hide ScanNumber, ReadFields, ReadItems;
    var at := Space(d, from);
    LeafIsSound(f, d, from, nodes, depth);
    if ReadValue(f, d, from, nodes, depth).Good? && d[at] == 34 {
      var t := ReadText(d, at + 1, []).value;
      assert [] + t.0 == t.0;
      BodyIsShortest(d, at + 1, [], t.0, t.1);
    } else if ReadValue(f, d, from, nodes, depth).Good? && d[at] !in {116, 102, 110} {
      TokenAlone(d, at);
    }
  }

  lemma {:induction false} ValueIsShortest(f: Spelling, d: seq<Byte>, from: nat, nodes: nat, depth: nat)
    requires Canonic(f) && NeverLonger(f) && from <= |d|
    ensures Covered(f, ReadValue(f, d, from, nodes, depth), from)
    decreases |d| - from, 0
  {
    hide ReadText, ReadItems, ReadFields, ScanNumber, Covered, Canonic, NeverLonger, Print, Proper;
    var at := Space(d, from);
    BadIsCovered(f, from);
    if at == |d| || nodes + 1 > MaxNodes || depth > MaxDepth {
    } else if d[at] == 91 {
      if Here(d, Space(d, at + 1), 93) {
        EmptyIsCovered(f, from, Space(d, at + 1) + 1, nodes);
      } else {
        ItemsAreShortest(f, d, Space(d, at + 1), nodes + 1, depth, []);
        ItemsAreCovered(f, ReadItems(f, d, Space(d, at + 1), nodes + 1, depth, []), from, Space(d, at + 1));
      }
    } else if d[at] == 123 {
      if Here(d, Space(d, at + 1), 125) {
        EmptyIsCovered(f, from, Space(d, at + 1) + 1, nodes);
      } else {
        FieldsAreShortest(f, d, Space(d, at + 1), nodes + 1, depth, map[]);
        FieldsAreCovered(f, ReadFields(f, d, Space(d, at + 1), nodes + 1, depth, map[]), from, Space(d, at + 1));
      }
    } else {
      LeafIsCovered(f, d, from, nodes, depth);
    }
  }

  lemma BadIsCovered(f: Spelling, from: nat)
    ensures Covered(f, Bad, from)
  {
  }

  lemma EmptyIsCovered(f: Spelling, from: nat, at: nat, nodes: nat)
    requires from + 2 <= at
    ensures Covered(f, Good(Arr([]), at, nodes + 1), from) && Covered(f, Good(Obj(map[]), at, nodes + 1), from)
  {
    hide Print, Proper;
    ArrayLength(f, []);
    ObjectLength(f, map[]);
  }

  /** The items read after those read before. */
  ghost predicate MoreItems(f: Spelling, r: Out<Value>, from: nat, acc: seq<Value>) {
    r.Good? ==>
      && r.value.Arr? && acc <= r.value.items && |acc| < |r.value.items| && AllProper(f, r.value.items)
      && from + ItemLengths(f, r.value.items, |acc|) <= r.at
  }

  lemma ItemsAreCovered(f: Spelling, r: Out<Value>, from: nat, start: nat)
    requires MoreItems(f, r, start, []) && from < start
    ensures Covered(f, r, from)
  {
    hide Print, Proper;
    if r.Good? {
      ArrayLength(f, r.value.items);
    }
  }

  lemma {:induction false} ItemsAreShortest(f: Spelling, d: seq<Byte>, from: nat, nodes: nat, depth: nat, acc: seq<Value>)
    requires Canonic(f) && NeverLonger(f) && from <= |d| && AllProper(f, acc)
    ensures MoreItems(f, ReadItems(f, d, from, nodes, depth, acc), from, acc)
    decreases |d| - from, 1
  {
    hide ReadValue, Canonic, NeverLonger, Print, Proper;
    var item := ReadValue(f, d, from, nodes, depth + 1);
    ValueIsShortest(f, d, from, nodes, depth + 1);
    if item.Good? {
      var at := Space(d, item.at);
      var more := acc + [item.value];
      assert AllProper(f, more);
      if Here(d, at, 93) {
        assert ItemLengths(f, more, |acc|) == |Print(f, item.value)| + 1 + ItemLengths(f, more, |more|);
      } else if Here(d, at, 44) {
        ItemsAreShortest(f, d, at + 1, item.nodes, depth, more);
        if ReadItems(f, d, at + 1, item.nodes, depth, more).Good? {
          OneMoreItem(f, ReadItems(f, d, at + 1, item.nodes, depth, more), acc, item.value);
        }
      }
    }
  }

  lemma OneMoreItem(f: Spelling, r: Out<Value>, acc: seq<Value>, item: Value)
    requires r.Good? && r.value.Arr? && acc + [item] <= r.value.items && AllProper(f, r.value.items)
    ensures acc <= r.value.items && Proper(f, item)
    ensures ItemLengths(f, r.value.items, |acc|) == |Print(f, item)| + 1 + ItemLengths(f, r.value.items, |acc| + 1)
  {
    hide Print, Proper;
    assert r.value.items[|acc|] == (acc + [item])[|acc|];
  }

  /** The fields read on top of those read before. */
  ghost predicate MoreFields(f: Spelling, r: Out<Value>, from: nat, acc: map<Text, Value>)
    requires AllFieldsProper(f, acc)
  {
    r.Good? ==>
      && r.value.Obj? && AllFieldsProper(f, r.value.fields)
      && from + Total(FieldLengths(f, r.value.fields)) <= r.at + Total(FieldLengths(f, acc)) && r.value.fields != map[]
  }

  lemma FieldsAreCovered(f: Spelling, r: Out<Value>, from: nat, start: nat)
    requires MoreFields(f, r, start, map[]) && from < start
    ensures Covered(f, r, from)
  {
    hide Print, Proper;
    assert FieldLengths(f, map[]) == map[];
    TotalEmpty<Text>();
    if r.Good? {
      ObjectLength(f, r.value.fields);
    }
  }

  lemma KeyIsShortest(d: seq<Byte>, from: nat)
    requires from <= |d| && ReadKey(d, from).Some?
    ensures Unpaired(ReadKey(d, from).value.0) && from + |PrintText(ReadKey(d, from).value.0)| + 1 <= ReadKey(d, from).value.1
  {
    hide ReadText, Unpaired;
    var at := Space(d, from);
    var k := ReadText(d, at + 1, []).value;
    TextDecodes(d, at + 1);
    assert [] + k.0 == k.0;
    BodyIsShortest(d, at + 1, [], k.0, k.1);
  }

  lemma {:induction false} FieldsAreShortest(f: Spelling, d: seq<Byte>, from: nat, nodes: nat, depth: nat, acc: map<Text, Value>)
    requires Canonic(f) && NeverLonger(f) && from <= |d| && AllFieldsProper(f, acc)
    ensures MoreFields(f, ReadFields(f, d, from, nodes, depth, acc), from, acc)
    decreases |d| - from, 1
  {
    hide ReadValue, ReadKey, Canonic, NeverLonger, Print, Proper, FieldLengths, AllFieldsProper, PrintText, Unpaired;
    var k := ReadKey(d, from);
    if k.Some? {
      KeyIsShortest(d, from);
      var field := ReadValue(f, d, k.value.1, nodes, depth + 1);
      ValueIsShortest(f, d, k.value.1, nodes, depth + 1);
      if field.Good? {
        var at := Space(d, field.at);
        FieldAdds(f, acc, k.value.0, field.value);
        assert k.value.0 in acc[k.value.0 := field.value];
        if Here(d, at, 44) {
          FieldsAreShortest(f, d, at + 1, field.nodes, depth, acc[k.value.0 := field.value]);
        }
      }
    }
  }

  /** Of everything that decodes to a value, with numbers spelled no shorter than canonically, its print is the
      shortest: no space, no repeated key, no longer escape. */
  lemma PrintIsShortest(f: Spelling, d: seq<Byte>, maxBytes: int)
    requires Canonic(f) && NeverLonger(f) && DecodeJson(f, d, maxBytes).Some?
    ensures var v := DecodeJson(f, d, maxBytes).value; Proper(f, v) && |Print(f, v)| <= |d|
  {
    hide ReadValue, Print, Proper, Canonic, NeverLonger;
    ValueIsShortest(f, d, 0, 0, 0);
  }

  // Limits

  /** Some value lies `n` levels down. */
  ghost predicate Nests(v: Value, n: nat)
    decreases n
  {
    || n == 0
    || (v.Arr? && exists i :: 0 <= i < |v.items| && Nests(v.items[i], n - 1))
    || (v.Obj? && exists k :: k in v.fields && Nests(v.fields[k], n - 1))
  }

  lemma {:induction false} ShallowExactly(v: Value, depth: nat)
    requires depth <= 25
    ensures Shallow(v, depth) <==> !Nests(v, 25 - depth)
    decreases 25 - depth
  {
    if depth < 25 {
      if v.Arr? {
        forall i | 0 <= i < |v.items| ensures Shallow(v.items[i], depth + 1) <==> !Nests(v.items[i], 24 - depth) {
          ShallowExactly(v.items[i], depth + 1);
        }
      } else if v.Obj? {
        forall k | k in v.fields ensures Shallow(v.fields[k], depth + 1) <==> !Nests(v.fields[k], 24 - depth) {
          ShallowExactly(v.fields[k], depth + 1);
        }
      }
    }
  }

  /** A print decodes, to its value, exactly where nothing lies 25 levels down, there are at most 100,000 values
      in all, and it is within the size asked for. */
  lemma PrintDecodesExactly(f: Spelling, v: Value, maxBytes: int)
    requires Canonic(f) && Proper(f, v)
    ensures DecodeJson(f, Print(f, v), maxBytes) == Some(v) <==>
      !Nests(v, 25) && Size(v) <= 100_000 && |Print(f, v)| <= maxBytes
  {
    hide Proper, Shallow, Size, Print, ReadValue, Nests, Canonic;
    ShallowExactly(v, 0);
    if DecodeJson(f, Print(f, v), maxBytes) == Some(v) {
      DecodedPrintsBack(f, Print(f, v), maxBytes);
    } else if !Nests(v, 25) && Size(v) <= 100_000 && |Print(f, v)| <= maxBytes {
      RoundTrip(f, v, maxBytes);
    }
  }
}

/** Printing and decoding are inverse, and decoding only yields what printing can carry. */
module JsonProofs {
  import opened Common
  import opened Texts
  import opened Json

  ghost predicate At(d: seq<Byte>, at: nat, s: seq<Byte>) {
    at + |s| <= |d| && d[at..at + |s|] == s
  }

  lemma AtParts(d: seq<Byte>, at: nat, a: seq<Byte>, b: seq<Byte>)
    requires At(d, at, a + b)
    ensures At(d, at, a) && At(d, at + |a|, b)
  {
    assert d[at..at + |a|] == d[at..at + |a + b|][..|a|];
    assert d[at + |a|..at + |a| + |b|] == d[at..at + |a + b|][|a|..];
  }

  lemma AtIndex(d: seq<Byte>, at: nat, s: seq<Byte>, i: nat)
    requires At(d, at, s) && i < |s|
    ensures d[at + i] == s[i]
  {
    assert d[at..at + |s|][i] == s[i];
  }

  // Strings

  lemma HexRoundTrip(n: nat)
    requires n < 16
    ensures HexValue(HexDigit(n)) == Some(n)
  {
  }

  lemma FourHexDigits(r: nat)
    requires r < 0x10000
    ensures r == r / 4096 * 4096 + r / 256 % 16 * 256 + r / 16 % 16 * 16 + r % 16
  {
    assert r / 16 == r / 256 * 16 + r / 16 % 16 && r / 256 == r / 4096 * 16 + r / 256 % 16;
  }

  lemma UnitReads(d: seq<Byte>, at: nat, r: Rune)
    requires r < 0x10000
    requires At(d, at, [92, 117, HexDigit(r / 4096), HexDigit(r / 256 % 16), HexDigit(r / 16 % 16), HexDigit(r % 16)])
    ensures d[at] == 92 && d[at + 1] == 117 && Unit(d, at + 2) == Some(r)
  {
    hide HexDigit, HexValue;
    var s := [92, 117, HexDigit(r / 4096), HexDigit(r / 256 % 16), HexDigit(r / 16 % 16), HexDigit(r % 16)];
    AtIndex(d, at, s, 0);
    AtIndex(d, at, s, 1);
    AtIndex(d, at, s, 2);
    AtIndex(d, at, s, 3);
    AtIndex(d, at, s, 4);
    AtIndex(d, at, s, 5);
    HexRoundTrip(r / 4096);
    HexRoundTrip(r / 256 % 16);
    HexRoundTrip(r / 16 % 16);
    HexRoundTrip(r % 16);
    FourHexDigits(r);
  }

  predicate Hexed(r: Rune) {
    (r < 32 && r !in {8, 9, 10, 12, 13}) || Half(r)
  }

  lemma RuneReads(d: seq<Byte>, at: nat, r: Rune)
    requires At(d, at, Escape(r)) && (High(r) ==> !LowEscape(d, at + 6))
    ensures at < |d| && d[at] != 34 && ReadRune(d, at) == Some((r, at + |Escape(r)|))
  {
    hide HexDigit, HexValue, Unit;
    AtIndex(d, at, Escape(r), 0);
    if Hexed(r) {
      UnitReads(d, at, r);
    } else if |Escape(r)| == 2 && Escape(r)[0] == 92 {
      AtIndex(d, at, Escape(r), 1);
    } else {
      PlainReads(d, at, r);
    }
  }

  lemma PlainReads(d: seq<Byte>, at: nat, r: Rune)
    requires At(d, at, Encode(r)) && 32 <= r && r != 34 && r != 92 && !Half(r)
    ensures at < |d| && d[at] >= 32 && d[at] != 34 && d[at] != 92 && ReadRune(d, at) == Some((r, at + |Encode(r)|))
  {
    hide Decode;
    AtIndex(d, at, Encode(r), 0);
    var rest := d[at + |Encode(r)|..];
    assert d[at..] == Encode(r) + rest;
    EncodeThenDecode(r, rest);
  }

  lemma NotLow(d: seq<Byte>, at: nat, r: Rune)
    requires At(d, at, Escape(r)) && !Low(r)
    ensures !LowEscape(d, at)
  {
    hide HexDigit, HexValue, Unit;
    AtIndex(d, at, Escape(r), 0);
    if Hexed(r) {
      UnitReads(d, at, r);
    } else if |Escape(r)| == 2 {
      AtIndex(d, at, Escape(r), 1);
    }
  }

  /** What follows in a printed string never completes a pair. */
  lemma NoLowNext(d: seq<Byte>, at: nat, t: Text)
    requires At(d, at, Body(t) + [34]) && (t != [] ==> !Low(t[0]))
    ensures !LowEscape(d, at)
  {
    hide HexDigit, HexValue, Unit, Escape;
    AtParts(d, at, Body(t), [34]);
    if t == [] {
      AtIndex(d, at, [34], 0);
    } else {
      AtParts(d, at, Escape(t[0]), Body(t[1..]));
      NotLow(d, at, t[0]);
    }
  }

  lemma {:induction false} TextReads(d: seq<Byte>, at: nat, t: Text, acc: Text)
    requires At(d, at, Body(t) + [34]) && Unpaired(t)
    ensures ReadText(d, at, acc) == Some((acc + t, at + |Body(t)| + 1))
    decreases |t|
  {
    hide Escape, ReadRune, LowEscape;
    AtParts(d, at, Body(t), [34]);
    if t == [] {
      AtIndex(d, at, [34], 0);
      assert acc + t == acc;
    } else {
      var rest := t[1..];
      AtParts(d, at, Escape(t[0]), Body(rest));
      assert Body(t) + [34] == Escape(t[0]) + (Body(rest) + [34]);
      AtParts(d, at, Escape(t[0]), Body(rest) + [34]);
      if High(t[0]) {
        HexedLength(t[0]);
        assert |t| > 1 ==> !Low(t[0 + 1]);
        NoLowNext(d, at + 6, rest);
      }
      RuneReads(d, at, t[0]);
      TextReads(d, at + |Escape(t[0])|, rest, acc + [t[0]]);
      assert acc + [t[0]] + rest == acc + t;
    }
  }

  lemma HexedLength(r: Rune)
    requires High(r)
    ensures |Escape(r)| == 6
  {
  }

  lemma PrintedTextReads(d: seq<Byte>, at: nat, t: Text)
    requires At(d, at, PrintText(t)) && Unpaired(t)
    ensures at < |d| && d[at] == 34 && ReadText(d, at + 1, []) == Some((t, at + |PrintText(t)|))
  {
    hide Body, ReadText;
    assert PrintText(t) == [34] + (Body(t) + [34]);
    AtParts(d, at, [34], Body(t) + [34]);
    AtIndex(d, at, [34], 0);
    TextReads(d, at + 1, t, []);
    assert [] + t == t;
  }

  // Numbers

  predicate Ends(d: seq<Byte>, at: nat) {
    at >= |d| || (!IsDigit(d[at]) && d[at] !in {46, 101, 69})
  }

  lemma {:induction false} DigitsSame(d: seq<Byte>, at: nat, s: seq<Byte>, i: nat)
    requires At(d, at, s) && i <= |s| && (at + |s| < |d| ==> !IsDigit(d[at + |s|]))
    ensures Digits(d, at + i) == at + Digits(s, i)
    decreases |s| - i
  {
    if i < |s| {
      AtIndex(d, at, s, i);
      if IsDigit(s[i]) { DigitsSame(d, at, s, i + 1); }
    }
  }

  /** A number scans the same inside a larger input, provided what follows cannot continue it. */
  lemma NumberSame(d: seq<Byte>, at: nat, s: seq<Byte>)
    requires At(d, at, s) && Ends(d, at + |s|) && ScanNumber(s, 0).Some?
    ensures ScanNumber(d, at) == Some(at + ScanNumber(s, 0).value)
  {
    hide Digits;
    WholeSame(d, at, s);
    var whole := ScanWhole(s, 0).value;
    WholeEnds(s);
    FractionSame(d, at, s, whole);
    var fraction := ScanFraction(s, whole).value;
    ExponentSame(d, at, s, fraction);
  }

  lemma WholeEnds(s: seq<Byte>)
    ensures ScanWhole(s, 0).Some? ==> ScanWhole(s, 0).value <= |s|
  {
  }

  lemma WholeSame(d: seq<Byte>, at: nat, s: seq<Byte>)
    requires At(d, at, s) && Ends(d, at + |s|) && ScanWhole(s, 0).Some?
    ensures ScanWhole(d, at) == Some(at + ScanWhole(s, 0).value)
  {
    hide Digits;
    AtIndex(d, at, s, 0);
    var first := if Here(s, 0, 45) then 1 else 0;
    AtIndex(d, at, s, first);
    DigitsSame(d, at, s, first);
  }

  lemma FractionSame(d: seq<Byte>, at: nat, s: seq<Byte>, i: nat)
    requires At(d, at, s) && Ends(d, at + |s|) && i <= |s| && ScanFraction(s, i).Some?
    ensures ScanFraction(d, at + i) == Some(at + ScanFraction(s, i).value) && ScanFraction(s, i).value <= |s|
  {
    hide Digits;
    if i < |s| {
      AtIndex(d, at, s, i);
      DigitsSame(d, at, s, i + 1);
    }
  }

  lemma ExponentSame(d: seq<Byte>, at: nat, s: seq<Byte>, i: nat)
    requires At(d, at, s) && Ends(d, at + |s|) && i <= |s| && ScanExponent(s, i).Some?
    ensures ScanExponent(d, at + i) == Some(at + ScanExponent(s, i).value)
  {
    hide Digits;
    if i < |s| && s[i] in {101, 69} {
      AtIndex(d, at, s, i);
      var first := if Here(s, i + 1, 43) || Here(s, i + 1, 45) then i + 2 else i + 1;
      ExponentRoom(s, i);
      AtIndex(d, at, s, i + 1);
      DigitsSame(d, at, s, first);
    } else if i < |s| {
      AtIndex(d, at, s, i);
    }
  }

  lemma ExponentRoom(s: seq<Byte>, i: nat)
    requires i < |s| && s[i] in {101, 69} && ScanExponent(s, i).Some?
    ensures i + 1 < |s|
  {
  }

  // Values

  lemma NoSpace(d: seq<Byte>, at: nat)
    requires at < |d| && !IsSpace(d[at])
    ensures Space(d, at) == at
  {
  }

  lemma NumberStart(s: seq<Byte>)
    requires ScanNumber(s, 0).Some?
    ensures s != [] && (s[0] == 45 || IsDigit(s[0]))
  {
    hide Digits;
  }

  lemma NumberReads(f: Spelling, d: seq<Byte>, from: nat, nodes: nat, depth: nat, token: seq<Byte>)
    requires IsNumber(token) && f(token) == Some(token) && At(d, from, token) && Ends(d, from + |token|)
    requires nodes + 1 <= MaxNodes && depth <= MaxDepth
    ensures ReadValue(f, d, from, nodes, depth) == Good(Num(token), from + |token|, nodes + 1)
  {
    hide ScanNumber, Digits, ReadFields, ReadItems, ReadText;
    NumberStart(token);
    AtIndex(d, from, token, 0);
    NoSpace(d, from);
    NumberSame(d, from, token);
  }

  lemma LiteralReads(f: Spelling, d: seq<Byte>, from: nat, nodes: nat, depth: nat, v: Value)
    requires v.Null? || v.Bool? 
    requires At(d, from, Print(f, v)) && nodes + 1 <= MaxNodes && depth <= MaxDepth
    ensures ReadValue(f, d, from, nodes, depth) == Good(v, from + |Print(f, v)|, nodes + 1)
  {
    hide ScanNumber, Digits, ReadFields, ReadItems, ReadText;
    AtIndex(d, from, Print(f, v), 0);
    NoSpace(d, from);
  }

  lemma StringReads(f: Spelling, d: seq<Byte>, from: nat, nodes: nat, depth: nat, t: Text)
    requires Unpaired(t) && At(d, from, PrintText(t)) && nodes + 1 <= MaxNodes && depth <= MaxDepth
    ensures ReadValue(f, d, from, nodes, depth) == Good(Str(t), from + |PrintText(t)|, nodes + 1)
  {
    hide ScanNumber, Digits, ReadFields, ReadItems, ReadText, PrintText;
    PrintedTextReads(d, from, t);
    NoSpace(d, from);
  }

  /** A separator after a value: nothing that could continue a number. */
  lemma Separator(d: seq<Byte>, at: nat)
    requires at < |d| && d[at] in {44, 93, 125, 58}
    ensures Ends(d, at) && Space(d, at) == at
  {
  }

  lemma {:induction false} PrintedStart(f: Spelling, v: Value)
    requires Proper(f, v)
    ensures Print(f, v) != [] && !IsSpace(Print(f, v)[0]) && Print(f, v)[0] !in {93, 125, 44}
  {
    if v.Num? { NumberStart(v.token); }
  }

  lemma ItemParts(f: Spelling, v: Value, items: seq<Value>, n: nat)
    requires v == Arr(items) && Proper(f, v) && n < |items|
    ensures PrintItems(f, v, items, n) == (if n > 0 then [44] else []) + (Print(f, items[n]) + PrintItems(f, v, items, n + 1))
  {
  }

  /** Where an array's later items begin: with a comma, or with the closing bracket. */
  lemma AfterItem(f: Spelling, v: Value, items: seq<Value>, n: nat, d: seq<Byte>, at: nat)
    requires v == Arr(items) && Proper(f, v) && 0 < n <= |items|
    requires At(d, at, PrintItems(f, v, items, n) + [93])
    ensures at < |d| && d[at] == (if n == |items| then 93 else 44)
    ensures n < |items| ==> At(d, at + 1, Print(f, items[n]) + PrintItems(f, v, items, n + 1) + [93])
  {
    hide Print;
    if n == |items| {
      AtIndex(d, at, PrintItems(f, v, items, n) + [93], 0);
    } else {
      ItemParts(f, v, items, n);
      var rest := Print(f, items[n]) + PrintItems(f, v, items, n + 1) + [93];
      assert PrintItems(f, v, items, n) + [93] == [44] + rest;
      AtParts(d, at, [44], rest);
      AtIndex(d, at, [44], 0);
    }
  }

  lemma {:induction false} ValueReads(f: Spelling, d: seq<Byte>, from: nat, nodes: nat, depth: nat, v: Value)
    requires Proper(f, v) && Shallow(v, depth) && nodes + Size(v) <= MaxNodes
    requires At(d, from, Print(f, v)) && Ends(d, from + |Print(f, v)|)
    ensures ReadValue(f, d, from, nodes, depth) == Good(v, from + |Print(f, v)|, nodes + Size(v))
    decreases v, 1, 0
  {
    match v
    case Null => LiteralReads(f, d, from, nodes, depth, v);
    case Bool(_) => LiteralReads(f, d, from, nodes, depth, v);
    case Num(token) => NumberReads(f, d, from, nodes, depth, token);
    case Str(t) => StringReads(f, d, from, nodes, depth, t);
    case Arr(items) => ArrayReads(f, d, from, nodes, depth, v, items);
    case Obj(fields) => ObjectReads(f, d, from, nodes, depth, v, fields);
  }

  /** One step of the decoder at an opening bracket. */
  lemma OpensArray(f: Spelling, d: seq<Byte>, from: nat, nodes: nat, depth: nat)
    requires from + 1 < |d| && d[from] == 91 && !IsSpace(d[from + 1]) && nodes + 1 <= MaxNodes && depth <= MaxDepth
    ensures ReadValue(f, d, from, nodes, depth)
      == if d[from + 1] == 93 then Good(Arr([]), from + 2, nodes + 1) else ReadItems(f, d, from + 1, nodes + 1, depth, [])
  {
    hide ScanNumber, ReadFields, ReadItems, ReadText;
    NoSpace(d, from);
    NoSpace(d, from + 1);
  }

  /** One step of the decoder after an item. */
  lemma StepsItem(f: Spelling, d: seq<Byte>, from: nat, nodes: nat, depth: nat, acc: seq<Value>, item: Value, at: nat, more: nat)
    requires from <= |d| && ReadValue(f, d, from, nodes, depth + 1) == Good(item, at, more)
    requires at < |d| && d[at] in {44, 93}
    ensures ReadItems(f, d, from, nodes, depth, acc)
      == if d[at] == 93 then Good(Arr(acc + [item]), at + 1, more) else ReadItems(f, d, at + 1, more, depth, acc + [item])
  {
    hide ScanNumber, ReadFields, ReadValue, ReadText;
    NoSpace(d, at);
  }

  lemma ArrayPrint(f: Spelling, v: Value, items: seq<Value>)
    requires v == Arr(items) && Proper(f, v)
    ensures Print(f, v) == [91] + (PrintItems(f, v, items, 0) + [93])
    ensures items == [] ==> PrintItems(f, v, items, 0) == []
    ensures Size(v) == 1 + ItemSizes(v, items, 0)
  {
    hide PrintItems;
    if items == [] { NoItems(f, v, items); }
  }

  lemma NoItems(f: Spelling, v: Value, items: seq<Value>)
    requires v == Arr(items) && Proper(f, v)
    ensures PrintItems(f, v, items, |items|) == [] && ItemSizes(v, items, |items|) == 0
  {
  }

  lemma ShallowParts(v: Value, depth: int)
    ensures v.Arr? ==> (Shallow(v, depth) <==> depth <= MaxDepth && forall i :: 0 <= i < |v.items| ==> Shallow(v.items[i], depth + 1))
    ensures v.Obj? ==> (Shallow(v, depth) <==> depth <= MaxDepth && forall k :: k in v.fields ==> Shallow(v.fields[k], depth + 1))
  {
  }

  lemma ProperParts(f: Spelling, v: Value)
    requires Proper(f, v)
    ensures v.Arr? ==> forall i :: 0 <= i < |v.items| ==> Proper(f, v.items[i])
    ensures v.Obj? ==> forall k :: k in v.fields ==> Unpaired(k) && Proper(f, v.fields[k])
  {
    hide Unpaired;
  }

  lemma ItemBounds(f: Spelling, v: Value, items: seq<Value>, n: nat, depth: nat)
    requires v == Arr(items) && Proper(f, v) && Shallow(v, depth) && n < |items|
    ensures Proper(f, items[n]) && Shallow(items[n], depth + 1) && depth <= MaxDepth
    ensures ItemSizes(v, items, n) == Size(items[n]) + ItemSizes(v, items, n + 1)
  {
  }

  lemma {:induction false} ArrayReads(f: Spelling, d: seq<Byte>, from: nat, nodes: nat, depth: nat, v: Value, items: seq<Value>)
    requires v == Arr(items) && Proper(f, v) && Shallow(v, depth) && nodes + Size(v) <= MaxNodes
    requires At(d, from, Print(f, v))
    ensures ReadValue(f, d, from, nodes, depth) == Good(v, from + |Print(f, v)|, nodes + Size(v))
    decreases v, 0, |items| + 1
  {
    hide ReadItems, ReadValue, Print, PrintItems, Proper, Shallow, Size, ItemSizes, At, IsSpace;
    var inner := PrintItems(f, v, items, 0);
    ArrayPrint(f, v, items);
    AtParts(d, from, [91], inner + [93]);
    AtIndex(d, from, [91], 0);
    ShallowHere(v, depth);
    AtIndex(d, from + 1, inner + [93], 0);
    if items == [] {
      NoItems(f, v, items);
      BracketIsNoSpace();
    } else {
      ItemBounds(f, v, items, 0, depth);
      ItemParts(f, v, items, 0);
      assert inner + [93] == Print(f, items[0]) + PrintItems(f, v, items, 1) + [93];
      PrintedStart(f, items[0]);
      ItemsRead(f, d, from + 1, nodes + 1, depth, v, items, 0);
      assert items[..0] == [];
    }
    OpensArray(f, d, from, nodes, depth);
  }

  lemma BracketIsNoSpace()
    ensures !IsSpace(93) && !IsSpace(125)
  {
  }

  lemma ShallowHere(v: Value, depth: nat)
    requires Shallow(v, depth)
    ensures depth <= MaxDepth
  {
  }

  lemma {:induction false} ItemsRead(f: Spelling, d: seq<Byte>, from: nat, nodes: nat, depth: nat, v: Value, items: seq<Value>, n: nat)
    requires v == Arr(items) && Proper(f, v) && Shallow(v, depth) && n < |items| && nodes + ItemSizes(v, items, n) <= MaxNodes
    requires At(d, from, Print(f, items[n]) + PrintItems(f, v, items, n + 1) + [93])
    ensures ReadItems(f, d, from, nodes, depth, items[..n])
      == Good(v, from + |Print(f, items[n])| + |PrintItems(f, v, items, n + 1)| + 1, nodes + ItemSizes(v, items, n))
    decreases v, 0, |items| - n
  {
    hide ReadItems, ReadValue, Print, PrintItems, Proper, Shallow, Size, ItemSizes, At, Ends, Space;
    ItemBounds(f, v, items, n, depth);
    var item := Print(f, items[n]);
    var rest := PrintItems(f, v, items, n + 1) + [93];
    assert item + PrintItems(f, v, items, n + 1) + [93] == item + rest;
    AtParts(d, from, item, rest);
    var at := from + |item|;
    AfterItem(f, v, items, n + 1, d, at);
    Separator(d, at);
    ValueReads(f, d, from, nodes, depth + 1, items[n]);
    StepsItem(f, d, from, nodes, depth, items[..n], items[n], at, nodes + Size(items[n]));
    assert items[..n] + [items[n]] == items[..n + 1];
    if n + 1 == |items| {
      assert items[..n + 1] == items;
      NoItems(f, v, items);
    } else {
      ItemParts(f, v, items, n + 1);
      ItemsRead(f, d, at + 1, nodes + Size(items[n]), depth, v, items, n + 1);
    }
  }

  // Objects

  ghost function Sizes(fields: map<Text, Value>, keys: seq<Text>): map<Text, nat> {
    map k | k in fields && k in keys :: Size(fields[k])
  }

  function Without(fields: map<Text, Value>, keys: seq<Text>): map<Text, Value> {
    map k | k in fields && k !in keys :: fields[k]
  }

  predicate Distinct(keys: seq<Text>) {
    forall i, j :: 0 <= i < j < |keys| ==> keys[i] != keys[j]
  }

  lemma {:induction false} SortedDistinct(keys: set<Text>)
    requires forall k :: k in keys ==> Unpaired(k)
    ensures Distinct(SortedKeys(keys))
    decreases |keys|
  {
    hide Less;
    if keys != {} {
      var s := SortedKeys(keys);
      assert s == [s[0]] + SortedKeys(keys - {s[0]});
      SortedDistinct(keys - {s[0]});
      forall i, j | 0 <= i < j < |s| ensures s[i] != s[j] {
        if i == 0 { assert s[j] in SortedKeys(keys - {s[0]}); }
      }
    }
  }

  lemma SizesStep(fields: map<Text, Value>, keys: seq<Text>)
    requires keys != [] && Distinct(keys) && forall k :: k in keys ==> k in fields
    ensures Total(Sizes(fields, keys)) == Size(fields[keys[0]]) + Total(Sizes(fields, keys[1..]))
  {
    hide Size;
    TotalRemove(Sizes(fields, keys), keys[0]);
    assert forall k :: k in keys[1..] ==> k != keys[0];
    assert Sizes(fields, keys) - {keys[0]} == Sizes(fields, keys[1..]);
  }

  lemma WithoutStep(fields: map<Text, Value>, keys: seq<Text>)
    requires keys != [] && Distinct(keys) && keys[0] in fields
    ensures Without(fields, keys)[keys[0] := fields[keys[0]]] == Without(fields, keys[1..])
  {
    assert forall k :: k in keys <==> k == keys[0] || k in keys[1..];
    assert keys[0] !in keys[1..];
  }

  lemma FieldParts(f: Spelling, v: Value, fields: map<Text, Value>, keys: seq<Text>)
    requires v == Obj(fields) && Proper(f, v) && keys != [] && (forall k :: k in keys ==> k in fields)
    ensures PrintFields(f, v, fields, keys)
      == (if |keys| < |fields| then [44] else []) + (PrintField(f, v, fields, keys[0]) + PrintFields(f, v, fields, keys[1..]))
  {
    hide PrintField;
  }

  /** One step of the decoder at an opening brace. */
  lemma OpensObject(f: Spelling, d: seq<Byte>, from: nat, nodes: nat, depth: nat)
    requires from + 1 < |d| && d[from] == 123 && !IsSpace(d[from + 1]) && nodes + 1 <= MaxNodes && depth <= MaxDepth
    ensures ReadValue(f, d, from, nodes, depth)
      == if d[from + 1] == 125 then Good(Obj(map[]), from + 2, nodes + 1)
         else ReadFields(f, d, from + 1, nodes + 1, depth, map[])
  {
    hide ScanNumber, ReadFields, ReadItems, ReadText;
    NoSpace(d, from);
    NoSpace(d, from + 1);
  }

  /** One step of the decoder after a field. */
  lemma StepsField(
      f: Spelling, d: seq<Byte>, from: nat, nodes: nat, depth: nat, acc: map<Text, Value>, k: Text, start: nat, v: Value, at: nat, more: nat)
    requires from <= |d| && ReadKey(d, from) == Some((k, start)) && ReadValue(f, d, start, nodes, depth + 1) == Good(v, at, more)
    requires at < |d| && d[at] in {44, 125}
    ensures ReadFields(f, d, from, nodes, depth, acc)
      == if d[at] == 125 then Good(Obj(acc[k := v]), at + 1, more) else ReadFields(f, d, at + 1, more, depth, acc[k := v])
  {
    hide ScanNumber, ReadItems, ReadValue, ReadText, ReadKey;
    NoSpace(d, at);
  }

  lemma ObjectPrint(f: Spelling, v: Value, fields: map<Text, Value>)
    requires v == Obj(fields) && Proper(f, v)
    ensures Print(f, v) == [123] + (PrintFields(f, v, fields, SortedKeys(fields.Keys)) + [125])
  {
    hide PrintFields, SortedKeys, Size;
  }

  lemma ObjectSize(v: Value, fields: map<Text, Value>)
    requires v == Obj(fields)
    ensures Size(v) == 1 + Total(FieldSizes(v, fields))
  {
    hide Total, FieldSizes;
  }

  lemma FieldBounds(f: Spelling, v: Value, fields: map<Text, Value>, k: Text, depth: nat)
    requires v == Obj(fields) && Proper(f, v) && Shallow(v, depth) && k in fields
    ensures Unpaired(k) && Proper(f, fields[k]) && Shallow(fields[k], depth + 1) && depth <= MaxDepth
  {
    hide Unpaired;
  }

  lemma {:induction false} ObjectReads(
      f: Spelling, d: seq<Byte>, from: nat, nodes: nat, depth: nat, v: Value, fields: map<Text, Value>)
    requires v == Obj(fields) && Proper(f, v) && Shallow(v, depth) && nodes + Size(v) <= MaxNodes
    requires At(d, from, Print(f, v))
    ensures ReadValue(f, d, from, nodes, depth) == Good(v, from + |Print(f, v)|, nodes + Size(v))
    decreases v, 0, |fields| + 1
  {
    hide ReadFields, ReadValue, Print, PrintField, PrintFields, Shallow, Size, At, SortedKeys, Unpaired;
    var keys := SortedKeys(fields.Keys);
    var inner := PrintFields(f, v, fields, keys);
    ObjectPrint(f, v, fields);
    ObjectSize(v, fields);
    AtParts(d, from, [123], inner + [125]);
    AtIndex(d, from, [123], 0);
    ShallowHere(v, depth);
    AtIndex(d, from + 1, inner + [125], 0);
    if fields == map[] {
      NoFields(f, v, fields);
      NoFieldSizes(v, fields);
    } else {
      SortedDistinct(fields.Keys);
      FieldParts(f, v, fields, keys);
      var rest := PrintFields(f, v, fields, keys[1..]);
      assert inner + [125] == PrintField(f, v, fields, keys[0]) + rest + [125];
      assert PrintField(f, v, fields, keys[0]) + rest + [125] == PrintField(f, v, fields, keys[0]) + (rest + [125]);
      FieldStart(f, v, fields, keys[0], rest + [125], d, from + 1);
      AllSizes(v, fields, keys);
      FieldsRead(f, d, from + 1, nodes + 1, depth, v, fields, keys);
      assert Without(fields, keys) == map[];
    }
    OpensObject(f, d, from, nodes, depth);
  }

  lemma AllSizes(v: Value, fields: map<Text, Value>, keys: seq<Text>)
    requires v == Obj(fields) && forall k :: k in fields ==> k in keys
    ensures Sizes(fields, keys) == FieldSizes(v, fields)
  {
    hide Size;
  }

  lemma NoFieldSizes(v: Value, fields: map<Text, Value>)
    requires v == Obj(fields) && fields == map[]
    ensures Total(FieldSizes(v, fields)) == 0
  {
    assert FieldSizes(v, fields) == map[];
    TotalEmpty<Text>();
  }

  lemma NoFields(f: Spelling, v: Value, fields: map<Text, Value>)
    requires v == Obj(fields) && fields == map[] && Proper(f, v)
    ensures PrintFields(f, v, fields, SortedKeys(fields.Keys)) == []
  {
  }

  /** A printed field starts with the quote of its key. */
  lemma FieldStart(f: Spelling, v: Value, fields: map<Text, Value>, k: Text, rest: seq<Byte>, d: seq<Byte>, at: nat)
    requires v == Obj(fields) && Proper(f, v) && k in fields
    requires At(d, at, PrintField(f, v, fields, k) + rest)
    ensures at < |d| && d[at] == 34
  {
    hide Print, Body;
    AtParts(d, at, PrintField(f, v, fields, k), rest);
    AtIndex(d, at, PrintField(f, v, fields, k), 0);
  }

  lemma KeyReads(d: seq<Byte>, from: nat, k: Text, rest: seq<Byte>)
    requires Unpaired(k) && At(d, from, PrintText(k) + ([58] + rest))
    ensures ReadKey(d, from) == Some((k, from + |PrintText(k)| + 1)) && At(d, from + |PrintText(k)| + 1, rest)
  {
    hide PrintText, ReadText;
    AtParts(d, from, PrintText(k), [58] + rest);
    PrintedTextReads(d, from, k);
    NoSpace(d, from);
    var at := from + |PrintText(k)|;
    AtParts(d, at, [58], rest);
    AtIndex(d, at, [58], 0);
    NoSpace(d, at);
  }

  /** Where an object's later fields begin: with a comma, or with the closing brace. */
  lemma AfterField(f: Spelling, v: Value, fields: map<Text, Value>, keys: seq<Text>, d: seq<Byte>, at: nat)
    requires v == Obj(fields) && Proper(f, v) && |keys| < |fields| && (forall k :: k in keys ==> k in fields)
    requires At(d, at, PrintFields(f, v, fields, keys) + [125])
    ensures at < |d| && d[at] == (if keys == [] then 125 else 44)
    ensures keys != [] ==> At(d, at + 1, PrintField(f, v, fields, keys[0]) + PrintFields(f, v, fields, keys[1..]) + [125])
  {
    hide PrintField;
    if keys == [] {
      AtIndex(d, at, PrintFields(f, v, fields, keys) + [125], 0);
    } else {
      FieldParts(f, v, fields, keys);
      var rest := PrintField(f, v, fields, keys[0]) + PrintFields(f, v, fields, keys[1..]) + [125];
      assert PrintFields(f, v, fields, keys) + [125] == [44] + rest;
      AtParts(d, at, [44], rest);
      AtIndex(d, at, [44], 0);
    }
  }

  lemma {:induction false} FieldsRead(
      f: Spelling, d: seq<Byte>, from: nat, nodes: nat, depth: nat, v: Value, fields: map<Text, Value>, keys: seq<Text>)
    requires v == Obj(fields) && Proper(f, v) && Shallow(v, depth)
    requires keys != [] && Distinct(keys) && |keys| <= |fields| && forall k :: k in keys ==> k in fields
    requires nodes + Total(Sizes(fields, keys)) <= MaxNodes
    requires At(d, from, PrintField(f, v, fields, keys[0]) + PrintFields(f, v, fields, keys[1..]) + [125])
    ensures ReadFields(f, d, from, nodes, depth, Without(fields, keys))
      == Good(v, from + |PrintField(f, v, fields, keys[0])| + |PrintFields(f, v, fields, keys[1..])| + 1,
              nodes + Total(Sizes(fields, keys)))
    decreases v, 0, |keys|
  {
    hide ReadFields, ReadKey, ReadValue, Print, PrintText, PrintField, PrintFields, Size, Sizes, At, Ends, Proper, Shallow, Space, Unpaired;
    hide Without, Total;
    var k := keys[0];
    FieldBounds(f, v, fields, k, depth);
    var tail := PrintFields(f, v, fields, keys[1..]) + [125];
    var printed := Print(f, fields[k]);
    FieldSplit(f, v, fields, k, PrintFields(f, v, fields, keys[1..]));
    KeyReads(d, from, k, printed + tail);
    var start := from + |PrintText(k)| + 1;
    AtParts(d, start, printed, tail);
    var at := start + |printed|;
    AfterField(f, v, fields, keys[1..], d, at);
    Separator(d, at);
    SizesStep(fields, keys);
    WithoutStep(fields, keys);
    ValueReads(f, d, start, nodes, depth + 1, fields[k]);
    StepsField(f, d, from, nodes, depth, Without(fields, keys), k, start, fields[k], at, nodes + Size(fields[k]));
    if |keys| == 1 {
      WithoutNone(fields, keys[1..]);
      LastSize(fields, keys);
      NoKeys(f, v, fields, keys[1..]);
    } else {
      FieldParts(f, v, fields, keys[1..]);
      assert Distinct(keys[1..]);
      FieldsRead(f, d, at + 1, nodes + Size(fields[k]), depth, v, fields, keys[1..]);
    }
  }

  lemma FieldSplit(f: Spelling, v: Value, fields: map<Text, Value>, k: Text, rest: seq<Byte>)
    requires v == Obj(fields) && Proper(f, v) && k in fields
    ensures PrintField(f, v, fields, k) + rest + [125] == PrintText(k) + ([58] + (Print(f, fields[k]) + (rest + [125])))
    ensures |PrintField(f, v, fields, k)| == |PrintText(k)| + 1 + |Print(f, fields[k])|
  {
    hide Print, PrintText;
  }

  lemma WithoutNone(fields: map<Text, Value>, keys: seq<Text>)
    requires keys == []
    ensures Without(fields, keys) == fields
  {
  }

  lemma NoKeys(f: Spelling, v: Value, fields: map<Text, Value>, keys: seq<Text>)
    requires v == Obj(fields) && Proper(f, v) && keys == []
    ensures PrintFields(f, v, fields, keys) == []
  {
  }

  lemma LastSize(fields: map<Text, Value>, keys: seq<Text>)
    requires |keys| == 1
    ensures Total(Sizes(fields, keys[1..])) == 0
  {
    assert Sizes(fields, keys[1..]) == map[];
  }

  /** Printing, then decoding, gives the value back. */
  lemma RoundTrip(f: Spelling, v: Value, maxBytes: int)
    requires Proper(f, v) && Shallow(v, 0) && Size(v) <= MaxNodes && |Print(f, v)| <= maxBytes
    ensures DecodeJson(f, Print(f, v), maxBytes) == Some(v)
  {
    hide Proper, Shallow, Size, Print, ReadValue;
    var d := Print(f, v);
    PrintedStart(f, v);
    assert d[0..0 + |d|] == d;
    ValueReads(f, d, 0, 0, 0, v);
  }

  /** So two values with one print are one value. */
  lemma PrintIsInjective(f: Spelling, v: Value, w: Value)
    requires Proper(f, v) && Shallow(v, 0) && Size(v) <= MaxNodes
    requires Proper(f, w) && Shallow(w, 0) && Size(w) <= MaxNodes
    requires Print(f, v) == Print(f, w)
    ensures v == w
  {
    hide Proper, Shallow, Size, Print, DecodeJson;
    RoundTrip(f, v, |Print(f, v)|);
    RoundTrip(f, w, |Print(f, v)|);
  }

  // The order of keys

  predicate Increasing(keys: seq<Text>) {
    forall i, j :: 0 <= i < j < |keys| ==> Less(keys[i], keys[j])
  }

  lemma {:induction false} SortedIncreases(keys: set<Text>)
    requires forall k :: k in keys ==> Unpaired(k)
    ensures Increasing(SortedKeys(keys))
    decreases |keys|
  {
    hide Less, Unpaired;
    if keys != {} {
      var s := SortedKeys(keys);
      assert s == [s[0]] + SortedKeys(keys - {s[0]}) && IsLeast(keys, s[0]);
      SortedIncreases(keys - {s[0]});
      forall i, j | 0 <= i < j < |s| ensures Less(s[i], s[j]) {
        if i == 0 { assert s[j] in SortedKeys(keys - {s[0]}); }
      }
    }
  }

  /** However the keys come, there is one way to sort them. */
  lemma {:induction false} SortedIsUnique(keys: set<Text>, s: seq<Text>)
    requires forall k :: k in keys ==> Unpaired(k)
    requires Increasing(s) && forall k :: k in s <==> k in keys
    ensures s == SortedKeys(keys)
    decreases |keys|
  {
    hide Less, Unpaired;
    if s == [] {
      assert keys == {};
    } else {
      assert s[0] in keys;
      var t := SortedKeys(keys);
      assert t == [t[0]] + SortedKeys(keys - {t[0]}) && IsLeast(keys, t[0]);
      var i :| 0 <= i < |s| && s[i] == t[0];
      if s[0] != t[0] { LessIsTotalOrder(s[0], t[0], s[0]); }
      assert s == [s[0]] + s[1..];
      forall k ensures k in s[1..] <==> k in keys - {s[0]} {
        if k == s[0] { LessIsTotalOrder(k, k, k); }
      }
      SortedIsUnique(keys - {s[0]}, s[1..]);
    }
  }

  // What decoding yields

  lemma ReadHalf(d: seq<Byte>, at: nat)
    requires at < |d| && ReadRune(d, at).Some?
    ensures var (r, next) := ReadRune(d, at).value;
      (Low(r) ==> LowEscape(d, at)) && (High(r) ==> !LowEscape(d, next))
  {
    hide Unit, Decode;
    DecodeThenEncode(d[at..]);
  }

  lemma {:induction false} DecodedTextIsUnpaired(d: seq<Byte>, at: nat, acc: Text)
    requires at <= |d| && Unpaired(acc) && (acc != [] && High(acc[|acc| - 1]) ==> !LowEscape(d, at))
    ensures ReadText(d, at, acc).Some? ==> Unpaired(ReadText(d, at, acc).value.0)
    decreases |d| - at
  {
    hide ReadRune, LowEscape;
    if at < |d| && d[at] != 34 && ReadRune(d, at).Some? {
      var (r, next) := ReadRune(d, at).value;
      ReadHalf(d, at);
      DecodedTextIsUnpaired(d, next, acc + [r]);
    }
  }

  lemma TextDecodes(d: seq<Byte>, at: nat)
    requires at <= |d| && ReadText(d, at, []).Some?
    ensures Unpaired(ReadText(d, at, []).value.0)
  {
    hide ReadText, LowEscape;
    DecodedTextIsUnpaired(d, at, []);
  }

  /** A scanned number is a number token by itself. */
  lemma TokenAlone(d: seq<Byte>, at: nat)
    requires at <= |d| && ScanNumber(d, at).Some?
    ensures var s := d[at..ScanNumber(d, at).value]; ScanNumber(s, 0) == Some(|s|)
  {
    hide Digits;
    var end := ScanNumber(d, at).value;
    var s := d[at..end];
    WholeAlone(d, at, end, s);
    var whole := ScanWhole(d, at).value;
    FractionAlone(d, at, end, s, whole);
    var fraction := ScanFraction(d, whole).value;
    ExponentAlone(d, at, end, s, fraction);
  }

  lemma {:induction false} DigitsAlone(d: seq<Byte>, at: nat, end: nat, s: seq<Byte>, i: nat)
    requires at <= i <= end <= |d| && s == d[at..end] && Digits(d, i) <= end
    ensures Digits(s, i - at) == Digits(d, i) - at
    decreases end - i
  {
    if i < |d| && IsDigit(d[i]) {
      DigitsGrow(d, i + 1);
      assert s[i - at] == d[i];
      DigitsAlone(d, at, end, s, i + 1);
    } else if i < end {
      assert s[i - at] == d[i];
    }
  }

  lemma DigitsGrow(d: seq<Byte>, i: nat)
    requires i <= |d|
    ensures i <= Digits(d, i) <= |d|
  {
  }

  lemma ScanOrder(d: seq<Byte>, at: nat)
    requires at <= |d| && ScanNumber(d, at).Some?
    ensures ScanWhole(d, at).Some? && at < ScanWhole(d, at).value <= |d|
    ensures var whole := ScanWhole(d, at).value; ScanFraction(d, whole).Some? && whole <= ScanFraction(d, whole).value <= |d|
    ensures var fraction := ScanFraction(d, ScanWhole(d, at).value).value;
      ScanExponent(d, fraction) == ScanNumber(d, at) && fraction <= ScanNumber(d, at).value
  {
  }

  lemma WholeAlone(d: seq<Byte>, at: nat, end: nat, s: seq<Byte>)
    requires at <= |d| && ScanNumber(d, at) == Some(end) && s == d[at..end]
    ensures ScanWhole(d, at).Some? && at < ScanWhole(d, at).value <= end
    ensures ScanWhole(s, 0) == Some(ScanWhole(d, at).value - at)
  {
    ScanOrder(d, at);
    var first := if Here(d, at, 45) then at + 1 else at;
    assert s[0] == d[at];
    assert first < end && s[first - at] == d[first];
    if 49 <= d[first] < 58 { DigitsAlone(d, at, end, s, first); }
  }

  lemma FractionAlone(d: seq<Byte>, at: nat, end: nat, s: seq<Byte>, whole: nat)
    requires at <= |d| && ScanNumber(d, at) == Some(end) && s == d[at..end] && ScanWhole(d, at) == Some(whole) && at < whole <= end
    ensures ScanFraction(d, whole).Some? && whole <= ScanFraction(d, whole).value <= end
    ensures ScanFraction(s, whole - at) == Some(ScanFraction(d, whole).value - at)
  {
    hide Digits;
    ScanOrder(d, at);
    if whole < end { assert s[whole - at] == d[whole]; }
    if Here(d, whole, 46) { DigitsAlone(d, at, end, s, whole + 1); }
  }

  lemma ExponentAlone(d: seq<Byte>, at: nat, end: nat, s: seq<Byte>, i: nat)
    requires at <= i <= end <= |d| && s == d[at..end] && ScanExponent(d, i) == Some(end)
    ensures ScanExponent(s, i - at) == Some(end - at)
  {
    hide Digits;
    if i < |d| && d[i] in {101, 69} {
      var first := if Here(d, i + 1, 43) || Here(d, i + 1, 45) then i + 2 else i + 1;
      assert first < end;
      assert s[i - at] == d[i] && s[i + 1 - at] == d[i + 1];
      DigitsAlone(d, at, end, s, first);
    }
  }

  /** What one value decoded at this depth is known to satisfy. */
  ghost predicate Sound(f: Spelling, r: Out<Value>, nodes: nat, depth: nat) {
    r.Good? ==> Proper(f, r.value) && Shallow(r.value, depth) && nodes + Size(r.value) <= r.nodes <= MaxNodes
  }

  lemma LeafIsSound(f: Spelling, d: seq<Byte>, from: nat, nodes: nat, depth: nat)
    requires Canonic(f)
    requires from <= |d| && Space(d, from) < |d| && d[Space(d, from)] !in {123, 91}
    ensures Sound(f, ReadValue(f, d, from, nodes, depth), nodes, depth)
  {
    hide ScanNumber, ReadText, ReadFields, ReadItems;
    var at := Space(d, from);
    if ReadValue(f, d, from, nodes, depth).Good? {
      if d[at] == 34 { TextDecodes(d, at + 1); }
      else if d[at] !in {116, 102, 110} { TokenAlone(d, at); }
    }
  }

  lemma {:induction false} DecodedIsSound(f: Spelling, d: seq<Byte>, from: nat, nodes: nat, depth: nat)
    requires Canonic(f)
    requires from <= |d|
    ensures Sound(f, ReadValue(f, d, from, nodes, depth), nodes, depth)
    decreases |d| - from, 0
  {
    hide ReadText, ReadItems, ReadFields, ScanNumber, Sound, Canonic;
    var at := Space(d, from);
    if at == |d| || nodes + 1 > MaxNodes || depth > MaxDepth {
      BadIsSound(f, ReadValue(f, d, from, nodes, depth), nodes, depth);
    } else if d[at] == 91 {
      if Here(d, Space(d, at + 1), 93) {
        EmptyIsSound(f, nodes, depth, Space(d, at + 1) + 1);
      } else {
        NoItemsYet(f, depth);
        ItemsAreSound(f, d, Space(d, at + 1), nodes + 1, nodes, depth, []);
      }
    } else if d[at] == 123 {
      if Here(d, Space(d, at + 1), 125) {
        EmptyIsSound(f, nodes, depth, Space(d, at + 1) + 1);
      } else {
        NoFieldsYet(f, depth);
        FieldsAreSound(f, d, Space(d, at + 1), nodes + 1, nodes, depth, map[]);
      }
    } else {
      LeafIsSound(f, d, from, nodes, depth);
    }
  }

  lemma BadIsSound(f: Spelling, r: Out<Value>, nodes: nat, depth: nat)
    requires r.Bad?
    ensures Sound(f, r, nodes, depth)
  {
  }

  lemma EmptyIsSound(f: Spelling, nodes: nat, depth: nat, at: nat)
    requires nodes + 1 <= MaxNodes && depth <= MaxDepth
    ensures Sound(f, Good(Arr([]), at, nodes + 1), nodes, depth)
    ensures Sound(f, Good(Obj(map[]), at, nodes + 1), nodes, depth)
  {
    var empty: map<Text, Value> := map[];
    NoFieldSizes(Obj(empty), empty);
  }

  ghost predicate GoodItems(f: Spelling, items: seq<Value>, depth: nat) {
    depth <= MaxDepth && forall i :: 0 <= i < |items| ==> Proper(f, items[i]) && Shallow(items[i], depth + 1)
  }

  /** The sizes of some items added up from the front. */
  ghost function Weight(items: seq<Value>): nat {
    if items == [] then 0 else Weight(items[..|items| - 1]) + Size(items[|items| - 1])
  }

  lemma {:induction false} WeightIsSize(v: Value, items: seq<Value>, n: nat)
    requires v == Arr(items) && n <= |items|
    ensures Weight(items[..n]) + ItemSizes(v, items, n) == Weight(items)
    decreases |items| - n
  {
    hide Size;
    if n == |items| {
      assert items[..n] == items;
    } else {
      assert items[..n + 1][..n] == items[..n];
      WeightIsSize(v, items, n + 1);
    }
  }

  lemma NoItemsYet(f: Spelling, depth: nat)
    requires depth <= MaxDepth
    ensures GoodItems(f, [], depth) && Weight([]) == 0
  {
  }

  lemma ItemsDone(f: Spelling, items: seq<Value>, depth: nat, nodes: nat, at: nat, more: nat)
    requires GoodItems(f, items, depth) && nodes + 1 + Weight(items) <= more <= MaxNodes
    ensures Sound(f, Good(Arr(items), at, more), nodes, depth)
  {
    hide Weight, ItemSizes;
    var v := Arr(items);
    WeightIsSize(v, items, 0);
    assert items[..0] == [];
    NoItemsYet(f, depth);
  }

  lemma ItemAdded(f: Spelling, items: seq<Value>, depth: nat, r: Out<Value>, nodes: nat)
    requires GoodItems(f, items, depth) && r.Good? && Sound(f, r, nodes, depth + 1)
    ensures GoodItems(f, items + [r.value], depth) && Weight(items + [r.value]) == Weight(items) + Size(r.value)
    ensures nodes + Size(r.value) <= r.nodes <= MaxNodes
  {
    hide Proper, Shallow, Size;
    assert (items + [r.value])[..|items|] == items;
  }

  lemma {:induction false} ItemsAreSound(
      f: Spelling, d: seq<Byte>, from: nat, nodes: nat, start: nat, depth: nat, acc: seq<Value>)
    requires Canonic(f)
    requires from <= |d| && GoodItems(f, acc, depth) && start + 1 + Weight(acc) <= nodes
    ensures Sound(f, ReadItems(f, d, from, nodes, depth, acc), start, depth)
    decreases |d| - from, 1
  {
    hide ReadValue, Sound, GoodItems, Weight, Size, Canonic;
    var r := ReadValue(f, d, from, nodes, depth + 1);
    DecodedIsSound(f, d, from, nodes, depth + 1);
    if r.Bad? {
      BadIsSound(f, ReadItems(f, d, from, nodes, depth, acc), start, depth);
    } else {
      ItemAdded(f, acc, depth, r, nodes);
      var at := Space(d, r.at);
      if Here(d, at, 93) {
        ItemsDone(f, acc + [r.value], depth, start, at + 1, r.nodes);
      } else if Here(d, at, 44) {
        ItemsAreSound(f, d, at + 1, r.nodes, start, depth, acc + [r.value]);
      } else {
        BadIsSound(f, ReadItems(f, d, from, nodes, depth, acc), start, depth);
      }
    }
  }

  ghost predicate GoodFields(f: Spelling, fields: map<Text, Value>, depth: nat) {
    depth <= MaxDepth && forall k :: k in fields ==> Unpaired(k) && Proper(f, fields[k]) && Shallow(fields[k], depth + 1)
  }

  ghost function Heaviness(fields: map<Text, Value>): nat {
    Total(FieldSizes(Obj(fields), fields))
  }

  lemma NoFieldsYet(f: Spelling, depth: nat)
    requires depth <= MaxDepth
    ensures GoodFields(f, map[], depth) && Heaviness(map[]) == 0
  {
    var empty: map<Text, Value> := map[];
    NoFieldSizes(Obj(empty), empty);
  }

  lemma FieldsDone(f: Spelling, fields: map<Text, Value>, depth: nat, nodes: nat, at: nat, more: nat)
    requires GoodFields(f, fields, depth) && nodes + 1 + Heaviness(fields) <= more <= MaxNodes
    ensures Sound(f, Good(Obj(fields), at, more), nodes, depth)
  {
    hide Unpaired, Total, FieldSizes;
    ObjectSize(Obj(fields), fields);
  }

  /** A field that replaces an earlier one never makes the object larger than both together. */
  lemma FieldAdded(f: Spelling, fields: map<Text, Value>, depth: nat, k: Text, r: Out<Value>, nodes: nat)
    requires GoodFields(f, fields, depth) && Unpaired(k) && r.Good? && Sound(f, r, nodes, depth + 1)
    ensures GoodFields(f, fields[k := r.value], depth) && Heaviness(fields[k := r.value]) <= Heaviness(fields) + Size(r.value)
    ensures nodes + Size(r.value) <= r.nodes <= MaxNodes
  {
    hide Proper, Shallow, Size, Unpaired, Total;
    var more := fields[k := r.value];
    var old_, new_ := FieldSizes(Obj(fields), fields), FieldSizes(Obj(more), more);
    TotalRemove(new_, k);
    assert new_ - {k} == old_ - {k};
    if k in fields {
      TotalRemove(old_, k);
    } else {
      assert old_ - {k} == old_;
    }
  }

  lemma KeyDecodes(d: seq<Byte>, from: nat)
    requires from <= |d| && ReadKey(d, from).Some?
    ensures Unpaired(ReadKey(d, from).value.0)
  {
    hide ReadText, Unpaired;
    TextDecodes(d, Space(d, from) + 1);
  }

  lemma {:induction false} FieldsAreSound(
      f: Spelling, d: seq<Byte>, from: nat, nodes: nat, start: nat, depth: nat, acc: map<Text, Value>)
    requires Canonic(f)
    requires from <= |d| && GoodFields(f, acc, depth) && start + 1 + Heaviness(acc) <= nodes
    ensures Sound(f, ReadFields(f, d, from, nodes, depth, acc), start, depth)
    decreases |d| - from, 1
  {
    hide ReadValue, ReadKey, Sound, GoodFields, Heaviness, Size, Unpaired, Canonic;
    var k := ReadKey(d, from);
    if k.None? {
      BadIsSound(f, ReadFields(f, d, from, nodes, depth, acc), start, depth);
    } else {
      KeyDecodes(d, from);
      var r := ReadValue(f, d, k.value.1, nodes, depth + 1);
      DecodedIsSound(f, d, k.value.1, nodes, depth + 1);
      if r.Bad? {
        BadIsSound(f, ReadFields(f, d, from, nodes, depth, acc), start, depth);
      } else {
        FieldAdded(f, acc, depth, k.value.0, r, nodes);
        var at := Space(d, r.at);
        var fields := acc[k.value.0 := r.value];
        if Here(d, at, 125) {
          FieldsDone(f, fields, depth, start, at + 1, r.nodes);
        } else if Here(d, at, 44) {
          FieldsAreSound(f, d, at + 1, r.nodes, start, depth, fields);
        } else {
          BadIsSound(f, ReadFields(f, d, from, nodes, depth, acc), start, depth);
        }
      }
    }
  }

  /** Everything that decodes can be printed, and its print decodes to the same value again. */
  lemma DecodedPrintsBack(f: Spelling, d: seq<Byte>, maxBytes: int)
    requires Canonic(f)
    requires DecodeJson(f, d, maxBytes).Some?
    ensures var v := DecodeJson(f, d, maxBytes).value;
      && Proper(f, v) && Shallow(v, 0) && Size(v) <= MaxNodes
      && DecodeJson(f, Print(f, v), |Print(f, v)|) == Some(v)
  {
    hide ReadValue, Proper, Shallow, Size, Print;
    DecodedIsSound(f, d, 0, 0, 0);
    var v := DecodeJson(f, d, maxBytes).value;
    RoundTrip(f, v, |Print(f, v)|);
  }
}

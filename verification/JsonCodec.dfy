/** The decoder and the printer as they run: one moves a position over the input, the other appends to a buffer. */
module JsonCodec {
  import opened Common
  import opened Texts
  import opened Json
  import P = JsonProofs

  class Parser {
    const f: Spelling
    const data: seq<Byte>
    var at: nat
    var nodes: nat

    constructor (f: Spelling, data: seq<Byte>)
      ensures this.f == f && this.data == data && at == 0 && nodes == 0
    {
      this.f, this.data, at, nodes := f, data, 0, 0;
    }

    method SkipSpace()
      requires at <= |data|
      modifies `at
      ensures at == Space(data, old(at))
    {
      while at < |data| && IsSpace(data[at])
        invariant old(at) <= at <= |data|
        invariant Space(data, old(at)) == Space(data, at)
        decreases |data| - at
      {
        at := at + 1;
      }
    }

    method Take(c: Byte) returns (taken: bool)
      modifies `at
      ensures taken == Here(data, old(at), c) && at == if taken then old(at) + 1 else old(at)
    {
      taken := at < |data| && data[at] == c;
      if taken { at := at + 1; }
    }

    method TakeLiteral(word: seq<Byte>) returns (taken: bool)
      requires at <= |data|
      modifies `at
      ensures taken == (old(at) + |word| <= |data| && data[old(at)..old(at) + |word|] == word)
      ensures at == if taken then old(at) + |word| else old(at)
    {
      taken := at + |word| <= |data| && data[at..at + |word|] == word;
      if taken { at := at + |word|; }
    }

    method SkipDigits() returns (any: bool)
      requires at <= |data|
      modifies `at
      ensures at == Digits(data, old(at)) && any == (at != old(at))
    {
      var first := at;
      while at < |data| && IsDigit(data[at])
        invariant first <= at <= |data|
        invariant Digits(data, first) == Digits(data, at)
        decreases |data| - at
      {
        at := at + 1;
      }
      any := at != first;
    }

    method Whole() returns (ok: bool)
      requires at <= |data|
      modifies `at
      ensures ok == ScanWhole(data, old(at)).Some? && (ok ==> ScanWhole(data, old(at)) == Some(at))
      ensures old(at) <= at <= |data|
    {
      var minus := Take(45);
      if at >= |data| { return false; }
      var zero := Take(48);
      if zero { return true; }
      if data[at] < 49 || data[at] > 57 { return false; }
      var some := SkipDigits();
      return true;
    }

    method Fraction() returns (ok: bool)
      requires at <= |data|
      modifies `at
      ensures ok == ScanFraction(data, old(at)).Some? && (ok ==> ScanFraction(data, old(at)) == Some(at))
      ensures old(at) <= at <= |data|
    {
      hide Digits;
      var dot := Take(46);
      if !dot { return true; }
      ok := SkipDigits();
    }

    method Exponent() returns (ok: bool)
      requires at <= |data|
      modifies `at
      ensures ok == ScanExponent(data, old(at)).Some? && (ok ==> ScanExponent(data, old(at)) == Some(at))
      ensures old(at) <= at <= |data|
    {
      hide Digits;
      var e := Take(101);
      if !e { e := Take(69); }
      if !e { return true; }
      var sign := Take(43);
      if !sign { sign := Take(45); }
      ok := SkipDigits();
    }

    method Number() returns (v: Option<Value>)
      requires at < |data|
      modifies `at
      ensures at <= |data|
      ensures var end := ScanNumber(data, old(at));
        v == if end.Some? && f(data[old(at)..end.value]).Some? then Some(Num(f(data[old(at)..end.value]).value)) else None
      ensures v.Some? ==> Some(at) == ScanNumber(data, old(at))
    {
      hide ScanWhole, ScanFraction, ScanExponent;
      var start := at;
      var ok := Whole();
      if !ok { return None; }
      ok := Fraction();
      if !ok { return None; }
      ok := Exponent();
      if !ok { return None; }
      var spelt := f(data[start..at]);
      return if spelt.Some? then Some(Num(spelt.value)) else None;
    }

    method HexUnit() returns (u: Option<Rune>)
      requires at <= |data|
      modifies `at
      ensures u.Some? == Unit(data, old(at)).Some? && (u.Some? ==> u.value == Unit(data, old(at)).value && at == old(at) + 4)
      ensures old(at) <= at <= |data|
    {
      if at + 4 > |data| { return None; }
      var n := Unit(data, at);
      at := at + 4;
      if n.None? { return None; }
      return Some(n.value);
    }

    /** What follows a backslash. */
    method Escaped() returns (r: Option<Rune>)
      requires 0 < at <= |data| && data[at - 1] == 92
      modifies `at
      ensures at <= |data|
      ensures r.Some? == ReadRune(data, old(at) - 1).Some?
      ensures r.Some? ==> ReadRune(data, old(at) - 1).value == (r.value, at)
    {
      hide Unit, Letter;
      if at >= |data| { return None; }
      var c := data[at];
      at := at + 1;
      if c != 117 { return Letter(c); }
      var u := HexUnit();
      if u.None? { return None; }
      if 0xD800 <= u.value <= 0xDBFF && at + 6 <= |data| && data[at] == 92 && data[at + 1] == 117 {
        var saved := at;
        at := at + 2;
        var low := HexUnit();
        if low.Some? && 0xDC00 <= low.value <= 0xDFFF {
          return Some(Combine(u.value, low.value));
        }
        at := saved;
      }
      return u;
    }

    /** One character of a string, escaped or not. */
    method ParseRune() returns (r: Option<Rune>)
      requires at < |data|
      modifies `at
      ensures at <= |data|
      ensures r.Some? == ReadRune(data, old(at)).Some?
      ensures r.Some? ==> ReadRune(data, old(at)).value == (r.value, at)
    {
      hide LowEscape, Unit, Letter;
      var c := data[at];
      if c < 32 { return None; }
      if c != 92 {
        var plain := Decode(data[at..]);
        if plain.None? { return None; }
        DecodeThenEncode(data[at..]);
        at := at + plain.value.1;
        return Some(plain.value.0);
      }
      at := at + 1;
      r := Escaped();
    }

    /** A string, from its opening quote. */
    method ParseText() returns (t: Option<Text>)
      requires at < |data|
      modifies `at
      ensures at <= |data|
      ensures t.Some? == ReadText(data, old(at) + 1, []).Some?
      ensures t.Some? ==> ReadText(data, old(at) + 1, []).value == (t.value, at)
    {
      hide ReadRune;
      ghost var first := at + 1;
      at := at + 1;
      var b: Text := [];
      while at < |data|
        invariant first <= at <= |data|
        invariant ReadText(data, first, []) == ReadText(data, at, b)
        decreases |data| - at
      {
        if data[at] == 34 {
          at := at + 1;
          return Some(b);
        }
        var r := ParseRune();
        if r.None? { return None; }
        b := b + [r.value];
      }
      return None;
    }

    ghost predicate Reads(r: Out<Value>, v: Option<Value>)
      reads `at, `nodes
    {
      v.Some? == r.Good? && (v.Some? ==> r == Good(v.value, at, nodes))
    }

    method ParseLiteral(word: seq<Byte>, value: Value) returns (v: Option<Value>)
      requires at <= |data|
      modifies `at
      ensures at <= |data| && Reads(Literal(data, old(at), word, value, nodes), v)
    {
      var taken := TakeLiteral(word);
      v := if taken then Some(value) else None;
    }

    method ParseValue(depth: nat) returns (v: Option<Value>)
      requires at <= |data|
      modifies this
      ensures at <= |data| && Reads(ReadValue(f, data, old(at), old(nodes), depth), v)
      decreases |data| - at, 0
    {
      hide ScanNumber, ReadText, ReadItems, ReadFields, Literal;
      nodes := nodes + 1;
      if nodes > MaxNodes || depth > MaxDepth { return None; }
      SkipSpace();
      if at >= |data| { return None; }
      if data[at] == 34 {
        var t := ParseText();
        return if t.Some? then Some(Str(t.value)) else None;
      } else if data[at] == 123 {
        at := at + 1;
        SkipSpace();
        var closed := Take(125);
        if closed { return Some(Obj(map[])); }
        v := ParseFields(depth);
      } else if data[at] == 91 {
        at := at + 1;
        SkipSpace();
        var closed := Take(93);
        if closed { return Some(Arr([])); }
        v := ParseItems(depth);
      } else if data[at] == 116 {
        v := ParseLiteral(TrueBytes, Bool(true));
      } else if data[at] == 102 {
        v := ParseLiteral(FalseBytes, Bool(false));
      } else if data[at] == 110 {
        v := ParseLiteral(NullBytes, Null);
      } else {
        v := Number();
      }
    }

    method ParseItems(depth: nat) returns (v: Option<Value>)
      requires at <= |data|
      modifies this
      ensures at <= |data| && Reads(ReadItems(f, data, old(at), old(nodes), depth, []), v)
      decreases |data| - at, 1
    {
      hide ReadValue;
      ghost var from, count := at, nodes;
      var a: seq<Value> := [];
      while true
        invariant from <= at <= |data|
        invariant ReadItems(f, data, from, count, depth, []) == ReadItems(f, data, at, nodes, depth, a)
        decreases |data| - at
      {
        var item := ParseValue(depth + 1);
        if item.None? { return None; }
        a := a + [item.value];
        SkipSpace();
        var closed := Take(93);
        if closed { return Some(Arr(a)); }
        var comma := Take(44);
        if !comma { return None; }
      }
    }

    method ParseKey() returns (k: Option<Text>)
      requires at <= |data|
      modifies `at
      ensures at <= |data| && k.Some? == ReadKey(data, old(at)).Some?
      ensures k.Some? ==> ReadKey(data, old(at)).value == (k.value, at)
    {
      hide ReadText;
      SkipSpace();
      if at >= |data| || data[at] != 34 { return None; }
      k := ParseText();
      if k.None? { return; }
      SkipSpace();
      var colon := Take(58);
      if !colon { return None; }
    }

    method ParseFields(depth: nat) returns (v: Option<Value>)
      requires at <= |data|
      modifies this
      ensures at <= |data| && Reads(ReadFields(f, data, old(at), old(nodes), depth, map[]), v)
      decreases |data| - at, 1
    {
      hide ReadValue, ReadKey;
      ghost var from, count := at, nodes;
      var o: map<Text, Value> := map[];
      while true
        invariant from <= at <= |data|
        invariant ReadFields(f, data, from, count, depth, map[]) == ReadFields(f, data, at, nodes, depth, o)
        decreases |data| - at
      {
        var k := ParseKey();
        if k.None? { return None; }
        var field := ParseValue(depth + 1);
        if field.None? { return None; }
        o := o[k.value := field.value];
        SkipSpace();
        var closed := Take(125);
        if closed { return Some(Obj(o)); }
        var comma := Take(44);
        if !comma { return None; }
      }
    }
  }

  method Decoded(f: Spelling, data: seq<Byte>, maxBytes: int) returns (v: Option<Value>)
    ensures v == DecodeJson(f, data, maxBytes)
  {
    hide ReadValue;
    if maxBytes < 1 || |data| > maxBytes { return None; }
    var p := new Parser(f, data);
    v := p.ParseValue(0);
    if v.None? { return None; }
    p.SkipSpace();
    if p.at != |data| { return None; }
  }

  // Printing

  method FindLeast(keys: set<Text>) returns (k: Text)
    requires keys != {} && forall key :: key in keys ==> Unpaired(key)
    ensures IsLeast(keys, k)
  {
    hide Less, Unpaired;
    k :| k in keys;
    var todo := keys - {k};
    while todo != {}
      invariant todo <= keys && k in keys - todo
      invariant forall other :: other in keys - todo && other != k ==> Less(k, other)
      decreases |todo|
    {
      var other :| other in todo;
      todo := todo - {other};
      var less := IsLess(other, k);
      LessIsTotalOrder(other, k, other);
      if less {
        forall third | third in keys - todo && third != other ensures Less(other, third) {
          LessIsTotalOrder(other, k, third);
        }
        k := other;
      }
    }
  }

  lemma LeastIsUnique(keys: set<Text>, a: Text, b: Text)
    requires IsLeast(keys, a) && IsLeast(keys, b) && Unpaired(a) && Unpaired(b)
    ensures a == b
  {
    hide Less, Unpaired;
    if a != b { LessIsTotalOrder(a, b, a); }
  }

  method SortKeys(keys: set<Text>) returns (s: seq<Text>)
    requires forall key :: key in keys ==> Unpaired(key)
    ensures s == SortedKeys(keys)
  {
    hide Less, Unpaired;
    s := [];
    var rest := keys;
    while rest != {}
      invariant rest <= keys && SortedKeys(keys) == s + SortedKeys(rest)
      decreases |rest|
    {
      var k := FindLeast(rest);
      ghost var first := SortedKeys(rest)[0];
      assert IsLeast(rest, first) && SortedKeys(rest) == [first] + SortedKeys(rest - {first});
      LeastIsUnique(rest, k, first);
      s := s + [k];
      rest := rest - {k};
    }
  }

  /** One item's share of what is left to print. */
  lemma ItemStep(f: Spelling, v: Value, items: seq<Value>, n: nat, out: seq<Byte>)
    requires v == Arr(items) && Proper(f, v) && n < |items|
    ensures Proper(f, items[n])
    ensures var rest := PrintItems(f, v, items, n + 1) + [93];
      out + (PrintItems(f, v, items, n) + [93]) == ((if n > 0 then out + [44] else out) + Print(f, items[n])) + rest
  {
    hide Print, PrintItems, Proper;
    P.ProperParts(f, v);
    P.ItemParts(f, v, items, n);
  }

  /** One field's share of what is left to print. */
  lemma FieldStep(f: Spelling, v: Value, fields: map<Text, Value>, keys: seq<Text>, n: nat, out: seq<Byte>)
    requires v == Obj(fields) && Proper(f, v) && n < |keys| == |fields| && forall k :: k in keys ==> k in fields
    ensures var rest := PrintFields(f, v, fields, keys[n + 1..]) + [125];
      out + (PrintFields(f, v, fields, keys[n..]) + [125]) == ((if n > 0 then out + [44] else out) + PrintField(f, v, fields, keys[n])) + rest
  {
    hide PrintField, PrintFields, Proper;
    P.FieldParts(f, v, fields, keys[n..]);
    assert keys[n..][1..] == keys[n + 1..];
  }

  /** Values whose print is checked against the size limit once it is complete. */
  predicate Checked(v: Value) {
    v.Bool? || v.Arr? || v.Obj?
  }

  class Printer {
    const f: Spelling
    var out: seq<Byte>

    constructor (f: Spelling)
      ensures this.f == f && out == []
    {
      this.f, out := f, [];
    }

    method AppendText(t: Text) returns (ok: bool)
      modifies `out
      ensures ok ==> out == old(out) + PrintText(t)
      ensures |old(out)| + |PrintText(t)| <= 24 * 1048576 ==> ok
    {
      hide Escape;
      ghost var before := out;
      out := out + [34];
      var n := 0;
      while n < |t|
        invariant 0 <= n <= |t|
        invariant before + PrintText(t) == out + Body(t[n..]) + [34]
      {
        assert t[n..][1..] == t[n + 1..];
        out := out + Escape(t[n]);
        if |out| > MaxCanonicalBytes {
          assert |before + PrintText(t)| >= |out|;
          return false;
        }
        n := n + 1;
      }
      out := out + [34];
      return true;
    }

    ghost predicate Prints(before: seq<Byte>, v: Value, depth: nat, ok: bool)
      requires Proper(f, v)
      reads `out
    {
      && (ok ==> out == before + Print(f, v) && Shallow(v, depth) && (Checked(v) ==> |out| <= MaxCanonicalBytes))
      && (Shallow(v, depth) && |before| + |Print(f, v)| <= MaxCanonicalBytes ==> ok)
    }

    method AppendValue(v: Value, depth: nat) returns (ok: bool)
      requires Proper(f, v)
      modifies `out
      ensures Prints(old(out), v, depth, ok)
      decreases v, 1
    {
      hide PrintText, PrintItems, PrintFields, Less, Unpaired;
      if depth > MaxDepth || |out| > MaxCanonicalBytes { return false; }
      match v {
        case Null => out := out + NullBytes; return true;
        case Num(token) => out := out + token; return true;
        case Str(t) => ok := AppendText(t); return;
        case Bool(b) => out := out + (if b then TrueBytes else FalseBytes);
        case Arr(items) => ok := AppendItems(v, items, depth);
          if !ok { return; }
        case Obj(fields) => ok := AppendFields(v, fields, depth);
          if !ok { return; }
      }
      ok := |out| <= MaxCanonicalBytes;
    }

    /** As `Prints`, before the final size check. */
    ghost predicate Appends(before: seq<Byte>, v: Value, depth: nat, ok: bool)
      requires Proper(f, v)
      reads `out
    {
      && (ok ==> out == before + Print(f, v) && Shallow(v, depth))
      && (Shallow(v, depth) && |before| + |Print(f, v)| <= MaxCanonicalBytes ==> ok)
    }

    method AppendItems(v: Value, items: seq<Value>, depth: nat) returns (ok: bool)
      requires v == Arr(items) && Proper(f, v) && depth <= MaxDepth
      modifies `out
      ensures Appends(old(out), v, depth, ok)
      decreases v, 0
    {
      hide Print, PrintItems, Shallow, Proper;
      ghost var before := out;
      P.ArrayPrint(f, v, items);
      P.ShallowParts(v, depth);
      P.ProperParts(f, v);
      ghost var whole := before + Print(f, v);
      out := out + [91];
      var n := 0;
      while n < |items|
        invariant 0 <= n <= |items|
        invariant whole == out + (PrintItems(f, v, items, n) + [93])
        invariant forall i :: 0 <= i < n ==> Shallow(items[i], depth + 1)
      {
        ItemStep(f, v, items, n, out);
        if n > 0 { out := out + [44]; }
        ok := AppendValue(items[n], depth + 1);
        if !ok { return; }
        n := n + 1;
      }
      P.NoItems(f, v, items);
      out := out + [93];
      return true;
    }

    /** A key, its colon and its value. */
    method AppendField(v: Value, fields: map<Text, Value>, k: Text, depth: nat) returns (ok: bool)
      requires v == Obj(fields) && Proper(f, v) && k in fields
      modifies `out
      ensures ok ==> out == old(out) + PrintField(f, v, fields, k) && Shallow(fields[k], depth + 1)
      ensures Shallow(fields[k], depth + 1) && |old(out)| + |PrintField(f, v, fields, k)| <= MaxCanonicalBytes ==> ok
      decreases v, 0, 0
    {
      hide Print, PrintText, Shallow, Unpaired;
      ok := AppendText(k);
      if !ok { return; }
      out := out + [58];
      ok := AppendValue(fields[k], depth + 1);
    }

    method AppendFields(v: Value, fields: map<Text, Value>, depth: nat) returns (ok: bool)
      requires v == Obj(fields) && Proper(f, v) && depth <= MaxDepth
      modifies `out
      ensures Appends(old(out), v, depth, ok)
      decreases v, 0, 1
    {
      hide Print, PrintField, PrintFields, SortedKeys, Unpaired, Shallow, Proper;
      ghost var before := out;
      P.ObjectPrint(f, v, fields);
      P.ShallowParts(v, depth);
      P.ProperParts(f, v);
      var keys := SortKeys(fields.Keys);
      ghost var whole := before + Print(f, v);
      out := out + [123];
      var n := 0;
      while n < |keys|
        invariant 0 <= n <= |keys|
        invariant whole == out + (PrintFields(f, v, fields, keys[n..]) + [125])
        invariant forall i :: 0 <= i < n ==> Shallow(fields[keys[i]], depth + 1)
      {
        FieldStep(f, v, fields, keys, n, out);
        if n > 0 { out := out + [44]; }
        ok := AppendField(v, fields, keys[n], depth);
        if !ok { return; }
        n := n + 1;
      }
      P.NoKeys(f, v, fields, keys[n..]);
      out := out + [125];
      assert forall k :: k in fields ==> k in keys;
      return true;
    }
  }

  /** The canonical bytes of a value. For objects and arrays it fails exactly on depth and size. */
  method Canonical(f: Spelling, v: Value) returns (bytes: Option<seq<Byte>>)
    requires Proper(f, v)
    ensures bytes.Some? ==> bytes.value == Print(f, v) && Shallow(v, 0)
    ensures Shallow(v, 0) && |Print(f, v)| <= 24 * 1048576 ==> bytes.Some?
    ensures Checked(v) ==> (bytes.Some? <==> Shallow(v, 0) && |Print(f, v)| <= 24 * 1048576)
  {
    hide Print, Shallow, Proper;
    var p := new Printer(f);
    var ok := p.AppendValue(v, 0);
    if !ok { return None; }
    return Some(p.out);
  }
}

/** JSON values, their canonical print, and the grammar the decoder accepts. */
module Json {
  import opened Common
  import opened Texts

  const MaxDepth := 24
  const MaxNodes := 100_000
  const MaxCanonicalBytes := 24 * 1024 * 1024

  /** A number is kept as the canonical spelling of the double it stands for. */
  datatype Value =
    | Null
    | Bool(b: bool)
    | Num(token: seq<Byte>)
    | Str(text: Text)
    | Arr(items: seq<Value>)
    | Obj(fields: map<Text, Value>)

  /** The canonical spelling of the double a number token stands for; nothing where that is not finite. */
  type Spelling = seq<Byte> -> Option<seq<Byte>>

  // Numbers (section 6 of RFC 8259)

  predicate IsDigit(b: Byte) { 48 <= b < 58 }

  function Digits(d: seq<Byte>, at: nat): (end: nat)
    requires at <= |d|
    ensures at <= end <= |d|
    decreases |d| - at
  {
    if at < |d| && IsDigit(d[at]) then Digits(d, at + 1) else at
  }

  predicate Here(d: seq<Byte>, at: nat, c: Byte) {
    at < |d| && d[at] == c
  }

  function ScanWhole(d: seq<Byte>, at: nat): Option<nat>
    requires at <= |d|
  {
    var first := if Here(d, at, 45) then at + 1 else at;
    if first == |d| then None
    else if d[first] == 48 then Some(first + 1)
    else if 49 <= d[first] < 58 then Some(Digits(d, first))
    else None
  }

  function ScanFraction(d: seq<Byte>, at: nat): Option<nat>
    requires at <= |d|
  {
    if !Here(d, at, 46) then Some(at)
    else if Digits(d, at + 1) == at + 1 then None
    else Some(Digits(d, at + 1))
  }

  function ScanExponent(d: seq<Byte>, at: nat): Option<nat>
    requires at <= |d|
  {
    if !Here(d, at, 101) && !Here(d, at, 69) then Some(at)
    else
      var first := if Here(d, at + 1, 43) || Here(d, at + 1, 45) then at + 2 else at + 1;
      if Digits(d, first) == first then None else Some(Digits(d, first))
  }

  /** Where the number that starts here ends. */
  function ScanNumber(d: seq<Byte>, at: nat): (end: Option<nat>)
    requires at <= |d|
    ensures end.Some? ==> at < end.value <= |d|
  {
    var whole := ScanWhole(d, at);
    if whole.None? then None else
      var fraction := ScanFraction(d, whole.value);
      if fraction.None? then None else ScanExponent(d, fraction.value)
  }

  predicate IsNumber(token: seq<Byte>) {
    ScanNumber(token, 0) == Some(|token|)
  }

  /** A canonical spelling is a number token and spells itself. */
  ghost predicate Canonic(f: Spelling) {
    forall token :: IsNumber(token) && f(token).Some? ==> IsNumber(f(token).value) && f(f(token).value) == f(token)
  }

  // Values worth printing

  /** A value the wire can carry: keys and strings without paired halves, numbers in their canonical spelling. */
  ghost predicate Proper(f: Spelling, v: Value)
    decreases v
  {
    match v
    case Null => true
    case Bool(_) => true
    case Num(token) => IsNumber(token) && f(token) == Some(token)
    case Str(t) => Unpaired(t)
    case Arr(items) => forall i :: 0 <= i < |items| ==> Proper(f, items[i])
    case Obj(fields) => forall k :: k in fields ==> Unpaired(k) && Proper(f, fields[k])
  }

  /** No value nested deeper than the limit, counting from `depth`. */
  ghost predicate Shallow(v: Value, depth: int)
    decreases v
  {
    && depth <= MaxDepth
    && (v.Arr? ==> forall i :: 0 <= i < |v.items| ==> Shallow(v.items[i], depth + 1))
    && (v.Obj? ==> forall k :: k in v.fields ==> Shallow(v.fields[k], depth + 1))
  }

  /** The number of values in a value, itself included. */
  ghost function Size(v: Value): (n: nat)
    ensures n >= 1
    decreases v, 1, 0
  {
    match v
    case Arr(items) => 1 + ItemSizes(v, items, 0)
    case Obj(fields) => 1 + Total(FieldSizes(v, fields))
    case _ => 1
  }

  ghost function FieldSizes(v: Value, fields: map<Text, Value>): map<Text, nat>
    requires v == Obj(fields)
    decreases v, 0, 0
  {
    map k | k in fields :: Size(fields[k])
  }

  ghost function ItemSizes(v: Value, items: seq<Value>, n: nat): nat
    requires v == Arr(items) && n <= |items|
    decreases v, 0, |items| - n
  {
    if n == |items| then 0 else Size(items[n]) + ItemSizes(v, items, n + 1)
  }

  // Printing

  function HexDigit(n: nat): Byte
    requires n < 16
  {
    if n < 10 then 48 + n else 87 + n
  }

  function Escape(r: Rune): (b: seq<Byte>)
    ensures b != []
  {
    if r == 34 || r == 92 then [92, r]
    else if r == 8 then [92, 98]
    else if r == 12 then [92, 102]
    else if r == 10 then [92, 110]
    else if r == 13 then [92, 114]
    else if r == 9 then [92, 116]
    else if r < 32 || Half(r) then
      [92, 117, HexDigit(r / 4096), HexDigit(r / 256 % 16), HexDigit(r / 16 % 16), HexDigit(r % 16)]
    else Encode(r)
  }

  function Body(t: Text): seq<Byte> {
    if t == [] then [] else Escape(t[0]) + Body(t[1..])
  }

  function PrintText(t: Text): seq<Byte> {
    [34] + Body(t) + [34]
  }

  ghost predicate IsLeast(keys: set<Text>, k: Text) {
    k in keys && forall other :: other in keys && other != k ==> Less(k, other)
  }

  lemma {:induction false} LeastExists(keys: set<Text>) returns (k: Text)
    requires keys != {} && forall k :: k in keys ==> Unpaired(k)
    ensures IsLeast(keys, k)
    decreases |keys|
  {
    hide Less;
    var x :| x in keys;
    if keys == {x} {
      k := x;
    } else {
      var y := LeastExists(keys - {x});
      LessIsTotalOrder(x, y, y);
      k := if Less(x, y) then x else y;
      forall other | other in keys && other != k ensures Less(k, other) {
        LessIsTotalOrder(k, y, other);
      }
    }
  }

  /** The keys in the order of their UTF-16 code units. */
  ghost function SortedKeys(keys: set<Text>): (s: seq<Text>)
    requires forall k :: k in keys ==> Unpaired(k)
    ensures |s| == |keys| && forall k :: k in s <==> k in keys
    decreases |keys|
  {
    if keys == {} then [] else
      assert exists k :: IsLeast(keys, k) by { var k := LeastExists(keys); }
      var k :| IsLeast(keys, k);
      [k] + SortedKeys(keys - {k})
  }

  const TrueBytes: seq<Byte> := [116, 114, 117, 101]
  const FalseBytes: seq<Byte> := [102, 97, 108, 115, 101]
  const NullBytes: seq<Byte> := [110, 117, 108, 108]

  ghost function Print(f: Spelling, v: Value): seq<Byte>
    requires Proper(f, v)
    decreases v, 1, 0
  {
    match v
    case Null => NullBytes
    case Bool(b) => if b then TrueBytes else FalseBytes
    case Num(token) => token
    case Str(t) => PrintText(t)
    case Arr(items) => [91] + PrintItems(f, v, items, 0) + [93]
    case Obj(fields) => [123] + PrintFields(f, v, fields, SortedKeys(fields.Keys)) + [125]
  }

  ghost function PrintItems(f: Spelling, v: Value, items: seq<Value>, n: nat): seq<Byte>
    requires v == Arr(items) && Proper(f, v) && n <= |items|
    decreases v, 0, |items| - n
  {
    if n == |items| then []
    else (if n > 0 then [44] else []) + Print(f, items[n]) + PrintItems(f, v, items, n + 1)
  }

  ghost function PrintField(f: Spelling, v: Value, fields: map<Text, Value>, k: Text): seq<Byte>
    requires v == Obj(fields) && Proper(f, v) && k in fields
    decreases v, 0, 0
  {
    PrintText(k) + [58] + Print(f, fields[k])
  }

  /** The fields with these keys; every one that is not the first of the object starts with a comma. */
  ghost function PrintFields(f: Spelling, v: Value, fields: map<Text, Value>, keys: seq<Text>): seq<Byte>
    requires v == Obj(fields) && Proper(f, v) && (forall k :: k in keys ==> k in fields)
    decreases v, 0, |keys| + 1
  {
    if keys == [] then []
    else (if |keys| < |fields| then [44] else []) + PrintField(f, v, fields, keys[0]) + PrintFields(f, v, fields, keys[1..])
  }

  // Decoding

  datatype Out<T> = Bad | Good(value: T, at: nat, nodes: nat)

  predicate IsSpace(b: Byte) { b in {32, 10, 13, 9} }

  function Space(d: seq<Byte>, at: nat): (end: nat)
    requires at <= |d|
    ensures at <= end <= |d|
    decreases |d| - at
  {
    if at < |d| && IsSpace(d[at]) then Space(d, at + 1) else at
  }

  function HexValue(b: Byte): Option<nat> {
    if 48 <= b < 58 then Some(b - 48)
    else if 97 <= b < 103 then Some(b - 87)
    else if 65 <= b < 71 then Some(b - 55)
    else None
  }

  /** Four hexadecimal digits. */
  function Unit(d: seq<Byte>, at: nat): (u: Option<nat>)
    ensures u.Some? ==> at + 4 <= |d| && u.value < 0x10000
  {
    if at + 4 > |d| then None
    else
      var (a, b, x, y) := (HexValue(d[at]), HexValue(d[at + 1]), HexValue(d[at + 2]), HexValue(d[at + 3]));
      if a.None? || b.None? || x.None? || y.None? then None
      else Some(a.value * 4096 + b.value * 256 + x.value * 16 + y.value)
  }

  /** An escaped low half. */
  predicate LowEscape(d: seq<Byte>, at: nat) {
    at + 6 <= |d| && d[at] == 92 && d[at + 1] == 117 && Unit(d, at + 2).Some? && Low(Unit(d, at + 2).value)
  }

  function Combine(high: Rune, low: Rune): Rune
    requires High(high) && Low(low)
  {
    (high - 0xD800) * 1024 + (low - 0xDC00) + 0x10000
  }

  function Letter(e: Byte): Option<Rune> {
    match e
    case 34 => Some(34)
    case 92 => Some(92)
    case 47 => Some(47)
    case 98 => Some(8)
    case 102 => Some(12)
    case 110 => Some(10)
    case 114 => Some(13)
    case 116 => Some(9)
    case _ => None
  }

  /** One character of a string: plain, escaped, or two escaped halves that belong together. */
  function ReadRune(d: seq<Byte>, at: nat): (r: Option<(Rune, nat)>)
    requires at < |d|
    ensures r.Some? ==> at < r.value.1 <= |d|
  {
    if d[at] < 32 then None
    else if d[at] != 92 then
      DecodeThenEncode(d[at..]);
      if Decode(d[at..]).None? then None else Some((Decode(d[at..]).value.0, at + Decode(d[at..]).value.1))
    else if at + 1 == |d| then None
    else if d[at + 1] != 117 then
      if Letter(d[at + 1]).None? then None else Some((Letter(d[at + 1]).value, at + 2))
    else if Unit(d, at + 2).None? then None
    else
      var u := Unit(d, at + 2).value;
      if High(u) && LowEscape(d, at + 6) then Some((Combine(u, Unit(d, at + 8).value), at + 12)) else Some((u, at + 6))
  }

  /** The rest of a string, up to its closing quote. */
  function ReadText(d: seq<Byte>, at: nat, acc: Text): (r: Option<(Text, nat)>)
    requires at <= |d|
    ensures r.Some? ==> at < r.value.1 <= |d|
    decreases |d| - at
  {
    if at == |d| then None
    else if d[at] == 34 then Some((acc, at + 1))
    else
      var r := ReadRune(d, at);
      if r.None? then None else ReadText(d, r.value.1, acc + [r.value.0])
  }

  function Literal(d: seq<Byte>, at: nat, word: seq<Byte>, v: Value, nodes: nat): Out<Value>
    requires at <= |d|
  {
    if at + |word| <= |d| && d[at..at + |word|] == word then Good(v, at + |word|, nodes) else Bad
  }

  function ReadValue(f: Spelling, d: seq<Byte>, from: nat, nodes: nat, depth: nat): (r: Out<Value>)
    requires from <= |d|
    ensures r.Good? ==> from < r.at <= |d|
    decreases |d| - from, 0
  {
    var at := Space(d, from);
    if nodes + 1 > MaxNodes || depth > MaxDepth || at == |d| then Bad
    else if d[at] == 34 then
      var t := ReadText(d, at + 1, []);
      if t.None? then Bad else Good(Str(t.value.0), t.value.1, nodes + 1)
    else if d[at] == 123 then
      if Here(d, Space(d, at + 1), 125) then Good(Obj(map[]), Space(d, at + 1) + 1, nodes + 1)
      else ReadFields(f, d, Space(d, at + 1), nodes + 1, depth, map[])
    else if d[at] == 91 then
      if Here(d, Space(d, at + 1), 93) then Good(Arr([]), Space(d, at + 1) + 1, nodes + 1)
      else ReadItems(f, d, Space(d, at + 1), nodes + 1, depth, [])
    else if d[at] == 116 then Literal(d, at, TrueBytes, Bool(true), nodes + 1)
    else if d[at] == 102 then Literal(d, at, FalseBytes, Bool(false), nodes + 1)
    else if d[at] == 110 then Literal(d, at, NullBytes, Null, nodes + 1)
    else
      var end := ScanNumber(d, at);
      if end.None? || f(d[at..end.value]).None? then Bad else Good(Num(f(d[at..end.value]).value), end.value, nodes + 1)
  }

  /** The remaining items of an array, after those read so far. */
  function ReadItems(f: Spelling, d: seq<Byte>, from: nat, nodes: nat, depth: nat, acc: seq<Value>): (r: Out<Value>)
    requires from <= |d|
    ensures r.Good? ==> from < r.at <= |d|
    decreases |d| - from, 1
  {
    var item := ReadValue(f, d, from, nodes, depth + 1);
    if item.Bad? then Bad
    else
      var at := Space(d, item.at);
      if Here(d, at, 93) then Good(Arr(acc + [item.value]), at + 1, item.nodes)
      else if Here(d, at, 44) then ReadItems(f, d, at + 1, item.nodes, depth, acc + [item.value])
      else Bad
  }

  /** A key, up to and including its colon. */
  function ReadKey(d: seq<Byte>, from: nat): (r: Option<(Text, nat)>)
    requires from <= |d|
    ensures r.Some? ==> from < r.value.1 <= |d|
  {
    var at := Space(d, from);
    if !Here(d, at, 34) then None
    else
      var k := ReadText(d, at + 1, []);
      if k.None? || !Here(d, Space(d, k.value.1), 58) then None else Some((k.value.0, Space(d, k.value.1) + 1))
  }

  /** The remaining fields of an object. A repeated key replaces the earlier value. */
  function ReadFields(f: Spelling, d: seq<Byte>, from: nat, nodes: nat, depth: nat, acc: map<Text, Value>): (r: Out<Value>)
    requires from <= |d|
    ensures r.Good? ==> from < r.at <= |d|
    decreases |d| - from, 1
  {
    var k := ReadKey(d, from);
    if k.None? then Bad
    else
      var field := ReadValue(f, d, k.value.1, nodes, depth + 1);
      if field.Bad? then Bad
      else
        var at := Space(d, field.at);
        var fields := acc[k.value.0 := field.value];
        if Here(d, at, 125) then Good(Obj(fields), at + 1, field.nodes)
        else if Here(d, at, 44) then ReadFields(f, d, at + 1, field.nodes, depth, fields)
        else Bad
  }

  function DecodeJson(f: Spelling, d: seq<Byte>, maxBytes: int): Option<Value> {
    if maxBytes < 1 || |d| > maxBytes then None
    else
      var r := ReadValue(f, d, 0, 0, 0);
      if r.Good? && Space(d, r.at) == |d| then Some(r.value) else None
  }
}

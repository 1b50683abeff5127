/** Text as code points, lone UTF-16 halves included: its byte form and its key order. */
module Texts {
  import opened Common

  type Rune = r: nat | r < 0x110000
  type Text = seq<Rune>

  predicate High(r: Rune) { 0xD800 <= r < 0xDC00 }
  predicate Low(r: Rune) { 0xDC00 <= r < 0xE000 }
  predicate Half(r: Rune) { 0xD800 <= r < 0xE000 }

  /** No high half directly followed by a low one: together they would be another character. */
  predicate Unpaired(t: Text) {
    forall i :: 0 <= i < |t| - 1 ==> !(High(t[i]) && Low(t[i + 1]))
  }

  // UTF-8 (section 3 of RFC 3629), with lone halves in the three-byte form

  function Encode(r: Rune): (b: seq<Byte>)
    ensures 1 <= |b| <= 4
  {
    if r < 0x80 then [r]
    else if r < 0x800 then [0xC0 + r / 64, 0x80 + r % 64]
    else if r < 0x10000 then [0xE0 + r / 4096, 0x80 + r / 64 % 64, 0x80 + r % 64]
    else [0xF0 + r / 262144, 0x80 + r / 4096 % 64, 0x80 + r / 64 % 64, 0x80 + r % 64]
  }

  predicate Tail(b: Byte) { 0x80 <= b < 0xC0 }

  /** What a byte carries above its mark. */
  function Over(b: Byte, mark: nat): nat
    requires mark <= b
  {
    b - mark
  }

  /** One strictly encoded character at the front, and how many bytes it takes. Halves are refused. */
  function Decode(b: seq<Byte>): Option<(Rune, nat)> {
    if b == [] then None
    else if b[0] < 0x80 then Some((b[0], 1))
    else if 0xC2 <= b[0] < 0xE0 then
      if |b| >= 2 && Tail(b[1]) then Some((Over(b[0], 0xC0) * 64 + Over(b[1], 0x80), 2)) else None
    else if 0xE0 <= b[0] < 0xF0 then
      if |b| >= 3 && Tail(b[1]) && Tail(b[2]) && (b[0] == 0xE0 ==> b[1] >= 0xA0) && (b[0] == 0xED ==> b[1] < 0xA0)
      then Some((Over(b[0], 0xE0) * 4096 + Over(b[1], 0x80) * 64 + Over(b[2], 0x80), 3)) else None
    else if 0xF0 <= b[0] < 0xF5 then
      if |b| >= 4 && Tail(b[1]) && Tail(b[2]) && Tail(b[3]) && (b[0] == 0xF0 ==> b[1] >= 0x90) && (b[0] == 0xF4 ==> b[1] < 0x90)
      then Some((Over(b[0], 0xF0) * 262144 + Over(b[1], 0x80) * 4096 + Over(b[2], 0x80) * 64 + Over(b[3], 0x80), 4)) else None
    else None
  }

  /** As `Decode`, but lone halves are read as well. */
  function DecodeLoose(b: seq<Byte>): Option<(Rune, nat)> {
    if Decode(b).Some? then Decode(b)
    else if |b| >= 3 && b[0] == 0xED && 0xA0 <= b[1] < 0xC0 && Tail(b[2]) then
      Some((0xD000 + Over(b[1], 0x80) * 64 + Over(b[2], 0x80), 3))
    else None
  }

  lemma ThreeDigits(r: Rune)
    ensures r == r / 4096 * 4096 + r / 64 % 64 * 64 + r % 64
    ensures r < 0x10000 ==> r / 4096 < 16 && (r / 4096 == 0 && r >= 0x800 ==> r / 64 % 64 >= 32)
    ensures Half(r) ==> r / 4096 == 13 && r / 64 % 64 >= 32
    ensures r / 4096 == 13 && r / 64 % 64 >= 32 ==> Half(r)
  {
    assert r / 64 == r / 4096 * 64 + r / 64 % 64;
  }

  lemma FourDigits(r: Rune)
    ensures r == r / 262144 * 262144 + r / 4096 % 64 * 4096 + r / 64 % 64 * 64 + r % 64
    ensures 0x10000 <= r ==> r / 262144 <= 4
    ensures 0x10000 <= r ==> (r / 262144 == 0 ==> r / 4096 % 64 >= 16) && (r / 262144 == 4 ==> r / 4096 % 64 < 16)
  {
    ThreeDigits(r);
    assert r / 4096 == r / 262144 * 64 + r / 4096 % 64;
  }

  lemma EncodeThenDecode(r: Rune, rest: seq<Byte>)
    ensures DecodeLoose(Encode(r) + rest) == Some((r, |Encode(r)|))
    ensures !Half(r) ==> Decode(Encode(r) + rest) == Some((r, |Encode(r)|))
  {
    hide Half;
    ThreeDigits(r);
    FourDigits(r);
    var b := Encode(r) + rest;
    assert forall i :: 0 <= i < |Encode(r)| ==> b[i] == Encode(r)[i];
  }

  lemma DecodeThenEncode(b: seq<Byte>)
    ensures Decode(b).Some? ==> var (r, n) := Decode(b).value; n <= |b| && b[..n] == Encode(r) && !Half(r)
    ensures DecodeLoose(b).Some? ==> var (r, n) := DecodeLoose(b).value; n <= |b| && b[..n] == Encode(r)
  {
    if Decode(b).Some? {
      DecodeParts(b);
    } else if DecodeLoose(b).Some? {
      var r := DecodeLoose(b).value.0;
      Digits3(0xD, b[1] - 0x80, b[2] - 0x80);
    }
  }

  lemma DecodeParts(b: seq<Byte>)
    requires Decode(b).Some?
    ensures var (r, n) := Decode(b).value; n <= |b| && b[..n] == Encode(r) && !Half(r)
  {
    var (r, n) := Decode(b).value;
    if n == 2 {
      Digits2(b[0] - 0xC0, b[1] - 0x80);
    } else if n == 3 {
      Digits3(b[0] - 0xE0, b[1] - 0x80, b[2] - 0x80);
    } else if n == 4 {
      Digits4(b[0] - 0xF0, b[1] - 0x80, b[2] - 0x80, b[3] - 0x80);
    }
  }

  lemma Digits2(x: nat, y: nat)
    requires y < 64
    ensures var r := x * 64 + y; r / 64 == x && r % 64 == y
  {
  }

  lemma Digits3(x: nat, y: nat, z: nat)
    requires y < 64 && z < 64
    ensures var r := x * 4096 + y * 64 + z; r / 4096 == x && r / 64 % 64 == y && r % 64 == z
  {
    var r := x * 4096 + y * 64 + z;
    assert r / 64 == x * 64 + y;
  }

  lemma Digits4(w: nat, x: nat, y: nat, z: nat)
    requires x < 64 && y < 64 && z < 64
    ensures var r := w * 262144 + x * 4096 + y * 64 + z;
      r / 262144 == w && r / 4096 % 64 == x && r / 64 % 64 == y && r % 64 == z
  {
    var r := w * 262144 + x * 4096 + y * 64 + z;
    assert r / 64 == w * 4096 + x * 64 + y;
    assert r / 4096 == w * 64 + x;
  }

  /** The bytes that hold a text in memory. */
  function Bytes(t: Text): seq<Byte> {
    if t == [] then [] else Encode(t[0]) + Bytes(t[1..])
  }

  /** Reading those bytes character by character. */
  function Read(b: seq<Byte>): Option<Text>
    decreases |b|
  {
    if b == [] then Some([])
    else if DecodeLoose(b).None? then None
    else
      var (r, n) := DecodeLoose(b).value;
      DecodeThenEncode(b);
      var rest := Read(b[n..]);
      if rest.Some? then Some([r] + rest.value) else None
  }

  lemma {:induction false} BytesRead(t: Text)
    ensures Read(Bytes(t)) == Some(t)
    decreases |t|
  {
    hide Encode, DecodeLoose;
    if t != [] {
      EncodeThenDecode(t[0], Bytes(t[1..]));
      BytesRead(t[1..]);
      assert Bytes(t)[|Encode(t[0])|..] == Bytes(t[1..]);
      assert Bytes(t) != [] && [t[0]] + t[1..] == t;
    }
  }

  lemma {:induction false} ReadBytes(b: seq<Byte>)
    ensures Read(b).Some? ==> Bytes(Read(b).value) == b
    decreases |b|
  {
    hide Encode, DecodeLoose;
    if b != [] && Read(b).Some? {
      var (r, n) := DecodeLoose(b).value;
      DecodeThenEncode(b);
      ReadBytes(b[n..]);
      var rest := Read(b[n..]).value;
      assert ([r] + rest)[1..] == rest;
      assert b == b[..n] + b[n..];
    }
  }

  // UTF-16 (key order of section 3.2.3 of RFC 8785)

  function UnitsOf(r: Rune): (u: seq<nat>)
    ensures 1 <= |u| <= 2
  {
    if r < 0x10000 then [r] else [0xD800 + (r - 0x10000) / 1024, 0xDC00 + (r - 0x10000) % 1024]
  }

  function Units(t: Text): seq<nat> {
    if t == [] then [] else UnitsOf(t[0]) + Units(t[1..])
  }

  predicate LessUnits(a: seq<nat>, b: seq<nat>) {
    if a == [] || b == [] then |a| < |b|
    else if a[0] != b[0] then a[0] < b[0]
    else LessUnits(a[1..], b[1..])
  }

  predicate Less(a: Text, b: Text) {
    LessUnits(Units(a), Units(b))
  }

  method IsLess(a: Text, b: Text) returns (less: bool)
    ensures less == Less(a, b)
  {
    var x, y := Units(a), Units(b);
    var i := 0;
    while i < |x| && i < |y|
      invariant 0 <= i <= |x| && i <= |y|
      invariant LessUnits(x, y) == LessUnits(x[i..], y[i..])
    {
      if x[i] != y[i] { return x[i] < y[i]; }
      assert x[i..][1..] == x[i + 1..] && y[i..][1..] == y[i + 1..];
      i := i + 1;
    }
    return |x| < |y|;
  }

  /** A text comes first where it has the smaller unit at the first difference, or is the beginning of the other. */
  lemma {:induction false} LessExactly(x: seq<nat>, y: seq<nat>)
    ensures LessUnits(x, y) <==> exists i :: DiffersFirst(x, y, i)
    decreases |x|
  {
    if x == [] || y == [] || x[0] != y[0] {
      FirstDiffers(x, y);
    } else {
      LessExactly(x[1..], y[1..]);
      if i :| DiffersFirst(x[1..], y[1..], i) {
        DiffersBehind(x, y, i + 1);
      }
      if i :| DiffersFirst(x, y, i) {
        DiffersBehind(x, y, i);
      }
    }
  }

  lemma FirstDiffers(x: seq<nat>, y: seq<nat>)
    requires x == [] || y == [] || x[0] != y[0]
    ensures LessUnits(x, y) <==> exists i :: DiffersFirst(x, y, i)
  {
    assert DiffersFirst(x, y, 0) <==> LessUnits(x, y);
    assert forall i :: DiffersFirst(x, y, i) ==> i == 0;
  }

  lemma DiffersBehind(x: seq<nat>, y: seq<nat>, i: int)
    requires x != [] && y != [] && x[0] == y[0]
    ensures DiffersFirst(x, y, i) <==> DiffersFirst(x[1..], y[1..], i - 1)
  {
    if DiffersFirst(x[1..], y[1..], i - 1) {
      forall j | 0 <= j < i ensures x[j] == y[j] {
        if j > 0 { assert x[1..][j - 1] == y[1..][j - 1]; }
      }
    }
  }

  predicate DiffersFirst(x: seq<nat>, y: seq<nat>, i: int) {
    && 0 <= i <= |x| && i < |y| && (forall j :: 0 <= j < i ==> x[j] == y[j])
    && (i == |x| || x[i] < y[i])
  }

  /** The units of a text are those of its characters in turn: one below 0x10000, and above it the two halves
      that stand for the character. */
  lemma {:induction false} UnitsExactly(s: Text, r: Rune)
    ensures Units(s + [r]) == Units(s) + Units([r])
    ensures r < 0x10000 ==> Units([r]) == [r]
    ensures r >= 0x10000 ==> exists u, w :: (
      Units([r]) == [u, w] && 0xD800 <= u < 0xDC00 && 0xDC00 <= w < 0xE000 && r == 0x10000 + (u - 0xD800) * 1024 + (w - 0xDC00))
    decreases |s|
  {
    if s == [] {
      assert s + [r] == [r];
    } else {
      UnitsExactly(s[1..], r);
      assert (s + [r])[1..] == s[1..] + [r];
    }
    assert Units([r]) == UnitsOf(r) + Units([]) by { assert [r][1..] == []; }
    assert Units([r]) == UnitsOf(r);
  }

  lemma {:induction false} UnitsOrdered(a: seq<nat>, b: seq<nat>)
    ensures LessUnits(a, b) || LessUnits(b, a) || a == b
    ensures !(LessUnits(a, b) && LessUnits(b, a))
    ensures !LessUnits(a, a)
    decreases |a|
  {
    if a != [] {
      UnitsOrdered(a[1..], a[1..]);
      if b != [] {
        UnitsOrdered(a[1..], b[1..]);
        if a[0] == b[0] && a[1..] == b[1..] { assert a == [a[0]] + a[1..] && b == [b[0]] + b[1..]; }
      }
    }
  }

  lemma {:induction false} UnitsTransitive(a: seq<nat>, b: seq<nat>, c: seq<nat>)
    requires LessUnits(a, b) && LessUnits(b, c)
    ensures LessUnits(a, c)
    decreases |a|
  {
    if a != [] && b != [] && c != [] && a[0] == b[0] == c[0] {
      UnitsTransitive(a[1..], b[1..], c[1..]);
    }
  }

  /** Texts without paired halves are told apart by their units. */
  lemma {:induction false} UnitsInjective(a: Text, b: Text)
    requires Unpaired(a) && Unpaired(b) && Units(a) == Units(b)
    ensures a == b
    decreases |a|
  {
    if a == [] || b == [] {
      NoUnits(a);
      NoUnits(b);
    } else {
      SameFirst(a, b);
      assert Unpaired(a[1..]) && Unpaired(b[1..]);
      assert Units(a[1..]) == Units(a)[|UnitsOf(a[0])|..];
      assert Units(b[1..]) == Units(b)[|UnitsOf(b[0])|..];
      UnitsInjective(a[1..], b[1..]);
      assert a == [a[0]] + a[1..] && b == [b[0]] + b[1..];
    }
  }

  lemma NoUnits(t: Text)
    ensures Units(t) == [] <==> t == []
  {
  }

  lemma SameFirst(a: Text, b: Text)
    requires a != [] && b != [] && Unpaired(a) && Unpaired(b) && Units(a) == Units(b)
    ensures a[0] == b[0]
  {
    assert Units(a)[0] == UnitsOf(a[0])[0] && Units(b)[0] == UnitsOf(b[0])[0];
    if a[0] >= 0x10000 && b[0] < 0x10000 { NoPairHere(a, b); }
    if b[0] >= 0x10000 && a[0] < 0x10000 { NoPairHere(b, a); }
    if a[0] >= 0x10000 && b[0] >= 0x10000 {
      assert Units(a)[1] == UnitsOf(a[0])[1] && Units(b)[1] == UnitsOf(b[0])[1];
    }
  }

  lemma NoPairHere(a: Text, b: Text)
    requires a != [] && b != [] && a[0] >= 0x10000 && b[0] < 0x10000 && Unpaired(b)
    ensures Units(a) != Units(b)
  {
    assert Units(a)[0] == UnitsOf(a[0])[0] && Units(a)[1] == UnitsOf(a[0])[1];
    assert Units(b) == [b[0]] + Units(b[1..]);
    if High(b[0]) && |b| > 1 {
      SecondUnit(b[1..]);
      assert !Low(b[1]);
    }
  }

  lemma SecondUnit(t: Text)
    requires t != []
    ensures Units(t) != [] && (0xDC00 <= Units(t)[0] < 0xE000 <==> Low(t[0]))
  {
    assert Units(t)[0] == UnitsOf(t[0])[0];
  }

  /** On texts without paired halves the key order is a strict total order. */
  lemma LessIsTotalOrder(a: Text, b: Text, c: Text)
    requires Unpaired(a) && Unpaired(b) && Unpaired(c)
    ensures !Less(a, a)
    ensures Less(a, b) && Less(b, c) ==> Less(a, c)
    ensures a != b ==> Less(a, b) != Less(b, a)
  {
    hide LessUnits, Units;
    UnitsOrdered(Units(a), Units(b));
    UnitsOrdered(Units(a), Units(a));
    if Less(a, b) && Less(b, c) { UnitsTransitive(Units(a), Units(b), Units(c)); }
    if Units(a) == Units(b) { UnitsInjective(a, b); }
  }

  /** With paired halves it is not: a pair and the character it spells are different texts that neither precedes. */
  lemma PairsAreNotOrdered()
    ensures var pair, whole := [0xD800, 0xDC00], [0x10000];
      pair != whole && !Less(pair, whole) && !Less(whole, pair) && !Unpaired(pair)
  {
    var pair: Text, whole: Text := [0xD800, 0xDC00], [0x10000];
    assert pair[1..] == [0xDC00] && whole[1..] == [];
    assert Units([0xDC00]) == [0xDC00] by { assert [0xDC00 as Rune][1..] == []; }
    assert Units(pair) == [0xD800, 0xDC00] == Units(whole);
    UnitsOrdered(Units(pair), Units(whole));
    assert High(pair[0]) && Low(pair[0 + 1]);
  }
}

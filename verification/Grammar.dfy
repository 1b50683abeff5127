/** The lexical rules of the decoder: blanks, numbers, escapes. */
module Grammar {
  import opened Common
  import opened Texts
  import opened Json

  predicate AllDigits(s: seq<Byte>) {
    forall i :: 0 <= i < |s| ==> 48 <= s[i] <= 57
  }

  predicate IsWhole(s: seq<Byte>) {
    s == [48] || (s != [] && AllDigits(s) && s[0] != 48)
  }

  predicate IsFraction(s: seq<Byte>) {
    s == [] || (|s| >= 2 && s[0] == 46 && AllDigits(s[1..]))
  }

  predicate IsExponent(s: seq<Byte>) {
    s == [] || (|s| >= 2 && (s[0] == 69 || s[0] == 101) &&
                if s[1] == 43 || s[1] == 45 then |s| >= 3 && AllDigits(s[2..]) else AllDigits(s[1..]))
  }

  /** A number in its parts: an optional minus, digits without a needless zero, a fraction, an exponent. */
  predicate Parts(token: seq<Byte>, minus: seq<Byte>, whole: seq<Byte>, fraction: seq<Byte>, exponent: seq<Byte>) {
    && token == minus + whole + fraction + exponent
    && (minus == [] || minus == [45]) && IsWhole(whole) && IsFraction(fraction) && IsExponent(exponent)
  }

  lemma {:induction false} DigitsAre(d: seq<Byte>, at: nat)
    requires at <= |d|
    ensures forall i :: at <= i < Digits(d, at) ==> 48 <= d[i] <= 57
    ensures Digits(d, at) < |d| ==> !(48 <= d[Digits(d, at)] <= 57)
    decreases |d| - at
  {
    if at < |d| && IsDigit(d[at]) { DigitsAre(d, at + 1); }
  }

  lemma {:induction false} DigitsEnd(d: seq<Byte>, at: nat, end: nat)
    requires at <= end <= |d| && (forall i :: at <= i < end ==> 48 <= d[i] <= 57) && (end < |d| ==> !(48 <= d[end] <= 57))
    ensures Digits(d, at) == end
    decreases end - at
  {
    if at < end { DigitsEnd(d, at + 1, end); }
  }

  lemma WholeScans(d: seq<Byte>, w: nat)
    requires 1 <= w <= |d|
    ensures var first := if d[0] == 45 then 1 else 0;
      ScanWhole(d, 0) == Some(w) ==> first <= w && IsWhole(d[first..w])
    ensures var first := if d[0] == 45 then 1 else 0;
      first <= w && IsWhole(d[first..w]) && (w < |d| ==> !(48 <= d[w] <= 57)) ==> ScanWhole(d, 0) == Some(w)
  {
    hide Digits;
    var first := if d[0] == 45 then 1 else 0;
    if first < |d| { DigitsAre(d, first); }
    if first <= w && IsWhole(d[first..w]) && (w < |d| ==> !(48 <= d[w] <= 57)) {
      var s := d[first..w];
      assert forall i :: first <= i < w ==> d[i] == s[i - first];
      assert d[first] == s[0];
      if s != [48] { DigitsEnd(d, first, w); }
    }
  }

  lemma FractionScans(d: seq<Byte>, w: nat, r: nat)
    requires w <= r <= |d|
    ensures ScanFraction(d, w) == Some(r) ==> IsFraction(d[w..r])
    ensures IsFraction(d[w..r]) && (w == r ==> !Here(d, w, 46)) && (r < |d| ==> !(48 <= d[r] <= 57)) ==> ScanFraction(d, w) == Some(r)
  {
    hide Digits;
    var s := d[w..r];
    if Here(d, w, 46) {
      DigitsAre(d, w + 1);
      assert s != [] ==> s[1..] == d[w + 1..r];
      if IsFraction(s) && w < r && (r < |d| ==> !(48 <= d[r] <= 57)) {
        assert forall i :: w + 1 <= i < r ==> d[i] == s[1..][i - w - 1];
        DigitsEnd(d, w + 1, r);
      }
    } else if w < r {
      assert s[0] == d[w];
    }
  }

  lemma ExponentScans(d: seq<Byte>, r: nat)
    requires r <= |d|
    ensures ScanExponent(d, r) == Some(|d|) <==> IsExponent(d[r..])
  {
    hide Digits;
    var s := d[r..];
    if r < |d| && (d[r] == 69 || d[r] == 101) {
      assert s[0] == d[r];
      var first := if Here(d, r + 1, 43) || Here(d, r + 1, 45) then r + 2 else r + 1;
      if first <= |d| {
        DigitsAre(d, first);
        assert s[first - r..] == d[first..];
        if r + 1 < |d| { assert s[1] == d[r + 1]; }
        assert AllDigits(d[first..]) <==> forall i :: first <= i < |d| ==> 48 <= d[i] <= 57 by {
          assert forall i :: first <= i < |d| ==> d[i] == d[first..][i - first];
        }
        if AllDigits(d[first..]) { DigitsEnd(d, first, |d|); }
      }
    } else if r < |d| {
      assert s[0] == d[r];
    }
  }

  /** A number token is exactly: an optional minus, digits without a needless zero in front, perhaps a fraction,
      perhaps an exponent. */
  lemma NumberExactly(token: seq<Byte>)
    ensures IsNumber(token) <==> exists minus, whole, fraction, exponent :: Parts(token, minus, whole, fraction, exponent)
  {
    if IsNumber(token) {
      NumberHasParts(token);
    }
    if minus, whole, fraction, exponent :| Parts(token, minus, whole, fraction, exponent) {
      PartsAreNumber(token, minus, whole, fraction, exponent);
    }
  }

  lemma NumberHasParts(token: seq<Byte>)
    requires IsNumber(token)
    ensures exists minus, whole, fraction, exponent :: Parts(token, minus, whole, fraction, exponent)
  {
    hide Digits, IsWhole, IsFraction, IsExponent, ScanWhole, ScanFraction, ScanExponent, IsNumber, Parts;
    ScanPlaces(token);
    var w := ScanWhole(token, 0).value;
    var r := ScanFraction(token, w).value;
    var first := if token[0] == 45 then 1 else 0;
    WholeScans(token, w);
    FractionScans(token, w, r);
    ExponentScans(token, r);
    Splits(token, first, w, r);
  }

  lemma Splits(token: seq<Byte>, first: nat, w: nat, r: nat)
    requires first <= w <= r <= |token| && (first == 0 || (first == 1 && token[0] == 45))
    requires IsWhole(token[first..w]) && IsFraction(token[w..r]) && IsExponent(token[r..])
    ensures Parts(token, token[..first], token[first..w], token[w..r], token[r..])
  {
    hide IsWhole, IsFraction, IsExponent;
    assert token == token[..first] + token[first..w] + token[w..r] + token[r..];
    assert token[..first] == [] || token[..first] == [45];
  }

  lemma ScanPlaces(token: seq<Byte>)
    requires IsNumber(token)
    ensures ScanWhole(token, 0).Some? && 1 <= ScanWhole(token, 0).value <= |token|
    ensures var w := ScanWhole(token, 0).value; ScanFraction(token, w).Some? && w <= ScanFraction(token, w).value <= |token|
    ensures ScanExponent(token, ScanFraction(token, ScanWhole(token, 0).value).value) == Some(|token|)
  {
  }

  lemma PartsAreNumber(token: seq<Byte>, minus: seq<Byte>, whole: seq<Byte>, fraction: seq<Byte>, exponent: seq<Byte>)
    requires Parts(token, minus, whole, fraction, exponent)
    ensures IsNumber(token)
  {
    hide Digits, ScanWhole, ScanFraction, ScanExponent, IsWhole, IsFraction, IsExponent;
    var first, w, r := |minus|, |minus| + |whole|, |minus| + |whole| + |fraction|;
    Slices(token, minus, whole, fraction, exponent);
    Firsts(whole, fraction, exponent);
    WholeScans(token, w);
    FractionScans(token, w, r);
    ExponentScans(token, r);
  }

  lemma Slices(token: seq<Byte>, a: seq<Byte>, b: seq<Byte>, c: seq<Byte>, e: seq<Byte>)
    requires token == a + b + c + e
    ensures token[..|a|] == a && token[|a|..|a| + |b|] == b && token[|a| + |b|..|a| + |b| + |c|] == c && token[|a| + |b| + |c|..] == e
    ensures a != [] ==> token[0] == a[0]
    ensures b != [] ==> token[|a|] == b[0]
    ensures c != [] ==> token[|a| + |b|] == c[0]
    ensures e != [] ==> token[|a| + |b| + |c|] == e[0]
  {
  }

  /** Each part is told from the one before by its first character. */
  lemma Firsts(whole: seq<Byte>, fraction: seq<Byte>, exponent: seq<Byte>)
    requires IsWhole(whole) && IsFraction(fraction) && IsExponent(exponent)
    ensures whole != [] && 48 <= whole[0] <= 57
    ensures fraction != [] ==> fraction[0] == 46
    ensures exponent != [] ==> exponent[0] == 69 || exponent[0] == 101
  {
  }

  /** Blanks are spaces, tabs, carriage returns and newlines, as many as there are. */
  lemma {:induction false} BlanksExactly(d: seq<Byte>, at: nat, end: nat)
    requires at <= end <= |d|
    ensures Space(d, at) == end <==>
      (forall i :: at <= i < end ==> d[i] == 32 || d[i] == 9 || d[i] == 13 || d[i] == 10) &&
      (end < |d| ==> d[end] != 32 && d[end] != 9 && d[end] != 13 && d[end] != 10)
    decreases end - at
  {
    if at < end { BlanksExactly(d, at + 1, end); }
  }

  const Meanings: set<(int, int)> := {(34, 34), (92, 92), (47, 47), (98, 8), (102, 12), (110, 10), (114, 13), (116, 9)}

  /** The escapes of one letter, and no others. */
  lemma LettersExactly(d: seq<Byte>, at: nat)
    requires at + 1 < |d| && d[at] == 92 && d[at + 1] != 117
    ensures ReadRune(d, at).Some? <==> [d[at + 1]] in {[34], [92], [47], [98], [102], [110], [114], [116]}
    ensures ReadRune(d, at).Some? ==> ReadRune(d, at).value.1 == at + 2
    ensures ReadRune(d, at).Some? ==> (d[at + 1] as int, ReadRune(d, at).value.0) in Meanings
  {
  }

  /** The value of a hexadecimal digit of either case; 16 for anything else. */
  function Nibble(b: Byte): nat {
    if 48 <= b <= 57 then b - 48 else if 97 <= b <= 102 then 10 + (b - 97) else if 65 <= b <= 70 then 10 + (b - 65) else 16
  }

  predicate IsUnit(d: seq<Byte>, at: nat, u: nat) {
    && at + 4 <= |d| && Nibble(d[at]) < 16 && Nibble(d[at + 1]) < 16 && Nibble(d[at + 2]) < 16 && Nibble(d[at + 3]) < 16
    && u == ((Nibble(d[at]) * 16 + Nibble(d[at + 1])) * 16 + Nibble(d[at + 2])) * 16 + Nibble(d[at + 3])
  }

  lemma UnitExactly(d: seq<Byte>, at: nat, u: nat)
    ensures Unit(d, at) == Some(u) <==> IsUnit(d, at, u)
  {
  }

  predicate LowBehind(d: seq<Byte>, p: nat, low: nat) {
    p + 1 < |d| && d[p] == 92 && d[p + 1] == 117 && 0xDC00 <= low <= 0xDFFF && IsUnit(d, p + 2, low)
  }

  /** A high half with a low one escaped right behind it is the one character the two stand for. */
  lemma PairIsOneCharacter(d: seq<Byte>, at: nat, u: nat, low: nat)
    requires at + 1 < |d| && d[at] == 92 && d[at + 1] == 117 && IsUnit(d, at + 2, u)
    requires 0xD800 <= u <= 0xDBFF && LowBehind(d, at + 6, low)
    ensures ReadRune(d, at) == Some((0x10000 + (u - 0xD800) * 1024 + (low - 0xDC00), at + 12))
  {
    hide Unit, IsUnit;
    UnitExactly(d, at + 2, u);
    UnitExactly(d, at + 8, low);
  }

  ghost predicate HasLowBehind(d: seq<Byte>, p: nat) {
    exists low: nat :: LowBehind(d, p, low)
  }

  ghost predicate HasUnit(d: seq<Byte>, p: nat) {
    exists u: nat :: IsUnit(d, p, u)
  }

  /** Any other numeric escape is the unit it writes out, and without four digits it is an error. */
  lemma UnitStandsAlone(d: seq<Byte>, at: nat, u: nat)
    requires at + 1 < |d| && d[at] == 92 && d[at + 1] == 117
    ensures IsUnit(d, at + 2, u) && !(0xD800 <= u <= 0xDBFF && HasLowBehind(d, at + 6)) ==> ReadRune(d, at) == Some((u, at + 6))
    ensures !HasUnit(d, at + 2) ==> ReadRune(d, at).None?
  {
    hide Unit, IsUnit;
    UnitExactly(d, at + 2, u);
    if Unit(d, at + 2).Some? {
      UnitExactly(d, at + 2, Unit(d, at + 2).value);
    }
    if LowEscape(d, at + 6) {
      UnitExactly(d, at + 8, Unit(d, at + 8).value);
      assert LowBehind(d, at + 6, Unit(d, at + 8).value);
    }
  }

  /** A character as it stands is its UTF-8 form: no control character, no lone half, no longer form. */
  lemma PlainExactly(d: seq<Byte>, at: nat, r: Rune, next: nat)
    requires at < |d| && d[at] != 92
    ensures ReadRune(d, at) == Some((r, next)) <==>
      d[at] >= 32 && !(0xD800 <= r <= 0xDFFF) && next == at + |Encode(r)| && next <= |d| && d[at..next] == Encode(r)
  {
    hide Decode, Encode;
    if ReadRune(d, at).Some? {
      DecodeParts(d[at..]);
      assert d[at..][..ReadRune(d, at).value.1 - at] == d[at..ReadRune(d, at).value.1];
    }
    if d[at] >= 32 && !(0xD800 <= r <= 0xDFFF) && next == at + |Encode(r)| && next <= |d| && d[at..next] == Encode(r) {
      assert d[at..] == Encode(r) + d[next..];
      EncodeThenDecode(r, d[next..]);
    }
  }

  /** What a byte carries above its mark. */
  function Above(b: Byte, mark: nat): int {
    b - mark
  }

  /** UTF-8: one byte below 0x80, two below 0x800, three below 0x10000 and four above, the first byte telling how
      many and each later one carrying six bits. */
  lemma Utf8Exactly(r: Rune)
    ensures forall i :: 1 <= i < |Encode(r)| ==> 0x80 <= Encode(r)[i] <= 0xBF
    ensures r < 0x80 ==> Encode(r) == [r]
    ensures 0x80 <= r < 0x800 ==> |Encode(r)| == 2 && r == Above(Encode(r)[0], 0xC0) * 64 + Above(Encode(r)[1], 0x80)
    ensures 0x800 <= r < 0x10000 ==> |Encode(r)| == 3
    ensures 0x800 <= r < 0x10000 ==> r == (Above(Encode(r)[0], 0xE0) * 64 + Above(Encode(r)[1], 0x80)) * 64 + Above(Encode(r)[2], 0x80)
    ensures 0x10000 <= r ==> |Encode(r)| == 4
    ensures 0x10000 <= r ==>
      r == ((Above(Encode(r)[0], 0xF0) * 64 + Above(Encode(r)[1], 0x80)) * 64 + Above(Encode(r)[2], 0x80)) * 64 + Above(Encode(r)[3], 0x80)
  {
    ThreeDigits(r);
    FourDigits(r);
  }
}

/** How numbers, addresses and fixed words are written in stored records. */
module Spellings {
  import opened Common
  import opened Texts
  import J = Json
  import JP = JsonProofs

  function Ascii(s: string): Text {
    seq(|s|, i requires 0 <= i < |s| => if (s[i] as int) < 128 then s[i] as int else 63)
  }

  /** The last `digits` hexadecimal digits of a number. */
  function HexText(n: nat, digits: nat): (t: Text)
    ensures |t| == digits
  {
    if digits == 0 then [] else HexText(n / 16, digits - 1) + [J.HexDigit(n % 16)]
  }

  function Decimal(n: nat): (d: seq<Byte>)
    ensures d != []
  {
    if n < 10 then [48 + n] else Decimal(n / 10) + [48 + n % 10]
  }

  /** Integers as they stand: what is stored here has no other numbers. */
  const AnyNumber: J.Spelling := (token: seq<Byte>) => if J.IsNumber(token) then Some(token) else None

  predicate Plain(t: Text) {
    forall i :: 0 <= i < |t| ==> 32 <= t[i] < 127 && t[i] != 34 && t[i] != 92
  }

  lemma {:induction false} PlainIsUnpaired(t: Text)
    requires forall i :: 0 <= i < |t| ==> 32 <= t[i] < 127
    ensures Unpaired(t)
  {
  }

  lemma {:induction false} DigitsToEnd(d: seq<Byte>, i: nat)
    requires i <= |d| && forall j :: i <= j < |d| ==> J.IsDigit(d[j])
    ensures J.Digits(d, i) == |d|
    decreases |d| - i
  {
    if i < |d| { DigitsToEnd(d, i + 1); }
  }

  lemma {:induction false} DecimalDigits(n: nat)
    ensures forall j :: 0 <= j < |Decimal(n)| ==> J.IsDigit(Decimal(n)[j])
    ensures n > 0 ==> Decimal(n)[0] != 48
    ensures n < 10 ==> |Decimal(n)| == 1
    decreases n
  {
    if n >= 10 { DecimalDigits(n / 10); }
  }

  lemma DecimalIsNumber(n: nat)
    ensures J.ScanNumber(Decimal(n), 0) == Some(|Decimal(n)|)
  {
    DecimalDigits(n);
    if n > 0 { DigitsToEnd(Decimal(n), 0); }
  }

  lemma {:induction false} HexTextIsPlain(n: nat, digits: nat)
    ensures forall i :: 0 <= i < digits ==> 48 <= HexText(n, digits)[i] < 58 || 97 <= HexText(n, digits)[i] < 103
    decreases digits
  {
    if digits > 0 { HexTextIsPlain(n / 16, digits - 1); }
  }

  lemma HexIsPlain(n: nat)
    ensures Plain(HexText(n, 64))
  {
    HexTextIsPlain(n, 64);
  }

  function ParseDecimal(d: seq<Byte>): nat {
    if d == [] then 0
    else ParseDecimal(d[..|d| - 1]) * 10 + (if J.IsDigit(d[|d| - 1]) then d[|d| - 1] - 48 else 0)
  }

  function ParseHex(t: Text): nat {
    if t == [] then 0
    else
      var c := t[|t| - 1];
      ParseHex(t[..|t| - 1]) * 16 + (if c < 256 && J.HexValue(c).Some? then J.HexValue(c).value else 0)
  }

  lemma {:induction false} DecimalParses(n: nat)
    ensures ParseDecimal(Decimal(n)) == n
    decreases n
  {
    if n < 10 {
      assert Decimal(n)[..0] == [];
    } else {
      DecimalParses(n / 10);
      assert Decimal(n)[..|Decimal(n)| - 1] == Decimal(n / 10);
    }
  }

  function Power16(k: nat): nat {
    if k == 0 then 1 else 16 * Power16(k - 1)
  }

  lemma {:induction false} HexParses(n: nat, k: nat)
    requires n < Power16(k)
    ensures ParseHex(HexText(n, k)) == n
    decreases k
  {
    if k > 0 {
      HexParses(n / 16, k - 1);
      assert HexText(n, k)[..k - 1] == HexText(n / 16, k - 1);
      JP.HexRoundTrip(n % 16);
    }
  }

  lemma HashFitsHex()
    ensures Power16(64) == AddressLimit
  {
    assert Power16(4) == 0x1_0000;
    PowersMultiply(4, 4);
    PowersMultiply(8, 8);
    PowersMultiply(16, 16);
    PowersMultiply(32, 32);
  }

  lemma {:induction false} PowersMultiply(a: nat, b: nat)
    ensures Power16(a + b) == Power16(a) * Power16(b)
    decreases a
  {
    if a > 0 {
      PowersMultiply(a - 1, b);
      assert a + b - 1 == a - 1 + b;
    }
  }
}

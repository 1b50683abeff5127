/** However the stops read, a full set of them fits its storage limit. */
module StopSizes {
  import opened Common
  import opened Texts
  import opened Ledger
  import opened Spellings
  import J = Json
  import P = JsonProofs
  import S = Shortest

  lemma {:induction false} PlainLength(t: Text)
    requires Plain(t)
    ensures |J.Body(t)| == |t| && |J.PrintText(t)| == |t| + 2
    decreases |t|
  {
    if t != [] {
      assert |J.Escape(t[0])| == 1;
      PlainLength(t[1..]);
    }
  }

  function Power10(k: nat): nat {
    if k == 0 then 1 else 10 * Power10(k - 1)
  }

  lemma {:induction false} DecimalLength(n: nat, k: nat)
    requires k >= 1 && n < Power10(k)
    ensures |Decimal(n)| <= k
    decreases n
  {
    assert Power10(1) == 10 * Power10(0) == 10;
    if n >= 10 {
      assert n / 10 < Power10(k - 1);
      DecimalLength(n / 10, k - 1);
    }
  }

  lemma SafeLength(n: nat)
    requires n <= MaxSafe
    ensures |Decimal(n)| <= 16
  {
    assert Power10(16) == 10000000000000000 by {
      assert Power10(4) == 10000;
      assert Power10(8) == 100000000;
      assert Power10(12) == 1000000000000;
    }
    DecimalLength(n, 16);
  }

  /** What each field of an object adds to its print, counting one separator. */
  ghost function Lengths(v: J.Value, fields: map<Text, J.Value>): map<Text, nat>
    requires v == J.Obj(fields) && J.Proper(AnyNumber, v)
  {
    map k | k in fields :: |J.PrintField(AnyNumber, v, fields, k)| + 1
  }

  lemma ObjectLength(v: J.Value, fields: map<Text, J.Value>)
    requires v == J.Obj(fields) && J.Proper(AnyNumber, v) && fields != map[]
    ensures |J.Print(AnyNumber, v)| == 1 + Total(Lengths(v, fields))
  {
    hide J.Proper, J.Print, Lengths, S.FieldLengths;
    P.ProperParts(AnyNumber, v);
    S.ObjectLength(AnyNumber, fields);
    SameLengths(v, fields);
  }

  lemma SameLengths(v: J.Value, fields: map<Text, J.Value>)
    requires v == J.Obj(fields) && J.Proper(AnyNumber, v) && S.AllFieldsProper(AnyNumber, fields)
    ensures Lengths(v, fields) == S.FieldLengths(AnyNumber, fields)
  {
    hide J.Proper, J.Print, J.PrintField, S.FieldLength;
    forall k | k in fields ensures |J.PrintField(AnyNumber, v, fields, k)| + 1 == S.FieldLength(AnyNumber, k, fields[k]) {
      FieldIs(v, fields, k);
    }
  }

  lemma FieldIs(v: J.Value, fields: map<Text, J.Value>, k: Text)
    requires v == J.Obj(fields) && J.Proper(AnyNumber, v) && k in fields && J.Proper(AnyNumber, fields[k])
    ensures |J.PrintField(AnyNumber, v, fields, k)| + 1 == S.FieldLength(AnyNumber, k, fields[k])
  {
    hide J.Proper, J.Print, J.PrintText;
  }

  lemma {:induction false} TotalBelow(m: map<Text, nat>, b: nat)
    requires forall k :: k in m ==> m[k] <= b
    ensures Total(m) <= |m| * b
    decreases |m|
  {
    hide Total;
    if m == map[] {
      TotalEmpty<Text>();
    } else {
      var k :| k in m;
      TotalRemove(m, k);
      TotalBelow(m - {k}, b);
      assert (m - {k}).Keys == m.Keys - {k};
      OneMore(|m - {k}|, b);
    }
  }

  lemma OneMore(n: nat, b: nat)
    ensures (n + 1) * b == n * b + b
  {
  }

  /** The field names are seven different ones. */
  lemma NamesDiffer()
    ensures Ascii("version")[0] == 118 && Ascii("groupId")[0] == 103 && Ascii("epochId")[0] == 101
    ensures Ascii("version") != Ascii("groupId") && Ascii("version") != Ascii("epochId")
  {
  }

  lemma TextFieldLength(v: J.Value, fields: map<Text, J.Value>, k: Text, t: Text)
    requires v == J.Obj(fields) && J.Proper(AnyNumber, v) && k in fields && fields[k] == J.Str(t)
    requires Plain(k) && Plain(t)
    ensures |J.PrintField(AnyNumber, v, fields, k)| == |k| + |t| + 5
  {
    PlainLength(k);
    PlainLength(t);
  }

  lemma NumberFieldLength(v: J.Value, fields: map<Text, J.Value>, k: Text, token: seq<Byte>)
    requires v == J.Obj(fields) && J.Proper(AnyNumber, v) && k in fields && fields[k] == J.Num(token) && Plain(k)
    ensures |J.PrintField(AnyNumber, v, fields, k)| == |k| + |token| + 3
  {
    PlainLength(k);
  }

  /** No field of a stop takes more than 76 bytes, and its version takes 11. */
  lemma StopFieldLength(s: Stop, k: Text)
    requires StopOk(s) && k in StopFields(s) && J.Proper(AnyNumber, StopJson(s))
    ensures |J.PrintField(AnyNumber, StopJson(s), StopFields(s), k)| <= 76
    ensures k == Ascii("version") ==> |J.PrintField(AnyNumber, StopJson(s), StopFields(s), k)| == 11
  {
    hide J.PrintField, J.Proper, Plain, Decimal, HexText, ReasonText, OperationOk, Ascii;
    var v, fields := StopJson(s), StopFields(s);
    NamesArePlain();
    NamesDiffer();
    NameLengths();
    HexIsPlain(s.id);
    HexIsPlain(s.group);
    HexIsPlain(s.epochId);
    ReasonLength(s.reason);
    OperationIsPlain(s.operation);
    SafeLength(s.observed);
    DecimalDigits(1);
    match fields[k]
    case Str(t) => TextFieldLength(v, fields, k, t);
    case Num(token) => NumberFieldLength(v, fields, k, token);
    case _ => assert false;
  }

  lemma OperationIsPlain(t: Text)
    requires OperationOk(t)
    ensures Plain(t) && |t| == 36
  {
  }

  lemma NameLengths()
    ensures |Ascii("version")| == 7 && |Ascii("operationId")| == 11 && |Ascii("id")| == 2 && |Ascii("groupId")| == 7
    ensures |Ascii("epochId")| == 7 && |Ascii("reason")| == 6 && |Ascii("observed")| == 8 && |Ascii("entries")| == 7
  {
  }

  lemma StopLength(s: Stop)
    requires StopOk(s) && J.Proper(AnyNumber, StopJson(s))
    ensures |J.Print(AnyNumber, StopJson(s))| <= 475
  {
    hide J.Print, J.PrintField, J.Proper, Decimal, HexText, ReasonText, OperationOk, Ascii, StopOk;
    var v, fields := StopJson(s), StopFields(s);
    assert Ascii("version") in fields;
    ObjectLength(v, fields);
    var lengths := Lengths(v, fields);
    forall k | k in lengths ensures lengths[k] <= 77 { StopFieldLength(s, k); }
    var key := Ascii("version");
    StopFieldLength(s, key);
    TotalRemove(lengths, key);
    SevenFields(s);
    assert |lengths| == |fields| by { assert lengths.Keys == fields.Keys; }
    assert |lengths - {key}| + 1 == |lengths| by { assert (lengths - {key}).Keys == lengths.Keys - {key}; }
    TotalBelow(lengths - {key}, 77);
  }

  lemma SevenFields(s: Stop)
    ensures |StopFields(s)| <= 7
  {
    var names := [Ascii("version"), Ascii("operationId"), Ascii("id"), Ascii("groupId"), Ascii("epochId"), Ascii("reason"), Ascii("observed")];
    assert StopFields(s).Keys == set k | k in names;
    SetOfSeq(names);
    assert |StopFields(s)| == |StopFields(s).Keys|;
  }

  lemma {:induction false} SetOfSeq(names: seq<Text>)
    ensures |set k | k in names| <= |names|
    decreases |names|
  {
    if names != [] {
      SetOfSeq(names[1..]);
      assert (set k | k in names) == (set k | k in names[1..]) + {names[0]};
    }
  }

  lemma {:induction false} ItemsLength(v: J.Value, items: seq<J.Value>, n: nat, b: nat)
    requires v == J.Arr(items) && J.Proper(AnyNumber, v) && n <= |items|
    requires forall i :: 0 <= i < |items| ==> |J.Print(AnyNumber, items[i])| <= b
    ensures |J.PrintItems(AnyNumber, v, items, n)| <= (|items| - n) * (b + 1)
    decreases |items| - n
  {
    hide J.Print;
    if n == |items| {
      P.NoItems(AnyNumber, v, items);
    } else {
      P.ItemParts(AnyNumber, v, items, n);
      ItemsLength(v, items, n + 1, b);
      assert (|items| - n) * (b + 1) == (|items| - (n + 1)) * (b + 1) + (b + 1);
    }
  }

  /** 256 stops of the longest kind stay within the 128 KiB allowed for them. */
  lemma StopsFit(entries: seq<Stop>)
    requires |entries| <= 256 && StopsOk(entries)
    ensures |StopBytes(entries)| <= 128 * 1024
  {
    hide J.Print, J.PrintField, J.Proper, Decimal, StopJson, StopOk, Ascii;
    StopsPrintable(entries);
    var items := seq(|entries|, i requires 0 <= i < |entries| => StopJson(entries[i]));
    var arr := J.Arr(items);
    var fields: map<Text, J.Value> := map[Ascii("version") := J.Num(Decimal(1)), Ascii("entries") := arr];
    var v := J.Obj(fields);
    assert v == StopSetJson(entries);
    P.ProperParts(AnyNumber, v);
    NameLengths();
    assert Ascii("entries") in fields && fields[Ascii("entries")] == arr;
    P.ProperParts(AnyNumber, arr);
    forall i | 0 <= i < |items| ensures |J.Print(AnyNumber, items[i])| <= 475 {
      assert items[i] == StopJson(entries[i]) && J.Proper(AnyNumber, arr.items[i]);
      StopLength(entries[i]);
    }
    P.ArrayPrint(AnyNumber, arr, items);
    ItemsLength(arr, items, 0, 475);
    assert |items| * 476 <= 256 * 476;
    EntriesFieldLength(v, fields, arr);
    ObjectLength(v, fields);
    FirstLetters();
    TwoFields(v, fields, Ascii("version"), Ascii("entries"));
  }

  lemma FirstLetters()
    ensures Ascii("version") != Ascii("entries")
  {
    assert Ascii("version")[0] == 118 && Ascii("entries")[0] == 101;
  }

  lemma EntriesFieldLength(v: J.Value, fields: map<Text, J.Value>, arr: J.Value)
    requires v == J.Obj(fields) && J.Proper(AnyNumber, v) && J.Proper(AnyNumber, arr)
    requires fields == map[Ascii("version") := J.Num(Decimal(1)), Ascii("entries") := arr]
    ensures |J.PrintField(AnyNumber, v, fields, Ascii("version"))| == 11
    ensures |J.PrintField(AnyNumber, v, fields, Ascii("entries"))| == 10 + |J.Print(AnyNumber, arr)|
  {
    hide J.Print, J.Proper, J.PrintText, Decimal, Plain, Ascii;
    NamesArePlain();
    NameLengths();
    DecimalDigits(1);
    FirstLetters();
    NumberFieldLength(v, fields, Ascii("version"), Decimal(1));
    PlainLength(Ascii("entries"));
  }

  lemma TwoFields(v: J.Value, fields: map<Text, J.Value>, a: Text, b: Text)
    requires v == J.Obj(fields) && J.Proper(AnyNumber, v) && fields.Keys == {a, b} && a != b
    ensures Total(Lengths(v, fields))
      == |J.PrintField(AnyNumber, v, fields, a)| + 1 + |J.PrintField(AnyNumber, v, fields, b)| + 1
  {
    hide J.PrintField, J.Proper;
    var m := Lengths(v, fields);
    TotalRemove(m, a);
    TotalRemove(m - {a}, b);
    assert m - {a} - {b} == map[];
    TotalEmpty<Text>();
  }
}

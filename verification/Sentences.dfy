/** The decoder accepts exactly the texts of a grammar, and reads what they spell. */
module Sentences {
  import opened Common
  import opened Texts
  import opened Json
  import opened JsonProofs
  import G = Grammar

  // The grammar (section 2 of RFC 8259). Bytes i up to j of the input spell a value of n values in all, itself
  // included, that lies `depth` levels down.

  predicate Blanks(d: seq<Byte>, i: int, j: int) {
    0 <= i <= j <= |d| && forall k :: i <= k < j ==> d[k] == 32 || d[k] == 9 || d[k] == 13 || d[k] == 10
  }

  predicate IsString(d: seq<Byte>, i: int, j: int, t: Text) {
    0 <= i < |d| && d[i] == 34 && ReadText(d, i + 1, []) == Some((t, j))
  }

  ghost predicate Spells(f: Spelling, d: seq<Byte>, i: int, j: int, v: Value, n: int, depth: nat)
    decreases j - i, 0
  {
    && 0 <= i < j <= |d| && depth <= 24
    && match v
       case Null => n == 1 && d[i..j] == [110, 117, 108, 108]
       case Bool(b) => n == 1 && d[i..j] == if b then [116, 114, 117, 101] else [102, 97, 108, 115, 101]
       case Num(token) => n == 1 && IsNumber(d[i..j]) && f(d[i..j]) == Some(token)
       case Str(t) => n == 1 && IsString(d, i, j, t)
       case Arr(items) =>
         && i + 2 <= j && d[i] == 91 && d[j - 1] == 93
         && if items == [] then n == 1 && Blanks(d, i + 1, j - 1) else Elements(f, d, i + 1, j - 1, items, n - 1, depth + 1)
       case Obj(fields) =>
         && i + 2 <= j && d[i] == 123 && d[j - 1] == 125
         && if n == 1 then fields == map[] && Blanks(d, i + 1, j - 1)
            else exists entries :: fields == Build(map[], entries) && Fields(f, d, i + 1, j - 1, entries, n - 1, depth + 1)
  }

  /** Values with commas between them and blanks around them. */
  ghost predicate Elements(f: Spelling, d: seq<Byte>, i: int, j: int, items: seq<Value>, n: int, depth: nat)
    decreases j - i, 2
  {
    items != [] && exists p, q, r, m :: Element(f, d, i, j, items, n, depth, p, q, r, m)
  }

  ghost predicate Element(
    f: Spelling, d: seq<Byte>, i: int, j: int, items: seq<Value>, n: int, depth: nat, p: int, q: int, r: int, m: int)
    requires items != []
    decreases j - i, 1
  {
    && 0 <= i <= p < q <= r <= j <= |d| && Blanks(d, i, p) && Spells(f, d, p, q, items[0], m, depth) && Blanks(d, q, r) && 1 <= m <= n
    && if |items| == 1 then r == j && n == m
       else r < j && d[r] == 44 && Elements(f, d, r + 1, j, items[1..], n - m, depth)
  }

  type Field = (Text, Value)

  /** Keys with a colon and a value each, likewise. */
  ghost predicate Fields(f: Spelling, d: seq<Byte>, i: int, j: int, entries: seq<Field>, n: int, depth: nat)
    decreases j - i, 2
  {
    entries != [] && exists k, c, p, q, r, m :: Entry(f, d, i, j, entries, n, depth, k, c, p, q, r, m)
  }

  /** A key from k, its colon at c, its value from p up to q, and what follows from r. */
  ghost predicate Entry(
    f: Spelling, d: seq<Byte>, i: int, j: int, entries: seq<Field>, n: int, depth: nat, k: int, c: int, p: int, q: int, r: int, m: int)
    requires entries != []
    decreases j - i, 1
  {
    && 0 <= i <= k < c < p < q <= r <= j <= |d| && Blanks(d, i, k) && Key(d, k, c, entries[0].0) && Blanks(d, c + 1, p)
    && Spells(f, d, p, q, entries[0].1, m, depth) && Blanks(d, q, r) && 1 <= m <= n
    && if |entries| == 1 then r == j && n == m
       else r < j && d[r] == 44 && Fields(f, d, r + 1, j, entries[1..], n - m, depth)
  }

  predicate Key(d: seq<Byte>, k: int, c: int, t: Text) {
    && 0 <= k < c < |d| && d[c] == 58
    && d[k] == 34 && ReadText(d, k + 1, []).Some? && ReadText(d, k + 1, []).value.0 == t && Blanks(d, ReadText(d, k + 1, []).value.1, c)
  }

  /** The fields of an object: of several with one key the last. */
  function Build(acc: map<Text, Value>, entries: seq<Field>): map<Text, Value>
    decreases |entries|
  {
    if entries == [] then acc else Build(acc[entries[0].0 := entries[0].1], entries[1..])
  }

  // What is read is spelled

  lemma SpaceIsBlank(d: seq<Byte>, at: nat)
    requires at <= |d|
    ensures Blanks(d, at, Space(d, at))
  {
    G.BlanksExactly(d, at, Space(d, at));
  }

  ghost predicate Read(f: Spelling, d: seq<Byte>, from: nat, nodes: nat, depth: nat, r: Out<Value>)
    requires from <= |d|
  {
    r.Good? ==> nodes < r.nodes <= 100_000 && Spells(f, d, Space(d, from), r.at, r.value, r.nodes - nodes, depth)
  }

  lemma LeafIsSpelled(f: Spelling, d: seq<Byte>, from: nat, nodes: nat, depth: nat)
    requires from <= |d| && Space(d, from) < |d| && d[Space(d, from)] !in {123, 91}
    ensures Read(f, d, from, nodes, depth, ReadValue(f, d, from, nodes, depth))
  {
    hide ReadText, ReadFields, ReadItems, ScanNumber;
    var at := Space(d, from);
    var r := ReadValue(f, d, from, nodes, depth);
    if r.Good? && d[at] !in {34, 116, 102, 110} {
      TokenAlone(d, at);
    }
  }

  lemma {:induction false} ReadIsSpelled(f: Spelling, d: seq<Byte>, from: nat, nodes: nat, depth: nat)
    requires from <= |d|
    ensures Read(f, d, from, nodes, depth, ReadValue(f, d, from, nodes, depth))
    decreases |d| - from, 0
  {
    hide ReadText, ReadItems, ReadFields, ScanNumber, Elements, Fields, IsString, Read, Spells;
    var at := Space(d, from);
    var r := ReadValue(f, d, from, nodes, depth);
    if !r.Good? {
      BadIsRead(f, d, from, nodes, depth);
    } else if d[at] == 91 {
      var first := Space(d, at + 1);
      SpaceIsBlank(d, at + 1);
      if Here(d, first, 93) {
        EmptyIsSpelled(f, d, from, nodes, depth, at, first);
      } else {
        ItemsAreSpelled(f, d, first, nodes + 1, depth, []);
        ArrayIsSpelled(f, d, from, nodes, depth, at, first, r);
      }
    } else if d[at] == 123 {
      var first := Space(d, at + 1);
      SpaceIsBlank(d, at + 1);
      if Here(d, first, 125) {
        EmptyIsSpelled(f, d, from, nodes, depth, at, first);
      } else {
        FieldsAreSpelled(f, d, first, nodes + 1, depth, map[]);
        ObjectIsSpelled(f, d, from, nodes, depth, at, first, r);
      }
    } else {
      LeafIsSpelled(f, d, from, nodes, depth);
    }
  }

  lemma BadIsRead(f: Spelling, d: seq<Byte>, from: nat, nodes: nat, depth: nat)
    requires from <= |d|
    ensures Read(f, d, from, nodes, depth, Bad)
  {
  }

  lemma EmptyIsSpelled(f: Spelling, d: seq<Byte>, from: nat, nodes: nat, depth: nat, at: nat, first: nat)
    requires from <= |d| && at == Space(d, from) < |d| && Blanks(d, at + 1, first) && first < |d|
    requires nodes + 1 <= 100_000 && depth <= 24
    ensures d[at] == 91 && d[first] == 93 ==> Read(f, d, from, nodes, depth, Good(Arr([]), first + 1, nodes + 1))
    ensures d[at] == 123 && d[first] == 125 ==> Read(f, d, from, nodes, depth, Good(Obj(map[]), first + 1, nodes + 1))
  {
  }

  /** The items of an array after those read so far. */
  ghost predicate ReadsItems(f: Spelling, d: seq<Byte>, from: nat, nodes: nat, depth: nat, acc: seq<Value>, r: Out<Value>) {
    r.Good? ==>
      && from < r.at <= |d| && d[r.at - 1] == 93 && nodes < r.nodes <= 100_000
      && r.value.Arr? && acc <= r.value.items
      && Elements(f, d, from, r.at - 1, r.value.items[|acc|..], r.nodes - nodes, depth + 1)
  }

  lemma ArrayIsSpelled(f: Spelling, d: seq<Byte>, from: nat, nodes: nat, depth: nat, at: nat, first: nat, r: Out<Value>)
    requires from <= |d| && at == Space(d, from) < |d| && d[at] == 91 && Blanks(d, at + 1, first) && depth <= 24
    requires r.Good? && ReadsItems(f, d, first, nodes + 1, depth, [], r)
    ensures Read(f, d, from, nodes, depth, r)
  {
    hide Element, Space;
    assert r.value.items[0..] == r.value.items;
    BlanksBefore(f, d, at + 1, first, r.at - 1, r.value.items, r.nodes - nodes - 1, depth + 1);
  }

  /** Blanks in front belong to the first item. */
  lemma BlanksBefore(f: Spelling, d: seq<Byte>, i: nat, first: nat, j: int, items: seq<Value>, n: int, depth: nat)
    requires Blanks(d, i, first) && Elements(f, d, first, j, items, n, depth)
    ensures Elements(f, d, i, j, items, n, depth)
  {
    var p, q, r, m :| Element(f, d, first, j, items, n, depth, p, q, r, m);
    assert Element(f, d, i, j, items, n, depth, p, q, r, m);
  }

  lemma {:induction false} ItemsAreSpelled(f: Spelling, d: seq<Byte>, from: nat, nodes: nat, depth: nat, acc: seq<Value>)
    requires from <= |d|
    ensures ReadsItems(f, d, from, nodes, depth, acc, ReadItems(f, d, from, nodes, depth, acc))
    decreases |d| - from, 1
  {
    hide ReadValue, Elements, Space, Read, Spells;
    var item := ReadValue(f, d, from, nodes, depth + 1);
    ReadIsSpelled(f, d, from, nodes, depth + 1);
    if item.Good? {
      var at := Space(d, item.at);
      var more := acc + [item.value];
      ReadCounts(f, d, from, nodes, depth + 1, item);
      if Here(d, at, 93) {
        LastItem(f, d, from, nodes, depth, item, at);
        assert more[|acc|..] == [item.value];
      } else if Here(d, at, 44) {
        var r := ReadItems(f, d, at + 1, item.nodes, depth, more);
        ItemsAreSpelled(f, d, at + 1, item.nodes, depth, more);
        if r.Good? {
          assert r.value.items[|acc|] == more[|acc|];
          assert r.value.items[|acc|..] == [item.value] + r.value.items[|more|..];
          FirstItem(f, d, from, nodes, depth, item, at, r.value.items[|more|..], r.at - 1, r.nodes);
        }
      }
    }
  }

  lemma ReadCounts(f: Spelling, d: seq<Byte>, from: nat, nodes: nat, depth: nat, r: Out<Value>)
    requires from <= |d| && Read(f, d, from, nodes, depth, r) && r.Good?
    ensures nodes < r.nodes <= 100_000
  {
    hide Spells;
  }

  lemma LastItem(f: Spelling, d: seq<Byte>, from: nat, nodes: nat, depth: nat, item: Out<Value>, at: nat)
    requires from <= |d| && item.Good? && item.at <= |d| && at == Space(d, item.at) && Read(f, d, from, nodes, depth + 1, item)
    requires nodes < item.nodes
    ensures Elements(f, d, from, at, [item.value], item.nodes - nodes, depth + 1)
  {
    hide Spells, Elements;
    SpaceIsBlank(d, from);
    SpaceIsBlank(d, item.at);
    SpellsBounds(f, d, Space(d, from), item.at, item.value, item.nodes - nodes, depth + 1);
    assert Element(f, d, from, at, [item.value], item.nodes - nodes, depth + 1, Space(d, from), item.at, at, item.nodes - nodes);
    ElementsHave(f, d, from, at, [item.value], item.nodes - nodes, depth + 1, Space(d, from), item.at, at, item.nodes - nodes);
  }

  lemma FirstItem(
      f: Spelling, d: seq<Byte>, from: nat, nodes: nat, depth: nat, item: Out<Value>, at: nat, rest: seq<Value>, j: int, total: nat)
    requires from <= |d| && item.Good? && item.at <= |d| && at == Space(d, item.at) && Read(f, d, from, nodes, depth + 1, item)
    requires nodes < item.nodes < total
    requires at < j <= |d| && d[at] == 44 && Elements(f, d, at + 1, j, rest, total - item.nodes, depth + 1)
    ensures Elements(f, d, from, j, [item.value] + rest, total - nodes, depth + 1)
  {
    hide Spells, Elements;
    SpaceIsBlank(d, from);
    SpaceIsBlank(d, item.at);
    SpellsBounds(f, d, Space(d, from), item.at, item.value, item.nodes - nodes, depth + 1);
    var items := [item.value] + rest;
    assert items[1..] == rest;
    SomeElements(f, d, at + 1, j, rest, total - item.nodes, depth + 1);
    ElementsHave(f, d, from, j, items, total - nodes, depth + 1, Space(d, from), item.at, at, item.nodes - nodes);
  }

  lemma SomeElements(f: Spelling, d: seq<Byte>, i: int, j: int, items: seq<Value>, n: int, depth: nat)
    requires Elements(f, d, i, j, items, n, depth)
    ensures items != []
  {
    hide Element;
  }

  lemma ElementsHave(
      f: Spelling, d: seq<Byte>, i: int, j: int, items: seq<Value>, n: int, depth: nat, p: int, q: int, r: int, m: int)
    requires items != [] && Element(f, d, i, j, items, n, depth, p, q, r, m)
    ensures Elements(f, d, i, j, items, n, depth)
  {
    hide Element;
  }

  lemma SpellsBounds(f: Spelling, d: seq<Byte>, i: int, j: int, v: Value, n: int, depth: nat)
    requires Spells(f, d, i, j, v, n, depth)
    ensures 0 <= i < j <= |d| && depth <= 24
  {
    hide Elements, Fields, IsString;
  }

  /** The fields of an object after those read so far. */
  ghost predicate ReadsFields(f: Spelling, d: seq<Byte>, from: nat, nodes: nat, depth: nat, acc: map<Text, Value>, r: Out<Value>) {
    r.Good? ==>
      && from < r.at <= |d| && d[r.at - 1] == 125 && nodes < r.nodes <= 100_000 && r.value.Obj?
      && exists entries :: r.value.fields == Build(acc, entries) && Fields(f, d, from, r.at - 1, entries, r.nodes - nodes, depth + 1)
  }

  lemma ObjectIsSpelled(f: Spelling, d: seq<Byte>, from: nat, nodes: nat, depth: nat, at: nat, first: nat, r: Out<Value>)
    requires from <= |d| && at == Space(d, from) < |d| && d[at] == 123 && Blanks(d, at + 1, first) && depth <= 24
    requires r.Good? && ReadsFields(f, d, first, nodes + 1, depth, map[], r)
    ensures Read(f, d, from, nodes, depth, r)
  {
    hide Entry, Space;
    var entries :| r.value.fields == Build(map[], entries) && Fields(f, d, first, r.at - 1, entries, r.nodes - nodes - 1, depth + 1);
    BlanksBeforeKey(f, d, at + 1, first, r.at - 1, entries, r.nodes - nodes - 1, depth + 1);
  }

  lemma BlanksBeforeKey(f: Spelling, d: seq<Byte>, i: nat, first: nat, j: int, entries: seq<Field>, n: int, depth: nat)
    requires Blanks(d, i, first) && Fields(f, d, first, j, entries, n, depth)
    ensures Fields(f, d, i, j, entries, n, depth)
  {
    var k, c, p, q, r, m :| Entry(f, d, first, j, entries, n, depth, k, c, p, q, r, m);
    assert Entry(f, d, i, j, entries, n, depth, k, c, p, q, r, m);
  }

  lemma KeyIsSpelled(d: seq<Byte>, from: nat)
    requires from <= |d| && ReadKey(d, from).Some?
    ensures var (t, after) := ReadKey(d, from).value;
      && Blanks(d, from, Space(d, from)) && from < after <= |d| && Space(d, from) < after - 1 && Key(d, Space(d, from), after - 1, t)
  {
    hide ReadText;
    SpaceIsBlank(d, from);
    SpaceIsBlank(d, ReadText(d, Space(d, from) + 1, []).value.1);
  }

  lemma {:induction false} FieldsAreSpelled(f: Spelling, d: seq<Byte>, from: nat, nodes: nat, depth: nat, acc: map<Text, Value>)
    requires from <= |d|
    ensures ReadsFields(f, d, from, nodes, depth, acc, ReadFields(f, d, from, nodes, depth, acc))
    decreases |d| - from, 1
  {
    hide ReadValue, ReadKey, Fields, Space, Read, Spells, Key;
    var k := ReadKey(d, from);
    if k.Some? {
      var field := ReadValue(f, d, k.value.1, nodes, depth + 1);
      ReadIsSpelled(f, d, k.value.1, nodes, depth + 1);
      if field.Good? {
        var at := Space(d, field.at);
        var entry: Field := (k.value.0, field.value);
        ReadCounts(f, d, k.value.1, nodes, depth + 1, field);
        if Here(d, at, 125) {
          LastField(f, d, from, nodes, depth, field, at);
          OneMore(acc, entry, []);
        } else if Here(d, at, 44) {
          var r := ReadFields(f, d, at + 1, field.nodes, depth, acc[entry.0 := entry.1]);
          FieldsAreSpelled(f, d, at + 1, field.nodes, depth, acc[entry.0 := entry.1]);
          if r.Good? {
            var rest :| r.value.fields == Build(acc[entry.0 := entry.1], rest) && Fields(f, d, at + 1, r.at - 1, rest, r.nodes - field.nodes, depth + 1);
            FirstField(f, d, from, nodes, depth, field, at, rest, r.at - 1, r.nodes);
            OneMore(acc, entry, rest);
          }
        }
      }
    }
  }

  lemma OneMore(acc: map<Text, Value>, entry: Field, rest: seq<Field>)
    ensures Build(acc, [entry] + rest) == Build(acc[entry.0 := entry.1], rest)
    ensures rest == [] ==> Build(acc, [entry]) == acc[entry.0 := entry.1]
  {
    assert ([entry] + rest)[1..] == rest;
    assert [entry][1..] == [];
  }

  lemma LastField(f: Spelling, d: seq<Byte>, from: nat, nodes: nat, depth: nat, field: Out<Value>, at: nat)
    requires from <= |d| && ReadKey(d, from).Some? && field.Good? && field.at <= |d| && at == Space(d, field.at)
    requires Read(f, d, ReadKey(d, from).value.1, nodes, depth + 1, field) && nodes < field.nodes
    ensures Fields(f, d, from, at, [(ReadKey(d, from).value.0, field.value)], field.nodes - nodes, depth + 1)
  {
    hide Spells, Fields, Key, ReadKey;
    KeyIsSpelled(d, from);
    var (t, after) := ReadKey(d, from).value;
    SpaceIsBlank(d, after);
    SpaceIsBlank(d, field.at);
    SpellsBounds(f, d, Space(d, after), field.at, field.value, field.nodes - nodes, depth + 1);
    FieldsHave(f, d, from, at, [(t, field.value)], field.nodes - nodes, depth + 1,
               Space(d, from), after - 1, Space(d, after), field.at, at, field.nodes - nodes);
  }

  lemma FirstField(
      f: Spelling, d: seq<Byte>, from: nat, nodes: nat, depth: nat, field: Out<Value>, at: nat, rest: seq<Field>, j: int, total: nat)
    requires from <= |d| && ReadKey(d, from).Some? && field.Good? && field.at <= |d| && at == Space(d, field.at)
    requires Read(f, d, ReadKey(d, from).value.1, nodes, depth + 1, field)
    requires nodes < field.nodes < total
    requires at < j <= |d| && d[at] == 44 && Fields(f, d, at + 1, j, rest, total - field.nodes, depth + 1)
    ensures Fields(f, d, from, j, [(ReadKey(d, from).value.0, field.value)] + rest, total - nodes, depth + 1)
  {
    hide Spells, Fields, Key, ReadKey;
    KeyIsSpelled(d, from);
    var (t, after) := ReadKey(d, from).value;
    SpaceIsBlank(d, after);
    SpaceIsBlank(d, field.at);
    SpellsBounds(f, d, Space(d, after), field.at, field.value, field.nodes - nodes, depth + 1);
    var entries: seq<Field> := [(t, field.value)] + rest;
    assert entries[1..] == rest;
    SomeFields(f, d, at + 1, j, rest, total - field.nodes, depth + 1);
    FieldsHave(f, d, from, j, entries, total - nodes, depth + 1,
               Space(d, from), after - 1, Space(d, after), field.at, at, field.nodes - nodes);
  }

  lemma SomeFields(f: Spelling, d: seq<Byte>, i: int, j: int, entries: seq<Field>, n: int, depth: nat)
    requires Fields(f, d, i, j, entries, n, depth)
    ensures entries != []
  {
    hide Entry;
  }

  lemma FieldsHave(
      f: Spelling, d: seq<Byte>, i: int, j: int, entries: seq<Field>, n: int, depth: nat, k: int, c: int, p: int, q: int, r: int, m: int)
    requires entries != [] && Entry(f, d, i, j, entries, n, depth, k, c, p, q, r, m)
    ensures Fields(f, d, i, j, entries, n, depth)
  {
    hide Entry;
  }

  // What is spelled is read

  lemma SpaceTo(d: seq<Byte>, from: nat, i: nat)
    requires Blanks(d, from, i) && (i < |d| ==> d[i] !in {32, 9, 13, 10})
    ensures Space(d, from) == i
  {
    G.BlanksExactly(d, from, i);
  }

  lemma SpelledStart(f: Spelling, d: seq<Byte>, i: int, j: int, v: Value, n: int, depth: nat)
    requires Spells(f, d, i, j, v, n, depth)
    ensures 0 <= i < j <= |d| && depth <= 24 && n >= 1
    ensures d[i] !in {32, 9, 13, 10} && d[i] !in {93, 125, 44}
    ensures v.Null? ==> d[i] == 110
    ensures v.Bool? ==> d[i] in {116, 102}
    ensures v.Num? ==> d[i] == 45 || IsDigit(d[i])
    ensures v.Str? ==> d[i] == 34
    ensures v.Arr? ==> d[i] == 91
    ensures v.Obj? ==> d[i] == 123
  {
    hide ReadText, ScanNumber;
    assert d[i..j][0] == d[i];
    match v
    case Num(_) => NumberStart(d[i..j]);
    case Arr(items) => if items != [] { ElementsCount(f, d, i + 1, j - 1, items, n - 1, depth + 1); }
    case Obj(fields) =>
      if n != 1 {
        var entries :| fields == Build(map[], entries) && Fields(f, d, i + 1, j - 1, entries, n - 1, depth + 1);
        FieldsCount(f, d, i + 1, j - 1, entries, n - 1, depth + 1);
      }
    case _ =>
  }

  lemma ElementsCount(f: Spelling, d: seq<Byte>, i: int, j: int, items: seq<Value>, n: int, depth: nat)
    requires Elements(f, d, i, j, items, n, depth)
    ensures n >= 1 && items != []
  {
    hide Spells;
  }

  lemma FieldsCount(f: Spelling, d: seq<Byte>, i: int, j: int, entries: seq<Field>, n: int, depth: nat)
    requires Fields(f, d, i, j, entries, n, depth)
    ensures n >= 1 && entries != []
  {
    hide Spells;
  }

  lemma LeafIsRead(f: Spelling, d: seq<Byte>, from: nat, i: nat, j: nat, v: Value, n: nat, nodes: nat, depth: nat)
    requires Blanks(d, from, i) && Spells(f, d, i, j, v, n, depth) && Ends(d, j) && nodes + n <= 100_000
    requires !v.Arr? && !v.Obj?
    ensures ReadValue(f, d, from, nodes, depth) == Good(v, j, nodes + n)
  {
    hide ReadText, ScanNumber, ReadFields, ReadItems, Ends;
    SpelledStart(f, d, i, j, v, n, depth);
    SpaceTo(d, from, i);
    if v.Num? {
      NumberSame(d, i, d[i..j]);
    } else if v.Null? {
      assert j == i + 4;
    } else if v.Bool? {
      assert j == i + if v.b then 4 else 5;
    }
  }

  lemma {:induction false} SpelledIsRead(f: Spelling, d: seq<Byte>, from: nat, i: nat, j: nat, v: Value, n: nat, nodes: nat, depth: nat)
    requires Blanks(d, from, i) && Spells(f, d, i, j, v, n, depth) && Ends(d, j) && nodes + n <= 100_000
    ensures ReadValue(f, d, from, nodes, depth) == Good(v, j, nodes + n)
    decreases j - i, 0
  {
    hide ReadText, ReadItems, ReadFields, ScanNumber, Elements, Fields, IsString, ReadValue, Spells, Ends, Space;
    SpelledStart(f, d, i, j, v, n, depth);
    SpaceTo(d, from, i);
    if v.Arr? {
      ArrayParts(f, d, i, j, v, n, depth);
      if v.items != [] {
        var p := FirstStart(f, d, i + 1, j - 1, v.items, n - 1, depth + 1);
        SpaceTo(d, i + 1, p);
        ItemsAreRead(f, d, p, j - 1, v.items, n - 1, nodes + 1, depth, []);
        assert [] + v.items == v.items;
      } else {
        SpaceTo(d, i + 1, j - 1);
      }
      ReadsArray(f, d, from, i, nodes, depth);
    } else if v.Obj? {
      ObjectParts(f, d, i, j, v, n, depth);
      if n == 1 {
        SpaceTo(d, i + 1, j - 1);
      } else {
        var entries :| v.fields == Build(map[], entries) && Fields(f, d, i + 1, j - 1, entries, n - 1, depth + 1);
        var k := FirstKeyStart(f, d, i + 1, j - 1, entries, n - 1, depth + 1);
        SpaceTo(d, i + 1, k);
        FieldsAreRead(f, d, k, j - 1, entries, n - 1, nodes + 1, depth, map[]);
      }
      ReadsObject(f, d, from, i, nodes, depth);
    } else {
      LeafIsRead(f, d, from, i, j, v, n, nodes, depth);
    }
  }

  lemma ArrayParts(f: Spelling, d: seq<Byte>, i: nat, j: nat, v: Value, n: int, depth: nat)
    requires Spells(f, d, i, j, v, n, depth) && v.Arr?
    ensures i + 2 <= j <= |d| && d[i] == 91 && d[j - 1] == 93 && depth <= 24
    ensures if v.items == [] then n == 1 && Blanks(d, i + 1, j - 1) else Elements(f, d, i + 1, j - 1, v.items, n - 1, depth + 1)
  {
    hide Elements;
  }

  lemma ObjectParts(f: Spelling, d: seq<Byte>, i: nat, j: nat, v: Value, n: int, depth: nat)
    requires Spells(f, d, i, j, v, n, depth) && v.Obj?
    ensures i + 2 <= j <= |d| && d[i] == 123 && d[j - 1] == 125 && depth <= 24
    ensures if n == 1 then v.fields == map[] && Blanks(d, i + 1, j - 1)
            else exists entries :: v.fields == Build(map[], entries) && Fields(f, d, i + 1, j - 1, entries, n - 1, depth + 1)
  {
    hide Fields;
  }

  /** One step of the decoder at a bracket. */
  lemma ReadsArray(f: Spelling, d: seq<Byte>, from: nat, i: nat, nodes: nat, depth: nat)
    requires from <= |d| && Space(d, from) == i < |d| && d[i] == 91 && nodes + 1 <= 100_000 && depth <= 24
    ensures ReadValue(f, d, from, nodes, depth) ==
      if Here(d, Space(d, i + 1), 93) then Good(Arr([]), Space(d, i + 1) + 1, nodes + 1)
      else ReadItems(f, d, Space(d, i + 1), nodes + 1, depth, [])
  {
    hide ReadItems, ReadFields, ReadText, ScanNumber;
  }

  /** One step of the decoder at a brace. */
  lemma ReadsObject(f: Spelling, d: seq<Byte>, from: nat, i: nat, nodes: nat, depth: nat)
    requires from <= |d| && Space(d, from) == i < |d| && d[i] == 123 && nodes + 1 <= 100_000 && depth <= 24
    ensures ReadValue(f, d, from, nodes, depth) ==
      if Here(d, Space(d, i + 1), 125) then Good(Obj(map[]), Space(d, i + 1) + 1, nodes + 1)
      else ReadFields(f, d, Space(d, i + 1), nodes + 1, depth, map[])
  {
    hide ReadItems, ReadFields, ReadText, ScanNumber;
  }

  /** Where the first item starts; from there on they are the same items. */
  lemma FirstStart(f: Spelling, d: seq<Byte>, i: nat, j: nat, items: seq<Value>, n: int, depth: nat) returns (p: nat)
    requires Elements(f, d, i, j, items, n, depth)
    ensures Blanks(d, i, p) && p < j <= |d| && d[p] !in {32, 9, 13, 10} && d[p] != 93 && n >= 1
    ensures Elements(f, d, p, j, items, n, depth)
  {
    hide Spells;
    var s, q, r, m :| Element(f, d, i, j, items, n, depth, s, q, r, m);
    p := s;
    SpelledStart(f, d, p, q, items[0], m, depth);
    assert Element(f, d, p, j, items, n, depth, p, q, r, m);
  }

  lemma FirstKeyStart(f: Spelling, d: seq<Byte>, i: nat, j: nat, entries: seq<Field>, n: int, depth: nat) returns (k: nat)
    requires Fields(f, d, i, j, entries, n, depth)
    ensures Blanks(d, i, k) && k < j <= |d| && d[k] == 34 && n >= 1
    ensures Fields(f, d, k, j, entries, n, depth)
  {
    hide Spells;
    var s, c, p, q, r, m :| Entry(f, d, i, j, entries, n, depth, s, c, p, q, r, m);
    k := s;
    assert Entry(f, d, k, j, entries, n, depth, k, c, p, q, r, m);
  }

  lemma EndsBefore(d: seq<Byte>, q: nat, r: nat)
    requires Blanks(d, q, r) && (r < |d| ==> d[r] in {44, 93, 125})
    ensures Ends(d, q) && Space(d, q) == r
  {
    SpaceTo(d, q, r);
  }

  lemma {:induction false} ItemsAreRead(
      f: Spelling, d: seq<Byte>, from: nat, j: nat, items: seq<Value>, n: nat, nodes: nat, depth: nat, acc: seq<Value>)
    requires from <= |d| && Elements(f, d, from, j, items, n, depth + 1) && j < |d| && d[j] == 93 && nodes + n <= 100_000
    ensures ReadItems(f, d, from, nodes, depth, acc) == Good(Arr(acc + items), j + 1, nodes + n)
    decreases j - from, 1
  {
    hide ReadValue, Spells, Elements, Space, Ends;
    var p, q, r, m := ElementParts(f, d, from, j, items, n, depth + 1);
    EndsBefore(d, q, r);
    SpelledIsRead(f, d, from, p, q, items[0], m, nodes, depth + 1);
    if |items| == 1 {
      assert acc + [items[0]] == acc + items;
    } else {
      ItemsAreRead(f, d, r + 1, j, items[1..], n - m, nodes + m, depth, acc + [items[0]]);
      assert acc + [items[0]] + items[1..] == acc + items;
    }
  }

  lemma ElementParts(f: Spelling, d: seq<Byte>, i: nat, j: nat, items: seq<Value>, n: int, depth: nat) returns (p: nat, q: nat, r: nat, m: nat)
    requires Elements(f, d, i, j, items, n, depth)
    ensures items != [] && i <= p < q <= r <= j <= |d| && 1 <= m <= n
    ensures Blanks(d, i, p) && Spells(f, d, p, q, items[0], m, depth) && Blanks(d, q, r)
    ensures if |items| == 1 then r == j && n == m
            else r < j && d[r] == 44 && n - m >= 1 && Elements(f, d, r + 1, j, items[1..], n - m, depth)
  {
    hide Spells;
    var a, b, c, e :| Element(f, d, i, j, items, n, depth, a, b, c, e);
    p, q, r, m := a, b, c, e;
    if |items| > 1 {
      ElementsCount(f, d, r + 1, j, items[1..], n - m, depth);
    }
  }

  lemma EntryParts(f: Spelling, d: seq<Byte>, i: nat, j: nat, entries: seq<Field>, n: int, depth: nat)
      returns (k: nat, c: nat, p: nat, q: nat, r: nat, m: nat)
    requires Fields(f, d, i, j, entries, n, depth)
    ensures entries != [] && i <= k < c < p < q <= r <= j <= |d| && 1 <= m <= n
    ensures Blanks(d, i, k) && Key(d, k, c, entries[0].0) && Blanks(d, c + 1, p)
    ensures Spells(f, d, p, q, entries[0].1, m, depth) && Blanks(d, q, r)
    ensures if |entries| == 1 then r == j && n == m
            else r < j && d[r] == 44 && n - m >= 1 && Fields(f, d, r + 1, j, entries[1..], n - m, depth)
  {
    hide Spells;
    var a, b, x, y, z, e :| Entry(f, d, i, j, entries, n, depth, a, b, x, y, z, e);
    k, c, p, q, r, m := a, b, x, y, z, e;
    if |entries| > 1 {
      FieldsCount(f, d, r + 1, j, entries[1..], n - m, depth);
    }
  }

  lemma KeyIsRead(d: seq<Byte>, from: nat, k: nat, c: nat, t: Text)
    requires Blanks(d, from, k) && Key(d, k, c, t)
    ensures ReadKey(d, from) == Some((t, c + 1))
  {
    hide ReadText;
    SpaceTo(d, from, k);
    SpaceTo(d, ReadText(d, k + 1, []).value.1, c);
  }

  lemma {:induction false} FieldsAreRead(
      f: Spelling, d: seq<Byte>, from: nat, j: nat, entries: seq<Field>, n: nat, nodes: nat, depth: nat, acc: map<Text, Value>)
    requires from <= |d| && Fields(f, d, from, j, entries, n, depth + 1) && j < |d| && d[j] == 125 && nodes + n <= 100_000
    ensures ReadFields(f, d, from, nodes, depth, acc) == Good(Obj(Build(acc, entries)), j + 1, nodes + n)
    decreases j - from, 1
  {
    hide ReadValue, ReadKey, Spells, Fields, Space, Ends, Key;
    var k, c, p, q, r, m := EntryParts(f, d, from, j, entries, n, depth + 1);
    KeyIsRead(d, from, k, c, entries[0].0);
    EndsBefore(d, q, r);
    SpelledIsRead(f, d, c + 1, p, q, entries[0].1, m, nodes, depth + 1);
    if |entries| > 1 {
      FieldsAreRead(f, d, r + 1, j, entries[1..], n - m, nodes + m, depth, acc[entries[0].0 := entries[0].1]);
    }
  }

  /** The decoder accepts exactly the texts of the grammar, blanks around them, within 24 levels, 100,000 values and
      the size asked for; and it reads the value they spell. */
  lemma DecodesExactly(f: Spelling, d: seq<Byte>, maxBytes: int, v: Value)
    ensures DecodeJson(f, d, maxBytes) == Some(v) <==>
      1 <= maxBytes && |d| <= maxBytes && exists i, j, n :: Document(f, d, i, j, n, v)
  {
    hide ReadValue, Spells, Space, Ends;
    var r := ReadValue(f, d, 0, 0, 0);
    ReadIsSpelled(f, d, 0, 0, 0);
    if DecodeJson(f, d, maxBytes) == Some(v) {
      SpaceIsBlank(d, 0);
      SpaceIsBlank(d, r.at);
      assert Document(f, d, Space(d, 0), r.at, r.nodes, v);
    }
    if i, j, n :| Document(f, d, i, j, n, v) {
      SpelledStart(f, d, i, j, v, n, 0);
      EndsBefore(d, j, |d|);
      SpelledIsRead(f, d, 0, i, j, v, n, 0, 0);
    }
  }

  ghost predicate Document(f: Spelling, d: seq<Byte>, i: int, j: int, n: int, v: Value) {
    Blanks(d, 0, i) && Spells(f, d, i, j, v, n, 0) && n <= 100_000 && Blanks(d, j, |d|)
  }
}

/**
 What a JSON text says: strings, values and their order read by the rules of RFC 8259 and the order of UTF-16 code
 units, without regard to how they were printed. What is printed says what was meant; each unit of a string takes
 the shortest escape that the grammar leaves for it; and the names of a sorted object ascend. Its
 relations go through the text from left to right and share nothing with the functions that print.
 */
module JsonReading {
  import opened Sorting
  import opened JsonTexts

  // ---- Strings (section 7 of RFC 8259) ----

  /** The value of a hexadecimal digit; 16 if it is none. */
  function DigitValue(c: Unit): nat {
    if 48 <= c <= 57 then c - 48 else if 65 <= c <= 70 then c - 55 else if 97 <= c <= 102 then c - 87 else 16
  }

  predicate IsHexOf(digits: Text, u: Unit) {
    && |digits| == 4 && (forall i :: 0 <= i < 4 ==> DigitValue(digits[i]) < 16)
    && u == ((DigitValue(digits[0]) * 16 + DigitValue(digits[1])) * 16 + DigitValue(digits[2])) * 16 + DigitValue(digits[3])
  }

  /** The escapes of two characters: `\"`, `\\`, `\/`, `\b`, `\f`, `\n`, `\r` and `\t`. */
  predicate IsEscapeOf(c: Unit, u: Unit) {
    || (c == 34 && u == 34) || (c == 92 && u == 92) || (c == 47 && u == 47) || (c == 98 && u == 8)
    || (c == 102 && u == 12) || (c == 110 && u == 10) || (c == 114 && u == 13) || (c == 116 && u == 9)
  }

  /** What is between the quotes stands for `s`: unescaped characters, and escapes of two and of six. */
  predicate Spells(inside: Text, s: Text)
    decreases |inside|
  {
    if inside == [] || s == [] then inside == [] && s == []
    else if inside[0] == 92 then
      || (|inside| >= 2 && IsEscapeOf(inside[1], s[0]) && Spells(inside[2..], s[1..]))
      || (|inside| >= 6 && inside[1] == 117 && IsHexOf(inside[2..6], s[0]) && Spells(inside[6..], s[1..]))
    else inside[0] >= 32 && inside[0] != 34 && inside[0] == s[0] && Spells(inside[1..], s[1..])
  }

  /** `text` is a string in its quotes, and then `rest`. */
  ghost predicate SaysString(text: Text, s: Text, rest: Text) {
    exists inside :: Spells(inside, s) && text == [34] + inside + [34] + rest
  }

  // ---- Values ----

  /** `text` is a text of `j`, and then `rest`. */
  ghost predicate Says(text: Text, j: Json, rest: Text)
    decreases j, 1
  {
    match j
    case Null => text == [110, 117, 108, 108] + rest
    case Bool(on) => text == (if on then [116, 114, 117, 101] else [102, 97, 108, 115, 101]) + rest
    case Num(digits) => text == digits + rest
    case Str(s) => SaysString(text, s, rest)
    case Arr(items) => text != [] && text[0] == 91 && SaysItems(text[1..], items, true, rest)
    case Obj(fields) => text != [] && text[0] == 123 && SaysFields(text[1..], fields, true, rest)
  }

  /** The next item of a list is behind a comma, unless it is the first. */
  predicate Separated(text: Text, first: bool, item: Text) {
    text == if first then item else [44] + item
  }

  /** What is left of a list of items, up to its `]`. */
  ghost predicate SaysItems(text: Text, items: seq<Json>, first: bool, rest: Text)
    decreases items, 0
  {
    if items == [] then text == [93] + rest
    else
      exists item, more ::
        Separated(text, first, item) && Says(item, items[0], more) && SaysItems(more, items[1..], false, rest)
  }

  ghost predicate SaysFields(text: Text, fields: seq<Field<Json>>, first: bool, rest: Text)
    decreases fields, 0
  {
    if fields == [] then text == [125] + rest
    else
      exists field, more ::
        Separated(text, first, field) && SaysField(field, fields[0], more) && SaysFields(more, fields[1..], false, rest)
  }

  /** A name, a colon, and a value. */
  ghost predicate SaysField(text: Text, field: Field<Json>, rest: Text)
    decreases field, 2
  {
    exists value :: SaysString(text, field.key, [58] + value) && Says(value, field.value, rest)
  }

  // ---- What is printed says what was meant ----

  lemma HexSays(u: Unit)
    ensures IsHexOf(Hex4(u), u)
  {
    Nibbles(u);
    assert u / 4096 < 16;
    HexDigitSays(u / 4096);
    HexDigitSays(u / 256 % 16);
    HexDigitSays(u / 16 % 16);
    HexDigitSays(u % 16);
  }

  lemma HexDigitSays(d: int)
    requires 0 <= d < 16
    ensures DigitValue(HexDigit(d)) == d
  {
  }

  lemma EscapedUnitSpells(u: Unit, inside: Text, s: Text)
    requires Spells(inside, s)
    ensures Spells(EscapedUnit(u) + inside, [u] + s)
  {
    var text := EscapedUnit(u) + inside;
    assert ([u] + s)[1..] == s;
    if |EscapedUnit(u)| == 6 {
      HexSays(u);
      assert text[2..6] == Hex4(u) && text[6..] == inside;
    } else if |EscapedUnit(u)| == 2 {
      assert text[2..] == inside;
    } else {
      assert text[1..] == inside;
    }
  }

  /** The text between the quotes. */
  function Inside(s: Text): Text {
    if s == [] then [] else Block(s) + Inside(s[Taken(s)..])
  }

  lemma {:induction false} InsideOnto(s: Text, rest: Text)
    ensures StringOnto(s, rest) == Inside(s) + [34] + rest
    decreases |s|
  {
    if s == [] {
      assert [] + [34] + rest == [34] + rest;
    } else {
      InsideOnto(s[Taken(s)..], rest);
      assert Block(s) + (Inside(s[Taken(s)..]) + [34] + rest) == Block(s) + Inside(s[Taken(s)..]) + [34] + rest;
    }
  }

  lemma {:induction false} InsideSpells(s: Text)
    ensures Spells(Inside(s), s)
    decreases |s|
  {
    if s != [] {
      var rest := s[Taken(s)..];
      InsideSpells(rest);
      if StartsWithPair(s) {
        PairSpells(s[0], s[1], Inside(rest), rest);
        assert s == [s[0], s[1]] + rest && s[..2] == [s[0], s[1]];
      } else {
        EscapedUnitSpells(s[0], Inside(rest), rest);
        assert s == [s[0]] + rest;
      }
    }
  }

  lemma PairSpells(u: Unit, v: Unit, inside: Text, s: Text)
    requires IsLead(u) && IsTrail(v) && Spells(inside, s)
    ensures Spells([u, v] + inside, [u, v] + s)
  {
    assert ([v] + inside)[1..] == inside && ([v] + s)[1..] == s;
    assert Spells([v] + inside, [v] + s);
    assert ([u, v] + inside)[1..] == [v] + inside && ([u, v] + s)[1..] == [v] + s;
  }

  /** Every string is printed so that reading it by the rules gives it back. */
  lemma StringIsSaid(s: Text, rest: Text)
    ensures SaysString([34] + StringOnto(s, rest), s, rest)
  {
    InsideOnto(s, rest);
    InsideSpells(s);
    assert [34] + (Inside(s) + [34] + rest) == [34] + Inside(s) + [34] + rest;
  }

  /** Every tree is printed as a text that says it. */
  lemma {:induction false} PrintSays(j: Json, rest: Text)
    ensures Says(PrintOnto(j, rest), j, rest)
    decreases j, 1
  {
    match j
    case Str(s) => StringIsSaid(s, rest);
    case Arr(items) =>
      ItemsAreSaid(items, true, rest);
      assert PrintOnto(j, rest)[1..] == ItemsOnto(items, true, rest);
    case Obj(fields) =>
      FieldsAreSaid(fields, true, rest);
      assert PrintOnto(j, rest)[1..] == FieldsOnto(fields, true, rest);
    case _ =>
  }

  lemma {:induction false} ItemsAreSaid(items: seq<Json>, first: bool, rest: Text)
    ensures SaysItems(ItemsOnto(items, first, rest), items, first, rest)
    decreases items, 0
  {
    if items != [] {
      var more := ItemsOnto(items[1..], false, rest);
      PrintSays(items[0], more);
      ItemsAreSaid(items[1..], false, rest);
      var item := PrintOnto(items[0], more);
      assert first ==> [] + item == item;
      assert Separated(ItemsOnto(items, first, rest), first, item);
    }
  }

  lemma {:induction false} FieldsAreSaid(fields: seq<Field<Json>>, first: bool, rest: Text)
    ensures SaysFields(FieldsOnto(fields, first, rest), fields, first, rest)
    decreases fields, 0
  {
    if fields != [] {
      var more := FieldsOnto(fields[1..], false, rest);
      FieldIsSaid(fields[0], more);
      FieldsAreSaid(fields[1..], false, rest);
      var field := FieldOnto(fields[0], more);
      assert first ==> [] + field == field;
      assert Separated(FieldsOnto(fields, first, rest), first, field);
    }
  }

  lemma {:induction false} FieldIsSaid(field: Field<Json>, rest: Text)
    ensures SaysField(FieldOnto(field, rest), field, rest)
    decreases field, 2
  {
    PrintSays(field.value, rest);
    StringIsSaid(field.key, [58] + PrintOnto(field.value, rest));
  }

  /** Surrogates come in pairs. */
  predicate IsWellFormed(text: Text) {
    text == [] ||
    if 0xD800 <= text[0] <= 0xDBFF then |text| >= 2 && 0xDC00 <= text[1] <= 0xDFFF && IsWellFormed(text[2..])
    else !(0xDC00 <= text[0] <= 0xDFFF) && IsWellFormed(text[1..])
  }

  lemma {:induction false} PlainUnitsFirst(block: Text, text: Text)
    requires IsWellFormed(text) && forall i :: 0 <= i < |block| ==> !(0xD800 <= block[i] <= 0xDFFF)
    ensures IsWellFormed(block + text)
  {
    if block == [] {
      assert block + text == text;
    } else {
      assert (block + text)[1..] == block[1..] + text;
      PlainUnitsFirst(block[1..], text);
    }
  }

  /** Lone surrogates are escaped, whatever the string is. */
  lemma {:induction false} InsideIsWellFormed(s: Text)
    ensures IsWellFormed(Inside(s))
    decreases |s|
  {
    if s != [] {
      var rest := Inside(s[Taken(s)..]);
      InsideIsWellFormed(s[Taken(s)..]);
      if StartsWithPair(s) {
        assert (Block(s) + rest)[2..] == rest;
      } else {
        PlainUnitsFirst(Block(s), rest);
      }
    }
  }

  /** Nothing else is escaped that need not be, nor at more length: no well-formed text of the string is shorter. */
  lemma {:induction false} InsideIsShortest(inside: Text, s: Text)
    requires Spells(inside, s) && IsWellFormed(inside)
    ensures |Inside(s)| <= |inside|
    decreases |inside|
  {
    if s != [] {
      if inside[0] == 92 {
        var n := if |inside| >= 2 && IsEscapeOf(inside[1], s[0]) && Spells(inside[2..], s[1..]) then 2 else 6;
        EscapeIsPlain(inside, n, s);
        InsideIsShortest(inside[n..], s[1..]);
        InsideAfterOne(s);
      } else if 0xD800 <= inside[0] <= 0xDBFF {
        assert inside[1..][1..] == inside[2..] && s[1..][1..] == s[2..];
        InsideIsShortest(inside[2..], s[2..]);
      } else {
        InsideIsShortest(inside[1..], s[1..]);
      }
    }
  }

  lemma {:induction false} PlainUnitsGone(text: Text, n: nat)
    requires IsWellFormed(text) && n <= |text| && forall i :: 0 <= i < n ==> !(0xD800 <= text[i] <= 0xDFFF)
    ensures IsWellFormed(text[n..])
  {
    if n == 0 {
      assert text[0..] == text;
    } else {
      assert text[1..][n - 1..] == text[n..];
      PlainUnitsGone(text[1..], n - 1);
    }
  }

  lemma EscapeIsPlain(inside: Text, n: nat, s: Text)
    requires IsWellFormed(inside) && inside != [] && inside[0] == 92 && s != []
    requires if n == 2 then |inside| >= 2 && IsEscapeOf(inside[1], s[0])
             else n == 6 && |inside| >= 6 && inside[1] == 117 && IsHexOf(inside[2..6], s[0])
    ensures IsWellFormed(inside[n..])
  {
    if n == 6 {
      assert forall i :: 0 <= i < 4 ==> inside[2..6][i] == inside[2 + i];
    }
    PlainUnitsGone(inside, n);
  }

  /** Of a string that starts with a pair, the second half alone takes more room than both. */
  lemma InsideAfterOne(s: Text)
    requires s != []
    ensures |Inside(s)| <= |EscapedUnit(s[0])| + |Inside(s[1..])|
  {
    if StartsWithPair(s) {
      assert s[1..][1..] == s[2..];
    }
  }

  // ---- Order ----

  /** `a` is before `b` by code units: at the first difference, `i`, its unit is smaller, or it ends there. */
  predicate IsBefore(a: Text, b: Text, i: nat) {
    i <= |a| && i < |b| && a[..i] == b[..i] && (i == |a| || a[i] < b[i])
  }

  ghost predicate Precedes(a: Text, b: Text) {
    exists i: nat :: IsBefore(a, b, i)
  }

  lemma {:induction false} LessTextIff(a: Text, b: Text)
    ensures LessText(a, b) <==> Precedes(a, b)
  {
    forall i: nat | i > 0 && IsBefore(a, b, i) ensures a != [] && b != [] && a[0] == b[0] {
      assert a[..i][0] == a[0] && b[..i][0] == b[0];
    }
    if a != [] && b != [] && a[0] == b[0] {
      LessTextIff(a[1..], b[1..]);
      if i: nat :| IsBefore(a[1..], b[1..], i) {
        assert a[..i + 1] == [a[0]] + a[1..][..i] && b[..i + 1] == [b[0]] + b[1..][..i];
        assert IsBefore(a, b, i + 1);
      }
      if i: nat :| IsBefore(a, b, i) {
        assert i > 0 && a[1..][..i - 1] == a[..i][1..] && b[1..][..i - 1] == b[..i][1..];
        assert IsBefore(a[1..], b[1..], i - 1);
      }
    } else if LessText(a, b) {
      assert IsBefore(a, b, 0);
    }
  }

  /** The names of every object, at any depth, are in ascending order. */
  ghost predicate IsInOrder(j: Json) {
    match j
    case Arr(items) => forall i :: 0 <= i < |items| ==> IsInOrder(items[i])
    case Obj(fields) =>
      && (forall i, k :: 0 <= i < k < |fields| ==> Precedes(fields[i].key, fields[k].key))
      && (forall i :: 0 <= i < |fields| ==> IsInOrder(fields[i].value))
    case _ => true
  }

  lemma {:induction false} SortedIsInOrder(j: Json)
    requires KeysDistinct(j)
    ensures IsInOrder(Sorted(j))
    decreases j
  {
    match j
    case Arr(items) =>
      forall i | 0 <= i < |items| ensures IsInOrder(SortedItems(items)[i]) {
        SortedIsInOrder(items[i]);
      }
    case Obj(fields) =>
      var keys := SortedKeys(fields);
      forall i | 0 <= i < |keys| ensures IsInOrder(SortedFields(fields, keys)[i].value) {
        SortedIsInOrder(fields[IndexOf(fields, keys[i])].value);
      }
      KeysAscend(fields);
      var sorted := SortedFields(fields, keys);
      forall i, k | 0 <= i < k < |sorted| ensures Precedes(sorted[i].key, sorted[k].key) {
        LessTextIff(keys[i], keys[k]);
      }
    case _ =>
  }

  lemma KeysAscend<T>(fields: seq<Field<T>>)
    requires DistinctNames(fields)
    ensures Ascends(LessText, SortedKeys(fields))
  {
    TextsAreOrdered(Elements(Keys(fields)));
    SortAscends(LessText, Keys(fields));
  }
}

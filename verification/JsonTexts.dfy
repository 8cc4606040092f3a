/**
 JSON trees and their texts: printing as `JSON.stringify` does it, sorting keys at every depth, and why two
 trees get the same sorted text exactly when they are equal up to the order of keys. A printed string or value
 can be told from what follows it, so a text is read in one way only, and sorting takes each tree to the one
 tree of its kind whose keys ascend at every depth.
 */
module JsonTexts {
  import opened Sorting

  /** A UTF-16 code unit; a string of them may hold lone surrogates. */
  type Unit = u: int | 0 <= u < 0x10000

  type Text = seq<Unit>

  datatype Field<T> = Field(key: Text, value: T)

  /** A number is represented by the text JavaScript prints for it. */
  datatype Json =
    Null | Bool(on: bool) | Num(digits: Text) | Str(text: Text) | Arr(items: seq<Json>) | Obj(fields: seq<Field<Json>>)

  const QUOTE: Unit := 34
  const BACKSLASH: Unit := 92
  const COMMA: Unit := 44
  const COLON: Unit := 58

  // ---- Order of keys ----

  predicate LessUnit(x: Unit, y: Unit) {
    x < y
  }

  /** The default order of `sort`: by code unit, shorter first. */
  predicate LessText(a: Text, b: Text) {
    LexLess(LessUnit, a, b)
  }

  lemma TextsAreOrdered(s: set<Text>)
    ensures Orders(LessText, s)
  {
    forall a, b ensures !LessText(a, a) && (a == b || LessText(a, b) || LessText(b, a)) {
      LexIsTotal(LessUnit, a, b);
    }
    forall a, b, c | LessText(a, b) && LessText(b, c) ensures LessText(a, c) {
      LexIsTransitive(LessUnit, a, b, c);
    }
  }

  // ---- Strings (section 7 of RFC 8259) ----

  predicate IsLead(u: Unit) {
    0xD800 <= u <= 0xDBFF
  }

  predicate IsTrail(u: Unit) {
    0xDC00 <= u <= 0xDFFF
  }

  predicate StartsWithPair(s: Text) {
    |s| >= 2 && IsLead(s[0]) && IsTrail(s[1])
  }

  function HexDigit(d: int): Unit
    requires 0 <= d < 16
  {
    if d < 10 then 48 + d else 87 + d
  }

  function Hex4(u: Unit): Text {
    [HexDigit(u / 4096), HexDigit(u / 256 % 16), HexDigit(u / 16 % 16), HexDigit(u % 16)]
  }

  function EscapedUnit(u: Unit): Text {
    if u == 8 then [BACKSLASH, 98]
    else if u == 9 then [BACKSLASH, 116]
    else if u == 10 then [BACKSLASH, 110]
    else if u == 12 then [BACKSLASH, 102]
    else if u == 13 then [BACKSLASH, 114]
    else if u == QUOTE then [BACKSLASH, QUOTE]
    else if u == BACKSLASH then [BACKSLASH, BACKSLASH]
    else if u < 32 || IsLead(u) || IsTrail(u) then [BACKSLASH, 117] + Hex4(u)
    else [u]
  }

  /** A surrogate pair is printed as it is, and a lone surrogate is escaped. */
  function Taken(s: Text): nat
    requires s != []
  {
    if StartsWithPair(s) then 2 else 1
  }

  function Block(s: Text): Text
    requires s != []
  {
    if StartsWithPair(s) then s[..2] else EscapedUnit(s[0])
  }

  /** The rest of a string that is inside its quotes, the closing quote, and then `rest`. */
  function StringOnto(s: Text, rest: Text): Text
    decreases |s|
  {
    if s == [] then [QUOTE] + rest else Block(s) + StringOnto(s[Taken(s)..], rest)
  }

  lemma HexIsUnique(u: Unit, v: Unit)
    requires Hex4(u) == Hex4(v)
    ensures u == v
  {
    var (a, b) := (Hex4(u), Hex4(v));
    assert a[0] == b[0] && a[1] == b[1] && a[2] == b[2] && a[3] == b[3];
    Nibbles(u);
    Nibbles(v);
  }

  lemma Nibbles(u: Unit)
    ensures u / 256 == u / 4096 * 16 + u / 256 % 16
    ensures u / 16 == u / 256 * 16 + u / 16 % 16
    ensures u == u / 16 * 16 + u % 16
  {
    assert u / 256 / 16 == u / 4096 && u / 16 / 16 == u / 256;
  }

  lemma EscapedUnitIsUnique(u: Unit, v: Unit, x: Text, y: Text)
    requires EscapedUnit(u) + x == EscapedUnit(v) + y
    ensures u == v && x == y
  {
    var (a, b) := (EscapedUnit(u) + x, EscapedUnit(v) + y);
    assert a[0] == b[0];
    if |EscapedUnit(u)| > 1 {
      assert a[1] == b[1];
      if |EscapedUnit(u)| == 6 {
        assert a[2..6] == Hex4(u) && b[2..6] == Hex4(v);
        HexIsUnique(u, v);
      }
    }
    assert x == a[|EscapedUnit(u)|..] && y == b[|EscapedUnit(v)|..];
  }

  lemma BlockIsUnique(s: Text, t: Text, x: Text, y: Text)
    requires s != [] && t != [] && Block(s) + x == Block(t) + y
    ensures Taken(s) == Taken(t) && s[..Taken(s)] == t[..Taken(t)] && x == y
  {
    var (a, b) := (Block(s) + x, Block(t) + y);
    assert a[0] == b[0];
    if StartsWithPair(s) && StartsWithPair(t) {
      assert a[1] == b[1];
      assert x == a[2..] && y == b[2..];
    } else if !StartsWithPair(s) && !StartsWithPair(t) {
      EscapedUnitIsUnique(s[0], t[0], x, y);
    }
  }

  /** The end of a string can be told, and what the string is. */
  lemma {:induction false} StringIsUnique(s: Text, t: Text, x: Text, y: Text)
    requires StringOnto(s, x) == StringOnto(t, y)
    ensures s == t && x == y
    decreases |s|
  {
    if s == [] || t == [] {
      assert StringOnto(s, x)[0] == StringOnto(t, y)[0];
      assert x == StringOnto(s, x)[1..] && y == StringOnto(t, y)[1..];
    } else {
      BlockIsUnique(s, t, StringOnto(s[Taken(s)..], x), StringOnto(t[Taken(t)..], y));
      StringIsUnique(s[Taken(s)..], t[Taken(t)..], x, y);
      assert s == s[..Taken(s)] + s[Taken(s)..] && t == t[..Taken(t)] + t[Taken(t)..];
    }
  }

  // ---- Numbers ----

  predicate InNumber(u: Unit) {
    48 <= u <= 57 || u == 43 || u == 45 || u == 46 || u == 101
  }

  /** What a printed finite number looks like: digits, signs, point and exponent, starting with a digit or `-`. */
  predicate IsNumber(s: Text) {
    s != [] && (48 <= s[0] <= 57 || s[0] == 45) && forall i :: 0 <= i < |s| ==> InNumber(s[i])
  }

  /** What may follow a value. */
  predicate Ends(rest: Text) {
    rest == [] || rest[0] == COMMA || rest[0] == 93 || rest[0] == 125
  }

  lemma LongerGoesOn(s: Text, t: Text, x: Text, y: Text)
    requires s + x == t + y && |s| < |t|
    ensures x != [] && t[|s|] == x[0]
  {
    var (a, b) := (s + x, t + y);
    assert a[|s|] == b[|s|];
  }

  lemma NumberIsUnique(s: Text, t: Text, x: Text, y: Text)
    requires IsNumber(s) && IsNumber(t) && Ends(x) && Ends(y) && s + x == t + y
    ensures s == t && x == y
  {
    var (a, b) := (s + x, t + y);
    if |s| < |t| {
      LongerGoesOn(s, t, x, y);
    } else if |t| < |s| {
      LongerGoesOn(t, s, y, x);
    }
    assert s == a[..|s|] && t == b[..|t|] && x == a[|s|..] && y == b[|t|..];
  }

  // ---- Values ----

  /** The text of `j`, followed by `rest`. */
  function PrintOnto(j: Json, rest: Text): Text
    decreases j
  {
    match j
    case Null => [110, 117, 108, 108] + rest
    case Bool(on) => (if on then [116, 114, 117, 101] else [102, 97, 108, 115, 101]) + rest
    case Num(digits) => digits + rest
    case Str(s) => [QUOTE] + StringOnto(s, rest)
    case Arr(items) => [91] + ItemsOnto(items, true, rest)
    case Obj(fields) => [123] + FieldsOnto(fields, true, rest)
  }

  function ItemsOnto(items: seq<Json>, first: bool, rest: Text): Text
    decreases items
  {
    if items == [] then [93] + rest
    else Comma(first) + PrintOnto(items[0], ItemsOnto(items[1..], false, rest))
  }

  function FieldsOnto(fields: seq<Field<Json>>, first: bool, rest: Text): Text
    decreases fields
  {
    if fields == [] then [125] + rest
    else Comma(first) + FieldOnto(fields[0], FieldsOnto(fields[1..], false, rest))
  }

  function FieldOnto(field: Field<Json>, rest: Text): Text
    decreases field
  {
    [QUOTE] + StringOnto(field.key, [COLON] + PrintOnto(field.value, rest))
  }

  function Comma(first: bool): Text {
    if first then [] else [COMMA]
  }

  function Print(j: Json): Text {
    PrintOnto(j, [])
  }

  predicate NumbersOk(j: Json) {
    match j
    case Num(digits) => IsNumber(digits)
    case Arr(items) => forall i :: 0 <= i < |items| ==> NumbersOk(items[i])
    case Obj(fields) => forall i :: 0 <= i < |fields| ==> NumbersOk(fields[i].value)
    case _ => true
  }

  lemma {:induction false} FirstUnits(j: Json, x: Text)
    requires NumbersOk(j)
    ensures PrintOnto(j, x) != []
    ensures var u := PrintOnto(j, x)[0];
            && (u == 110 <==> j.Null?) && ((u == 116 || u == 102) <==> j.Bool?)
            && (u == QUOTE <==> j.Str?) && (u == 91 <==> j.Arr?) && (u == 123 <==> j.Obj?)
            && ((48 <= u <= 57 || u == 45) <==> j.Num?) && u != 93
  {
  }

  lemma Tail(u: Unit, a: Text, b: Text)
    requires [u] + a == [u] + b
    ensures a == b
  {
    assert a == ([u] + a)[1..] && b == ([u] + b)[1..];
  }

  /** A printed value can be read in one way: where it ends and what it is. */
  lemma {:induction false} PrintIsUnique(a: Json, b: Json, x: Text, y: Text)
    requires NumbersOk(a) && NumbersOk(b) && Ends(x) && Ends(y) && PrintOnto(a, x) == PrintOnto(b, y)
    ensures a == b && x == y
    decreases a
  {
    FirstUnits(a, x);
    FirstUnits(b, y);
    match a
    case Null =>
      assert x == PrintOnto(a, x)[4..] && y == PrintOnto(b, y)[4..];
    case Bool(on) =>
      assert PrintOnto(a, x)[0] == PrintOnto(b, y)[0];
      assert a == b;
      var n := if on then 4 else 5;
      assert x == PrintOnto(a, x)[n..] && y == PrintOnto(b, y)[n..];
    case Num(_) =>
      NumberIsUnique(a.digits, b.digits, x, y);
    case Str(_) =>
      Tail(QUOTE, StringOnto(a.text, x), StringOnto(b.text, y));
      StringIsUnique(a.text, b.text, x, y);
    case Arr(_) =>
      Tail(91, ItemsOnto(a.items, true, x), ItemsOnto(b.items, true, y));
      ItemsAreUnique(a.items, b.items, true, x, y);
    case Obj(_) =>
      Tail(123, FieldsOnto(a.fields, true, x), FieldsOnto(b.fields, true, y));
      FieldsAreUnique(a.fields, b.fields, true, x, y);
  }

  lemma {:induction false} ItemsAreUnique(a: seq<Json>, b: seq<Json>, first: bool, x: Text, y: Text)
    requires forall i :: 0 <= i < |a| ==> NumbersOk(a[i])
    requires forall i :: 0 <= i < |b| ==> NumbersOk(b[i])
    requires ItemsOnto(a, first, x) == ItemsOnto(b, first, y)
    ensures a == b && x == y
    decreases a
  {
    if a != [] {
      FirstUnits(a[0], ItemsOnto(a[1..], false, x));
    }
    if b != [] {
      FirstUnits(b[0], ItemsOnto(b[1..], false, y));
    }
    if a == [] || b == [] {
      assert ItemsOnto(a, first, x)[0] == ItemsOnto(b, first, y)[0];
      Tail(93, x, y);
    } else {
      var (p, q) := (PrintOnto(a[0], ItemsOnto(a[1..], false, x)), PrintOnto(b[0], ItemsOnto(b[1..], false, y)));
      SameAfterComma(first, p, q);
      PrintIsUnique(a[0], b[0], ItemsOnto(a[1..], false, x), ItemsOnto(b[1..], false, y));
      ItemsAreUnique(a[1..], b[1..], false, x, y);
      assert a == [a[0]] + a[1..] && b == [b[0]] + b[1..];
    }
  }

  lemma SameAfterComma(first: bool, p: Text, q: Text)
    requires Comma(first) + p == Comma(first) + q
    ensures p == q
  {
    if first {
      assert p == [] + p && q == [] + q;
    } else {
      Tail(COMMA, p, q);
    }
  }

  lemma {:induction false} FieldsAreUnique(a: seq<Field<Json>>, b: seq<Field<Json>>, first: bool, x: Text, y: Text)
    requires forall i :: 0 <= i < |a| ==> NumbersOk(a[i].value)
    requires forall i :: 0 <= i < |b| ==> NumbersOk(b[i].value)
    requires FieldsOnto(a, first, x) == FieldsOnto(b, first, y)
    ensures a == b && x == y
    decreases a
  {
    if a == [] || b == [] {
      assert FieldsOnto(a, first, x)[0] == FieldsOnto(b, first, y)[0];
      Tail(125, x, y);
    } else {
      var (restA, restB) := (FieldsOnto(a[1..], false, x), FieldsOnto(b[1..], false, y));
      SameAfterComma(first, FieldOnto(a[0], restA), FieldOnto(b[0], restB));
      FieldStartIsUnique(a[0], b[0], restA, restB);
      PrintIsUnique(a[0].value, b[0].value, restA, restB);
      FieldsAreUnique(a[1..], b[1..], false, x, y);
      assert a == [a[0]] + a[1..] && b == [b[0]] + b[1..];
    }
  }

  lemma FieldStartIsUnique(f: Field<Json>, g: Field<Json>, x: Text, y: Text)
    requires FieldOnto(f, x) == FieldOnto(g, y)
    ensures f.key == g.key && PrintOnto(f.value, x) == PrintOnto(g.value, y)
  {
    var (p, q) := ([COLON] + PrintOnto(f.value, x), [COLON] + PrintOnto(g.value, y));
    Tail(QUOTE, StringOnto(f.key, p), StringOnto(g.key, q));
    StringIsUnique(f.key, g.key, p, q);
    Tail(COLON, PrintOnto(f.value, x), PrintOnto(g.value, y));
  }

  // ---- Sorted keys ----

  function Keys<T>(fields: seq<Field<T>>): (keys: seq<Text>)
    ensures |keys| == |fields| && forall i :: 0 <= i < |fields| ==> keys[i] == fields[i].key
  {
    seq(|fields|, i requires 0 <= i < |fields| => fields[i].key)
  }

  function IndexOf<T>(fields: seq<Field<T>>, key: Text): (i: nat)
    requires key in Keys(fields)
    ensures i < |fields| && fields[i].key == key
  {
    if fields[0].key == key then 0
    else
      assert Keys(fields)[1..] == Keys(fields[1..]);
      IndexOf(fields[1..], key) + 1
  }

  predicate DistinctNames<T>(fields: seq<Field<T>>) {
    forall i, k :: 0 <= i < k < |fields| ==> fields[i].key != fields[k].key
  }

  predicate KeysDistinct(j: Json) {
    match j
    case Arr(items) => forall i :: 0 <= i < |items| ==> KeysDistinct(items[i])
    case Obj(fields) =>
      && DistinctNames(fields)
      && (forall i :: 0 <= i < |fields| ==> KeysDistinct(fields[i].value))
    case _ => true
  }

  function SortedKeys<T>(fields: seq<Field<T>>): (keys: seq<Text>)
    ensures forall key :: key in keys <==> key in Keys(fields)
  {
    SortKeeps(Keys(fields));
    Sort(LessText, Keys(fields))
  }

  lemma {:induction false} InsertKeeps(key: Text, keys: seq<Text>)
    ensures forall k :: k in Insert(LessText, key, keys) <==> k == key || k in keys
  {
    if keys != [] {
      InsertKeeps(key, keys[1..]);
    }
  }

  lemma {:induction false} SortKeeps(keys: seq<Text>)
    ensures forall k :: k in Sort(LessText, keys) <==> k in keys
  {
    if keys != [] {
      SortKeeps(keys[1..]);
      InsertKeeps(keys[0], Sort(LessText, keys[1..]));
    }
  }

  /** `j` with the keys in order at every depth. */
  function Sorted(j: Json): Json
    decreases j
  {
    match j
    case Arr(items) => Arr(SortedItems(items))
    case Obj(fields) => Obj(SortedFields(fields, SortedKeys(fields)))
    case _ => j
  }

  function SortedItems(items: seq<Json>): (r: seq<Json>)
    ensures |r| == |items| && forall i :: 0 <= i < |items| ==> r[i] == Sorted(items[i])
    decreases items
  {
    if items == [] then [] else [Sorted(items[0])] + SortedItems(items[1..])
  }

  function SortedFields(fields: seq<Field<Json>>, keys: seq<Text>): (r: seq<Field<Json>>)
    requires forall key :: key in keys ==> key in Keys(fields)
    ensures |r| == |keys|
    ensures forall i :: 0 <= i < |keys| ==>
              keys[i] in Keys(fields) && r[i] == Field(keys[i], Sorted(fields[IndexOf(fields, keys[i])].value))
    decreases fields, |keys|
  {
    if keys == [] then []
    else [Field(keys[0], Sorted(fields[IndexOf(fields, keys[0])].value))] + SortedFields(fields, keys[1..])
  }

  lemma {:induction false} SortingKeepsNumbers(j: Json)
    requires NumbersOk(j)
    ensures NumbersOk(Sorted(j))
    decreases j
  {
    match j
    case Arr(items) =>
      forall i | 0 <= i < |items| ensures NumbersOk(SortedItems(items)[i]) {
        SortingKeepsNumbers(items[i]);
      }
    case Obj(fields) =>
      var keys := SortedKeys(fields);
      forall i | 0 <= i < |keys| ensures NumbersOk(SortedFields(fields, keys)[i].value) {
        SortingKeepsNumbers(fields[IndexOf(fields, keys[i])].value);
      }
    case _ =>
  }

  /** Equal up to the order of keys. */
  ghost predicate Same(a: Json, b: Json)
    decreases a
  {
    match a
    case Arr(items) =>
      b.Arr? && |b.items| == |items| && forall i :: 0 <= i < |items| ==> Same(items[i], b.items[i])
    case Obj(fields) =>
      && b.Obj? && Elements(Keys(fields)) == Elements(Keys(b.fields))
      && forall i, k :: 0 <= i < |fields| && 0 <= k < |b.fields| && fields[i].key == b.fields[k].key ==>
           Same(fields[i].value, b.fields[k].value)
    case _ => a == b
  }

  lemma SameKeysSortAlike(a: seq<Field<Json>>, b: seq<Field<Json>>)
    requires KeysDistinct(Obj(a)) && KeysDistinct(Obj(b))
    ensures SortedKeys(a) == SortedKeys(b) <==> Elements(Keys(a)) == Elements(Keys(b))
  {
    TextsAreOrdered(Elements(Keys(a)));
    TextsAreOrdered(Elements(Keys(b)));
    SortIsAscending(LessText, Keys(a));
    SortIsAscending(LessText, Keys(b));
  }

  lemma IndexOfKey<T>(fields: seq<Field<T>>, i: nat)
    requires DistinctNames(fields) && i < |fields|
    ensures fields[i].key in Keys(fields) && IndexOf(fields, fields[i].key) == i
  {
    assert Keys(fields)[i] == fields[i].key;
  }

  /** Sorting forgets the order of keys and nothing else. */
  lemma {:induction false} SortedIffSame(a: Json, b: Json)
    requires KeysDistinct(a) && KeysDistinct(b)
    ensures Sorted(a) == Sorted(b) <==> Same(a, b)
    decreases a
  {
    if a.Arr? && b.Arr? && |a.items| == |b.items| {
      var (p, q) := (SortedItems(a.items), SortedItems(b.items));
      forall i | 0 <= i < |a.items| ensures p[i] == q[i] <==> Same(a.items[i], b.items[i]) {
        SortedIffSame(a.items[i], b.items[i]);
      }
    } else if a.Obj? && b.Obj? {
      SameKeysSortAlike(a.fields, b.fields);
      var (p, q) := (Sorted(a).fields, Sorted(b).fields);
      if Sorted(a) == Sorted(b) {
        SortedSoSame(a, b);
      } else if Same(a, b) {
        SameSoSorted(a, b);
      }
    }
  }

  lemma {:induction false} SortedSoSame(a: Json, b: Json)
    requires KeysDistinct(a) && KeysDistinct(b) && a.Obj? && b.Obj? && Sorted(a) == Sorted(b)
    ensures Same(a, b)
    decreases a, 0
  {
    SameKeysSortAlike(a.fields, b.fields);
    var (keys, p, q) := (SortedKeys(a.fields), Sorted(a).fields, Sorted(b).fields);
    assert SortedKeys(b.fields) == keys by {
      forall n | 0 <= n < |p| ensures keys[n] == SortedKeys(b.fields)[n] {
        assert p[n] == q[n];
      }
    }
    forall i, k | 0 <= i < |a.fields| && 0 <= k < |b.fields| && a.fields[i].key == b.fields[k].key
      ensures Same(a.fields[i].value, b.fields[k].value)
    {
      IndexOfKey(a.fields, i);
      IndexOfKey(b.fields, k);
      var n :| 0 <= n < |keys| && keys[n] == a.fields[i].key;
      assert p[n] == q[n];
      SortedIffSame(a.fields[i].value, b.fields[k].value);
    }
  }

  lemma {:induction false} SameSoSorted(a: Json, b: Json)
    requires KeysDistinct(a) && KeysDistinct(b) && a.Obj? && b.Obj? && Same(a, b)
    ensures Sorted(a) == Sorted(b)
    decreases a, 0
  {
    SameKeysSortAlike(a.fields, b.fields);
    var (keys, p, q) := (SortedKeys(a.fields), Sorted(a).fields, Sorted(b).fields);
    forall n | 0 <= n < |keys| ensures p[n] == q[n] {
      assert keys[n] in Keys(a.fields) && keys[n] in Keys(b.fields);
      var (i, k) := (IndexOf(a.fields, keys[n]), IndexOf(b.fields, keys[n]));
      SortedIffSame(a.fields[i].value, b.fields[k].value);
    }
  }

  /** The sorted text is canonical. */
  lemma SortedTextIsCanonical(a: Json, b: Json)
    requires NumbersOk(a) && NumbersOk(b) && KeysDistinct(a) && KeysDistinct(b)
    ensures Print(Sorted(a)) == Print(Sorted(b)) <==> Same(a, b)
  {
    SortingKeepsNumbers(a);
    SortingKeepsNumbers(b);
    SortedIffSame(a, b);
    if Print(Sorted(a)) == Print(Sorted(b)) {
      PrintIsUnique(Sorted(a), Sorted(b), [], []);
    }
  }
}

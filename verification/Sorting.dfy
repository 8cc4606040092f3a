/**
 Sequences in ascending order: the ascending sequence of a finite set under any order that puts its elements in
 one line, sorting without repetitions, what filtering and mapping do to such sequences, and the rank of an
 element. `LexLess` is the order of texts by code units, which JavaScript's `<` and a sort without a comparator
 use; the ids of the permission tables, the fields of stable JSON and the printed UUIDs are all ordered by it.
 */
module Sorting {
  /** `less` puts the elements of `s` in one line. */
  ghost predicate Orders<T(!new)>(less: (T, T) -> bool, s: set<T>) {
    && (forall x :: x in s ==> !less(x, x))
    && (forall x, y :: x in s && y in s && x != y ==> less(x, y) || less(y, x))
    && (forall x, y, z :: x in s && y in s && z in s && less(x, y) && less(y, z) ==> less(x, z))
  }

  ghost predicate Ascends<T(!new)>(less: (T, T) -> bool, s: seq<T>) {
    forall i, j :: 0 <= i < j < |s| ==> less(s[i], s[j])
  }

  function Elements<T>(s: seq<T>): set<T> {
    set x | x in s
  }

  ghost predicate Distinct<T>(s: seq<T>) {
    forall i, j :: 0 <= i < j < |s| ==> s[i] != s[j]
  }

  lemma {:induction false} LeastExists<T(!new)>(less: (T, T) -> bool, s: set<T>) returns (least: T)
    requires s != {} && Orders(less, s)
    ensures least in s && forall x :: x in s && x != least ==> less(least, x)
    decreases |s|
  {
    var x :| x in s;
    var rest := s - {x};
    if rest == {} {
      assert forall z :: z in s && z != x ==> z in rest;
      least := x;
    } else {
      var y := LeastExists(less, rest);
      least := if less(x, y) then x else y;
    }
  }

  lemma HasLeast<T(!new)>(less: (T, T) -> bool, s: set<T>)
    requires s != {} && Orders(less, s)
    ensures exists least :: IsLeast(less, s, least)
  {
    var least := LeastExists(less, s);
    assert IsLeast(less, s, least);
  }

  ghost predicate IsLeast<T(!new)>(less: (T, T) -> bool, s: set<T>, least: T) {
    least in s && forall x :: x in s && x != least ==> less(least, x)
  }

  /** The elements of `s` in ascending order. */
  ghost function Ascending<T(!new)>(less: (T, T) -> bool, s: set<T>): (r: seq<T>)
    requires Orders(less, s)
    ensures Ascends(less, r) && Elements(r) == s
    decreases |s|
  {
    if s == {} then []
    else
      HasLeast(less, s);
      var least :| IsLeast(less, s, least);
      var rest := Ascending(less, s - {least});
      PrependLeast(less, s, least, rest);
      [least] + rest
  }

  lemma PrependLeast<T(!new)>(less: (T, T) -> bool, s: set<T>, least: T, rest: seq<T>)
    requires IsLeast(less, s, least) && Ascends(less, rest) && Elements(rest) == s - {least}
    ensures Ascends(less, [least] + rest) && Elements([least] + rest) == s
  {
    forall j | 0 <= j < |rest|
      ensures less(least, rest[j])
    {
      assert rest[j] in Elements(rest);
    }
    assert Elements([least] + rest) == {least} + Elements(rest);
  }

  /** There is one ascending order. */
  lemma {:induction false} AscendingIsUnique<T(!new)>(less: (T, T) -> bool, a: seq<T>, b: seq<T>)
    requires Ascends(less, a) && Ascends(less, b) && Elements(a) == Elements(b)
    requires Orders(less, Elements(a))
    ensures a == b
  {
    assert forall i :: 0 <= i < |a| ==> a[i] in Elements(a);
    assert forall i :: 0 <= i < |b| ==> b[i] in Elements(b);
    if a != [] && b != [] {
      assert a[0] in b && b[0] in a;
      assert a[0] == b[0];
      TailElements(less, a);
      TailElements(less, b);
      AscendingIsUnique(less, a[1..], b[1..]);
    }
  }

  lemma TailElements<T(!new)>(less: (T, T) -> bool, a: seq<T>)
    requires a != [] && Ascends(less, a) && Orders(less, Elements(a))
    ensures Elements(a[1..]) == Elements(a) - {a[0]}
  {
    forall x | x in Elements(a) - {a[0]}
      ensures x in Elements(a[1..])
    {
      var i :| 0 <= i < |a| && a[i] == x;
      assert a[1..][i - 1] == x;
    }
    forall x | x in Elements(a[1..])
      ensures x in Elements(a) && x != a[0]
    {
      var i :| 0 <= i < |a[1..]| && a[1..][i] == x;
      assert a[i + 1] == x && less(a[0], a[i + 1]);
    }
  }

  // ---- The order of texts ----

  ghost predicate IsOrder<T(!new)>(less: (T, T) -> bool) {
    && (forall x :: !less(x, x))
    && (forall x, y :: x == y || less(x, y) || less(y, x))
    && (forall x, y, z :: less(x, y) && less(y, z) ==> less(x, z))
  }

  predicate LessChar(x: char, y: char) {
    x < y
  }

  /** Unit by unit, and the shorter one first. */
  predicate LexLess<T(==)>(less: (T, T) -> bool, a: seq<T>, b: seq<T>) {
    b != [] && (a == [] || less(a[0], b[0]) || (a[0] == b[0] && LexLess(less, a[1..], b[1..])))
  }

  lemma {:induction false} LexIsTotal<T(!new)>(less: (T, T) -> bool, a: seq<T>, b: seq<T>)
    requires IsOrder(less)
    ensures !LexLess(less, a, a)
    ensures a == b || LexLess(less, a, b) || LexLess(less, b, a)
  {
    if a != [] {
      LexIsTotal(less, a[1..], if b == [] then [] else b[1..]);
      assert a == [a[0]] + a[1..];
      assert b != [] ==> b == [b[0]] + b[1..];
    }
  }

  lemma {:induction false} LexIsTransitive<T(!new)>(less: (T, T) -> bool, a: seq<T>, b: seq<T>, c: seq<T>)
    requires IsOrder(less) && LexLess(less, a, b) && LexLess(less, b, c)
    ensures LexLess(less, a, c)
  {
    if a != [] && a[0] == b[0] == c[0] {
      LexIsTransitive(less, a[1..], b[1..], c[1..]);
    }
  }

  // ---- The insertion sort that stands for the platform's `sort` ----

  function Insert<T>(less: (T, T) -> bool, x: T, s: seq<T>): seq<T> {
    if s == [] || less(x, s[0]) then [x] + s else [s[0]] + Insert(less, x, s[1..])
  }

  function Sort<T>(less: (T, T) -> bool, s: seq<T>): seq<T> {
    if s == [] then [] else Insert(less, s[0], Sort(less, s[1..]))
  }

  lemma ConsAscends<T(!new)>(less: (T, T) -> bool, x: T, s: seq<T>)
    requires Ascends(less, s) && forall y :: y in s ==> less(x, y)
    ensures Ascends(less, [x] + s)
  {
    forall i, j | 0 <= i < j < |s| + 1 ensures less(([x] + s)[i], ([x] + s)[j]) {
      if i == 0 {
        assert s[j - 1] in s;
      } else {
        assert less(s[i - 1], s[j - 1]);
      }
    }
  }

  lemma ConcatAscends<T(!new)>(less: (T, T) -> bool, a: seq<T>, b: seq<T>)
    requires Ascends(less, a) && Ascends(less, b)
    requires forall x, y :: x in a && y in b ==> less(x, y)
    ensures Ascends(less, a + b)
  {
    assert forall i :: 0 <= i < |a| ==> a[i] in a;
    assert forall i :: 0 <= i < |b| ==> b[i] in b;
  }

  lemma {:induction false} InsertAscends<T(!new)>(less: (T, T) -> bool, x: T, s: seq<T>)
    requires Ascends(less, s) && x !in s && Orders(less, Elements(s) + {x})
    ensures Ascends(less, Insert(less, x, s))
    ensures Elements(Insert(less, x, s)) == Elements(s) + {x}
  {
    if s != [] {
      assert s[0] in Elements(s);
      if less(x, s[0]) {
        assert forall y :: y in s ==> y in Elements(s);
      } else {
        var rest := s[1..];
        assert Elements(s) == {s[0]} + Elements(rest);
        InsertAscends(less, x, rest);
        var r := Insert(less, x, rest);
        forall y | y in r ensures less(s[0], y) {
          assert y in Elements(r);
          if y != x {
            var k :| 0 <= k < |rest| && rest[k] == y;
            assert less(s[0], s[k + 1]);
          }
        }
        ConsAscends(less, s[0], r);
      }
    }
  }

  /** Sorting a list without repetitions puts its elements in ascending order. */
  lemma {:induction false} SortIsAscending<T(!new)>(less: (T, T) -> bool, s: seq<T>)
    requires Distinct(s) && Orders(less, Elements(s))
    ensures Sort(less, s) == Ascending(less, Elements(s))
  {
    SortAscends(less, s);
    AscendingIsUnique(less, Sort(less, s), Ascending(less, Elements(s)));
  }

  lemma {:induction false} SortAscends<T(!new)>(less: (T, T) -> bool, s: seq<T>)
    requires Distinct(s) && Orders(less, Elements(s))
    ensures Ascends(less, Sort(less, s)) && Elements(Sort(less, s)) == Elements(s)
  {
    if s != [] {
      var rest := s[1..];
      assert Elements(s) == Elements(rest) + {s[0]};
      SortAscends(less, rest);
      var r := Sort(less, rest);
      assert s[0] !in rest;
      assert forall y :: y in r ==> y in Elements(r);
      InsertAscends(less, s[0], r);
    }
  }

  lemma TakeOneMore<T>(s: seq<T>, i: nat)
    requires i < |s|
    ensures s[..i + 1] == s[..i] + [s[i]]
  {
  }

  lemma AppendOneMore<T>(before: seq<T>, s: seq<T>, i: nat)
    requires i < |s|
    ensures before + s[..i + 1] == before + s[..i] + [s[i]]
  {
  }

  // ---- Filtering and mapping ----

  function Filter<T>(p: T -> bool, s: seq<T>): seq<T> {
    if s == [] then [] else (if p(s[0]) then [s[0]] else []) + Filter(p, s[1..])
  }

  function Map<T, U>(f: T -> U, s: seq<T>): (r: seq<U>)
    ensures |r| == |s| && forall i :: 0 <= i < |s| ==> r[i] == f(s[i])
  {
    if s == [] then [] else [f(s[0])] + Map(f, s[1..])
  }

  lemma {:induction false} FilterOfConcat<T>(p: T -> bool, a: seq<T>, b: seq<T>)
    ensures Filter(p, a + b) == Filter(p, a) + Filter(p, b)
  {
    if a == [] {
      assert a + b == b;
    } else {
      var head := if p(a[0]) then [a[0]] else [];
      assert (a + b)[1..] == a[1..] + b;
      FilterOfConcat(p, a[1..], b);
      ConcatAssociates(head, Filter(p, a[1..]), Filter(p, b));
    }
  }

  lemma ConcatAssociates<T>(a: seq<T>, b: seq<T>, c: seq<T>)
    ensures a + b + c == a + (b + c)
  {
  }

  lemma {:induction false} FiltersCommute<T>(p: T -> bool, q: T -> bool, s: seq<T>)
    ensures Filter(p, Filter(q, s)) == Filter(q, Filter(p, s))
  {
    if s != [] {
      FiltersCommute(p, q, s[1..]);
      FilterOfConcat(p, if q(s[0]) then [s[0]] else [], Filter(q, s[1..]));
      FilterOfConcat(q, if p(s[0]) then [s[0]] else [], Filter(p, s[1..]));
    }
  }

  lemma {:induction false} FilterOfMap<T(!new), U>(p: U -> bool, f: T -> U, q: T -> bool, s: seq<T>)
    requires forall x :: q(x) <==> p(f(x))
    ensures Filter(p, Map(f, s)) == Map(f, Filter(q, s))
  {
    if s != [] {
      FilterOfMap(p, f, q, s[1..]);
      MapOfConcat(f, if q(s[0]) then [s[0]] else [], Filter(q, s[1..]));
      assert Map(f, s)[1..] == Map(f, s[1..]);
    }
  }

  lemma MapOfConcat<T, U>(f: T -> U, a: seq<T>, b: seq<T>)
    ensures Map(f, a + b) == Map(f, a) + Map(f, b)
  {
  }

  lemma {:induction false} FilterElements<T>(p: T -> bool, s: seq<T>)
    ensures forall x :: x in Filter(p, s) <==> x in s && p(x)
  {
    if s != [] {
      FilterElements(p, s[1..]);
    }
  }

  lemma {:induction false} FilterAscends<T(!new)>(less: (T, T) -> bool, p: T -> bool, s: seq<T>)
    requires Ascends(less, s)
    ensures Ascends(less, Filter(p, s))
  {
    if s != [] {
      FilterAscends(less, p, s[1..]);
      FilterElements(p, s[1..]);
      var r := Filter(p, s[1..]);
      assert forall x :: x in s[1..] ==> less(s[0], x);
      assert forall i :: 0 <= i < |r| ==> r[i] in r;
    }
  }

  lemma FilterOfLast<T>(p: T -> bool, front: seq<T>, last: T)
    ensures Filter(p, front + [last]) == if p(last) then Filter(p, front) + [last] else Filter(p, front)
  {
    FilterOfConcat(p, front, [last]);
    assert Filter(p, [last]) == if p(last) then [last] else [];
  }

  /** Filtering a set before putting it in order is filtering the ordered sequence. */
  lemma FilterOfAscending<T(!new)>(less: (T, T) -> bool, p: T -> bool, s: set<T>, part: set<T>)
    requires Orders(less, s) && forall x :: x in part <==> x in s && p(x)
    ensures Orders(less, part) && Ascending(less, part) == Filter(p, Ascending(less, s))
  {
    var all := Ascending(less, s);
    FilterAscends(less, p, all);
    FilterElements(p, all);
    forall x ensures x in all <==> x in s {
      assert x in all <==> x in Elements(all);
    }
    assert Elements(Filter(p, all)) == part;
    AscendingIsUnique(less, Filter(p, all), Ascending(less, part));
  }

  /** An element's place in an ascending sequence is the number of smaller elements. */
  lemma {:induction false} PlaceIsRank<T(!new)>(less: (T, T) -> bool, s: seq<T>, i: nat, below: set<T>)
    requires Ascends(less, s) && Orders(less, Elements(s)) && i < |s|
    requires forall x :: x in below <==> x in Elements(s) && less(x, s[i])
    ensures |below| == i
  {
    forall k | i <= k < |s|
      ensures !less(s[k], s[i])
    {
      assert s[i] in Elements(s) && s[k] in Elements(s);
    }
    forall x | x in below ensures x in s[..i] {
      var k :| 0 <= k < |s| && s[k] == x;
      assert s[..i][k] == x;
    }
    forall x | x in s[..i] ensures x in below {
      var k :| 0 <= k < i && s[k] == x;
      assert s[k] in Elements(s) && less(s[k], s[i]);
    }
    assert below == Elements(s[..i]);
    DistinctCount(less, s, i);
  }

  lemma {:induction false} DistinctCount<T(!new)>(less: (T, T) -> bool, s: seq<T>, i: nat)
    requires Ascends(less, s) && Orders(less, Elements(s)) && i <= |s|
    ensures |Elements(s[..i])| == i
  {
    if i > 0 {
      DistinctCount(less, s, i - 1);
      IsNew(less, s, i - 1);
      ElementsOneMore(s, i - 1);
    }
  }

  lemma ElementsOneMore<T>(s: seq<T>, i: nat)
    requires i < |s|
    ensures Elements(s[..i + 1]) == Elements(s[..i]) + {s[i]}
  {
    assert s[..i + 1] == s[..i] + [s[i]];
  }

  lemma IsNew<T(!new)>(less: (T, T) -> bool, s: seq<T>, i: nat)
    requires Ascends(less, s) && Orders(less, Elements(s)) && i < |s|
    ensures s[i] !in Elements(s[..i])
  {
    assert s[i] in Elements(s);
    assert forall k :: 0 <= k < i ==> less(s[k], s[i]);
  }
}

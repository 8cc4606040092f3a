/**
 `normalize` and `stableStringify`: an object graph, cyclic and shared as it may be, is turned into the sorted
 JSON tree it stands for, or rejected.
 */
module StrictJson {
  import opened Wrappers
  import opened Finite
  import opened Sorting
  import opened JsonTexts

  type Ref = nat

  datatype Value =
    | NullValue
    | BoolValue(on: bool)
    | StrValue(text: Text)
    | NumValue(digits: Option<Text>)      // none for NaN and the infinities
    | Undefined
    | Unserializable                      // functions, symbols and big integers
    | Ref(ref: Ref)

  datatype Body =
    | Array(items: seq<Option<Value>>)    // none for a hole
    | Record(fields: seq<Field<Value>>)

  datatype Node =
    | Date(iso: Option<Text>)             // none for an invalid date
    | Unsupported                         // maps, sets, errors, regular expressions, buffers, promises
    | Plain(toJson: Option<Value>, hasSymbols: bool, body: Body)

  type Heap = map<Ref, Node>

  datatype Reason = NonFinite | UnsupportedType | Cyclic | InvalidDate | OutsideDomain | SymbolKeys | Sparse

  predicate InHeap(h: Heap, v: Value) {
    && (v.Ref? ==> v.ref in h)
    && (v.NumValue? && v.digits.Some? ==> IsNumber(v.digits.value))
  }

  predicate ItemsOk(h: Heap, items: seq<Option<Value>>) {
    forall i :: 0 <= i < |items| && items[i].Some? ==> InHeap(h, items[i].value)
  }

  predicate FieldsOk(h: Heap, fields: seq<Field<Value>>) {
    && (forall i :: 0 <= i < |fields| ==> InHeap(h, fields[i].value))
    && DistinctNames(fields)
  }

  predicate BodyOk(h: Heap, body: Body) {
    match body
    case Array(items) => ItemsOk(h, items)
    case Record(fields) => FieldsOk(h, fields)
  }

  predicate NodeOk(h: Heap, node: Node) {
    node.Plain? ==> BodyOk(h, node.body) && (node.toJson.Some? ==> InHeap(h, node.toJson.value))
  }

  ghost predicate Closed(h: Heap) {
    forall r :: r in h ==> NodeOk(h, h[r])
  }

  // ---- The tree a value stands for ----

  /** Unfolds the graph, up to a depth of `fuel` objects. */
  ghost function Unfold(h: Heap, v: Value, fuel: nat): Option<Json>
    decreases fuel, 0, 0
  {
    match v
    case NullValue => Some(Null)
    case BoolValue(on) => Some(Bool(on))
    case StrValue(text) => Some(Str(text))
    case NumValue(digits) => if digits.Some? then Some(Num(digits.value)) else None
    case Undefined => None
    case Unserializable => None
    case Ref(r) => if fuel > 0 && r in h then UnfoldNode(h, h[r], fuel - 1) else None
  }

  ghost function UnfoldNode(h: Heap, node: Node, fuel: nat): Option<Json>
    decreases fuel, 4, 0
  {
    match node
    case Date(iso) => if iso.Some? then Some(Str(iso.value)) else None
    case Unsupported => None
    case Plain(toJson, hasSymbols, body) =>
      if toJson.Some? then Unfold(h, toJson.value, fuel)
      else if hasSymbols then None
      else
        match body
        case Array(items) =>
          if AllUnfold(h, items, fuel) then Some(Arr(UnfoldItems(h, items, fuel))) else None
        case Record(fields) =>
          if AllUnfold(h, Values(fields), fuel) then Some(Obj(UnfoldFields(h, fields, fuel))) else None
  }

  ghost predicate AllUnfold(h: Heap, items: seq<Option<Value>>, fuel: nat)
    decreases fuel, 1, 0
  {
    forall i :: 0 <= i < |items| ==> items[i].Some? && Unfold(h, items[i].value, fuel).Some?
  }

  function Values(fields: seq<Field<Value>>): (r: seq<Option<Value>>)
    ensures |r| == |fields| && forall i :: 0 <= i < |fields| ==> r[i] == Some(fields[i].value)
  {
    seq(|fields|, i requires 0 <= i < |fields| => Some(fields[i].value))
  }

  ghost function UnfoldItems(h: Heap, items: seq<Option<Value>>, fuel: nat): (r: seq<Json>)
    requires AllUnfold(h, items, fuel)
    ensures |r| == |items| && forall i :: 0 <= i < |items| ==> Some(r[i]) == Unfold(h, items[i].value, fuel)
    decreases fuel, 2, |items|
  {
    if items == [] then []
    else [Unfold(h, items[0].value, fuel).value] + UnfoldItems(h, items[1..], fuel)
  }

  ghost function UnfoldFields(h: Heap, fields: seq<Field<Value>>, fuel: nat): (r: seq<Field<Json>>)
    requires AllUnfold(h, Values(fields), fuel)
    ensures Keys(r) == Keys(fields)
    ensures forall i :: 0 <= i < |fields| ==> Some(r[i].value) == Unfold(h, fields[i].value, fuel)
    decreases fuel, 3, 0
  {
    var values := UnfoldItems(h, Values(fields), fuel);
    seq(|fields|, i requires 0 <= i < |fields| => Field(fields[i].key, values[i]))
  }

  ghost predicate StandsFor(h: Heap, v: Value, j: Json) {
    exists fuel: nat :: Unfold(h, v, fuel) == Some(j)
  }

  lemma {:induction false} MoreFuel(h: Heap, v: Value, fuel: nat)
    requires Unfold(h, v, fuel).Some?
    ensures Unfold(h, v, fuel + 1) == Unfold(h, v, fuel)
    decreases fuel, 0
  {
    if v.Ref? {
      NodeMoreFuel(h, h[v.ref], fuel - 1);
    }
  }

  lemma {:induction false} NodeMoreFuel(h: Heap, node: Node, fuel: nat)
    requires UnfoldNode(h, node, fuel).Some?
    ensures UnfoldNode(h, node, fuel + 1) == UnfoldNode(h, node, fuel)
    decreases fuel, 2
  {
    if node.Plain? {
      if node.toJson.Some? {
        MoreFuel(h, node.toJson.value, fuel);
      } else if node.body.Array? {
        AllMoreFuel(h, node.body.items, fuel);
        assert UnfoldItems(h, node.body.items, fuel + 1) == UnfoldItems(h, node.body.items, fuel);
      } else {
        var fields := node.body.fields;
        AllMoreFuel(h, Values(fields), fuel);
        FieldsAgree(UnfoldFields(h, fields, fuel + 1), UnfoldFields(h, fields, fuel));
      }
    }
  }

  lemma {:induction false} AllMoreFuel(h: Heap, items: seq<Option<Value>>, fuel: nat)
    requires AllUnfold(h, items, fuel)
    ensures AllUnfold(h, items, fuel + 1)
    ensures forall i :: 0 <= i < |items| ==> Unfold(h, items[i].value, fuel + 1) == Unfold(h, items[i].value, fuel)
    decreases fuel, 1
  {
    forall i | 0 <= i < |items|
      ensures Unfold(h, items[i].value, fuel + 1) == Unfold(h, items[i].value, fuel)
    {
      MoreFuel(h, items[i].value, fuel);
    }
  }

  lemma FieldsAgree<T>(a: seq<Field<T>>, b: seq<Field<T>>)
    requires Keys(a) == Keys(b) && forall i :: 0 <= i < |a| && i < |b| ==> a[i].value == b[i].value
    ensures a == b
  {
    assert |a| == |Keys(a)| == |Keys(b)| == |b|;
    forall i | 0 <= i < |a| ensures a[i] == b[i] {
      assert Keys(a)[i] == Keys(b)[i];
    }
  }

  lemma {:induction false} MuchMoreFuel(h: Heap, v: Value, fuel: nat, more: nat)
    requires Unfold(h, v, fuel).Some? && fuel <= more
    ensures Unfold(h, v, more) == Unfold(h, v, fuel)
    decreases more
  {
    if fuel < more {
      MuchMoreFuel(h, v, fuel, more - 1);
      MoreFuel(h, v, more - 1);
    }
  }

  /** A value stands for one tree at most. */
  lemma TreeIsUnique(h: Heap, v: Value, a: Json, b: Json)
    requires StandsFor(h, v, a) && StandsFor(h, v, b)
    ensures a == b
  {
    var n: nat :| Unfold(h, v, n) == Some(a);
    var k: nat :| Unfold(h, v, k) == Some(b);
    MuchMoreFuel(h, v, n, n + k);
    MuchMoreFuel(h, v, k, n + k);
  }

  // ---- What `normalize` returns ----

  function Before<T>(done: seq<T>, rest: Result<seq<T>, Reason>): Result<seq<T>, Reason> {
    if rest.Ok? then Ok(done + rest.value) else rest
  }

  ghost function Normalized(h: Heap, v: Value, up: set<Ref>): Result<Json, Reason>
    requires Closed(h) && InHeap(h, v)
    decreases |h.Keys - up|, 0, 0
  {
    match v
    case NullValue => Ok(Null)
    case BoolValue(on) => Ok(Bool(on))
    case StrValue(text) => Ok(Str(text))
    case NumValue(digits) => if digits.Some? then Ok(Num(digits.value)) else Err(NonFinite)
    case Undefined => Err(UnsupportedType)
    case Unserializable => Err(UnsupportedType)
    case Ref(r) =>
      if r in up then Err(Cyclic)
      else
        SmallerRest(h.Keys, up, up + {r}, r);
        NormalizedNode(h, h[r], up + {r})
  }

  ghost function NormalizedNode(h: Heap, node: Node, up: set<Ref>): Result<Json, Reason>
    requires Closed(h) && NodeOk(h, node)
    decreases |h.Keys - up|, 2, 0
  {
    match node
    case Date(iso) => if iso.Some? then Ok(Str(iso.value)) else Err(InvalidDate)
    case Unsupported => Err(OutsideDomain)
    case Plain(toJson, hasSymbols, body) =>
      if toJson.Some? then Normalized(h, toJson.value, up)
      else if hasSymbols then Err(SymbolKeys)
      else
        match body
        case Array(items) =>
          var r := NormalizedItems(h, items, up);
          if r.Ok? then Ok(Arr(r.value)) else Err(r.error)
        case Record(fields) =>
          var r := NormalizedFields(h, fields, SortedKeys(fields), up);
          if r.Ok? then Ok(Obj(r.value)) else Err(r.error)
  }

  ghost function NormalizedItems(h: Heap, items: seq<Option<Value>>, up: set<Ref>): Result<seq<Json>, Reason>
    requires Closed(h) && ItemsOk(h, items)
    decreases |h.Keys - up|, 1, |items|
  {
    if items == [] then Ok([])
    else if items[0].None? then Err(Sparse)
    else
      var first := Normalized(h, items[0].value, up);
      if first.Err? then Err(first.error) else Before([first.value], NormalizedItems(h, items[1..], up))
  }

  ghost function NormalizedFields(h: Heap, fields: seq<Field<Value>>, keys: seq<Text>, up: set<Ref>):
    Result<seq<Field<Json>>, Reason>
    requires Closed(h) && FieldsOk(h, fields) && forall key :: key in keys ==> key in Keys(fields)
    decreases |h.Keys - up|, 1, |keys|
  {
    if keys == [] then Ok([])
    else
      var first := Normalized(h, fields[IndexOf(fields, keys[0])].value, up);
      if first.Err? then Err(first.error)
      else Before([Field(keys[0], first.value)], NormalizedFields(h, fields, keys[1..], up))
  }

  lemma BeforeMore<T>(done: seq<T>, next: T, rest: Result<seq<T>, Reason>)
    ensures Before(done, Before([next], rest)) == Before(done + [next], rest)
  {
    if rest.Ok? {
      assert done + ([next] + rest.value) == done + [next] + rest.value;
    }
  }

  lemma BeforeNothing<T>(rest: Result<seq<T>, Reason>)
    ensures Before([], rest) == rest
  {
    if rest.Ok? {
      assert [] + rest.value == rest.value;
    }
  }

  class Normalizer {
    const heap: Heap
    var ancestors: set<Ref>

    constructor (heap: Heap)
      ensures this.heap == heap && ancestors == {}
    {
      this.heap, ancestors := heap, {};
    }

    method Normalize(v: Value) returns (r: Result<Json, Reason>)
      requires Closed(heap) && InHeap(heap, v)
      modifies this
      ensures ancestors == old(ancestors)
      ensures r == Normalized(heap, v, ancestors)
      decreases |heap.Keys - ancestors|, 0, 0
    {
      match v {
        case NullValue => return Ok(Null);
        case BoolValue(on) => return Ok(Bool(on));
        case StrValue(text) => return Ok(Str(text));
        case NumValue(digits) =>
          return if digits.Some? then Ok(Num(digits.value)) else Err(NonFinite);
        case Undefined => return Err(UnsupportedType);
        case Unserializable => return Err(UnsupportedType);
        case Ref(ref) =>
          if ref in ancestors {
            return Err(Cyclic);
          }
          SmallerRest(heap.Keys, ancestors, ancestors + {ref}, ref);
          r := NormalizeNode(ref);
      }
    }

    method NormalizeNode(ref: Ref) returns (r: Result<Json, Reason>)
      requires Closed(heap) && ref in heap && ref !in ancestors
      modifies this
      ensures ancestors == old(ancestors)
      ensures r == NormalizedNode(heap, heap[ref], ancestors + {ref})
      decreases |heap.Keys - (ancestors + {ref})|, 2, 0
    {
      var node := heap[ref];
      match node {
        case Date(iso) =>
          r := if iso.Some? then Ok(Str(iso.value)) else Err(InvalidDate);
        case Unsupported =>
          r := Err(OutsideDomain);
        case Plain(toJson, hasSymbols, body) =>
          if toJson.Some? {
            ancestors := ancestors + {ref};
            r := Normalize(toJson.value);
            ancestors := ancestors - {ref};
          } else if hasSymbols {
            r := Err(SymbolKeys);
          } else {
            ancestors := ancestors + {ref};
            match body {
              case Array(items) =>
                var list := NormalizeItems(items);
                r := if list.Ok? then Ok(Arr(list.value)) else Err(list.error);
              case Record(fields) =>
                var list := NormalizeFields(fields);
                r := if list.Ok? then Ok(Obj(list.value)) else Err(list.error);
            }
            ancestors := ancestors - {ref};
          }
          assert ancestors == old(ancestors);
      }
    }

    method NormalizeItems(items: seq<Option<Value>>) returns (r: Result<seq<Json>, Reason>)
      requires Closed(heap) && ItemsOk(heap, items)
      modifies this
      ensures ancestors == old(ancestors)
      ensures r == NormalizedItems(heap, items, ancestors)
      decreases |heap.Keys - ancestors|, 1, 0
    {
      var result := [];
      BeforeNothing(NormalizedItems(heap, items, ancestors));
      assert items[0..] == items;
      for i := 0 to |items|
        invariant ancestors == old(ancestors)
        invariant NormalizedItems(heap, items, ancestors)
               == Before(result, NormalizedItems(heap, items[i..], ancestors))
      {
        assert items[i..][1..] == items[i + 1..];
        if items[i].None? {
          return Err(Sparse);
        }
        var item := Normalize(items[i].value);
        if item.Err? {
          return Err(item.error);
        }
        BeforeMore(result, item.value, NormalizedItems(heap, items[i + 1..], ancestors));
        result := result + [item.value];
      }
      assert items[|items|..] == [] && result + [] == result;
      r := Ok(result);
    }

    method NormalizeFields(fields: seq<Field<Value>>) returns (r: Result<seq<Field<Json>>, Reason>)
      requires Closed(heap) && FieldsOk(heap, fields)
      modifies this
      ensures ancestors == old(ancestors)
      ensures r == NormalizedFields(heap, fields, SortedKeys(fields), ancestors)
      decreases |heap.Keys - ancestors|, 1, 0
    {
      var keys := SortedKeys(fields);
      var result := [];
      BeforeNothing(NormalizedFields(heap, fields, keys, ancestors));
      assert keys[0..] == keys;
      for i := 0 to |keys|
        invariant ancestors == old(ancestors)
        invariant NormalizedFields(heap, fields, keys, ancestors)
               == Before(result, NormalizedFields(heap, fields, keys[i..], ancestors))
      {
        assert keys[i..][1..] == keys[i + 1..];
        var value := Normalize(fields[IndexOf(fields, keys[i])].value);
        if value.Err? {
          return Err(value.error);
        }
        var field := Field(keys[i], value.value);
        BeforeMore(result, field, NormalizedFields(heap, fields, keys[i + 1..], ancestors));
        result := result + [field];
      }
      assert keys[|keys|..] == [] && result + [] == result;
      r := Ok(result);
    }
  }

  // ---- `normalize` accepts exactly the values that stand for a tree ----

  lemma {:induction false} ItemsNormalizeTo(h: Heap, items: seq<Option<Value>>, up: set<Ref>, js: seq<Json>)
    requires Closed(h) && ItemsOk(h, items) && |js| == |items|
    requires forall i :: 0 <= i < |items| ==> items[i].Some? && Normalized(h, items[i].value, up) == Ok(js[i])
    ensures NormalizedItems(h, items, up) == Ok(js)
    decreases |items|
  {
    if items != [] {
      ItemsNormalizeTo(h, items[1..], up, js[1..]);
      assert js == [js[0]] + js[1..];
    }
  }

  lemma {:induction false} FieldsNormalizeTo(h: Heap, fields: seq<Field<Value>>, keys: seq<Text>, up: set<Ref>,
                                             js: seq<Field<Json>>)
    requires Closed(h) && FieldsOk(h, fields) && Keys(js) == keys
    requires forall key :: key in keys ==> key in Keys(fields)
    requires forall i :: 0 <= i < |keys| ==>
               keys[i] in Keys(fields) &&
               Normalized(h, fields[IndexOf(fields, keys[i])].value, up) == Ok(js[i].value)
    ensures NormalizedFields(h, fields, keys, up) == Ok(js)
    decreases |keys|
  {
    if keys != [] {
      assert Keys(js[1..]) == keys[1..];
      FieldsNormalizeTo(h, fields, keys[1..], up, js[1..]);
      assert js[0] == Field(keys[0], js[0].value);
      assert js == [js[0]] + js[1..];
    }
  }

  lemma {:induction false} IndexByKeys<T, U>(a: seq<Field<T>>, b: seq<Field<U>>, key: Text)
    requires Keys(a) == Keys(b) && key in Keys(a)
    ensures IndexOf(a, key) == IndexOf(b, key)
    decreases |a|
  {
    assert |a| == |Keys(a)| == |b| && a[0].key == Keys(a)[0] == Keys(b)[0] == b[0].key;
    if a[0].key != key {
      assert Keys(a[1..]) == Keys(a)[1..] && Keys(b[1..]) == Keys(b)[1..];
      IndexByKeys(a[1..], b[1..], key);
    }
  }

  lemma LessFuelForNone(h: Heap, up: set<Ref>, n: nat)
    requires n > 0 && forall a :: a in up ==> Unfold(h, Ref(a), n).None?
    ensures forall a :: a in up ==> Unfold(h, Ref(a), n - 1).None?
  {
    forall a | a in up ensures Unfold(h, Ref(a), n - 1).None? {
      if Unfold(h, Ref(a), n - 1).Some? {
        MoreFuel(h, Ref(a), n - 1);
      }
    }
  }

  /**
   Values that unfold within `n` objects are normalized to their sorted tree. Nothing in `up` unfolds within
   `n`, so no object is met again on the way down.
   */
  lemma {:induction false} TreesAreNormalized(h: Heap, v: Value, up: set<Ref>, n: nat)
    requires Closed(h) && InHeap(h, v) && Unfold(h, v, n).Some?
    requires forall a :: a in up ==> Unfold(h, Ref(a), n).None?
    ensures Normalized(h, v, up) == Ok(Sorted(Unfold(h, v, n).value))
    decreases n, 3
  {
    if v.Ref? {
      LessFuelForNone(h, up, n);
      if Unfold(h, v, n - 1).Some? {
        MoreFuel(h, v, n - 1);
        TreesAreNormalized(h, v, up, n - 1);
      } else {
        FreshObjectIsNormalized(h, v, up, n);
      }
    }
  }

  lemma {:induction false} FreshObjectIsNormalized(h: Heap, v: Value, up: set<Ref>, n: nat)
    requires Closed(h) && InHeap(h, v) && v.Ref? && n > 0 && Unfold(h, v, n).Some? && Unfold(h, v, n - 1).None?
    requires forall a :: a in up ==> Unfold(h, Ref(a), n).None? && Unfold(h, Ref(a), n - 1).None?
    ensures Normalized(h, v, up) == Ok(Sorted(Unfold(h, v, n).value))
    decreases n, 2
  {
    assert v.ref !in up;
    NodesAreNormalized(h, h[v.ref], up + {v.ref}, n - 1);
  }

  lemma {:induction false} NodesAreNormalized(h: Heap, node: Node, up: set<Ref>, n: nat)
    requires Closed(h) && NodeOk(h, node) && UnfoldNode(h, node, n).Some?
    requires forall a :: a in up ==> Unfold(h, Ref(a), n).None?
    ensures NormalizedNode(h, node, up) == Ok(Sorted(UnfoldNode(h, node, n).value))
    decreases n, 5
  {
    if node.Plain? {
      if node.toJson.Some? {
        TreesAreNormalized(h, node.toJson.value, up, n);
      } else if node.body.Array? {
        ArraysAreNormalized(h, node.body.items, up, n);
      } else {
        RecordsAreNormalized(h, node.body.fields, up, n);
      }
    }
  }

  lemma {:induction false} ArraysAreNormalized(h: Heap, items: seq<Option<Value>>, up: set<Ref>, n: nat)
    requires Closed(h) && ItemsOk(h, items) && AllUnfold(h, items, n)
    requires forall a :: a in up ==> Unfold(h, Ref(a), n).None?
    ensures NormalizedItems(h, items, up) == Ok(SortedItems(UnfoldItems(h, items, n)))
    decreases n, 4
  {
    var js := UnfoldItems(h, items, n);
    forall i | 0 <= i < |items|
      ensures Normalized(h, items[i].value, up) == Ok(SortedItems(js)[i])
    {
      TreesAreNormalized(h, items[i].value, up, n);
    }
    ItemsNormalizeTo(h, items, up, SortedItems(js));
  }

  lemma {:induction false} RecordsAreNormalized(h: Heap, fields: seq<Field<Value>>, up: set<Ref>, n: nat)
    requires Closed(h) && FieldsOk(h, fields) && AllUnfold(h, Values(fields), n)
    requires forall a :: a in up ==> Unfold(h, Ref(a), n).None?
    ensures NormalizedFields(h, fields, SortedKeys(fields), up)
         == Ok(SortedFields(UnfoldFields(h, fields, n), SortedKeys(UnfoldFields(h, fields, n))))
    decreases n, 4
  {
    var js := UnfoldFields(h, fields, n);
    var keys := SortedKeys(fields);
    assert SortedKeys(js) == keys;
    var sorted := SortedFields(js, keys);
    assert Keys(sorted) == keys;
    forall i | 0 <= i < |keys|
      ensures Normalized(h, fields[IndexOf(fields, keys[i])].value, up) == Ok(sorted[i].value)
    {
      IndexByKeys(fields, js, keys[i]);
      var k := IndexOf(fields, keys[i]);
      assert Values(fields)[k] == Some(fields[k].value);
      TreesAreNormalized(h, fields[k].value, up, n);
    }
    FieldsNormalizeTo(h, fields, keys, up, sorted);
  }

  /** Whatever is normalized unfolds, within as many objects as were left. */
  lemma {:induction false} NormalizedUnfolds(h: Heap, v: Value, up: set<Ref>)
    requires Closed(h) && InHeap(h, v) && Normalized(h, v, up).Ok?
    ensures Unfold(h, v, |h.Keys - up| + 1).Some?
    decreases |h.Keys - up|, 0, 0
  {
    if v.Ref? {
      var up' := up + {v.ref};
      SmallerRest(h.Keys, up, up + {v.ref}, v.ref);
      NormalizedNodeUnfolds(h, h[v.ref], up', |h.Keys - up|);
    }
  }

  lemma {:induction false} NormalizedNodeUnfolds(h: Heap, node: Node, up: set<Ref>, n: nat)
    requires Closed(h) && NodeOk(h, node) && NormalizedNode(h, node, up).Ok? && |h.Keys - up| < n
    ensures UnfoldNode(h, node, n).Some?
    decreases |h.Keys - up|, 3, 0
  {
    if node.Plain? {
      if node.toJson.Some? {
        NormalizedWithin(h, node.toJson.value, up, n);
      } else if node.body.Array? {
        NormalizedItemsUnfold(h, node.body.items, up, n);
      } else {
        NormalizedRecordUnfolds(h, node.body.fields, up, n);
      }
    }
  }

  lemma {:induction false} NormalizedRecordUnfolds(h: Heap, fields: seq<Field<Value>>, up: set<Ref>, n: nat)
    requires Closed(h) && FieldsOk(h, fields) && |h.Keys - up| < n
    requires NormalizedFields(h, fields, SortedKeys(fields), up).Ok?
    ensures AllUnfold(h, Values(fields), n)
    decreases |h.Keys - up|, 2, 0
  {
    NormalizedFieldsUnfold(h, fields, SortedKeys(fields), up, n);
    forall i | 0 <= i < |fields| ensures Unfold(h, Values(fields)[i].value, n).Some? {
      assert Keys(fields)[i] in SortedKeys(fields);
      IndexOfKey(fields, i);
    }
  }

  lemma {:induction false} NormalizedWithin(h: Heap, v: Value, up: set<Ref>, n: nat)
    requires Closed(h) && InHeap(h, v) && Normalized(h, v, up).Ok? && |h.Keys - up| < n
    ensures Unfold(h, v, n).Some?
    decreases |h.Keys - up|, 0, 1
  {
    NormalizedUnfolds(h, v, up);
    MuchMoreFuel(h, v, |h.Keys - up| + 1, n);
  }

  lemma {:induction false} NormalizedItemsUnfold(h: Heap, items: seq<Option<Value>>, up: set<Ref>, n: nat)
    requires Closed(h) && ItemsOk(h, items) && NormalizedItems(h, items, up).Ok? && |h.Keys - up| < n
    ensures AllUnfold(h, items, n)
    decreases |h.Keys - up|, 1, |items|
  {
    if items != [] {
      NormalizedWithin(h, items[0].value, up, n);
      NormalizedItemsUnfold(h, items[1..], up, n);
      assert forall i :: 0 < i < |items| ==> items[i] == items[1..][i - 1];
    }
  }

  lemma {:induction false} NormalizedFieldsUnfold(h: Heap, fields: seq<Field<Value>>, keys: seq<Text>, up: set<Ref>, n: nat)
    requires Closed(h) && FieldsOk(h, fields) && |h.Keys - up| < n
    requires forall key :: key in keys ==> key in Keys(fields)
    requires NormalizedFields(h, fields, keys, up).Ok?
    ensures forall key :: key in keys ==> Unfold(h, fields[IndexOf(fields, key)].value, n).Some?
    decreases |h.Keys - up|, 1, |keys|
  {
    if keys != [] {
      NormalizedWithin(h, fields[IndexOf(fields, keys[0])].value, up, n);
      NormalizedFieldsUnfold(h, fields, keys[1..], up, n);
    }
  }

  /** A value is accepted if and only if it stands for a JSON tree, and becomes that tree with sorted keys. */
  lemma AcceptedIffTree(h: Heap, v: Value)
    requires Closed(h) && InHeap(h, v)
    ensures Normalized(h, v, {}).Ok? <==> exists j :: StandsFor(h, v, j)
    ensures forall j :: StandsFor(h, v, j) ==> Normalized(h, v, {}) == Ok(Sorted(j))
  {
    if Normalized(h, v, {}).Ok? {
      NormalizedUnfolds(h, v, {});
      var n := |h.Keys - {}| + 1;
      assert StandsFor(h, v, Unfold(h, v, n).value);
    }
    forall j | StandsFor(h, v, j) ensures Normalized(h, v, {}) == Ok(Sorted(j)) {
      var n: nat :| Unfold(h, v, n) == Some(j);
      TreesAreNormalized(h, v, {}, n);
    }
  }

  /** Numbers and keys of the tree are as the graph's are. */
  lemma {:induction false} TreeIsOk(h: Heap, v: Value, n: nat)
    requires Closed(h) && InHeap(h, v) && Unfold(h, v, n).Some?
    ensures NumbersOk(Unfold(h, v, n).value) && KeysDistinct(Unfold(h, v, n).value)
    decreases n, 0
  {
    if v.Ref? {
      NodeTreeIsOk(h, h[v.ref], n - 1);
    }
  }

  lemma {:induction false} NodeTreeIsOk(h: Heap, node: Node, n: nat)
    requires Closed(h) && NodeOk(h, node) && UnfoldNode(h, node, n).Some?
    ensures NumbersOk(UnfoldNode(h, node, n).value) && KeysDistinct(UnfoldNode(h, node, n).value)
    decreases n, 1
  {
    if node.Plain? {
      if node.toJson.Some? {
        TreeIsOk(h, node.toJson.value, n);
      } else if node.body.Array? {
        var (items, js) := (node.body.items, UnfoldItems(h, node.body.items, n));
        forall i | 0 <= i < |items| ensures NumbersOk(js[i]) && KeysDistinct(js[i]) {
          TreeIsOk(h, items[i].value, n);
        }
      } else {
        var (fields, js) := (node.body.fields, UnfoldFields(h, node.body.fields, n));
        forall i | 0 <= i < |js| ensures NumbersOk(js[i].value) && KeysDistinct(js[i].value) && Keys(js)[i] == fields[i].key {
          assert Values(fields)[i] == Some(fields[i].value);
          TreeIsOk(h, fields[i].value, n);
        }
      }
    }
  }

  // ---- stableStringify ----

  ghost function Stringified(h: Heap, v: Value): Result<Text, Reason>
    requires Closed(h) && InHeap(h, v)
  {
    var r := Normalized(h, v, {});
    if r.Ok? then Ok(Print(r.value)) else Err(r.error)
  }

  method StableStringify(h: Heap, v: Value) returns (r: Result<Text, Reason>)
    requires Closed(h) && InHeap(h, v)
    ensures r == Stringified(h, v)
  {
    var normalizer := new Normalizer(h);
    var json := normalizer.Normalize(v);
    r := if json.Ok? then Ok(Print(json.value)) else Err(json.error);
  }

  /** Two accepted values have the same text exactly when their trees are equal up to the order of keys. */
  lemma StableStringifyIsCanonical(h: Heap, v: Value, a: Json, h': Heap, v': Value, b: Json)
    requires Closed(h) && InHeap(h, v) && StandsFor(h, v, a)
    requires Closed(h') && InHeap(h', v') && StandsFor(h', v', b)
    ensures Stringified(h, v).Ok? && Stringified(h', v').Ok?
    ensures Stringified(h, v) == Stringified(h', v') <==> Same(a, b)
  {
    AcceptedIffTree(h, v);
    AcceptedIffTree(h', v');
    var n: nat :| Unfold(h, v, n) == Some(a);
    var k: nat :| Unfold(h', v', k) == Some(b);
    TreeIsOk(h, v, n);
    TreeIsOk(h', v', k);
    SortedTextIsCanonical(a, b);
  }
}

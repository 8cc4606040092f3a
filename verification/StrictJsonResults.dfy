/**
 What `stableStringify` returns, in terms of the value alone: the text of its tree, or a fault that is in it. A text
 comes with a tree that it says, by the reading of `JsonReading`, with names ascending. A fault is in the value itself
 or in something inside of it, reached by items, by properties or by what `toJSON` returns, and is of the kind
 that its reason names.
 */
module StrictJsonResults {
  import opened Wrappers
  import opened Finite
  import opened Sorting
  import opened JsonTexts
  import opened JsonReading
  import opened StrictJson

  /** The text of an accepted value says its tree, with the names of every object in ascending order. */
  lemma StableStringifySays(h: Heap, v: Value, j: Json)
    requires Closed(h) && InHeap(h, v) && StandsFor(h, v, j)
    ensures Stringified(h, v).Ok?
    ensures IsInOrder(Sorted(j)) && Same(Sorted(j), j) && Says(Stringified(h, v).value, Sorted(j), [])
  {
    AcceptedIffTree(h, v);
    var n: nat :| Unfold(h, v, n) == Some(j);
    TreeIsOk(h, v, n);
    SortedIsInOrder(j);
    SortingTwice(j);
    PrintSays(Sorted(j), []);
  }

  /** Sorting changes nothing but the order of keys. */
  lemma {:induction false} SortingTwice(j: Json)
    requires KeysDistinct(j)
    ensures Same(Sorted(j), j)
    decreases j
  {
    match j
    case Arr(items) =>
      forall i | 0 <= i < |items| ensures Same(SortedItems(items)[i], items[i]) {
        SortingTwice(items[i]);
      }
    case Obj(fields) =>
      SortedNames(fields);
      var keys := SortedKeys(fields);
      var sorted := SortedFields(fields, keys);
      forall i, k | 0 <= i < |sorted| && 0 <= k < |fields| && sorted[i].key == fields[k].key
        ensures Same(sorted[i].value, fields[k].value)
      {
        assert IndexOf(fields, keys[i]) == k;
        SortingTwice(fields[k].value);
      }
    case _ =>
  }

  lemma SortedNames(fields: seq<Field<Json>>)
    ensures Elements(Keys(SortedFields(fields, SortedKeys(fields)))) == Elements(Keys(fields))
  {
    var keys := SortedKeys(fields);
    var names := Keys(SortedFields(fields, keys));
    assert |names| == |keys| && forall i :: 0 <= i < |keys| ==> names[i] == keys[i];
    assert names == keys;
  }

  // ---- Why a value is rejected ----

  /** What is wrong with `v` itself, inside of the objects of `up`. */
  predicate Offends(h: Heap, v: Value, up: set<Ref>, reason: Reason) {
    match reason
    case NonFinite => v == NumValue(None)
    case UnsupportedType => v.Undefined? || v.Unserializable?
    case Cyclic => v.Ref? && v.ref in up
    case InvalidDate => v.Ref? && v.ref !in up && v.ref in h && h[v.ref] == Date(None)
    case OutsideDomain => v.Ref? && v.ref !in up && v.ref in h && h[v.ref].Unsupported?
    case SymbolKeys => v.Ref? && v.ref !in up && v.ref in h && h[v.ref].Plain? && h[v.ref].toJson == None && h[v.ref].hasSymbols
    case Sparse =>
      && v.Ref? && v.ref !in up && v.ref in h && h[v.ref].Plain? && h[v.ref].toJson == None && !h[v.ref].hasSymbols
      && h[v.ref].body.Array? && None in h[v.ref].body.items
  }

  /** What stands for the object: what its `toJSON` returns, or else its items or properties. */
  predicate IsInside(node: Node, child: Value) {
    && node.Plain?
    && match node.toJson
       case Some(replacement) => child == replacement
       case None =>
         match node.body
         case Array(items) => Some(child) in items
         case Record(fields) => exists i :: 0 <= i < |fields| && fields[i].value == child
  }

  /** The value offends, or something inside it. */
  ghost predicate IsAtFault(h: Heap, v: Value, up: set<Ref>, reason: Reason)
    decreases |h.Keys - up|
  {
    || Offends(h, v, up, reason)
    || (v.Ref? && v.ref in h && v.ref !in up &&
        (SmallerRest(h.Keys, up, up + {v.ref}, v.ref);
         exists child :: IsInside(h[v.ref], child) && IsAtFault(h, child, up + {v.ref}, reason)))
  }

  /** A value that is rejected for a reason holds something that is to be rejected for it. */
  lemma {:induction false} RejectedForAReason(h: Heap, v: Value, up: set<Ref>)
    requires Closed(h) && InHeap(h, v) && Normalized(h, v, up).Err?
    ensures IsAtFault(h, v, up, Normalized(h, v, up).error)
    decreases |h.Keys - up|, 0
  {
    if v.Ref? && v.ref !in up {
      SmallerRest(h.Keys, up, up + {v.ref}, v.ref);
      var (node, up', error) := (h[v.ref], up + {v.ref}, Normalized(h, v, up).error);
      if node.Plain? && node.toJson.Some? {
        RejectedForAReason(h, node.toJson.value, up');
        assert IsInside(node, node.toJson.value);
      } else if node.Plain? && !node.hasSymbols && node.body.Array? {
        var child := ItemAtFault(h, node.body.items, up');
        if child.Some? {
          assert IsInside(node, child.value);
        }
      } else if node.Plain? && !node.hasSymbols {
        var child := FieldAtFault(h, node.body.fields, SortedKeys(node.body.fields), up');
        assert IsInside(node, child);
      }
    }
  }

  /** Some item is rejected, or there is a hole. */
  lemma {:induction false} ItemAtFault(h: Heap, items: seq<Option<Value>>, up: set<Ref>) returns (child: Option<Value>)
    requires Closed(h) && ItemsOk(h, items) && NormalizedItems(h, items, up).Err?
    ensures var error := NormalizedItems(h, items, up).error;
            match child
            case None => error == Sparse && None in items
            case Some(item) => Some(item) in items && IsAtFault(h, item, up, error)
    decreases |h.Keys - up|, 1, |items|
  {
    if items[0].None? {
      return None;
    }
    if Normalized(h, items[0].value, up).Err? {
      RejectedForAReason(h, items[0].value, up);
      return items[0];
    }
    child := ItemAtFault(h, items[1..], up);
  }

  lemma {:induction false} FieldAtFault(h: Heap, fields: seq<Field<Value>>, keys: seq<Text>, up: set<Ref>)
    returns (child: Value)
    requires Closed(h) && FieldsOk(h, fields) && forall key :: key in keys ==> key in Keys(fields)
    requires NormalizedFields(h, fields, keys, up).Err?
    ensures exists i :: 0 <= i < |fields| && fields[i].value == child
    ensures IsAtFault(h, child, up, NormalizedFields(h, fields, keys, up).error)
    decreases |h.Keys - up|, 1, |keys|
  {
    var i := IndexOf(fields, keys[0]);
    if Normalized(h, fields[i].value, up).Err? {
      RejectedForAReason(h, fields[i].value, up);
      return fields[i].value;
    }
    child := FieldAtFault(h, fields, keys[1..], up);
  }
}

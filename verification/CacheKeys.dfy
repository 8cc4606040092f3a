/** `cacheKey`: the tuple of tenant, resource and filter, serialized canonically and hashed. */
module CacheKeys {
  import opened Wrappers
  import opened Sorting
  import opened JsonTexts
  import opened StrictJson

  datatype TenantSource = Omitted | Tenant(id: Text) | Context(tenantId: Option<Text>)

  datatype Resource = Named(name: Text) | Entity(aggregateName: Option<Text>)

  datatype KeyError = MissingTenant | NoResource | UnsupportedValue | NotSerializable(reason: Reason)

  /** The arguments of one call; `next` is a reference above those in the heap. */
  datatype Request = Request(
    heap: Heap, next: Ref, resource: Resource, conditions: seq<Field<Value>>, source: TenantSource,
    resolved: Option<Text>   // what the registered resolver returns
  )

  ghost predicate Valid(q: Request) {
    Closed(q.heap) && FieldsOk(q.heap, q.conditions) && forall r :: r in q.heap ==> r < q.next
  }

  /** An explicit string wins, even an empty one; an empty tenant is no tenant. */
  function RequireTenant(source: TenantSource, resolved: Option<Text>): Result<Text, KeyError> {
    var id :=
      match source
      case Tenant(id) => Some(id)
      case Context(tenantId) => if tenantId.Some? then tenantId else resolved
      case Omitted => resolved;
    if id.None? || id.value == [] then Err(MissingTenant) else Ok(id.value)
  }

  function StripColons(s: Text): (r: Text)
    ensures r <= s && (r == [] || r[|r| - 1] != COLON)
    ensures forall i :: |r| <= i < |s| ==> s[i] == COLON
  {
    if s != [] && s[|s| - 1] == COLON then StripColons(s[..|s| - 1]) else s
  }

  function ResourceName(resource: Resource): Result<Text, KeyError> {
    match resource
    case Named(name) => Ok(StripColons(name))
    case Entity(name) => if name.Some? && name.value != [] then Ok(StripColons(name.value)) else Err(NoResource)
  }

  // ---- The filter ----

  /** Assigning to this name on an ordinary object makes no property. */
  const PROTO: Text := [95, 95, 112, 114, 111, 116, 111, 95, 95]

  /** Whether a condition takes part in the key. */
  predicate IsKept(field: Field<Value>) {
    !field.value.Undefined? && field.key != PROTO
  }

  function Kept(conditions: seq<Field<Value>>, keys: seq<Text>): seq<Field<Value>>
    requires forall key :: key in keys ==> key in Keys(conditions)
  {
    if keys == [] then []
    else
      var field := conditions[IndexOf(conditions, keys[0])];
      (if IsKept(field) then [field] else []) + Kept(conditions, keys[1..])
  }

  predicate HasUnserializable(conditions: seq<Field<Value>>) {
    exists i :: 0 <= i < |conditions| && conditions[i].value.Unserializable?
  }

  method NormalizeFilterConditions(conditions: seq<Field<Value>>) returns (r: Result<seq<Field<Value>>, KeyError>)
    requires DistinctNames(conditions)
    ensures r == if HasUnserializable(conditions) then Err(UnsupportedValue)
                 else Ok(Kept(conditions, SortedKeys(conditions)))
  {
    var sortedKeys := SortedKeys(conditions);
    var normalized := [];
    KeptAtEnds(conditions, sortedKeys);
    for i := 0 to |sortedKeys|
      invariant Kept(conditions, sortedKeys) == normalized + Kept(conditions, sortedKeys[i..])
      invariant forall k :: 0 <= k < i ==> !conditions[IndexOf(conditions, sortedKeys[k])].value.Unserializable?
    {
      KeptStep(conditions, sortedKeys, i, normalized);
      var field := conditions[IndexOf(conditions, sortedKeys[i])];
      if field.value.Undefined? {
        continue;
      }
      if field.value.Unserializable? {
        return Err(UnsupportedValue);
      }
      if field.key != PROTO {
        normalized := normalized + [field];
      }
    }
    assert sortedKeys[|sortedKeys|..] == [] && normalized + [] == normalized;
    r := Ok(normalized);
    AllKeysAreVisited(conditions, sortedKeys);
  }

  lemma KeptAtEnds(conditions: seq<Field<Value>>, keys: seq<Text>)
    requires forall key :: key in keys ==> key in Keys(conditions)
    ensures Kept(conditions, keys) == [] + Kept(conditions, keys[0..])
  {
    assert keys[0..] == keys;
  }

  lemma KeptStep(conditions: seq<Field<Value>>, keys: seq<Text>, i: nat, before: seq<Field<Value>>)
    requires i < |keys| && forall key :: key in keys ==> key in Keys(conditions)
    ensures before + Kept(conditions, keys[i..])
         == (if IsKept(conditions[IndexOf(conditions, keys[i])])
             then before + [conditions[IndexOf(conditions, keys[i])]]
             else before) + Kept(conditions, keys[i + 1..])
  {
    assert keys[i..][1..] == keys[i + 1..];
  }

  lemma AllKeysAreVisited(conditions: seq<Field<Value>>, keys: seq<Text>)
    requires DistinctNames(conditions) && keys == SortedKeys(conditions)
    requires forall k :: 0 <= k < |keys| ==> !conditions[IndexOf(conditions, keys[k])].value.Unserializable?
    ensures !HasUnserializable(conditions)
  {
    forall i | 0 <= i < |conditions| ensures !conditions[i].value.Unserializable? {
      IndexOfKey(conditions, i);
      var k :| 0 <= k < |keys| && keys[k] == conditions[i].key;
    }
  }

  lemma FirstIsNotRepeated(keys: seq<Text>)
    requires keys != [] && Ascends(LessText, keys)
    ensures keys[0] !in keys[1..]
  {
    LexIsTotal(LessUnit, keys[0], keys[0]);
    forall k | 0 < k < |keys| ensures keys[k] != keys[0] {
      assert LessText(keys[0], keys[k]);
    }
  }

  /** The kept conditions are the defined ones, other than `__proto__`, and no two have the same name. */
  lemma {:induction false} KeptIsDefined(conditions: seq<Field<Value>>, keys: seq<Text>)
    requires DistinctNames(conditions) && forall key :: key in keys ==> key in Keys(conditions)
    requires Ascends(LessText, keys)
    ensures DistinctNames(Kept(conditions, keys))
    ensures forall field :: field in Kept(conditions, keys) <==>
                            field in conditions && IsKept(field) && field.key in keys
    decreases |keys|
  {
    if keys != [] {
      var rest := Kept(conditions, keys[1..]);
      KeptIsDefined(conditions, keys[1..]);
      var at := IndexOf(conditions, keys[0]);
      FirstIsNotRepeated(keys);
      forall i | 0 <= i < |rest| ensures rest[i].key != keys[0] {
        assert rest[i] in rest;
      }
      forall field | field in conditions && field.key == keys[0] ensures field == conditions[at] {
        var i :| 0 <= i < |conditions| && conditions[i] == field;
      }
    }
  }

  // ---- The key ----

  function PlainRecord(fields: seq<Field<Value>>): Node {
    Plain(None, false, Record(fields))
  }

  /** The heap with the tuple in it: the filter at `next`, the tuple behind it. */
  function TupleHeap(h: Heap, next: Ref, tenant: Text, resource: Text, filter: seq<Field<Value>>): Heap {
    h[next := PlainRecord(filter)]
     [next + 1 := Plain(None, false, Array([Some(StrValue(tenant)), Some(StrValue(resource)), Some(Ref(next))]))]
  }

  lemma TupleHeapIsClosed(h: Heap, next: Ref, tenant: Text, resource: Text, conditions: seq<Field<Value>>)
    requires Closed(h) && FieldsOk(h, conditions) && forall r :: r in h ==> r < next
    ensures Closed(TupleHeap(h, next, tenant, resource, Kept(conditions, SortedKeys(conditions))))
  {
    var kept := Kept(conditions, SortedKeys(conditions));
    TextsAreOrdered(Elements(Keys(conditions)));
    SortAscends(LessText, Keys(conditions));
    KeptIsDefined(conditions, SortedKeys(conditions));
    var h' := TupleHeap(h, next, tenant, resource, kept);
    forall i | 0 <= i < |kept| ensures InHeap(h', kept[i].value) {
      assert kept[i] in kept;
      assert InHeap(h, kept[i].value);
    }
    forall r | r in h' ensures NodeOk(h', h'[r]) {
      if r in h {
        NodeStaysOk(h, h', h[r]);
      }
    }
  }

  lemma NodeStaysOk(h: Heap, h': Heap, node: Node)
    requires NodeOk(h, node) && h.Keys <= h'.Keys
    ensures NodeOk(h', node)
  {
  }

  const V1: Text := [COLON, 118, 49, COLON]

  ghost function Serialized(q: Request, tenant: Text, resource: Text): Result<Text, Reason>
    requires Valid(q)
  {
    var kept := Kept(q.conditions, SortedKeys(q.conditions));
    TupleHeapIsClosed(q.heap, q.next, tenant, resource, q.conditions);
    Stringified(TupleHeap(q.heap, q.next, tenant, resource, kept), Ref(q.next + 1))
  }

  ghost function KeyOf(q: Request, hash: Text -> Text): Result<Text, KeyError>
    requires Valid(q)
  {
    var tenant := RequireTenant(q.source, q.resolved);
    var resource := ResourceName(q.resource);
    if tenant.Err? then Err(tenant.error)
    else if resource.Err? then Err(resource.error)
    else if HasUnserializable(q.conditions) then Err(UnsupportedValue)
    else
      var text := Serialized(q, tenant.value, resource.value);
      if text.Err? then Err(NotSerializable(text.error))
      else Ok(tenant.value + [COLON] + resource.value + V1 + hash(text.value))
  }

  method CacheKey(q: Request, hash: Text -> Text) returns (key: Result<Text, KeyError>)
    requires Valid(q)
    ensures key == KeyOf(q, hash)
  {
    var tenant := RequireTenant(q.source, q.resolved);
    if tenant.Err? {
      return Err(tenant.error);
    }
    var resource := ResourceName(q.resource);
    if resource.Err? {
      return Err(resource.error);
    }
    var filter := NormalizeFilterConditions(q.conditions);
    if filter.Err? {
      return Err(filter.error);
    }
    TupleHeapIsClosed(q.heap, q.next, tenant.value, resource.value, q.conditions);
    var text := StableStringify(TupleHeap(q.heap, q.next, tenant.value, resource.value, filter.value), Ref(q.next + 1));
    if text.Err? {
      return Err(NotSerializable(text.error));
    }
    key := Ok(tenant.value + [COLON] + resource.value + V1 + hash(text.value));
  }

  // ---- The tuple's tree ----

  lemma {:induction false} UnfoldInLargerHeap(h: Heap, h': Heap, v: Value, n: nat)
    requires Closed(h) && InHeap(h, v) && forall r :: r in h ==> r in h' && h'[r] == h[r]
    ensures Unfold(h', v, n) == Unfold(h, v, n)
    decreases n, 0
  {
    if v.Ref? && n > 0 {
      NodeInLargerHeap(h, h', h[v.ref], n - 1);
    }
  }

  lemma {:induction false} NodeInLargerHeap(h: Heap, h': Heap, node: Node, n: nat)
    requires Closed(h) && NodeOk(h, node) && forall r :: r in h ==> r in h' && h'[r] == h[r]
    ensures UnfoldNode(h', node, n) == UnfoldNode(h, node, n)
    decreases n, 2
  {
    if node.Plain? {
      if node.toJson.Some? {
        UnfoldInLargerHeap(h, h', node.toJson.value, n);
      } else if node.body.Array? {
        ItemsInLargerHeap(h, h', node.body.items, n);
        if AllUnfold(h, node.body.items, n) {
          assert UnfoldItems(h', node.body.items, n) == UnfoldItems(h, node.body.items, n);
        }
      } else {
        FieldsInLargerHeap(h, h', node.body.fields, n);
      }
    }
  }

  lemma {:induction false} ItemsInLargerHeap(h: Heap, h': Heap, items: seq<Option<Value>>, n: nat)
    requires Closed(h) && ItemsOk(h, items) && forall r :: r in h ==> r in h' && h'[r] == h[r]
    ensures AllUnfold(h', items, n) <==> AllUnfold(h, items, n)
    ensures forall i :: 0 <= i < |items| && items[i].Some? ==>
              Unfold(h', items[i].value, n) == Unfold(h, items[i].value, n)
    decreases n, 1, 0
  {
    forall i | 0 <= i < |items| && items[i].Some?
      ensures Unfold(h', items[i].value, n) == Unfold(h, items[i].value, n)
    {
      UnfoldInLargerHeap(h, h', items[i].value, n);
    }
  }

  lemma {:induction false} FieldsInLargerHeap(h: Heap, h': Heap, fields: seq<Field<Value>>, n: nat)
    requires Closed(h) && FieldsOk(h, fields) && forall r :: r in h ==> r in h' && h'[r] == h[r]
    ensures AllUnfold(h', Values(fields), n) <==> AllUnfold(h, Values(fields), n)
    ensures AllUnfold(h, Values(fields), n) ==> UnfoldFields(h', fields, n) == UnfoldFields(h, fields, n)
    decreases n, 1, 1
  {
    ItemsInLargerHeap(h, h', Values(fields), n);
    if AllUnfold(h, Values(fields), n) {
      FieldsAgree(UnfoldFields(h', fields, n), UnfoldFields(h, fields, n));
    }
  }

  /** Enough to unfold whatever in the heap can be unfolded. */
  function Enough(h: Heap): nat {
    |h| + 1
  }

  lemma EnoughUnfolds(h: Heap, v: Value, j: Json)
    requires Closed(h) && InHeap(h, v) && StandsFor(h, v, j)
    ensures Unfold(h, v, Enough(h)) == Some(j)
  {
    AcceptedIffTree(h, v);
    NormalizedUnfolds(h, v, {});
    assert h.Keys - {} == h.Keys && |h.Keys| == |h|;
    var n: nat :| Unfold(h, v, n) == Some(j);
    assert StandsFor(h, v, Unfold(h, v, Enough(h)).value);
    TreeIsUnique(h, v, Unfold(h, v, Enough(h)).value, j);
  }

  /** Every condition that takes part in the key stands for a tree. */
  ghost predicate FilterIsSerializable(q: Request) {
    forall i :: 0 <= i < |q.conditions| && IsKept(q.conditions[i]) ==>
      exists j :: StandsFor(q.heap, q.conditions[i].value, j)
  }

  ghost predicate KeptUnfold(q: Request) {
    AllUnfold(q.heap, Values(Kept(q.conditions, SortedKeys(q.conditions))), Enough(q.heap))
  }

  ghost function FilterTree(q: Request): Json
    requires KeptUnfold(q)
  {
    Obj(UnfoldFields(q.heap, Kept(q.conditions, SortedKeys(q.conditions)), Enough(q.heap)))
  }

  ghost function TupleTree(q: Request, tenant: Text, resource: Text): Json
    requires KeptUnfold(q)
  {
    Arr([Str(tenant), Str(resource), FilterTree(q)])
  }

  lemma KeptOfConditions(q: Request)
    requires Valid(q)
    ensures var kept := Kept(q.conditions, SortedKeys(q.conditions));
            && FieldsOk(q.heap, kept)
            && forall field :: field in kept <==> field in q.conditions && IsKept(field)
  {
    var (c, kept) := (q.conditions, Kept(q.conditions, SortedKeys(q.conditions)));
    TextsAreOrdered(Elements(Keys(c)));
    SortAscends(LessText, Keys(c));
    KeptIsDefined(c, SortedKeys(c));
    forall field | field in c && IsKept(field) ensures field in kept {
      var i :| 0 <= i < |c| && c[i] == field;
      assert Keys(c)[i] in SortedKeys(c);
    }
    forall i | 0 <= i < |kept| ensures InHeap(q.heap, kept[i].value) {
      assert kept[i] in kept;
    }
  }

  lemma SerializableUnfolds(q: Request)
    requires Valid(q) && FilterIsSerializable(q)
    ensures KeptUnfold(q)
  {
    KeptOfConditions(q);
    var (c, kept) := (q.conditions, Kept(q.conditions, SortedKeys(q.conditions)));
    forall i | 0 <= i < |kept| ensures Unfold(q.heap, kept[i].value, Enough(q.heap)).Some? {
      assert kept[i] in kept;
      var k :| 0 <= k < |c| && c[k] == kept[i];
      var j :| StandsFor(q.heap, c[k].value, j);
      EnoughUnfolds(q.heap, kept[i].value, j);
    }
  }

  lemma SerializableIffUnfolds(q: Request)
    requires Valid(q)
    ensures FilterIsSerializable(q) <==> KeptUnfold(q)
  {
    if FilterIsSerializable(q) {
      SerializableUnfolds(q);
    }
    if KeptUnfold(q) {
      KeptOfConditions(q);
      var (c, kept) := (q.conditions, Kept(q.conditions, SortedKeys(q.conditions)));
      forall i | 0 <= i < |c| && IsKept(c[i]) ensures exists j :: StandsFor(q.heap, c[i].value, j) {
        assert c[i] in kept;
        var k :| 0 <= k < |kept| && kept[k] == c[i];
        assert Values(kept)[k] == Some(kept[k].value);
        assert StandsFor(q.heap, c[i].value, Unfold(q.heap, kept[k].value, Enough(q.heap)).value);
      }
    }
  }

  /** The tuple is serialized exactly if the filter can be, and then to its sorted tree. */
  lemma TupleSerializes(q: Request, tenant: Text, resource: Text)
    requires Valid(q)
    ensures Serialized(q, tenant, resource).Ok? <==> KeptUnfold(q)
    ensures KeptUnfold(q) ==> Serialized(q, tenant, resource) == Ok(Print(Sorted(TupleTree(q, tenant, resource))))
    ensures KeptUnfold(q) ==> NumbersOk(TupleTree(q, tenant, resource)) && KeysDistinct(TupleTree(q, tenant, resource))
  {
    var kept := Kept(q.conditions, SortedKeys(q.conditions));
    var h' := TupleHeap(q.heap, q.next, tenant, resource, kept);
    var top := Ref(q.next + 1);
    TupleHeapIsClosed(q.heap, q.next, tenant, resource, q.conditions);
    AcceptedIffTree(h', top);
    if KeptUnfold(q) {
      TupleUnfolds(q, tenant, resource);
      assert StandsFor(h', top, TupleTree(q, tenant, resource));
      TreeIsOk(h', top, Enough(q.heap) + 2);
    }
    if n: nat :| Unfold(h', top, n).Some? {
      TupleUnfoldsOnlyIf(q, tenant, resource, n);
    }
  }

  lemma FilterUnfolds(q: Request, tenant: Text, resource: Text)
    requires Valid(q) && KeptUnfold(q)
    ensures var h' := TupleHeap(q.heap, q.next, tenant, resource, Kept(q.conditions, SortedKeys(q.conditions)));
            Unfold(h', Ref(q.next), Enough(q.heap) + 1) == Some(FilterTree(q))
  {
    var (n, kept) := (Enough(q.heap), Kept(q.conditions, SortedKeys(q.conditions)));
    var h' := TupleHeap(q.heap, q.next, tenant, resource, kept);
    KeptOfConditions(q);
    FieldsInLargerHeap(q.heap, h', kept, n);
    assert UnfoldNode(h', PlainRecord(kept), n) == Some(FilterTree(q));
  }

  lemma TripleUnfolds(h: Heap, items: seq<Option<Value>>, a: Json, b: Json, c: Json, n: nat)
    requires |items| == 3 && items[0].Some? && items[1].Some? && items[2].Some?
    requires Unfold(h, items[0].value, n) == Some(a) && Unfold(h, items[1].value, n) == Some(b)
    requires Unfold(h, items[2].value, n) == Some(c)
    ensures UnfoldNode(h, Plain(None, false, Array(items)), n) == Some(Arr([a, b, c]))
  {
    assert AllUnfold(h, items, n);
    assert UnfoldItems(h, items, n) == [a, b, c];
  }

  lemma TupleUnfolds(q: Request, tenant: Text, resource: Text)
    requires Valid(q) && KeptUnfold(q)
    ensures var h' := TupleHeap(q.heap, q.next, tenant, resource, Kept(q.conditions, SortedKeys(q.conditions)));
            Unfold(h', Ref(q.next + 1), Enough(q.heap) + 2) == Some(TupleTree(q, tenant, resource))
  {
    var (n, kept) := (Enough(q.heap) + 1, Kept(q.conditions, SortedKeys(q.conditions)));
    var h' := TupleHeap(q.heap, q.next, tenant, resource, kept);
    FilterUnfolds(q, tenant, resource);
    var items := [Some(StrValue(tenant)), Some(StrValue(resource)), Some(Ref(q.next))];
    TripleUnfolds(h', items, Str(tenant), Str(resource), FilterTree(q), n);
  }

  lemma TripleUnfoldsOnlyIf(h: Heap, items: seq<Option<Value>>, n: nat)
    requires |items| == 3 && UnfoldNode(h, Plain(None, false, Array(items)), n).Some?
    ensures items[2].Some? && Unfold(h, items[2].value, n).Some?
  {
    assert AllUnfold(h, items, n);
  }

  lemma FilterUnfoldsOnlyIf(q: Request, tenant: Text, resource: Text, n: nat)
    requires Valid(q)
    requires UnfoldNode(TupleHeap(q.heap, q.next, tenant, resource, Kept(q.conditions, SortedKeys(q.conditions))),
                        PlainRecord(Kept(q.conditions, SortedKeys(q.conditions))), n).Some?
    ensures KeptUnfold(q)
  {
    var kept := Kept(q.conditions, SortedKeys(q.conditions));
    var h' := TupleHeap(q.heap, q.next, tenant, resource, kept);
    KeptOfConditions(q);
    FieldsInLargerHeap(q.heap, h', kept, n);
    forall i | 0 <= i < |kept| ensures Unfold(q.heap, kept[i].value, Enough(q.heap)).Some? {
      assert Values(kept)[i] == Some(kept[i].value);
      EnoughUnfolds(q.heap, kept[i].value, Unfold(q.heap, kept[i].value, n).value);
    }
  }

  lemma TupleUnfoldsOnlyIf(q: Request, tenant: Text, resource: Text, n: nat)
    requires Valid(q)
    requires var h' := TupleHeap(q.heap, q.next, tenant, resource, Kept(q.conditions, SortedKeys(q.conditions)));
             Unfold(h', Ref(q.next + 1), n).Some?
    ensures KeptUnfold(q)
  {
    var kept := Kept(q.conditions, SortedKeys(q.conditions));
    var h' := TupleHeap(q.heap, q.next, tenant, resource, kept);
    TripleUnfoldsOnlyIf(h', [Some(StrValue(tenant)), Some(StrValue(resource)), Some(Ref(q.next))], n - 1);
    FilterUnfoldsOnlyIf(q, tenant, resource, n - 2);
  }

  // ---- What a key tells ----

  /** A key is derived if and only if a tenant and a resource are known and the filter is serializable. */
  lemma DerivedIff(q: Request, hash: Text -> Text)
    requires Valid(q)
    ensures KeyOf(q, hash).Ok? <==>
            && RequireTenant(q.source, q.resolved).Ok? && ResourceName(q.resource).Ok?
            && !HasUnserializable(q.conditions) && FilterIsSerializable(q)
  {
    SerializableIffUnfolds(q);
    var (tenant, resource) := (RequireTenant(q.source, q.resolved), ResourceName(q.resource));
    if tenant.Ok? && resource.Ok? {
      TupleSerializes(q, tenant.value, resource.value);
    }
  }

  /** The same names are defined in both filters, with values that are equal up to the order of keys. */
  ghost predicate FiltersAgree(q: Request, p: Request) {
    && DefinedNames(q.conditions) == DefinedNames(p.conditions)
    && (forall i, k :: 0 <= i < |q.conditions| && 0 <= k < |p.conditions| && IsKept(q.conditions[i]) &&
                       q.conditions[i].key == p.conditions[k].key ==>
          ConditionsAgree(q, i, p, k))
  }

  function DefinedNames(conditions: seq<Field<Value>>): set<Text> {
    set field | field in conditions && IsKept(field) :: field.key
  }

  ghost predicate ConditionsAgree(q: Request, i: nat, p: Request, k: nat)
    requires i < |q.conditions| && k < |p.conditions|
  {
    exists a, b :: StandsFor(q.heap, q.conditions[i].value, a) && StandsFor(p.heap, p.conditions[k].value, b) &&
                   Same(a, b)
  }

  lemma ConditionTree(q: Request, i: nat) returns (k: nat)
    requires Valid(q) && KeptUnfold(q) && i < |q.conditions| && IsKept(q.conditions[i])
    ensures k < |FilterTree(q).fields| && FilterTree(q).fields[k].key == q.conditions[i].key
    ensures StandsFor(q.heap, q.conditions[i].value, FilterTree(q).fields[k].value)
  {
    KeptOfConditions(q);
    var (kept, fields) := (Kept(q.conditions, SortedKeys(q.conditions)), FilterTree(q).fields);
    assert q.conditions[i] in kept;
    k :| 0 <= k < |kept| && kept[k] == q.conditions[i];
    assert Keys(fields)[k] == Keys(kept)[k];
    assert Unfold(q.heap, kept[k].value, Enough(q.heap)) == Some(fields[k].value);
  }

  lemma TreeCondition(q: Request, k: nat) returns (i: nat)
    requires Valid(q) && KeptUnfold(q) && k < |FilterTree(q).fields|
    ensures i < |q.conditions| && IsKept(q.conditions[i])
    ensures FilterTree(q).fields[k].key == q.conditions[i].key
    ensures StandsFor(q.heap, q.conditions[i].value, FilterTree(q).fields[k].value)
  {
    KeptOfConditions(q);
    var (kept, fields) := (Kept(q.conditions, SortedKeys(q.conditions)), FilterTree(q).fields);
    assert |fields| == |Keys(fields)| == |kept| && Keys(fields)[k] == Keys(kept)[k];
    assert kept[k] in kept;
    i :| 0 <= i < |q.conditions| && q.conditions[i] == kept[k];
    assert Unfold(q.heap, kept[k].value, Enough(q.heap)) == Some(fields[k].value);
  }

  lemma NamesOfTree(q: Request)
    requires Valid(q) && KeptUnfold(q)
    ensures Elements(Keys(FilterTree(q).fields)) == DefinedNames(q.conditions)
  {
    var fields := FilterTree(q).fields;
    forall key | key in Keys(fields) ensures key in DefinedNames(q.conditions) {
      var n :| 0 <= n < |fields| && Keys(fields)[n] == key;
      var i := TreeCondition(q, n);
      assert q.conditions[i] in q.conditions;
    }
    forall key | key in DefinedNames(q.conditions) ensures key in Keys(fields) {
      var field :| field in q.conditions && IsKept(field) && field.key == key;
      var i :| 0 <= i < |q.conditions| && q.conditions[i] == field;
      var n := ConditionTree(q, i);
      assert Keys(fields)[n] == key;
    }
  }

  lemma TreesOfConditionsAreSame(q: Request, p: Request, i: nat, k: nat, a: Json, b: Json)
    requires i < |q.conditions| && k < |p.conditions| && ConditionsAgree(q, i, p, k)
    requires StandsFor(q.heap, q.conditions[i].value, a) && StandsFor(p.heap, p.conditions[k].value, b)
    ensures Same(a, b)
  {
    var a', b' :| StandsFor(q.heap, q.conditions[i].value, a') && StandsFor(p.heap, p.conditions[k].value, b') &&
      Same(a', b');
    TreeIsUnique(q.heap, q.conditions[i].value, a, a');
    TreeIsUnique(p.heap, p.conditions[k].value, b, b');
  }

  lemma ValuesAgree(q: Request, p: Request, n: nat, m: nat)
    requires Valid(q) && Valid(p) && KeptUnfold(q) && KeptUnfold(p) && FiltersAgree(q, p)
    requires n < |FilterTree(q).fields| && m < |FilterTree(p).fields|
    requires FilterTree(q).fields[n].key == FilterTree(p).fields[m].key
    ensures Same(FilterTree(q).fields[n].value, FilterTree(p).fields[m].value)
  {
    var i := TreeCondition(q, n);
    var k := TreeCondition(p, m);
    TreesOfConditionsAreSame(q, p, i, k, FilterTree(q).fields[n].value, FilterTree(p).fields[m].value);
  }

  lemma AgreeingFiltersAreSame(q: Request, p: Request)
    requires Valid(q) && Valid(p) && KeptUnfold(q) && KeptUnfold(p) && FiltersAgree(q, p)
    ensures Same(FilterTree(q), FilterTree(p))
  {
    var (f, g) := (FilterTree(q).fields, FilterTree(p).fields);
    NamesOfTree(q);
    NamesOfTree(p);
    forall n, m | 0 <= n < |f| && 0 <= m < |g| && f[n].key == g[m].key ensures Same(f[n].value, g[m].value) {
      ValuesAgree(q, p, n, m);
    }
  }

  lemma SameFiltersAgree(q: Request, p: Request)
    requires Valid(q) && Valid(p) && KeptUnfold(q) && KeptUnfold(p) && Same(FilterTree(q), FilterTree(p))
    ensures FiltersAgree(q, p)
  {
    NamesOfTree(q);
    NamesOfTree(p);
    forall i, k | 0 <= i < |q.conditions| && 0 <= k < |p.conditions| && IsKept(q.conditions[i]) &&
                  q.conditions[i].key == p.conditions[k].key
      ensures ConditionsAgree(q, i, p, k)
    {
      KeptNamesake(q, p, i, k);
      var n := ConditionTree(q, i);
      var m := ConditionTree(p, k);
      assert Same(FilterTree(q).fields[n].value, FilterTree(p).fields[m].value);
    }
  }

  lemma KeptNamesake(q: Request, p: Request, i: nat, k: nat)
    requires Valid(q) && Valid(p) && DefinedNames(q.conditions) == DefinedNames(p.conditions)
    requires i < |q.conditions| && k < |p.conditions| && IsKept(q.conditions[i])
    requires q.conditions[i].key == p.conditions[k].key
    ensures IsKept(p.conditions[k])
  {
    assert q.conditions[i] in q.conditions;
    assert p.conditions[k].key in DefinedNames(p.conditions);
    var field :| field in p.conditions && IsKept(field) && field.key == p.conditions[k].key;
    var k' :| 0 <= k' < |p.conditions| && p.conditions[k'] == field;
  }

  lemma SameTuples(q: Request, tenant: Text, resource: Text, p: Request, tenant': Text, resource': Text)
    requires KeptUnfold(q) && KeptUnfold(p)
    ensures Same(TupleTree(q, tenant, resource), TupleTree(p, tenant', resource')) <==>
            tenant == tenant' && resource == resource' && Same(FilterTree(q), FilterTree(p))
  {
    var (a, b) := (TupleTree(q, tenant, resource), TupleTree(p, tenant', resource'));
    assert a.items[0] == Str(tenant) && a.items[1] == Str(resource) && a.items[2] == FilterTree(q);
    assert b.items[0] == Str(tenant') && b.items[1] == Str(resource') && b.items[2] == FilterTree(p);
  }

  lemma SameEnd(x: Text, y: Text, a: Text, b: Text)
    requires x + a == y + b && |a| == |b|
    ensures a == b
  {
    assert a == (x + a)[|x|..] && b == (y + b)[|y|..];
  }

  /**
   Provided the hash does not collide on the two serialized tuples, two keys are equal if and only if the
   tenants, the resource names (trailing colons aside) and the defined filter fields agree.
   */
  lemma KeysAgreeExactly(q: Request, p: Request, hash: Text -> Text)
    requires Valid(q) && Valid(p) && KeyOf(q, hash).Ok? && KeyOf(p, hash).Ok?
    requires var a := Serialized(q, RequireTenant(q.source, q.resolved).value, ResourceName(q.resource).value).value;
             var b := Serialized(p, RequireTenant(p.source, p.resolved).value, ResourceName(p.resource).value).value;
             |hash(a)| == |hash(b)| && (hash(a) == hash(b) ==> a == b)
    ensures KeyOf(q, hash) == KeyOf(p, hash) <==>
            && RequireTenant(q.source, q.resolved) == RequireTenant(p.source, p.resolved)
            && ResourceName(q.resource) == ResourceName(p.resource) && FiltersAgree(q, p)
  {
    var (t, t') := (RequireTenant(q.source, q.resolved).value, RequireTenant(p.source, p.resolved).value);
    var (r, r') := (ResourceName(q.resource).value, ResourceName(p.resource).value);
    var (a, b) := (Serialized(q, t, r).value, Serialized(p, t', r').value);
    TupleSerializes(q, t, r);
    TupleSerializes(p, t', r');
    SortedTextIsCanonical(TupleTree(q, t, r), TupleTree(p, t', r'));
    SameTuples(q, t, r, p, t', r');
    if KeyOf(q, hash) == KeyOf(p, hash) {
      SameEnd(t + [COLON] + r + V1, t' + [COLON] + r' + V1, hash(a), hash(b));
      SameFiltersAgree(q, p);
    } else if t == t' && r == r' && FiltersAgree(q, p) {
      AgreeingFiltersAreSame(q, p);
    }
  }

  /** A condition named `__proto__` does not take part in the key, although it is defined. */
  lemma ProtoIsIgnored(tenant: Text, value: Text)
    requires tenant != []
    ensures var with := Request(map[], 0, Named([117]), [Field(PROTO, StrValue(value))], Tenant(tenant), None);
            var without := Request(map[], 0, Named([117]), [], Tenant(tenant), None);
            && Valid(with) && Valid(without)
            && Serialized(with, tenant, [117]) == Serialized(without, tenant, [117])
  {
    var conditions := [Field(PROTO, StrValue(value))];
    assert Keys(conditions) == [PROTO];
    var none: seq<Field<Value>> := [];
    assert Keys(none) == [];
    forall key | key in SortedKeys(conditions) ensures key == PROTO {
    }
    OnlyProtoIsKept(conditions, SortedKeys(conditions));
    assert SortedKeys(none) == [];
  }

  lemma {:induction false} OnlyProtoIsKept(conditions: seq<Field<Value>>, keys: seq<Text>)
    requires forall key :: key in keys ==> key == PROTO && key in Keys(conditions)
    ensures Kept(conditions, keys) == []
    decreases |keys|
  {
    if keys != [] {
      assert keys[0] in keys && forall key :: key in keys[1..] ==> key in keys;
      OnlyProtoIsKept(conditions, keys[1..]);
    }
  }
}

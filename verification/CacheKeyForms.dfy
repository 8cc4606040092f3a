/**
 What a cache key looks like, and when which error is raised, in terms of the arguments alone: the tenant, the
 resource without its trailing colons, the version `v1`, and the hash of the text of the tuple, with colons in
 between. The errors come in the order in which the arguments are looked at, an unknown tenant before an unknown
 resource, and both before a filter that cannot be serialized.
 */
module CacheKeyForms {
  import opened Wrappers
  import opened Sorting
  import opened JsonTexts
  import opened JsonReading
  import opened StrictJson
  import opened CacheKeys

  /** The tenant of a call: an explicit one, else that of the context, else that of the resolver. */
  predicate IsTenant(q: Request, tenant: Text) {
    && tenant != []
    && match q.source
       case Tenant(id) => tenant == id
       case Context(Some(id)) => tenant == id
       case Context(None) => q.resolved == Some(tenant)
       case Omitted => q.resolved == Some(tenant)
  }

  /** A name or, of an entity, a declared name that is not empty. */
  predicate IsResource(q: Request, name: Text) {
    match q.resource
    case Named(n) => name == n
    case Entity(n) => n == Some(name) && name != []
  }

  /** `short` is `name` without the colons at its end. */
  predicate IsWithoutColons(name: Text, short: Text) {
    short <= name && (forall i :: |short| <= i < |name| ==> name[i] == 58) && (short == [] || short[|short| - 1] != 58)
  }

  /** The properties of the filter are the defined conditions, `__proto__` aside. */
  ghost predicate IsFilter(q: Request, filter: Json) {
    && filter.Obj?
    && (forall i :: 0 <= i < |filter.fields| ==> IsSomeCondition(q, filter.fields[i]))
    && (forall k :: 0 <= k < |q.conditions| && TakesPart(q.conditions[k]) ==> q.conditions[k].key in Keys(filter.fields))
  }

  predicate TakesPart(condition: Field<Value>) {
    !condition.value.Undefined? && condition.key != [95, 95, 112, 114, 111, 116, 111, 95, 95]
  }

  ghost predicate IsSomeCondition(q: Request, field: Field<Json>) {
    exists k :: IsConditionOf(q, k, field)
  }

  ghost predicate IsConditionOf(q: Request, k: int, field: Field<Json>) {
    && 0 <= k < |q.conditions| && q.conditions[k].key == field.key && TakesPart(q.conditions[k])
    && StandsFor(q.heap, q.conditions[k].value, field.value)
  }

  lemma TenantIs(q: Request)
    ensures match RequireTenant(q.source, q.resolved)
            case Ok(tenant) => IsTenant(q, tenant)
            case Err(error) => error == MissingTenant && forall tenant :: !IsTenant(q, tenant)
  {
  }

  lemma ResourceIs(q: Request)
    ensures match ResourceName(q.resource)
            case Ok(short) => exists name :: IsResource(q, name) && IsWithoutColons(name, short)
            case Err(error) => error == NoResource && forall name :: !IsResource(q, name)
  {
    match q.resource
    case Named(n) =>
      assert IsResource(q, n) && IsWithoutColons(n, StripColons(n));
    case Entity(n) =>
      if n.Some? && n.value != [] {
        assert IsResource(q, n.value) && IsWithoutColons(n.value, StripColons(n.value));
      }
  }

  lemma PropertyIsCondition(q: Request, i: nat) returns (k: nat)
    requires Valid(q) && KeptUnfold(q) && i < |FilterTree(q).fields|
    ensures IsConditionOf(q, k, FilterTree(q).fields[i])
  {
    var (c, kept) := (q.conditions, Kept(q.conditions, SortedKeys(q.conditions)));
    var field := FilterTree(q).fields[i];
    assert |Keys(FilterTree(q).fields)| == |Keys(kept)|;
    assert Keys(FilterTree(q).fields)[i] == Keys(kept)[i] && Values(kept)[i] == Some(kept[i].value);
    KeptOfConditions(q);
    assert kept[i] in kept;
    k :| 0 <= k < |c| && c[k] == kept[i];
    assert StandsFor(q.heap, kept[i].value, field.value);
  }

  lemma ConditionIsProperty(q: Request, k: nat)
    requires Valid(q) && KeptUnfold(q) && k < |q.conditions| && TakesPart(q.conditions[k])
    ensures q.conditions[k].key in Keys(FilterTree(q).fields)
  {
    var (c, kept) := (q.conditions, Kept(q.conditions, SortedKeys(q.conditions)));
    KeptOfConditions(q);
    assert c[k] in kept;
    var i :| 0 <= i < |kept| && kept[i] == c[k];
    assert Keys(kept)[i] == c[k].key;
  }

  lemma FilterIs(q: Request)
    requires Valid(q) && KeptUnfold(q)
    ensures IsFilter(q, FilterTree(q))
  {
    var filter := FilterTree(q);
    forall i: nat | i < |filter.fields| ensures IsSomeCondition(q, filter.fields[i]) {
      var k := PropertyIsCondition(q, i);
    }
    forall k: nat | k < |q.conditions| && TakesPart(q.conditions[k]) ensures q.conditions[k].key in Keys(filter.fields) {
      ConditionIsProperty(q, k);
    }
  }

  /** `key` is tenant, resource and version in clear, and the hash of a text that says all three of the tuple. */
  ghost predicate IsKeyOf(q: Request, hash: Text -> Text, key: Text, tenant: Text, name: Text, short: Text, filter: Json,
                          text: Text) {
    && IsTenant(q, tenant) && IsResource(q, name) && IsWithoutColons(name, short) && IsFilter(q, filter)
    && Says(text, Sorted(Arr([Str(tenant), Str(short), filter])), [])
    && key == tenant + [58] + short + [58, 118, 49, 58] + hash(text)
  }

  /** A key has the form `tenant:resource:v1:hash`, of the tenant, resource and filter of the call. */
  lemma KeyHasThisForm(q: Request, hash: Text -> Text)
    returns (tenant: Text, name: Text, short: Text, filter: Json, text: Text)
    requires Valid(q) && KeyOf(q, hash).Ok?
    ensures IsKeyOf(q, hash, KeyOf(q, hash).value, tenant, name, short, filter, text)
  {
    TenantIs(q);
    ResourceIs(q);
    DerivedIff(q, hash);
    SerializableIffUnfolds(q);
    tenant, short := RequireTenant(q.source, q.resolved).value, ResourceName(q.resource).value;
    name :| IsResource(q, name) && IsWithoutColons(name, short);
    filter := FilterTree(q);
    FilterIs(q);
    TupleSerializes(q, tenant, short);
    var tree := TupleTree(q, tenant, short);
    text := Print(Sorted(tree));
    PrintSays(Sorted(tree), []);
  }

  /** A missing tenant is reported before a missing resource, and both before anything about the filter. */
  lemma ErrorsComeInOrder(q: Request, hash: Text -> Text)
    requires Valid(q)
    ensures KeyOf(q, hash) == Err(MissingTenant) <==> forall tenant :: !IsTenant(q, tenant)
    ensures KeyOf(q, hash) == Err(NoResource) <==>
            (exists tenant :: IsTenant(q, tenant)) && forall name :: !IsResource(q, name)
    ensures KeyOf(q, hash) == Err(UnsupportedValue) <==>
            && (exists tenant :: IsTenant(q, tenant)) && (exists name :: IsResource(q, name))
            && exists i :: 0 <= i < |q.conditions| && q.conditions[i].value.Unserializable?
  {
    TenantIs(q);
    ResourceIs(q);
  }
}

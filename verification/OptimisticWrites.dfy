/**
 Optimistic versioned writes: the version state of an aggregate, the version-conditioned statements, and
 the acknowledgement that follows a durable write.
 */
module OptimisticWrites {
  import opened Wrappers

  type Id = string
  type Name = string
  type Value = string

  // ---- RootEntity ----

  datatype PatchError = UnknownField(key: Name) | InvalidValue(key: Name)

  datatype AcknowledgeError = NotAPositiveInteger

  /**
   Where a mutation throws, other than in its patch: in the method after the patch, in the `afterUpdate` hook or
   the event factory, or while the events are applied.
   */
  datatype Throw = Nowhere | AfterPatch | AfterUpdate

  datatype MutationError = BadPatch(error: PatchError) | Thrown(place: Throw)

  /** A field registered with `@Mutable()`; `normalize` gives none for a value it rejects. */
  datatype MutableField = MutableField(propertyKey: Name, normalize: Value -> Option<Value>)

  type Registry = map<Name, MutableField>

  /** An absent value stands for `undefined`. */
  type Patch = seq<(Name, Option<Value>)>

  /** What the first phase finds out, key by key. */
  function Checked(registry: Registry, patch: Patch): Result<seq<(Name, Value)>, PatchError> {
    if patch == [] then Ok([])
    else
      var (front, (key, value)) := (Checked(registry, patch[..|patch| - 1]), patch[|patch| - 1]);
      if front.Err? || value == None then front
      else if key !in registry then Err(UnknownField(key))
      else match registry[key].normalize(value.value)
        case None => Err(InvalidValue(key))
        case Some(normalized) => Ok(front.value + [(registry[key].propertyKey, normalized)])
  }

  function Assigned(fields: map<Name, Value>, writes: seq<(Name, Value)>): map<Name, Value> {
    if writes == [] then fields
    else Assigned(fields, writes[..|writes| - 1])[writes[|writes| - 1].0 := writes[|writes| - 1].1]
  }

  predicate IsAcceptable(registry: Registry, entry: (Name, Option<Value>)) {
    entry.1.Some? ==> entry.0 in registry && registry[entry.0].normalize(entry.1.value).Some?
  }

  /** A patch goes through exactly when every key it defines is registered with an acceptable value. */
  lemma {:induction false} CheckedIffAcceptable(registry: Registry, patch: Patch)
    ensures Checked(registry, patch).Ok? <==> forall i :: 0 <= i < |patch| ==> IsAcceptable(registry, patch[i])
  {
    if patch != [] {
      var last := |patch| - 1;
      CheckedIffAcceptable(registry, patch[..last]);
      assert forall i :: 0 <= i < last ==> patch[..last][i] == patch[i];
      assert (forall i :: 0 <= i < |patch| ==> IsAcceptable(registry, patch[i]))
        <==> IsAcceptable(registry, patch[last]) && forall i :: 0 <= i < last ==> IsAcceptable(registry, patch[..last][i]);
    }
  }

  /** Entry `i` is the first that is not acceptable, and `error` says why. */
  predicate IsFirstFault(registry: Registry, patch: Patch, i: nat, error: PatchError) {
    && i < |patch| && patch[i].1.Some? && (forall k :: 0 <= k < i ==> IsAcceptable(registry, patch[k]))
    && (if patch[i].0 !in registry then error == UnknownField(patch[i].0)
        else registry[patch[i].0].normalize(patch[i].1.value) == None && error == InvalidValue(patch[i].0))
  }

  /** What a patch is refused for is its first entry that is not acceptable. */
  lemma {:induction false} RefusedForFirstFault(registry: Registry, patch: Patch)
    requires Checked(registry, patch).Err?
    ensures exists i :: IsFirstFault(registry, patch, i, Checked(registry, patch).error)
  {
    var last := |patch| - 1;
    if Checked(registry, patch[..last]).Err? {
      RefusedForFirstFault(registry, patch[..last]);
      var i :| IsFirstFault(registry, patch[..last], i, Checked(registry, patch).error);
      assert IsFirstFault(registry, patch, i, Checked(registry, patch).error);
    } else {
      CheckedIffAcceptable(registry, patch[..last]);
      assert forall k :: 0 <= k < last ==> patch[..last][k] == patch[k];
      assert IsFirstFault(registry, patch, last, Checked(registry, patch).error);
    }
  }

  /** Entry `i` is for the property `name`. */
  predicate IsFor(registry: Registry, patch: Patch, i: nat, name: Name) {
    i < |patch| && patch[i].1.Some? && patch[i].0 in registry && registry[patch[i].0].propertyKey == name
  }

  predicate IsLastFor(registry: Registry, patch: Patch, i: nat, name: Name) {
    IsFor(registry, patch, i, name) && forall k :: i < k < |patch| ==> !IsFor(registry, patch, k, name)
  }

  /** A property has the normalized value of the last entry that is for it. */
  lemma {:induction false} PatchedProperty(registry: Registry, patch: Patch, fields: map<Name, Value>, name: Name, i: nat)
    requires Checked(registry, patch).Ok? && IsLastFor(registry, patch, i, name)
    ensures var after := Assigned(fields, Checked(registry, patch).value);
            name in after && Some(after[name]) == registry[patch[i].0].normalize(patch[i].1.value)
  {
    var (front, last) := (patch[..|patch| - 1], |patch| - 1);
    LastWrite(registry, patch, fields);
    if i < last {
      assert front[i] == patch[i] && !IsFor(registry, patch, last, name);
      assert forall k :: 0 <= k < last ==> (IsFor(registry, patch, k, name) <==> IsFor(registry, front, k, name));
      PatchedProperty(registry, front, fields, name, i);
    }
  }

  /** And is as it was if there is none. */
  lemma {:induction false} UnpatchedProperty(registry: Registry, patch: Patch, fields: map<Name, Value>, name: Name)
    requires Checked(registry, patch).Ok? && forall i :: 0 <= i < |patch| ==> !IsFor(registry, patch, i, name)
    ensures var after := Assigned(fields, Checked(registry, patch).value);
            (name in after <==> name in fields) && (name in fields ==> after[name] == fields[name])
  {
    if patch != [] {
      var (front, last) := (patch[..|patch| - 1], |patch| - 1);
      LastWrite(registry, patch, fields);
      assert !IsFor(registry, patch, last, name);
      assert forall k :: 0 <= k < last ==> (IsFor(registry, patch, k, name) <==> IsFor(registry, front, k, name));
      UnpatchedProperty(registry, front, fields, name);
    }
  }

  /** What the last entry adds to what the ones before it do. */
  lemma LastWrite(registry: Registry, patch: Patch, fields: map<Name, Value>)
    requires patch != [] && Checked(registry, patch).Ok?
    ensures Checked(registry, patch[..|patch| - 1]).Ok?
    ensures var (key, value) := patch[|patch| - 1];
            var before := Assigned(fields, Checked(registry, patch[..|patch| - 1]).value);
            var after := Assigned(fields, Checked(registry, patch).value);
            if value == None then after == before
            else key in registry && registry[key].normalize(value.value).Some?
                 && after == before[registry[key].propertyKey := registry[key].normalize(value.value).value]
  {
    var writes := Checked(registry, patch).value;
    if patch[|patch| - 1].1.Some? {
      assert writes[..|writes| - 1] == Checked(registry, patch[..|patch| - 1]).value;
    }
  }

  class RootEntity {
    const id: Id
    var version: int
    var persistedVersion: int
    var updatedAt: int
    var fields: map<Name, Value>
    const registry: Registry

    ghost predicate Valid()
      reads this
    {
      version > 0 && persistedVersion > 0
    }

    /** A snapshot's version counts when it is a positive integer. */
    constructor (id: Id, snapshotVersion: Option<int>, updatedAt: int, fields: map<Name, Value>, registry: Registry)
      ensures Valid() && this.id == id && this.fields == fields && this.registry == registry
      ensures this.updatedAt == updatedAt && persistedVersion == version
      ensures version == if snapshotVersion.Some? && snapshotVersion.value > 0 then snapshotVersion.value else 1
    {
      this.id, this.updatedAt, this.fields, this.registry := id, updatedAt, fields, registry;
      version := if snapshotVersion.Some? && snapshotVersion.value > 0 then snapshotVersion.value else 1;
      persistedVersion := version;
    }

    /** The setter that the ORM hydrates through: a loaded version is also the baseline. */
    method SetVersion(value: int)
      requires Valid()
      modifies this`version, this`persistedVersion
      ensures Valid()
      ensures if value > 0 then version == persistedVersion == value
              else version == old(version) && persistedVersion == old(persistedVersion)
    {
      if value > 0 {
        version, persistedVersion := value, value;
      }
    }

    method AcknowledgePersisted(acknowledged: Option<int>) returns (outcome: Result<(), AcknowledgeError>)
      requires Valid()
      modifies this`version, this`persistedVersion
      ensures Valid()
      ensures outcome.Err? <==> acknowledged.Some? && acknowledged.value <= 0
      ensures outcome.Err? ==> version == old(version) && persistedVersion == old(persistedVersion)
      ensures outcome.Ok? ==>
        && persistedVersion == (if acknowledged.Some? then acknowledged.value else old(version))
        && version == (if old(version) < persistedVersion then persistedVersion else old(version))
    {
      if acknowledged.Some? {
        if acknowledged.value <= 0 {
          return Err(NotAPositiveInteger);
        }
        persistedVersion := acknowledged.value;
        if version < acknowledged.value {
          version := acknowledged.value;
        }
        return Ok(());
      }
      persistedVersion := version;
      return Ok(());
    }

    method OnUpdate(now: int)
      requires Valid()
      modifies this`version, this`updatedAt
      ensures Valid() && version == old(version) + 1 && updatedAt == now
    {
      version := version + 1;
      updatedAt := now;
    }

    /** All or nothing: a patch with a bad key or value writes no field. */
    method ApplyPatch(patch: Patch) returns (outcome: Result<(), PatchError>)
      modifies this`fields
      ensures outcome.Ok? <==> Checked(registry, patch).Ok?
      ensures outcome.Err? ==> outcome.error == Checked(registry, patch).error && fields == old(fields)
      ensures outcome.Ok? ==> fields == Assigned(old(fields), Checked(registry, patch).value)
    {
      var writes: seq<(Name, Value)> := [];
      for i := 0 to |patch|
        invariant Checked(registry, patch[..i]) == Ok(writes)
        invariant fields == old(fields)
      {
        PatchStep(registry, patch, i);
        var (key, value) := patch[i];
        if value.Some? {
          if key !in registry {
            return Err(UnknownField(key));
          }
          var normalized := registry[key].normalize(value.value);
          if normalized == None {
            return Err(InvalidValue(key));
          }
          writes := writes + [(registry[key].propertyKey, normalized.value)];
        }
      }
      assert patch[..|patch|] == patch;
      for i := 0 to |writes|
        invariant fields == Assigned(old(fields), writes[..i])
      {
        assert writes[..i + 1][..i] == writes[..i];
        fields := fields[writes[i].0 := writes[i].1];
      }
      assert writes[..|writes|] == writes;
      return Ok(());
    }

    /**
     A method decorated with `@ApplyMutation()`: the patch, then the version and the timestamp, then the events.
     Nothing is rolled back: what throws after the patch leaves the patched fields, and what throws after the
     update leaves the new version too.
     */
    method Mutate(patch: Patch, now: int, throws: Throw) returns (outcome: Result<(), MutationError>)
      requires Valid()
      modifies this`fields, this`version, this`updatedAt
      ensures Valid() && (outcome.Ok? <==> Checked(registry, patch).Ok? && throws == Nowhere)
      ensures Checked(registry, patch).Err? ==>
        outcome == Err(BadPatch(Checked(registry, patch).error)) && fields == old(fields)
      ensures Checked(registry, patch).Ok? ==>
        && fields == Assigned(old(fields), Checked(registry, patch).value)
        && (outcome.Err? ==> outcome.error == Thrown(throws))
      ensures if Checked(registry, patch).Ok? && throws != AfterPatch
              then version == old(version) + 1 && updatedAt == now
              else version == old(version) && updatedAt == old(updatedAt)
    {
      var patched := ApplyPatch(patch);
      if patched.Err? {
        return Err(BadPatch(patched.error));
      }
      if throws == AfterPatch {
        return Err(Thrown(throws));
      }
      OnUpdate(now);
      if throws == AfterUpdate {
        return Err(Thrown(throws));
      }
      return Ok(());
    }
  }

  lemma PatchStep(registry: Registry, patch: Patch, i: nat)
    requires i < |patch| && Checked(registry, patch[..i]).Ok?
    ensures
      var (key, value) := patch[i];
      Checked(registry, patch[..i + 1]) ==
        if value == None then Checked(registry, patch[..i])
        else if key !in registry then Err(UnknownField(key))
        else if registry[key].normalize(value.value) == None then Err(InvalidValue(key))
        else Ok(Checked(registry, patch[..i]).value + [(registry[key].propertyKey, registry[key].normalize(value.value).value)])
    ensures Checked(registry, patch[..i + 1]).Err? ==> Checked(registry, patch) == Checked(registry, patch[..i + 1])
  {
    assert patch[..i + 1][..i] == patch[..i];
    FirstErrorStays(registry, patch, i + 1);
  }

  lemma {:induction false} FirstErrorStays(registry: Registry, patch: Patch, i: nat)
    requires i <= |patch|
    ensures Checked(registry, patch[..i]).Err? ==> Checked(registry, patch) == Checked(registry, patch[..i])
    decreases |patch|
  {
    if i == |patch| {
      assert patch[..i] == patch;
    } else {
      var front := patch[..|patch| - 1];
      assert front[..i] == patch[..i];
      FirstErrorStays(registry, front, i);
    }
  }

  // ---- The statements ----

  /** One row of the aggregate's table. */
  datatype Row = Row(version: int, fields: map<Name, Value>)

  datatype WriteError =
    | RequiresAutocommit
    | NotFound(id: Id)
    | Conflict(id: Id, expected: int, actual: int)
    | UnexpectedCount(count: nat)

  class EntityManager {
    var rows: map<Id, Row>
    var inTransaction: bool

    constructor (rows: map<Id, Row>)
      ensures this.rows == rows && !inTransaction
    {
      this.rows, inTransaction := rows, false;
    }

    method NativeUpdate(id: Id, expected: int, row: Row) returns (affected: nat)
      modifies this`rows
      ensures affected == if id in old(rows) && old(rows)[id].version == expected then 1 else 0
      ensures rows == if affected == 1 then old(rows)[id := row] else old(rows)
    {
      if id in rows && rows[id].version == expected {
        rows := rows[id := row];
        return 1;
      }
      return 0;
    }

    method NativeDelete(id: Id, expected: int) returns (affected: nat)
      modifies this`rows
      ensures affected == if id in old(rows) && old(rows)[id].version == expected then 1 else 0
      ensures rows == if affected == 1 then old(rows) - {id} else old(rows)
    {
      if id in rows && rows[id].version == expected {
        rows := rows - {id};
        return 1;
      }
      return 0;
    }
  }

  /** One row is success; none is a missing row or a diverged version; more cannot be. */
  function ExpectOneRow(affected: nat, found: Option<Row>, id: Id, expected: int): (outcome: Result<(), WriteError>)
    ensures outcome.Ok? <==> affected == 1
    ensures outcome == Err(NotFound(id)) <==> affected == 0 && found == None
    ensures outcome.Err? && outcome.error.Conflict? ==> found.Some? && outcome.error.actual == found.value.version
  {
    if affected == 1 then Ok(())
    else if affected == 0 then
      match found
      case None => Err(NotFound(id))
      case Some(row) => Err(Conflict(id, expected, row.version))
    else Err(UnexpectedCount(affected))
  }

  /** The row of the aggregate is the one its baseline names. */
  predicate Matches(rows: map<Id, Row>, id: Id, expected: int) {
    id in rows && rows[id].version == expected
  }

  function Found(rows: map<Id, Row>, id: Id): Option<Row> {
    if id in rows then Some(rows[id]) else None
  }

  /** Why a version-conditioned write that does not match is rejected. */
  function Rejection(rows: map<Id, Row>, id: Id, expected: int): WriteError {
    if id in rows then Conflict(id, expected, rows[id].version) else NotFound(id)
  }

  /** A conditional write as its call captured it, before the statement is sent. */
  datatype Pending = Pending(id: Id, deletes: bool, expected: int, row: Row)

  function Captured(entity: RootEntity, deletes: bool): Pending
    reads entity
  {
    Pending(entity.id, deletes, entity.persistedVersion, Row(entity.version, entity.fields))
  }

  /** The table after the statement. */
  function After(rows: map<Id, Row>, pending: Pending): map<Id, Row> {
    if !Matches(rows, pending.id, pending.expected) then rows
    else if pending.deletes then rows - {pending.id}
    else rows[pending.id := pending.row]
  }

  /** The statement, at whatever time the database gets to it. */
  method Execute(em: EntityManager, pending: Pending) returns (affected: nat)
    modifies em`rows
    ensures em.rows == After(old(em.rows), pending)
    ensures affected == if Matches(old(em.rows), pending.id, pending.expected) then 1 else 0
  {
    if pending.deletes {
      affected := em.NativeDelete(pending.id, pending.expected);
    } else {
      affected := em.NativeUpdate(pending.id, pending.expected, pending.row);
    }
  }

  /** What `save` does once its statement has returned; `found` is what the diagnostic read sees then. */
  method Finish(entity: RootEntity, pending: Pending, affected: nat, found: Option<Row>)
    returns (outcome: Result<(), WriteError>)
    requires entity.Valid() && pending.row.version > 0
    modifies entity`version, entity`persistedVersion
    ensures entity.Valid() && outcome == ExpectOneRow(affected, found, pending.id, pending.expected)
    ensures if outcome.Ok?
            then entity.persistedVersion == pending.row.version
                 && entity.version == if old(entity.version) < pending.row.version then pending.row.version
                                      else old(entity.version)
            else entity.persistedVersion == old(entity.persistedVersion) && entity.version == old(entity.version)
  {
    outcome := ExpectOneRow(affected, found, pending.id, pending.expected);
    if outcome.Ok? {
      var _ := entity.AcknowledgePersisted(Some(pending.row.version));
    }
  }

  method OptimisticUpdate(em: EntityManager, entity: RootEntity) returns (outcome: Result<(), WriteError>)
    modifies em`rows
    ensures em.inTransaction ==> outcome == Err(RequiresAutocommit) && em.rows == old(em.rows)
    ensures !em.inTransaction && Matches(old(em.rows), entity.id, entity.persistedVersion) ==>
      outcome == Ok(()) && em.rows == old(em.rows)[entity.id := Row(entity.version, entity.fields)]
    ensures !em.inTransaction && !Matches(old(em.rows), entity.id, entity.persistedVersion) ==>
      em.rows == old(em.rows) && outcome == Err(Rejection(em.rows, entity.id, entity.persistedVersion))
  {
    if em.inTransaction {
      return Err(RequiresAutocommit);
    }
    var pending := Captured(entity, false);
    var affected := Execute(em, pending);
    outcome := ExpectOneRow(affected, Found(em.rows, pending.id), pending.id, pending.expected);
  }

  method OptimisticDelete(em: EntityManager, entity: RootEntity) returns (outcome: Result<(), WriteError>)
    modifies em`rows
    ensures em.inTransaction ==> outcome == Err(RequiresAutocommit) && em.rows == old(em.rows)
    ensures !em.inTransaction && Matches(old(em.rows), entity.id, entity.persistedVersion) ==>
      outcome == Ok(()) && em.rows == old(em.rows) - {entity.id}
    ensures !em.inTransaction && !Matches(old(em.rows), entity.id, entity.persistedVersion) ==>
      em.rows == old(em.rows) && outcome == Err(Rejection(em.rows, entity.id, entity.persistedVersion))
  {
    if em.inTransaction {
      return Err(RequiresAutocommit);
    }
    var pending := Captured(entity, true);
    var affected := Execute(em, pending);
    outcome := ExpectOneRow(affected, Found(em.rows, pending.id), pending.id, pending.expected);
  }

  /** `save` under `@AcknowledgePersisted`: the version is captured before the write. */
  method Save(em: EntityManager, entity: RootEntity) returns (outcome: Result<(), WriteError>)
    requires entity.Valid()
    modifies em`rows, entity`version, entity`persistedVersion
    ensures entity.Valid() && entity.version == old(entity.version)
    ensures outcome.Ok? <==> !em.inTransaction && Matches(old(em.rows), entity.id, old(entity.persistedVersion))
    ensures outcome.Ok? ==>
      && entity.persistedVersion == old(entity.version)
      && em.rows == old(em.rows)[entity.id := Row(entity.version, entity.fields)]
      && Matches(em.rows, entity.id, entity.persistedVersion)
    ensures outcome.Err? ==> entity.persistedVersion == old(entity.persistedVersion) && em.rows == old(em.rows)
  {
    if em.inTransaction {
      return Err(RequiresAutocommit);
    }
    var pending := Captured(entity, false);
    var affected := Execute(em, pending);
    outcome := Finish(entity, pending, affected, Found(em.rows, pending.id));
  }
}

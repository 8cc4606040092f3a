/** The objects and statements of `OptimisticWrites` are what the steps of `WriteProtocol` stand for. */
module WriteRefinement {
  import opened Wrappers
  import opened WriteProtocol
  import OW = OptimisticWrites

  // Any number of aggregates and of their writes may be under way. The content of a row, a list of mutations in
  // the protocol, is the fields that replaying them gives.

  /** The fields of the row that the list starts from, and what each mutation writes. */
  datatype Meaning = Meaning(base: map<OW.Name, OW.Value>, writes: Mutation -> seq<(OW.Name, OW.Value)>)

  function Fields(m: Meaning, content: seq<Mutation>): map<OW.Name, OW.Value> {
    if content == [] then m.base
    else OW.Assigned(Fields(m, content[..|content| - 1]), m.writes(content[|content| - 1]))
  }

  function AsTableRow(m: Meaning, row: Row): OW.Row {
    OW.Row(row.version, Fields(m, row.content))
  }

  function AsPending(m: Meaning, id: OW.Id, write: Write): OW.Pending {
    OW.Pending(id, write.deletes, write.expected, AsTableRow(m, write.row))
  }

  /** The table holds the current row, and none after a delete. */
  ghost predicate Represents(m: Meaning, s: State, rows: map<OW.Id, OW.Row>, id: OW.Id) {
    && s.history != []
    && (forall i :: 0 <= i < |s.history| ==> s.history[i].version > 0)
    && (s.deleted <==> id !in rows)
    && (!s.deleted ==> rows[id] == AsTableRow(m, Current(s)))
  }

  ghost predicate Mirrors(m: Meaning, aggregate: Aggregate, entity: OW.RootEntity)
    reads entity
  {
    && entity.version == aggregate.version && entity.persistedVersion == aggregate.baseline
    && entity.fields == Fields(m, aggregate.content)
  }

  ghost predicate IsMirrored(m: Meaning, aggregate: Aggregate, entity: OW.RootEntity, id: OW.Id)
    reads entity
  {
    entity.Valid() && entity.id == id && Mirrors(m, aggregate, entity)
  }

  lemma FieldsOfMore(m: Meaning, content: seq<Mutation>, k: Mutation)
    ensures Fields(m, content + [k]) == OW.Assigned(Fields(m, content), m.writes(k))
  {
    assert (content + [k])[..|content|] == content;
  }

  /** Every aggregate has an object of its own. */
  ghost predicate AllMirror(m: Meaning, aggregates: map<nat, Aggregate>, entities: map<nat, OW.RootEntity>, id: OW.Id)
    reads entities.Values
  {
    && entities.Keys == aggregates.Keys
    && (forall a, b :: a in entities && b in entities && a != b ==> entities[a] != entities[b])
    && (forall a :: a in entities ==> IsMirrored(m, aggregates[a], entities[a], id))
  }

  ghost predicate AllCaptured(m: Meaning, writes: map<nat, Write>, pending: map<nat, OW.Pending>, id: OW.Id) {
    && pending.Keys == writes.Keys
    && (forall w :: w in pending ==> pending[w] == AsPending(m, id, writes[w]) && pending[w].row.version > 0)
  }

  lemma PhaseIsNotCaptured(m: Meaning, writes: map<nat, Write>, pending: map<nat, OW.Pending>, id: OW.Id, w: nat,
                           phase: Phase)
    requires AllCaptured(m, writes, pending, id) && w in writes
    ensures AllCaptured(m, writes[w := writes[w].(phase := phase)], pending, id)
  {
  }

  // ---- What the database does ----

  /** What the protocol's statement does. */
  function Executed(s: State, w: nat): State
    requires s.history != [] && w in s.writes
  {
    var write := s.writes[w];
    if !Hits(s, write) then s.(writes := s.writes[w := write.(phase := Rejected)])
    else if write.deletes then s.(deleted := true, writes := s.writes[w := write.(phase := Written)])
    else s.(history := s.history + [write.row], writes := s.writes[w := write.(phase := Written)])
  }

  /** The conditional statement on the table is the protocol's step on the history. */
  lemma StatementIsExecute(m: Meaning, s: State, rows: map<OW.Id, OW.Row>, id: OW.Id, w: nat)
    requires Represents(m, s, rows, id) && w in s.writes && s.writes[w].phase == Issued
    requires s.writes[w].row.version > 0
    ensures TakesStep(s, Execute(w), Executed(s, w))
    ensures Represents(m, Executed(s, w), OW.After(rows, AsPending(m, id, s.writes[w])), id)
    ensures Executed(s, w).writes[w].phase == Written <==> OW.Matches(rows, id, s.writes[w].expected)
  {
  }

  /** The statement of a write that is under way, whatever has happened since it was captured. */
  method ExecuteWrite(em: OW.EntityManager, p: OW.Pending, ghost m: Meaning, ghost s: State, ghost id: OW.Id,
                      ghost pending: map<nat, OW.Pending>, ghost w: nat)
    returns (affected: nat, ghost s': State)
    requires Represents(m, s, em.rows, id) && AllCaptured(m, s.writes, pending, id)
    requires w in pending && pending[w] == p && s.writes[w].phase == Issued
    modifies em`rows
    ensures TakesStep(s, Execute(w), s')
    ensures Represents(m, s', em.rows, id) && AllCaptured(m, s'.writes, pending, id) && s'.aggregates == s.aggregates
    ensures affected == if s'.writes[w].phase == Written then 1 else 0
  {
    s' := Executed(s, w);
    StatementIsExecute(m, s, em.rows, id, w);
    PhaseIsNotCaptured(m, s.writes, pending, id, w, s'.writes[w].phase);
    affected := OW.Execute(em, p);
  }

  // ---- What the clients do ----

  /** Hydrating an aggregate, from the row or from a snapshot of it that a cache has kept. */
  method LoadEntity(row: OW.Row, id: OW.Id, registry: OW.Registry, updatedAt: int, ghost m: Meaning, ghost s: State,
                    ghost entities: map<nat, OW.RootEntity>, ghost a: nat, ghost i: nat)
    returns (entity: OW.RootEntity, ghost s': State)
    requires AllMirror(m, s.aggregates, entities, id) && a !in entities
    requires i < |s.history| && s.history[i].version > 0 && row == AsTableRow(m, s.history[i])
    ensures TakesStep(s, Load(a, i), s') && s' == s.(aggregates := s'.aggregates)
    ensures fresh(entity) && AllMirror(m, s'.aggregates, entities[a := entity], id)
  {
    entity := new OW.RootEntity(id, None, updatedAt, row.fields, registry);
    entity.SetVersion(row.version);
    s' := s.(aggregates := s.aggregates[a := Hydrated(s.history[i])]);
  }

  /** A completed mutation is the protocol's mutation, and a patch that is refused is no step. */
  method MutateEntity(entity: OW.RootEntity, patch: OW.Patch, now: int, ghost m: Meaning, ghost s: State, ghost id: OW.Id,
                      ghost entities: map<nat, OW.RootEntity>, ghost a: nat, ghost k: Mutation)
    returns (outcome: Result<(), OW.MutationError>, ghost s': State)
    requires s.history != [] && AllMirror(m, s.aggregates, entities, id) && a in entities && entities[a] == entity
    requires OW.Checked(entity.registry, patch).Ok? ==> m.writes(k) == OW.Checked(entity.registry, patch).value
    modifies entity`fields, entity`version, entity`updatedAt
    ensures AllMirror(m, s'.aggregates, entities, id)
    ensures if outcome.Ok? then TakesStep(s, Mutate(a, k), s') && s' == s.(aggregates := s'.aggregates) else s' == s
  {
    outcome := entity.Mutate(patch, now, OW.Nowhere);
    s' := s;
    if outcome.Ok? {
      ghost var before := s.aggregates[a];
      FieldsOfMore(m, before.content, k);
      s' := s.(aggregates := s.aggregates[a := before.(version := before.version + 1, content := before.content + [k])]);
      assert IsMirrored(m, s'.aggregates[a], entity, id);
    }
  }

  /** Calling a save or delete captures the aggregate as it is now. */
  method IssueWrite(entity: OW.RootEntity, deletes: bool, ghost m: Meaning, ghost s: State, ghost id: OW.Id,
                    ghost entities: map<nat, OW.RootEntity>, ghost pending: map<nat, OW.Pending>, ghost a: nat, ghost w: nat)
    returns (p: OW.Pending, ghost s': State)
    requires s.history != [] && AllMirror(m, s.aggregates, entities, id) && a in entities && entities[a] == entity
    requires AllCaptured(m, s.writes, pending, id) && w !in pending
    ensures p == OW.Captured(entity, deletes)
    ensures TakesStep(s, Issue(w, a, deletes), s') && s' == s.(writes := s'.writes)
    ensures AllCaptured(m, s'.writes, pending[w := p], id)
  {
    p := OW.Captured(entity, deletes);
    ghost var aggregate := s.aggregates[a];
    s' := s.(writes := s.writes[w :=
      Write(a, deletes, aggregate.baseline, Row(aggregate.version, aggregate.content), Issued)]);
  }

  /**
   The end of a save, whatever has happened since its statement: if it has written the row that is acknowledged,
   otherwise nothing changes.
   */
  method FinishSave(entity: OW.RootEntity, p: OW.Pending, affected: nat, found: Option<OW.Row>, ghost m: Meaning,
                    ghost s: State, ghost id: OW.Id, ghost entities: map<nat, OW.RootEntity>,
                    ghost pending: map<nat, OW.Pending>, ghost w: nat)
    returns (outcome: Result<(), OW.WriteError>, ghost s': State)
    requires s.history != [] && AllMirror(m, s.aggregates, entities, id) && AllCaptured(m, s.writes, pending, id)
    requires w in pending && pending[w] == p && !p.deletes
    requires s.writes[w].aggregate in entities && entities[s.writes[w].aggregate] == entity
    requires s.writes[w].phase == (if affected == 1 then Written else Rejected)
    modifies entity`version, entity`persistedVersion
    ensures outcome.Ok? <==> affected == 1
    ensures if outcome.Ok? then TakesStep(s, Acknowledge(w), s') else s' == s
    ensures s'.history == s.history && s'.deleted == s.deleted
    ensures AllMirror(m, s'.aggregates, entities, id) && AllCaptured(m, s'.writes, pending, id)
  {
    outcome := OW.Finish(entity, p, affected, found);
    s' := s;
    if outcome.Ok? {
      PhaseIsNotCaptured(m, s.writes, pending, id, w, Acknowledged);
      ghost var (a, version) := (s.writes[w].aggregate, s.writes[w].row.version);
      ghost var before := s.aggregates[a];
      s' := s.(aggregates := s.aggregates[a := before.(
                 baseline := version, version := if before.version < version then version else before.version)],
               writes := s.writes[w := s.writes[w].(phase := Acknowledged)]);
    }
  }
}

/**
 `UserPermissionsProjector`: the batched loops that write `user_permission_rules` and look for drift,
 proved against `Permissions`. A table hands out its rows in whatever order it likes, unless the query
 orders them.
 */
module PermissionsProjector {
  import opened Wrappers
  import opened Sorting
  import opened Permissions

  const BATCH_SIZE: nat := 500

  datatype ProjectorError = RequiresTransaction

  class Database {
    var tables: Tables
    var rules: set<Rule>
    var inTransaction: bool

    constructor (tables: Tables, rules: set<Rule>, inTransaction: bool)
      ensures this.tables == tables && this.rules == rules && this.inTransaction == inTransaction
    {
      this.tables, this.rules, this.inTransaction := tables, rules, inTransaction;
    }

    /** The links of some owners. */
    method FindLinks(table: set<Link>, owners: set<Id>) returns (rows: seq<Link>)
      ensures Distinct(rows) && Elements(rows) == set l | l in table && l.owner in owners
    {
      rows := ListOf(set l | l in table && l.owner in owners);
    }

    /** The rules of some users, ordered by user, inverted and position. */
    method FindRules(users: set<Id>) returns (rows: seq<Rule>)
      requires KeysUnique(rules)
      ensures Orders(ReadBefore, set x | x in rules && x.userId in users)
      ensures rows == Ascending(ReadBefore, set x | x in rules && x.userId in users)
    {
      var found := set x | x in rules && x.userId in users;
      var unordered := ListOf(found);
      rows := Sort(ReadBefore, unordered);
      RulesAreOrdered(found);
      SortIsAscending(ReadBefore, unordered);
    }

    method DeleteRules(users: set<Id>)
      modifies this`rules
      ensures rules == set x | x in old(rules) && x.userId !in users
    {
      rules := set x | x in rules && x.userId !in users;
    }

    method InsertRules(rows: seq<Rule>)
      modifies this`rules
      ensures rules == old(rules) + Elements(rows)
    {
      rules := rules + Elements(rows);
    }
  }

  /** The members of a set, in any order. */
  method ListOf<T(==)>(s: set<T>) returns (rows: seq<T>)
    ensures Distinct(rows) && Elements(rows) == s
  {
    rows := [];
    var rest := s;
    while rest != {}
      invariant rest <= s && Distinct(rows) && Elements(rows) == s - rest
      decreases rest
    {
      var x :| x in rest;
      assert x !in Elements(rows) && Elements(rows + [x]) == Elements(rows) + {x};
      rows := rows + [x];
      rest := rest - {x};
    }
  }

  // ---- Batches ----

  function Concatenated<T>(parts: seq<seq<T>>): seq<T> {
    if parts == [] then [] else Concatenated(parts[..|parts| - 1]) + parts[|parts| - 1]
  }

  /** Cuts a list into non-empty batches of at most five hundred, losing nothing and keeping the order. */
  method Chunks<T>(items: seq<T>) returns (result: seq<seq<T>>)
    ensures Concatenated(result) == items
    ensures forall i :: 0 <= i < |result| ==> 0 < |result[i]| <= 500
    ensures forall i :: 0 <= i < |result| - 1 ==> |result[i]| == 500
  {
    result := [];
    var start := 0;
    while start < |items|
      invariant 0 <= start && Concatenated(result) == items[..if start < |items| then start else |items|]
      invariant forall i :: 0 <= i < |result| ==> 0 < |result[i]| <= BATCH_SIZE
      invariant start < |items| ==> forall i :: 0 <= i < |result| ==> |result[i]| == BATCH_SIZE
      invariant forall i :: 0 <= i < |result| - 1 ==> |result[i]| == BATCH_SIZE
    {
      var end := if start + BATCH_SIZE < |items| then start + BATCH_SIZE else |items|;
      result := result + [items[start..end]];
      start := start + BATCH_SIZE;
    }
    assert items[..|items|] == items;
  }

  /** `[...new Set(ids)].sort(byId)`. */
  method SortedUnique(ids: seq<Id>) returns (r: seq<Id>)
    ensures r == InOrder(Elements(ids))
  {
    var unique: seq<Id> := [];
    for i := 0 to |ids|
      invariant Distinct(unique) && Elements(unique) == Elements(ids[..i])
    {
      TakeOneMore(ids, i);
      assert Elements(ids[..i + 1]) == Elements(ids[..i]) + {ids[i]};
      assert ids[i] in unique <==> ids[i] in Elements(unique);
      if ids[i] !in unique {
        assert Elements(unique + [ids[i]]) == Elements(unique) + {ids[i]};
        unique := unique + [ids[i]];
      }
    }
    assert ids[..|ids|] == ids;
    IdsAreOrdered(Elements(ids));
    SortIsAscending(Less, unique);
    r := Sort(Less, unique);
  }

  // ---- Expected rules ----

  /** The targets of an owner's links, in the order of `rows`. */
  function TargetsIn(rows: seq<Link>, owner: Id): seq<Id> {
    if rows == [] then []
    else
      var last := rows[|rows| - 1];
      TargetsIn(rows[..|rows| - 1], owner) + (if last.owner == owner then [last.target] else [])
  }

  lemma {:induction false} TargetsInMembers(rows: seq<Link>, owner: Id)
    ensures forall id :: id in TargetsIn(rows, owner) <==> Link(owner, id) in rows
    ensures Distinct(rows) ==> Distinct(TargetsIn(rows, owner))
  {
    if rows != [] {
      var (front, last) := (rows[..|rows| - 1], rows[|rows| - 1]);
      assert rows == front + [last];
      TargetsInMembers(front, owner);
      if Distinct(rows) && last.owner == owner {
        assert Link(owner, last.target) == last && last !in front;
      }
    }
  }

  /** Sorting an owner's targets, as found in any order, puts them in the order of the projection. */
  lemma SortedTargets(table: set<Link>, owners: set<Id>, rows: seq<Link>, owner: Id)
    requires Distinct(rows) && Elements(rows) == set l | l in table && l.owner in owners
    requires owner in owners
    ensures Sort(Less, TargetsIn(rows, owner)) == InOrder(Targets(table, owner))
  {
    var ids := TargetsIn(rows, owner);
    TargetsInMembers(rows, owner);
    forall id ensures id in Elements(ids) <==> id in Targets(table, owner) {
      assert Link(owner, id) in rows <==> Link(owner, id) in Elements(rows);
      assert id in Targets(table, owner) <==> Link(owner, id) in table;
    }
    assert Elements(ids) == Targets(table, owner);
    IdsAreOrdered(Targets(table, owner));
    SortIsAscending(Less, ids);
  }

  /** The columns of a capability's rule; a capability that was not found gives none. */
  function RuleOf(capabilities: map<Id, Capability>, source: Source, roleId: Option<Id>, id: Id): seq<RuleRow> {
    if id !in capabilities then []
    else
      var c := capabilities[id];
      [RuleRow(source, roleId, id, c.subject, c.action, c.conditions, c.fields,
               if source == Denied then true else c.inverted, c.reason)]
  }

  /** The rules of a list of capabilities. */
  method RulesOfCapabilities(capabilities: map<Id, Capability>, ghost t: Tables, source: Source,
                             roleId: Option<Id>, ids: seq<Id>) returns (rules: seq<RuleRow>)
    requires forall id :: id in ids ==> RuleOf(capabilities, source, roleId, id) == RowOf(t, source, roleId, id)
    ensures rules == Rows(t, source, roleId, ids)
  {
    rules := [];
    for i := 0 to |ids|
      invariant rules == Rows(t, source, roleId, ids[..i])
    {
      assert ids[..i + 1][..i] == ids[..i];
      rules := rules + RuleOf(capabilities, source, roleId, ids[i]);
    }
    assert ids[..|ids|] == ids;
  }

  lemma TargetsOneMore(rows: seq<Link>, i: nat)
    requires i < |rows|
    ensures forall id :: TargetsIn(rows[..i + 1], id) ==
                         if rows[i].owner == id then TargetsIn(rows[..i], id) + [rows[i].target]
                         else TargetsIn(rows[..i], id)
  {
    assert rows[..i + 1][..i] == rows[..i];
  }

  function CapabilitiesOf(lists: map<Id, seq<Id>>, id: Id): seq<Id> {
    if id in lists then lists[id] else []
  }

  ghost predicate IsGrouping(lists: map<Id, seq<Id>>, links: seq<Link>) {
    forall id :: CapabilitiesOf(lists, id) == TargetsIn(links, id)
  }

  lemma GroupingOneMore(lists: map<Id, seq<Id>>, links: seq<Link>, i: nat)
    requires i < |links| && IsGrouping(lists, links[..i])
    ensures IsGrouping(lists[links[i].owner := CapabilitiesOf(lists, links[i].owner) + [links[i].target]], links[..i + 1])
  {
    var link := links[i];
    var lists' := lists[link.owner := CapabilitiesOf(lists, link.owner) + [link.target]];
    TargetsOneMore(links, i);
    forall id ensures CapabilitiesOf(lists', id) == TargetsIn(links[..i + 1], id) {
      assert CapabilitiesOf(lists, id) == TargetsIn(links[..i], id);
    }
  }

  /** The capability ids of every role, in the order of the links. */
  method GroupByRole(roleLinks: seq<Link>) returns (capabilitiesOfRole: map<Id, seq<Id>>)
    ensures IsGrouping(capabilitiesOfRole, roleLinks)
  {
    capabilitiesOfRole := map[];
    for i := 0 to |roleLinks|
      invariant IsGrouping(capabilitiesOfRole, roleLinks[..i])
    {
      GroupingOneMore(capabilitiesOfRole, roleLinks, i);
      var list := CapabilitiesOf(capabilitiesOfRole, roleLinks[i].owner);
      capabilitiesOfRole := capabilitiesOfRole[roleLinks[i].owner := list + [roleLinks[i].target]];
    }
    assert roleLinks[..|roleLinks|] == roleLinks;
  }

  /** What `expectedRules` has read: all links of the batch, and all capabilities they name. */
  datatype Read = Read(
    userRoles: seq<Link>, additional: seq<Link>, denied: seq<Link>, roleLinks: seq<Link>,
    capabilities: map<Id, Capability>
  )

  ghost predicate Found(rows: seq<Link>, table: set<Link>, owners: set<Id>) {
    Distinct(rows) && Elements(rows) == set l | l in table && l.owner in owners
  }

  ghost predicate Complete(r: Read, t: Tables, batch: set<Id>) {
    && Found(r.userRoles, t.userRoles, batch)
    && Found(r.additional, t.additional, batch)
    && Found(r.denied, t.denied, batch)
    && Found(r.roleLinks, t.roleCapabilities, set l | l in r.userRoles :: l.target)
    && (forall id :: id in r.capabilities ==> id in t.capabilities && r.capabilities[id] == t.capabilities[id])
    && (forall l :: (l in r.roleLinks || l in r.additional || l in r.denied) && l.target in t.capabilities ==>
          l.target in r.capabilities)
  }

  method ReadBatch(em: Database, batch: set<Id>) returns (r: Read)
    ensures Complete(r, em.tables, batch)
  {
    var userRoles := em.FindLinks(em.tables.userRoles, batch);
    var additional := em.FindLinks(em.tables.additional, batch);
    var denied := em.FindLinks(em.tables.denied, batch);
    var roleIds := set l | l in userRoles :: l.target;
    var roleLinks: seq<Link> := [];
    if roleIds != {} {
      roleLinks := em.FindLinks(em.tables.roleCapabilities, roleIds);
    }
    var capabilityIds := set l | l in roleLinks + additional + denied :: l.target;
    var capabilities := map id | id in capabilityIds && id in em.tables.capabilities :: em.tables.capabilities[id];
    r := Read(userRoles, additional, denied, roleLinks, capabilities);
  }

  method RulesOfLinks(r: Read, ghost t: Tables, ghost batch: set<Id>, source: Source, rows: seq<Link>,
                      ghost table: set<Link>, userId: Id) returns (rules: seq<RuleRow>)
    requires Complete(r, t, batch) && userId in batch
    requires Found(rows, table, batch) && (rows == r.additional || rows == r.denied)
    ensures rules == Rows(t, source, None, InOrder(Targets(table, userId)))
  {
    var ids := Sort(Less, TargetsIn(rows, userId));
    SortedTargets(table, batch, rows, userId);
    forall id | id in ids
      ensures RuleOf(r.capabilities, source, None, id) == RowOf(t, source, None, id)
    {
      assert id in Elements(ids) && id in Targets(table, userId);
      assert Link(userId, id) in Elements(rows);
    }
    rules := RulesOfCapabilities(r.capabilities, t, source, None, ids);
  }

  method RulesOfRole(r: Read, ghost t: Tables, ghost batch: set<Id>, capabilitiesOfRole: map<Id, seq<Id>>,
                     roleId: Id) returns (rules: seq<RuleRow>)
    requires Complete(r, t, batch) && roleId in set l | l in r.userRoles :: l.target
    requires CapabilitiesOf(capabilitiesOfRole, roleId) == TargetsIn(r.roleLinks, roleId)
    ensures rules == Rows(t, Role, Some(roleId), InOrder(Targets(t.roleCapabilities, roleId)))
  {
    var list := CapabilitiesOf(capabilitiesOfRole, roleId);
    var ids := Sort(Less, list);
    SortedTargets(t.roleCapabilities, set l | l in r.userRoles :: l.target, r.roleLinks, roleId);
    forall id | id in ids
      ensures RuleOf(r.capabilities, Role, Some(roleId), id) == RowOf(t, Role, Some(roleId), id)
    {
      assert id in Elements(ids) && id in Targets(t.roleCapabilities, roleId);
      assert Link(roleId, id) in Elements(r.roleLinks);
    }
    rules := RulesOfCapabilities(r.capabilities, t, Role, Some(roleId), ids);
  }

  method RulesOfRoles(r: Read, ghost t: Tables, ghost batch: set<Id>, capabilitiesOfRole: map<Id, seq<Id>>,
                      roles: seq<Id>) returns (rules: seq<RuleRow>)
    requires Complete(r, t, batch) && forall id :: id in roles ==> id in set l | l in r.userRoles :: l.target
    requires IsGrouping(capabilitiesOfRole, r.roleLinks)
    ensures rules == RoleRows(t, roles)
  {
    rules := [];
    for i := 0 to |roles|
      invariant rules == RoleRows(t, roles[..i])
    {
      assert roles[i] in roles;
      TakeOneMore(roles, i);
      var ofRole := RulesOfRole(r, t, batch, capabilitiesOfRole, roles[i]);
      rules := rules + ofRole;
    }
    assert roles[..|roles|] == roles;
  }

  method RulesOfUser(r: Read, ghost t: Tables, ghost batch: set<Id>, capabilitiesOfRole: map<Id, seq<Id>>,
                     userId: Id) returns (rules: seq<RuleRow>)
    requires Complete(r, t, batch) && userId in batch
    requires IsGrouping(capabilitiesOfRole, r.roleLinks)
    ensures rules == Expected(t, userId)
  {
    var roles := Sort(Less, TargetsIn(r.userRoles, userId));
    SortedTargets(t.userRoles, batch, r.userRoles, userId);
    forall id | id in roles ensures id in set l | l in r.userRoles :: l.target {
      assert id in Elements(roles) && Link(userId, id) in Elements(r.userRoles);
    }
    rules := RulesOfRoles(r, t, batch, capabilitiesOfRole, roles);
    var additional := RulesOfLinks(r, t, batch, Additional, r.additional, t.additional, userId);
    var denied := RulesOfLinks(r, t, batch, Denied, r.denied, t.denied, userId);
    rules := rules + additional + denied;
  }

  /** The rules of every user of a batch, whatever order the tables are read in. */
  method ExpectedRules(em: Database, batch: seq<Id>) returns (result: map<Id, seq<RuleRow>>)
    ensures result.Keys == Elements(batch)
    ensures forall userId :: userId in result ==> result[userId] == Expected(em.tables, userId)
  {
    var r := ReadBatch(em, Elements(batch));
    var capabilitiesOfRole := GroupByRole(r.roleLinks);
    result := map[];
    for i := 0 to |batch|
      invariant result.Keys == Elements(batch[..i])
      invariant forall userId :: userId in result ==> result[userId] == Expected(em.tables, userId)
    {
      TakeOneMore(batch, i);
      var rules := RulesOfUser(r, em.tables, Elements(batch), capabilitiesOfRole, batch[i]);
      result := result[batch[i] := rules];
    }
    assert batch[..|batch|] == batch;
  }

  // ---- rebuild ----

  /** The rows of a batch, numbered from 1 per user. */
  method NumberedRows(ghost t: Tables, batch: seq<Id>, expected: map<Id, seq<RuleRow>>) returns (rows: seq<Rule>)
    requires expected.Keys == Elements(batch)
    requires forall userId :: userId in expected ==> expected[userId] == Expected(t, userId)
    ensures Elements(rows) == NumberedAll(t, Elements(batch))
  {
    rows := [];
    for i := 0 to |batch|
      invariant Elements(rows) == NumberedAll(t, Elements(batch[..i]))
    {
      NumberedRowsStep(t, batch, i, rows);
      rows := rows + NumberedFrom(batch[i], 1, expected[batch[i]]);
    }
    assert batch[..|batch|] == batch;
  }

  lemma NumberedRowsStep(t: Tables, batch: seq<Id>, i: nat, rows: seq<Rule>)
    requires i < |batch| && Elements(rows) == NumberedAll(t, Elements(batch[..i]))
    ensures batch[i] in Elements(batch)
    ensures Elements(rows + NumberedFrom(batch[i], 1, Expected(t, batch[i])))
         == NumberedAll(t, Elements(batch[..i + 1]))
  {
    var mine := NumberedFrom(batch[i], 1, Expected(t, batch[i]));
    NumberedFromElements(batch[i], Expected(t, batch[i]));
    ElementsOfConcat(batch[..i], [batch[i]]);
    ElementsOfConcat(rows, mine);
    TakeOneMore(batch, i);
    assert Elements([batch[i]]) == {batch[i]};
  }

  lemma SomeElements<T>(s: seq<T>)
    ensures s != [] ==> Elements(s) != {}
  {
    if s != [] {
      assert s[0] in Elements(s);
    }
  }

  lemma ElementsOfConcat<T>(a: seq<T>, b: seq<T>)
    ensures Elements(a + b) == Elements(a) + Elements(b)
  {
  }

  lemma {:induction false} FirstBatches<T>(parts: seq<seq<T>>, i: nat)
    requires i <= |parts|
    ensures Concatenated(parts[..i]) <= Concatenated(parts)
    decreases |parts|
  {
    if i == |parts| {
      assert parts[..i] == parts;
    } else {
      var front := parts[..|parts| - 1];
      assert front[..i] == parts[..i];
      FirstBatches(front, i);
    }
  }

  lemma NextBatch<T>(parts: seq<seq<T>>, i: nat)
    requires i < |parts|
    ensures Concatenated(parts[..i + 1]) == Concatenated(parts[..i]) + parts[i]
    ensures Concatenated(parts[..i]) + parts[i] <= Concatenated(parts)
  {
    assert parts[..i + 1][..i] == parts[..i];
    FirstBatches(parts, i + 1);
  }

  lemma NextRound(t: Tables, rules: set<Rule>, batches: seq<seq<Id>>, i: nat)
    requires i < |batches|
    ensures Rebuilt(t, Rebuilt(t, rules, Elements(Concatenated(batches[..i]))), Elements(batches[i]))
         == Rebuilt(t, rules, Elements(Concatenated(batches[..i + 1])))
  {
    NextBatch(batches, i);
    ElementsOfConcat(Concatenated(batches[..i]), batches[i]);
    RebuildingInRounds(t, rules, Elements(Concatenated(batches[..i])), Elements(batches[i]));
  }

  /**
   Replaces the rules of `userIds`, and of nobody else. The result is a function of the set of users, so
   order, repetitions and batch boundaries do not matter.
   */
  method Rebuild(em: Database, userIds: seq<Id>) returns (outcome: Result<(), ProjectorError>)
    modifies em`rules
    ensures outcome.Err? <==> !em.inTransaction && userIds != []
    ensures em.rules == if outcome.Ok? then Rebuilt(em.tables, old(em.rules), Elements(userIds)) else old(em.rules)
  {
    var ids := SortedUnique(userIds);
    IdsAreOrdered(Elements(userIds));
    var batches := Chunks(ids);
    assert forall i :: 0 <= i < |ids| ==> ids[i] in Elements(ids);
    assert userIds != [] ==> userIds[0] in Elements(userIds);
    for i := 0 to |batches|
      invariant em.rules == Rebuilt(em.tables, old(em.rules), Elements(Concatenated(batches[..i])))
      invariant i > 0 ==> em.inTransaction
    {
      var batch := batches[i];
      NextRound(em.tables, old(em.rules), batches, i);
      NextBatch(batches, i);
      if !em.inTransaction {
        return Err(RequiresTransaction);
      }
      var expected := ExpectedRules(em, batch);
      em.DeleteRules(Elements(batch));
      var rows := NumberedRows(em.tables, batch, expected);
      em.InsertRules(rows);
    }
    assert batches[..|batches|] == batches;
    return Ok(());
  }

  // ---- findDrift ----

  /** Stable sort by `Number(a.inverted) - Number(b.inverted)`. */
  function SortByInverted(rows: seq<RuleRow>): seq<RuleRow> {
    if rows == [] then [] else InsertByInverted(rows[0], SortByInverted(rows[1..]))
  }

  function InsertByInverted(row: RuleRow, rows: seq<RuleRow>): seq<RuleRow> {
    if rows == [] || !(row.inverted && !rows[0].inverted) then [row] + rows
    else [rows[0]] + InsertByInverted(row, rows[1..])
  }

  lemma {:induction false} InsertAfterPlain(row: RuleRow, plain: seq<RuleRow>, inverted: seq<RuleRow>)
    requires forall r :: r in plain ==> !r.inverted
    requires forall r :: r in inverted ==> r.inverted
    ensures InsertByInverted(row, plain + inverted)
      == if row.inverted then plain + ([row] + inverted) else [row] + plain + inverted
  {
    if plain == [] {
      assert plain + inverted == inverted;
    } else {
      assert (plain + inverted)[1..] == plain[1..] + inverted;
      InsertAfterPlain(row, plain[1..], inverted);
      assert plain == [plain[0]] + plain[1..];
    }
  }

  lemma {:induction false} SortByInvertedIsPartition(rows: seq<RuleRow>)
    ensures SortByInverted(rows) == Partition(rows)
  {
    if rows != [] {
      var rest := rows[1..];
      SortByInvertedIsPartition(rest);
      FilterElements(IsPlain, rest);
      FilterElements(IsInverted, rest);
      InsertAfterPlain(rows[0], Filter(IsPlain, rest), Filter(IsInverted, rest));
    }
  }

  predicate SameRule(stored: Rule, rule: RuleRow) {
    && stored.row.source == rule.source
    && stored.row.roleId == rule.roleId
    && stored.row.capabilityId == rule.capabilityId
    && stored.row.subject == rule.subject
    && stored.row.action == rule.action
    && stored.row.conditions == rule.conditions
    && stored.row.fields == rule.fields
    && stored.row.inverted == rule.inverted
    && stored.row.reason == rule.reason
  }

  predicate SameSequence(actual: seq<Rule>, wanted: seq<RuleRow>) {
    |actual| == |wanted| && forall i :: 0 <= i < |actual| ==> SameRule(actual[i], wanted[i])
  }

  /** The stored rows of one user, out of those of a batch, are that user's rows as they are read. */
  lemma BatchRowsOfUser(rules: set<Rule>, batch: set<Id>, stored: seq<Rule>, userId: Id)
    requires KeysUnique(rules) && userId in batch
    requires Orders(ReadBefore, set x | x in rules && x.userId in batch)
    requires stored == Ascending(ReadBefore, set x | x in rules && x.userId in batch)
    ensures Map(RowIn, Filter(OfUser(userId), stored)) == StoredRows(rules, userId)
  {
    FilterOfAscending(ReadBefore, OfUser(userId), (set x | x in rules && x.userId in batch), RulesOf(rules, userId));
  }

  function OfUser(userId: Id): Rule -> bool {
    (x: Rule) => x.userId == userId
  }

  /** The stored rows of a batch, in reading order, from which each user's rows can be picked. */
  method StoredOfBatch(em: Database, batch: set<Id>) returns (stored: seq<Rule>)
    requires KeysUnique(em.rules)
    ensures forall userId :: userId in batch ==>
      Map(RowIn, Filter(OfUser(userId), stored)) == StoredRows(em.rules, userId)
  {
    stored := em.FindRules(batch);
    forall userId | userId in batch
      ensures Map(RowIn, Filter(OfUser(userId), stored)) == StoredRows(em.rules, userId)
    {
      BatchRowsOfUser(em.rules, batch, stored, userId);
    }
  }

  method UserDrifts(ghost rules: set<Rule>, ghost t: Tables, stored: seq<Rule>, expected: seq<RuleRow>, userId: Id)
    returns (drifts: bool)
    requires KeysUnique(rules) && expected == Expected(t, userId)
    requires Map(RowIn, Filter(OfUser(userId), stored)) == StoredRows(rules, userId)
    ensures drifts <==> Drifts(t, rules, userId)
  {
    var actual := Filter(OfUser(userId), stored);
    var wanted := SortByInverted(expected);
    SortByInvertedIsPartition(expected);
    drifts := !SameSequence(actual, wanted);
    assert !drifts ==> Map(RowIn, actual) == wanted;
  }

  /** Reports, in ascending order, exactly the users among `userIds` whose stored rows drift. */
  method FindDrift(em: Database, userIds: Option<seq<Id>>) returns (drifted: seq<Id>)
    requires KeysUnique(em.rules)
    ensures Ascends(Less, drifted)
    ensures Elements(drifted) == set userId |
      userId in (if userIds.Some? then Elements(userIds.value) else em.tables.users)
      && Drifts(em.tables, em.rules, userId)
  {
    var all: seq<Id>;
    if userIds.Some? {
      all := userIds.value;
    } else {
      all := ListOf(em.tables.users);
    }
    var ids := SortedUnique(all);
    var batches := Chunks(ids);
    drifted := [];
    for i := 0 to |batches|
      invariant DriftedAmong(em.tables, em.rules, Concatenated(batches[..i]), drifted)
    {
      NextBatch(batches, i);
      drifted := DriftOfBatch(em, batches[i], Concatenated(batches[..i]), drifted);
    }
    assert batches[..|batches|] == batches;
    DriftedOfAll(em.tables, em.rules, ids, drifted);
  }

  /** The users that drift in one batch, after those found before it. */
  method DriftOfBatch(em: Database, batch: seq<Id>, ghost before: seq<Id>, found: seq<Id>) returns (drifted: seq<Id>)
    requires KeysUnique(em.rules) && DriftedAmong(em.tables, em.rules, before, found)
    ensures DriftedAmong(em.tables, em.rules, before + batch, drifted)
  {
    var expected := ExpectedRules(em, batch);
    var stored := StoredOfBatch(em, Elements(batch));
    drifted := found;
    ghost var seen := before;
    for j := 0 to |batch|
      invariant seen == before + batch[..j]
      invariant DriftedAmong(em.tables, em.rules, seen, drifted)
    {
      var userId := batch[j];
      assert userId in Elements(batch);
      var drifts := UserDrifts(em.rules, em.tables, stored, expected[userId], userId);
      DriftedOneMore(em.tables, em.rules, seen, drifted, userId);
      drifted := if drifts then drifted + [userId] else drifted;
      AppendOneMore(before, batch, j);
      seen := seen + [userId];
    }
    assert batch[..|batch|] == batch;
  }

  /** `drifted` lists the drifting users of `seen`, in order. */
  ghost predicate DriftedAmong(t: Tables, rules: set<Rule>, seen: seq<Id>, drifted: seq<Id>)
    requires KeysUnique(rules)
  {
    drifted == Filter(Drifting(t, rules), seen)
  }

  ghost function Drifting(t: Tables, rules: set<Rule>): Id -> bool
    requires KeysUnique(rules)
  {
    (id: Id) => Drifts(t, rules, id)
  }

  lemma DriftedOneMore(t: Tables, rules: set<Rule>, seen: seq<Id>, drifted: seq<Id>, userId: Id)
    requires KeysUnique(rules) && DriftedAmong(t, rules, seen, drifted)
    ensures DriftedAmong(t, rules, seen + [userId],
                         if Drifts(t, rules, userId) then drifted + [userId] else drifted)
  {
    FilterOfLast(Drifting(t, rules), seen, userId);
  }

  lemma DriftedOfAll(t: Tables, rules: set<Rule>, ids: seq<Id>, drifted: seq<Id>)
    requires KeysUnique(rules) && DriftedAmong(t, rules, ids, drifted) && Ascends(Less, ids)
    ensures Ascends(Less, drifted)
    ensures Elements(drifted) == set userId | userId in Elements(ids) && Drifts(t, rules, userId)
  {
    FilterAscends(Less, Drifting(t, rules), ids);
    FilterElements(Drifting(t, rules), ids);
  }

  /** After a rebuild, looking for drift among the same users finds nobody. */
  method RebuildThenFindDrift(em: Database, userIds: seq<Id>) returns (drifted: seq<Id>)
    requires KeysUnique(em.rules) && em.inTransaction
    modifies em`rules
    ensures drifted == []
    ensures forall userId :: userId !in userIds ==> RulesOf(em.rules, userId) == RulesOf(old(em.rules), userId)
  {
    ghost var before := em.rules;
    var _ := Rebuild(em, userIds);
    drifted := FindDrift(em, Some(userIds));
    forall userId | userId in Elements(userIds) ensures !Drifts(em.tables, em.rules, userId) {
      RebuiltDoesNotDrift(em.tables, before, Elements(userIds), userId);
    }
    assert Elements(drifted) == set userId | userId in Elements(userIds) && Drifts(em.tables, em.rules, userId);
    SomeElements(drifted);
  }
}

/**
 The materialised permission rules: what the rows of a user should be, given the source tables, and
 what the projection keeps.
 */
module Permissions {
  import opened Wrappers
  import opened Sorting

  // It is kept under rebuilds, cascading deletes and the seed's SQL. The loops that compute it are in
  // `PermissionsProjector`.

  type Id = string

  datatype Source = Role | Additional | Denied

  datatype Capability = Capability(
    subject: string, action: string, conditions: Option<string>, fields: Option<string>,
    inverted: bool, reason: Option<string>
  )

  /** A materialised rule without its user and position. */
  datatype RuleRow = RuleRow(
    source: Source, roleId: Option<Id>, capabilityId: Id, subject: string, action: string,
    conditions: Option<string>, fields: Option<string>, inverted: bool, reason: Option<string>
  )

  /** A row of `user_permission_rules`. */
  datatype Rule = Rule(userId: Id, position: int, row: RuleRow)

  /** A row of a link table; as the pair is its primary key, a table is a set of them. */
  datatype Link = Link(owner: Id, target: Id)

  datatype Tables = Tables(
    users: set<Id>,
    userRoles: set<Link>,
    roleCapabilities: set<Link>,
    additional: set<Link>,
    denied: set<Link>,
    capabilities: map<Id, Capability>
  )

  // ---- Order of ids ----

  /** `byId`, and the database's order of ids: by code unit, shorter first. */
  predicate Less(a: Id, b: Id) {
    LexLess(LessChar, a, b)
  }

  lemma LessIsTotal(a: Id, b: Id)
    ensures !Less(a, a)
    ensures a == b || Less(a, b) || Less(b, a)
  {
    LexIsTotal(LessChar, a, b);
  }

  lemma LessIsTransitive(a: Id, b: Id, c: Id)
    requires Less(a, b) && Less(b, c)
    ensures Less(a, c)
  {
    LexIsTransitive(LessChar, a, b, c);
  }

  lemma IdsAreOrdered(ids: set<Id>)
    ensures Orders(Less, ids)
  {
    forall a, b ensures !Less(a, a) && (a == b || Less(a, b) || Less(b, a)) {
      LessIsTotal(a, b);
    }
    forall a, b, c | Less(a, b) && Less(b, c) ensures Less(a, c) {
      LessIsTransitive(a, b, c);
    }
  }

  ghost function InOrder(ids: set<Id>): (r: seq<Id>)
    ensures Ascends(Less, r) && Elements(r) == ids
  {
    IdsAreOrdered(ids);
    Ascending(Less, ids)
  }

  // ---- The rows a user should have ----

  function Targets(links: set<Link>, owner: Id): set<Id> {
    set l | l in links && l.owner == owner :: l.target
  }

  /** The row of one capability; a capability that is not there gives none. */
  function RowOf(t: Tables, source: Source, roleId: Option<Id>, capabilityId: Id): seq<RuleRow> {
    if capabilityId !in t.capabilities then []
    else
      var c := t.capabilities[capabilityId];
      [RuleRow(source, roleId, capabilityId, c.subject, c.action, c.conditions, c.fields,
               if source == Denied then true else c.inverted, c.reason)]
  }

  function Rows(t: Tables, source: Source, roleId: Option<Id>, capabilityIds: seq<Id>): seq<RuleRow> {
    if capabilityIds == [] then []
    else
      Rows(t, source, roleId, capabilityIds[..|capabilityIds| - 1])
      + RowOf(t, source, roleId, capabilityIds[|capabilityIds| - 1])
  }

  ghost function RoleRows(t: Tables, roleIds: seq<Id>): seq<RuleRow> {
    if roleIds == [] then []
    else
      var roleId := roleIds[|roleIds| - 1];
      RoleRows(t, roleIds[..|roleIds| - 1])
      + Rows(t, Role, Some(roleId), InOrder(Targets(t.roleCapabilities, roleId)))
  }

  /** Role rules by role and capability, then additional rules, then denied rules. */
  ghost function Expected(t: Tables, userId: Id): seq<RuleRow> {
    RoleRows(t, InOrder(Targets(t.userRoles, userId)))
    + Rows(t, Additional, None, InOrder(Targets(t.additional, userId)))
    + Rows(t, Denied, None, InOrder(Targets(t.denied, userId)))
  }

  // ---- The rows a user has ----

  /** The primary key of `user_permission_rules`. */
  ghost predicate KeysUnique(rules: set<Rule>) {
    forall x, y :: x in rules && y in rules && x.userId == y.userId && x.position == y.position ==> x == y
  }

  function RulesOf(rules: set<Rule>, userId: Id): set<Rule> {
    set x | x in rules && x.userId == userId
  }

  /** `order by user_id, inverted, position`. */
  predicate ReadBefore(a: Rule, b: Rule) {
    if a.userId != b.userId then Less(a.userId, b.userId)
    else if a.row.inverted != b.row.inverted then b.row.inverted
    else a.position < b.position
  }

  lemma RulesAreOrdered(rules: set<Rule>)
    requires KeysUnique(rules)
    ensures Orders(ReadBefore, rules)
  {
    forall x, y, z | x in rules && y in rules && z in rules && ReadBefore(x, y) && ReadBefore(y, z)
      ensures ReadBefore(x, z)
    {
      LessIsTotal(x.userId, y.userId);
      if Less(x.userId, y.userId) && Less(y.userId, z.userId) {
        LessIsTransitive(x.userId, y.userId, z.userId);
        LessIsTotal(x.userId, z.userId);
      }
    }
    forall x, y | x in rules && y in rules
      ensures !ReadBefore(x, x) && (x == y || ReadBefore(x, y) || ReadBefore(y, x))
    {
      LessIsTotal(x.userId, y.userId);
    }
  }

  ghost function StoredRows(rules: set<Rule>, userId: Id): seq<RuleRow>
    requires KeysUnique(rules)
  {
    RulesAreOrdered(RulesOf(rules, userId));
    Map(RowIn, Ascending(ReadBefore, RulesOf(rules, userId)))
  }

  function RowIn(rule: Rule): RuleRow {
    rule.row
  }

  predicate IsPlain(row: RuleRow) {
    !row.inverted
  }

  predicate IsInverted(row: RuleRow) {
    row.inverted
  }

  predicate HoldsPlain(rule: Rule) {
    IsPlain(rule.row)
  }

  predicate HoldsInverted(rule: Rule) {
    IsInverted(rule.row)
  }

  /** Plain rules first, then inverted ones, each in their own order. */
  function Partition(rows: seq<RuleRow>): seq<RuleRow> {
    Filter(IsPlain, rows) + Filter(IsInverted, rows)
  }

  /** The user's stored rows, as they are read, differ from what the tables say. */
  ghost predicate Drifts(t: Tables, rules: set<Rule>, userId: Id)
    requires KeysUnique(rules)
  {
    StoredRows(rules, userId) != Partition(Expected(t, userId))
  }

  // ---- Rebuilding ----

  /** `rows` of one user, numbered from 1. */
  ghost function Numbered(userId: Id, rows: seq<RuleRow>): set<Rule> {
    set i | 0 <= i < |rows| :: Rule(userId, i + 1, rows[i])
  }

  /** The rules after the users in `ids` have been rebuilt: a function of that set alone. */
  ghost function Rebuilt(t: Tables, rules: set<Rule>, ids: set<Id>): set<Rule> {
    (set x | x in rules && x.userId !in ids) + NumberedAll(t, ids)
  }

  ghost function NumberedAll(t: Tables, ids: set<Id>): set<Rule> {
    set userId, x | userId in ids && x in Numbered(userId, Expected(t, userId)) :: x
  }

  /** The numbered rows as a sequence. */
  function NumberedFrom(userId: Id, first: int, rows: seq<RuleRow>): (r: seq<Rule>)
    ensures |r| == |rows| && forall i :: 0 <= i < |rows| ==> r[i] == Rule(userId, first + i, rows[i])
    decreases |rows|
  {
    if rows == [] then [] else [Rule(userId, first, rows[0])] + NumberedFrom(userId, first + 1, rows[1..])
  }

  ghost predicate InPositionOrder(s: seq<Rule>) {
    forall i, j :: 0 <= i < j < |s| ==> s[i].userId == s[j].userId && s[i].position < s[j].position
  }

  lemma {:induction false} FilterKeepsPositions(p: Rule -> bool, s: seq<Rule>)
    requires InPositionOrder(s)
    ensures InPositionOrder(Filter(p, s))
  {
    if s != [] {
      FilterKeepsPositions(p, s[1..]);
      FilterElements(p, s[1..]);
      var r := Filter(p, s[1..]);
      assert forall x :: x in s[1..] ==> s[0].userId == x.userId && s[0].position < x.position;
      assert forall i :: 0 <= i < |r| ==> r[i] in r;
    }
  }

  /** Reading numbered rows back by (inverted, position) is the stable partition. */
  lemma ReadBackIsPartition(userId: Id, rows: seq<RuleRow>, rules: set<Rule>)
    requires KeysUnique(rules) && RulesOf(rules, userId) == Numbered(userId, rows)
    ensures StoredRows(rules, userId) == Partition(rows)
  {
    var s := NumberedFrom(userId, 1, rows);
    var (a, b) := (Filter(HoldsPlain, s), Filter(HoldsInverted, s));
    assert Map(RowIn, s) == rows;
    FilterOfMap(IsPlain, RowIn, HoldsPlain, s);
    FilterOfMap(IsInverted, RowIn, HoldsInverted, s);
    MapOfConcat(RowIn, a, b);
    PartitionIsReadOrder(userId, rows);
    RulesAreOrdered(RulesOf(rules, userId));
    AscendingIsUnique(ReadBefore, a + b, Ascending(ReadBefore, RulesOf(rules, userId)));
  }

  lemma PartitionIsReadOrder(userId: Id, rows: seq<RuleRow>)
    ensures
      var s := NumberedFrom(userId, 1, rows);
      var r := Filter(HoldsPlain, s) + Filter(HoldsInverted, s);
      Ascends(ReadBefore, r) && Elements(r) == Numbered(userId, rows)
  {
    var s := NumberedFrom(userId, 1, rows);
    var (a, b) := (Filter(HoldsPlain, s), Filter(HoldsInverted, s));
    FilterElements(HoldsPlain, s);
    FilterElements(HoldsInverted, s);
    OneKindAscends(HoldsPlain, s);
    OneKindAscends(HoldsInverted, s);
    forall x, y | x in a && y in b ensures ReadBefore(x, y) {
      assert x in s && y in s;
    }
    ConcatAscends(ReadBefore, a, b);
    NumberedFromElements(userId, rows);
    forall x ensures x in a + b <==> x in Numbered(userId, rows) {
      assert x in s <==> x in Elements(s);
    }
  }

  /** Rules of one user and one kind are read in the order of their positions. */
  lemma OneKindAscends(p: Rule -> bool, s: seq<Rule>)
    requires InPositionOrder(s)
    requires (forall x :: p(x) ==> !x.row.inverted) || (forall x :: p(x) ==> x.row.inverted)
    ensures Ascends(ReadBefore, Filter(p, s))
  {
    var r := Filter(p, s);
    FilterKeepsPositions(p, s);
    FilterElements(p, s);
    forall i, j | 0 <= i < j < |r| ensures ReadBefore(r[i], r[j]) {
      assert r[i] in r && r[j] in r;
    }
  }

  lemma NumberedFromElements(userId: Id, rows: seq<RuleRow>)
    ensures Elements(NumberedFrom(userId, 1, rows)) == Numbered(userId, rows)
  {
    var s := NumberedFrom(userId, 1, rows);
    forall x | x in Numbered(userId, rows) ensures x in s {
      assert x == s[x.position - 1];
    }
  }

  /** A rebuilt user does not drift. */
  lemma RebuiltDoesNotDrift(t: Tables, rules: set<Rule>, ids: set<Id>, userId: Id)
    requires KeysUnique(rules) && userId in ids
    ensures KeysUnique(Rebuilt(t, rules, ids))
    ensures !Drifts(t, Rebuilt(t, rules, ids), userId)
  {
    ReadBackIsPartition(userId, Expected(t, userId), Rebuilt(t, rules, ids));
  }

  /** Rebuilding in two rounds is rebuilding everyone at once, so it does not matter where batches split. */
  lemma RebuildingInRounds(t: Tables, rules: set<Rule>, first: set<Id>, second: set<Id>)
    ensures Rebuilt(t, Rebuilt(t, rules, first), second) == Rebuilt(t, rules, first + second)
  {
    var (inRounds, atOnce) := (Rebuilt(t, Rebuilt(t, rules, first), second), Rebuilt(t, rules, first + second));
    forall x: Rule
      ensures x in inRounds <==> x in atOnce
    {
      assert x in inRounds <==> x in RulesOf(inRounds, x.userId);
      assert x in atOnce <==> x in RulesOf(atOnce, x.userId);
      assert x in Rebuilt(t, rules, first) <==> x in RulesOf(Rebuilt(t, rules, first), x.userId);
    }
  }

  // ---- Cascading deletes ----

  datatype Deletion = RoleDeleted(id: Id) | CapabilityDeleted(id: Id) | UserDeleted(id: Id)

  function WithoutOwner(links: set<Link>, id: Id): set<Link> {
    set l | l in links && l.owner != id
  }

  function WithoutTarget(links: set<Link>, id: Id): set<Link> {
    set l | l in links && l.target != id
  }

  /** What the foreign keys of the source tables delete along. */
  function Cascade(t: Tables, deletion: Deletion): Tables {
    match deletion
    case RoleDeleted(id) =>
      t.(userRoles := WithoutTarget(t.userRoles, id), roleCapabilities := WithoutOwner(t.roleCapabilities, id))
    case CapabilityDeleted(id) =>
      t.(roleCapabilities := WithoutTarget(t.roleCapabilities, id),
         additional := WithoutTarget(t.additional, id),
         denied := WithoutTarget(t.denied, id),
         capabilities := t.capabilities - {id})
    case UserDeleted(id) =>
      t.(users := t.users - {id},
         userRoles := WithoutOwner(t.userRoles, id),
         additional := WithoutOwner(t.additional, id),
         denied := WithoutOwner(t.denied, id))
  }

  predicate Survives(deletion: Deletion, rule: Rule) {
    match deletion
    case RoleDeleted(id) => rule.row.roleId != Some(id)
    case CapabilityDeleted(id) => rule.row.capabilityId != id
    case UserDeleted(id) => rule.userId != id
  }

  /** What the foreign keys of `user_permission_rules` delete along. */
  function CascadeRules(rules: set<Rule>, deletion: Deletion): set<Rule> {
    set x | x in rules && Survives(deletion, x)
  }

  lemma {:induction false} FilterAll<T>(p: T -> bool, s: seq<T>)
    requires forall x :: x in s ==> p(x)
    ensures Filter(p, s) == s
  {
    if s != [] {
      FilterAll(p, s[1..]);
    }
  }

  lemma {:induction false} FilterNone<T>(p: T -> bool, s: seq<T>)
    requires forall x :: x in s ==> !p(x)
    ensures Filter(p, s) == []
  {
    if s != [] {
      FilterNone(p, s[1..]);
    }
  }

  function OtherThan(id: Id): Id -> bool {
    (x: Id) => x != id
  }

  function NotOfRole(id: Id): RuleRow -> bool {
    (row: RuleRow) => row.roleId != Some(id)
  }

  function NotOfCapability(id: Id): RuleRow -> bool {
    (row: RuleRow) => row.capabilityId != id
  }

  lemma OrderWithout(ids: set<Id>, id: Id)
    ensures InOrder(ids - {id}) == Filter(OtherThan(id), InOrder(ids))
  {
    IdsAreOrdered(ids);
    FilterOfAscending(Less, OtherThan(id), ids, ids - {id});
  }

  lemma {:induction false} RowsShape(t: Tables, source: Source, roleId: Option<Id>, ids: seq<Id>)
    ensures forall row :: row in Rows(t, source, roleId, ids) ==>
      row.source == source && row.roleId == roleId && row.capabilityId in ids
  {
    if ids != [] {
      RowsShape(t, source, roleId, ids[..|ids| - 1]);
    }
  }

  /** Filtering the rules of a user filters what is read. */
  lemma StoredRowsFilter(rules: set<Rule>, rules': set<Rule>, userId: Id, keep: RuleRow -> bool)
    requires KeysUnique(rules) && KeysUnique(rules')
    requires forall x :: x in RulesOf(rules', userId) <==> x in RulesOf(rules, userId) && keep(x.row)
    ensures StoredRows(rules', userId) == Filter(keep, StoredRows(rules, userId))
  {
    var mine := RulesOf(rules, userId);
    var q := (x: Rule) => keep(x.row);
    RulesAreOrdered(mine);
    FilterOfAscending(ReadBefore, q, mine, RulesOf(rules', userId));
    FilterOfMap(keep, RowIn, q, Ascending(ReadBefore, mine));
  }

  lemma PartitionFilter(keep: RuleRow -> bool, rows: seq<RuleRow>)
    ensures Partition(Filter(keep, rows)) == Filter(keep, Partition(rows))
  {
    FilterOfConcat(keep, Filter(IsPlain, rows), Filter(IsInverted, rows));
    FiltersCommute(keep, IsPlain, rows);
    FiltersCommute(keep, IsInverted, rows);
  }

  /** Stored rows stay right when the rules and the expected rows lose the same ones. */
  lemma FilteringKeepsExact(t: Tables, t': Tables, rules: set<Rule>, rules': set<Rule>, userId: Id,
                            keep: RuleRow -> bool)
    requires KeysUnique(rules) && KeysUnique(rules') && !Drifts(t, rules, userId)
    requires Expected(t', userId) == Filter(keep, Expected(t, userId))
    requires forall x :: x in RulesOf(rules', userId) <==> x in RulesOf(rules, userId) && keep(x.row)
    ensures !Drifts(t', rules', userId)
  {
    StoredRowsFilter(rules, rules', userId, keep);
    PartitionFilter(keep, Expected(t, userId));
  }

  /** The rows of one role, after that role or another one is deleted. */
  lemma RoleRowsOfOne(t: Tables, id: Id, roleId: Id)
    ensures
      var t' := Cascade(t, RoleDeleted(id));
      Filter(NotOfRole(id), Rows(t, Role, Some(roleId), InOrder(Targets(t.roleCapabilities, roleId))))
        == if roleId == id then [] else Rows(t', Role, Some(roleId), InOrder(Targets(t'.roleCapabilities, roleId)))
  {
    var t' := Cascade(t, RoleDeleted(id));
    var ids := InOrder(Targets(t.roleCapabilities, roleId));
    RowsShape(t, Role, Some(roleId), ids);
    if roleId == id {
      FilterNone(NotOfRole(id), Rows(t, Role, Some(roleId), ids));
    } else {
      FilterAll(NotOfRole(id), Rows(t, Role, Some(roleId), ids));
      assert Targets(t'.roleCapabilities, roleId) == Targets(t.roleCapabilities, roleId);
      SameCapabilitiesSameRows(t, t', Role, Some(roleId), ids);
    }
  }

  /** Deleting a role takes its rows away, and only them. */
  ghost predicate LosesRole(t: Tables, id: Id, roleIds: seq<Id>) {
    RoleRows(Cascade(t, RoleDeleted(id)), Filter(OtherThan(id), roleIds)) == Filter(NotOfRole(id), RoleRows(t, roleIds))
  }

  lemma {:induction false} RoleRowsWithoutRole(t: Tables, id: Id, roleIds: seq<Id>)
    ensures LosesRole(t, id, roleIds)
  {
    if roleIds == [] {
      assert Filter(OtherThan(id), roleIds) == [];
    } else {
      var (front, last) := (roleIds[..|roleIds| - 1], roleIds[|roleIds| - 1]);
      assert front + [last] == roleIds;
      RoleRowsWithoutRole(t, id, front);
      RoleRowsWithoutOneMore(t, id, front, last);
    }
  }

  lemma RoleRowsWithoutOneMore(t: Tables, id: Id, front: seq<Id>, last: Id)
    requires LosesRole(t, id, front)
    ensures LosesRole(t, id, front + [last])
  {
    RoleRowsOfOne(t, id, last);
    FilterOfLast(OtherThan(id), front, last);
    FilterOfConcat(NotOfRole(id), RoleRows(t, front),
                   Rows(t, Role, Some(last), InOrder(Targets(t.roleCapabilities, last))));
  }

  lemma ExpectedWithoutRole(t: Tables, id: Id, userId: Id)
    ensures Expected(Cascade(t, RoleDeleted(id)), userId) == Filter(NotOfRole(id), Expected(t, userId))
  {
    var (additional, denied) := (InOrder(Targets(t.additional, userId)), InOrder(Targets(t.denied, userId)));
    RoleRowsOfUserWithoutRole(t, id, userId);
    DirectRowsWithoutRole(t, id, Additional, additional);
    DirectRowsWithoutRole(t, id, Denied, denied);
    FilterOfThree(NotOfRole(id), RoleRows(t, InOrder(Targets(t.userRoles, userId))),
                  Rows(t, Additional, None, additional), Rows(t, Denied, None, denied));
  }

  lemma RoleRowsOfUserWithoutRole(t: Tables, id: Id, userId: Id)
    ensures RoleRows(Cascade(t, RoleDeleted(id)), InOrder(Targets(Cascade(t, RoleDeleted(id)).userRoles, userId)))
         == Filter(NotOfRole(id), RoleRows(t, InOrder(Targets(t.userRoles, userId))))
  {
    var roles := Targets(t.userRoles, userId);
    assert Targets(Cascade(t, RoleDeleted(id)).userRoles, userId) == roles - {id};
    OrderWithout(roles, id);
    RoleRowsWithoutRole(t, id, InOrder(roles));
    assert LosesRole(t, id, InOrder(roles));
  }

  /** Rows that come from no role are not touched. */
  lemma DirectRowsWithoutRole(t: Tables, id: Id, source: Source, ids: seq<Id>)
    ensures Rows(Cascade(t, RoleDeleted(id)), source, None, ids) == Filter(NotOfRole(id), Rows(t, source, None, ids))
  {
    RowsShape(t, source, None, ids);
    FilterAll(NotOfRole(id), Rows(t, source, None, ids));
    SameCapabilitiesSameRows(t, Cascade(t, RoleDeleted(id)), source, None, ids);
  }

  lemma FilterOfThree<T>(p: T -> bool, a: seq<T>, b: seq<T>, c: seq<T>)
    ensures Filter(p, a + b + c) == Filter(p, a) + Filter(p, b) + Filter(p, c)
  {
    FilterOfConcat(p, a + b, c);
    FilterOfConcat(p, a, b);
  }

  lemma {:induction false} RowsWithoutCapability(t: Tables, id: Id, source: Source, roleId: Option<Id>, ids: seq<Id>)
    ensures
      Rows(Cascade(t, CapabilityDeleted(id)), source, roleId, Filter(OtherThan(id), ids))
        == Filter(NotOfCapability(id), Rows(t, source, roleId, ids))
  {
    if ids != [] {
      var (front, last) := (ids[..|ids| - 1], ids[|ids| - 1]);
      var kept := Filter(OtherThan(id), front);
      var t' := Cascade(t, CapabilityDeleted(id));
      assert ids == front + [last];
      FilterOfLast(OtherThan(id), front, last);
      calc {
        Filter(NotOfCapability(id), Rows(t, source, roleId, ids));
        Filter(NotOfCapability(id), Rows(t, source, roleId, front) + RowOf(t, source, roleId, last));
        { FilterOfConcat(NotOfCapability(id), Rows(t, source, roleId, front), RowOf(t, source, roleId, last)); }
        Filter(NotOfCapability(id), Rows(t, source, roleId, front))
          + Filter(NotOfCapability(id), RowOf(t, source, roleId, last));
        { RowsWithoutCapability(t, id, source, roleId, front); }
        Rows(t', source, roleId, kept) + Filter(NotOfCapability(id), RowOf(t, source, roleId, last));
        { RowWithoutCapability(t, id, source, roleId, last); }
        Rows(t', source, roleId, Filter(OtherThan(id), ids));
      }
    }
  }

  lemma RowWithoutCapability(t: Tables, id: Id, source: Source, roleId: Option<Id>, capabilityId: Id)
    ensures
      var row := RowOf(t, source, roleId, capabilityId);
      Filter(NotOfCapability(id), row)
        == if capabilityId == id then [] else RowOf(Cascade(t, CapabilityDeleted(id)), source, roleId, capabilityId)
  {
    if capabilityId in t.capabilities && capabilityId != id {
      FilterAll(NotOfCapability(id), RowOf(t, source, roleId, capabilityId));
    } else {
      FilterNone(NotOfCapability(id), RowOf(t, source, roleId, capabilityId));
    }
  }

  lemma OrderedRowsWithoutCapability(t: Tables, id: Id, source: Source, roleId: Option<Id>, ids: set<Id>)
    ensures
      Rows(Cascade(t, CapabilityDeleted(id)), source, roleId, InOrder(ids - {id}))
        == Filter(NotOfCapability(id), Rows(t, source, roleId, InOrder(ids)))
  {
    OrderWithout(ids, id);
    RowsWithoutCapability(t, id, source, roleId, InOrder(ids));
  }

  lemma {:induction false} RoleRowsWithoutCapability(t: Tables, id: Id, roleIds: seq<Id>)
    ensures
      RoleRows(Cascade(t, CapabilityDeleted(id)), roleIds) == Filter(NotOfCapability(id), RoleRows(t, roleIds))
  {
    if roleIds != [] {
      var (front, last) := (roleIds[..|roleIds| - 1], roleIds[|roleIds| - 1]);
      var t' := Cascade(t, CapabilityDeleted(id));
      RoleRowsWithoutCapability(t, id, front);
      assert Targets(t'.roleCapabilities, last) == Targets(t.roleCapabilities, last) - {id};
      OrderedRowsWithoutCapability(t, id, Role, Some(last), Targets(t.roleCapabilities, last));
      FilterOfConcat(NotOfCapability(id), RoleRows(t, front),
                     Rows(t, Role, Some(last), InOrder(Targets(t.roleCapabilities, last))));
    }
  }

  lemma ExpectedWithoutCapability(t: Tables, id: Id, userId: Id)
    ensures Expected(Cascade(t, CapabilityDeleted(id)), userId) == Filter(NotOfCapability(id), Expected(t, userId))
  {
    var t' := Cascade(t, CapabilityDeleted(id));
    var (additional, denied) := (Targets(t.additional, userId), Targets(t.denied, userId));
    assert Targets(t'.additional, userId) == additional - {id} && Targets(t'.denied, userId) == denied - {id};
    OrderedRowsWithoutCapability(t, id, Additional, None, additional);
    OrderedRowsWithoutCapability(t, id, Denied, None, denied);
    RoleRowsWithoutCapability(t, id, InOrder(Targets(t.userRoles, userId)));
    FilterOfThree(NotOfCapability(id), RoleRows(t, InOrder(Targets(t.userRoles, userId))),
                  Rows(t, Additional, None, InOrder(additional)), Rows(t, Denied, None, InOrder(denied)));
  }

  lemma {:induction false} RoleRowsDependOn(t: Tables, t': Tables, roleIds: seq<Id>)
    requires t'.capabilities == t.capabilities && t'.roleCapabilities == t.roleCapabilities
    ensures RoleRows(t', roleIds) == RoleRows(t, roleIds)
  {
    if roleIds != [] {
      var last := roleIds[|roleIds| - 1];
      RoleRowsDependOn(t, t', roleIds[..|roleIds| - 1]);
      SameCapabilitiesSameRows(t, t', Role, Some(last), InOrder(Targets(t.roleCapabilities, last)));
    }
  }

  /** A deleted user expects nothing, and the others what they expected before. */
  lemma ExpectedWithoutUser(t: Tables, id: Id, userId: Id)
    ensures Expected(Cascade(t, UserDeleted(id)), userId) == if userId == id then [] else Expected(t, userId)
  {
    var t' := Cascade(t, UserDeleted(id));
    if userId == id {
      assert Targets(t'.userRoles, id) == Targets(t'.additional, id) == Targets(t'.denied, id) == {};
      assert forall i :: 0 <= i < |InOrder({})| ==> InOrder({})[i] in Elements(InOrder({}));
    } else {
      assert Targets(t'.userRoles, userId) == Targets(t.userRoles, userId);
      assert Targets(t'.additional, userId) == Targets(t.additional, userId);
      assert Targets(t'.denied, userId) == Targets(t.denied, userId);
      RoleRowsDependOn(t, t', InOrder(Targets(t.userRoles, userId)));
      SameCapabilitiesSameRows(t, t', Additional, None, InOrder(Targets(t.additional, userId)));
      SameCapabilitiesSameRows(t, t', Denied, None, InOrder(Targets(t.denied, userId)));
    }
  }

  /**
   Cascades keep the projection exact: deleting any role, capability or user, with everything the
   foreign keys delete along, leaves no user drifted that did not drift before, gaps in the positions
   notwithstanding.
   */
  lemma CascadesKeepTheProjection(t: Tables, rules: set<Rule>, deletion: Deletion, userId: Id)
    requires KeysUnique(rules) && !Drifts(t, rules, userId)
    ensures KeysUnique(CascadeRules(rules, deletion))
    ensures !Drifts(Cascade(t, deletion), CascadeRules(rules, deletion), userId)
  {
    var (t', rules') := (Cascade(t, deletion), CascadeRules(rules, deletion));
    match deletion
    case RoleDeleted(id) =>
      ExpectedWithoutRole(t, id, userId);
      FilteringKeepsExact(t, t', rules, rules', userId, NotOfRole(id));
    case CapabilityDeleted(id) =>
      ExpectedWithoutCapability(t, id, userId);
      FilteringKeepsExact(t, t', rules, rules', userId, NotOfCapability(id));
    case UserDeleted(id) =>
      ExpectedWithoutUser(t, id, userId);
      if userId == id {
        assert RulesOf(rules', id) == Numbered(id, []) == {};
        ReadBackIsPartition(id, [], rules');
      } else {
        assert RulesOf(rules', userId) == RulesOf(rules, userId);
      }
  }

  lemma {:induction false} SameCapabilitiesSameRows(t: Tables, t': Tables, source: Source, roleId: Option<Id>, ids: seq<Id>)
    requires t'.capabilities == t.capabilities
    ensures Rows(t', source, roleId, ids) == Rows(t, source, roleId, ids)
  {
    if ids != [] {
      SameCapabilitiesSameRows(t, t', source, roleId, ids[..|ids| - 1]);
    }
  }
}

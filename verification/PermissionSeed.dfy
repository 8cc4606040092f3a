/**
 The seed migration's rule-materialising `select`, read as SQL: a join per source, and a `row_number`
 that ranks each user's rows. It is proved to give what a rebuild of every user gives.
 */
module PermissionSeed {
  import opened Wrappers
  import opened Sorting
  import opened Permissions

  /** A row of the subquery: its sort columns, and the columns it inserts. */
  datatype Joined = Joined(grp: nat, roleKey: Id, capabilityId: Id, row: RuleRow)

  /** `order by grp, role_key, capability_id`. */
  predicate SqlBefore(a: Joined, b: Joined) {
    if a.grp != b.grp then a.grp < b.grp
    else if a.roleKey != b.roleKey then Less(a.roleKey, b.roleKey)
    else Less(a.capabilityId, b.capabilityId)
  }

  function Selected(source: Source, roleId: Option<Id>, id: Id, c: Capability, inverted: bool): RuleRow {
    RuleRow(source, roleId, id, c.subject, c.action, c.conditions, c.fields, inverted, c.reason)
  }

  /** The rows of one user in the three-part union. */
  function Subquery(t: Tables, userId: Id): set<Joined> {
    (set ur, rc | ur in t.userRoles && rc in t.roleCapabilities
                  && ur.owner == userId && rc.owner == ur.target && rc.target in t.capabilities ::
       Joined(0, ur.target, rc.target,
              Selected(Role, Some(ur.target), rc.target, t.capabilities[rc.target], t.capabilities[rc.target].inverted)))
    + (set uac | uac in t.additional && uac.owner == userId && uac.target in t.capabilities ::
       Joined(1, "", uac.target,
              Selected(Additional, None, uac.target, t.capabilities[uac.target], t.capabilities[uac.target].inverted)))
    + (set udc | udc in t.denied && udc.owner == userId && udc.target in t.capabilities ::
       Joined(2, "", udc.target, Selected(Denied, None, udc.target, t.capabilities[udc.target], true)))
  }

  /** `row_number() over (partition by user_id order by ...)`. */
  function RowNumber(t: Tables, userId: Id, j: Joined): int {
    1 + |set other | other in Subquery(t, userId) && SqlBefore(other, j)|
  }

  function LinkedUsers(t: Tables): set<Id> {
    set l | l in t.userRoles + t.additional + t.denied :: l.owner
  }

  function SeedRules(t: Tables): set<Rule> {
    set userId, j | userId in LinkedUsers(t) && j in Subquery(t, userId) ::
      Rule(userId, RowNumber(t, userId, j), j.row)
  }

  // ---- The projector's sequence, with its sort columns ----

  function JoinedRow(t: Tables, grp: nat, roleKey: Id, source: Source, roleId: Option<Id>, id: Id): seq<Joined> {
    if id !in t.capabilities then []
    else [Joined(grp, roleKey, id,
                 Selected(source, roleId, id, t.capabilities[id],
                          if source == Denied then true else t.capabilities[id].inverted))]
  }

  function JoinedRows(t: Tables, grp: nat, roleKey: Id, source: Source, roleId: Option<Id>, ids: seq<Id>): seq<Joined> {
    if ids == [] then []
    else
      JoinedRows(t, grp, roleKey, source, roleId, ids[..|ids| - 1])
      + JoinedRow(t, grp, roleKey, source, roleId, ids[|ids| - 1])
  }

  ghost function JoinedRoleRows(t: Tables, roleIds: seq<Id>): seq<Joined> {
    if roleIds == [] then []
    else
      var roleId := roleIds[|roleIds| - 1];
      JoinedRoleRows(t, roleIds[..|roleIds| - 1])
      + JoinedRows(t, 0, roleId, Role, Some(roleId), InOrder(Targets(t.roleCapabilities, roleId)))
  }

  ghost function JoinedSequence(t: Tables, userId: Id): seq<Joined> {
    JoinedRoleRows(t, InOrder(Targets(t.userRoles, userId)))
    + JoinedRows(t, 1, "", Additional, None, InOrder(Targets(t.additional, userId)))
    + JoinedRows(t, 2, "", Denied, None, InOrder(Targets(t.denied, userId)))
  }

  function JoinedIn(j: Joined): RuleRow {
    j.row
  }

  lemma {:induction false} JoinedRowsAreRows(
      t: Tables, grp: nat, roleKey: Id, source: Source, roleId: Option<Id>, ids: seq<Id>)
    ensures Map(JoinedIn, JoinedRows(t, grp, roleKey, source, roleId, ids)) == Rows(t, source, roleId, ids)
  {
    if ids != [] {
      var (front, last) := (ids[..|ids| - 1], ids[|ids| - 1]);
      JoinedRowsAreRows(t, grp, roleKey, source, roleId, front);
      MapOfConcat(JoinedIn, JoinedRows(t, grp, roleKey, source, roleId, front),
                  JoinedRow(t, grp, roleKey, source, roleId, last));
      assert Map(JoinedIn, JoinedRow(t, grp, roleKey, source, roleId, last)) == RowOf(t, source, roleId, last);
    }
  }

  lemma {:induction false} JoinedRoleRowsAreRows(t: Tables, roleIds: seq<Id>)
    ensures Map(JoinedIn, JoinedRoleRows(t, roleIds)) == RoleRows(t, roleIds)
  {
    if roleIds != [] {
      var (front, last) := (roleIds[..|roleIds| - 1], roleIds[|roleIds| - 1]);
      var ids := InOrder(Targets(t.roleCapabilities, last));
      JoinedRoleRowsAreRows(t, front);
      JoinedRowsAreRows(t, 0, last, Role, Some(last), ids);
      MapOfConcat(JoinedIn, JoinedRoleRows(t, front), JoinedRows(t, 0, last, Role, Some(last), ids));
    }
  }

  lemma JoinedSequenceIsExpected(t: Tables, userId: Id)
    ensures Map(JoinedIn, JoinedSequence(t, userId)) == Expected(t, userId)
  {
    var roles := JoinedRoleRows(t, InOrder(Targets(t.userRoles, userId)));
    var additional := JoinedRows(t, 1, "", Additional, None, InOrder(Targets(t.additional, userId)));
    var denied := JoinedRows(t, 2, "", Denied, None, InOrder(Targets(t.denied, userId)));
    JoinedRoleRowsAreRows(t, InOrder(Targets(t.userRoles, userId)));
    JoinedRowsAreRows(t, 1, "", Additional, None, InOrder(Targets(t.additional, userId)));
    JoinedRowsAreRows(t, 2, "", Denied, None, InOrder(Targets(t.denied, userId)));
    MapOfConcat(JoinedIn, roles + additional, denied);
    MapOfConcat(JoinedIn, roles, additional);
  }

  // ---- It is in the order of the SQL, and holds the rows of the SQL ----

  lemma {:induction false} JoinedRowsShape(
      t: Tables, grp: nat, roleKey: Id, source: Source, roleId: Option<Id>, ids: seq<Id>)
    ensures forall j :: j in JoinedRows(t, grp, roleKey, source, roleId, ids) <==>
      j.capabilityId in ids && j in JoinedRow(t, grp, roleKey, source, roleId, j.capabilityId)
  {
    if ids != [] {
      var (front, last) := (ids[..|ids| - 1], ids[|ids| - 1]);
      JoinedRowsShape(t, grp, roleKey, source, roleId, front);
      assert ids == front + [last];
    }
  }

  lemma {:induction false} JoinedRowsAscend(
      t: Tables, grp: nat, roleKey: Id, source: Source, roleId: Option<Id>, ids: seq<Id>)
    requires Ascends(Less, ids)
    ensures Ascends(SqlBefore, JoinedRows(t, grp, roleKey, source, roleId, ids))
  {
    if ids != [] {
      var (front, last) := (ids[..|ids| - 1], ids[|ids| - 1]);
      JoinedRowsAscend(t, grp, roleKey, source, roleId, front);
      JoinedRowsShape(t, grp, roleKey, source, roleId, front);
      ConcatAscends(SqlBefore, JoinedRows(t, grp, roleKey, source, roleId, front),
                    JoinedRow(t, grp, roleKey, source, roleId, last));
    }
  }

  /** The capability rows of one role. */
  ghost predicate OfRole(t: Tables, roleId: Id, j: Joined) {
    j.capabilityId in Targets(t.roleCapabilities, roleId)
    && j in JoinedRow(t, 0, roleId, Role, Some(roleId), j.capabilityId)
  }

  lemma RowsOfRole(t: Tables, roleId: Id)
    ensures
      var rows := JoinedRows(t, 0, roleId, Role, Some(roleId), InOrder(Targets(t.roleCapabilities, roleId)));
      Ascends(SqlBefore, rows) && forall j :: j in rows <==> OfRole(t, roleId, j)
  {
    var ids := InOrder(Targets(t.roleCapabilities, roleId));
    JoinedRowsShape(t, 0, roleId, Role, Some(roleId), ids);
    JoinedRowsAscend(t, 0, roleId, Role, Some(roleId), ids);
    forall id ensures id in ids <==> id in Targets(t.roleCapabilities, roleId) {
      assert id in ids <==> id in Elements(ids);
    }
  }

  lemma {:induction false} JoinedRoleRowsShape(t: Tables, roleIds: seq<Id>)
    requires Ascends(Less, roleIds)
    ensures Ascends(SqlBefore, JoinedRoleRows(t, roleIds))
    ensures forall j :: j in JoinedRoleRows(t, roleIds) <==> j.roleKey in roleIds && OfRole(t, j.roleKey, j)
  {
    if roleIds != [] {
      var (front, last) := (roleIds[..|roleIds| - 1], roleIds[|roleIds| - 1]);
      var rows := JoinedRows(t, 0, last, Role, Some(last), InOrder(Targets(t.roleCapabilities, last)));
      assert roleIds == front + [last];
      JoinedRoleRowsShape(t, front);
      RowsOfRole(t, last);
      forall x, y | x in JoinedRoleRows(t, front) && y in rows
        ensures SqlBefore(x, y)
      {
        LessIsTotal(x.roleKey, y.roleKey);
      }
      ConcatAscends(SqlBefore, JoinedRoleRows(t, front), rows);
    }
  }

  lemma DirectRowsShape(t: Tables, grp: nat, source: Source, ids: set<Id>)
    ensures
      var rows := JoinedRows(t, grp, "", source, None, InOrder(ids));
      && Ascends(SqlBefore, rows)
      && forall j :: j in rows <==> j.capabilityId in ids && j in JoinedRow(t, grp, "", source, None, j.capabilityId)
  {
    JoinedRowsShape(t, grp, "", source, None, InOrder(ids));
    JoinedRowsAscend(t, grp, "", source, None, InOrder(ids));
    forall id ensures id in InOrder(ids) <==> id in ids {
      assert id in InOrder(ids) <==> id in Elements(InOrder(ids));
    }
  }

  lemma JoinedSequenceAscends(t: Tables, userId: Id)
    ensures Ascends(SqlBefore, JoinedSequence(t, userId))
  {
    var roles := JoinedRoleRows(t, InOrder(Targets(t.userRoles, userId)));
    var additional := JoinedRows(t, 1, "", Additional, None, InOrder(Targets(t.additional, userId)));
    var denied := JoinedRows(t, 2, "", Denied, None, InOrder(Targets(t.denied, userId)));
    JoinedRoleRowsShape(t, InOrder(Targets(t.userRoles, userId)));
    DirectRowsShape(t, 1, Additional, Targets(t.additional, userId));
    DirectRowsShape(t, 2, Denied, Targets(t.denied, userId));
    assert forall j :: j in roles ==> j.grp == 0;
    assert forall j :: j in additional ==> j.grp == 1;
    assert forall j :: j in denied ==> j.grp == 2;
    ConcatAscends(SqlBefore, roles, additional);
    ConcatAscends(SqlBefore, roles + additional, denied);
  }

  lemma JoinedSequenceMembers(t: Tables, userId: Id, j: Joined)
    ensures j in JoinedSequence(t, userId) <==> j in Subquery(t, userId)
  {
    var roleIds := InOrder(Targets(t.userRoles, userId));
    JoinedRoleRowsShape(t, roleIds);
    DirectRowsShape(t, 1, Additional, Targets(t.additional, userId));
    DirectRowsShape(t, 2, Denied, Targets(t.denied, userId));
    SubqueryMembers(t, userId, j);
    assert j.roleKey in roleIds <==> j.roleKey in Elements(roleIds);
  }

  lemma JoinedSequenceIsSubquery(t: Tables, userId: Id)
    ensures Ascends(SqlBefore, JoinedSequence(t, userId))
    ensures Elements(JoinedSequence(t, userId)) == Subquery(t, userId)
  {
    JoinedSequenceAscends(t, userId);
    forall j ensures j in JoinedSequence(t, userId) <==> j in Subquery(t, userId) {
      JoinedSequenceMembers(t, userId, j);
    }
  }

  lemma SubqueryMembers(t: Tables, userId: Id, j: Joined)
    ensures j in Subquery(t, userId) <==>
      || (j.roleKey in Targets(t.userRoles, userId) && OfRole(t, j.roleKey, j))
      || (j.capabilityId in Targets(t.additional, userId)
          && j in JoinedRow(t, 1, "", Additional, None, j.capabilityId))
      || (j.capabilityId in Targets(t.denied, userId) && j in JoinedRow(t, 2, "", Denied, None, j.capabilityId))
  {
    if j.roleKey in Targets(t.userRoles, userId) && OfRole(t, j.roleKey, j) {
      assert Link(userId, j.roleKey) in t.userRoles && Link(j.roleKey, j.capabilityId) in t.roleCapabilities;
    }
    if j.capabilityId in Targets(t.additional, userId) {
      assert Link(userId, j.capabilityId) in t.additional;
    }
    if j.capabilityId in Targets(t.denied, userId) {
      assert Link(userId, j.capabilityId) in t.denied;
    }
  }

  lemma SubqueryIsOrdered(t: Tables, userId: Id)
    ensures Orders(SqlBefore, Subquery(t, userId))
  {
    var s := Subquery(t, userId);
    forall x, y | x in s && y in s
      ensures !SqlBefore(x, x) && (x == y || SqlBefore(x, y) || SqlBefore(y, x))
    {
      SubqueryMembers(t, userId, x);
      SubqueryMembers(t, userId, y);
      LessIsTotal(x.roleKey, y.roleKey);
      LessIsTotal(x.capabilityId, y.capabilityId);
    }
    forall x, y, z | x in s && y in s && z in s && SqlBefore(x, y) && SqlBefore(y, z)
      ensures SqlBefore(x, z)
    {
      SqlBeforeIsTransitive(x, y, z);
    }
  }

  lemma SqlBeforeIsTransitive(x: Joined, y: Joined, z: Joined)
    requires SqlBefore(x, y) && SqlBefore(y, z)
    ensures SqlBefore(x, z)
  {
    LessIsTotal(x.roleKey, y.roleKey);
    if Less(x.roleKey, y.roleKey) && Less(y.roleKey, z.roleKey) {
      LessIsTransitive(x.roleKey, y.roleKey, z.roleKey);
      LessIsTotal(x.roleKey, z.roleKey);
    }
    if Less(x.capabilityId, y.capabilityId) && Less(y.capabilityId, z.capabilityId) {
      LessIsTransitive(x.capabilityId, y.capabilityId, z.capabilityId);
    }
  }

  /** `row_number` counts along the projector's sequence. */
  lemma RowNumberIsPlace(t: Tables, userId: Id, i: nat)
    requires i < |JoinedSequence(t, userId)|
    ensures
      var j := JoinedSequence(t, userId)[i];
      j in Subquery(t, userId) && userId in LinkedUsers(t) && RowNumber(t, userId, j) == i + 1
  {
    var s := JoinedSequence(t, userId);
    var j := s[i];
    JoinedSequenceIsSubquery(t, userId);
    SubqueryIsOrdered(t, userId);
    assert j in Elements(s);
    PlaceIsRank(SqlBefore, s, i, set other | other in Subquery(t, userId) && SqlBefore(other, j));
    SubqueryNeedsLink(t, userId, j);
  }

  lemma SubqueryNeedsLink(t: Tables, userId: Id, j: Joined)
    requires j in Subquery(t, userId)
    ensures userId in LinkedUsers(t)
  {
  }

  /** The seed's row for a place in the projector's sequence. */
  lemma SeedRuleAt(t: Tables, userId: Id, i: nat)
    requires i < |Expected(t, userId)|
    ensures i < |JoinedSequence(t, userId)| && JoinedSequence(t, userId)[i].row == Expected(t, userId)[i]
    ensures Rule(userId, i + 1, Expected(t, userId)[i]) in SeedRules(t)
  {
    JoinedSequenceIsExpected(t, userId);
    RowNumberIsPlace(t, userId, i);
    var j := JoinedSequence(t, userId)[i];
    assert JoinedIn(j) == Expected(t, userId)[i];
    assert Rule(userId, RowNumber(t, userId, j), j.row) in SeedRules(t);
  }

  lemma SeedRuleIsExpected(t: Tables, userId: Id, x: Rule)
    requires x in RulesOf(SeedRules(t), userId)
    ensures x in Numbered(userId, Expected(t, userId))
  {
    var j :| j in Subquery(t, userId) && x == Rule(userId, RowNumber(t, userId, j), j.row);
    JoinedSequenceMembers(t, userId, j);
    var i :| 0 <= i < |JoinedSequence(t, userId)| && JoinedSequence(t, userId)[i] == j;
    JoinedSequenceIsExpected(t, userId);
    RowNumberIsPlace(t, userId, i);
    SeedRuleAt(t, userId, i);
    assert x == Rule(userId, i + 1, Expected(t, userId)[i]);
  }

  lemma ExpectedRuleIsSeeded(t: Tables, userId: Id, x: Rule)
    requires x in Numbered(userId, Expected(t, userId))
    ensures x in RulesOf(SeedRules(t), userId)
  {
    var i :| 0 <= i < |Expected(t, userId)| && x == Rule(userId, i + 1, Expected(t, userId)[i]);
    SeedRuleAt(t, userId, i);
  }

  /** For each user, the seed inserts the rows and positions that a rebuild writes. */
  lemma SeedGivesExpectedRows(t: Tables, userId: Id)
    ensures RulesOf(SeedRules(t), userId) == Numbered(userId, Expected(t, userId))
  {
    forall x | x in RulesOf(SeedRules(t), userId) ensures x in Numbered(userId, Expected(t, userId)) {
      SeedRuleIsExpected(t, userId, x);
    }
    forall x | x in Numbered(userId, Expected(t, userId)) ensures x in RulesOf(SeedRules(t), userId) {
      ExpectedRuleIsSeeded(t, userId, x);
    }
  }

  /** Every user id in a link table is a user, as the foreign keys demand. */
  predicate LinksAreToUsers(t: Tables) {
    LinkedUsers(t) <= t.users
  }

  /** The seed fills the empty table as a rebuild of all users does, whatever the source tables hold. */
  lemma SeedIsRebuildOfAll(t: Tables)
    requires LinksAreToUsers(t)
    ensures SeedRules(t) == Rebuilt(t, {}, t.users)
  {
    forall x: Rule
      ensures x in SeedRules(t) <==> x in Rebuilt(t, {}, t.users)
    {
      SeedGivesExpectedRows(t, x.userId);
      assert x in SeedRules(t) <==> x in RulesOf(SeedRules(t), x.userId);
      assert x in Rebuilt(t, {}, t.users) <==> x in RulesOf(Rebuilt(t, {}, t.users), x.userId);
    }
  }
}

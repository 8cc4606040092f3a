/**
 Which rules a user should have, link by link and column by column: each comes from a role's link to a capability
 or from an additional one of the user or a denied one, and carries the columns of the capability that is named
 there. They come in order: those of roles by role and capability, then the additional ones and then the denied
 ones, both by capability.
 */
module PermissionRows {
  import opened Wrappers
  import opened Sorting
  import opened Permissions

  /** The row has the columns of the capability it names. */
  predicate ShowsCapability(t: Tables, row: RuleRow) {
    && row.capabilityId in t.capabilities
    && var c := t.capabilities[row.capabilityId];
       && row.subject == c.subject && row.action == c.action && row.conditions == c.conditions
       && row.fields == c.fields && row.reason == c.reason
  }

  /** A capability of one of the user's roles, as it is. */
  predicate IsRoleRule(t: Tables, userId: Id, row: RuleRow) {
    && row.source == Role && row.roleId.Some?
    && Link(userId, row.roleId.value) in t.userRoles && Link(row.roleId.value, row.capabilityId) in t.roleCapabilities
    && ShowsCapability(t, row) && row.inverted == t.capabilities[row.capabilityId].inverted
  }

  /** A capability the user has in addition, as it is. */
  predicate IsAdditionalRule(t: Tables, userId: Id, row: RuleRow) {
    && row.source == Additional && row.roleId == None && Link(userId, row.capabilityId) in t.additional
    && ShowsCapability(t, row) && row.inverted == t.capabilities[row.capabilityId].inverted
  }

  /** A capability the user is denied: it forbids, whatever it is by itself. */
  predicate IsDeniedRule(t: Tables, userId: Id, row: RuleRow) {
    && row.source == Denied && row.roleId == None && Link(userId, row.capabilityId) in t.denied
    && ShowsCapability(t, row) && row.inverted
  }

  lemma RowIs(t: Tables, source: Source, roleId: Option<Id>, row: RuleRow)
    ensures row in RowOf(t, source, roleId, row.capabilityId) <==>
            && row.source == source && row.roleId == roleId && ShowsCapability(t, row)
            && row.inverted == (source == Denied || t.capabilities[row.capabilityId].inverted)
  {
  }

  lemma {:induction false} RowsMembers(t: Tables, source: Source, roleId: Option<Id>, ids: seq<Id>, row: RuleRow)
    ensures row in Rows(t, source, roleId, ids) <==>
            row.capabilityId in ids && row in RowOf(t, source, roleId, row.capabilityId)
  {
    if ids != [] {
      var (front, last) := (ids[..|ids| - 1], ids[|ids| - 1]);
      RowsMembers(t, source, roleId, front, row);
      assert ids == front + [last];
    }
  }

  lemma InOrderMembers(ids: set<Id>, id: Id)
    ensures id in InOrder(ids) <==> id in ids
  {
    assert id in InOrder(ids) <==> id in Elements(InOrder(ids));
  }

  lemma TargetsMembers(links: set<Link>, owner: Id, id: Id)
    ensures id in InOrder(Targets(links, owner)) <==> Link(owner, id) in links
  {
    InOrderMembers(Targets(links, owner), id);
    if Link(owner, id) in links {
      assert Link(owner, id).target in Targets(links, owner);
    }
  }

  lemma RowsOfRole(t: Tables, roleId: Id, row: RuleRow)
    ensures row in Rows(t, Role, Some(roleId), InOrder(Targets(t.roleCapabilities, roleId))) <==>
            && row.roleId == Some(roleId) && Link(roleId, row.capabilityId) in t.roleCapabilities
            && row in RowOf(t, Role, row.roleId, row.capabilityId)
  {
    RowsMembers(t, Role, Some(roleId), InOrder(Targets(t.roleCapabilities, roleId)), row);
    TargetsMembers(t.roleCapabilities, roleId, row.capabilityId);
    RowIs(t, Role, Some(roleId), row);
  }

  lemma {:induction false} RoleRowsMembers(t: Tables, roleIds: seq<Id>, row: RuleRow)
    ensures row in RoleRows(t, roleIds) <==> exists i :: 0 <= i < |roleIds| && IsOfRole(t, roleIds[i], row)
  {
    if roleIds != [] {
      var (front, last) := (roleIds[..|roleIds| - 1], roleIds[|roleIds| - 1]);
      RoleRowsMembers(t, front, row);
      assert forall i :: 0 <= i < |front| ==> roleIds[i] == front[i];
    }
  }

  ghost predicate IsOfRole(t: Tables, roleId: Id, row: RuleRow) {
    row in Rows(t, Role, Some(roleId), InOrder(Targets(t.roleCapabilities, roleId)))
  }

  lemma RoleRulesAre(t: Tables, userId: Id, row: RuleRow)
    ensures row in RoleRows(t, InOrder(Targets(t.userRoles, userId))) <==> IsRoleRule(t, userId, row)
  {
    var roleIds := InOrder(Targets(t.userRoles, userId));
    RoleRowsMembers(t, roleIds, row);
    RowIs(t, Role, row.roleId, row);
    forall id ensures IsOfRole(t, id, row) <==>
                      row.roleId == Some(id) && Link(id, row.capabilityId) in t.roleCapabilities
                      && row in RowOf(t, Role, row.roleId, row.capabilityId)
    {
      RowsOfRole(t, id, row);
    }
    if row.roleId.Some? {
      TargetsMembers(t.userRoles, userId, row.roleId.value);
    }
  }

  /** A user should have exactly these rules. */
  lemma ExpectedMembers(t: Tables, userId: Id, row: RuleRow)
    ensures row in Expected(t, userId) <==>
            IsRoleRule(t, userId, row) || IsAdditionalRule(t, userId, row) || IsDeniedRule(t, userId, row)
  {
    RoleRulesAre(t, userId, row);
    RowsMembers(t, Additional, None, InOrder(Targets(t.additional, userId)), row);
    RowsMembers(t, Denied, None, InOrder(Targets(t.denied, userId)), row);
    TargetsMembers(t.additional, userId, row.capabilityId);
    TargetsMembers(t.denied, userId, row.capabilityId);
    RowIs(t, Additional, None, row);
    RowIs(t, Denied, None, row);
  }

  // ---- Their order ----

  /** Ids by character, shorter first. */
  predicate Precedes(a: Id, b: Id) {
    b != "" && (a == "" || a[0] < b[0] || (a[0] == b[0] && Precedes(a[1..], b[1..])))
  }

  lemma {:induction false} PrecedesIsLess(a: Id, b: Id)
    ensures Precedes(a, b) <==> Less(a, b)
  {
    if a != "" && b != "" {
      PrecedesIsLess(a[1..], b[1..]);
    }
  }

  function Rank(source: Source): nat {
    match source
    case Role => 0
    case Additional => 1
    case Denied => 2
  }

  /** Role rules by role and capability, then additional and then denied ones by capability. */
  predicate IsBefore(a: RuleRow, b: RuleRow) {
    if a.source != b.source then Rank(a.source) < Rank(b.source)
    else if a.roleId != b.roleId then a.roleId.Some? && b.roleId.Some? && Precedes(a.roleId.value, b.roleId.value)
    else Precedes(a.capabilityId, b.capabilityId)
  }

  lemma {:induction false} RowsAscend(t: Tables, source: Source, roleId: Option<Id>, ids: seq<Id>)
    requires Ascends(Less, ids)
    ensures Ascends(IsBefore, Rows(t, source, roleId, ids))
  {
    if ids != [] {
      var (front, last) := (ids[..|ids| - 1], ids[|ids| - 1]);
      RowsAscend(t, source, roleId, front);
      forall a, b | a in Rows(t, source, roleId, front) && b in RowOf(t, source, roleId, last) ensures IsBefore(a, b) {
        RowsMembers(t, source, roleId, front, a);
        var i :| 0 <= i < |front| && front[i] == a.capabilityId;
        PrecedesIsLess(ids[i], last);
      }
      ConcatAscends(IsBefore, Rows(t, source, roleId, front), RowOf(t, source, roleId, last));
    }
  }

  lemma {:induction false} RoleRowsAscend(t: Tables, roleIds: seq<Id>)
    requires Ascends(Less, roleIds)
    ensures Ascends(IsBefore, RoleRows(t, roleIds))
  {
    if roleIds != [] {
      var (front, last) := (roleIds[..|roleIds| - 1], roleIds[|roleIds| - 1]);
      var ids := InOrder(Targets(t.roleCapabilities, last));
      RoleRowsAscend(t, front);
      RowsAscend(t, Role, Some(last), ids);
      forall a, b | a in RoleRows(t, front) && b in Rows(t, Role, Some(last), ids) ensures IsBefore(a, b) {
        RoleRowsMembers(t, front, a);
        var i :| 0 <= i < |front| && IsOfRole(t, front[i], a);
        RowsOfRole(t, front[i], a);
        RowsOfRole(t, last, b);
        RowIs(t, Role, a.roleId, a);
        RowIs(t, Role, b.roleId, b);
        PrecedesIsLess(roleIds[i], last);
        LessIsTotal(last, last);
      }
      ConcatAscends(IsBefore, RoleRows(t, front), Rows(t, Role, Some(last), ids));
    }
  }

  /** The rules a user should have are in this order. */
  lemma ExpectedAscends(t: Tables, userId: Id)
    ensures Ascends(IsBefore, Expected(t, userId))
  {
    var roles := RoleRows(t, InOrder(Targets(t.userRoles, userId)));
    var additional := Rows(t, Additional, None, InOrder(Targets(t.additional, userId)));
    var denied := Rows(t, Denied, None, InOrder(Targets(t.denied, userId)));
    RoleRowsAscend(t, InOrder(Targets(t.userRoles, userId)));
    RowsAscend(t, Additional, None, InOrder(Targets(t.additional, userId)));
    RowsAscend(t, Denied, None, InOrder(Targets(t.denied, userId)));
    forall row ensures (row in roles ==> row.source == Role) && (row in additional ==> row.source == Additional)
                       && (row in denied ==> row.source == Denied)
    {
      RoleRulesAre(t, userId, row);
      RowsShape(t, Additional, None, InOrder(Targets(t.additional, userId)));
      RowsShape(t, Denied, None, InOrder(Targets(t.denied, userId)));
    }
    ConcatAscends(IsBefore, roles, additional);
    ConcatAscends(IsBefore, roles + additional, denied);
  }
}

/**
 * Class `MigrationUtility` of gbra_migration_util.py: the planner's loops
 * and the migration steps run against a `MigrationUtilChangeClient` object.
 * Every method is proved to return what the matching function of modules
 * Planner and Migration returns for the client's state, and to leave the
 * client in the state that function gives.
 */
module MigrationUtil {
  import opened Base
  import opened Directory
  import LiveClient
  import opened DryRun
  import opened ChangeClient
  import opened Planner
  import Migration

  /** `_get_list_of_dicts_matching`: the loop that collects the matching records. */
  method ListOfDictsMatching(f: Field, value: string, ras: seq<RoleAssignment>) returns (r: seq<RoleAssignment>)
    ensures r == Matching(f, value, ras)
  {
    r := [];
    var i := 0;
    while i < |ras|
      invariant 0 <= i <= |ras|
      invariant r == Matching(f, value, ras[..i])
    {
      assert ras[..i + 1] == ras[..i] + [ras[i]];
      MatchingSnoc(f, value, ras[..i], ras[i]);
      var item := FieldValue(ras[i], f);
      if item == value || (item != "" && ToLower(item) == value) {
        r := r + [ras[i]];
      }
      i := i + 1;
    }
    assert ras[..i] == ras;
  }

  class MigrationUtility {
    const client: MigrationUtilChangeClient
    const raLimit: int
    const rolesToForce: seq<int>
    const rolesToSkip: seq<int>

    /** The limit and the two role lists the selection walk reads. */
    function Params(): Limits {
      Limits(raLimit, rolesToForce, rolesToSkip)
    }

    constructor(remote: Directory, cfg: LiveClient.Config, raLimit: int, rolesToForce: seq<int>, rolesToSkip: seq<int>)
      ensures client.State() == Overlay(remote, EmptyShadow(), cfg) && client.Valid()
      ensures Params() == Limits(raLimit, rolesToForce, rolesToSkip)
    {
      client := new MigrationUtilChangeClient(remote, cfg);
      this.raLimit := raLimit;
      this.rolesToForce := rolesToForce;
      this.rolesToSkip := rolesToSkip;
    }

    /** `_can_role_be_processed`: the role's flags, its name, then its privileges one by one. */
    method CanRoleBeProcessed(roleId: string) returns (r: Result<bool>)
      ensures r == Planner.CanRoleBeProcessed(client.State(), roleId)
    {
      var got := client.GetRole(roleId);
      if got.Err? {
        return Err(got.error);
      }
      var role := got.value;
      if role.isSuperAdminRole {
        return Ok(false);
      }
      if Contains(role.roleName, GCP_RESELLER_MARK) || Contains(role.roleName, RESELLER_MARK) {
        return Ok(false);
      }
      var privs := role.rolePrivileges;
      var k := 0;
      while k < |privs|
        invariant 0 <= k <= |privs|
        invariant HasHangoutsPrivilege(privs[k..]) == HasHangoutsPrivilege(privs)
      {
        assert privs[k..][0] == privs[k] && privs[k..][1..] == privs[k + 1..];
        if privs[k].privilegeName == "MANAGE_HANGOUTS_SERVICE" && privs[k].serviceId == "02w5ecyt3laroi5" {
          return Ok(false);
        }
        k := k + 1;
      }
      assert privs[k..] == [];
      r := Ok(true);
    }

    /** `get_human_scope_name`. */
    method HumanScopeName(scopeType: string, ouId: string) returns (name: string)
      ensures name == Planner.HumanScopeName(client.State(), scopeType, ouId)
    {
      if scopeType == "ORG_UNIT" {
        var ou := client.GetOu(ouId);
        name := if ou.value.Some? then "ORG_UNIT-" + ou.value.value.orgUnitPath else ouId;
      } else {
        name := "CUSTOMER";
      }
    }

    /**
     * The first loop of `_get_filtered_rolescope_to_ra_map`: files each
     * record under its role-scope, dropping user records whose user is not
     * found.  Only the client's user cache changes.
     */
    method KeptBuckets(ras: seq<RoleAssignment>) returns (m: seq<Bucket<RoleScope>>)
      requires client.Valid()
      modifies client
      ensures client.Valid() && client.State() == old(client.State())
      ensures m == GroupBy(Kept(client.State(), ras), RoleScopeOf)
    {
      ghost var o := client.State();
      m := [];
      var i := 0;
      while i < |ras|
        invariant 0 <= i <= |ras|
        invariant client.Valid() && client.State() == o
        invariant m == GroupBy(Kept(o, ras[..i]), RoleScopeOf)
      {
        var ra := ras[i];
        assert ras[..i + 1] == ras[..i] + [ra];
        GroupByKeptSnoc(o, ras[..i], ra);
        var keep := true;
        if ra.assigneeType == "user" {
          var u := client.GetUser(ra.assignedTo);
          keep := u.value.Some?;
        }
        if keep {
          m := AddTo(m, RoleScopeOf(ra), ra);
        }
        i := i + 1;
      }
      assert ras[..i] == ras;
    }

    /** One bucket of the selection walk: force-listed, skip-listed, under the limit, or as the role allows. */
    method Step(b: Bucket<RoleScope>, total: int, sel: seq<Bucket<RoleScope>>) returns (r: Result<seq<Bucket<RoleScope>>>)
      ensures r == Planner.Step(client.State(), b, total, Params(), sel)
    {
      var reduced := Total(sel) - |sel|;
      var remaining := total - reduced;
      var forced := Listed(rolesToForce, b.key.roleId);
      if forced.Err? {
        return Err(forced.error);
      }
      if forced.value {
        return Ok(sel + [b]);
      }
      var skipped := Listed(rolesToSkip, b.key.roleId);
      if skipped.Err? {
        return Err(skipped.error);
      }
      if skipped.value || remaining < raLimit {
        return Ok(sel);
      }
      var can := CanRoleBeProcessed(b.key.roleId);
      if can.Err? {
        return Err(can.error);
      }
      r := Ok(if can.value then sel + [b] else sel);
    }

    /**
     * `_get_filtered_rolescope_to_ra_map`: files the records by role-scope,
     * orders the buckets by size and, when `filtered`, walks them choosing
     * which to convert.  Only the client's user cache changes.
     */
    method FilteredRoleScopeMap(ras: seq<RoleAssignment>, filtered: bool) returns (r: Result<seq<Bucket<RoleScope>>>)
      requires client.Valid()
      modifies client
      ensures client.Valid() && client.State() == old(client.State())
      ensures r == Planner.FilteredRoleScopeMap(client.State(), ras, Params(), filtered)
    {
      var m := KeptBuckets(ras);
      var ordered := SortBySize(m);
      if !filtered {
        return Ok(ordered);
      }
      ghost var o := client.State();
      var sel: seq<Bucket<RoleScope>> := [];
      var k := 0;
      while k < |ordered|
        invariant 0 <= k <= |ordered|
        invariant client.Valid() && client.State() == o
        invariant Walk(o, ordered[k..], |ras|, Params(), sel) == Walk(o, ordered, |ras|, Params(), [])
      {
        assert ordered[k..][0] == ordered[k] && ordered[k..][1..] == ordered[k + 1..];
        var next := Step(ordered[k], |ras|, sel);
        if next.Err? {
          return Err(next.error);
        }
        sel := next.value;
        k := k + 1;
      }
      r := Ok(sel);
    }

    /** The key a record is filed under: its readable scope name, or `rolescope_to_scope_name` of its role-scope. */
    method ScopeKeyOf(ra: RoleAssignment, human: bool) returns (name: string)
      ensures name == ScopeKey(client.State(), human)(ra)
    {
      if human {
        name := HumanScopeName(ra.scopeType, ra.orgUnitId.GetOr(""));
      } else {
        name := ScopeName(RoleScope(ra.roleId, ra.scopeType, ra.orgUnitId.GetOr("")));
      }
    }

    /** `get_scope_to_ra_map`: files every listed record under its scope name. */
    method ScopeToRaMap(filterUnder: bool, human: bool) returns (r: Result<seq<Bucket<string>>>)
      ensures r == ScopeMap(client.State(), raLimit, filterUnder, human)
    {
      ghost var o := client.State();
      var listed := client.ListRoleAssignments(None, None);
      if listed.Err? {
        return Err(listed.error);
      }
      var ras := listed.value;
      ghost var key := ScopeKey(o, human);
      var m: seq<Bucket<string>> := [];
      var i := 0;
      while i < |ras|
        invariant 0 <= i <= |ras|
        invariant m == GroupBy(ras[..i], key)
      {
        var ra := ras[i];
        assert ras[..i + 1] == ras[..i] + [ra];
        GroupBySnoc(ras[..i], ra, key);
        var name := ScopeKeyOf(ra, human);
        m := AddTo(m, name, ra);
        i := i + 1;
      }
      assert ras[..i] == ras;
      assert m == GroupBy(ras, key);
      r := Ok(if filterUnder then OverLimit(m, raLimit) else m);
    }

    /** The loop of `get_rolescope_to_ra_map`: each scope's selection merged into `acc`, scope by scope. */
    method MergeSelections(scopes: seq<Bucket<string>>, filtered: bool, acc: seq<Bucket<RoleScope>>)
      returns (r: Result<seq<Bucket<RoleScope>>>)
      requires client.Valid()
      modifies client
      ensures client.Valid() && client.State() == old(client.State())
      ensures r == RoleScopeMapFrom(client.State(), scopes, Params(), filtered, acc)
    {
      ghost var o := client.State();
      var merged := acc;
      var i := 0;
      while i < |scopes|
        invariant 0 <= i <= |scopes|
        invariant client.Valid() && client.State() == o
        invariant RoleScopeMapFrom(o, scopes[i..], Params(), filtered, merged)
               == RoleScopeMapFrom(o, scopes, Params(), filtered, acc)
      {
        RoleScopeMapFromStep(o, scopes, i, Params(), filtered, merged);
        var part := FilteredRoleScopeMap(scopes[i].ras, filtered);
        if part.Err? {
          return Err(part.error);
        }
        // `dict.update`: the keys of different scopes never collide (lemma RoleScopeMapDistinct)
        merged := merged + part.value;
        i := i + 1;
      }
      assert scopes[i..] == [];
      r := Ok(merged);
    }

    /** `get_rolescope_to_ra_map`: the scope map of all assignments, then the merge of its selections. */
    method RoleScopeMap(filtered: bool) returns (r: Result<seq<Bucket<RoleScope>>>)
      requires client.Valid()
      modifies client
      ensures client.Valid() && client.State() == old(client.State())
      ensures r == Planner.RoleScopeMap(client.State(), Params(), filtered)
    {
      var listed := ScopeToRaMap(false, false);
      if listed.Err? {
        return Err(listed.error);
      }
      r := MergeSelections(listed.value, filtered, []);
    }

    /** The body of `create_groups` for one role-scope. */
    method CreateGroupStep(rs: RoleScope, customer: Customer) returns (r: Result<()>)
      requires client.Valid()
      modifies client, client.shadow
      ensures client.Valid()
      ensures Effect(client.State(), r) == Migration.CreateGroupStep(old(client.State()), rs, customer)
    {
      var email := GroupEmail(rs, customer.customerDomain);
      // `get_group` answers None for a missing group and does not raise
      var g := client.GetGroup(email);
      if g.value.None? {
        r := client.CreateGroup(customer.id, email, GroupName(rs), Migration.GroupDescription(rs));
      } else {
        r := Ok(());
      }
    }

    /** `create_groups`: the customer is read once; then each missing group is created. */
    method CreateGroups(m: seq<Bucket<RoleScope>>) returns (r: Result<()>)
      requires client.Valid()
      modifies client, client.shadow
      ensures client.Valid()
      ensures Effect(client.State(), r) == Migration.CreateGroups(old(client.State()), m)
    {
      var customer := client.GetCustomer();
      var i := 0;
      while i < |m|
        invariant 0 <= i <= |m|
        invariant client.Valid()
        invariant Migration.CreateGroupsFrom(client.State(), m[i..], customer) == Migration.CreateGroups(old(client.State()), m)
      {
        assert m[i..][0] == m[i] && m[i..][1..] == m[i + 1..];
        var e := CreateGroupStep(m[i].key, customer);
        if e.Err? {
          return e;
        }
        i := i + 1;
      }
      r := Ok(());
    }

    /** The body of `make_ra_to_groups` for one role-scope. */
    method MakeRaStep(b: Bucket<RoleScope>, domain: string) returns (r: Result<()>)
      requires client.Valid()
      modifies client, client.shadow
      ensures client.Valid()
      ensures Effect(client.State(), r) == Migration.MakeRaStep(old(client.State()), b, AssignedTo, domain)
    {
      var rs := b.key;
      var email := GroupEmail(rs, domain);
      var ou: string;
      if rs.scopeType == ORG_UNIT_SCOPE {
        ou := rs.orgUnit;
      } else {
        var root := client.GetRootOu();
        if root.Err? {
          return Err(root.error);
        }
        ou := root.value;
      }
      var g := client.GetGroup(email);
      if g.value.None? {
        return Err(AssertionError(Migration.NO_GROUP_MESSAGE + email));
      }
      var existing := ListOfDictsMatching(AssignedTo, g.value.value.id, b.ras);
      if |existing| == 1 {
        return Ok(());
      }
      if |existing| > 1 {
        return Err(AssertionError(Migration.DUPLICATE_ASSIGNMENT_MESSAGE + rs.roleId + " to groupEmail=" + email));
      }
      r := client.InsertRa(rs.roleId, email, "group", rs.scopeType, Some(ou));
    }

    /**
     * `make_ra_to_groups`, looking for the group's existing assignment under
     * `assignedTo` (see `Migration.MakeRaToGroupsAsWritten` for the code as
     * written).
     */
    method MakeRaToGroups(m: seq<Bucket<RoleScope>>) returns (r: Result<()>)
      requires client.Valid()
      modifies client, client.shadow
      ensures client.Valid()
      ensures Effect(client.State(), r) == Migration.MakeRaToGroups(old(client.State()), m)
    {
      var customer := client.GetCustomer();
      var domain := customer.customerDomain;
      var i := 0;
      while i < |m|
        invariant 0 <= i <= |m|
        invariant client.Valid()
        invariant Migration.MakeRaToGroupsFrom(client.State(), m[i..], AssignedTo, domain)
               == Migration.MakeRaToGroups(old(client.State()), m)
      {
        assert m[i..][0] == m[i] && m[i..][1..] == m[i + 1..];
        var e := MakeRaStep(m[i], domain);
        if e.Err? {
          return e;
        }
        i := i + 1;
      }
      r := Ok(());
    }

    /** The inner loop of `add_assignees_to_group_at_scope`: each known user not yet a member joins the group. */
    method AddUsersToGroup(groupEmail: string, userRas: seq<RoleAssignment>) returns (r: Result<()>)
      requires client.Valid()
      modifies client, client.shadow
      ensures client.Valid()
      ensures Effect(client.State(), r) == Migration.AddUsersFrom(old(client.State()), groupEmail, userRas)
    {
      var j := 0;
      while j < |userRas|
        invariant 0 <= j <= |userRas|
        invariant client.Valid()
        invariant Migration.AddUsersFrom(client.State(), groupEmail, userRas[j..])
               == Migration.AddUsersFrom(old(client.State()), groupEmail, userRas)
      {
        assert userRas[j..][0] == userRas[j] && userRas[j..][1..] == userRas[j + 1..];
        // neither lookup raises: `get_user` answers None for an unknown user
        var u := client.GetUser(userRas[j].assignedTo);
        if u.value.Some? {
          var user := u.value.value;
          var has := client.GroupHasMember(groupEmail, user.primaryEmail);
          if !has.value {
            var ins := client.InsertMemberIntoGroup(user.primaryEmail, user.id, groupEmail);
            if ins.Err? {
              return ins;
            }
          }
        }
        j := j + 1;
      }
      r := Ok(());
    }

    /** The body of the group loop of `add_assignees_to_group_at_scope`. */
    method AddAssigneeStep(ra: RoleAssignment, userRas: seq<RoleAssignment>, owned: seq<string>)
      returns (r: Result<seq<string>>)
      requires client.Valid()
      modifies client, client.shadow
      ensures client.Valid()
      ensures Effect(client.State(), r) == Migration.AddAssigneeStep(old(client.State()), ra, userRas, owned)
    {
      var got := client.GetGroup(ra.assignedTo);
      if got.value.None? || !ScriptOwnedName(got.value.value.name) {
        return Ok(owned);
      }
      var g := got.value.value;
      if |owned + [g.name]| > 1 {
        return Err(AssertionError(Migration.MANY_OWNED_GROUPS_MESSAGE));
      }
      var added := AddUsersToGroup(g.email, userRas);
      if added.Err? {
        return Err(added.error);
      }
      r := Ok(owned + [g.name]);
    }

    /**
     * `add_assignees_to_group_at_scope`: the users of the role-scope's user
     * assignments join the one script-created group the role-scope is
     * assigned to.
     */
    method AddAssigneesToGroupAtScope(rs: RoleScope, ras: seq<RoleAssignment>) returns (r: Result<()>)
      requires client.Valid()
      modifies client, client.shadow
      ensures client.Valid()
      ensures Effect(client.State(), r) == Migration.AddAssignees(old(client.State()), ras)
    {
      var groupRas := ListOfDictsMatching(AssigneeType, "group", ras);
      var userRas := ListOfDictsMatching(AssigneeType, "user", ras);
      var owned: seq<string> := [];
      var i := 0;
      while i < |groupRas|
        invariant 0 <= i <= |groupRas|
        invariant client.Valid()
        invariant Migration.AddAssigneesFrom(client.State(), groupRas[i..], userRas, owned)
               == Migration.AddAssignees(old(client.State()), ras)
      {
        Migration.AddAssigneesFromStep(client.State(), groupRas[i..], userRas, owned);
        assert groupRas[i..][0] == groupRas[i] && groupRas[i..][1..] == groupRas[i + 1..];
        var step := AddAssigneeStep(groupRas[i], userRas, owned);
        if step.Err? {
          return Err(step.error);
        }
        owned := step.value;
        i := i + 1;
      }
      r := Ok(());
    }

    /**
     * The body of the member loop of `cleanup_role_assignments`: deletes the
     * one user assignment made to the member.  The user is fetched again
     * after the deletion, for the log line only.
     */
    method CleanupMember(member: Member, userRas: seq<RoleAssignment>) returns (r: Result<seq<string>>)
      requires client.Valid()
      modifies client, client.shadow
      ensures client.Valid()
      ensures Effect(client.State(), r) == Migration.CleanupMember(old(client.State()), member, userRas)
    {
      var toDelete := ListOfDictsMatching(AssignedTo, member.id, userRas);
      if toDelete == [] {
        return Ok([]);
      }
      if |toDelete| > 1 {
        return Err(AssertionError(Migration.DUPLICATE_USER_ASSIGNMENT_MESSAGE));
      }
      var d := client.DeleteRoleAssignment(toDelete[0].roleAssignmentId);
      if d.Err? {
        return Err(d.error);
      }
      var _ := client.GetUser(toDelete[0].assignedTo);
      r := Ok([toDelete[0].roleAssignmentId]);
    }

    /** The member loop of `cleanup_role_assignments`. */
    method CleanupMembers(members: seq<Member>, userRas: seq<RoleAssignment>, log: seq<string>)
      returns (r: Result<seq<string>>)
      requires client.Valid()
      modifies client, client.shadow
      ensures client.Valid()
      ensures Effect(client.State(), r) == Migration.CleanupMembers(old(client.State()), members, userRas, log)
    {
      var deleted := log;
      var j := 0;
      while j < |members|
        invariant 0 <= j <= |members|
        invariant client.Valid()
        invariant Migration.CleanupMembers(client.State(), members[j..], userRas, deleted)
               == Migration.CleanupMembers(old(client.State()), members, userRas, log)
      {
        assert members[j..][0] == members[j] && members[j..][1..] == members[j + 1..];
        var e := CleanupMember(members[j], userRas);
        if e.Err? {
          return e;
        }
        deleted := deleted + e.value;
        j := j + 1;
      }
      r := Ok(deleted);
    }

    /** The body of the group loop of `cleanup_role_assignments`, for one group assignment. */
    method CleanupGroup(groupRa: RoleAssignment, userRas: seq<RoleAssignment>, log: seq<string>)
      returns (r: Result<seq<string>>)
      requires client.Valid()
      modifies client, client.shadow
      ensures client.Valid()
      ensures Effect(client.State(), r) == Migration.CleanupGroup(old(client.State()), groupRa, userRas, log)
    {
      var got := client.GetGroup(groupRa.assignedTo);
      if got.value.None? || !ScriptOwnedName(got.value.value.name) {
        return Ok(log);
      }
      var members := client.GetGroupMembers(got.value.value.email);
      if members.Err? {
        return Err(members.error);
      }
      r := CleanupMembers(members.value, userRas, log);
    }

    /**
     * `cleanup_role_assignments`: in each script-created group the role-scope
     * is assigned to, the members' own assignments of the role-scope are
     * deleted.  The result lists the ids asked to be deleted.
     */
    method CleanupRoleAssignments(rs: RoleScope, ras: seq<RoleAssignment>) returns (r: Result<seq<string>>)
      requires client.Valid()
      modifies client, client.shadow
      ensures client.Valid()
      ensures Effect(client.State(), r) == Migration.Cleanup(old(client.State()), ras)
    {
      var groupRas := ListOfDictsMatching(AssigneeType, "group", ras);
      var userRas := ListOfDictsMatching(AssigneeType, "user", ras);
      var deleted: seq<string> := [];
      var i := 0;
      while i < |groupRas|
        invariant 0 <= i <= |groupRas|
        invariant client.Valid()
        invariant Migration.CleanupGroups(client.State(), groupRas[i..], userRas, deleted)
               == Migration.Cleanup(old(client.State()), ras)
      {
        assert groupRas[i..][0] == groupRas[i] && groupRas[i..][1..] == groupRas[i + 1..];
        var c := CleanupGroup(groupRas[i], userRas, deleted);
        if c.Err? {
          return c;
        }
        deleted := c.value;
        i := i + 1;
      }
      r := Ok(deleted);
    }

    /** The loop of `_delete_dup_ra_to_sa_user` over the super-admin's assignments. */
    method SaUserLoop(ras: seq<RoleAssignment>, exceeding: seq<Bucket<string>>, saUserKey: string, saRoleId: string)
      returns (r: Result<seq<string>>)
      requires client.Valid()
      modifies client, client.shadow
      ensures client.Valid()
      ensures Effect(client.State(), r) == Migration.SaUserLoop(old(client.State()), ras, exceeding, saUserKey, saRoleId, [])
    {
      var deleted: seq<string> := [];
      var i := 0;
      while i < |ras|
        invariant 0 <= i <= |ras|
        invariant client.Valid()
        invariant Migration.SaUserLoop(client.State(), ras[i..], exceeding, saUserKey, saRoleId, deleted)
               == Migration.SaUserLoop(old(client.State()), ras, exceeding, saUserKey, saRoleId, [])
      {
        assert ras[i..][0] == ras[i] && ras[i..][1..] == ras[i + 1..];
        var ra := ras[i];
        if !Migration.HasKey(exceeding, ScopeNameForRa(ra)) || ra.roleId == saRoleId {
          i := i + 1;
          continue;
        }
        var d := client.DeleteRoleAssignment(ra.roleAssignmentId);
        if d.Err? {
          return Err(d.error);
        }
        if !d.value {
          i := i + 1;
          continue;
        }
        var role := client.GetRole(ra.roleId);
        if role.Err? {
          return Err(role.error);
        }
        var sa := client.GetUser(saUserKey);
        if sa.value.None? {
          return Err(TypeError(NONE_SUBSCRIPT_MESSAGE));
        }
        deleted := deleted + [ra.roleAssignmentId];
        i := i + 1;
      }
      r := Ok(deleted);
    }

    /**
     * `_delete_dup_ra_to_sa_user`: deletes the super-admin's assignments of
     * other roles in the scopes over the limit.  The result lists the ids
     * whose deletion the client reported done.
     */
    method DeleteDupRaToSaUser(saUserKey: string, saRoleId: string) returns (r: Result<seq<string>>)
      requires client.Valid()
      modifies client, client.shadow
      ensures client.Valid()
      ensures Effect(client.State(), r) == Migration.DeleteDupRaToSaUser(old(client.State()), saUserKey, saRoleId, raLimit)
    {
      var all := client.ListRoleAssignments(None, Some(saUserKey));
      if all.Err? {
        return Err(all.error);
      }
      var exceeding := ScopeToRaMap(true, false);
      if exceeding.Err? {
        return Err(exceeding.error);
      }
      r := SaUserLoop(all.value, exceeding.value, saUserKey, saRoleId);
    }

    /** `delete_dup_ra_to_sas`: the super-admin pass for every assignee of every super-admin role. */
    method DeleteDupRaToSas() returns (r: Result<seq<string>>)
      requires client.Valid()
      modifies client, client.shadow
      ensures client.Valid()
      ensures Effect(client.State(), r) == Migration.DeleteDupRaToSas(old(client.State()), raLimit)
    {
      // `list_roles` does not raise in this model
      var roles := client.ListRoles();
      var deleted: seq<string> := [];
      var i := 0;
      while i < |roles.value|
        invariant 0 <= i <= |roles.value|
        invariant client.Valid()
        invariant Migration.SaRolesLoop(client.State(), roles.value[i..], raLimit, deleted)
               == Migration.DeleteDupRaToSas(old(client.State()), raLimit)
      {
        var role := roles.value[i];
        assert roles.value[i..][0] == role && roles.value[i..][1..] == roles.value[i + 1..];
        if !role.isSuperAdminRole {
          i := i + 1;
          continue;
        }
        var sas := client.ListRoleAssignments(Some(role.roleId), None);
        if sas.Err? {
          return Err(sas.error);
        }
        ghost var oi := client.State();
        ghost var before := deleted;
        var k := 0;
        while k < |sas.value|
          invariant 0 <= k <= |sas.value|
          invariant client.Valid()
          invariant Migration.SaAssignmentsLoop(client.State(), sas.value[k..], role.roleId, raLimit, deleted)
                 == Migration.SaAssignmentsLoop(oi, sas.value, role.roleId, raLimit, before)
        {
          assert sas.value[k..][0] == sas.value[k] && sas.value[k..][1..] == sas.value[k + 1..];
          var e := DeleteDupRaToSaUser(sas.value[k].assignedTo, role.roleId);
          if e.Err? {
            return e;
          }
          deleted := deleted + e.value;
          k := k + 1;
        }
        assert sas.value[k..] == [];
        i := i + 1;
      }
      r := Ok(deleted);
    }

    /**
     * `check_principal_is_super_admin`: True when the caller cannot be
     * identified or holds a super-admin role; False when its assignments
     * cannot be listed or none is of a super-admin role.
     */
    method CheckPrincipalIsSuperAdmin() returns (r: Result<bool>)
      ensures r == Migration.CheckPrincipalIsSuperAdmin(client.State())
    {
      ghost var o := client.State();
      var email := client.GetPrimaryEmail();
      if email.Err? {
        return if email.error.RuntimeError? then Ok(true) else Err(email.error);
      }
      if email.value.None? {
        return Ok(true);
      }
      var listed := client.ListRoleAssignments(None, Some(email.value.value));
      if listed.Err? {
        return if listed.error.RuntimeError? then Ok(false) else Err(listed.error);
      }
      var ras := listed.value;
      assert Migration.CheckPrincipalIsSuperAdmin(o) == Migration.AnySuperAdmin(o, ras);
      var k := 0;
      while k < |ras|
        invariant 0 <= k <= |ras|
        invariant Migration.AnySuperAdmin(o, ras[k..]) == Migration.AnySuperAdmin(o, ras)
      {
        assert ras[k..][0] == ras[k] && ras[k..][1..] == ras[k + 1..];
        var role := client.GetRole(ras[k].roleId);
        if role.Err? {
          // `get_role` raises only RuntimeError, which the second `try` reads as "not a super-admin"
          assert role.error.RuntimeError?;
          assert Migration.AnySuperAdmin(o, ras[k..]) == Ok(false);
          return Ok(false);
        }
        if role.value.isSuperAdminRole {
          assert Migration.AnySuperAdmin(o, ras[k..]) == Ok(true);
          return Ok(true);
        }
        assert Migration.AnySuperAdmin(o, ras[k..]) == Migration.AnySuperAdmin(o, ras[k + 1..]);
        k := k + 1;
      }
      r := Ok(false);
    }
  }
}

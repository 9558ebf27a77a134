/**
 * The migration steps of gbra_migration_util.py: the planner's loops that
 * build its maps, and the steps that change the directory through the
 * change client (create the groups, assign the roles to them, add the
 * members, delete the assignments the groups make redundant).
 *
 * Each step is first a function of the overlay state (module ChangeClient)
 * returning the state it leaves and its result; class `MigrationUtility`
 * runs the same step as a loop over the client object, each method proved
 * to leave the client in the state the function gives.  Properties of the
 * steps are lemmas about the functions.
 */
module Migration {
  import opened Base
  import opened Directory
  import LiveClient
  import opened DryRun
  import opened ChangeClient
  import opened Planner

  const GROUP_DESCRIPTION_PREFIX: string := "Group to be assigned to RoleId-Scope "
  const DUPLICATE_USER_ASSIGNMENT_MESSAGE: string := "Unexpected duplicate role-assignments for same user to same role-scope"
  const MANY_OWNED_GROUPS_MESSAGE: string := "Unexpected >1 script created security groups"
  const DUPLICATE_ASSIGNMENT_MESSAGE: string := "Unexpected duplicate assignment of RoleId="
  const NO_GROUP_MESSAGE: string := "Expected group to exist groupEmail="

  // ---------------------------------------------------------------------
  // create_groups
  // ---------------------------------------------------------------------

  /** The description a created group carries. */
  function GroupDescription(rs: RoleScope): string {
    GROUP_DESCRIPTION_PREFIX + ScopeName(rs)
  }

  /** One role-scope of `create_groups`: its group is created unless `get_group` finds it. */
  function CreateGroupStep(o: Overlay, rs: RoleScope, customer: Customer): Effect<()> {
    var email := GroupEmail(rs, customer.customerDomain);
    match o.GetGroup(email)
    case Err(e) => Effect(o, Err(e))
    case Ok(Some(_)) => Effect(o, Ok(()))
    case Ok(None) => o.CreateGroup(customer.id, email, GroupName(rs), GroupDescription(rs))
  }

  /** Creates, key by key, the group of each role-scope that `get_group` does not find. */
  function CreateGroupsFrom(o: Overlay, keys: seq<Bucket<RoleScope>>, customer: Customer): Effect<()>
    decreases |keys|
  {
    if keys == [] then Effect(o, Ok(()))
    else
      var e := CreateGroupStep(o, keys[0].key, customer);
      if e.result.Err? then e else CreateGroupsFrom(e.state, keys[1..], customer)
  }

  function CreateGroups(o: Overlay, m: seq<Bucket<RoleScope>>): Effect<()> {
    CreateGroupsFrom(o, m, o.GetCustomer())
  }

  /** A group `get_group` finds stays found after a group is created. */
  lemma CreateGroupKeepsGroups(o: Overlay, customerId: string, email: string, name: string, description: string,
                               key: string)
    requires o.GetGroup(key).Ok? && o.GetGroup(key).value.Some?
    ensures o.CreateGroup(customerId, email, name, description).state.GetGroup(key).Ok?
    ensures o.CreateGroup(customerId, email, name, description).state.GetGroup(key).value.Some?
    ensures o.CreateGroup(customerId, email, name, description).state.GetCustomer() == o.GetCustomer()
  {
    var o' := o.CreateGroup(customerId, email, name, description).state;
    if !o.DryRun() {
      var live := LiveClient.GetGroup(o.remote, key).value;
      if live.Some? {
        assert live.value in o.remote.groups;
        assert forall g | g in o.remote.groups :: g in o'.remote.groups;
      }
    }
  }

  /** Groups found before the loop are found after it, whatever it ends with. */
  lemma {:induction false} CreateGroupsFromKeepsGroups(o: Overlay, keys: seq<Bucket<RoleScope>>, customer: Customer,
                                                       key: string)
    requires o.GetGroup(key).Ok? && o.GetGroup(key).value.Some?
    ensures CreateGroupsFrom(o, keys, customer).state.GetGroup(key).Ok?
    ensures CreateGroupsFrom(o, keys, customer).state.GetGroup(key).value.Some?
    ensures CreateGroupsFrom(o, keys, customer).state.GetCustomer() == o.GetCustomer()
    decreases |keys|
  {
    if keys != [] {
      var rs := keys[0].key;
      var email := GroupEmail(rs, customer.customerDomain);
      if o.GetGroup(email) == Ok(None) {
        var c := o.CreateGroup(customer.id, email, GroupName(rs), GroupDescription(rs));
        CreateGroupKeepsGroups(o, customer.id, email, GroupName(rs), GroupDescription(rs), key);
        if c.result.Ok? {
          CreateGroupsFromKeepsGroups(c.state, keys[1..], customer, key);
        }
      } else if o.GetGroup(email).Ok? {
        CreateGroupsFromKeepsGroups(o, keys[1..], customer, key);
      }
    }
  }

  /** When the loop ends normally, the group of every role-scope it was given exists. */
  lemma {:induction false} CreateGroupsFromMakesGroups(o: Overlay, keys: seq<Bucket<RoleScope>>, customer: Customer)
    requires CreateGroupsFrom(o, keys, customer).result.Ok?
    ensures forall b | b in keys ::
      && CreateGroupsFrom(o, keys, customer).state.GetGroup(GroupEmail(b.key, customer.customerDomain)).Ok?
      && CreateGroupsFrom(o, keys, customer).state.GetGroup(GroupEmail(b.key, customer.customerDomain)).value.Some?
    decreases |keys|
  {
    if keys != [] {
      var rs := keys[0].key;
      var email := GroupEmail(rs, customer.customerDomain);
      var next := if o.GetGroup(email) == Ok(None)
        then o.CreateGroup(customer.id, email, GroupName(rs), GroupDescription(rs)).state
        else o;
      if o.GetGroup(email) == Ok(None) {
        CreateThenGetGroup(o, customer.id, email, GroupName(rs), GroupDescription(rs));
      }
      assert CreateGroupsFrom(o, keys, customer) == CreateGroupsFrom(next, keys[1..], customer);
      CreateGroupsFromMakesGroups(next, keys[1..], customer);
      CreateGroupsFromKeepsGroups(next, keys[1..], customer, email);
      forall b | b in keys
        ensures CreateGroupsFrom(next, keys[1..], customer).state.GetGroup(GroupEmail(b.key, customer.customerDomain)).Ok?
        ensures CreateGroupsFrom(next, keys[1..], customer).state.GetGroup(GroupEmail(b.key, customer.customerDomain)).value.Some?
      {
        if b != keys[0] {
          assert b in keys[1..];
        }
      }
    }
  }

  /** When every group already exists the loop changes nothing. */
  lemma {:induction false} CreateGroupsFromNoop(o: Overlay, keys: seq<Bucket<RoleScope>>, customer: Customer)
    requires forall b | b in keys ::
      o.GetGroup(GroupEmail(b.key, customer.customerDomain)).Ok?
      && o.GetGroup(GroupEmail(b.key, customer.customerDomain)).value.Some?
    ensures CreateGroupsFrom(o, keys, customer) == Effect(o, Ok(()))
    decreases |keys|
  {
    if keys != [] {
      assert keys[0] in keys;
      CreateGroupsFromNoop(o, keys[1..], customer);
    }
  }

  /**
   * `create_groups` makes the group of every role-scope of the map, and a
   * second run over the same map creates nothing.
   */
  lemma CreateGroupsIdempotent(o: Overlay, m: seq<Bucket<RoleScope>>)
    requires CreateGroups(o, m).result.Ok?
    ensures forall b | b in m ::
      && CreateGroups(o, m).state.GetGroup(GroupEmail(b.key, o.GetCustomer().customerDomain)).Ok?
      && CreateGroups(o, m).state.GetGroup(GroupEmail(b.key, o.GetCustomer().customerDomain)).value.Some?
    ensures CreateGroups(CreateGroups(o, m).state, m) == Effect(CreateGroups(o, m).state, Ok(()))
  {
    var o' := CreateGroups(o, m).state;
    CreateGroupsFromMakesGroups(o, m, o.GetCustomer());
    CreateGroupsCustomer(o, m, o.GetCustomer());
    CreateGroupsFromNoop(o', m, o.GetCustomer());
  }

  lemma {:induction false} CreateGroupsCustomer(o: Overlay, keys: seq<Bucket<RoleScope>>, customer: Customer)
    ensures CreateGroupsFrom(o, keys, customer).state.GetCustomer() == o.GetCustomer()
    decreases |keys|
  {
    if keys != [] {
      var rs := keys[0].key;
      var email := GroupEmail(rs, customer.customerDomain);
      if o.GetGroup(email) == Ok(None) {
        var c := o.CreateGroup(customer.id, email, GroupName(rs), GroupDescription(rs));
        if c.result.Ok? {
          CreateGroupsCustomer(c.state, keys[1..], customer);
        }
      } else if o.GetGroup(email).Ok? {
        CreateGroupsCustomer(o, keys[1..], customer);
      }
    }
  }

  // ---------------------------------------------------------------------
  // make_ra_to_groups
  // ---------------------------------------------------------------------

  /** The OU a group assignment is placed in: the role-scope's own for ORG_UNIT scope, else the root OU. */
  function PlacementOu(o: Overlay, rs: RoleScope): Result<string> {
    if rs.scopeType == ORG_UNIT_SCOPE then Ok(rs.orgUnit) else o.GetRootOu()
  }

  /**
   * One role-scope of `make_ra_to_groups`, looking for the group's existing
   * assignment in the bucket by the record field `f`.
   */
  function MakeRaStep(o: Overlay, b: Bucket<RoleScope>, f: Field, domain: string): Effect<()> {
    var rs := b.key;
    var email := GroupEmail(rs, domain);
    match PlacementOu(o, rs)
    case Err(e) => Effect(o, Err(e))
    case Ok(ou) =>
      match o.GetGroup(email)
      case Err(e) => Effect(o, Err(e))
      case Ok(None) => Effect(o, Err(AssertionError(NO_GROUP_MESSAGE + email)))
      case Ok(Some(g)) =>
        var existing := Matching(f, g.id, b.ras);
        if |existing| == 1 then Effect(o, Ok(()))
        else if |existing| > 1 then
          Effect(o, Err(AssertionError(DUPLICATE_ASSIGNMENT_MESSAGE + rs.roleId + " to groupEmail=" + email)))
        else o.InsertRa(rs.roleId, email, "group", rs.scopeType, Some(ou))
  }

  function MakeRaToGroupsFrom(o: Overlay, m: seq<Bucket<RoleScope>>, f: Field, domain: string): Effect<()>
    decreases |m|
  {
    if m == [] then Effect(o, Ok(()))
    else
      var e := MakeRaStep(o, m[0], f, domain);
      if e.result.Err? then e else MakeRaToGroupsFrom(e.state, m[1..], f, domain)
  }

  /** `make_ra_to_groups` as written: it looks for the group's id under the key `assigneeId`. */
  function MakeRaToGroupsAsWritten(o: Overlay, m: seq<Bucket<RoleScope>>): Effect<()> {
    MakeRaToGroupsFrom(o, m, AssigneeId, o.GetCustomer().customerDomain)
  }

  /** `make_ra_to_groups` looking for the group's id under `assignedTo`, where assignments carry it. */
  function MakeRaToGroups(o: Overlay, m: seq<Bucket<RoleScope>>): Effect<()> {
    MakeRaToGroupsFrom(o, m, AssignedTo, o.GetCustomer().customerDomain)
  }

  /**
   * One role-scope: a missing group raises AssertionError and changes
   * nothing; a bucket holding exactly one assignment to the group is
   * skipped; more than one raises AssertionError; otherwise the role is
   * granted to the group at the role-scope's OU (the root OU outside ORG_UNIT
   * scope) through `insert_ra`, which adds nothing when a matching
   * assignment is already listed.
   */
  lemma MakeRaStepCases(o: Overlay, b: Bucket<RoleScope>, domain: string)
    requires PlacementOu(o, b.key).Ok?
    requires o.GetGroup(GroupEmail(b.key, domain)).Ok?
    ensures o.GetGroup(GroupEmail(b.key, domain)).value.None? ==>
      MakeRaStep(o, b, AssignedTo, domain).state == o
      && MakeRaStep(o, b, AssignedTo, domain).result.Err?
      && MakeRaStep(o, b, AssignedTo, domain).result.error.AssertionError?
    ensures o.GetGroup(GroupEmail(b.key, domain)).value.Some? ==>
      var id := o.GetGroup(GroupEmail(b.key, domain)).value.value.id;
      && (|Matching(AssignedTo, id, b.ras)| == 1 ==> MakeRaStep(o, b, AssignedTo, domain) == Effect(o, Ok(())))
      && (|Matching(AssignedTo, id, b.ras)| > 1 ==>
            MakeRaStep(o, b, AssignedTo, domain).state == o
            && MakeRaStep(o, b, AssignedTo, domain).result.Err?
            && MakeRaStep(o, b, AssignedTo, domain).result.error.AssertionError?)
      && (Matching(AssignedTo, id, b.ras) == [] ==>
            MakeRaStep(o, b, AssignedTo, domain)
            == o.InsertRa(b.key.roleId, GroupEmail(b.key, domain), "group", b.key.scopeType,
                          Some(if b.key.scopeType == ORG_UNIT_SCOPE then b.key.orgUnit else o.GetRootOu().value)))
  {
  }

  /**
   * As written, the duplicate check never fires: a bucket already holding
   * two assignments of the role to the group (ids "ra1" and "ra2") is sent
   * on to `insert_ra` instead of raising, while the corrected step raises.
   */
  lemma MakeRaAsWrittenMissesDuplicates(o: Overlay, rs: RoleScope, domain: string, g: Group)
    requires rs.scopeType == ORG_UNIT_SCOPE
    requires o.GetGroup(GroupEmail(rs, domain)) == Ok(Some(g)) && g.id != ""
    ensures var ra1 := RoleAssignment("ra1", rs.roleId, g.id, "group", rs.scopeType, Some(rs.orgUnit), None);
      var b := Bucket(rs, [ra1, ra1.(roleAssignmentId := "ra2")]);
      && MakeRaStep(o, b, AssigneeId, domain) == o.InsertRa(rs.roleId, GroupEmail(rs, domain), "group", rs.scopeType, Some(rs.orgUnit))
      && MakeRaStep(o, b, AssignedTo, domain).result.Err?
  {
    var ra1 := RoleAssignment("ra1", rs.roleId, g.id, "group", rs.scopeType, Some(rs.orgUnit), None);
    var b := Bucket(rs, [ra1, ra1.(roleAssignmentId := "ra2")]);
    AssigneeIdNeverMatches(g.id, b.ras);
    var ra2 := ra1.(roleAssignmentId := "ra2");
    assert b.ras[1..] == [ra2] && [ra2][1..] == [];
    assert Matching(AssignedTo, g.id, [ra2]) == [ra2] + Matching(AssignedTo, g.id, []);
    assert Matching(AssignedTo, g.id, b.ras) == [ra1] + Matching(AssignedTo, g.id, [ra2]);
  }

  /** What granting roles leaves alone: the groups, live and shadow, and the customer. */
  predicate SameGroups(o: Overlay, o': Overlay) {
    && o'.cfg == o.cfg
    && o'.remote.groups == o.remote.groups
    && o'.remote.customer == o.remote.customer
    && o'.shadow.groups == o.shadow.groups
  }

  lemma SameGroupsSameGroup(o: Overlay, o': Overlay, key: string)
    requires SameGroups(o, o')
    ensures o'.GetGroup(key) == o.GetGroup(key)
    ensures o'.GetCustomer() == o.GetCustomer()
  {
  }

  lemma InsertRaKeepsGroups(o: Overlay, roleId: string, email: string, assigneeType: string, scopeType: string,
                            orgUnit: Option<string>)
    ensures SameGroups(o, o.InsertRa(roleId, email, assigneeType, scopeType, orgUnit).state)
  {
    if assigneeType == "group" && o.GetGroup(email).Ok? && o.GetGroup(email).value.Some? {
      var ra := GroupGrant(roleId, o.GetGroup(email).value.value.id, assigneeType, scopeType, orgUnit);
      if o.GetRoleAssignment(ra) == Ok(None) {
        assert SameGroups(o, o.InsertRoleAssignment(ra).state);
      }
    }
  }

  lemma MakeRaStepKeepsGroups(o: Overlay, b: Bucket<RoleScope>, f: Field, domain: string)
    ensures SameGroups(o, MakeRaStep(o, b, f, domain).state)
  {
    var rs := b.key;
    var email := GroupEmail(rs, domain);
    var step := MakeRaStep(o, b, f, domain);
    if PlacementOu(o, rs).Ok? && o.GetGroup(email).Ok? && o.GetGroup(email).value.Some?
       && |Matching(f, o.GetGroup(email).value.value.id, b.ras)| == 0
    {
      var ou := PlacementOu(o, rs).value;
      assert step == o.InsertRa(rs.roleId, email, "group", rs.scopeType, Some(ou));
      InsertRaKeepsGroups(o, rs.roleId, email, "group", rs.scopeType, Some(ou));
    } else {
      assert step.state == o;
    }
  }

  /** `make_ra_to_groups` creates and removes no group, whatever it ends with. */
  lemma {:induction false} MakeRaToGroupsFromKeepsGroups(o: Overlay, m: seq<Bucket<RoleScope>>, f: Field, domain: string)
    ensures SameGroups(o, MakeRaToGroupsFrom(o, m, f, domain).state)
    decreases |m|
  {
    if m != [] {
      var e := MakeRaStep(o, m[0], f, domain);
      MakeRaStepKeepsGroups(o, m[0], f, domain);
      if e.result.Ok? {
        MakeRaToGroupsFromKeepsGroups(e.state, m[1..], f, domain);
      }
    }
  }

  // ---------------------------------------------------------------------
  // add_assignees_to_group_at_scope
  // ---------------------------------------------------------------------

  /** Adds the user of one user assignment to the group, unless the user is unknown or already a member. */
  function AddUser(o: Overlay, groupEmail: string, ra: RoleAssignment): Effect<()> {
    match o.GetUser(ra.assignedTo)
    case Err(e) => Effect(o, Err(e))
    case Ok(None) => Effect(o, Ok(()))
    case Ok(Some(u)) =>
      match o.GroupHasMember(groupEmail, u.primaryEmail)
      case Err(e) => Effect(o, Err(e))
      case Ok(true) => Effect(o, Ok(()))
      case Ok(false) => o.InsertMemberIntoGroup(u.primaryEmail, u.id, groupEmail)
  }

  function AddUsersFrom(o: Overlay, groupEmail: string, userRas: seq<RoleAssignment>): Effect<()>
    decreases |userRas|
  {
    if userRas == [] then Effect(o, Ok(()))
    else
      var e := AddUser(o, groupEmail, userRas[0]);
      if e.result.Err? then e else AddUsersFrom(e.state, groupEmail, userRas[1..])
  }

  /** The group an assignment is made to, when it exists and its name is one the script gives. */
  predicate OwnedGroupOf(o: Overlay, ra: RoleAssignment) {
    o.GetGroup(ra.assignedTo).Ok? && o.GetGroup(ra.assignedTo).value.Some?
    && ScriptOwnedName(o.GetGroup(ra.assignedTo).value.value.name)
  }

  /**
   * Walks the group assignments; the users are added to the first group the
   * script owns, and a second such group raises AssertionError.  `owned`
   * holds the names of the owned groups met so far.
   */
  function AddAssigneesFrom(o: Overlay, groupRas: seq<RoleAssignment>, userRas: seq<RoleAssignment>,
                            owned: seq<string>): Effect<()>
    decreases |groupRas|
  {
    if groupRas == [] then Effect(o, Ok(()))
    else
      match o.GetGroup(groupRas[0].assignedTo)
      case Err(e) => Effect(o, Err(e))
      case Ok(None) => AddAssigneesFrom(o, groupRas[1..], userRas, owned)
      case Ok(Some(g)) =>
        if !ScriptOwnedName(g.name) then AddAssigneesFrom(o, groupRas[1..], userRas, owned)
        else if |owned + [g.name]| > 1 then
          Effect(o, Err(AssertionError(MANY_OWNED_GROUPS_MESSAGE)))
        else
          var e := AddUsersFrom(o, g.email, userRas);
          if e.result.Err? then e else AddAssigneesFrom(e.state, groupRas[1..], userRas, owned + [g.name])
  }

  /**
   * One group assignment of `add_assignees_to_group_at_scope`; the result
   * is the names of the owned groups met so far, this one included.
   */
  function AddAssigneeStep(o: Overlay, ra: RoleAssignment, userRas: seq<RoleAssignment>, owned: seq<string>)
    : Effect<seq<string>>
  {
    match o.GetGroup(ra.assignedTo)
    case Err(e) => Effect(o, Err(e))
    case Ok(None) => Effect(o, Ok(owned))
    case Ok(Some(g)) =>
      if !ScriptOwnedName(g.name) then Effect(o, Ok(owned))
      else if |owned + [g.name]| > 1 then Effect(o, Err(AssertionError(MANY_OWNED_GROUPS_MESSAGE)))
      else
        var e := AddUsersFrom(o, g.email, userRas);
        Effect(e.state, if e.result.Err? then Err(e.result.error) else Ok(owned + [g.name]))
  }

  /** The walk over the group assignments, one step at a time. */
  lemma AddAssigneesFromStep(o: Overlay, groupRas: seq<RoleAssignment>, userRas: seq<RoleAssignment>,
                             owned: seq<string>)
    requires groupRas != []
    ensures var e := AddAssigneeStep(o, groupRas[0], userRas, owned);
      AddAssigneesFrom(o, groupRas, userRas, owned)
        == if e.result.Err? then Effect(e.state, Err(e.result.error))
           else AddAssigneesFrom(e.state, groupRas[1..], userRas, e.result.value)
  {
  }

  function AddAssignees(o: Overlay, ras: seq<RoleAssignment>): Effect<()> {
    AddAssigneesFrom(o, Matching(AssigneeType, "group", ras), Matching(AssigneeType, "user", ras), [])
  }

  /** What adding members leaves alone: every assignment, live or shadow, the deleted ids, the groups, the users. */
  predicate SameAssignmentsAndGroups(o: Overlay, o': Overlay) {
    && o'.cfg == o.cfg
    && o'.remote.assignments == o.remote.assignments
    && o'.remote.groups == o.remote.groups
    && o'.remote.users == o.remote.users
    && o'.remote.customer == o.remote.customer
    && o'.shadow.ras == o.shadow.ras
    && o'.shadow.deleted == o.shadow.deleted
    && o'.shadow.groups == o.shadow.groups
  }

  lemma SameGroupsSameAnswers(o: Overlay, o': Overlay, key: string)
    requires SameAssignmentsAndGroups(o, o')
    ensures o'.GetGroup(key) == o.GetGroup(key)
    ensures o'.GetUser(key) == o.GetUser(key)
  {
  }

  lemma {:induction false} AddUsersKeepsAssignments(o: Overlay, groupEmail: string, userRas: seq<RoleAssignment>)
    ensures SameAssignmentsAndGroups(o, AddUsersFrom(o, groupEmail, userRas).state)
    decreases |userRas|
  {
    if userRas != [] {
      var e := AddUser(o, groupEmail, userRas[0]);
      assert SameAssignmentsAndGroups(o, e.state);
      if e.result.Ok? {
        AddUsersKeepsAssignments(e.state, groupEmail, userRas[1..]);
      }
    }
  }

  /**
   * Adding assignees touches group memberships only: no role assignment is
   * added or removed, live or in the shadow, and no group is created.
   */
  lemma {:induction false} AddAssigneesKeepsAssignments(o: Overlay, groupRas: seq<RoleAssignment>,
                                                        userRas: seq<RoleAssignment>, owned: seq<string>)
    ensures SameAssignmentsAndGroups(o, AddAssigneesFrom(o, groupRas, userRas, owned).state)
    decreases |groupRas|
  {
    if groupRas != [] {
      match o.GetGroup(groupRas[0].assignedTo)
      case Err(_) =>
      case Ok(None) => AddAssigneesKeepsAssignments(o, groupRas[1..], userRas, owned);
      case Ok(Some(g)) =>
        if !ScriptOwnedName(g.name) {
          AddAssigneesKeepsAssignments(o, groupRas[1..], userRas, owned);
        } else if |owned + [g.name]| <= 1 {
          var e := AddUsersFrom(o, g.email, userRas);
          AddUsersKeepsAssignments(o, g.email, userRas);
          if e.result.Ok? {
            AddAssigneesKeepsAssignments(e.state, groupRas[1..], userRas, owned + [g.name]);
          }
        }
    }
  }

  /**
   * Adding one user is idempotent: once it has run, running it again
   * changes nothing, whether the user was unknown, already a member, or
   * inserted.
   */
  lemma AddUserIdempotent(o: Overlay, groupEmail: string, ra: RoleAssignment)
    requires AddUser(o, groupEmail, ra).result.Ok?
    ensures var o1 := AddUser(o, groupEmail, ra).state;
      AddUser(o1, groupEmail, ra) == Effect(o1, Ok(()))
  {
    var o1 := AddUser(o, groupEmail, ra).state;
    assert SameAssignmentsAndGroups(o, o1);
    SameGroupsSameAnswers(o, o1, ra.assignedTo);
    match o.GetUser(ra.assignedTo)
    case Err(_) =>
    case Ok(None) =>
    case Ok(Some(u)) =>
      if o.GroupHasMember(groupEmail, u.primaryEmail) == Ok(false) {
        InsertMemberIdempotent(o, u.primaryEmail, u.id, groupEmail);
      }
  }

  /**
   * A scope none of whose group assignments names an existing group with a
   * script-given name is left unchanged.
   */
  lemma {:induction false} AddAssigneesSkipsUserDefined(o: Overlay, groupRas: seq<RoleAssignment>,
                                                        userRas: seq<RoleAssignment>, owned: seq<string>)
    requires forall x | x in groupRas :: o.GetGroup(x.assignedTo).Ok? && !OwnedGroupOf(o, x)
    ensures AddAssigneesFrom(o, groupRas, userRas, owned) == Effect(o, Ok(()))
    decreases |groupRas|
  {
    if groupRas != [] {
      assert groupRas[0] in groupRas;
      AddAssigneesSkipsUserDefined(o, groupRas[1..], userRas, owned);
    }
  }

  /**
   * The walk completes only when at most one group assignment of the scope
   * names a script-owned group (at most none once one has been met).
   */
  lemma {:induction false} AddAssigneesOneOwnedGroup(o: Overlay, groupRas: seq<RoleAssignment>,
                                                     userRas: seq<RoleAssignment>, owned: seq<string>)
    requires AddAssigneesFrom(o, groupRas, userRas, owned).result.Ok?
    requires |owned| <= 1
    ensures forall i, j | 0 <= i < j < |groupRas| :: !(OwnedGroupOf(o, groupRas[i]) && OwnedGroupOf(o, groupRas[j]))
    ensures |owned| == 1 ==> forall x | x in groupRas :: !OwnedGroupOf(o, x)
    decreases |groupRas|
  {
    if groupRas != [] {
      var x := groupRas[0];
      var rest := groupRas[1..];
      var next: Overlay;
      var owned': seq<string>;
      if OwnedGroupOf(o, x) {
        var g := o.GetGroup(x.assignedTo).value.value;
        var e := AddUsersFrom(o, g.email, userRas);
        AddUsersKeepsAssignments(o, g.email, userRas);
        next, owned' := e.state, owned + [g.name];
      } else {
        next, owned' := o, owned;
      }
      assert AddAssigneesFrom(o, groupRas, userRas, owned) == AddAssigneesFrom(next, rest, userRas, owned');
      AddAssigneesOneOwnedGroup(next, rest, userRas, owned');
      forall y | y in rest ensures OwnedGroupOf(next, y) == OwnedGroupOf(o, y) {
        SameGroupsSameAnswers(o, next, y.assignedTo);
      }
      forall i, j | 0 <= i < j < |groupRas| ensures !(OwnedGroupOf(o, groupRas[i]) && OwnedGroupOf(o, groupRas[j])) {
        assert groupRas[j] == rest[j - 1] && groupRas[j] in rest;
        if i > 0 {
          assert groupRas[i] == rest[i - 1] && groupRas[i] in rest;
        }
      }
    }
  }

  /**
   * The user counts as a member of the group: `group_has_member` answers
   * True, or (live) an earlier member of the group carries the user's email
   * as its id, so that the service treats the user as present and
   * `group_has_member` stays False.
   */
  predicate Joined(o: Overlay, groupEmail: string, userEmail: string) {
    || o.GroupHasMember(groupEmail, userEmail) == Ok(true)
    || (&& !o.DryRun()
        && FindGroup(o.remote.groups, groupEmail).Some?
        && exists m | m in MembersOf(o.remote, FindGroup(o.remote.groups, groupEmail).value.email) :: m.id == userEmail)
  }

  /** Inserting a member keeps every member in place. */
  lemma InsertMemberKeepsJoined(o: Overlay, userEmail: string, userId: string, groupEmail: string)
    ensures forall g, e | Joined(o, g, e) :: Joined(o.InsertMemberIntoGroup(userEmail, userId, groupEmail).state, g, e)
  {
    var o' := o.InsertMemberIntoGroup(userEmail, userId, groupEmail).state;
    forall g, e | Joined(o, g, e)
      ensures Joined(o', g, e)
    {
      if o.DryRun() {
        assert o'.remote == o.remote;
        if o.GroupHasMember(g, e) == Ok(true) && !LiveClient.GroupHasMember(o.remote, g, e).value {
          assert ShadowHasMember(o.shadow, g, e);
          var m :| m in ShadowMembers(o.shadow, g) && m.email == e;
          assert m in ShadowMembers(o'.shadow, g);
        }
      } else if o.GroupHasMember(g, e) == Ok(true) {
        LiveClient.GroupHasMemberKept(o.remote, o'.remote, g, e);
      } else {
        var m :| m in MembersOf(o.remote, FindGroup(o.remote.groups, g).value.email) && m.id == e;
        assert m in MembersOf(o'.remote, FindGroup(o'.remote.groups, g).value.email);
      }
    }
  }

  /**
   * Adding the user of one assignment makes the user, when known, a member
   * of the group, and keeps every member in place.
   */
  lemma AddUserJoins(o: Overlay, groupEmail: string, ra: RoleAssignment)
    requires AddUser(o, groupEmail, ra).result.Ok?
    ensures o.GetUser(ra.assignedTo).Ok? && o.GetUser(ra.assignedTo).value.Some? ==>
      Joined(AddUser(o, groupEmail, ra).state, groupEmail, o.GetUser(ra.assignedTo).value.value.primaryEmail)
    ensures forall g, e | Joined(o, g, e) :: Joined(AddUser(o, groupEmail, ra).state, g, e)
  {
    match o.GetUser(ra.assignedTo)
    case Err(_) =>
    case Ok(None) =>
    case Ok(Some(u)) =>
      if o.GroupHasMember(groupEmail, u.primaryEmail) == Ok(false) {
        InsertMemberKeepsJoined(o, u.primaryEmail, u.id, groupEmail);
        var o' := o.InsertMemberIntoGroup(u.primaryEmail, u.id, groupEmail).state;
        if o.DryRun() {
          InsertMemberAppends(o.shadow, u.primaryEmail, u.id, groupEmail, groupEmail);
          assert Member(u.primaryEmail, u.id) in ShadowMembers(o'.shadow, groupEmail);
        } else {
          LiveClient.InsertMemberJoins(o.remote, o.cfg, u.primaryEmail, u.id, groupEmail);
        }
      }
  }

  lemma {:induction false} AddUsersFromJoins(o: Overlay, groupEmail: string, userRas: seq<RoleAssignment>)
    requires AddUsersFrom(o, groupEmail, userRas).result.Ok?
    ensures forall y | y in userRas && o.GetUser(y.assignedTo).Ok? && o.GetUser(y.assignedTo).value.Some? ::
      Joined(AddUsersFrom(o, groupEmail, userRas).state, groupEmail, o.GetUser(y.assignedTo).value.value.primaryEmail)
    ensures forall g, e | Joined(o, g, e) :: Joined(AddUsersFrom(o, groupEmail, userRas).state, g, e)
    decreases |userRas|
  {
    if userRas != [] {
      var e := AddUser(o, groupEmail, userRas[0]);
      AddUserJoins(o, groupEmail, userRas[0]);
      AddUsersFromJoins(e.state, groupEmail, userRas[1..]);
      assert SameAssignmentsAndGroups(o, e.state);
      forall y | y in userRas[1..]
        ensures o.GetUser(y.assignedTo) == e.state.GetUser(y.assignedTo)
      {
        SameGroupsSameAnswers(o, e.state, y.assignedTo);
      }
    }
  }

  lemma {:induction false} AddAssigneesFromJoins(o: Overlay, groupRas: seq<RoleAssignment>,
                                                 userRas: seq<RoleAssignment>, owned: seq<string>)
    requires AddAssigneesFrom(o, groupRas, userRas, owned).result.Ok?
    ensures forall x, y | x in groupRas && OwnedGroupOf(o, x)
                         && y in userRas && o.GetUser(y.assignedTo).Ok? && o.GetUser(y.assignedTo).value.Some? ::
      Joined(AddAssigneesFrom(o, groupRas, userRas, owned).state,
             o.GetGroup(x.assignedTo).value.value.email, o.GetUser(y.assignedTo).value.value.primaryEmail)
    ensures forall g, e | Joined(o, g, e) :: Joined(AddAssigneesFrom(o, groupRas, userRas, owned).state, g, e)
    decreases |groupRas|
  {
    if groupRas != [] {
      var x0 := groupRas[0];
      var rest := groupRas[1..];
      var next: Overlay;
      var owned': seq<string>;
      if OwnedGroupOf(o, x0) {
        var g := o.GetGroup(x0.assignedTo).value.value;
        var e := AddUsersFrom(o, g.email, userRas);
        AddUsersKeepsAssignments(o, g.email, userRas);
        AddUsersFromJoins(o, g.email, userRas);
        next, owned' := e.state, owned + [g.name];
      } else {
        next, owned' := o, owned;
      }
      assert AddAssigneesFrom(o, groupRas, userRas, owned) == AddAssigneesFrom(next, rest, userRas, owned');
      AddAssigneesFromJoins(next, rest, userRas, owned');
      var f := AddAssigneesFrom(next, rest, userRas, owned');
      forall x, y | x in groupRas && OwnedGroupOf(o, x)
                    && y in userRas && o.GetUser(y.assignedTo).Ok? && o.GetUser(y.assignedTo).value.Some?
        ensures Joined(f.state, o.GetGroup(x.assignedTo).value.value.email, o.GetUser(y.assignedTo).value.value.primaryEmail)
      {
        SameGroupsSameAnswers(o, next, x.assignedTo);
        SameGroupsSameAnswers(o, next, y.assignedTo);
        if x != x0 {
          assert x in rest;
        }
      }
    }
  }

  /**
   * `add_assignees_to_group_at_scope` is complete: when it succeeds, every
   * user of the scope's user assignments that `get_user` finds is a member
   * of the script-owned group the scope's group assignments name.
   */
  lemma AddAssigneesMakesMembers(o: Overlay, ras: seq<RoleAssignment>)
    requires AddAssignees(o, ras).result.Ok?
    ensures forall x, y | x in ras && ValueMatches(x.assigneeType, "group") && OwnedGroupOf(o, x)
                         && y in ras && ValueMatches(y.assigneeType, "user")
                         && o.GetUser(y.assignedTo).Ok? && o.GetUser(y.assignedTo).value.Some? ::
      Joined(AddAssignees(o, ras).state,
             o.GetGroup(x.assignedTo).value.value.email, o.GetUser(y.assignedTo).value.value.primaryEmail)
  {
    AddAssigneesFromJoins(o, Matching(AssigneeType, "group", ras), Matching(AssigneeType, "user", ras), []);
  }

  lemma {:induction false} AddUsersUnknownChangeNothing(o: Overlay, groupEmail: string, userRas: seq<RoleAssignment>)
    requires forall y | y in userRas :: o.GetUser(y.assignedTo) == Ok(None)
    ensures AddUsersFrom(o, groupEmail, userRas) == Effect(o, Ok(()))
    decreases |userRas|
  {
    if userRas != [] {
      assert userRas[0] in userRas;
      assert forall y | y in userRas[1..] :: y in userRas;
      AddUsersUnknownChangeNothing(o, groupEmail, userRas[1..]);
    }
  }

  lemma {:induction false} AddAssigneesFromUnknownChangeNothing(o: Overlay, groupRas: seq<RoleAssignment>,
                                                                userRas: seq<RoleAssignment>, owned: seq<string>)
    requires forall y | y in userRas :: o.GetUser(y.assignedTo) == Ok(None)
    ensures AddAssigneesFrom(o, groupRas, userRas, owned).state == o
    decreases |groupRas|
  {
    if groupRas != [] {
      match o.GetGroup(groupRas[0].assignedTo)
      case Err(_) =>
      case Ok(None) => AddAssigneesFromUnknownChangeNothing(o, groupRas[1..], userRas, owned);
      case Ok(Some(g)) =>
        if !ScriptOwnedName(g.name) {
          AddAssigneesFromUnknownChangeNothing(o, groupRas[1..], userRas, owned);
        } else if |owned + [g.name]| <= 1 {
          AddUsersUnknownChangeNothing(o, g.email, userRas);
          AddAssigneesFromUnknownChangeNothing(o, groupRas[1..], userRas, owned + [g.name]);
        }
    }
  }

  /**
   * Users `get_user` cannot find are skipped: when no user assignment of the
   * scope resolves to a user, adding assignees leaves the state as it was.
   */
  lemma AddAssigneesUnknownChangeNothing(o: Overlay, ras: seq<RoleAssignment>)
    requires forall y | y in ras && ValueMatches(y.assigneeType, "user") :: o.GetUser(y.assignedTo) == Ok(None)
    ensures AddAssignees(o, ras).state == o
  {
    AddAssigneesFromUnknownChangeNothing(o, Matching(AssigneeType, "group", ras), Matching(AssigneeType, "user", ras), []);
  }

  // ---------------------------------------------------------------------
  // cleanup_role_assignments
  // ---------------------------------------------------------------------

  /**
   * One member of a script-owned group: its one user assignment of the
   * role-scope is deleted.  The result lists the id asked to be deleted,
   * if any.
   */
  function CleanupMember(o: Overlay, member: Member, userRas: seq<RoleAssignment>): Effect<seq<string>> {
    var toDelete := Matching(AssignedTo, member.id, userRas);
    if toDelete == [] then Effect(o, Ok([]))
    else if |toDelete| > 1 then
      Effect(o, Err(AssertionError(DUPLICATE_USER_ASSIGNMENT_MESSAGE)))
    else
      var d := o.DeleteRoleAssignment(toDelete[0].roleAssignmentId);
      if d.result.Err? then Effect(d.state, Err(d.result.error))
      else Effect(d.state, Ok([toDelete[0].roleAssignmentId]))
  }

  /** The members of a group one by one; the ids asked to be deleted are appended to `log`. */
  function CleanupMembers(o: Overlay, members: seq<Member>, userRas: seq<RoleAssignment>, log: seq<string>)
    : Effect<seq<string>>
    decreases |members|
  {
    if members == [] then Effect(o, Ok(log))
    else
      var e := CleanupMember(o, members[0], userRas);
      if e.result.Err? then e else CleanupMembers(e.state, members[1..], userRas, log + e.result.value)
  }

  /**
   * One group assignment of the role-scope: when its group exists and is
   * script-owned, the group's members are cleaned up.
   */
  function CleanupGroup(o: Overlay, groupRa: RoleAssignment, userRas: seq<RoleAssignment>, log: seq<string>)
    : Effect<seq<string>>
  {
    match o.GetGroup(groupRa.assignedTo)
    case Err(e) => Effect(o, Err(e))
    case Ok(None) => Effect(o, Ok(log))
    case Ok(Some(g)) =>
      if !ScriptOwnedName(g.name) then Effect(o, Ok(log))
      else
        match o.GetGroupMembers(g.email)
        case Err(e) => Effect(o, Err(e))
        case Ok(members) => CleanupMembers(o, members, userRas, log)
  }

  function CleanupGroups(o: Overlay, groupRas: seq<RoleAssignment>, userRas: seq<RoleAssignment>, log: seq<string>)
    : Effect<seq<string>>
    decreases |groupRas|
  {
    if groupRas == [] then Effect(o, Ok(log))
    else
      var c := CleanupGroup(o, groupRas[0], userRas, log);
      if c.result.Err? then c else CleanupGroups(c.state, groupRas[1..], userRas, c.result.value)
  }

  function Cleanup(o: Overlay, ras: seq<RoleAssignment>): Effect<seq<string>> {
    CleanupGroups(o, Matching(AssigneeType, "group", ras), Matching(AssigneeType, "user", ras), [])
  }

  /** The ids logged are those logged before and ids of the given user assignments. */
  predicate LoggedFrom(log: seq<string>, log': seq<string>, userRas: seq<RoleAssignment>) {
    forall id | id in log' :: id in log || exists x | x in userRas :: x.roleAssignmentId == id
  }

  lemma {:induction false} CleanupMembersDeletesUserRecords(o: Overlay, members: seq<Member>,
                                                            userRas: seq<RoleAssignment>, log: seq<string>)
    requires CleanupMembers(o, members, userRas, log).result.Ok?
    ensures LoggedFrom(log, CleanupMembers(o, members, userRas, log).result.value, userRas)
    decreases |members|
  {
    if members != [] {
      var e := CleanupMember(o, members[0], userRas);
      var toDelete := Matching(AssignedTo, members[0].id, userRas);
      if toDelete != [] {
        assert toDelete[0] in userRas;
      }
      CleanupMembersDeletesUserRecords(e.state, members[1..], userRas, log + e.result.value);
    }
  }

  lemma CleanupGroupDeletesUserRecords(o: Overlay, groupRa: RoleAssignment, userRas: seq<RoleAssignment>,
                                       log: seq<string>)
    requires CleanupGroup(o, groupRa, userRas, log).result.Ok?
    ensures LoggedFrom(log, CleanupGroup(o, groupRa, userRas, log).result.value, userRas)
  {
    match o.GetGroup(groupRa.assignedTo)
    case Err(_) =>
    case Ok(None) =>
    case Ok(Some(g)) =>
      if ScriptOwnedName(g.name) {
        CleanupMembersDeletesUserRecords(o, o.GetGroupMembers(g.email).value, userRas, log);
      }
  }

  lemma {:induction false} CleanupGroupsDeletesUserRecords(o: Overlay, groupRas: seq<RoleAssignment>,
                                                           userRas: seq<RoleAssignment>, log: seq<string>)
    requires CleanupGroups(o, groupRas, userRas, log).result.Ok?
    ensures LoggedFrom(log, CleanupGroups(o, groupRas, userRas, log).result.value, userRas)
    decreases |groupRas|
  {
    if groupRas != [] {
      var c := CleanupGroup(o, groupRas[0], userRas, log);
      CleanupGroupDeletesUserRecords(o, groupRas[0], userRas, log);
      CleanupGroupsDeletesUserRecords(c.state, groupRas[1..], userRas, c.result.value);
    }
  }

  /**
   * Cleanup deletes user assignments only: every id it deletes is the id of
   * an assignment of the role-scope whose assignee type is "user" (or
   * lower-cases to it), never that of a group assignment.
   */
  lemma CleanupDeletesOnlyUserRecords(o: Overlay, ras: seq<RoleAssignment>)
    requires Cleanup(o, ras).result.Ok?
    ensures forall id | id in Cleanup(o, ras).result.value ::
      exists x | x in ras :: x.roleAssignmentId == id && ValueMatches(x.assigneeType, "user")
  {
    var userRas := Matching(AssigneeType, "user", ras);
    CleanupGroupsDeletesUserRecords(o, Matching(AssigneeType, "group", ras), userRas, []);
  }

  /** A scope whose group assignments name no existing script-owned group is left as it is. */
  lemma {:induction false} CleanupSkipsUserDefinedGroups(o: Overlay, groupRas: seq<RoleAssignment>,
                                                         userRas: seq<RoleAssignment>, log: seq<string>)
    requires forall x | x in groupRas :: o.GetGroup(x.assignedTo).Ok? && !OwnedGroupOf(o, x)
    ensures CleanupGroups(o, groupRas, userRas, log) == Effect(o, Ok(log))
    decreases |groupRas|
  {
    if groupRas != [] {
      assert groupRas[0] in groupRas;
      CleanupSkipsUserDefinedGroups(o, groupRas[1..], userRas, log);
    }
  }

  /**
   * The deletion of `id` has taken effect: in a dry run the shadow records
   * it; live, no assignment carries the id any more, unless the service
   * refused to let the caller revoke its own assignment.
   */
  predicate Deleted(o: Overlay, id: string) {
    if o.DryRun() then id in o.shadow.deleted
    else id in o.remote.selfRevoke || forall x | x in o.remote.assignments :: x.roleAssignmentId != id
  }

  /** What deleting assignments leaves alone: the groups and their members, live and shadow. */
  predicate SameMembership(o: Overlay, o': Overlay) {
    && SameGroups(o, o')
    && o'.remote.members == o.remote.members
    && o'.shadow.groupToMembers == o.shadow.groupToMembers
  }

  lemma SameMembershipSameAnswers(o: Overlay, o': Overlay, key: string)
    requires SameMembership(o, o')
    ensures o'.GetGroup(key) == o.GetGroup(key)
    ensures o'.GetGroupMembers(key) == o.GetGroupMembers(key)
  {
  }

  /**
   * A successful delete takes effect, keeps every earlier deletion in
   * effect, and changes no group or membership.
   */
  lemma DeleteTakesEffect(o: Overlay, id: string)
    requires o.DeleteRoleAssignment(id).result.Ok?
    ensures Deleted(o.DeleteRoleAssignment(id).state, id)
    ensures forall id' | Deleted(o, id') :: Deleted(o.DeleteRoleAssignment(id).state, id')
    ensures SameMembership(o, o.DeleteRoleAssignment(id).state)
  {
  }

  /**
   * A deletion in effect hides the assignment: the unfiltered listing no
   * longer returns it, save for the live self-revoke refusal.
   */
  lemma DeletedIsNotListed(o: Overlay, id: string)
    requires Deleted(o, id)
    requires !o.DryRun() ==> id !in o.remote.selfRevoke
    ensures o.ListRoleAssignments(None, None).Ok?
    ensures forall x | x in o.ListRoleAssignments(None, None).value :: x.roleAssignmentId != id
  {
    if o.DryRun() {
      DryRunListingHidesDeleted(o, None, None);
    }
  }

  /**
   * `cleanup_role_assignments` member by member: no user assignment of the
   * member means nothing to do, two or more raise AssertionError, and
   * exactly one is deleted (which a dry run or a live client always
   * accepts) and its id reported.
   */
  lemma CleanupMemberCases(o: Overlay, member: Member, userRas: seq<RoleAssignment>)
    ensures var toDelete := Matching(AssignedTo, member.id, userRas);
      && (toDelete == [] ==> CleanupMember(o, member, userRas) == Effect(o, Ok([])))
      && (|toDelete| > 1 ==>
            CleanupMember(o, member, userRas) == Effect(o, Err(AssertionError(DUPLICATE_USER_ASSIGNMENT_MESSAGE))))
      && (|toDelete| == 1 ==>
            && CleanupMember(o, member, userRas).result == Ok([toDelete[0].roleAssignmentId])
            && Deleted(CleanupMember(o, member, userRas).state, toDelete[0].roleAssignmentId))
    ensures CleanupMember(o, member, userRas).result.Ok? ==>
      && SameMembership(o, CleanupMember(o, member, userRas).state)
      && forall id | Deleted(o, id) :: Deleted(CleanupMember(o, member, userRas).state, id)
  {
    var toDelete := Matching(AssignedTo, member.id, userRas);
    if |toDelete| == 1 {
      DeleteTakesEffect(o, toDelete[0].roleAssignmentId);
    }
  }

  /**
   * A member is cleaned up in `o'` with report `out`: it had at most one
   * user assignment in the role-scope, and that one is reported and its
   * deletion in effect.
   */
  predicate MemberCleaned(o': Overlay, out: seq<string>, m: Member, userRas: seq<RoleAssignment>) {
    var toDelete := Matching(AssignedTo, m.id, userRas);
    |toDelete| <= 1
    && (|toDelete| == 1 ==> toDelete[0].roleAssignmentId in out && Deleted(o', toDelete[0].roleAssignmentId))
  }

  /** Later deletions and a longer report keep a member cleaned up. */
  lemma MemberCleanedPersists(o1: Overlay, out1: seq<string>, o2: Overlay, out2: seq<string>,
                              m: Member, userRas: seq<RoleAssignment>)
    requires MemberCleaned(o1, out1, m, userRas)
    requires forall id | Deleted(o1, id) :: Deleted(o2, id)
    requires forall id | id in out1 :: id in out2
    ensures MemberCleaned(o2, out2, m, userRas)
  {
  }

  lemma {:induction false} CleanupMembersComplete(o: Overlay, members: seq<Member>, userRas: seq<RoleAssignment>,
                                                  log: seq<string>)
    requires CleanupMembers(o, members, userRas, log).result.Ok?
    ensures var e := CleanupMembers(o, members, userRas, log);
      && SameMembership(o, e.state)
      && (forall id | Deleted(o, id) :: Deleted(e.state, id))
      && (forall id | id in log :: id in e.result.value)
      && forall m | m in members :: MemberCleaned(e.state, e.result.value, m, userRas)
    decreases |members|
  {
    if members != [] {
      var e := CleanupMember(o, members[0], userRas);
      CleanupMemberCases(o, members[0], userRas);
      var log' := log + e.result.value;
      CleanupMembersComplete(e.state, members[1..], userRas, log');
      var f := CleanupMembers(e.state, members[1..], userRas, log');
      assert MemberCleaned(e.state, log', members[0], userRas);
      MemberCleanedPersists(e.state, log', f.state, f.result.value, members[0], userRas);
      forall m | m in members
        ensures MemberCleaned(f.state, f.result.value, m, userRas)
      {
        if m != members[0] {
          assert m in members[1..];
        }
      }
    }
  }

  /**
   * A group assignment is cleaned up in `o'`, judged by the group and
   * members `o` answers: when it names a script-owned group, every member
   * of that group is cleaned up.
   */
  predicate GroupCleaned(o: Overlay, o': Overlay, out: seq<string>, groupRa: RoleAssignment,
                         userRas: seq<RoleAssignment>)
  {
    OwnedGroupOf(o, groupRa) ==>
      var members := o.GetGroupMembers(o.GetGroup(groupRa.assignedTo).value.value.email);
      members.Ok? && forall m | m in members.value :: MemberCleaned(o', out, m, userRas)
  }

  lemma CleanupGroupComplete(o: Overlay, groupRa: RoleAssignment, userRas: seq<RoleAssignment>, log: seq<string>)
    requires CleanupGroup(o, groupRa, userRas, log).result.Ok?
    ensures var c := CleanupGroup(o, groupRa, userRas, log);
      && SameMembership(o, c.state)
      && (forall id | Deleted(o, id) :: Deleted(c.state, id))
      && (forall id | id in log :: id in c.result.value)
      && GroupCleaned(o, c.state, c.result.value, groupRa, userRas)
  {
    match o.GetGroup(groupRa.assignedTo)
    case Err(_) =>
    case Ok(None) =>
    case Ok(Some(g)) =>
      if ScriptOwnedName(g.name) {
        CleanupMembersComplete(o, o.GetGroupMembers(g.email).value, userRas, log);
      }
  }

  /** A group assignment cleaned up stays so through later deletions and a longer report. */
  lemma GroupCleanedPersists(o: Overlay, o1: Overlay, out1: seq<string>, o2: Overlay, out2: seq<string>,
                             groupRa: RoleAssignment, userRas: seq<RoleAssignment>)
    requires GroupCleaned(o, o1, out1, groupRa, userRas)
    requires forall id | Deleted(o1, id) :: Deleted(o2, id)
    requires forall id | id in out1 :: id in out2
    ensures GroupCleaned(o, o2, out2, groupRa, userRas)
  {
    if OwnedGroupOf(o, groupRa) {
      var members := o.GetGroupMembers(o.GetGroup(groupRa.assignedTo).value.value.email);
      forall m | m in members.value
        ensures MemberCleaned(o2, out2, m, userRas)
      {
        MemberCleanedPersists(o1, out1, o2, out2, m, userRas);
      }
    }
  }

  /** Whether a group assignment is cleaned up depends on the groups and members only. */
  lemma GroupCleanedSameMembership(o: Overlay, o1: Overlay, o': Overlay, out: seq<string>, groupRa: RoleAssignment,
                                   userRas: seq<RoleAssignment>)
    requires SameMembership(o, o1)
    requires GroupCleaned(o1, o', out, groupRa, userRas)
    ensures GroupCleaned(o, o', out, groupRa, userRas)
  {
    SameMembershipSameAnswers(o, o1, groupRa.assignedTo);
    if OwnedGroupOf(o, groupRa) {
      SameMembershipSameAnswers(o, o1, o.GetGroup(groupRa.assignedTo).value.value.email);
    }
  }

  lemma {:induction false} CleanupGroupsComplete(o: Overlay, groupRas: seq<RoleAssignment>,
                                                 userRas: seq<RoleAssignment>, log: seq<string>)
    requires CleanupGroups(o, groupRas, userRas, log).result.Ok?
    ensures var e := CleanupGroups(o, groupRas, userRas, log);
      && SameMembership(o, e.state)
      && (forall id | Deleted(o, id) :: Deleted(e.state, id))
      && (forall id | id in log :: id in e.result.value)
      && forall x | x in groupRas :: GroupCleaned(o, e.state, e.result.value, x, userRas)
    decreases |groupRas|
  {
    if groupRas != [] {
      var c := CleanupGroup(o, groupRas[0], userRas, log);
      CleanupGroupComplete(o, groupRas[0], userRas, log);
      CleanupGroupsComplete(c.state, groupRas[1..], userRas, c.result.value);
      var e := CleanupGroups(c.state, groupRas[1..], userRas, c.result.value);
      GroupCleanedPersists(o, c.state, c.result.value, e.state, e.result.value, groupRas[0], userRas);
      forall x | x in groupRas
        ensures GroupCleaned(o, e.state, e.result.value, x, userRas)
      {
        if x != groupRas[0] {
          assert x in groupRas[1..];
          GroupCleanedSameMembership(o, c.state, e.state, e.result.value, x, userRas);
        }
      }
    }
  }

  /**
   * Cleanup is complete: for every group assignment of the role-scope that
   * names a script-owned group, each member of the group has at most one
   * user assignment in the role-scope, and that one is reported and its
   * deletion in effect.  Groups and memberships are left as they were.
   */
  lemma CleanupComplete(o: Overlay, ras: seq<RoleAssignment>)
    requires Cleanup(o, ras).result.Ok?
    ensures SameMembership(o, Cleanup(o, ras).state)
    ensures forall id | Deleted(o, id) :: Deleted(Cleanup(o, ras).state, id)
    ensures forall x | x in ras && ValueMatches(x.assigneeType, "group") ::
      GroupCleaned(o, Cleanup(o, ras).state, Cleanup(o, ras).result.value, x, Matching(AssigneeType, "user", ras))
  {
    CleanupGroupsComplete(o, Matching(AssigneeType, "group", ras), Matching(AssigneeType, "user", ras), []);
  }

  // ---------------------------------------------------------------------
  // _delete_dup_ra_to_sa_user, delete_dup_ra_to_sas
  // ---------------------------------------------------------------------

  predicate HasKey<K(==)>(bs: seq<Bucket<K>>, k: K) {
    exists b | b in bs :: b.key == k
  }

  /**
   * Deletes, one by one, the listed assignments of a super-admin that lie
   * in an over-limit scope and are not of the super-admin role; the result
   * lists the ids whose deletion the client reported done.
   */
  function SaUserLoop(o: Overlay, ras: seq<RoleAssignment>, exceeding: seq<Bucket<string>>, saUserKey: string,
                      saRoleId: string, log: seq<string>): Effect<seq<string>>
    decreases |ras|
  {
    if ras == [] then Effect(o, Ok(log))
    else
      var ra := ras[0];
      if !HasKey(exceeding, ScopeNameForRa(ra)) || ra.roleId == saRoleId then
        SaUserLoop(o, ras[1..], exceeding, saUserKey, saRoleId, log)
      else
        var d := o.DeleteRoleAssignment(ra.roleAssignmentId);
        match d.result
        case Err(e) => Effect(d.state, Err(e))
        case Ok(false) => SaUserLoop(d.state, ras[1..], exceeding, saUserKey, saRoleId, log)
        case Ok(true) =>
          // the role and the user are fetched for the log line; a user not found raises
          match d.state.GetRole(ra.roleId)
          case Err(e) => Effect(d.state, Err(e))
          case Ok(_) =>
            match d.state.GetUser(saUserKey)
            case Err(e) => Effect(d.state, Err(e))
            case Ok(None) => Effect(d.state, Err(TypeError(NONE_SUBSCRIPT_MESSAGE)))
            case Ok(Some(_)) =>
              SaUserLoop(d.state, ras[1..], exceeding, saUserKey, saRoleId, log + [ra.roleAssignmentId])
  }

  /** The user's assignments and the over-limit scopes are both read once, before any deletion. */
  function DeleteDupRaToSaUser(o: Overlay, saUserKey: string, saRoleId: string, raLimit: int): Effect<seq<string>> {
    match o.ListRoleAssignments(None, Some(saUserKey))
    case Err(e) => Effect(o, Err(e))
    case Ok(all) =>
      match ScopeMap(o, raLimit, true, false)
      case Err(e) => Effect(o, Err(e))
      case Ok(exceeding) => SaUserLoop(o, all, exceeding, saUserKey, saRoleId, [])
  }

  lemma {:induction false} SaUserLoopDeletes(o: Overlay, ras: seq<RoleAssignment>, exceeding: seq<Bucket<string>>,
                                             saUserKey: string, saRoleId: string, log: seq<string>)
    requires SaUserLoop(o, ras, exceeding, saUserKey, saRoleId, log).result.Ok?
    ensures forall id | id in SaUserLoop(o, ras, exceeding, saUserKey, saRoleId, log).result.value ::
      id in log
      || exists x | x in ras :: x.roleAssignmentId == id && x.roleId != saRoleId && HasKey(exceeding, ScopeNameForRa(x))
    decreases |ras|
  {
    if ras != [] {
      var ra := ras[0];
      assert ra in ras;
      if !HasKey(exceeding, ScopeNameForRa(ra)) || ra.roleId == saRoleId {
        SaUserLoopDeletes(o, ras[1..], exceeding, saUserKey, saRoleId, log);
      } else {
        var d := o.DeleteRoleAssignment(ra.roleAssignmentId);
        if d.result == Ok(false) {
          SaUserLoopDeletes(d.state, ras[1..], exceeding, saUserKey, saRoleId, log);
        } else if d.result == Ok(true) {
          SaUserLoopDeletes(d.state, ras[1..], exceeding, saUserKey, saRoleId, log + [ra.roleAssignmentId]);
        }
      }
    }
  }

  /**
   * The super-admin pass deletes only assignments of the super-admin user
   * that are not of the super-admin role and lie in a scope holding more
   * than the limit, as both were listed before the pass began.
   */
  lemma SaUserDeletesOnlyDuplicates(o: Overlay, saUserKey: string, saRoleId: string, raLimit: int)
    requires DeleteDupRaToSaUser(o, saUserKey, saRoleId, raLimit).result.Ok?
    ensures o.ListRoleAssignments(None, Some(saUserKey)).Ok?
    ensures forall id | id in DeleteDupRaToSaUser(o, saUserKey, saRoleId, raLimit).result.value ::
      exists x | x in o.ListRoleAssignments(None, Some(saUserKey)).value ::
        && x.roleAssignmentId == id
        && x.roleId != saRoleId
        && exists b | b in ScopeMap(o, raLimit, true, false).value :: b.key == ScopeNameForRa(x) && |b.ras| > raLimit
  {
    var all := o.ListRoleAssignments(None, Some(saUserKey)).value;
    var exceeding := ScopeMap(o, raLimit, true, false).value;
    ScopeMapSpec(o, raLimit, true, false);
    SaUserLoopDeletes(o, all, exceeding, saUserKey, saRoleId, []);
  }

  function SaAssignmentsLoop(o: Overlay, sas: seq<RoleAssignment>, saRoleId: string, raLimit: int, log: seq<string>)
    : Effect<seq<string>>
    decreases |sas|
  {
    if sas == [] then Effect(o, Ok(log))
    else
      var e := DeleteDupRaToSaUser(o, sas[0].assignedTo, saRoleId, raLimit);
      if e.result.Err? then e else SaAssignmentsLoop(e.state, sas[1..], saRoleId, raLimit, log + e.result.value)
  }

  function SaRolesLoop(o: Overlay, roles: seq<Role>, raLimit: int, log: seq<string>): Effect<seq<string>>
    decreases |roles|
  {
    if roles == [] then Effect(o, Ok(log))
    else if !roles[0].isSuperAdminRole then SaRolesLoop(o, roles[1..], raLimit, log)
    else
      match o.ListRoleAssignments(Some(roles[0].roleId), None)
      case Err(e) => Effect(o, Err(e))
      case Ok(sas) =>
        var e := SaAssignmentsLoop(o, sas, roles[0].roleId, raLimit, log);
        if e.result.Err? then e else SaRolesLoop(e.state, roles[1..], raLimit, e.result.value)
  }

  /** `delete_dup_ra_to_sas`: the super-admin pass for every assignee of every super-admin role. */
  function DeleteDupRaToSas(o: Overlay, raLimit: int): Effect<seq<string>> {
    match o.ListRoles()
    case Err(e) => Effect(o, Err(e))
    case Ok(roles) => SaRolesLoop(o, roles, raLimit, [])
  }

  lemma {:induction false} SaRolesLoopNoSuperAdmin(o: Overlay, roles: seq<Role>, raLimit: int, log: seq<string>)
    requires forall r | r in roles :: !r.isSuperAdminRole
    ensures SaRolesLoop(o, roles, raLimit, log) == Effect(o, Ok(log))
    decreases |roles|
  {
    if roles != [] {
      assert roles[0] in roles;
      SaRolesLoopNoSuperAdmin(o, roles[1..], raLimit, log);
    }
  }

  /** Without a super-admin role the pass changes nothing and deletes nothing. */
  lemma DeleteDupRaToSasNoSuperAdmin(o: Overlay, raLimit: int)
    requires forall r | r in o.remote.roles :: !r.isSuperAdminRole
    ensures DeleteDupRaToSas(o, raLimit) == Effect(o, Ok([]))
  {
    SaRolesLoopNoSuperAdmin(o, o.ListRoles().value, raLimit, []);
  }

  // ---------------------------------------------------------------------
  // The super-admin pass only removes assignments
  // ---------------------------------------------------------------------

  /**
   * `o'` is `o` with assignments taken away and nothing else changed: the
   * same configuration, reference data and groups, no live or shadow
   * record `o` did not hold as often, and every earlier dry-run deletion kept.
   */
  predicate Thins(o: Overlay, o': Overlay) {
    && o'.cfg == o.cfg
    && SameReferenceData(o.remote, o'.remote)
    && o'.remote.groups == o.remote.groups
    && multiset(o'.remote.assignments) <= multiset(o.remote.assignments)
    && multiset(o'.shadow.ras) <= multiset(o.shadow.ras)
    && forall id | id in o.shadow.deleted :: id in o'.shadow.deleted
  }

  lemma {:induction false} WithRoleIdCount(ras: seq<RoleAssignment>, roleId: string, x: RoleAssignment)
    ensures multiset(WithRoleId(ras, roleId))[x] == if x.roleId == roleId then multiset(ras)[x] else 0
    decreases |ras|
  {
    if ras != [] {
      WithRoleIdCount(ras[1..], roleId, x);
      assert ras == [ras[0]] + ras[1..];
    }
  }

  lemma {:induction false} AssignedToUserCount(ras: seq<RoleAssignment>, userId: string, x: RoleAssignment)
    ensures multiset(AssignedToUser(ras, userId))[x] == if x.assignedTo == userId then multiset(ras)[x] else 0
    decreases |ras|
  {
    if ras != [] {
      AssignedToUserCount(ras[1..], userId, x);
      assert ras == [ras[0]] + ras[1..];
    }
  }

  lemma {:induction false} WithUserIdCount(ras: seq<RoleAssignment>, userId: string, x: RoleAssignment)
    ensures multiset(WithUserId(ras, userId))[x] == if x.userId == Some(userId) then multiset(ras)[x] else 0
    decreases |ras|
  {
    if ras != [] {
      WithUserIdCount(ras[1..], userId, x);
      assert ras == [ras[0]] + ras[1..];
    }
  }

  lemma {:induction false} NotDeletedCount(ras: seq<RoleAssignment>, ids: seq<string>, x: RoleAssignment)
    ensures multiset(NotDeleted(ras, ids))[x] == if x.roleAssignmentId in ids then 0 else multiset(ras)[x]
    decreases |ras|
  {
    if ras != [] {
      NotDeletedCount(ras[1..], ids, x);
      assert ras == [ras[0]] + ras[1..];
    }
  }

  lemma {:induction false} WithoutIdCount(ras: seq<RoleAssignment>, id: string, x: RoleAssignment)
    ensures multiset(WithoutId(ras, id))[x] == if x.roleAssignmentId == id then 0 else multiset(ras)[x]
    decreases |ras|
  {
    if ras != [] {
      WithoutIdCount(ras[1..], id, x);
      assert ras == [ras[0]] + ras[1..];
    }
  }

  lemma {:induction false} WithKeyCount<K>(ras: seq<RoleAssignment>, key: RoleAssignment -> K, k: K, x: RoleAssignment)
    ensures multiset(WithKey(ras, key, k))[x] == if key(x) == k then multiset(ras)[x] else 0
    decreases |ras|
  {
    if ras != [] {
      var n := |ras| - 1;
      WithKeyCount(ras[..n], key, k, x);
      assert ras == ras[..n] + [ras[n]];
    }
  }

  lemma MultisetCardinality<T>(a: multiset<T>, b: multiset<T>)
    requires a <= b
    ensures |a| <= |b|
  {
    assert b == a + (b - a);
  }

  /** A record listed under a filter is listed no more often than before the thinning. */
  lemma LiveListingThins(d: Directory, d': Directory, cfg: LiveClient.Config, roleId: Option<string>,
                         userKey: Option<string>)
    requires SameReferenceData(d, d') && d'.groups == d.groups
    requires multiset(d'.assignments) <= multiset(d.assignments)
    requires roleId.None? || userKey.None?
    ensures LiveClient.ListRoleAssignments(d', cfg, roleId, userKey).Ok?
      <==> LiveClient.ListRoleAssignments(d, cfg, roleId, userKey).Ok?
    ensures LiveClient.ListRoleAssignments(d, cfg, roleId, userKey).Ok? ==>
      multiset(LiveClient.ListRoleAssignments(d', cfg, roleId, userKey).value)
        <= multiset(LiveClient.ListRoleAssignments(d, cfg, roleId, userKey).value)
  {
    if userKey.Some? {
      assert PrincipalId(d', userKey.value) == PrincipalId(d, userKey.value);
      if PrincipalId(d, userKey.value).Some? {
        var uid := PrincipalId(d, userKey.value).value;
        forall x ensures multiset(AssignedToUser(d'.assignments, uid))[x] <= multiset(AssignedToUser(d.assignments, uid))[x] {
          AssignedToUserCount(d'.assignments, PrincipalId(d, userKey.value).value, x);
          AssignedToUserCount(d.assignments, PrincipalId(d, userKey.value).value, x);
        }
      }
    } else if roleId.Some? {
      forall x ensures multiset(WithRoleId(d'.assignments, roleId.value))[x] <= multiset(WithRoleId(d.assignments, roleId.value))[x] {
        WithRoleIdCount(d'.assignments, roleId.value, x);
        WithRoleIdCount(d.assignments, roleId.value, x);
      }
    }
  }

  lemma ShadowListThins(s: Shadow, s': Shadow, roleId: Option<string>, userId: Option<string>)
    requires multiset(s'.ras) <= multiset(s.ras)
    requires roleId.None? || userId.None?
    ensures multiset(ShadowList(s', roleId, userId).value) <= multiset(ShadowList(s, roleId, userId).value)
  {
    if roleId.Some? {
      forall x ensures multiset(WithRoleId(s'.ras, roleId.value))[x] <= multiset(WithRoleId(s.ras, roleId.value))[x] {
        WithRoleIdCount(s'.ras, roleId.value, x);
        WithRoleIdCount(s.ras, roleId.value, x);
      }
    } else if userId.Some? {
      forall x ensures multiset(WithUserId(s'.ras, userId.value))[x] <= multiset(WithUserId(s.ras, userId.value))[x] {
        WithUserIdCount(s'.ras, userId.value, x);
        WithUserIdCount(s.ras, userId.value, x);
      }
    }
  }

  /** After a thinning, every listing answers as before, with no record more often than before. */
  lemma ThinsListing(o: Overlay, o': Overlay, roleId: Option<string>, userId: Option<string>)
    requires Thins(o, o')
    ensures o'.ListRoleAssignments(roleId, userId).Ok? <==> o.ListRoleAssignments(roleId, userId).Ok?
    ensures o.ListRoleAssignments(roleId, userId).Ok? ==>
      multiset(o'.ListRoleAssignments(roleId, userId).value) <= multiset(o.ListRoleAssignments(roleId, userId).value)
  {
    if roleId.None? || userId.None? {
      LiveListingThins(o.remote, o'.remote, o.cfg, roleId, userId);
      if o.DryRun() && o.ListRoleAssignments(roleId, userId).Ok? {
        var live := LiveClient.ListRoleAssignments(o.remote, o.cfg, roleId, userId).value;
        var live' := LiveClient.ListRoleAssignments(o'.remote, o'.cfg, roleId, userId).value;
        var shadowed := ShadowList(o.shadow, roleId, userId).value;
        var shadowed' := ShadowList(o'.shadow, roleId, userId).value;
        ShadowListThins(o.shadow, o'.shadow, roleId, userId);
        forall x ensures multiset(NotDeleted(live' + shadowed', o'.shadow.deleted))[x]
                         <= multiset(NotDeleted(live + shadowed, o.shadow.deleted))[x] {
          NotDeletedCount(live' + shadowed', o'.shadow.deleted, x);
          NotDeletedCount(live + shadowed, o.shadow.deleted, x);
        }
      }
    }
  }

  lemma ThinsTransitive(o1: Overlay, o2: Overlay, o3: Overlay)
    requires Thins(o1, o2) && Thins(o2, o3)
    ensures Thins(o1, o3)
  {
  }

  /** A deletion is a thinning, whatever the client answers. */
  lemma DeleteThins(o: Overlay, id: string)
    ensures Thins(o, o.DeleteRoleAssignment(id).state)
  {
    var o' := o.DeleteRoleAssignment(id).state;
    if o.DryRun() {
      forall x ensures multiset(WithoutId(o.shadow.ras, id))[x] <= multiset(o.shadow.ras)[x] {
        WithoutIdCount(o.shadow.ras, id, x);
      }
    } else if o'.remote != o.remote {
      assert o'.remote.assignments == WithoutId(o.remote.assignments, id);
      forall x ensures multiset(WithoutId(o.remote.assignments, id))[x] <= multiset(o.remote.assignments)[x] {
        WithoutIdCount(o.remote.assignments, id, x);
      }
    }
  }

  lemma {:induction false} SaUserLoopThins(o: Overlay, ras: seq<RoleAssignment>, exceeding: seq<Bucket<string>>,
                                           saUserKey: string, saRoleId: string, log: seq<string>)
    ensures Thins(o, SaUserLoop(o, ras, exceeding, saUserKey, saRoleId, log).state)
    decreases |ras|
  {
    if ras != [] {
      var ra := ras[0];
      if !HasKey(exceeding, ScopeNameForRa(ra)) || ra.roleId == saRoleId {
        SaUserLoopThins(o, ras[1..], exceeding, saUserKey, saRoleId, log);
      } else {
        var d := o.DeleteRoleAssignment(ra.roleAssignmentId);
        DeleteThins(o, ra.roleAssignmentId);
        if d.result == Ok(false) {
          SaUserLoopThins(d.state, ras[1..], exceeding, saUserKey, saRoleId, log);
          ThinsTransitive(o, d.state, SaUserLoop(d.state, ras[1..], exceeding, saUserKey, saRoleId, log).state);
        } else if d.result == Ok(true) {
          SaUserLoopThins(d.state, ras[1..], exceeding, saUserKey, saRoleId, log + [ra.roleAssignmentId]);
          ThinsTransitive(o, d.state,
                          SaUserLoop(d.state, ras[1..], exceeding, saUserKey, saRoleId, log + [ra.roleAssignmentId]).state);
        }
      }
    }
  }

  /**
   * `id` is the id of an assignment listed for the super-admin `saUserKey`,
   * not of the super-admin role `saRoleId`, whose scope holds more than
   * `raLimit` assignments.
   */
  predicate DuplicateOfUser(o: Overlay, raLimit: int, saUserKey: string, saRoleId: string, id: string) {
    && o.ListRoleAssignments(None, Some(saUserKey)).Ok?
    && o.ListRoleAssignments(None, None).Ok?
    && exists x | x in o.ListRoleAssignments(None, Some(saUserKey)).value ::
      && x.roleAssignmentId == id
      && x.roleId != saRoleId
      && |WithKey(o.ListRoleAssignments(None, None).value, ScopeKey(o, false), ScopeNameForRa(x))| > raLimit
  }

  /** `id` is such a duplicate for some assignee of the super-admin role `saRoleId`. */
  predicate SaDuplicateOf(o: Overlay, raLimit: int, saRoleId: string, id: string) {
    && o.ListRoleAssignments(Some(saRoleId), None).Ok?
    && exists sa | sa in o.ListRoleAssignments(Some(saRoleId), None).value ::
         DuplicateOfUser(o, raLimit, sa.assignedTo, saRoleId, id)
  }

  /** `id` is such a duplicate for some listed super-admin role. */
  predicate SaDuplicate(o: Overlay, raLimit: int, id: string) {
    && o.ListRoles().Ok?
    && exists r | r in o.ListRoles().value && r.isSuperAdminRole :: SaDuplicateOf(o, raLimit, r.roleId, id)
  }

  /** What is a duplicate after a thinning was one before it: listings and scope counts only shrink. */
  lemma DuplicateOfUserThins(o: Overlay, o': Overlay, raLimit: int, saUserKey: string, saRoleId: string, id: string)
    requires Thins(o, o') && DuplicateOfUser(o', raLimit, saUserKey, saRoleId, id)
    ensures DuplicateOfUser(o, raLimit, saUserKey, saRoleId, id)
  {
    ThinsListing(o, o', None, Some(saUserKey));
    ThinsListing(o, o', None, None);
    var x :| x in o'.ListRoleAssignments(None, Some(saUserKey)).value
      && x.roleAssignmentId == id && x.roleId != saRoleId
      && |WithKey(o'.ListRoleAssignments(None, None).value, ScopeKey(o', false), ScopeNameForRa(x))| > raLimit;
    assert multiset(o'.ListRoleAssignments(None, Some(saUserKey)).value)[x] > 0;
    var all := o.ListRoleAssignments(None, None).value;
    var all' := o'.ListRoleAssignments(None, None).value;
    var k := ScopeNameForRa(x);
    forall y ensures multiset(WithKey(all', ScopeKey(o', false), k))[y] <= multiset(WithKey(all, ScopeKey(o, false), k))[y] {
      WithKeyCount(all', ScopeKey(o', false), ScopeNameForRa(x), y);
      WithKeyCount(all, ScopeKey(o, false), ScopeNameForRa(x), y);
    }
    MultisetCardinality(multiset(WithKey(all', ScopeKey(o', false), ScopeNameForRa(x))),
                        multiset(WithKey(all, ScopeKey(o, false), ScopeNameForRa(x))));
  }

  lemma SaDuplicateOfThins(o: Overlay, o': Overlay, raLimit: int, saRoleId: string, id: string)
    requires Thins(o, o') && SaDuplicateOf(o', raLimit, saRoleId, id)
    ensures SaDuplicateOf(o, raLimit, saRoleId, id)
  {
    ThinsListing(o, o', Some(saRoleId), None);
    var sa :| sa in o'.ListRoleAssignments(Some(saRoleId), None).value
      && DuplicateOfUser(o', raLimit, sa.assignedTo, saRoleId, id);
    assert multiset(o'.ListRoleAssignments(Some(saRoleId), None).value)[sa] > 0;
    DuplicateOfUserThins(o, o', raLimit, sa.assignedTo, saRoleId, id);
  }

  /** The pass for one super-admin, restated with the scope's count. */
  lemma SaUserDuplicates(o: Overlay, saUserKey: string, saRoleId: string, raLimit: int)
    requires DeleteDupRaToSaUser(o, saUserKey, saRoleId, raLimit).result.Ok?
    ensures Thins(o, DeleteDupRaToSaUser(o, saUserKey, saRoleId, raLimit).state)
    ensures forall id | id in DeleteDupRaToSaUser(o, saUserKey, saRoleId, raLimit).result.value ::
      DuplicateOfUser(o, raLimit, saUserKey, saRoleId, id)
  {
    var all := o.ListRoleAssignments(None, Some(saUserKey)).value;
    var exceeding := ScopeMap(o, raLimit, true, false).value;
    SaUserLoopThins(o, all, exceeding, saUserKey, saRoleId, []);
    SaUserDeletesOnlyDuplicates(o, saUserKey, saRoleId, raLimit);
    ScopeMapSpec(o, raLimit, true, false);
  }

  lemma {:induction false} SaAssignmentsLoopDeletes(o: Overlay, sas: seq<RoleAssignment>, saRoleId: string,
                                                    raLimit: int, log: seq<string>)
    requires SaAssignmentsLoop(o, sas, saRoleId, raLimit, log).result.Ok?
    ensures Thins(o, SaAssignmentsLoop(o, sas, saRoleId, raLimit, log).state)
    ensures forall id | id in SaAssignmentsLoop(o, sas, saRoleId, raLimit, log).result.value ::
      id in log || exists sa | sa in sas :: DuplicateOfUser(o, raLimit, sa.assignedTo, saRoleId, id)
    decreases |sas|
  {
    if sas != [] {
      var e := DeleteDupRaToSaUser(o, sas[0].assignedTo, saRoleId, raLimit);
      SaUserDuplicates(o, sas[0].assignedTo, saRoleId, raLimit);
      var rest := SaAssignmentsLoop(e.state, sas[1..], saRoleId, raLimit, log + e.result.value);
      SaAssignmentsLoopDeletes(e.state, sas[1..], saRoleId, raLimit, log + e.result.value);
      ThinsTransitive(o, e.state, rest.state);
      assert sas[0] in sas;
      forall id | id in rest.result.value
        ensures id in log || exists sa | sa in sas :: DuplicateOfUser(o, raLimit, sa.assignedTo, saRoleId, id)
      {
        if id !in log && id !in e.result.value {
          var sa :| sa in sas[1..] && DuplicateOfUser(e.state, raLimit, sa.assignedTo, saRoleId, id);
          DuplicateOfUserThins(o, e.state, raLimit, sa.assignedTo, saRoleId, id);
        }
      }
    }
  }

  lemma {:induction false} SaRolesLoopDeletes(o: Overlay, roles: seq<Role>, raLimit: int, log: seq<string>)
    requires SaRolesLoop(o, roles, raLimit, log).result.Ok?
    ensures Thins(o, SaRolesLoop(o, roles, raLimit, log).state)
    ensures forall id | id in SaRolesLoop(o, roles, raLimit, log).result.value ::
      id in log || exists r | r in roles && r.isSuperAdminRole :: SaDuplicateOf(o, raLimit, r.roleId, id)
    decreases |roles|
  {
    if roles != [] {
      assert roles[0] in roles;
      if !roles[0].isSuperAdminRole {
        SaRolesLoopDeletes(o, roles[1..], raLimit, log);
      } else {
        var sas := o.ListRoleAssignments(Some(roles[0].roleId), None).value;
        var e := SaAssignmentsLoop(o, sas, roles[0].roleId, raLimit, log);
        SaAssignmentsLoopDeletes(o, sas, roles[0].roleId, raLimit, log);
        var rest := SaRolesLoop(e.state, roles[1..], raLimit, e.result.value);
        SaRolesLoopDeletes(e.state, roles[1..], raLimit, e.result.value);
        ThinsTransitive(o, e.state, rest.state);
        forall id | id in rest.result.value
          ensures id in log || exists r | r in roles && r.isSuperAdminRole :: SaDuplicateOf(o, raLimit, r.roleId, id)
        {
          if id !in log {
            if id in e.result.value {
              assert SaDuplicateOf(o, raLimit, roles[0].roleId, id);
            } else {
              var r :| r in roles[1..] && r.isSuperAdminRole && SaDuplicateOf(e.state, raLimit, r.roleId, id);
              SaDuplicateOfThins(o, e.state, raLimit, r.roleId, id);
            }
          }
        }
      }
    }
  }

  /**
   * The super-admin pass only removes assignments, and each id it logs
   * belonged, when the pass began, to an assignment listed for an assignee
   * of a super-admin role, not of that role, in a scope holding more than
   * the limit.
   */
  lemma DeleteDupRaToSasDeletesOnlyDuplicates(o: Overlay, raLimit: int)
    requires DeleteDupRaToSas(o, raLimit).result.Ok?
    ensures Thins(o, DeleteDupRaToSas(o, raLimit).state)
    ensures forall id | id in DeleteDupRaToSas(o, raLimit).result.value :: SaDuplicate(o, raLimit, id)
    ensures forall x | && x in o.ListRoleAssignments(None, None).value
                       && x !in DeleteDupRaToSas(o, raLimit).state.ListRoleAssignments(None, None).value ::
      SaDuplicate(o, raLimit, x.roleAssignmentId)
  {
    SaRolesLoopDeletes(o, o.ListRoles().value, raLimit, []);
    SaRolesLoopRemovesOnlyReported(o, o.ListRoles().value, raLimit, []);
  }

  // ---------------------------------------------------------------------
  // Completeness of the super-admin pass
  // ---------------------------------------------------------------------

  /**
   * The live service answers False to deleting `id`: no assignment carries
   * it, or the service refuses it as a self-revocation.
   */
  predicate Refused(o: Overlay, id: string) {
    && !o.DryRun()
    && (id in o.remote.selfRevoke || forall y | y in o.remote.assignments :: y.roleAssignmentId != id)
  }

  /** Every record of `o`'s full listing is still listed in `o'`, unless its id is in `ids`. */
  predicate RemovedOnly(o: Overlay, o': Overlay, ids: seq<string>) {
    forall x | x in o.ListRoleAssignments(None, None).value ::
      x in o'.ListRoleAssignments(None, None).value || x.roleAssignmentId in ids
  }

  /** A delete answering False changes nothing and was refused; any answer keeps every other record. */
  lemma DeleteCases(o: Overlay, id: string)
    ensures o.DeleteRoleAssignment(id).result == Ok(false) ==>
      o.DeleteRoleAssignment(id).state == o && Refused(o, id)
    ensures forall y | y in o.remote.assignments && y.roleAssignmentId != id ::
      y in o.DeleteRoleAssignment(id).state.remote.assignments
    ensures RemovedOnly(o, o.DeleteRoleAssignment(id).state, [id])
  {
    var o' := o.DeleteRoleAssignment(id).state;
    if !o.DryRun() && o'.remote != o.remote {
      assert o'.remote.assignments == WithoutId(o.remote.assignments, id);
    }
  }

  lemma {:induction false} SaUserLoopComplete(o: Overlay, ras: seq<RoleAssignment>, exceeding: seq<Bucket<string>>,
                                              saUserKey: string, saRoleId: string, log: seq<string>)
    requires SaUserLoop(o, ras, exceeding, saUserKey, saRoleId, log).result.Ok?
    ensures var e := SaUserLoop(o, ras, exceeding, saUserKey, saRoleId, log);
      && (forall id | id in log :: id in e.result.value)
      && (forall id | Deleted(o, id) :: Deleted(e.state, id))
      && RemovedOnly(o, e.state, e.result.value)
      && forall x | x in ras && x.roleId != saRoleId && HasKey(exceeding, ScopeNameForRa(x)) ::
           && Deleted(e.state, x.roleAssignmentId)
           && (x.roleAssignmentId in e.result.value || Refused(o, x.roleAssignmentId))
    decreases |ras|
  {
    if ras != [] {
      var ra := ras[0];
      if !HasKey(exceeding, ScopeNameForRa(ra)) || ra.roleId == saRoleId {
        SaUserLoopComplete(o, ras[1..], exceeding, saUserKey, saRoleId, log);
      } else {
        var d := o.DeleteRoleAssignment(ra.roleAssignmentId);
        DeleteTakesEffect(o, ra.roleAssignmentId);
        DeleteCases(o, ra.roleAssignmentId);
        if d.result == Ok(false) {
          SaUserLoopComplete(d.state, ras[1..], exceeding, saUserKey, saRoleId, log);
        } else {
          var log' := log + [ra.roleAssignmentId];
          var e := SaUserLoop(d.state, ras[1..], exceeding, saUserKey, saRoleId, log');
          SaUserLoopComplete(d.state, ras[1..], exceeding, saUserKey, saRoleId, log');
          assert ra.roleAssignmentId in log';
          forall x | x in ras && x.roleId != saRoleId && HasKey(exceeding, ScopeNameForRa(x))
            ensures Deleted(e.state, x.roleAssignmentId)
            ensures x.roleAssignmentId in e.result.value || Refused(o, x.roleAssignmentId)
          {
            if x != ra {
              assert x in ras[1..];
            }
          }
        }
      }
    }
  }

  /**
   * Completeness of `_delete_dup_ra_to_sa_user`: every listed assignment of
   * the super-admin user that is not of the super-admin role and lies in a
   * scope over the limit is deleted afterwards, and it is reported unless
   * the live service answered False for it.
   */
  lemma SaUserDeletesAllDuplicates(o: Overlay, saUserKey: string, saRoleId: string, raLimit: int)
    requires DeleteDupRaToSaUser(o, saUserKey, saRoleId, raLimit).result.Ok?
    ensures o.ListRoleAssignments(None, Some(saUserKey)).Ok? && ScopeMap(o, raLimit, true, false).Ok?
    ensures var e := DeleteDupRaToSaUser(o, saUserKey, saRoleId, raLimit);
      && (forall id | Deleted(o, id) :: Deleted(e.state, id))
      && RemovedOnly(o, e.state, e.result.value)
      && forall x | && x in o.ListRoleAssignments(None, Some(saUserKey)).value
                    && x.roleId != saRoleId
                    && HasKey(ScopeMap(o, raLimit, true, false).value, ScopeNameForRa(x)) ::
           && Deleted(e.state, x.roleAssignmentId)
           && (x.roleAssignmentId in e.result.value || Refused(o, x.roleAssignmentId))
  {
    var all := o.ListRoleAssignments(None, Some(saUserKey)).value;
    var exceeding := ScopeMap(o, raLimit, true, false).value;
    SaUserLoopComplete(o, all, exceeding, saUserKey, saRoleId, []);
  }

  lemma {:induction false} SaAssignmentsLoopRemovesOnlyReported(o: Overlay, sas: seq<RoleAssignment>, saRoleId: string,
                                                                raLimit: int, log: seq<string>)
    requires SaAssignmentsLoop(o, sas, saRoleId, raLimit, log).result.Ok?
    ensures var e := SaAssignmentsLoop(o, sas, saRoleId, raLimit, log);
      && (forall id | id in log :: id in e.result.value)
      && RemovedOnly(o, e.state, e.result.value)
    decreases |sas|
  {
    if sas != [] {
      var e := DeleteDupRaToSaUser(o, sas[0].assignedTo, saRoleId, raLimit);
      SaUserDeletesAllDuplicates(o, sas[0].assignedTo, saRoleId, raLimit);
      SaAssignmentsLoopRemovesOnlyReported(e.state, sas[1..], saRoleId, raLimit, log + e.result.value);
    }
  }

  lemma {:induction false} SaRolesLoopRemovesOnlyReported(o: Overlay, roles: seq<Role>, raLimit: int, log: seq<string>)
    requires SaRolesLoop(o, roles, raLimit, log).result.Ok?
    ensures var e := SaRolesLoop(o, roles, raLimit, log);
      && (forall id | id in log :: id in e.result.value)
      && RemovedOnly(o, e.state, e.result.value)
    decreases |roles|
  {
    if roles != [] {
      if !roles[0].isSuperAdminRole {
        SaRolesLoopRemovesOnlyReported(o, roles[1..], raLimit, log);
      } else {
        var sas := o.ListRoleAssignments(Some(roles[0].roleId), None).value;
        var e := SaAssignmentsLoop(o, sas, roles[0].roleId, raLimit, log);
        SaAssignmentsLoopRemovesOnlyReported(o, sas, roles[0].roleId, raLimit, log);
        SaRolesLoopRemovesOnlyReported(e.state, roles[1..], raLimit, e.result.value);
      }
    }
  }

  // ---------------------------------------------------------------------
  // check_principal_is_super_admin
  // ---------------------------------------------------------------------

  /** True at the first listed assignment whose role is a super-admin role; a role lookup that fails ends in False. */
  function AnySuperAdmin(o: Overlay, ras: seq<RoleAssignment>): Result<bool>
    decreases |ras|
  {
    if ras == [] then Ok(false)
    else
      match o.GetRole(ras[0].roleId)
      case Err(RuntimeError(_)) => Ok(false)
      case Err(e) => Err(e)
      case Ok(role) => if role.isSuperAdminRole then Ok(true) else AnySuperAdmin(o, ras[1..])
  }

  /** Fail-open where the caller's identity cannot be read, fail-closed where its assignments cannot. */
  function CheckPrincipalIsSuperAdmin(o: Overlay): Result<bool> {
    match o.GetPrimaryEmail()
    case Err(RuntimeError(_)) => Ok(true)
    case Err(e) => Err(e)
    case Ok(None) => Ok(true)
    case Ok(Some(email)) =>
      match o.ListRoleAssignments(None, Some(email))
      case Err(RuntimeError(_)) => Ok(false)
      case Err(e) => Err(e)
      case Ok(ras) => AnySuperAdmin(o, ras)
  }

  lemma {:induction false} AnySuperAdminIff(o: Overlay, ras: seq<RoleAssignment>)
    ensures AnySuperAdmin(o, ras).Ok?
    ensures (forall x | x in ras :: o.GetRole(x.roleId).Ok?) ==>
      (AnySuperAdmin(o, ras).value <==> exists x | x in ras :: o.GetRole(x.roleId).value.isSuperAdminRole)
    decreases |ras|
  {
    if ras != [] {
      AnySuperAdminIff(o, ras[1..]);
      assert ras[0] in ras;
      assert forall x | x in ras[1..] :: x in ras;
      assert forall x | x in ras :: x == ras[0] || x in ras[1..];
    }
  }

  /**
   * The precheck never raises.  It answers True when the caller's email
   * cannot be read or is absent, False when the caller's assignments cannot
   * be listed, and otherwise (when every listed role can be read) True
   * exactly when one of the caller's assignments is of a super-admin role.
   */
  lemma PrecheckCases(o: Overlay)
    ensures CheckPrincipalIsSuperAdmin(o).Ok?
    ensures !(o.GetPrimaryEmail().Ok? && o.GetPrimaryEmail().value.Some?) ==> CheckPrincipalIsSuperAdmin(o) == Ok(true)
    ensures o.GetPrimaryEmail().Ok? && o.GetPrimaryEmail().value.Some? ==>
      var email := o.GetPrimaryEmail().value.value;
      && (o.ListRoleAssignments(None, Some(email)).Err? ==> CheckPrincipalIsSuperAdmin(o) == Ok(false))
      && (o.ListRoleAssignments(None, Some(email)).Ok?
          && (forall x | x in o.ListRoleAssignments(None, Some(email)).value :: o.GetRole(x.roleId).Ok?) ==>
            (CheckPrincipalIsSuperAdmin(o).value <==>
               exists x | x in o.ListRoleAssignments(None, Some(email)).value :: o.GetRole(x.roleId).value.isSuperAdminRole))
  {
    if o.GetPrimaryEmail().Ok? && o.GetPrimaryEmail().value.Some? {
      var email := o.GetPrimaryEmail().value.value;
      if o.ListRoleAssignments(None, Some(email)).Ok? {
        AnySuperAdminIff(o, o.ListRoleAssignments(None, Some(email)).value);
      }
    }
  }
}

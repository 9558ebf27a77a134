/**
 * The change client the migration talks to
 * (change_client/migration_util_change_client.py): it routes every
 * mutation to the live client or, in a dry run, to the shadow store; merges
 * what both hold on reads; hides the assignments a dry run deleted; and
 * memoises user lookups.
 *
 * `Overlay` is the state the client reaches (the remote directory, the
 * shadow store's contents and the two flags) and its member functions are
 * the client's operations; class `MigrationUtilChangeClient` holds the same
 * state in fields, each method proved to do what the matching function says.
 */
module ChangeClient {
  import opened Base
  import opened Directory
  import LiveClient
  import opened DryRun

  const NOT_GROUP_ASSIGNEE_MESSAGE: string := "Unexpected assignee type : expected to be group but is "
  const NO_DELETED_LISTING_MESSAGE: string := "'DryRunChangeClient' object has no attribute 'list_deleted_role_assignments'"
  const BOTH_FILTERS_MESSAGE: string := "list_role_assignments role_id and user_id may not be specified"
  const DUMMY_ID: string := "dummy"

  /** The assignments whose id is not among `ids`, in order. */
  function NotDeleted(ras: seq<RoleAssignment>, ids: seq<string>): (r: seq<RoleAssignment>)
    ensures forall x :: x in r <==> x in ras && x.roleAssignmentId !in ids
  {
    if ras == [] then []
    else (if ras[0].roleAssignmentId !in ids then [ras[0]] else []) + NotDeleted(ras[1..], ids)
  }

  /** `get_role_assignment`'s field-by-field match: same assignee, assignee type and place. */
  predicate GrantMatches(x: RoleAssignment, ra: RoleAssignment) {
    && x.assignedTo == ra.assignedTo
    && x.assigneeType == ra.assigneeType
    && x.scopeType == ra.scopeType
    && x.orgUnitId.GetOr("") == ra.orgUnitId.GetOr("")
  }

  /** The group assignment `insert_ra` builds: no id yet, no user key. */
  function GroupGrant(roleId: string, groupId: string, assigneeType: string, scopeType: string, orgUnit: Option<string>)
    : RoleAssignment
  {
    RoleAssignment("", roleId, groupId, assigneeType, scopeType, orgUnit, None)
  }

  /** A state reached by the client, and what a call returned. */
  datatype Effect<T> = Effect(state: Overlay, result: Result<T>)

  datatype Overlay = Overlay(remote: Directory, shadow: Shadow, cfg: LiveClient.Config) {

    predicate DryRun() {
      cfg.dryRun
    }

    function CreateGroup(customerId: string, email: string, name: string, description: string): Effect<()> {
      if DryRun() then
        Effect(this.(shadow := ShadowCreateGroup(shadow, customerId, email, name, description)), Ok(()))
      else
        var a := LiveClient.CreateGroup(remote, cfg, customerId, email, name, description);
        Effect(this.(remote := a.dir), a.result)
    }

    /** `get_ou`: its cache is never written, so every lookup goes to the live client. */
    function GetOu(ouId: string): Result<Option<OrgUnit>> {
      LiveClient.GetOu(remote, ouId)
    }

    function GetUser(key: string): Result<Option<User>> {
      LiveClient.GetUser(remote, key)
    }

    /** The live group, or in a dry run the shadow's when the live client has none. */
    function GetGroup(key: string): Result<Option<Group>> {
      match LiveClient.GetGroup(remote, key)
      case Err(e) => Err(e)
      case Ok(None) => if DryRun() then Ok(ShadowGetGroup(shadow, key)) else Ok(None)
      case Ok(live) => Ok(live)
    }

    /** The live members followed, in a dry run, by the shadow's. */
    function GetGroupMembers(groupEmail: string): Result<seq<Member>> {
      match LiveClient.GetGroupMembers(remote, cfg, groupEmail)
      case Err(e) => Err(e)
      case Ok(live) => if DryRun() then Ok(live + ShadowMembers(shadow, groupEmail)) else Ok(live)
    }

    /** Live answer, or in a dry run the shadow's when the live answer is False. */
    function GroupHasMember(groupEmail: string, userEmail: string): Result<bool> {
      match LiveClient.GroupHasMember(remote, groupEmail, userEmail)
      case Err(e) => Err(e)
      case Ok(has) => Ok(has || (DryRun() && ShadowHasMember(shadow, groupEmail, userEmail)))
    }

    function GetRootOu(): Result<string> {
      LiveClient.GetRootOu(remote)
    }

    /**
     * Both filters raise AssertionError; otherwise the live listing, and in
     * a dry run the live and shadow listings together without the
     * assignments whose id the shadow has deleted.
     */
    function ListRoleAssignments(roleId: Option<string>, userId: Option<string>): Result<seq<RoleAssignment>> {
      if roleId.Some? && userId.Some? then
        Err(AssertionError(BOTH_FILTERS_MESSAGE))
      else
        match LiveClient.ListRoleAssignments(remote, cfg, roleId, userId)
        case Err(e) => Err(e)
        case Ok(live) =>
          if !DryRun() then Ok(live)
          else
            match ShadowList(shadow, roleId, userId)
            case Err(e) => Err(e)
            case Ok(shadowed) => Ok(NotDeleted(live + shadowed, shadow.deleted))
    }

    /**
     * The listing as the source writes it: in a dry run it asks the shadow
     * store for `list_deleted_role_assignments`, which the store does not
     * define, so the call raises AttributeError.
     */
    function ListRoleAssignmentsAsWritten(roleId: Option<string>, userId: Option<string>): Result<seq<RoleAssignment>> {
      if roleId.Some? && userId.Some? then
        Err(AssertionError(BOTH_FILTERS_MESSAGE))
      else
        match LiveClient.ListRoleAssignments(remote, cfg, roleId, userId)
        case Err(e) => Err(e)
        case Ok(live) =>
          if !DryRun() then Ok(live)
          else
            match ShadowList(shadow, roleId, userId)
            case Err(e) => Err(e)
            case Ok(_) => Err(AttributeError(NO_DELETED_LISTING_MESSAGE))
    }

    function ListRoles(): Result<seq<Role>> {
      LiveClient.ListRoles(remote, cfg)
    }

    function DeleteRoleAssignment(id: string): Effect<bool> {
      if DryRun() then Effect(this.(shadow := ShadowDelete(shadow, id)), Ok(true))
      else
        var a := LiveClient.DeleteRoleAssignment(remote, cfg, id);
        Effect(this.(remote := a.dir), a.result)
    }

    /** Does nothing when the group already has the member; otherwise routes the insertion. */
    function InsertMemberIntoGroup(userEmail: string, userId: string, groupEmail: string): Effect<()> {
      match GroupHasMember(groupEmail, userEmail)
      case Err(e) => Effect(this, Err(e))
      case Ok(true) => Effect(this, Ok(()))
      case Ok(false) =>
        if DryRun() then Effect(this.(shadow := ShadowInsertMember(shadow, userEmail, userId, groupEmail)), Ok(()))
        else
          var a := LiveClient.InsertMemberIntoGroup(remote, cfg, userEmail, userId, groupEmail);
          Effect(this.(remote := a.dir), a.result)
    }

    /** In a dry run the assignment is stamped with the id "dummy" and kept in the shadow. */
    function InsertRoleAssignment(ra: RoleAssignment): Effect<()> {
      if DryRun() then
        Effect(this.(shadow := ShadowInsertRoleAssignment(shadow, ra.(roleAssignmentId := DUMMY_ID))), Ok(()))
      else
        var a := LiveClient.InsertRoleAssignment(remote, cfg, ra);
        Effect(this.(remote := a.dir), a.result)
    }

    function GetRole(roleId: string): Result<Role> {
      LiveClient.GetRole(remote, roleId)
    }

    function GetCustomer(): Customer {
      LiveClient.GetCustomer(remote)
    }

    function GetPrimaryEmail(): Result<Option<string>> {
      LiveClient.GetPrimaryEmail(remote)
    }

    /** The assignment asked about, if one listed for its role matches it field by field. */
    function GetRoleAssignment(ra: RoleAssignment): Result<Option<RoleAssignment>> {
      match ListRoleAssignments(Some(ra.roleId), None)
      case Err(e) => Err(e)
      case Ok(ras) => if exists x | x in ras :: GrantMatches(x, ra) then Ok(Some(ra)) else Ok(None)
    }

    /**
     * `insert_ra`: only group assignees; the group must exist; the
     * assignment is inserted only when no matching one is listed.
     */
    function InsertRa(roleId: string, email: string, assigneeType: string, scopeType: string, orgUnit: Option<string>)
      : Effect<()>
    {
      if assigneeType != "group" then
        Effect(this, Err(AssertionError(NOT_GROUP_ASSIGNEE_MESSAGE + assigneeType)))
      else
        match GetGroup(email)
        case Err(e) => Effect(this, Err(e))
        case Ok(None) => Effect(this, Err(TypeError(NONE_SUBSCRIPT_MESSAGE)))
        case Ok(Some(g)) =>
          var ra := GroupGrant(roleId, g.id, assigneeType, scopeType, orgUnit);
          match GetRoleAssignment(ra)
          case Err(e) => Effect(this, Err(e))
          case Ok(Some(_)) => Effect(this, Ok(()))
          case Ok(None) => InsertRoleAssignment(ra)
    }
  }

  // ---- properties of the overlay ----

  /**
   * The three routed mutations touch the shadow in a dry run and the remote
   * directory otherwise, never both.
   */
  lemma MutationsRouted(o: Overlay, customerId: string, email: string, name: string, description: string,
                        id: string, ra: RoleAssignment)
    ensures o.DryRun() ==>
      && o.CreateGroup(customerId, email, name, description).state.remote == o.remote
      && o.DeleteRoleAssignment(id).state.remote == o.remote
      && o.InsertRoleAssignment(ra).state.remote == o.remote
    ensures !o.DryRun() ==>
      && o.CreateGroup(customerId, email, name, description).state.shadow == o.shadow
      && o.DeleteRoleAssignment(id).state.shadow == o.shadow
      && o.InsertRoleAssignment(ra).state.shadow == o.shadow
    ensures o.DryRun() ==>
      && o.CreateGroup(customerId, email, name, description).result == Ok(())
      && o.DeleteRoleAssignment(id).result == Ok(true)
      && o.InsertRoleAssignment(ra).result == Ok(())
  {
  }

  /** A dry-run assignment is recorded with the id "dummy" after the shadow's earlier ones. */
  lemma DryRunInsertStampsDummy(o: Overlay, ra: RoleAssignment)
    requires o.DryRun()
    ensures o.InsertRoleAssignment(ra).state.shadow.ras == o.shadow.ras + [ra.(roleAssignmentId := DUMMY_ID)]
  {
  }

  /** A group created through the overlay is found by its email afterwards, in either mode. */
  lemma CreateThenGetGroup(o: Overlay, customerId: string, email: string, name: string, description: string)
    requires o.CreateGroup(customerId, email, name, description).result.Ok?
    ensures o.CreateGroup(customerId, email, name, description).state.GetGroup(email).Ok?
    ensures o.CreateGroup(customerId, email, name, description).state.GetGroup(email).value.Some?
  {
  }

  /**
   * In a dry run the listing hides exactly the deleted ids: nothing listed
   * has a deleted id, and every live or shadow record without one is listed.
   */
  lemma DryRunListingHidesDeleted(o: Overlay, roleId: Option<string>, userId: Option<string>)
    requires o.DryRun()
    requires o.ListRoleAssignments(roleId, userId).Ok?
    ensures forall x | x in o.ListRoleAssignments(roleId, userId).value :: x.roleAssignmentId !in o.shadow.deleted
    ensures forall x | x in LiveClient.ListRoleAssignments(o.remote, o.cfg, roleId, userId).value
                       && x.roleAssignmentId !in o.shadow.deleted ::
              x in o.ListRoleAssignments(roleId, userId).value
    ensures forall x | x in ShadowList(o.shadow, roleId, userId).value && x.roleAssignmentId !in o.shadow.deleted ::
              x in o.ListRoleAssignments(roleId, userId).value
  {
  }

  /** After a dry-run deletion no listing shows the id, live or shadow. */
  lemma DryRunDeleteHides(o: Overlay, id: string, roleId: Option<string>, userId: Option<string>)
    requires o.DryRun()
    ensures var o' := o.DeleteRoleAssignment(id).state;
      o'.ListRoleAssignments(roleId, userId).Ok? ==>
        forall x | x in o'.ListRoleAssignments(roleId, userId).value :: x.roleAssignmentId != id
  {
    var o' := o.DeleteRoleAssignment(id).state;
    assert id in o'.shadow.deleted;
  }

  /** Outside a dry run the overlay lists exactly what the live client lists. */
  lemma WetListingIsLive(o: Overlay, roleId: Option<string>, userId: Option<string>)
    requires !o.DryRun()
    requires roleId.None? || userId.None?
    ensures o.ListRoleAssignments(roleId, userId) == LiveClient.ListRoleAssignments(o.remote, o.cfg, roleId, userId)
    ensures o.ListRoleAssignmentsAsWritten(roleId, userId) == o.ListRoleAssignments(roleId, userId)
  {
  }

  /** As written, every dry-run listing that reaches the shadow raises AttributeError. */
  lemma DryRunListingAsWrittenFails(o: Overlay, roleId: Option<string>, userId: Option<string>)
    requires o.DryRun()
    requires roleId.None? || userId.None?
    requires LiveClient.ListRoleAssignments(o.remote, o.cfg, roleId, userId).Ok?
    ensures o.ListRoleAssignmentsAsWritten(roleId, userId).Err?
    ensures o.ListRoleAssignmentsAsWritten(roleId, userId).error.AttributeError?
  {
    assert ShadowList(o.shadow, roleId, userId).Ok?;
    assert o.ListRoleAssignmentsAsWritten(roleId, userId)
        == Err(AttributeError(NO_DELETED_LISTING_MESSAGE));
  }

  /** `insert_ra` refuses user assignees and a missing group, and changes nothing then. */
  lemma InsertRaGuards(o: Overlay, roleId: string, email: string, assigneeType: string, scopeType: string,
                       orgUnit: Option<string>)
    ensures assigneeType != "group" ==>
      o.InsertRa(roleId, email, assigneeType, scopeType, orgUnit) == Effect(o, Err(AssertionError(NOT_GROUP_ASSIGNEE_MESSAGE + assigneeType)))
    ensures assigneeType == "group" && o.GetGroup(email) == Ok(None) ==>
      o.InsertRa(roleId, email, assigneeType, scopeType, orgUnit).state == o
      && o.InsertRa(roleId, email, assigneeType, scopeType, orgUnit).result.Err?
  {
  }

  /**
   * `insert_ra` twice leaves the state of inserting once: the second call
   * finds the grant the first made (in a dry run, unless an assignment
   * with the id "dummy" was deleted earlier, which would hide it).
   */
  lemma InsertRaIdempotent(o: Overlay, roleId: string, email: string, scopeType: string, orgUnit: Option<string>)
    requires o.InsertRa(roleId, email, "group", scopeType, orgUnit).result.Ok?
    requires o.DryRun() ==> DUMMY_ID !in o.shadow.deleted
    ensures var o1 := o.InsertRa(roleId, email, "group", scopeType, orgUnit).state;
      o1.InsertRa(roleId, email, "group", scopeType, orgUnit) == Effect(o1, Ok(()))
  {
    var g := o.GetGroup(email).value.value;
    var ra := GroupGrant(roleId, g.id, "group", scopeType, orgUnit);
    var first := o.InsertRa(roleId, email, "group", scopeType, orgUnit);
    if o.GetRoleAssignment(ra) == Ok(None) {
      assert first == o.InsertRoleAssignment(ra);
      InsertGrantKeepsGroups(o, ra, email);
      if o.DryRun() {
        DryInsertFindsGrant(o, ra);
      } else {
        WetInsertAgain(o, ra);
      }
    } else {
      assert first == Effect(o, Ok(()));
    }
  }

  /** Inserting an assignment leaves the groups as they were. */
  lemma InsertGrantKeepsGroups(o: Overlay, ra: RoleAssignment, email: string)
    requires o.InsertRoleAssignment(ra).result.Ok?
    ensures o.InsertRoleAssignment(ra).state.GetGroup(email) == o.GetGroup(email)
  {
  }

  /** In a dry run, an inserted assignment is found again while the id "dummy" is not deleted. */
  lemma DryInsertFindsGrant(o: Overlay, ra: RoleAssignment)
    requires o.DryRun() && DUMMY_ID !in o.shadow.deleted
    requires o.GetRoleAssignment(ra).Ok?
    ensures o.InsertRoleAssignment(ra).state.GetRoleAssignment(ra) == Ok(Some(ra))
  {
    var o1 := o.InsertRoleAssignment(ra).state;
    var stamped := ra.(roleAssignmentId := DUMMY_ID);
    assert stamped in WithRoleId(o1.shadow.ras, ra.roleId);
    assert stamped in o1.ListRoleAssignments(Some(ra.roleId), None).value;
    assert GrantMatches(stamped, ra);
  }

  /** Against the live directory, inserting the same assignment again changes nothing. */
  lemma WetInsertAgain(o: Overlay, ra: RoleAssignment)
    requires !o.DryRun() && o.InsertRoleAssignment(ra).result.Ok?
    ensures var o1 := o.InsertRoleAssignment(ra).state;
      o1.InsertRoleAssignment(ra) == Effect(o1, Ok(()))
  {
    var o1 := o.InsertRoleAssignment(ra).state;
    assert exists x | x in o1.remote.assignments :: SameGrant(x, ra);
  }

  /** Inserting a member twice leaves the state of inserting it once. */
  lemma InsertMemberIdempotent(o: Overlay, userEmail: string, userId: string, groupEmail: string)
    requires o.InsertMemberIntoGroup(userEmail, userId, groupEmail).result.Ok?
    ensures var o1 := o.InsertMemberIntoGroup(userEmail, userId, groupEmail).state;
      o1.InsertMemberIntoGroup(userEmail, userId, groupEmail) == Effect(o1, Ok(()))
  {
    var o1 := o.InsertMemberIntoGroup(userEmail, userId, groupEmail).state;
    if o.DryRun() {
      if o.GroupHasMember(groupEmail, userEmail) == Ok(false) {
        InsertMemberAppends(o.shadow, userEmail, userId, groupEmail, groupEmail);
      }
    } else if o.GroupHasMember(groupEmail, userEmail) == Ok(false) {
      var a := LiveClient.InsertMemberIntoGroup(o.remote, o.cfg, userEmail, userId, groupEmail);
      assert FindMember(MembersOf(a.dir, FindGroup(o.remote.groups, groupEmail).value.email), userEmail).Some?;
      assert FindGroup(a.dir.groups, groupEmail) == FindGroup(o.remote.groups, groupEmail);
    }
  }

  /** The client's state: the remote directory, the shadow store, the user cache. */
  class MigrationUtilChangeClient {
    const cfg: LiveClient.Config
    const shadow: DryRunChangeClient
    var remote: Directory
    var userCache: map<string, Option<User>>
    /** How many user lookups reached the live client. */
    ghost var userFetches: nat

    /** Every cached answer is the live client's answer for that key. */
    ghost predicate Valid()
      reads this
    {
      forall k | k in userCache :: userCache[k] == FindUser(remote.users, k)
    }

    ghost function State(): Overlay
      reads this, shadow
    {
      Overlay(remote, shadow.State(), cfg)
    }

    constructor(remote: Directory, cfg: LiveClient.Config)
      ensures State() == Overlay(remote, EmptyShadow(), cfg)
      ensures userCache == map[] && userFetches == 0
      ensures Valid()
    {
      this.cfg := cfg;
      shadow := new DryRunChangeClient();
      this.remote := remote;
      userCache := map[];
      userFetches := 0;
    }

    method CreateGroup(customerId: string, email: string, name: string, description: string) returns (r: Result<()>)
      requires Valid()
      modifies this, shadow
      ensures Valid() && userCache == old(userCache)
      ensures Effect(State(), r) == old(State()).CreateGroup(customerId, email, name, description)
    {
      if cfg.dryRun {
        shadow.CreateGroup(customerId, email, name, description);
        r := Ok(());
      } else {
        var a := LiveClient.CreateGroup(remote, cfg, customerId, email, name, description);
        remote := a.dir;
        r := a.result;
      }
    }

    method GetOu(ouId: string) returns (r: Result<Option<OrgUnit>>)
      ensures r == State().GetOu(ouId)
    {
      r := LiveClient.GetOu(remote, ouId);
    }

    /** A key asked before is answered from the cache, without a live call. */
    method GetUser(key: string) returns (r: Result<Option<User>>)
      requires Valid()
      modifies this
      ensures Valid()
      ensures remote == old(remote)
      ensures r == old(State()).GetUser(key)
      ensures userCache == old(userCache)[key := r.value]
      ensures userFetches == old(userFetches) + (if key in old(userCache) then 0 else 1)
    {
      if key in userCache {
        return Ok(userCache[key]);
      }
      r := LiveClient.GetUser(remote, key);
      userCache := userCache[key := r.value];
      userFetches := userFetches + 1;
    }

    method GetGroup(key: string) returns (r: Result<Option<Group>>)
      ensures r == State().GetGroup(key)
    {
      r := LiveClient.GetGroup(remote, key);
      if r == Ok(None) && cfg.dryRun {
        var s := shadow.GetGroup(key);
        r := Ok(s);
      }
    }

    method GetGroupMembers(groupEmail: string) returns (r: Result<seq<Member>>)
      ensures r == State().GetGroupMembers(groupEmail)
    {
      r := LiveClient.GetGroupMembers(remote, cfg, groupEmail);
      if r.Ok? && cfg.dryRun {
        var more := shadow.GetGroupMembers(groupEmail);
        r := Ok(r.value + more);
      }
    }

    method GroupHasMember(groupEmail: string, userEmail: string) returns (r: Result<bool>)
      ensures r == State().GroupHasMember(groupEmail, userEmail)
    {
      r := LiveClient.GroupHasMember(remote, groupEmail, userEmail);
      if r == Ok(false) && cfg.dryRun {
        var has := shadow.GroupHasMember(groupEmail, userEmail);
        r := Ok(has);
      }
    }

    method GetRootOu() returns (r: Result<string>)
      ensures r == State().GetRootOu()
    {
      r := LiveClient.GetRootOu(remote);
    }

    method ListRoleAssignments(roleId: Option<string>, userId: Option<string>) returns (r: Result<seq<RoleAssignment>>)
      ensures r == State().ListRoleAssignments(roleId, userId)
    {
      if roleId.Some? && userId.Some? {
        return Err(AssertionError(BOTH_FILTERS_MESSAGE));
      }
      r := LiveClient.ListRoleAssignments(remote, cfg, roleId, userId);
      if r.Ok? && cfg.dryRun {
        var shadowed := shadow.ListRoleAssignments(roleId, userId);
        var deletedIds := shadow.ListDeletedRoleAssignments();
        r := Ok(NotDeleted(r.value + shadowed.value, deletedIds));
      }
    }

    method ListRoles() returns (r: Result<seq<Role>>)
      ensures r == State().ListRoles()
    {
      r := LiveClient.ListRoles(remote, cfg);
    }

    method DeleteRoleAssignment(id: string) returns (r: Result<bool>)
      requires Valid()
      modifies this, shadow
      ensures Valid() && userCache == old(userCache)
      ensures Effect(State(), r) == old(State()).DeleteRoleAssignment(id)
    {
      if cfg.dryRun {
        var ok := shadow.DeleteRoleAssignment(id);
        r := Ok(ok);
      } else {
        var a := LiveClient.DeleteRoleAssignment(remote, cfg, id);
        remote := a.dir;
        r := a.result;
      }
    }

    method InsertMemberIntoGroup(userEmail: string, userId: string, groupEmail: string) returns (r: Result<()>)
      requires Valid()
      modifies this, shadow
      ensures Valid() && userCache == old(userCache)
      ensures Effect(State(), r) == old(State()).InsertMemberIntoGroup(userEmail, userId, groupEmail)
    {
      var has := GroupHasMember(groupEmail, userEmail);
      if has.value {
        return Ok(());
      }
      if cfg.dryRun {
        shadow.InsertMemberIntoGroup(userEmail, userId, groupEmail);
        r := Ok(());
      } else {
        var a := LiveClient.InsertMemberIntoGroup(remote, cfg, userEmail, userId, groupEmail);
        remote := a.dir;
        r := a.result;
      }
    }

    method InsertRoleAssignment(ra: RoleAssignment) returns (r: Result<()>)
      requires Valid()
      modifies this, shadow
      ensures Valid() && userCache == old(userCache)
      ensures Effect(State(), r) == old(State()).InsertRoleAssignment(ra)
    {
      if cfg.dryRun {
        shadow.InsertRoleAssignment(ra.(roleAssignmentId := DUMMY_ID));
        r := Ok(());
      } else {
        var a := LiveClient.InsertRoleAssignment(remote, cfg, ra);
        remote := a.dir;
        r := a.result;
      }
    }

    method GetRole(roleId: string) returns (r: Result<Role>)
      ensures r == State().GetRole(roleId)
    {
      r := LiveClient.GetRole(remote, roleId);
    }

    method GetCustomer() returns (c: Customer)
      ensures c == State().GetCustomer()
    {
      c := LiveClient.GetCustomer(remote);
    }

    method GetPrimaryEmail() returns (r: Result<Option<string>>)
      ensures r == State().GetPrimaryEmail()
    {
      r := LiveClient.GetPrimaryEmail(remote);
    }

    /** Scans the assignments listed for the role and stops at the first match. */
    method GetRoleAssignment(ra: RoleAssignment) returns (r: Result<Option<RoleAssignment>>)
      ensures r == State().GetRoleAssignment(ra)
    {
      var listed := ListRoleAssignments(Some(ra.roleId), None);
      if listed.Err? {
        return Err(listed.error);
      }
      var ras := listed.value;
      var k := 0;
      while k < |ras|
        invariant 0 <= k <= |ras|
        invariant forall j | 0 <= j < k :: !GrantMatches(ras[j], ra)
      {
        if GrantMatches(ras[k], ra) {
          return Ok(Some(ra));
        }
        k := k + 1;
      }
      r := Ok(None);
    }

    method InsertRa(roleId: string, email: string, assigneeType: string, scopeType: string, orgUnit: Option<string>)
      returns (r: Result<()>)
      requires Valid()
      modifies this, shadow
      ensures Valid() && userCache == old(userCache)
      ensures Effect(State(), r) == old(State()).InsertRa(roleId, email, assigneeType, scopeType, orgUnit)
    {
      if assigneeType != "group" {
        return Err(AssertionError(NOT_GROUP_ASSIGNEE_MESSAGE + assigneeType));
      }
      var g := GetGroup(email);
      if g.Err? {
        return Err(g.error);
      }
      if g.value.None? {
        return Err(TypeError(NONE_SUBSCRIPT_MESSAGE));
      }
      var ra := GroupGrant(roleId, g.value.value.id, assigneeType, scopeType, orgUnit);
      var found := GetRoleAssignment(ra);
      if found.Err? {
        return Err(found.error);
      }
      if found.value.Some? {
        return Ok(());
      }
      r := InsertRoleAssignment(ra);
    }
  }
}

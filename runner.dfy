/**
 * phase_wise_runner.py: the precheck and the three phases (read, modify,
 * cleanup) as functions of the overlay state, and class `PhaseWiseRunner`
 * whose methods run them through a `MigrationUtility` object.
 */
module Runner {
  import opened Base
  import opened Directory
  import LiveClient
  import opened DryRun
  import opened ChangeClient
  import opened Planner
  import opened Migration
  import opened MigrationUtil

  const PRECHECK_MESSAGE: string :=
    "Must run script with authority ( Oauth consent ) of super-admin. See README for details"

  // ---------------------------------------------------------------------
  // do_precheck
  // ---------------------------------------------------------------------

  /** `do_precheck`: RuntimeError when the caller is found not to be a super-admin. */
  function Precheck(o: Overlay): Result<()> {
    match CheckPrincipalIsSuperAdmin(o)
    case Err(e) => Err(e)
    case Ok(isSa) => if isSa then Ok(()) else Err(RuntimeError(PRECHECK_MESSAGE))
  }

  /**
   * The precheck passes when the caller's email cannot be read, and when
   * one of the caller's assignments is of a super-admin role (every role
   * listed being readable); it fails with the super-admin message when the
   * caller's assignments cannot be listed or none is of such a role.  No
   * other error ever comes out of it.
   */
  lemma PrecheckOutcomes(o: Overlay)
    ensures Precheck(o) == Ok(()) || Precheck(o) == Err(RuntimeError(PRECHECK_MESSAGE))
    ensures !(o.GetPrimaryEmail().Ok? && o.GetPrimaryEmail().value.Some?) ==> Precheck(o) == Ok(())
    ensures o.GetPrimaryEmail().Ok? && o.GetPrimaryEmail().value.Some? ==>
      var listed := o.ListRoleAssignments(None, Some(o.GetPrimaryEmail().value.value));
      && (listed.Err? ==> Precheck(o).Err?)
      && (listed.Ok? && (forall x | x in listed.value :: o.GetRole(x.roleId).Ok?) ==>
            (Precheck(o).Ok? <==> exists x | x in listed.value :: o.GetRole(x.roleId).value.isSuperAdminRole))
  {
    PrecheckCases(o);
  }

  // ---------------------------------------------------------------------
  // do_phase_read
  // ---------------------------------------------------------------------

  /** A row of the table of role-scopes to convert. */
  datatype RoleScopeRow = RoleScopeRow(roleName: string, roleId: string, scope: string, count: nat)

  /** A row of the table of scopes over the limit. */
  datatype ScopeRow = ScopeRow(scope: string, count: nat)

  /** The two tables the read phase writes to the log. */
  datatype ReadReport = ReadReport(scopesOverLimit: seq<ScopeRow>, roleScopesToModify: seq<RoleScopeRow>)

  /** The role-scope rows, bucket by bucket; a role that cannot be read raises. */
  function RoleRowsFrom(o: Overlay, rsm: seq<Bucket<RoleScope>>, acc: seq<RoleScopeRow>): Result<seq<RoleScopeRow>>
    decreases |rsm|
  {
    if rsm == [] then Ok(acc)
    else
      var rs := rsm[0].key;
      match o.GetRole(rs.roleId)
      case Err(e) => Err(e)
      case Ok(role) =>
        RoleRowsFrom(o, rsm[1..], acc + [RoleScopeRow(role.roleName, rs.roleId,
                                                      HumanScopeName(o, rs.scopeType, rs.orgUnit), |rsm[0].ras|)])
  }

  /** The scope rows: buckets holding fewer records than the limit are skipped. */
  function ScopeRowsFrom(sm: seq<Bucket<string>>, raLimit: int, acc: seq<ScopeRow>): seq<ScopeRow>
    decreases |sm|
  {
    if sm == [] then acc
    else if |sm[0].ras| < raLimit then ScopeRowsFrom(sm[1..], raLimit, acc)
    else ScopeRowsFrom(sm[1..], raLimit, acc + [ScopeRow(sm[0].key, |sm[0].ras|)])
  }

  /**
   * `do_phase_read`: None when either map is empty (the phase logs
   * nothing), else the two tables.
   */
  function PhaseRead(o: Overlay, p: Limits): Result<Option<ReadReport>> {
    match RoleScopeMap(o, p, true)
    case Err(e) => Err(e)
    case Ok(rsm) =>
      match ScopeMap(o, p.raLimit, true, true)
      case Err(e) => Err(e)
      case Ok(sm) =>
        if rsm == [] || sm == [] then Ok(None)
        else
          match RoleRowsFrom(o, rsm, [])
          case Err(e) => Err(e)
          case Ok(rows) => Ok(Some(ReadReport(ScopeRowsFrom(sm, p.raLimit, []), rows)))
  }

  lemma {:induction false} RoleRowsFromSpec(o: Overlay, rsm: seq<Bucket<RoleScope>>, acc: seq<RoleScopeRow>)
    requires RoleRowsFrom(o, rsm, acc).Ok?
    ensures var rows := RoleRowsFrom(o, rsm, acc).value;
      && |rows| == |acc| + |rsm|
      && rows[..|acc|] == acc
      && forall i | 0 <= i < |rsm| ::
           && rows[|acc| + i].roleId == rsm[i].key.roleId
           && o.GetRole(rsm[i].key.roleId).Ok?
           && rows[|acc| + i].roleName == o.GetRole(rsm[i].key.roleId).value.roleName
           && rows[|acc| + i].scope == HumanScopeName(o, rsm[i].key.scopeType, rsm[i].key.orgUnit)
           && rows[|acc| + i].count == |rsm[i].ras|
    decreases |rsm|
  {
    if rsm != [] {
      var rs := rsm[0].key;
      var row := RoleScopeRow(o.GetRole(rs.roleId).value.roleName, rs.roleId,
                              HumanScopeName(o, rs.scopeType, rs.orgUnit), |rsm[0].ras|);
      RoleRowsFromSpec(o, rsm[1..], acc + [row]);
      var rows := RoleRowsFrom(o, rsm, acc).value;
      assert rows[..|acc| + 1] == acc + [row];
      assert rows[..|acc|] == (acc + [row])[..|acc|];
      forall i | 0 <= i < |rsm|
        ensures rows[|acc| + i].roleId == rsm[i].key.roleId
        ensures o.GetRole(rsm[i].key.roleId).Ok?
        ensures rows[|acc| + i].roleName == o.GetRole(rsm[i].key.roleId).value.roleName
        ensures rows[|acc| + i].scope == HumanScopeName(o, rsm[i].key.scopeType, rsm[i].key.orgUnit)
        ensures rows[|acc| + i].count == |rsm[i].ras|
      {
        if i == 0 {
          assert rows[|acc|] == (acc + [row])[|acc|];
        } else {
          assert rsm[i] == rsm[1..][i - 1];
          assert |acc| + i == |acc + [row]| + (i - 1);
        }
      }
    }
  }

  lemma {:induction false} ScopeRowsKeepAll(sm: seq<Bucket<string>>, raLimit: int, acc: seq<ScopeRow>)
    requires forall b | b in sm :: |b.ras| > raLimit
    ensures var rows := ScopeRowsFrom(sm, raLimit, acc);
      && |rows| == |acc| + |sm|
      && rows[..|acc|] == acc
      && forall i | 0 <= i < |sm| :: rows[|acc| + i] == ScopeRow(sm[i].key, |sm[i].ras|)
    decreases |sm|
  {
    if sm != [] {
      assert sm[0] in sm;
      var row := ScopeRow(sm[0].key, |sm[0].ras|);
      assert forall b | b in sm[1..] :: b in sm;
      ScopeRowsKeepAll(sm[1..], raLimit, acc + [row]);
      var rows := ScopeRowsFrom(sm, raLimit, acc);
      assert rows[..|acc|] == (acc + [row])[..|acc|];
      forall i | 0 <= i < |sm|
        ensures rows[|acc| + i] == ScopeRow(sm[i].key, |sm[i].ras|)
      {
        if i == 0 {
          assert rows[|acc|] == (acc + [row])[|acc|];
        } else {
          assert sm[i] == sm[1..][i - 1];
          assert |acc| + i == |acc + [row]| + (i - 1);
        }
      }
    }
  }

  /** A report is made of the two maps, whose role rows could all be read. */
  lemma PhaseReadParts(o: Overlay, p: Limits)
    requires PhaseRead(o, p).Ok? && PhaseRead(o, p).value.Some?
    ensures RoleScopeMap(o, p, true).Ok? && ScopeMap(o, p.raLimit, true, true).Ok?
    ensures RoleRowsFrom(o, RoleScopeMap(o, p, true).value, []).Ok?
    ensures forall b | b in ScopeMap(o, p.raLimit, true, true).value :: |b.ras| > p.raLimit
    ensures PhaseRead(o, p).value.value
         == ReadReport(ScopeRowsFrom(ScopeMap(o, p.raLimit, true, true).value, p.raLimit, []),
                       RoleRowsFrom(o, RoleScopeMap(o, p, true).value, []).value)
  {
  }

  /**
   * The read phase's tables: one row per selected role-scope, with the
   * role's name and id, the scope's readable name and the bucket's size;
   * and one row per scope over the limit, in the order of the map, with
   * its size.  Every scope of the filtered map is over the limit, so the
   * phase's own `< ra_limit` test never skips a row.
   */
  lemma PhaseReadReport(o: Overlay, p: Limits)
    requires PhaseRead(o, p).Ok? && PhaseRead(o, p).value.Some?
    ensures var rep := PhaseRead(o, p).value.value;
      var rsm := RoleScopeMap(o, p, true).value;
      var sm := ScopeMap(o, p.raLimit, true, true).value;
      && |rep.roleScopesToModify| == |rsm|
      && (forall i | 0 <= i < |rsm| ::
            && rep.roleScopesToModify[i].roleId == rsm[i].key.roleId
            && o.GetRole(rsm[i].key.roleId).Ok?
            && rep.roleScopesToModify[i].roleName == o.GetRole(rsm[i].key.roleId).value.roleName
            && rep.roleScopesToModify[i].scope == HumanScopeName(o, rsm[i].key.scopeType, rsm[i].key.orgUnit)
            && rep.roleScopesToModify[i].count == |rsm[i].ras|)
      && |rep.scopesOverLimit| == |sm|
      && (forall i | 0 <= i < |sm| ::
            rep.scopesOverLimit[i] == ScopeRow(sm[i].key, |sm[i].ras|) && rep.scopesOverLimit[i].count > p.raLimit)
  {
    var rsm := RoleScopeMap(o, p, true).value;
    var sm := ScopeMap(o, p.raLimit, true, true).value;
    PhaseReadParts(o, p);
    RoleRowsFromSpec(o, rsm, []);
    ScopeRowsKeepAll(sm, p.raLimit, []);
    forall i | 0 <= i < |sm|
      ensures |sm[i].ras| > p.raLimit
    {
      assert sm[i] in sm;
    }
  }

  // ---------------------------------------------------------------------
  // do_phase_modify
  // ---------------------------------------------------------------------

  /** The members step of the modify phase, role-scope by role-scope of the recomputed map. */
  function AddAllAssignees(o: Overlay, m: seq<Bucket<RoleScope>>): Effect<()>
    decreases |m|
  {
    if m == [] then Effect(o, Ok(()))
    else
      var e := AddAssignees(o, m[0].ras);
      if e.result.Err? then e else AddAllAssignees(e.state, m[1..])
  }

  /**
   * `do_phase_modify`: create the groups of the selected role-scopes,
   * grant each role to its group, then, from a map computed afresh, add
   * the users to the groups.
   */
  function PhaseModify(o: Overlay, p: Limits): Effect<()> {
    match RoleScopeMap(o, p, true)
    case Err(e) => Effect(o, Err(e))
    case Ok(m) =>
      var c := CreateGroups(o, m);
      if c.result.Err? then c
      else
        var a := MakeRaToGroups(c.state, m);
        if a.result.Err? then a
        else
          match RoleScopeMap(a.state, p, true)
          case Err(e) => Effect(a.state, Err(e))
          case Ok(m2) => AddAllAssignees(a.state, m2)
  }

  lemma {:induction false} AddAllAssigneesKeepsGroups(o: Overlay, m: seq<Bucket<RoleScope>>)
    ensures SameGroups(o, AddAllAssignees(o, m).state)
    decreases |m|
  {
    if m != [] {
      var e := AddAssignees(o, m[0].ras);
      AddAssigneesKeepsAssignments(o, Matching(AssigneeType, "group", m[0].ras),
                                   Matching(AssigneeType, "user", m[0].ras), []);
      if e.result.Ok? {
        AddAllAssigneesKeepsGroups(e.state, m[1..]);
      }
    }
  }

  /**
   * After a modify phase that ends normally, the group of every role-scope
   * selected at its start exists: the later steps create no group and
   * remove none.
   */
  lemma PhaseModifyMakesGroups(o: Overlay, p: Limits)
    requires PhaseModify(o, p).result.Ok?
    ensures RoleScopeMap(o, p, true).Ok?
    ensures forall b | b in RoleScopeMap(o, p, true).value ::
      && PhaseModify(o, p).state.GetGroup(GroupEmail(b.key, o.GetCustomer().customerDomain)).Ok?
      && PhaseModify(o, p).state.GetGroup(GroupEmail(b.key, o.GetCustomer().customerDomain)).value.Some?
  {
    var m := RoleScopeMap(o, p, true).value;
    var c := CreateGroups(o, m);
    var a := MakeRaToGroups(c.state, m);
    var m2 := RoleScopeMap(a.state, p, true).value;
    CreateGroupsIdempotent(o, m);
    MakeRaToGroupsFromKeepsGroups(c.state, m, AssignedTo, c.state.GetCustomer().customerDomain);
    AddAllAssigneesKeepsGroups(a.state, m2);
    forall b | b in m
      ensures PhaseModify(o, p).state.GetGroup(GroupEmail(b.key, o.GetCustomer().customerDomain)).Ok?
      ensures PhaseModify(o, p).state.GetGroup(GroupEmail(b.key, o.GetCustomer().customerDomain)).value.Some?
    {
      var email := GroupEmail(b.key, o.GetCustomer().customerDomain);
      SameGroupsSameGroup(c.state, a.state, email);
      SameGroupsSameGroup(a.state, AddAllAssignees(a.state, m2).state, email);
    }
  }

  // ---------------------------------------------------------------------
  // do_phase_cleanup
  // ---------------------------------------------------------------------

  /** The cleanup step, role-scope by role-scope; the ids asked to be deleted are appended to `log`. */
  function CleanupAll(o: Overlay, m: seq<Bucket<RoleScope>>, log: seq<string>): Effect<seq<string>>
    decreases |m|
  {
    if m == [] then Effect(o, Ok(log))
    else
      var c := Cleanup(o, m[0].ras);
      if c.result.Err? then c else CleanupAll(c.state, m[1..], log + c.result.value)
  }

  /**
   * `do_phase_cleanup`: the super-admin pass when enabled, then the cleanup
   * of every role-scope of the unfiltered map.  The result lists the ids
   * the phase deleted or asked to delete, in order.
   */
  function PhaseCleanup(o: Overlay, p: Limits, deleteDupRasToSa: bool): Effect<seq<string>> {
    var s := if deleteDupRasToSa then DeleteDupRaToSas(o, p.raLimit) else Effect(o, Ok([]));
    if s.result.Err? then s
    else
      match RoleScopeMap(s.state, p, false)
      case Err(e) => Effect(s.state, Err(e))
      case Ok(m) => CleanupAll(s.state, m, s.result.value)
  }

  lemma {:induction false} CleanupAllDeletesOnlyUserRecords(o: Overlay, m: seq<Bucket<RoleScope>>, log: seq<string>)
    requires CleanupAll(o, m, log).result.Ok?
    ensures forall id | id in CleanupAll(o, m, log).result.value ::
      id in log || exists b, x | b in m && x in b.ras :: x.roleAssignmentId == id && ValueMatches(x.assigneeType, "user")
    decreases |m|
  {
    if m != [] {
      var c := Cleanup(o, m[0].ras);
      CleanupDeletesOnlyUserRecords(o, m[0].ras);
      CleanupAllDeletesOnlyUserRecords(c.state, m[1..], log + c.result.value);
      assert m[0] in m;
      assert forall b | b in m[1..] :: b in m;
    }
  }

  /**
   * Without the super-admin pass, the cleanup phase deletes user
   * assignments only: every id it reports is that of an assignment, of
   * assignee type "user", filed in the unfiltered role-scope map.
   */
  lemma PhaseCleanupDeletesOnlyUserRecords(o: Overlay, p: Limits)
    requires PhaseCleanup(o, p, false).result.Ok?
    ensures RoleScopeMap(o, p, false).Ok?
    ensures forall id | id in PhaseCleanup(o, p, false).result.value ::
      exists b, x | b in RoleScopeMap(o, p, false).value && x in b.ras ::
        x.roleAssignmentId == id && ValueMatches(x.assigneeType, "user")
  {
    CleanupAllDeletesOnlyUserRecords(o, RoleScopeMap(o, p, false).value, []);
  }

  /**
   * With the super-admin pass on, the phase deletes the pass's duplicates
   * (judged when the phase begins) and, after the pass, only user
   * assignments of the role-scope map of the state the pass leaves.
   */
  lemma PhaseCleanupWithSuperAdminPass(o: Overlay, p: Limits)
    requires PhaseCleanup(o, p, true).result.Ok?
    ensures DeleteDupRaToSas(o, p.raLimit).result.Ok?
    ensures Thins(o, DeleteDupRaToSas(o, p.raLimit).state)
    ensures RoleScopeMap(DeleteDupRaToSas(o, p.raLimit).state, p, false).Ok?
    ensures forall id | id in PhaseCleanup(o, p, true).result.value ::
      || SaDuplicate(o, p.raLimit, id)
      || exists b, x | b in RoleScopeMap(DeleteDupRaToSas(o, p.raLimit).state, p, false).value && x in b.ras ::
           x.roleAssignmentId == id && ValueMatches(x.assigneeType, "user")
  {
    var s := DeleteDupRaToSas(o, p.raLimit);
    DeleteDupRaToSasDeletesOnlyDuplicates(o, p.raLimit);
    CleanupAllDeletesOnlyUserRecords(s.state, RoleScopeMap(s.state, p, false).value, s.result.value);
  }

  lemma {:induction false} CleanupAllComplete(o: Overlay, m: seq<Bucket<RoleScope>>, log: seq<string>)
    requires CleanupAll(o, m, log).result.Ok?
    ensures var e := CleanupAll(o, m, log);
      && SameMembership(o, e.state)
      && (forall id | Deleted(o, id) :: Deleted(e.state, id))
      && (forall id | id in log :: id in e.result.value)
      && forall b, x | b in m && x in b.ras && ValueMatches(x.assigneeType, "group") ::
           GroupCleaned(o, e.state, e.result.value, x, Matching(AssigneeType, "user", b.ras))
    decreases |m|
  {
    if m != [] {
      var c := Cleanup(o, m[0].ras);
      CleanupComplete(o, m[0].ras);
      var log' := log + c.result.value;
      CleanupAllComplete(c.state, m[1..], log');
      var e := CleanupAll(c.state, m[1..], log');
      forall b, x | b in m && x in b.ras && ValueMatches(x.assigneeType, "group")
        ensures GroupCleaned(o, e.state, e.result.value, x, Matching(AssigneeType, "user", b.ras))
      {
        if b == m[0] {
          GroupCleanedPersists(o, c.state, c.result.value, e.state, e.result.value, x,
                               Matching(AssigneeType, "user", b.ras));
        } else {
          assert b in m[1..];
          GroupCleanedSameMembership(o, c.state, e.state, e.result.value, x, Matching(AssigneeType, "user", b.ras));
        }
      }
    }
  }

  /**
   * Without the super-admin pass the cleanup phase is complete: for every
   * group assignment of the unfiltered role-scope map that names a
   * script-owned group, every member's one user assignment of that
   * role-scope is reported and its deletion in effect, and a member with
   * two makes the phase fail.
   */
  lemma PhaseCleanupComplete(o: Overlay, p: Limits)
    requires PhaseCleanup(o, p, false).result.Ok?
    ensures RoleScopeMap(o, p, false).Ok?
    ensures forall b, x | b in RoleScopeMap(o, p, false).value && x in b.ras && ValueMatches(x.assigneeType, "group") ::
      GroupCleaned(o, PhaseCleanup(o, p, false).state, PhaseCleanup(o, p, false).result.value, x,
                   Matching(AssigneeType, "user", b.ras))
  {
    CleanupAllComplete(o, RoleScopeMap(o, p, false).value, []);
  }

  /** Where no role is a super-admin role, enabling the super-admin pass changes nothing. */
  lemma PhaseCleanupNoSuperAdmin(o: Overlay, p: Limits)
    requires forall r | r in o.remote.roles :: !r.isSuperAdminRole
    ensures PhaseCleanup(o, p, true) == PhaseCleanup(o, p, false)
  {
    DeleteDupRaToSasNoSuperAdmin(o, p.raLimit);
  }

  // ---------------------------------------------------------------------
  // PhaseWiseRunner
  // ---------------------------------------------------------------------

  class PhaseWiseRunner {
    const util: MigrationUtility
    const deleteDupRasToSa: bool

    constructor(remote: Directory, cfg: LiveClient.Config, raLimit: int, rolesToForce: seq<int>,
                rolesToSkip: seq<int>, deleteDupRasToSa: bool)
      ensures util.client.State() == Overlay(remote, EmptyShadow(), cfg) && util.client.Valid()
      ensures util.Params() == Limits(raLimit, rolesToForce, rolesToSkip)
      ensures this.deleteDupRasToSa == deleteDupRasToSa
    {
      util := new MigrationUtility(remote, cfg, raLimit, rolesToForce, rolesToSkip);
      this.deleteDupRasToSa := deleteDupRasToSa;
    }

    /** `do_precheck`. */
    method DoPrecheck() returns (r: Result<()>)
      ensures r == Precheck(util.client.State())
    {
      var isSa := util.CheckPrincipalIsSuperAdmin();
      if isSa.Err? {
        return Err(isSa.error);
      }
      r := if isSa.value then Ok(()) else Err(RuntimeError(PRECHECK_MESSAGE));
    }

    /** `do_phase_read`: builds the two tables; nothing but the client's user cache changes. */
    method DoPhaseRead() returns (r: Result<Option<ReadReport>>)
      requires util.client.Valid()
      modifies util.client
      ensures util.client.Valid() && util.client.State() == old(util.client.State())
      ensures r == PhaseRead(util.client.State(), util.Params())
    {
      ghost var o := util.client.State();
      var rsm := util.RoleScopeMap(true);
      if rsm.Err? {
        return Err(rsm.error);
      }
      var sm := util.ScopeToRaMap(true, true);
      if sm.Err? {
        return Err(sm.error);
      }
      if rsm.value == [] || sm.value == [] {
        return Ok(None);
      }
      var roleRows: seq<RoleScopeRow> := [];
      var i := 0;
      while i < |rsm.value|
        invariant 0 <= i <= |rsm.value|
        invariant util.client.Valid() && util.client.State() == o
        invariant RoleRowsFrom(o, rsm.value[i..], roleRows) == RoleRowsFrom(o, rsm.value, [])
      {
        var b := rsm.value[i];
        assert rsm.value[i..][0] == b && rsm.value[i..][1..] == rsm.value[i + 1..];
        var role := util.client.GetRole(b.key.roleId);
        if role.Err? {
          return Err(role.error);
        }
        var scope := util.HumanScopeName(b.key.scopeType, b.key.orgUnit);
        roleRows := roleRows + [RoleScopeRow(role.value.roleName, b.key.roleId, scope, |b.ras|)];
        i := i + 1;
      }
      var scopeRows: seq<ScopeRow> := [];
      var k := 0;
      while k < |sm.value|
        invariant 0 <= k <= |sm.value|
        invariant ScopeRowsFrom(sm.value[k..], util.raLimit, scopeRows) == ScopeRowsFrom(sm.value, util.raLimit, [])
      {
        var b := sm.value[k];
        assert sm.value[k..][0] == b && sm.value[k..][1..] == sm.value[k + 1..];
        if |b.ras| >= util.raLimit {
          scopeRows := scopeRows + [ScopeRow(b.key, |b.ras|)];
        }
        k := k + 1;
      }
      r := Ok(Some(ReadReport(scopeRows, roleRows)));
    }

    /** `do_phase_modify`. */
    method DoPhaseModify() returns (r: Result<()>)
      requires util.client.Valid()
      modifies util.client, util.client.shadow
      ensures util.client.Valid()
      ensures Effect(util.client.State(), r) == PhaseModify(old(util.client.State()), util.Params())
    {
      var m := util.RoleScopeMap(true);
      if m.Err? {
        return Err(m.error);
      }
      var c := util.CreateGroups(m.value);
      if c.Err? {
        return c;
      }
      var a := util.MakeRaToGroups(m.value);
      if a.Err? {
        return a;
      }
      var m2 := util.RoleScopeMap(true);
      if m2.Err? {
        return Err(m2.error);
      }
      var i := 0;
      while i < |m2.value|
        invariant 0 <= i <= |m2.value|
        invariant util.client.Valid()
        invariant AddAllAssignees(util.client.State(), m2.value[i..]) == PhaseModify(old(util.client.State()), util.Params())
      {
        var b := m2.value[i];
        assert m2.value[i..][0] == b && m2.value[i..][1..] == m2.value[i + 1..];
        var e := util.AddAssigneesToGroupAtScope(b.key, b.ras);
        if e.Err? {
          return e;
        }
        i := i + 1;
      }
      r := Ok(());
    }

    /** `do_phase_cleanup`. */
    method DoPhaseCleanup() returns (r: Result<seq<string>>)
      requires util.client.Valid()
      modifies util.client, util.client.shadow
      ensures util.client.Valid()
      ensures Effect(util.client.State(), r) == PhaseCleanup(old(util.client.State()), util.Params(), deleteDupRasToSa)
    {
      var deleted: seq<string> := [];
      if deleteDupRasToSa {
        var s := util.DeleteDupRaToSas();
        if s.Err? {
          return s;
        }
        deleted := s.value;
      }
      var m := util.RoleScopeMap(false);
      if m.Err? {
        return Err(m.error);
      }
      var i := 0;
      while i < |m.value|
        invariant 0 <= i <= |m.value|
        invariant util.client.Valid()
        invariant CleanupAll(util.client.State(), m.value[i..], deleted)
               == PhaseCleanup(old(util.client.State()), util.Params(), deleteDupRasToSa)
      {
        var b := m.value[i];
        assert m.value[i..][0] == b && m.value[i..][1..] == m.value[i + 1..];
        var c := util.CleanupRoleAssignments(b.key, b.ras);
        if c.Err? {
          return c;
        }
        deleted := deleted + c.value;
        i := i + 1;
      }
      r := Ok(deleted);
    }
  }
}

/**
 * The dry-run shadow store (change_client/dry_run_change_client.py and its
 * identical copy utils/change_client/dry_run_change_client.py): the groups,
 * memberships and role assignments a dry run would have created, kept in
 * memory instead of being sent to the directory.
 *
 * `Shadow` is the store's contents as a value and the functions below are
 * its operations; class `DryRunChangeClient` keeps the same contents in
 * fields that its methods update in place, each method proved to move its
 * `State()` as the matching function says.
 *
 * The store also records the ids it was asked to delete, which the overlay
 * reads through `ListDeletedRoleAssignments` (see the README's findings).
 */
module DryRun {
  import opened Base
  import opened Directory

  const SHADOW_BOTH_FILTERS_MESSAGE: string := "DryRunChangeClient.list_role_assignments should not be invoked with both role_id and user_id set. "

  datatype Shadow = Shadow(
    ras: seq<RoleAssignment>,
    groups: map<string, Group>,
    groupToMembers: map<string, seq<Member>>,
    deleted: seq<string>)

  function EmptyShadow(): Shadow {
    Shadow([], map[], map[], [])
  }

  /** The group record the store keeps: its id is its email. */
  function ShadowGroup(customerId: string, email: string, name: string, description: string): Group {
    Group(email, email, name, description, customerId)
  }

  function ShadowCreateGroup(s: Shadow, customerId: string, email: string, name: string, description: string): Shadow {
    s.(groups := s.groups[email := ShadowGroup(customerId, email, name, description)])
  }

  function ShadowGetGroup(s: Shadow, key: string): Option<Group> {
    if key in s.groups then Some(s.groups[key]) else None
  }

  /** The members recorded for a group; a group never written to has none. */
  function ShadowMembers(s: Shadow, groupEmail: string): seq<Member> {
    if groupEmail in s.groupToMembers then s.groupToMembers[groupEmail] else []
  }

  function ShadowInsertMember(s: Shadow, userEmail: string, userId: string, groupEmail: string): Shadow {
    s.(groupToMembers := s.groupToMembers[groupEmail := ShadowMembers(s, groupEmail) + [Member(userEmail, userId)]])
  }

  predicate ShadowHasMember(s: Shadow, groupEmail: string, userEmail: string) {
    exists m | m in ShadowMembers(s, groupEmail) :: m.email == userEmail
  }

  function ShadowInsertRoleAssignment(s: Shadow, ra: RoleAssignment): Shadow {
    s.(ras := s.ras + [ra])
  }

  function ShadowDelete(s: Shadow, id: string): Shadow {
    s.(ras := WithoutId(s.ras, id), deleted := s.deleted + [id])
  }

  /** The records whose `userId` key is `userId`, in order. */
  function WithUserId(ras: seq<RoleAssignment>, userId: string): (r: seq<RoleAssignment>)
    ensures forall x :: x in r <==> x in ras && x.userId == Some(userId)
  {
    if ras == [] then []
    else (if ras[0].userId == Some(userId) then [ras[0]] else []) + WithUserId(ras[1..], userId)
  }

  function ShadowList(s: Shadow, roleId: Option<string>, userId: Option<string>): (r: Result<seq<RoleAssignment>>)
    ensures roleId.Some? && userId.Some? <==> r.Err?
    ensures r.Err? ==> r.error.AssertionError?
  {
    if roleId.Some? && userId.Some? then
      Err(AssertionError(SHADOW_BOTH_FILTERS_MESSAGE))
    else if roleId.Some? then Ok(WithRoleId(s.ras, roleId.value))
    else if userId.Some? then Ok(WithUserId(s.ras, userId.value))
    else Ok(s.ras)
  }

  /** Filtering by role id one record further along. */
  lemma {:induction false} WithRoleIdAppend(ras: seq<RoleAssignment>, x: RoleAssignment, roleId: string)
    ensures WithRoleId(ras + [x], roleId) == WithRoleId(ras, roleId) + (if x.roleId == roleId then [x] else [])
  {
    if ras != [] {
      assert (ras + [x])[1..] == ras[1..] + [x];
      WithRoleIdAppend(ras[1..], x, roleId);
    }
  }

  /** Filtering by user id one record further along. */
  lemma {:induction false} WithUserIdAppend(ras: seq<RoleAssignment>, x: RoleAssignment, userId: string)
    ensures WithUserId(ras + [x], userId) == WithUserId(ras, userId) + (if x.userId == Some(userId) then [x] else [])
  {
    if ras != [] {
      assert (ras + [x])[1..] == ras[1..] + [x];
      WithUserIdAppend(ras[1..], x, userId);
    }
  }

  // ---- properties of the store ----

  /** A created group reads back with id and email equal to the key; other keys are unaffected. */
  lemma CreateThenGet(s: Shadow, customerId: string, email: string, name: string, description: string, key: string)
    ensures var s' := ShadowCreateGroup(s, customerId, email, name, description);
      && ShadowGetGroup(s', email) == Some(Group(email, email, name, description, customerId))
      && (key != email ==> ShadowGetGroup(s', key) == ShadowGetGroup(s, key))
  {
  }

  /**
   * Inserting a member appends it, without looking for an existing record,
   * and leaves the other groups alone; afterwards the group has the member.
   */
  lemma InsertMemberAppends(s: Shadow, userEmail: string, userId: string, groupEmail: string, other: string)
    ensures var s' := ShadowInsertMember(s, userEmail, userId, groupEmail);
      && ShadowMembers(s', groupEmail) == ShadowMembers(s, groupEmail) + [Member(userEmail, userId)]
      && |ShadowMembers(s', groupEmail)| == |ShadowMembers(s, groupEmail)| + 1
      && ShadowHasMember(s', groupEmail, userEmail)
      && (other != groupEmail ==> ShadowMembers(s', other) == ShadowMembers(s, other))
  {
    var s' := ShadowInsertMember(s, userEmail, userId, groupEmail);
    var ms := ShadowMembers(s', groupEmail);
    assert ms[|ms| - 1] in ms;
  }

  /** Removing the records with an id distributes over concatenation: the others keep their order. */
  lemma {:induction false} WithoutIdConcat(a: seq<RoleAssignment>, b: seq<RoleAssignment>, id: string)
    ensures WithoutId(a + b, id) == WithoutId(a, id) + WithoutId(b, id)
  {
    if a == [] {
      assert a + b == b;
    } else {
      assert (a + b)[0] == a[0];
      assert (a + b)[1..] == a[1..] + b;
      WithoutIdConcat(a[1..], b, id);
    }
  }

  /**
   * Deleting an id removes every record with that id and keeps the others
   * in their order; deleting it again changes no record; a record inserted
   * and then deleted leaves the records as they were.
   */
  lemma DeleteRemovesAll(s: Shadow, id: string, ra: RoleAssignment)
    ensures forall x :: x in ShadowDelete(s, id).ras <==> x in s.ras && x.roleAssignmentId != id
    ensures ShadowDelete(ShadowDelete(s, id), id).ras == ShadowDelete(s, id).ras
    ensures ra.roleAssignmentId == id ==>
      ShadowDelete(ShadowInsertRoleAssignment(s, ra), id).ras == ShadowDelete(s, id).ras
  {
    WithoutIdTwice(s.ras, id);
    WithoutIdConcat(s.ras, [ra], id);
    assert [ra][1..] == [];
  }

  lemma {:induction false} WithoutIdTwice(ras: seq<RoleAssignment>, id: string)
    ensures WithoutId(WithoutId(ras, id), id) == WithoutId(ras, id)
  {
    if ras != [] {
      WithoutIdTwice(ras[1..], id);
      var rest := WithoutId(ras[1..], id);
      if ras[0].roleAssignmentId != id {
        var once := [ras[0]] + rest;
        assert WithoutId(ras, id) == once;
        assert once[0] == ras[0];
        assert once[1..] == rest;
        assert WithoutId(once, id) == [ras[0]] + WithoutId(rest, id);
      } else {
        assert WithoutId(ras, id) == [] + rest;
        assert [] + rest == rest;
      }
    }
  }

  /** A listing by role or by user is the matching part of the records, in order; no filter lists them all. */
  lemma ListIsFilter(s: Shadow, roleId: Option<string>, userId: Option<string>)
    ensures roleId.None? && userId.None? ==> ShadowList(s, roleId, userId) == Ok(s.ras)
    ensures roleId.Some? && userId.None? ==>
      ShadowList(s, roleId, userId).Ok? &&
      forall x :: x in ShadowList(s, roleId, userId).value <==> x in s.ras && x.roleId == roleId.value
    ensures roleId.None? && userId.Some? ==>
      ShadowList(s, roleId, userId).Ok? &&
      forall x :: x in ShadowList(s, roleId, userId).value <==> x in s.ras && x.userId == userId
  {
    if roleId.Some? && userId.None? {
      assert ShadowList(s, roleId, userId) == Ok(WithRoleId(s.ras, roleId.value));
    } else if roleId.None? && userId.Some? {
      assert ShadowList(s, roleId, userId) == Ok(WithUserId(s.ras, userId.value));
    }
  }

  /** The shadow store, with the fields the Python class mutates. */
  class DryRunChangeClient {
    var ras: seq<RoleAssignment>
    var groups: map<string, Group>
    var groupToMembers: map<string, seq<Member>>
    var deleted: seq<string>

    ghost function State(): Shadow
      reads this
    {
      Shadow(ras, groups, groupToMembers, deleted)
    }

    constructor()
      ensures State() == EmptyShadow()
    {
      ras := [];
      groups := map[];
      groupToMembers := map[];
      deleted := [];
    }

    method CreateGroup(customerId: string, email: string, name: string, description: string)
      modifies this
      ensures State() == ShadowCreateGroup(old(State()), customerId, email, name, description)
    {
      groups := groups[email := ShadowGroup(customerId, email, name, description)];
    }

    method GetGroup(key: string) returns (r: Option<Group>)
      ensures r == ShadowGetGroup(State(), key)
    {
      r := if key in groups then Some(groups[key]) else None;
    }

    method InsertMemberIntoGroup(userEmail: string, userId: string, groupEmail: string)
      modifies this
      ensures State() == ShadowInsertMember(old(State()), userEmail, userId, groupEmail)
    {
      var ms := if groupEmail in groupToMembers then groupToMembers[groupEmail] else [];
      groupToMembers := groupToMembers[groupEmail := ms + [Member(userEmail, userId)]];
    }

    /** True as soon as a member with that email is found. */
    method GroupHasMember(groupEmail: string, userEmail: string) returns (has: bool)
      ensures has <==> ShadowHasMember(State(), groupEmail, userEmail)
    {
      var ms := if groupEmail in groupToMembers then groupToMembers[groupEmail] else [];
      var k := 0;
      while k < |ms|
        invariant 0 <= k <= |ms|
        invariant forall j | 0 <= j < k :: ms[j].email != userEmail
      {
        if ms[k].email == userEmail {
          return true;
        }
        k := k + 1;
      }
      return false;
    }

    method GetGroupMembers(groupEmail: string) returns (ms: seq<Member>)
      ensures ms == ShadowMembers(State(), groupEmail)
    {
      ms := if groupEmail in groupToMembers then groupToMembers[groupEmail] else [];
    }

    method InsertRoleAssignment(ra: RoleAssignment)
      modifies this
      ensures State() == ShadowInsertRoleAssignment(old(State()), ra)
    {
      ras := ras + [ra];
    }

    /** Removes every record with the id, records the id, and answers True. */
    method DeleteRoleAssignment(id: string) returns (deletedOk: bool)
      modifies this
      ensures deletedOk
      ensures State() == ShadowDelete(old(State()), id)
    {
      ras := WithoutId(ras, id);
      deleted := deleted + [id];
      deletedOk := true;
    }

    /** Both filters raise AssertionError; one filter keeps the records that match it, in order. */
    method ListRoleAssignments(roleId: Option<string>, userId: Option<string>)
      returns (r: Result<seq<RoleAssignment>>)
      ensures r == ShadowList(State(), roleId, userId)
    {
      if roleId.Some? && userId.Some? {
        r := Err(AssertionError(SHADOW_BOTH_FILTERS_MESSAGE));
      } else if roleId.Some? {
        var kept: seq<RoleAssignment> := [];
        for k := 0 to |ras|
          invariant kept == WithRoleId(ras[..k], roleId.value)
        {
          WithRoleIdAppend(ras[..k], ras[k], roleId.value);
          assert ras[..k + 1] == ras[..k] + [ras[k]];
          if ras[k].roleId == roleId.value {
            kept := kept + [ras[k]];
          }
        }
        assert ras[..|ras|] == ras;
        r := Ok(kept);
      } else if userId.Some? {
        var kept: seq<RoleAssignment> := [];
        for k := 0 to |ras|
          invariant kept == WithUserId(ras[..k], userId.value)
        {
          WithUserIdAppend(ras[..k], ras[k], userId.value);
          assert ras[..k + 1] == ras[..k] + [ras[k]];
          if ras[k].userId == Some(userId.value) {
            kept := kept + [ras[k]];
          }
        }
        assert ras[..|ras|] == ras;
        r := Ok(kept);
      } else {
        r := Ok(ras);
      }
    }

    /** The ids deleted so far, in the order of the calls. */
    method ListDeletedRoleAssignments() returns (ids: seq<string>)
      ensures ids == State().deleted
    {
      ids := deleted;
    }
  }
}

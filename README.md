# Group-based role assignment migration, modelled in Dafny

This project models the core of the group-based role assignment (GBRA)
migration utility. The utility converts a Workspace directory's per-user role
assignments into group assignments, so that the number of direct grants at
any scope stays under the platform's limit. It:

- buckets the assignments by scope and by role-scope (role, scope type,
  organisational unit);
- picks the role-scopes to convert with a greedy walk over the buckets,
  largest first, honouring `--roles_to_force_gbra`, `--roles_to_skip_gbra`
  and a safety check on roles;
- creates one security group per chosen role-scope, assigns the role to the
  group, adds the users as members, and deletes the user assignments the
  group makes redundant.

Every mutation goes through a change client. In a dry run the client records
the mutation in an in-memory shadow store and merges that store into its
reads. Otherwise it calls the Admin SDK through a client that retries
failures with exponential backoff.

The model follows the corrected program where the source is wrong (see "## Findings"). As written, every dry-run phase raises AttributeError at its first role-assignment listing, and `make_ra_to_groups` never sees the group's existing assignments: it calls `insert_ra` again for a role-scope already converted and raises no AssertionError for duplicates. The members that model the code as written are named beside each correction.

The files follow the source:

- `base.dfy` (module `Base`): options, results and the Python exceptions the
  model raises; string helpers; `int()` on role ids.
- `directory.dfy` (module `Directory`): the remote directory as a value,
  with the raw answers of its endpoints. It stands in for the HTTP service,
  which is not part of this model.
- `live_client.dfy` (module `LiveClient`): the control logic of
  `change_client/google_api_client.py`. This covers the retry decorator,
  pagination, root-OU discovery and the dry-run guards. Each endpoint is a
  function of the directory. `RetryWithCredentialRefresh` and
  `AccumulatePages` are the loops, proved against their specification
  functions.
- `dry_run.dfy` (module `DryRun`): `DryRunChangeClient`, the shadow store. It
  is a class whose fields the methods update, specified by pure functions on
  a `Shadow` value. `utils/change_client/dry_run_change_client.py` is a
  line-for-line copy of `change_client/dry_run_change_client.py`, and one
  model serves both.
- `change_client.dfy` (module `ChangeClient`): `MigrationUtilChangeClient`,
  the overlay. The datatype `Overlay` is its state: remote directory, shadow
  store and configuration. The member functions of `Overlay` are the
  specification. The class of the same name holds the fields and the user
  cache; each of its methods is proved to return and leave what the matching
  function says.
- `planner.dfy` (module `Planner`): the pure decision logic of
  `gbra_migration_util.py`, covering naming, matching, role safety,
  bucketing, sorting, the selection walk and the scope maps.
- `migration_util.dfy` (module `Migration`): the mutating steps of
  `gbra_migration_util.py`, each a function from an overlay state to the
  state it leaves and its result (`Effect`), and the lemmas about them.
- `migration_utility.dfy` (module `MigrationUtil`): class
  `MigrationUtility`, whose methods run the loops of the source over the
  client object. Each is proved equal to the function of the same step.
- `runner.dfy` (module `Runner`): `PhaseWiseRunner`'s precheck, read, modify
  and cleanup phases, as functions with lemmas and as a class whose methods
  are proved against them.

## Model

| member | source | states |
|---|---|---|
| `Base.ParseInt` | gbra_migration_util.py:223-231 | `int(roleId)` succeeds exactly on non-empty digit strings, with a non-negative value |
| `Base.ToLower` | gbra_migration_util.py:59 | `lower()` on ASCII: same length, each capital letter replaced by its small letter, every other character kept, and no capital letter left |
| `Planner.ScopeNamesAgree` | gbra_migration_util.py:98-111 | the scope name built from a record equals the name of its role-scope; concrete group names `role1-ORG_UNIT-OU1` and `role1-CUSTOMER` |
| `Planner.GroupNameInjective` | gbra_migration_util.py:65-70 | two role-scopes with digit role ids and known scope types that share a group name share the role and scope type, and the OU at ORG_UNIT scope |
| `Planner.GroupNamesAreScriptOwned` | gbra_migration_util.py:365-367 | every group name the tool builds (digit role id; OU id starting with a digit) matches the ownership pattern |
| `Planner.UserDefinedNameNotOwned` | gbra_migration_util.py:550-552 | a user-defined name such as `Helpdesk` does not match the ownership pattern |
| `Planner.Matching` | gbra_migration_util.py:33-62 | `list_of_dicts_matching` keeps exactly the records whose field, lower-cased, equals the value; never longer than its input |
| `Planner.MatchingAppend` | gbra_migration_util.py:57-62 | matching distributes over concatenation and keeps the input's order |
| `Planner.MatchingLowersItemOnly` | gbra_migration_util.py:60 | only the record's value is lower-cased: `USER` matches `user`, but `user` does not match `USER` |
| `Planner.AssigneeIdNeverMatches` | gbra_migration_util.py:438-440 | matching on the key `assigneeId`, which no record carries, returns nothing for any non-empty value |
| `Planner.CanRoleBeProcessed` | gbra_migration_util.py:481-508 | fails exactly when the role cannot be read; otherwise answers whether the role passes the safety check |
| `Planner.GcpMarkContainsResellerMark` | gbra_migration_util.py:489-491 | a name carrying the `_GCP_RESELLER_ADMIN_ROLE` mark also carries the reseller mark, so the first test subsumes the second |
| `Planner.HasHangoutsPrivilegeIff` | gbra_migration_util.py:499-507 | the privilege scan finds the Hangouts-reseller privilege exactly when the role holds it |
| `Planner.ProcessableIff` | gbra_migration_util.py:481-508 | a role is processable if and only if it is not super-admin, its name has no reseller mark, and it lacks the Hangouts privilege |
| `Planner.AddToBuckets` | gbra_migration_util.py:192-195 | adding a record to a keyed map appends it to its key's bucket and leaves every other bucket as it was |
| `Planner.GroupByPartition` | gbra_migration_util.py:186-195 | grouping gives distinct keys; each bucket is non-empty and holds exactly the records with its key, in order; every record has a bucket |
| `Planner.SortBySize` | gbra_migration_util.py:198-202 | sorting by bucket size is a permutation of the buckets |
| `Planner.SortBySizeSpec` | gbra_migration_util.py:198-202 | the sorted map is in descending order of size, a permutation of its input, and keeps keys distinct |
| `Planner.Listed` | gbra_migration_util.py:223-231 | membership in a force or skip list: ValueError exactly when the list is non-empty and the role id is not a number; true exactly when the number is in the list |
| `Planner.Step` | gbra_migration_util.py:206-251 | one bucket of the walk either extends the selection by that bucket or leaves it unchanged |
| `Planner.WalkExtends` | gbra_migration_util.py:207-251 | the walk only appends to the selection so far, and only buckets it was given |
| `Planner.WalkKeepsForced` | gbra_migration_util.py:223-229 | every bucket whose role is in the force list ends up selected |
| `Planner.WalkChoices` | gbra_migration_util.py:223-251 | every selected bucket was forced, or was neither skipped nor refused by the role safety check; a bucket not forced is taken only while the count that would remain before it is at least `ra_limit` |
| `Planner.WalkTakesOverLimit` | gbra_migration_util.py:238-246 | a bucket not forced is taken only while the count that would remain before it is at least `ra_limit` |
| `Planner.UnderLimitStopsSelection` | gbra_migration_util.py:238-246 | from a selection whose remaining count is under the limit, with no forced role among the remaining buckets and every skip-list test well-formed, the walk selects nothing more |
| `Planner.UnderLimitOnlyForced` | gbra_migration_util.py:223-246 | once the remaining count is under the limit, every bucket the rest of the walk selects is force-listed |
| `Planner.WalkGoal` | gbra_migration_util.py:207-251 | a successful walk ends under the limit, or else every bucket was selected, skip-listed or refused by the role safety check |
| `Planner.WalkRemainingNonIncreasing` | gbra_migration_util.py:216-222 | the remaining count after the walk never exceeds the remaining count before it |
| `Planner.FiveAndFourAtLimitFive` | gbra_migration_util.py:238 | buckets of 5 and 4 at limit 5 are both selected, because 9 - 4 = 5 is not under the limit |
| `Planner.FourAtLimitFive` | gbra_migration_util.py:238 | a lone bucket of 4 at limit 5 is not selected |
| `Planner.ForceBeatsSkipAndLimit` | gbra_migration_util.py:223-237 | a role in both the force and the skip lists is selected even under the limit |
| `Planner.WalkDistinct` | gbra_migration_util.py:206-251 | the selection never holds two buckets with the same role-scope |
| `Planner.Kept` | gbra_migration_util.py:173-185 | the records kept are exactly those passing the user-exists filter, in order |
| `Planner.RoleScopeBucketsSpec` | gbra_migration_util.py:172-204 | the role-scope buckets have distinct keys and are sorted by size; each holds exactly the kept records of its role-scope |
| `Planner.SelectionFromBuckets` | gbra_migration_util.py:158-252 | `get_filtered_role_scope_to_ra_map` selects only buckets of that scope's role-scopes, with distinct keys |
| `Planner.OverLimit` | gbra_migration_util.py:290-293 | the filtered map keeps exactly the scopes with more than `ra_limit` records |
| `Planner.ScopeMapSpec` | gbra_migration_util.py:254-295 | `get_scope_to_ra_map` files every listed record under its scope name, with distinct keys; a scope is kept exactly when the filter is off or it exceeds the limit |
| `Planner.RoleScopeMapDistinct` | gbra_migration_util.py:297-319 | merging the selections of all scopes never files two buckets under one role-scope, so the dict update loses nothing |
| `Migration.CreateGroupKeepsGroups` | gbra_migration_util.py:143-151 | creating a group leaves every group that already exists findable, and the customer unchanged |
| `Migration.CreateGroupsFromKeepsGroups` | gbra_migration_util.py:125-156 | the `create_groups` loop never loses a group that existed before it |
| `Migration.CreateGroupsFromMakesGroups` | gbra_migration_util.py:125-156 | after a successful `create_groups`, every role-scope of the map has its group |
| `Migration.CreateGroupsFromNoop` | gbra_migration_util.py:143-151 | when every group already exists, `create_groups` changes nothing |
| `Migration.CreateGroupsIdempotent` | gbra_migration_util.py:125-156 | running `create_groups` a second time changes nothing and succeeds |
| `Migration.MakeRaStepCases` | gbra_migration_util.py:420-459 | one role-scope of the corrected `make_ra_to_groups`: a missing group raises; one existing assignment to the group skips; several raise; none calls `insert_ra` at the role-scope's OU (root OU at customer scope) |
| `Migration.MakeRaAsWrittenMissesDuplicates` | gbra_migration_util.py:438-451 | as written, a bucket holding two assignments to the group goes on to `insert_ra`, while the corrected step raises |
| `Migration.InsertRaKeepsGroups` | change_client/migration_util_change_client.py:57-89 | `insert_ra` leaves every group and the customer as they were |
| `Migration.MakeRaStepKeepsGroups` | gbra_migration_util.py:420-459 | one role-scope of `make_ra_to_groups` leaves the groups as they were |
| `Migration.MakeRaToGroupsFromKeepsGroups` | gbra_migration_util.py:405-465 | the whole `make_ra_to_groups` loop leaves the groups as they were |
| `Migration.AddUsersKeepsAssignments` | gbra_migration_util.py:381-403 | adding users to a group changes neither the role assignments nor the set of groups |
| `Migration.AddAssigneesKeepsAssignments` | gbra_migration_util.py:321-403 | `add_assignees_to_group_at_scope` changes neither the role assignments nor the set of groups |
| `Migration.AddUserIdempotent` | gbra_migration_util.py:381-403 | adding a user a second time changes nothing and succeeds |
| `Migration.AddAssigneesSkipsUserDefined` | gbra_migration_util.py:360-371 | groups that are not script-owned are skipped: nothing changes |
| `Migration.AddAssigneesOneOwnedGroup` | gbra_migration_util.py:373-379 | a successful run saw at most one script-owned group at the role-scope |
| `Migration.InsertMemberKeepsJoined` | change_client/migration_util_change_client.py:198-210 | inserting a member keeps every existing member, live or shadow |
| `Migration.AddUserJoins` | gbra_migration_util.py:381-403 | adding the user of one assignment makes the user, when `get_user` finds it, a member of the group, and keeps every member |
| `Migration.AddUsersFromJoins` | gbra_migration_util.py:381-403 | the same for every user assignment of the role-scope |
| `Migration.AddAssigneesFromJoins` | gbra_migration_util.py:343-403 | the same for the script-owned group of the group loop |
| `Migration.AddAssigneesMakesMembers` | gbra_migration_util.py:321-403 | after a successful `add_assignees_to_group_at_scope`, every user `get_user` finds for a user assignment of the role-scope is a member of its script-owned group |
| `Migration.AddUsersUnknownChangeNothing` | gbra_migration_util.py:381-389 | users `get_user` cannot find are skipped without any change |
| `Migration.AddAssigneesFromUnknownChangeNothing` | gbra_migration_util.py:343-403 | the same for the group loop |
| `Migration.AddAssigneesUnknownChangeNothing` | gbra_migration_util.py:321-403 | when no user assignment of the role-scope resolves to a user, adding assignees leaves the state as it was |
| `Migration.CleanupMembersDeletesUserRecords` | gbra_migration_util.py:563-586 | every id the member loop reports deleted is the id of one of the role-scope's user assignments |
| `Migration.CleanupGroupDeletesUserRecords` | gbra_migration_util.py:533-586 | the same for one group assignment |
| `Migration.CleanupGroupsDeletesUserRecords` | gbra_migration_util.py:533-605 | the same for the whole group loop |
| `Migration.CleanupDeletesOnlyUserRecords` | gbra_migration_util.py:510-605 | `cleanup_role_assignments` deletes only user assignments of its own role-scope (its completeness is `Migration.CleanupComplete`) |
| `Migration.SameMembershipSameAnswers` | change_client/migration_util_change_client.py:139-149 | states with the same groups and members give the same `get_group` and `get_group_members` answers |
| `Migration.DeleteTakesEffect` | change_client/migration_util_change_client.py:192-196 | a successful delete takes effect (recorded in a dry run; gone live unless it is the caller's own), keeps earlier deletions in effect, and changes no group or membership |
| `Migration.DeletedIsNotListed` | change_client/migration_util_change_client.py:164-187 | a deletion in effect, other than a refused live self-revocation, hides the id from the unfiltered listing |
| `Migration.CleanupMemberCases` | gbra_migration_util.py:563-586 | per member: no user assignment skips, more than one raises AssertionError, exactly one is deleted, reported and in effect |
| `Migration.CleanupMembersComplete` | gbra_migration_util.py:563-586 | after a successful member loop, every member had at most one user assignment, which is reported and deleted; groups and members unchanged |
| `Migration.CleanupGroupComplete` | gbra_migration_util.py:533-586 | the same for one group assignment naming a script-owned group |
| `Migration.CleanupGroupsComplete` | gbra_migration_util.py:533-605 | the same for every group assignment of the group loop |
| `Migration.CleanupComplete` | gbra_migration_util.py:510-605 | after a successful `cleanup_role_assignments`, each member of each script-owned group of the role-scope had at most one user assignment there, and that one is reported and its deletion in effect |
| `Migration.CleanupSkipsUserDefinedGroups` | gbra_migration_util.py:541-554 | assignments to groups that are not script-owned lead to no deletion and no change |
| `Migration.SaUserLoopDeletes` | gbra_migration_util.py:630-656 | the loop over one super-admin user's listed assignments deletes only those not of the super-admin role at scopes over the limit |
| `Migration.SaUserDeletesOnlyDuplicates` | gbra_migration_util.py:607-656 | `delete_dup_ra_to_sa_user` deletes only listed assignments of the super-admin user that are not of the super-admin role and sit at a scope over the limit |
| `Migration.SaRolesLoopNoSuperAdmin` | gbra_migration_util.py:660-662 | with no super-admin role, the roles loop changes nothing |
| `Migration.SaUserLoopComplete` | gbra_migration_util.py:630-656 | after a successful loop, every listed assignment not of the super-admin role at a scope over the limit is deleted, and reported unless the live service answered False for it (absent, or a refused self-revocation); earlier deletions stay in effect, and every record that disappears from the full listing has its id reported |
| `Migration.SaUserDeletesAllDuplicates` | gbra_migration_util.py:607-656 | the completeness half of `delete_dup_ra_to_sa_user`: the same for the user's listing and the over-limit scope map read before the loop |
| `Migration.SaUserDuplicates` | gbra_migration_util.py:607-656 | the same pass for one super-admin user only removes assignments, and each id it reports is of an assignment listed for that user, not of the super-admin role, whose scope held more than the limit when the pass began |
| `Migration.SaAssignmentsLoopDeletes` | gbra_migration_util.py:666-670 | the loop over a super-admin role's assignees only removes assignments; each id it reports is such a duplicate of one of the listed assignees, judged in the state the loop began in |
| `Migration.SaRolesLoopDeletes` | gbra_migration_util.py:660-670 | the loop over the roles only removes assignments; each id it reports is such a duplicate for some super-admin role among them |
| `Migration.SaAssignmentsLoopRemovesOnlyReported` | gbra_migration_util.py:666-670 | over a super-admin role's assignees, every record that disappears from the full listing has its id reported |
| `Migration.SaRolesLoopRemovesOnlyReported` | gbra_migration_util.py:660-670 | the same over the roles loop |
| `Migration.DeleteDupRaToSasDeletesOnlyDuplicates` | gbra_migration_util.py:658-670 | `delete_dup_ra_to_sas` only removes assignments (`Thins`: configuration, users, roles and groups unchanged, no listed record more often than before), and each id it reports belonged, when it began, to an assignment listed for an assignee of a listed super-admin role, not of that role, in a scope holding more than the limit; every record that disappears from the full listing is such a duplicate |
| `Migration.DeleteDupRaToSasNoSuperAdmin` | gbra_migration_util.py:658-670 | with no super-admin role in the directory, `delete_dup_ra_to_sas` deletes nothing |
| `Migration.AnySuperAdminIff` | gbra_migration_util.py:684-688 | the role scan never raises; when every role can be read, it answers true exactly when one role is super-admin |
| `Migration.PrecheckCases` | gbra_migration_util.py:672-692 | `check_principal_is_super_admin` never raises: True when the caller is unknown, False when its assignments cannot be listed, otherwise whether one of its roles is super-admin |
| `MigrationUtil.ListOfDictsMatching` | gbra_migration_util.py:33-62 | the loop returns the specified matching records |
| `MigrationUtil.MigrationUtility.constructor` | gbra_migration_util.py:75-96 | a new utility starts from the given directory with an empty shadow and the given limits |
| `MigrationUtil.MigrationUtility.CanRoleBeProcessed` | gbra_migration_util.py:467-508 | the privilege loop answers as the specification of the safety check |
| `MigrationUtil.MigrationUtility.HumanScopeName` | gbra_migration_util.py:117-123 | the readable scope name, as specified |
| `MigrationUtil.MigrationUtility.KeptBuckets` | gbra_migration_util.py:172-195 | the bucketing loop groups the kept records by role-scope, leaving the client as it was |
| `MigrationUtil.MigrationUtility.Step` | gbra_migration_util.py:206-251 | one iteration of the selection walk, as specified |
| `MigrationUtil.MigrationUtility.FilteredRoleScopeMap` | gbra_migration_util.py:158-252 | the selection for one scope, as specified, leaving the client as it was |
| `MigrationUtil.MigrationUtility.ScopeKeyOf` | gbra_migration_util.py:270-283 | the key a record is filed under, as specified |
| `MigrationUtil.MigrationUtility.ScopeToRaMap` | gbra_migration_util.py:254-295 | the scope map loop returns the specified map |
| `MigrationUtil.MigrationUtility.MergeSelections` | gbra_migration_util.py:312-319 | the merge loop returns the specified union of the selections, leaving the client as it was |
| `MigrationUtil.MigrationUtility.RoleScopeMap` | gbra_migration_util.py:297-319 | `get_rolescope_to_ra_map` returns the specified map, leaving the client as it was |
| `MigrationUtil.MigrationUtility.CreateGroupStep` | gbra_migration_util.py:139-156 | one role-scope of `create_groups` leaves the specified state and result |
| `MigrationUtil.MigrationUtility.CreateGroups` | gbra_migration_util.py:125-156 | `create_groups` leaves the specified state and result |
| `MigrationUtil.MigrationUtility.MakeRaStep` | gbra_migration_util.py:420-465 | one role-scope of the corrected `make_ra_to_groups` leaves the specified state and result |
| `MigrationUtil.MigrationUtility.MakeRaToGroups` | gbra_migration_util.py:405-465 | the corrected `make_ra_to_groups` (see Findings) leaves the specified state and result |
| `MigrationUtil.MigrationUtility.AddUsersToGroup` | gbra_migration_util.py:381-403 | the user loop leaves the specified state and result |
| `MigrationUtil.MigrationUtility.AddAssigneeStep` | gbra_migration_util.py:352-403 | one group assignment of `add_assignees_to_group_at_scope` leaves the specified state and result |
| `MigrationUtil.MigrationUtility.AddAssigneesToGroupAtScope` | gbra_migration_util.py:321-403 | `add_assignees_to_group_at_scope` leaves the specified state and result |
| `MigrationUtil.MigrationUtility.CleanupMember` | gbra_migration_util.py:563-605 | one member of the cleanup leaves the specified state and result |
| `MigrationUtil.MigrationUtility.CleanupMembers` | gbra_migration_util.py:563-605 | the member loop leaves the specified state and result |
| `MigrationUtil.MigrationUtility.CleanupGroup` | gbra_migration_util.py:533-605 | one group assignment of the cleanup leaves the specified state and result |
| `MigrationUtil.MigrationUtility.CleanupRoleAssignments` | gbra_migration_util.py:510-605 | `cleanup_role_assignments` leaves the specified state and result |
| `MigrationUtil.MigrationUtility.SaUserLoop` | gbra_migration_util.py:630-656 | the loop over one super-admin user's assignments leaves the specified state and result |
| `MigrationUtil.MigrationUtility.DeleteDupRaToSaUser` | gbra_migration_util.py:607-656 | `delete_dup_ra_to_sa_user` leaves the specified state and result |
| `MigrationUtil.MigrationUtility.DeleteDupRaToSas` | gbra_migration_util.py:658-670 | `delete_dup_ra_to_sas` leaves the specified state and result |
| `MigrationUtil.MigrationUtility.CheckPrincipalIsSuperAdmin` | gbra_migration_util.py:672-692 | the super-admin check returns the specified answer |
| `Runner.PrecheckOutcomes` | phase_wise_runner.py:58-64 | the precheck passes or raises its RuntimeError, passing exactly when the caller is unknown or holds a super-admin role |
| `Runner.RoleRowsFromSpec` | phase_wise_runner.py:83-96 | the report has one role-scope row per selected bucket, in order, with role id, role name, readable scope and count |
| `Runner.ScopeRowsKeepAll` | phase_wise_runner.py:98-104 | the report has one scope row per over-limit scope, in order, with its name and count |
| `Runner.PhaseReadReport` | phase_wise_runner.py:66-130 | the read phase's report lists every selected role-scope and every over-limit scope, with their counts |
| `Runner.AddAllAssigneesKeepsGroups` | phase_wise_runner.py:155-161 | adding the assignees of every role-scope leaves the groups as they were |
| `Runner.PhaseModifyMakesGroups` | phase_wise_runner.py:132-165 | after a successful modify phase, every selected role-scope has its group |
| `Runner.CleanupAllDeletesOnlyUserRecords` | phase_wise_runner.py:186-194 | the cleanup loop over role-scopes deletes only user assignments of those role-scopes |
| `Runner.PhaseCleanupDeletesOnlyUserRecords` | phase_wise_runner.py:167-198 | with the super-admin pass off, the cleanup phase deletes only user assignments of the unfiltered role-scope map (its completeness is `Runner.PhaseCleanupComplete`) |
| `Runner.PhaseCleanupWithSuperAdminPass` | phase_wise_runner.py:167-198 | with the super-admin pass on, the pass only removes assignments, and the phase deletes only the pass's duplicates (as `Migration.DeleteDupRaToSasDeletesOnlyDuplicates` states them) and user assignments of the unfiltered role-scope map computed after the pass |
| `Runner.CleanupAllComplete` | phase_wise_runner.py:186-194 | the cleanup of every role-scope in turn leaves each of them cleaned up, judged by the groups and members before the loop |
| `Runner.PhaseCleanupComplete` | phase_wise_runner.py:167-198 | without the super-admin pass, a successful cleanup phase leaves every member of every script-owned group of every role-scope with its one user assignment of that role-scope reported and deleted |
| `Runner.PhaseCleanupNoSuperAdmin` | phase_wise_runner.py:175-180 | with no super-admin role, the cleanup with the super-admin pass equals the cleanup without it |
| `Runner.PhaseWiseRunner.constructor` | phase_wise_runner.py:34-56 | the runner starts from the given directory, limits and super-admin-pass flag (`delete_dup_ras_to_sa`) |
| `Runner.PhaseWiseRunner.DoPrecheck` | phase_wise_runner.py:58-64 | the precheck returns the specified answer |
| `Runner.PhaseWiseRunner.DoPhaseRead` | phase_wise_runner.py:66-130 | the read phase returns the specified report and changes nothing |
| `Runner.PhaseWiseRunner.DoPhaseModify` | phase_wise_runner.py:132-165 | the modify phase leaves the state and result of the corrected program (see Findings: as written, a dry run raises AttributeError at its first listing, and `make_ra_to_groups` calls `insert_ra` again for a group assignment that already exists) |
| `Runner.PhaseWiseRunner.DoPhaseCleanup` | phase_wise_runner.py:167-198 | the cleanup phase leaves the state and result of the corrected program (see Findings: as written, a dry run raises AttributeError at its first listing) |
| `ChangeClient.NotDeleted` | change_client/migration_util_change_client.py:178-186 | keeps exactly the assignments whose id was not deleted |
| `ChangeClient.MutationsRouted` | change_client/migration_util_change_client.py:112-217 | in a dry run the mutations touch only the shadow store and succeed; otherwise they touch only the remote directory |
| `ChangeClient.DryRunInsertStampsDummy` | change_client/migration_util_change_client.py:212-217 | a dry-run insert appends the assignment stamped with the id `dummy` |
| `ChangeClient.CreateThenGetGroup` | change_client/migration_util_change_client.py:112-143 | a group created successfully is then found by its email |
| `ChangeClient.DryRunListingHidesDeleted` | change_client/migration_util_change_client.py:164-187 | a dry-run listing holds no deleted id, and holds every live or shadow assignment not deleted |
| `ChangeClient.DryRunDeleteHides` | change_client/migration_util_change_client.py:164-196 | after a dry-run delete, the id no longer appears in any listing |
| `ChangeClient.WetListingIsLive` | change_client/migration_util_change_client.py:164-187 | outside a dry run the listing is the live listing, and the corrected and as-written listings agree |
| `ChangeClient.DryRunListingAsWrittenFails` | change_client/migration_util_change_client.py:178-181 | as written, every dry-run listing raises AttributeError |
| `ChangeClient.InsertRaGuards` | change_client/migration_util_change_client.py:57-89 | `insert_ra` refuses a non-group assignee and a missing group, changing nothing |
| `ChangeClient.InsertRaIdempotent` | change_client/migration_util_change_client.py:57-108 | `insert_ra` a second time changes nothing and succeeds (in a dry run, while no assignment with the id `dummy` was deleted) |
| `ChangeClient.DryInsertFindsGrant` | change_client/migration_util_change_client.py:91-108 | after a dry-run insert, `get_role_assignment` finds the assignment |
| `ChangeClient.WetInsertAgain` | change_client/google_api_client.py:450-462 | a second live insert of the same assignment meets 409, which counts as success, and changes nothing |
| `ChangeClient.InsertMemberIdempotent` | change_client/migration_util_change_client.py:198-210 | inserting a member a second time changes nothing and succeeds |
| `ChangeClient.MigrationUtilChangeClient.constructor` | change_client/migration_util_change_client.py:45-52 | a new overlay has an empty shadow store and an empty user cache |
| `ChangeClient.MigrationUtilChangeClient.CreateGroup` | change_client/migration_util_change_client.py:112-126 | the routed creation leaves the specified state and result |
| `ChangeClient.MigrationUtilChangeClient.GetOu` | change_client/migration_util_change_client.py:128-131 | the OU, as specified |
| `ChangeClient.MigrationUtilChangeClient.GetUser` | change_client/migration_util_change_client.py:133-137 | the user, as specified; the cache gains the answer, and the live client is asked only on a cache miss |
| `ChangeClient.MigrationUtilChangeClient.GetGroup` | change_client/migration_util_change_client.py:139-143 | the live client's group first; in a dry run, the shadow's group when the live answer is None |
| `ChangeClient.MigrationUtilChangeClient.GetGroupMembers` | change_client/migration_util_change_client.py:145-149 | the members, as specified |
| `ChangeClient.MigrationUtilChangeClient.GroupHasMember` | change_client/migration_util_change_client.py:151-159 | membership, as specified |
| `ChangeClient.MigrationUtilChangeClient.GetRootOu` | change_client/migration_util_change_client.py:161-162 | the root OU, as specified |
| `ChangeClient.MigrationUtilChangeClient.ListRoleAssignments` | change_client/migration_util_change_client.py:164-187 | the corrected merged listing (see Findings): both filters raise; live records, then in a dry run the shadow's, without the ids the shadow deleted |
| `ChangeClient.MigrationUtilChangeClient.ListRoles` | change_client/migration_util_change_client.py:189-190 | the roles, as specified |
| `ChangeClient.MigrationUtilChangeClient.DeleteRoleAssignment` | change_client/migration_util_change_client.py:192-196 | the routed deletion leaves the specified state and result |
| `ChangeClient.MigrationUtilChangeClient.InsertMemberIntoGroup` | change_client/migration_util_change_client.py:198-210 | the guarded, routed insertion leaves the specified state and result |
| `ChangeClient.MigrationUtilChangeClient.InsertRoleAssignment` | change_client/migration_util_change_client.py:212-217 | the routed insertion leaves the specified state and result |
| `ChangeClient.MigrationUtilChangeClient.GetRole` | change_client/migration_util_change_client.py:219-220 | the role, as specified |
| `ChangeClient.MigrationUtilChangeClient.GetCustomer` | change_client/migration_util_change_client.py:222-223 | the customer, as specified |
| `ChangeClient.MigrationUtilChangeClient.GetPrimaryEmail` | change_client/migration_util_change_client.py:225-226 | the caller's email, as specified |
| `ChangeClient.MigrationUtilChangeClient.GetRoleAssignment` | change_client/migration_util_change_client.py:91-108 | the field-by-field search loop answers as specified |
| `ChangeClient.MigrationUtilChangeClient.InsertRa` | change_client/migration_util_change_client.py:57-89 | `insert_ra` leaves the specified state and result |
| `DryRun.ShadowList` | change_client/dry_run_change_client.py:88-109 | the listing raises AssertionError exactly when both filters are given |
| `DryRun.CreateThenGet` | change_client/dry_run_change_client.py:41-59 | a created group is found by its email with the given fields; other keys are unaffected |
| `DryRun.InsertMemberAppends` | change_client/dry_run_change_client.py:61-72 | inserting a member appends it to that group's list only, after which the group has the member |
| `DryRun.WithoutIdConcat` | change_client/dry_run_change_client.py:80-86 | removing an id distributes over concatenation |
| `DryRun.DeleteRemovesAll` | change_client/dry_run_change_client.py:80-86 | deleting an id removes every assignment with it and keeps the others; deleting again does nothing; it also undoes an insert with that id |
| `DryRun.ListIsFilter` | change_client/dry_run_change_client.py:88-109 | with no filter the listing is every assignment; with one filter, exactly those of that role or that user |
| `DryRun.DryRunChangeClient.constructor` | change_client/dry_run_change_client.py:18-21 | a new store is empty |
| `DryRun.DryRunChangeClient.CreateGroup` | change_client/dry_run_change_client.py:41-56 | the store after creation, as specified |
| `DryRun.DryRunChangeClient.GetGroup` | change_client/dry_run_change_client.py:58-59 | the group, as specified |
| `DryRun.DryRunChangeClient.InsertMemberIntoGroup` | change_client/dry_run_change_client.py:61-66 | the store after insertion, as specified |
| `DryRun.DryRunChangeClient.GroupHasMember` | change_client/dry_run_change_client.py:68-72 | the member search loop answers as specified |
| `DryRun.DryRunChangeClient.GetGroupMembers` | change_client/dry_run_change_client.py:74-75 | the members, as specified |
| `DryRun.DryRunChangeClient.InsertRoleAssignment` | change_client/dry_run_change_client.py:77-78 | the store after insertion, as specified |
| `DryRun.DryRunChangeClient.DeleteRoleAssignment` | change_client/dry_run_change_client.py:80-86 | returns True and leaves the store without the id (the id is also recorded as deleted) |
| `DryRun.DryRunChangeClient.ListRoleAssignments` | change_client/dry_run_change_client.py:88-109 | both filters raise AssertionError; a role id or a user id keeps exactly the records carrying it, in order, as the comprehension loops do; no filter returns every record |
| `DryRun.DryRunChangeClient.ListDeletedRoleAssignments` | change_client/migration_util_change_client.py:178-181 | the ids deleted so far, which the overlay hides from its listings |
| `LiveClient.PageSize` | change_client/google_api_client.py:242-244 | the page size is positive |
| `LiveClient.RetryWithCredentialRefresh` | change_client/google_api_client.py:42-65 | the retry loop over five attempts returns the specified run |
| `LiveClient.RetryOutcome` | change_client/google_api_client.py:45-64 | the run makes 1 to 5 calls; every call before the last failed; stopping early means the last call did not fail; the result is the last call's |
| `LiveClient.RetryExhausted` | change_client/google_api_client.py:46-64 | five failures make five calls and raise `Max retries exceeded` |
| `LiveClient.RetryDeterministic` | change_client/google_api_client.py:42-65 | an endpoint that always answers the same way is called once on success and five times on failure, with that answer |
| `LiveClient.RetryRefreshesAndSleeps` | change_client/google_api_client.py:52-63 | credentials are refreshed once per 401; outside tests, one sleep per other failure; none in tests |
| `LiveClient.BackoffSchedule` | change_client/google_api_client.py:30-62 | the base delays are 1, 2, 4, 8 and 16 seconds |
| `LiveClient.BackoffIncreasing` | change_client/google_api_client.py:62 | the base delay strictly increases with the attempt and never exceeds 16 |
| `LiveClient.RetryDelaysIncrease` | change_client/google_api_client.py:61-63 | the sleeps of one run strictly increase and stay between 1 and 16, below the 32-second cap |
| `LiveClient.AccumulatePages` | change_client/google_api_client.py:247-261 | the page loop returns the specified concatenation |
| `LiveClient.PaginateRoundTrip` | change_client/google_api_client.py:350-396 | reading back the pages a listing is cut into returns the listing |
| `LiveClient.CollectIgnoresLaterPages` | change_client/google_api_client.py:350-396 | pages after the last token are never read |
| `LiveClient.EmptyTokenStopsOnlyFalsyLoops` | change_client/google_api_client.py:312-337 | an empty next-page token ends loops that test for truthiness, but not loops that test for None |
| `LiveClient.UnlistedParents` | change_client/google_api_client.py:152-157 | the parents not listed as OUs, among the OUs' parents; every root candidate that is a parent is found |
| `LiveClient.UnlistedParentsFound` | change_client/google_api_client.py:152-157 | when a root candidate exists, the first unlisted parent is one |
| `LiveClient.AfterIdTag` | change_client/google_api_client.py:166-168 | a parsed id follows an `id:` tag in the string |
| `LiveClient.AfterIdTagReadsBack` | change_client/google_api_client.py:165-168 | parsing `id:` followed by a line gives that line back |
| `LiveClient.RootOuOf` | change_client/google_api_client.py:145-170 | the root OU succeeds only with exactly one root candidate, and is that candidate's id; otherwise AssertionError |
| `LiveClient.RootOuOfTree` | change_client/google_api_client.py:145-170 | with one root candidate `id:t`, the root OU is `t` |
| `LiveClient.GetPrimaryEmail` | change_client/google_api_client.py:116-133 | the caller's email, or the retry decorator's RuntimeError when the endpoint fails |
| `LiveClient.GetOu` | change_client/google_api_client.py:174-187 | the OU with that id, or None exactly when none has it; 404 is not an error |
| `LiveClient.GetUser` | change_client/google_api_client.py:191-201 | the user with that id or email, or None exactly when none has it |
| `LiveClient.GetGroup` | change_client/google_api_client.py:205-215 | the group with that email or id, or None exactly when none has it |
| `LiveClient.GroupHasMember` | change_client/google_api_client.py:219-235 | true only for a member with that email; true for every member found by email |
| `LiveClient.GetGroupMembers` | change_client/google_api_client.py:239-261 | every member of the group, read page by page |
| `LiveClient.ListRoles` | change_client/google_api_client.py:302-337 | every role, read page by page |
| `LiveClient.ListRoleAssignments` | change_client/google_api_client.py:341-396 | AssertionError with both filters; otherwise every assignment, those of the role, or those of the user, read page by page |
| `LiveClient.GetRole` | change_client/google_api_client.py:466-472 | the role with that id, or the retry decorator's RuntimeError |
| `LiveClient.CreateGroup` | change_client/google_api_client.py:265-298 | refused in a dry run; otherwise the group exists afterwards, and an existing one is left as it was |
| `LiveClient.DeleteRoleAssignment` | change_client/google_api_client.py:400-421 | refused in a dry run; otherwise true exactly when the assignment existed and was not a self-revocation, in which case it is gone; never adds an assignment and changes no group or membership |
| `LiveClient.InsertMemberIntoGroup` | change_client/google_api_client.py:425-446 | refused in a dry run; otherwise succeeds exactly when group and user exist, and the user is a member afterwards; the groups stay and members are only appended |
| `LiveClient.GroupHasMemberKept` | change_client/google_api_client.py:219-235 | a member found under its own email stays found while members are only appended |
| `LiveClient.InsertMemberJoins` | change_client/google_api_client.py:425-446 | after a successful insertion `group_has_member` answers True, unless an earlier member carries the user's email as its id |
| `LiveClient.InsertRoleAssignment` | change_client/google_api_client.py:450-462 | refused in a dry run; otherwise the grant exists afterwards, and a duplicate (409) changes nothing |

## Left out

- HTTP, OAuth and the discovery clients are not part of this model. The remote service is a value (`Directory.Directory`) whose endpoints answer with a payload or a status code. `utils/credential_store.py`, `reauth_and_refresh_clients` and the service-account key handling are not part of this model either.
- The random jitter added to each sleep, and the sleep itself, are left out. The model keeps only the integer base delay of each sleep.
- The rate limiter, the logger, timestamps and the report files are not part of this model. Neither are `run_me.py`, the live tests and `change_client/change_client_interface.py`.
- The OU cache of the overlay is never written by the source, so every `get_ou` reaches the live client. The model has no OU cache.
- The `except HttpError` with status 409 in `insert_ra` is left out. The live insert already swallows 409, so that branch is unreachable.
- The `dry_run` / `is_dry_run` property is the `dryRun` flag of the configuration, read directly.
- The six read methods of the shadow store that raise ValueError (`get_root_ou`, `get_customer`, `get_role`, `get_user`, `get_ou`, `list_roles`) are left out. The overlay never calls them.
- Log-only reads are left out (the `get_user` and `get_role` calls whose answers are only logged).
- Migration.AddAssigneeStep: the ">1 script created security groups" AssertionError keeps its fixed prefix but not the Python list printed after it.
- Migration.CleanupMember: the duplicate-user AssertionError keeps its fixed prefix but not the Python list printed after it.
- Runner.PhaseModifyMakesGroups: idempotence of the whole modify phase is not proved. Each step is proved repeat-safe on its own: `CreateGroupsIdempotent`, `AddUserIdempotent`, `InsertMemberIdempotent`, `InsertRaIdempotent`.
- Base.ParseInt: accepts ASCII digits only. Python's `int()` also accepts surrounding whitespace, a sign, underscores and non-ASCII digits.
- Base.ToLower: ASCII only. Python's `lower()` also folds non-ASCII letters.
- Planner.ScriptOwnedName: reads `\d` as an ASCII digit. Python's `re` on a `str` pattern also matches other Unicode decimal digits, so a group name with such digits can count as script-owned in the source and not in the model.
- DryRun.DryRunChangeClient.constructor: `ChangeClientInterface` is an abstract base class (change_client/change_client_interface.py:28) whose `get_primary_email` is abstract (lines 97-99). The shadow store (both copies) does not define it, so `DryRunChangeClient()` raises TypeError, and so does `MigrationUtilChangeClient.__init__`, which builds one (change_client/migration_util_change_client.py:46). The model constructs both objects as the code evidently intends. Python's abstract-class check is not part of this model.
- ChangeClient.MigrationUtilChangeClient.constructor: inherits the TypeError of the shadow store's constructor, as above.
- LiveClient.GetCustomer: always succeeds. The modelled directory answers reads with a payload or 404, and each endpoint's answer is settled from a single attempt, so a read never runs out of retries. Transient failures are modelled only by the retry loop itself (`LiveClient.RetryWithCredentialRefresh`, `RetryOutcome`, `RetryExhausted`).
- LiveClient.GetOu: always succeeds, for the same reason.
- LiveClient.GetUser: always succeeds, for the same reason.
- LiveClient.ListRoles: always succeeds, for the same reason.
- LiveClient.CreateGroup: the live `create_group` asks for `initialGroupConfig=WITH_INITIAL_OWNER` (change_client/google_api_client.py:290), so the caller becomes the new group's owner and member. The model creates the group without members. In the source, `add_assignees_to_group_at_scope` then finds the caller already present, and `cleanup_role_assignments` also deletes the caller's own user assignment of that role-scope, or has it refused as a self-revocation.
- Planner.SortBySizeSpec: proves sorted and a permutation, but not the stability of Python's sort.
- Migration.DeleteDupRaToSasDeletesOnlyDuplicates: completeness is proved per super-admin user (`Migration.SaUserDeletesAllDuplicates`), not for the whole pass, because which assignees a later role's loop lists depends on what earlier users' passes deleted (an assignment of one super-admin role is a duplicate while another super-admin role is processed). That a second run of the pass deletes nothing, which the docstring at gbra_migration_util.py:616-617 promises, is not proved.
- Runner.PhaseCleanupComplete: that re-running the cleanup phase deletes nothing is not proved. Each cleaned member is left with no listed user assignment of its role-scope (`Migration.CleanupComplete`, `Migration.DeletedIsNotListed`), but the role-scope map of the second run is not related to that of the first.
- LiveClient.GetRootOu: `get_root_ou` reads `result['organizationUnits']` (change_client/google_api_client.py:154), so a listing without that key raises KeyError. The modelled listing is always a sequence, so a tenant without organizational units gives the "couldn't find root OU" AssertionError instead.
- LiveClient.AccumulatePages: when the pages run out while a token still asks for more, it returns None, and the endpoints turn that into a RuntimeError of the model's own (`NO_LAST_PAGE_MESSAGE`). The modelled directory always ends its pages, so this never happens.
- Behaviour noted but not changed, because the source does it:
  - an OU id that does not start with a digit gives a group name outside the ownership pattern;
  - the `group_id is None` test in the cleanup is dead code;
  - the retry loop sleeps even after the fifth failure;
  - the precheck's super-admin check never raises;
  - the cleanup log lists ids whose delete returned False, while the super-admin pass reports only those that returned True;
  - the read phase's `< ra_limit` skip never fires, because the scope map is already filtered;
  - the dry-run guards of the live inserts say "dryRun=False";
  - the shadow store's default dictionary inserts an empty list when a missing group is read, which has no visible effect.

## Findings

| source | as written | input that shows it | evidently intended | confidence | as-written member | corrected member |
|---|---|---|---|---|---|---|
| gbra_migration_util.py:438-440 | `make_ra_to_groups` looks for the group's existing assignments by the key `assigneeId`, which the records do not carry, so it always finds none | a bucket holding two assignments of the role to the group (`ra1`, `ra2`): no AssertionError is raised, and `insert_ra` is called | match on `assignedTo`, so one existing assignment skips the role-scope and several raise | not executed | `Migration.MakeRaAsWrittenMissesDuplicates` | `Migration.MakeRaStepCases` |
| change_client/migration_util_change_client.py:178-181 | the dry-run listing calls `list_deleted_role_assignments` on the shadow store, which does not define it | any dry-run `list_role_assignments` whose live listing succeeds raises AttributeError, so every dry-run phase fails at its first listing | the store records the ids it deletes, and the overlay hides them from listings. The two sides disagree on what is recorded: the store's tests expect bare id strings (dry_run_change_client_test.py:65, 105-111), while the overlay reads `item['roleAssignmentId']` of each entry (line 180) and its own test mocks records (migration_util_change_client_test.py:382). The model records bare ids and compares them directly | not executed | `ChangeClient.DryRunListingAsWrittenFails` | `ChangeClient.DryRunListingHidesDeleted` |

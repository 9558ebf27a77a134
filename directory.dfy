/**
 * The remote directory service (Admin SDK, Cloud Identity, People API) the
 * live client talks to, replaced by an in-memory state.  Each endpoint the
 * live client calls is a function from that state to the service's answer:
 * a payload, or an HTTP status with the error text.  The live client's own
 * decisions about those answers are in module LiveClient.
 */
module Directory {
  import opened Base

  datatype User = User(id: string, primaryEmail: string)

  datatype Group = Group(
    id: string,
    email: string,
    name: string,
    description: string,
    customerId: string)

  datatype Member = Member(email: string, id: string)

  datatype Privilege = Privilege(privilegeName: string, serviceId: string)

  datatype Role = Role(
    roleId: string,
    roleName: string,
    isSuperAdminRole: bool,
    rolePrivileges: seq<Privilege>)

  datatype OrgUnit = OrgUnit(orgUnitId: string, parentOrgUnitId: string, orgUnitPath: string)

  datatype Customer = Customer(id: string, customerDomain: string)

  /**
   * A role-assignment record.  The service always sends `roleId`,
   * `assignedTo`, `assigneeType` and `scopeType`; `orgUnitId` is present for
   * ORG_UNIT scope only, and `userId` is the key the dry-run store filters on.
   */
  datatype RoleAssignment = RoleAssignment(
    roleAssignmentId: string,
    roleId: string,
    assignedTo: string,
    assigneeType: string,
    scopeType: string,
    orgUnitId: Option<string>,
    userId: Option<string>)

  /** What the service answers: a payload, or an HTTP error status and its text. */
  datatype Response<T> = Payload(body: T) | Status(code: int, text: string)

  /** One page of a listing: its items (the key may be absent) and the continuation token. */
  datatype Page<T> = Page(items: Option<seq<T>>, nextPageToken: Option<string>)

  /** The continuation token the service hands out; any non-empty string would do. */
  const PAGE_TOKEN: string := "next-page"

  datatype Directory = Directory(
    customer: Customer,
    users: seq<User>,
    groups: seq<Group>,
    members: map<string, seq<Member>>,
    roles: seq<Role>,
    assignments: seq<RoleAssignment>,
    orgUnits: seq<OrgUnit>,
    me: Response<Option<string>>,
    selfRevoke: set<string>,
    nextId: nat)
  // members: keyed by group email
  // me: what the People API answers for people/me (the primary email, if any)
  // selfRevoke: assignment ids whose deletion the service refuses as AdminSelfRevokeNotAllowed
  // nextId: source of the identifiers the service gives to what it creates

  /** The listing split into pages of `size` items, as the service returns it for `maxResults`. */
  function Paginate<T>(xs: seq<T>, size: nat): (pages: seq<Page<T>>)
    requires size > 0
    ensures pages != []
    decreases |xs|
  {
    if |xs| <= size then [Page(Some(xs), None)]
    else [Page(Some(xs[..size]), Some(PAGE_TOKEN))] + Paginate(xs[size..], size)
  }

  function FindUser(users: seq<User>, key: string): (r: Option<User>)
    ensures r.Some? ==> r.value in users && (r.value.id == key || r.value.primaryEmail == key)
    ensures r.None? ==> forall u | u in users :: u.id != key && u.primaryEmail != key
  {
    if users == [] then None
    else if users[0].id == key || users[0].primaryEmail == key then Some(users[0])
    else FindUser(users[1..], key)
  }

  function FindGroup(groups: seq<Group>, key: string): (r: Option<Group>)
    ensures r.Some? ==> r.value in groups && (r.value.email == key || r.value.id == key)
    ensures r.None? ==> forall g | g in groups :: g.email != key && g.id != key
  {
    if groups == [] then None
    else if groups[0].email == key || groups[0].id == key then Some(groups[0])
    else FindGroup(groups[1..], key)
  }

  function FindMember(ms: seq<Member>, key: string): (r: Option<Member>)
    ensures r.Some? ==> r.value in ms && (r.value.email == key || r.value.id == key)
    ensures r.None? ==> forall m | m in ms :: m.email != key && m.id != key
  {
    if ms == [] then None
    else if ms[0].email == key || ms[0].id == key then Some(ms[0])
    else FindMember(ms[1..], key)
  }

  function FindRole(roles: seq<Role>, roleId: string): (r: Option<Role>)
    ensures r.Some? ==> r.value in roles && r.value.roleId == roleId
    ensures r.None? ==> forall x | x in roles :: x.roleId != roleId
  {
    if roles == [] then None
    else if roles[0].roleId == roleId then Some(roles[0])
    else FindRole(roles[1..], roleId)
  }

  function FindOrgUnit(ous: seq<OrgUnit>, orgUnitId: string): (r: Option<OrgUnit>)
    ensures r.Some? ==> r.value in ous && r.value.orgUnitId == orgUnitId
    ensures r.None? ==> forall o | o in ous :: o.orgUnitId != orgUnitId
  {
    if ous == [] then None
    else if ous[0].orgUnitId == orgUnitId then Some(ous[0])
    else FindOrgUnit(ous[1..], orgUnitId)
  }

  /** Appending members does not change whom a key finds first. */
  lemma {:induction false} FindMemberPrefix(ms: seq<Member>, ms': seq<Member>, key: string)
    requires ms <= ms'
    requires FindMember(ms, key).Some?
    ensures FindMember(ms', key) == FindMember(ms, key)
  {
    assert ms'[0] == ms[0];
    if ms[0].email != key && ms[0].id != key {
      assert ms[1..] <= ms'[1..];
      FindMemberPrefix(ms[1..], ms'[1..], key);
    }
  }

  /** A member appended under a key nobody matched is the one that key finds. */
  lemma {:induction false} FindMemberAppended(ms: seq<Member>, m: Member, key: string)
    requires FindMember(ms, key).None?
    requires m.email == key
    ensures FindMember(ms + [m], key) == Some(m)
  {
    if ms != [] {
      assert (ms + [m])[1..] == ms[1..] + [m];
      FindMemberAppended(ms[1..], m, key);
    }
  }

  function MembersOf(d: Directory, groupEmail: string): seq<Member> {
    if groupEmail in d.members then d.members[groupEmail] else []
  }

  function NotFound<T>(): Response<T> {
    Status(404, "Resource Not Found")
  }

  // ---- read endpoints ----

  /** users.get(userKey): by primary email or id. */
  function UsersGet(d: Directory, userKey: string): Response<User> {
    match FindUser(d.users, userKey)
    case Some(u) => Payload(u)
    case None => NotFound()
  }

  /** orgunits.get(orgUnitPath='id:' + ouId). */
  function OrgUnitsGet(d: Directory, ouId: string): Response<OrgUnit> {
    match FindOrgUnit(d.orgUnits, "id:" + ouId)
    case Some(o) => Payload(o)
    case None => NotFound()
  }

  /** groups.get(groupKey): by email or id. */
  function GroupsGet(d: Directory, groupKey: string): Response<Group> {
    match FindGroup(d.groups, groupKey)
    case Some(g) => Payload(g)
    case None => NotFound()
  }

  /** members.get(groupKey, memberKey). */
  function MembersGet(d: Directory, groupKey: string, memberKey: string): Response<Member> {
    match FindGroup(d.groups, groupKey)
    case None => NotFound()
    case Some(g) =>
      match FindMember(MembersOf(d, g.email), memberKey)
      case Some(m) => Payload(m)
      case None => NotFound()
  }

  /** members.list(groupKey) in pages; a group without members answers without a `members` key. */
  function MembersList(d: Directory, groupKey: string, size: nat): seq<Page<Member>>
    requires size > 0
  {
    match FindGroup(d.groups, groupKey)
    case None => [Page(None, None)]
    case Some(g) =>
      var ms := MembersOf(d, g.email);
      if ms == [] then [Page(None, None)] else Paginate(ms, size)
  }

  /** roles.list(customer) in pages. */
  function RolesList(d: Directory, size: nat): seq<Page<Role>>
    requires size > 0
  {
    Paginate(d.roles, size)
  }

  /** roles.get(roleId). */
  function RolesGet(d: Directory, roleId: string): Response<Role> {
    match FindRole(d.roles, roleId)
    case Some(r) => Payload(r)
    case None => NotFound()
  }

  /** The assignments granted to the principal with that id. */
  function AssignedToUser(ras: seq<RoleAssignment>, userId: string): (r: seq<RoleAssignment>)
    ensures forall x :: x in r <==> x in ras && x.assignedTo == userId
  {
    if ras == [] then []
    else (if ras[0].assignedTo == userId then [ras[0]] else []) + AssignedToUser(ras[1..], userId)
  }

  function WithRoleId(ras: seq<RoleAssignment>, roleId: string): (r: seq<RoleAssignment>)
    ensures forall x :: x in r <==> x in ras && x.roleId == roleId
  {
    if ras == [] then []
    else (if ras[0].roleId == roleId then [ras[0]] else []) + WithRoleId(ras[1..], roleId)
  }

  /** The id of the user or group a key (email or id) names. */
  function PrincipalId(d: Directory, key: string): Option<string> {
    match FindUser(d.users, key)
    case Some(u) => Some(u.id)
    case None =>
      match FindGroup(d.groups, key)
      case Some(g) => Some(g.id)
      case None => None
  }

  /**
   * roleAssignments.list with an optional roleId or userKey, in pages.  The
   * userKey names a user or a group; an unknown one is answered with 404.
   * (The client never sends both filters.)
   */
  function RoleAssignmentsList(d: Directory, roleId: Option<string>, userKey: Option<string>, size: nat)
    : Response<seq<Page<RoleAssignment>>>
    requires size > 0
  {
    if userKey.Some? then
      match PrincipalId(d, userKey.value)
      case None => NotFound()
      case Some(id) => Payload(Paginate(AssignedToUser(d.assignments, id), size))
    else if roleId.Some? then Payload(Paginate(WithRoleId(d.assignments, roleId.value), size))
    else Payload(Paginate(d.assignments, size))
  }

  /** orgunits.list(customerId). */
  function OrgUnitsList(d: Directory): seq<OrgUnit> {
    d.orgUnits
  }

  /** people.get('people/me'). */
  function PeopleMe(d: Directory): Response<Option<string>> {
    d.me
  }

  // ---- write endpoints ----

  /** What no write endpoint changes: the users, roles, OUs, the caller's identity and the refusals. */
  predicate SameReferenceData(d: Directory, d': Directory) {
    && d'.customer == d.customer
    && d'.users == d.users
    && d'.roles == d.roles
    && d'.orgUnits == d.orgUnits
    && d'.me == d.me
    && d'.selfRevoke == d.selfRevoke
  }

  /** The identifier the service gives to the next thing it creates. */
  function FreshId(d: Directory): string {
    "id-" + Decimal(d.nextId)
  }

  /** Different counter values give different identifiers. */
  lemma FreshIdInjective(d: Directory, d': Directory)
    requires FreshId(d) == FreshId(d')
    ensures d.nextId == d'.nextId
  {
    var prefix := "id-";
    assert Decimal(d.nextId) == FreshId(d)[|prefix|..];
    assert Decimal(d'.nextId) == FreshId(d')[|prefix|..];
  }

  /** groups.create: 409 when a group with that key already exists. */
  function GroupsCreate(d: Directory, customerId: string, email: string, name: string, description: string)
    : (Directory, Response<()>)
  {
    if FindGroup(d.groups, email).Some? then (d, Status(409, "Entity already exists"))
    else
      var g := Group(FreshId(d), email, name, description, customerId);
      (d.(groups := d.groups + [g], nextId := d.nextId + 1), Payload(()))
  }

  /** members.insert: 404 for an unknown group or user, 409 for an existing member. */
  function MembersInsert(d: Directory, groupKey: string, memberEmail: string): (Directory, Response<()>) {
    match FindGroup(d.groups, groupKey)
    case None => (d, NotFound())
    case Some(g) =>
      match FindUser(d.users, memberEmail)
      case None => (d, NotFound())
      case Some(u) =>
        if FindMember(MembersOf(d, g.email), memberEmail).Some? then (d, Status(409, "Member already exists"))
        else (d.(members := d.members[g.email := MembersOf(d, g.email) + [Member(memberEmail, u.id)]]), Payload(()))
  }

  /** Two assignments grant the same role to the same principal at the same place. */
  predicate SameGrant(a: RoleAssignment, b: RoleAssignment) {
    && a.roleId == b.roleId
    && a.assignedTo == b.assignedTo
    && a.scopeType == b.scopeType
    && a.orgUnitId.GetOr("") == b.orgUnitId.GetOr("")
  }

  /** roleAssignments.insert: 409 for a duplicate grant, otherwise stored under a fresh id. */
  function RoleAssignmentsInsert(d: Directory, ra: RoleAssignment): (Directory, Response<()>) {
    if exists x | x in d.assignments :: SameGrant(x, ra) then (d, Status(409, "Duplicate"))
    else
      (d.(assignments := d.assignments + [ra.(roleAssignmentId := FreshId(d))], nextId := d.nextId + 1),
       Payload(()))
  }

  /** The assignments whose id differs from `id`, in their order. */
  function WithoutId(ras: seq<RoleAssignment>, id: string): (r: seq<RoleAssignment>)
    ensures forall x :: x in r <==> x in ras && x.roleAssignmentId != id
    ensures |r| <= |ras|
  {
    if ras == [] then []
    else (if ras[0].roleAssignmentId != id then [ras[0]] else []) + WithoutId(ras[1..], id)
  }

  /**
   * roleAssignments.delete: 404 for an unknown id, 403 AdminSelfRevokeNotAllowed
   * for an assignment the service refuses to let the caller revoke.
   */
  function RoleAssignmentsDelete(d: Directory, id: string): (Directory, Response<()>) {
    if !(exists x | x in d.assignments :: x.roleAssignmentId == id) then (d, NotFound())
    else if id in d.selfRevoke then (d, Status(403, "AdminSelfRevokeNotAllowed"))
    else (d.(assignments := WithoutId(d.assignments, id)), Payload(()))
  }
}

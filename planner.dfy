/**
 * The planning half of the migration utility (gbra_migration_util.py): how
 * role assignments are grouped by scope and by role-scope, how the groups
 * the utility creates are named, which roles it may touch, and the greedy
 * walk that picks the role-scopes to convert so that a scope falls under
 * the per-scope limit.
 *
 * Python dicts that keep insertion order are modelled as sequences of
 * buckets with distinct keys; every function here reads the change client
 * through the `Overlay` state and changes nothing.
 */
module Planner {
  import opened Base
  import opened Directory
  import opened ChangeClient

  const INT_PARSE_MESSAGE: string := "invalid literal for int() with base 10: '"
  const ORG_UNIT_SCOPE: string := "ORG_UNIT"
  const CUSTOMER_SCOPE: string := "CUSTOMER"

  /** The `RoleScope` named tuple: a role at a scope type and an OU ("" when absent). */
  datatype RoleScope = RoleScope(roleId: string, scopeType: string, orgUnit: string)

  // ---------------------------------------------------------------------
  // Names
  // ---------------------------------------------------------------------

  /** `rolescope_to_scope_name`: the scope type, followed by the OU for ORG_UNIT scope. */
  function ScopeName(rs: RoleScope): string {
    if rs.scopeType == ORG_UNIT_SCOPE then rs.scopeType + "-" + rs.orgUnit else rs.scopeType
  }

  /** The role-scope a record belongs to (`orgUnitId` read with default ""). */
  function RoleScopeOf(ra: RoleAssignment): RoleScope {
    RoleScope(ra.roleId, ra.scopeType, ra.orgUnitId.GetOr(""))
  }

  /** `get_scope_name_for_ra`. */
  function ScopeNameForRa(ra: RoleAssignment): string {
    if ra.scopeType == ORG_UNIT_SCOPE then ra.scopeType + "-" + ra.orgUnitId.GetOr("") else ra.scopeType
  }

  /** `_rolescope_to_group_name`: the role id, a dash, the scope name. */
  function GroupName(rs: RoleScope): string {
    rs.roleId + "-" + ScopeName(rs)
  }

  /** The email of the group the utility creates for a role-scope. */
  function GroupEmail(rs: RoleScope, domain: string): string {
    GroupName(rs) + "@" + domain
  }

  /**
   * The two ways of naming a record's scope agree, and group names look like
   * `role1-ORG_UNIT-OU1` and `role1-CUSTOMER`.
   */
  lemma ScopeNamesAgree(ra: RoleAssignment)
    ensures ScopeNameForRa(ra) == ScopeName(RoleScopeOf(ra))
    ensures GroupName(RoleScope("role1", ORG_UNIT_SCOPE, "OU1")) == "role1-ORG_UNIT-OU1"
    ensures GroupName(RoleScope("role1", CUSTOMER_SCOPE, "")) == "role1-CUSTOMER"
  {
    assert ScopeName(RoleScope("role1", ORG_UNIT_SCOPE, "OU1")) == ORG_UNIT_SCOPE + "-" + "OU1";
    assert ScopeName(RoleScope("role1", CUSTOMER_SCOPE, "")) == CUSTOMER_SCOPE;
  }

  /** Only the two scope types the directory uses. */
  predicate KnownScopeType(scopeType: string) {
    scopeType == ORG_UNIT_SCOPE || scopeType == CUSTOMER_SCOPE
  }

  /**
   * For numeric role ids and the two scope types, the group name determines
   * the role, the scope type and, for ORG_UNIT scope, the OU: two role-scopes
   * that need different groups never share one.
   */
  lemma GroupNameInjective(a: RoleScope, b: RoleScope)
    requires AllDigits(a.roleId) && AllDigits(b.roleId)
    requires KnownScopeType(a.scopeType) && KnownScopeType(b.scopeType)
    requires GroupName(a) == GroupName(b)
    ensures a.roleId == b.roleId && a.scopeType == b.scopeType
    ensures a.scopeType == ORG_UNIT_SCOPE ==> a.orgUnit == b.orgUnit
  {
    var n := GroupName(a);
    assert n[|a.roleId|] == '-' && n[|b.roleId|] == '-';
    assert forall j | 0 <= j < |b.roleId| :: IsDigit(n[j]);
    assert forall j | 0 <= j < |a.roleId| :: IsDigit(n[j]);
    assert |a.roleId| == |b.roleId|;
    assert a.roleId == n[..|a.roleId|] == b.roleId;
    var sa, sb := ScopeName(a), ScopeName(b);
    assert sa == n[|a.roleId| + 1..] == sb;
    assert sa[0] == a.scopeType[0] && sb[0] == b.scopeType[0];
    if a.scopeType == ORG_UNIT_SCOPE {
      assert b.scopeType == ORG_UNIT_SCOPE;
      assert a.orgUnit == sa[9..] == sb[9..] == b.orgUnit;
    } else {
      assert b.scopeType != ORG_UNIT_SCOPE;
    }
  }

  /** A decimal digit at `i` immediately followed by `t`. */
  predicate DigitThen(s: string, i: int, t: string) {
    0 <= i < |s| && IsDigit(s[i]) && OccursAt(s, t, i + 1)
  }

  /**
   * The name test of the cleanup and membership steps: the name contains a
   * match of `\d+-ORG_UNIT-\d+` or of `\d+-CUSTOMER` (`re.search`).  A run of
   * digits followed by the text matches exactly when its last digit does.
   */
  predicate ScriptOwnedName(name: string) {
    || (exists i | 0 <= i < |name| :: DigitThen(name, i, "-ORG_UNIT-") && i + 11 < |name| && IsDigit(name[i + 11]))
    || (exists i | 0 <= i < |name| :: DigitThen(name, i, "-CUSTOMER"))
  }

  /**
   * Every name the utility gives a group passes the name test, when the role
   * id is numeric and, for ORG_UNIT scope, the OU id starts with a digit.
   */
  lemma GroupNamesAreScriptOwned(rs: RoleScope)
    requires rs.roleId != [] && AllDigits(rs.roleId)
    requires rs.scopeType == CUSTOMER_SCOPE || (rs.scopeType == ORG_UNIT_SCOPE && rs.orgUnit != [] && IsDigit(rs.orgUnit[0]))
    ensures ScriptOwnedName(GroupName(rs))
  {
    var n := GroupName(rs);
    var k := |rs.roleId|;
    assert IsDigit(rs.roleId[k - 1]);
    if rs.scopeType == CUSTOMER_SCOPE {
      assert n == rs.roleId + "-CUSTOMER" + "";
      DigitThenAfter(rs.roleId, "-CUSTOMER", "");
      assert DigitThen(n, k - 1, "-CUSTOMER");
    } else {
      assert n == rs.roleId + "-ORG_UNIT-" + rs.orgUnit;
      DigitThenAfter(rs.roleId, "-ORG_UNIT-", rs.orgUnit);
      assert DigitThen(n, k - 1, "-ORG_UNIT-") && IsDigit(n[k + 10]);
    }
  }

  /** The last digit of a non-empty numeral is followed by the text put after it. */
  lemma DigitThenAfter(digits: string, t: string, rest: string)
    requires digits != [] && IsDigit(digits[|digits| - 1])
    ensures DigitThen(digits + t + rest, |digits| - 1, t)
  {
    var n := digits + t + rest;
    assert n[|digits| - 1] == digits[|digits| - 1];
    assert n[|digits|..|digits| + |t|] == t;
  }

  /** A name the administrators chose, such as "Helpdesk", is left alone. */
  lemma UserDefinedNameNotOwned()
    ensures !ScriptOwnedName("Helpdesk")
  {
    var n := "Helpdesk";
    forall i | 0 <= i < |n| ensures !IsDigit(n[i]) {
    }
  }

  // ---------------------------------------------------------------------
  // _get_list_of_dicts_matching
  // ---------------------------------------------------------------------

  /** The record keys the utility matches on. */
  datatype Field = AssigneeType | AssignedTo | AssigneeId

  /** `item.get(key, '')`: records carry no `assigneeId` key, so it reads as "". */
  function FieldValue(ra: RoleAssignment, f: Field): string {
    match f
    case AssigneeType => ra.assigneeType
    case AssignedTo => ra.assignedTo
    case AssigneeId => ""
  }

  /** Equal, or non-empty and equal after lowering the item's side only. */
  predicate ValueMatches(item: string, value: string) {
    item == value || (item != "" && ToLower(item) == value)
  }

  /** `_get_list_of_dicts_matching(key, value, data_list)`: the matching records, in order. */
  function Matching(f: Field, value: string, ras: seq<RoleAssignment>): (r: seq<RoleAssignment>)
    ensures forall x :: x in r <==> x in ras && ValueMatches(FieldValue(x, f), value)
    ensures |r| <= |ras|
  {
    if ras == [] then []
    else (if ValueMatches(FieldValue(ras[0], f), value) then [ras[0]] else []) + Matching(f, value, ras[1..])
  }

  /** The filter keeps order: filtering a concatenation concatenates the filtered parts. */
  lemma {:induction false} MatchingAppend(f: Field, value: string, a: seq<RoleAssignment>, b: seq<RoleAssignment>)
    ensures Matching(f, value, a + b) == Matching(f, value, a) + Matching(f, value, b)
  {
    if a == [] {
      assert a + b == b;
    } else {
      assert (a + b)[0] == a[0] && (a + b)[1..] == a[1..] + b;
      MatchingAppend(f, value, a[1..], b);
    }
  }

  /** Filtering one more record appends it exactly when it matches. */
  lemma MatchingSnoc(f: Field, value: string, s: seq<RoleAssignment>, x: RoleAssignment)
    ensures Matching(f, value, s + [x]) == Matching(f, value, s) + (if ValueMatches(FieldValue(x, f), value) then [x] else [])
  {
    MatchingAppend(f, value, s, [x]);
    assert [x][1..] == [];
  }

  /** Lowering applies to the record's value and not to the query. */
  lemma MatchingLowersItemOnly()
    ensures ValueMatches("USER", "user")
    ensures !ValueMatches("user", "USER")
  {
    var upper := ToLower("USER");
    assert upper[0] == 'u' && upper[1] == 's' && upper[2] == 'e' && upper[3] == 'r';
    assert upper == "user";
    var lower := ToLower("user");
    assert lower[0] == 'u' && lower[1] == 's' && lower[2] == 'e' && lower[3] == 'r';
    assert lower == "user";
  }

  /** Matching on `assigneeId` finds nothing for any non-empty value. */
  lemma {:induction false} AssigneeIdNeverMatches(value: string, ras: seq<RoleAssignment>)
    requires value != ""
    ensures Matching(AssigneeId, value, ras) == []
  {
    if ras != [] {
      AssigneeIdNeverMatches(value, ras[1..]);
    }
  }

  // ---------------------------------------------------------------------
  // _can_role_be_processed
  // ---------------------------------------------------------------------

  const GCP_RESELLER_MARK: string := "_GCP_RESELLER_ADMIN_ROLE"
  const RESELLER_MARK: string := "_RESELLER_ADMIN_ROLE"
  /** MANAGE_HANGOUTS_SERVICE on its obfuscated service id. */
  const HANGOUTS_PRIVILEGE: Privilege := Privilege("MANAGE_HANGOUTS_SERVICE", "02w5ecyt3laroi5")

  /** Whether the loop over the role's privileges meets the Hangouts pair. */
  function HasHangoutsPrivilege(privs: seq<Privilege>): bool {
    if privs == [] then false
    else if privs[0].privilegeName == HANGOUTS_PRIVILEGE.privilegeName
         && privs[0].serviceId == HANGOUTS_PRIVILEGE.serviceId then true
    else HasHangoutsPrivilege(privs[1..])
  }

  /** The three refusals of `_can_role_be_processed`, checked in the source's order. */
  predicate Processable(role: Role) {
    if role.isSuperAdminRole then false
    else if Contains(role.roleName, GCP_RESELLER_MARK) || Contains(role.roleName, RESELLER_MARK) then false
    else !HasHangoutsPrivilege(role.rolePrivileges)
  }

  /** `_can_role_be_processed`: the role is fetched first; an unknown role raises. */
  function CanRoleBeProcessed(o: Overlay, roleId: string): (r: Result<bool>)
    ensures r.Err? <==> o.GetRole(roleId).Err?
    ensures r.Ok? ==> r.value == Processable(o.GetRole(roleId).value)
  {
    match o.GetRole(roleId)
    case Err(e) => Err(e)
    case Ok(role) => Ok(Processable(role))
  }

  lemma {:induction false} GcpMarkContainsResellerMark(s: string)
    requires Contains(s, GCP_RESELLER_MARK)
    ensures Contains(s, RESELLER_MARK)
  {
    var i :| 0 <= i <= |s| - |GCP_RESELLER_MARK| && OccursAt(s, GCP_RESELLER_MARK, i);
    assert GCP_RESELLER_MARK[4..] == RESELLER_MARK;
    assert s[i + 4..i + 4 + |RESELLER_MARK|] == s[i..i + |GCP_RESELLER_MARK|][4..];
    assert OccursAt(s, RESELLER_MARK, i + 4);
  }

  lemma {:induction false} HasHangoutsPrivilegeIff(privs: seq<Privilege>)
    ensures HasHangoutsPrivilege(privs) <==> HANGOUTS_PRIVILEGE in privs
  {
    if privs != [] {
      HasHangoutsPrivilegeIff(privs[1..]);
      assert privs == [privs[0]] + privs[1..];
    }
  }

  /**
   * A role is refused exactly when it is the super-admin role, its name
   * contains `_RESELLER_ADMIN_ROLE` (the GCP variant included), or it holds
   * the Hangouts privilege pair.
   */
  lemma ProcessableIff(role: Role)
    ensures Processable(role) <==>
      && !role.isSuperAdminRole
      && !Contains(role.roleName, RESELLER_MARK)
      && HANGOUTS_PRIVILEGE !in role.rolePrivileges
  {
    HasHangoutsPrivilegeIff(role.rolePrivileges);
    if Contains(role.roleName, GCP_RESELLER_MARK) {
      GcpMarkContainsResellerMark(role.roleName);
    }
  }

  // ---------------------------------------------------------------------
  // Buckets: insertion-ordered dicts from a key to a list of records
  // ---------------------------------------------------------------------

  /** One entry of such a dict: a key and the records filed under it. */
  datatype Bucket<K> = Bucket(key: K, ras: seq<RoleAssignment>)

  predicate DistinctKeys<K(==)>(bs: seq<Bucket<K>>) {
    forall i, j | 0 <= i < j < |bs| :: bs[i].key != bs[j].key
  }

  /** The records of the first bucket with key `k`, or [] when there is none. */
  function BucketOf<K(==)>(bs: seq<Bucket<K>>, k: K): seq<RoleAssignment> {
    if bs == [] then [] else if bs[0].key == k then bs[0].ras else BucketOf(bs[1..], k)
  }

  /** `m[k].append(ra)` when `k` is a key of `m`, otherwise `m[k] = [ra]`. */
  function AddTo<K(==)>(bs: seq<Bucket<K>>, k: K, ra: RoleAssignment): seq<Bucket<K>> {
    if bs == [] then [Bucket(k, [ra])]
    else if bs[0].key == k then [Bucket(k, bs[0].ras + [ra])] + bs[1..]
    else [bs[0]] + AddTo(bs[1..], k, ra)
  }

  /** The records whose key is `k`, in their order. */
  function WithKey<K(==)>(ras: seq<RoleAssignment>, key: RoleAssignment -> K, k: K): (r: seq<RoleAssignment>)
    ensures forall x :: x in r <==> x in ras && key(x) == k
  {
    if ras == [] then []
    else WithKey(ras[..|ras| - 1], key, k) + (if key(ras[|ras| - 1]) == k then [ras[|ras| - 1]] else [])
  }

  /** The loop that files each record under its key, in order of first appearance. */
  function GroupBy<K(==)>(ras: seq<RoleAssignment>, key: RoleAssignment -> K): seq<Bucket<K>> {
    if ras == [] then []
    else AddTo(GroupBy(ras[..|ras| - 1], key), key(ras[|ras| - 1]), ras[|ras| - 1])
  }

  /** Grouping one more record files it under its key. */
  lemma GroupBySnoc<K>(s: seq<RoleAssignment>, x: RoleAssignment, key: RoleAssignment -> K)
    ensures GroupBy(s + [x], key) == AddTo(GroupBy(s, key), key(x), x)
  {
    assert (s + [x])[..|s|] == s;
  }

  lemma {:induction false} BucketOfFound<K>(bs: seq<Bucket<K>>, b: Bucket<K>)
    requires DistinctKeys(bs) && b in bs
    ensures BucketOf(bs, b.key) == b.ras
  {
    if bs[0] != b {
      assert b in bs[1..];
      BucketOfFound(bs[1..], b);
    }
  }

  lemma {:induction false} BucketOfMissing<K>(bs: seq<Bucket<K>>, k: K)
    requires forall b | b in bs :: b.key != k
    ensures BucketOf(bs, k) == []
  {
    if bs != [] {
      assert bs[0] in bs;
      BucketOfMissing(bs[1..], k);
    }
  }

  /** Filing one record keeps the keys distinct and gives its key a bucket. */
  lemma {:induction false} AddToKeys<K>(bs: seq<Bucket<K>>, k: K, ra: RoleAssignment)
    requires DistinctKeys(bs)
    ensures DistinctKeys(AddTo(bs, k, ra))
    ensures forall b | b in AddTo(bs, k, ra) :: b.key == k || b in bs
    ensures exists b | b in AddTo(bs, k, ra) :: b.key == k
  {
    var r := AddTo(bs, k, ra);
    if bs == [] {
      assert r[0] in r;
    } else if bs[0].key == k {
      assert r[0] in r;
      assert forall i | 1 <= i < |r| :: r[i] == bs[i];
    } else {
      var rest := AddTo(bs[1..], k, ra);
      HeadKeyNotInTail(bs);
      AddToKeys(bs[1..], k, ra);
      assert r == [bs[0]] + rest;
      assert forall c | c in rest :: c.key == k || c in bs[1..];
      var w :| w in rest && w.key == k;
      assert w in r;
    }
  }

  /** Filing one record: its bucket grows by it and the other buckets stay as they were. */
  lemma {:induction false} AddToBuckets<K>(bs: seq<Bucket<K>>, k: K, ra: RoleAssignment)
    requires DistinctKeys(bs)
    ensures forall b | b in AddTo(bs, k, ra) ::
      (b.key == k && b.ras == BucketOf(bs, k) + [ra]) || (b.key != k && b in bs)
    ensures forall b | b in bs && b.key != k :: b in AddTo(bs, k, ra)
  {
    var r := AddTo(bs, k, ra);
    if bs != [] && bs[0].key == k {
      assert forall i | 1 <= i < |r| :: r[i] == bs[i];
      forall b | b in bs && b.key != k ensures b in r {
        var m :| 0 <= m < |bs| && bs[m] == b;
        assert r[m] == b;
      }
      forall b | b in r ensures (b.key == k && b.ras == BucketOf(bs, k) + [ra]) || (b.key != k && b in bs) {
        var m :| 0 <= m < |r| && r[m] == b;
        if m > 0 {
          assert b == bs[m];
        }
      }
    } else if bs != [] {
      var rest := AddTo(bs[1..], k, ra);
      AddToBuckets(bs[1..], k, ra);
      assert r == [bs[0]] + rest;
      forall b | b in bs && b.key != k ensures b in r {
        if b != bs[0] {
          assert b in bs[1..];
        }
      }
    }
  }

  lemma {:induction false} WithKeyNone<K>(ras: seq<RoleAssignment>, key: RoleAssignment -> K, k: K)
    requires forall x | x in ras :: key(x) != k
    ensures WithKey(ras, key, k) == []
  {
    if ras != [] {
      assert ras[|ras| - 1] in ras;
      assert forall x | x in ras[..|ras| - 1] :: x in ras;
      WithKeyNone(ras[..|ras| - 1], key, k);
    }
  }

  /**
   * Grouping is a partition that keeps the order: the keys are distinct,
   * each bucket holds exactly the records with its key, in their order, and
   * is never empty, and every record's key has a bucket.
   */
  lemma {:induction false} GroupByPartition<K>(ras: seq<RoleAssignment>, key: RoleAssignment -> K)
    ensures DistinctKeys(GroupBy(ras, key))
    ensures forall b | b in GroupBy(ras, key) :: b.ras == WithKey(ras, key, b.key) && b.ras != []
    ensures forall x | x in ras :: exists b | b in GroupBy(ras, key) :: b.key == key(x)
  {
    if ras != [] {
      var init, x := ras[..|ras| - 1], ras[|ras| - 1];
      assert ras == init + [x];
      GroupByPartition(init, key);
      var g := GroupBy(init, key);
      AddToKeys(g, key(x), x);
      AddToBuckets(g, key(x), x);
      var g' := AddTo(g, key(x), x);
      assert GroupBy(ras, key) == g';
      forall b | b in g' ensures b.ras == WithKey(ras, key, b.key) && b.ras != [] {
        if b.key == key(x) {
          if exists c | c in g :: c.key == key(x) {
            var c :| c in g && c.key == key(x);
            BucketOfFound(g, c);
          } else {
            BucketOfMissing(g, key(x));
            forall y | y in init ensures key(y) != key(x) {
            }
            WithKeyNone(init, key, key(x));
          }
        }
      }
      forall y | y in ras ensures exists b | b in g' :: b.key == key(y) {
        if y != x {
          assert y in init;
          var c :| c in g && c.key == key(y);
          if c.key != key(x) {
            assert c in g';
          }
        }
      }
    }
  }

  // ---------------------------------------------------------------------
  // sorted(..., key=lambda x: len(x[1]), reverse=True)
  // ---------------------------------------------------------------------

  predicate SortedBySize<K>(bs: seq<Bucket<K>>) {
    forall i, j | 0 <= i < j < |bs| :: |bs[i].ras| >= |bs[j].ras|
  }

  /** Puts `b` before the first bucket that is not larger, after the larger ones. */
  function InsertBySize<K(==)>(b: Bucket<K>, bs: seq<Bucket<K>>): (r: seq<Bucket<K>>)
    ensures multiset(r) == multiset(bs) + multiset{b}
  {
    if bs == [] then [b]
    else if |bs[0].ras| <= |b.ras| then
      assert bs == [bs[0]] + bs[1..];
      [b] + bs
    else
      assert bs == [bs[0]] + bs[1..];
      [bs[0]] + InsertBySize(b, bs[1..])
  }

  /** The buckets, largest first; buckets of the same size keep their order. */
  function SortBySize<K(==)>(bs: seq<Bucket<K>>): (r: seq<Bucket<K>>)
    ensures multiset(r) == multiset(bs)
  {
    if bs == [] then []
    else
      assert bs == [bs[0]] + bs[1..];
      InsertBySize(bs[0], SortBySize(bs[1..]))
  }

  lemma {:induction false} InsertBySizeMembers<K>(b: Bucket<K>, bs: seq<Bucket<K>>)
    ensures forall c | c in InsertBySize(b, bs) :: c == b || c in bs
  {
    if bs != [] && |bs[0].ras| > |b.ras| {
      InsertBySizeMembers(b, bs[1..]);
      assert forall c | c in bs[1..] :: c in bs;
    }
  }

  /** A sorted sequence with a first element no smaller than the rest stays sorted. */
  lemma ConsSorted<K>(c: Bucket<K>, bs: seq<Bucket<K>>)
    requires SortedBySize(bs) && forall d | d in bs :: |d.ras| <= |c.ras|
    ensures SortedBySize([c] + bs)
  {
    var r := [c] + bs;
    forall i, j | 0 <= i < j < |r| ensures |r[i].ras| >= |r[j].ras| {
      if i == 0 {
        assert r[j] == bs[j - 1];
        assert r[j] in bs;
      } else {
        assert r[i] == bs[i - 1] && r[j] == bs[j - 1];
      }
    }
  }

  lemma {:induction false} InsertBySizeSorted<K>(b: Bucket<K>, bs: seq<Bucket<K>>)
    requires SortedBySize(bs)
    ensures SortedBySize(InsertBySize(b, bs))
  {
    if bs == [] {
    } else if |bs[0].ras| <= |b.ras| {
      forall d | d in bs ensures |d.ras| <= |b.ras| {
        var m :| 0 <= m < |bs| && bs[m] == d;
        assert |bs[0].ras| >= |bs[m].ras|;
      }
      ConsSorted(b, bs);
    } else {
      var tail := bs[1..];
      assert SortedBySize(tail) by {
        forall i, j | 0 <= i < j < |tail| ensures |tail[i].ras| >= |tail[j].ras| {
          assert tail[i] == bs[i + 1] && tail[j] == bs[j + 1];
        }
      }
      var rest := InsertBySize(b, tail);
      InsertBySizeSorted(b, tail);
      InsertBySizeMembers(b, tail);
      forall c | c in rest ensures |c.ras| <= |bs[0].ras| {
        if c != b {
          var m :| 0 <= m < |tail| && tail[m] == c;
          assert bs[m + 1] == c;
        }
      }
      ConsSorted(bs[0], rest);
    }
  }

  lemma {:induction false} InsertBySizeDistinct<K>(b: Bucket<K>, bs: seq<Bucket<K>>)
    requires DistinctKeys(bs) && forall c | c in bs :: c.key != b.key
    ensures DistinctKeys(InsertBySize(b, bs))
  {
    if bs != [] {
      assert bs[0] in bs;
      if |bs[0].ras| > |b.ras| {
        var rest := InsertBySize(b, bs[1..]);
        assert forall c | c in bs[1..] :: c in bs;
        HeadKeyNotInTail(bs);
        InsertBySizeDistinct(b, bs[1..]);
        forall c | c in rest ensures c.key != bs[0].key {
          assert c in multiset(rest);
        }
        var r := [bs[0]] + rest;
        forall i, j | 0 <= i < j < |r| ensures r[i].key != r[j].key {
          if i == 0 {
            assert r[j] in rest;
          } else {
            assert r[i] == rest[i - 1] && r[j] == rest[j - 1];
          }
        }
      }
    }
  }

  /** Sorting yields the same buckets, largest first, with keys still distinct. */
  lemma {:induction false} SortBySizeSpec<K>(bs: seq<Bucket<K>>)
    ensures SortedBySize(SortBySize(bs))
    ensures multiset(SortBySize(bs)) == multiset(bs)
    ensures DistinctKeys(bs) ==> DistinctKeys(SortBySize(bs))
  {
    if bs != [] {
      var rest := SortBySize(bs[1..]);
      SortBySizeSpec(bs[1..]);
      InsertBySizeSorted(bs[0], rest);
      if DistinctKeys(bs) {
        HeadKeyNotInTail(bs);
        forall c | c in rest ensures c.key != bs[0].key {
          assert c in multiset(rest);
        }
        InsertBySizeDistinct(bs[0], rest);
      }
    }
  }

  // ---------------------------------------------------------------------
  // _get_filtered_rolescope_to_ra_map
  // ---------------------------------------------------------------------

  /** The utility's settings that steer the selection: the per-scope limit and the two role lists. */
  datatype Limits = Limits(raLimit: int, force: seq<int>, skip: seq<int>)

  /**
   * `lst and int(roleId) in lst`: an empty list short-circuits; otherwise a
   * role id that is not a decimal numeral raises ValueError.
   */
  function Listed(lst: seq<int>, roleId: string): (r: Result<bool>)
    ensures r.Err? <==> lst != [] && ParseInt(roleId).None?
    ensures r.Err? ==> r.error.ValueError?
    ensures r == Ok(true) <==> lst != [] && ParseInt(roleId).Some? && ParseInt(roleId).value in lst
  {
    if lst == [] then Ok(false)
    else
      match ParseInt(roleId)
      case None => Err(ValueError(INT_PARSE_MESSAGE + roleId + "'"))
      case Some(n) => Ok(n in lst)
  }

  /** The records in all buckets together. */
  function Total<K>(bs: seq<Bucket<K>>): nat {
    if bs == [] then 0 else |bs[0].ras| + Total(bs[1..])
  }

  /** The records the selected buckets save: each bucket becomes one group assignment. */
  function Reduced<K>(sel: seq<Bucket<K>>): int {
    Total(sel) - |sel|
  }

  /**
   * One turn of the selection loop for bucket `b`.  `total` is the number
   * of records at the scope and `total - Reduced(sel)` the count that would
   * remain.  A force-listed role is taken at once; then a skip-listed role
   * is passed over; then a bucket is passed over when the remaining count is
   * already under the limit; otherwise it is taken if its role may be
   * processed.
   */
  function Step(o: Overlay, b: Bucket<RoleScope>, total: int, p: Limits, sel: seq<Bucket<RoleScope>>)
    : (r: Result<seq<Bucket<RoleScope>>>)
    ensures r.Ok? ==> r.value == sel || r.value == sel + [b]
  {
    var remaining := total - Reduced(sel);
    match Listed(p.force, b.key.roleId)
    case Err(e) => Err(e)
    case Ok(true) => Ok(sel + [b])
    case Ok(false) =>
      match Listed(p.skip, b.key.roleId)
      case Err(e) => Err(e)
      case Ok(true) => Ok(sel)
      case Ok(false) =>
        if remaining < p.raLimit then Ok(sel)
        else
          match CanRoleBeProcessed(o, b.key.roleId)
          case Err(e) => Err(e)
          case Ok(false) => Ok(sel)
          case Ok(true) => Ok(sel + [b])
  }

  /** The selection loop over the buckets, largest first; the first exception ends it. */
  function Walk(o: Overlay, buckets: seq<Bucket<RoleScope>>, total: int, p: Limits, sel: seq<Bucket<RoleScope>>)
    : Result<seq<Bucket<RoleScope>>>
    decreases |buckets|
  {
    if buckets == [] then Ok(sel)
    else
      match Step(o, buckets[0], total, p, sel)
      case Err(e) => Err(e)
      case Ok(sel') => Walk(o, buckets[1..], total, p, sel')
  }

  /** The walk only appends: what was selected stays, and the rest comes from the buckets. */
  lemma {:induction false} WalkExtends(o: Overlay, buckets: seq<Bucket<RoleScope>>, total: int, p: Limits,
                                       sel: seq<Bucket<RoleScope>>)
    requires Walk(o, buckets, total, p, sel).Ok?
    ensures |sel| <= |Walk(o, buckets, total, p, sel).value|
    ensures Walk(o, buckets, total, p, sel).value[..|sel|] == sel
    ensures forall b | b in Walk(o, buckets, total, p, sel).value[|sel|..] :: b in buckets
    decreases |buckets|
  {
    if buckets != [] {
      var b := buckets[0];
      var r := Walk(o, buckets, total, p, sel).value;
      assert forall c | c in buckets[1..] :: c in buckets;
      var sel' := Step(o, b, total, p, sel).value;
      WalkExtends(o, buckets[1..], total, p, sel');
      if sel' == sel + [b] {
        assert r[..|sel|] == r[..|sel'|][..|sel|];
        assert r[|sel|..] == [b] + r[|sel'|..];
      }
    }
  }

  /** Everything selected before and every force-listed bucket ends up selected. */
  lemma {:induction false} WalkKeepsForced(o: Overlay, buckets: seq<Bucket<RoleScope>>, total: int, p: Limits,
                                           sel: seq<Bucket<RoleScope>>)
    requires Walk(o, buckets, total, p, sel).Ok?
    ensures forall b | b in sel :: b in Walk(o, buckets, total, p, sel).value
    ensures forall b | b in buckets && Listed(p.force, b.key.roleId) == Ok(true) :: b in Walk(o, buckets, total, p, sel).value
    decreases |buckets|
  {
    if buckets != [] {
      var b := buckets[0];
      var sel' := Step(o, b, total, p, sel).value;
      WalkKeepsForced(o, buckets[1..], total, p, sel');
      forall c | c in buckets && Listed(p.force, c.key.roleId) == Ok(true)
        ensures c in Walk(o, buckets, total, p, sel).value
      {
        if c == b {
          assert sel' == sel + [b];
          assert b in sel';
        } else {
          assert c in buckets[1..];
        }
      }
    }
  }

  /** The limit part of the choice: a bucket not force-listed is taken only while the count left is at the limit or over. */
  lemma {:induction false} WalkTakesOverLimit(o: Overlay, buckets: seq<Bucket<RoleScope>>, total: int, p: Limits,
                                              sel: seq<Bucket<RoleScope>>)
    requires Walk(o, buckets, total, p, sel).Ok?
    ensures var r := Walk(o, buckets, total, p, sel).value;
      forall i | |sel| <= i < |r| && Listed(p.force, r[i].key.roleId) != Ok(true) ::
        total - Reduced(r[..i]) >= p.raLimit
    decreases |buckets|
  {
    if buckets != [] {
      var b := buckets[0];
      var sel' := Step(o, b, total, p, sel).value;
      WalkTakesOverLimit(o, buckets[1..], total, p, sel');
      if sel' != sel {
        var r := Walk(o, buckets, total, p, sel).value;
        WalkExtends(o, buckets[1..], total, p, sel');
        assert r[|sel|] == b && r[..|sel|] == sel by {
          assert r[..|sel'|] == sel + [b];
          assert r[..|sel|] == r[..|sel'|][..|sel|];
        }
      }
    }
  }

  /**
   * A bucket is selected only when its role is force-listed, or when it is
   * not skip-listed, its role may be processed and the count that would
   * remain before taking it is not under the limit.
   */
  lemma {:induction false} WalkChoices(o: Overlay, buckets: seq<Bucket<RoleScope>>, total: int, p: Limits,
                                       sel: seq<Bucket<RoleScope>>)
    requires Walk(o, buckets, total, p, sel).Ok?
    ensures forall b | b in Walk(o, buckets, total, p, sel).value ::
      || b in sel
      || Listed(p.force, b.key.roleId) == Ok(true)
      || (Listed(p.skip, b.key.roleId) == Ok(false) && CanRoleBeProcessed(o, b.key.roleId) == Ok(true))
    ensures var r := Walk(o, buckets, total, p, sel).value;
      forall i | |sel| <= i < |r| && Listed(p.force, r[i].key.roleId) != Ok(true) ::
        total - Reduced(r[..i]) >= p.raLimit
    decreases |buckets|
  {
    WalkTakesOverLimit(o, buckets, total, p, sel);
    if buckets != [] {
      var b := buckets[0];
      var sel' := Step(o, b, total, p, sel).value;
      WalkChoices(o, buckets[1..], total, p, sel');
      if sel' == sel + [b] && sel' != sel {
        assert Listed(p.force, b.key.roleId) == Ok(true)
          || (Listed(p.skip, b.key.roleId) == Ok(false) && CanRoleBeProcessed(o, b.key.roleId) == Ok(true));
      }
    }
  }

  /**
   * Once the remaining count is under the limit it stays there: with no
   * force-listed role left, the walk adds nothing more.
   */
  lemma {:induction false} UnderLimitStopsSelection(o: Overlay, buckets: seq<Bucket<RoleScope>>, total: int, p: Limits,
                                                    sel: seq<Bucket<RoleScope>>)
    requires total - Reduced(sel) < p.raLimit
    requires forall b | b in buckets :: Listed(p.force, b.key.roleId) == Ok(false) && Listed(p.skip, b.key.roleId).Ok?
    ensures Walk(o, buckets, total, p, sel) == Ok(sel)
    decreases |buckets|
  {
    if buckets != [] {
      assert buckets[0] in buckets;
      assert forall c | c in buckets[1..] :: c in buckets;
      UnderLimitStopsSelection(o, buckets[1..], total, p, sel);
    }
  }

  lemma {:induction false} TotalAppend<K>(sel: seq<Bucket<K>>, b: Bucket<K>)
    ensures Total(sel + [b]) == Total(sel) + |b.ras|
  {
    if sel != [] {
      assert (sel + [b])[1..] == sel[1..] + [b];
      TotalAppend(sel[1..], b);
    }
  }

  /**
   * The remaining count never grows along the walk: every selected bucket
   * holds at least one record and saves all but one of them.
   */
  lemma {:induction false} WalkRemainingNonIncreasing(o: Overlay, buckets: seq<Bucket<RoleScope>>, total: int,
                                                      p: Limits, sel: seq<Bucket<RoleScope>>)
    requires forall b | b in buckets :: b.ras != []
    requires Walk(o, buckets, total, p, sel).Ok?
    ensures total - Reduced(Walk(o, buckets, total, p, sel).value) <= total - Reduced(sel)
    decreases |buckets|
  {
    if buckets != [] {
      var b := buckets[0];
      assert b in buckets;
      assert forall c | c in buckets[1..] :: c in buckets;
      TotalAppend(sel, b);
      var sel' := Step(o, b, total, p, sel).value;
      WalkRemainingNonIncreasing(o, buckets[1..], total, p, sel');
    }
  }

  /**
   * Once the remaining count is under the limit, only force-listed buckets
   * are taken: every bucket the rest of the walk adds is force-listed.
   */
  lemma {:induction false} UnderLimitOnlyForced(o: Overlay, buckets: seq<Bucket<RoleScope>>, total: int, p: Limits,
                                                sel: seq<Bucket<RoleScope>>)
    requires forall b | b in buckets :: b.ras != []
    requires total - Reduced(sel) < p.raLimit
    requires Walk(o, buckets, total, p, sel).Ok?
    ensures |sel| <= |Walk(o, buckets, total, p, sel).value|
    ensures forall b | b in Walk(o, buckets, total, p, sel).value[|sel|..] :: Listed(p.force, b.key.roleId) == Ok(true)
    decreases |buckets|
  {
    WalkExtends(o, buckets, total, p, sel);
    if buckets != [] {
      var b := buckets[0];
      assert b in buckets;
      assert forall c | c in buckets[1..] :: c in buckets;
      var sel' := Step(o, b, total, p, sel).value;
      var r := Walk(o, buckets, total, p, sel).value;
      TotalAppend(sel, b);
      UnderLimitOnlyForced(o, buckets[1..], total, p, sel');
      WalkExtends(o, buckets[1..], total, p, sel');
      if sel' != sel {
        assert Listed(p.force, b.key.roleId) == Ok(true);
        assert r[|sel|..] == [b] + r[|sel'|..] by {
          assert r[..|sel'|] == sel + [b];
        }
      }
    }
  }

  /**
   * The walk reaches its goal or runs out of candidates: when it succeeds,
   * either the count left is under the limit, or every bucket was selected,
   * skip-listed or refused by `can_role_be_processed`.
   */
  lemma {:induction false} WalkGoal(o: Overlay, buckets: seq<Bucket<RoleScope>>, total: int, p: Limits,
                                    sel: seq<Bucket<RoleScope>>)
    requires forall b | b in buckets :: b.ras != []
    requires Walk(o, buckets, total, p, sel).Ok?
    ensures var r := Walk(o, buckets, total, p, sel).value;
      || total - Reduced(r) < p.raLimit
      || forall b | b in buckets ::
           b in r || Listed(p.skip, b.key.roleId) == Ok(true) || CanRoleBeProcessed(o, b.key.roleId) == Ok(false)
    decreases |buckets|
  {
    if buckets != [] {
      var b := buckets[0];
      assert b in buckets;
      assert forall c | c in buckets[1..] :: c in buckets;
      var sel' := Step(o, b, total, p, sel).value;
      var r := Walk(o, buckets, total, p, sel).value;
      WalkGoal(o, buckets[1..], total, p, sel');
      WalkRemainingNonIncreasing(o, buckets, total, p, sel);
      WalkKeepsForced(o, buckets[1..], total, p, sel');
      if total - Reduced(r) >= p.raLimit {
        assert b in r || Listed(p.skip, b.key.roleId) == Ok(true) || CanRoleBeProcessed(o, b.key.roleId) == Ok(false) by {
          if sel' == sel + [b] {
            assert b in sel';
          }
        }
      }
    }
  }

  /**
   * The stop test is strict: buckets of 5 and 4 records at a limit of 5 are
   * both taken (the count left after the first is 5, not under 5).
   */
  lemma FiveAndFourAtLimitFive(o: Overlay, b1: Bucket<RoleScope>, b2: Bucket<RoleScope>)
    requires |b1.ras| == 5 && |b2.ras| == 4
    requires CanRoleBeProcessed(o, b1.key.roleId) == Ok(true) && CanRoleBeProcessed(o, b2.key.roleId) == Ok(true)
    ensures Walk(o, [b1, b2], 9, Limits(5, [], []), []) == Ok([b1, b2])
  {
    var p := Limits(5, [], []);
    assert Reduced<RoleScope>([]) == 0;
    assert Listed([], b1.key.roleId) == Ok(false) && Listed([], b2.key.roleId) == Ok(false);
    assert [] + [b1] == [b1];
    assert Step(o, b1, 9, p, []) == Ok([b1]);
    assert [b1, b2][1..] == [b2];
    assert [b1][1..] == [];
    assert Reduced([b1]) == 4;
    assert [b1] + [b2] == [b1, b2];
    assert Step(o, b2, 9, p, [b1]) == Ok([b1, b2]);
    assert [b2][1..] == [];
    assert Walk(o, [b2], 9, p, [b1]) == Walk(o, [], 9, p, [b1, b2]);
  }

  /** A scope of 4 records at a limit of 5 needs nothing. */
  lemma FourAtLimitFive(o: Overlay, b: Bucket<RoleScope>)
    requires |b.ras| == 4
    ensures Walk(o, [b], 4, Limits(5, [], []), []) == Ok([])
  {
    assert Step(o, b, 4, Limits(5, [], []), []) == Ok([]);
  }

  /**
   * A force-listed role is taken under the limit, before the skip list and
   * without the safety check.
   */
  lemma ForceBeatsSkipAndLimit(o: Overlay, b: Bucket<RoleScope>, n: int)
    requires |b.ras| == 4 && ParseInt(b.key.roleId) == Some(n)
    ensures Walk(o, [b], 4, Limits(5, [n], [n]), []) == Ok([b])
  {
    assert Listed([n], b.key.roleId) == Ok(true);
    assert [] + [b] == [b];
    assert Step(o, b, 4, Limits(5, [n], [n]), []) == Ok([b]);
  }

  lemma DistinctDropOne<K>(a: seq<Bucket<K>>, b: Bucket<K>, c: seq<Bucket<K>>)
    requires DistinctKeys(a + [b] + c)
    ensures DistinctKeys(a + c)
  {
    var s, t := a + [b] + c, a + c;
    forall i, j | 0 <= i < j < |t| ensures t[i].key != t[j].key {
      var i' := if i < |a| then i else i + 1;
      var j' := if j < |a| then j else j + 1;
      assert t[i] == s[i'] && t[j] == s[j'];
    }
  }

  /** Selecting from buckets with distinct keys gives a selection with distinct keys. */
  lemma {:induction false} WalkDistinct(o: Overlay, buckets: seq<Bucket<RoleScope>>, total: int, p: Limits,
                                        sel: seq<Bucket<RoleScope>>)
    requires DistinctKeys(sel + buckets)
    requires Walk(o, buckets, total, p, sel).Ok?
    ensures DistinctKeys(Walk(o, buckets, total, p, sel).value)
    decreases |buckets|
  {
    if buckets == [] {
      assert sel + buckets == sel;
    } else {
      var b := buckets[0];
      assert sel + buckets == sel + [b] + buckets[1..];
      DistinctDropOne(sel, b, buckets[1..]);
      var sel' := Step(o, b, total, p, sel).value;
      WalkDistinct(o, buckets[1..], total, p, sel');
    }
  }

  // ---------------------------------------------------------------------
  // The role-scope map of one scope, and the maps over all scopes
  // ---------------------------------------------------------------------

  /** A user record is dropped when the client cannot find its user. */
  predicate KeepRecord(o: Overlay, ra: RoleAssignment) {
    !(ra.assigneeType == "user" && o.GetUser(ra.assignedTo).value.None?)
  }

  /** The records the bucketing loop files, in order. */
  function Kept(o: Overlay, ras: seq<RoleAssignment>): (r: seq<RoleAssignment>)
    ensures forall x :: x in r <==> x in ras && KeepRecord(o, x)
  {
    if ras == [] then []
    else Kept(o, ras[..|ras| - 1]) + (if KeepRecord(o, ras[|ras| - 1]) then [ras[|ras| - 1]] else [])
  }

  /** Filing one more record: a kept record goes into its role-scope's bucket, a dropped one nowhere. */
  lemma GroupByKeptSnoc(o: Overlay, s: seq<RoleAssignment>, x: RoleAssignment)
    ensures GroupBy(Kept(o, s + [x]), RoleScopeOf)
         == if KeepRecord(o, x) then AddTo(GroupBy(Kept(o, s), RoleScopeOf), RoleScopeOf(x), x)
            else GroupBy(Kept(o, s), RoleScopeOf)
  {
    assert (s + [x])[..|s|] == s;
    if KeepRecord(o, x) {
      var kept := Kept(o, s + [x]);
      assert kept[..|kept| - 1] == Kept(o, s);
    } else {
      assert Kept(o, s) + [] == Kept(o, s);
    }
  }

  /** The kept records of a scope by role-scope, largest bucket first. */
  function RoleScopeBuckets(o: Overlay, ras: seq<RoleAssignment>): seq<Bucket<RoleScope>> {
    SortBySize(GroupBy(Kept(o, ras), RoleScopeOf))
  }

  /**
   * `_get_filtered_rolescope_to_ra_map(ras, filtered)`: the buckets, or with
   * `filtered` those the walk selects, counting every record of the scope,
   * dropped ones included.
   */
  function FilteredRoleScopeMap(o: Overlay, ras: seq<RoleAssignment>, p: Limits, filtered: bool)
    : Result<seq<Bucket<RoleScope>>>
  {
    var sorted := RoleScopeBuckets(o, ras);
    if !filtered then Ok(sorted) else Walk(o, sorted, |ras|, p, [])
  }

  /**
   * The buckets partition the kept records of the scope, in order: each
   * holds exactly the kept records of its role-scope, none is empty, every
   * kept record has one, the keys are distinct, and the largest come first.
   * A user record whose user is not found is in no bucket.
   */
  lemma RoleScopeBucketsSpec(o: Overlay, ras: seq<RoleAssignment>)
    ensures DistinctKeys(RoleScopeBuckets(o, ras))
    ensures SortedBySize(RoleScopeBuckets(o, ras))
    ensures forall b | b in RoleScopeBuckets(o, ras) ::
      && b.ras == WithKey(Kept(o, ras), RoleScopeOf, b.key)
      && b.ras != []
      && forall x :: x in b.ras <==> x in ras && KeepRecord(o, x) && RoleScopeOf(x) == b.key
    ensures forall x | x in ras && KeepRecord(o, x) :: exists b | b in RoleScopeBuckets(o, ras) :: b.key == RoleScopeOf(x)
  {
    var g := GroupBy(Kept(o, ras), RoleScopeOf);
    GroupByPartition(Kept(o, ras), RoleScopeOf);
    SortBySizeSpec(g);
    var sorted := RoleScopeBuckets(o, ras);
    forall b | b in sorted ensures b in g {
      assert b in multiset(sorted);
    }
    forall x | x in ras && KeepRecord(o, x) ensures exists b | b in sorted :: b.key == RoleScopeOf(x) {
      assert x in Kept(o, ras);
      var b :| b in g && b.key == RoleScopeOf(x);
      assert b in multiset(g);
    }
  }

  /** Every selected bucket is one of the scope's buckets, and the selection's keys are distinct. */
  lemma SelectionFromBuckets(o: Overlay, ras: seq<RoleAssignment>, p: Limits, filtered: bool)
    requires FilteredRoleScopeMap(o, ras, p, filtered).Ok?
    ensures forall b | b in FilteredRoleScopeMap(o, ras, p, filtered).value :: b in RoleScopeBuckets(o, ras)
    ensures DistinctKeys(FilteredRoleScopeMap(o, ras, p, filtered).value)
  {
    RoleScopeBucketsSpec(o, ras);
    if filtered {
      var sorted := RoleScopeBuckets(o, ras);
      WalkExtends(o, sorted, |ras|, p, []);
      assert [] + sorted == sorted;
      WalkDistinct(o, sorted, |ras|, p, []);
      var r := Walk(o, sorted, |ras|, p, []).value;
      assert r[0..] == r;
    }
  }

  /** `get_human_scope_name`: the OU's path for ORG_UNIT scope (its id when not found), else CUSTOMER. */
  function HumanScopeName(o: Overlay, scopeType: string, ouId: string): string {
    if scopeType == ORG_UNIT_SCOPE then
      match o.GetOu(ouId).value
      case Some(ou) => "ORG_UNIT-" + ou.orgUnitPath
      case None => ouId
    else CUSTOMER_SCOPE
  }

  /** The scope name `get_scope_to_ra_map` files a record under. */
  function ScopeKey(o: Overlay, human: bool): RoleAssignment -> string {
    if human then (ra: RoleAssignment) => HumanScopeName(o, ra.scopeType, ra.orgUnitId.GetOr(""))
    else (ra: RoleAssignment) => ScopeName(RoleScope(ra.roleId, ra.scopeType, ra.orgUnitId.GetOr("")))
  }

  /** The dict comprehension keeping the scopes with more than `limit` records, in order. */
  function OverLimit<K>(bs: seq<Bucket<K>>, limit: int): (r: seq<Bucket<K>>)
    ensures forall b | b in r :: b in bs && |b.ras| > limit
    ensures forall b | b in bs && |b.ras| > limit :: b in r
  {
    if bs == [] then []
    else (if |bs[0].ras| > limit then [bs[0]] else []) + OverLimit(bs[1..], limit)
  }

  /** `get_scope_to_ra_map(filter_under_ra_limit, human_readable_scope_name)`. */
  function ScopeMap(o: Overlay, raLimit: int, filterUnder: bool, human: bool): Result<seq<Bucket<string>>> {
    match o.ListRoleAssignments(None, None)
    case Err(e) => Err(e)
    case Ok(ras) =>
      var m := GroupBy(ras, ScopeKey(o, human));
      Ok(if filterUnder then OverLimit(m, raLimit) else m)
  }

  /** With distinct keys, the first key occurs nowhere after the head. */
  lemma HeadKeyNotInTail<K>(bs: seq<Bucket<K>>)
    requires DistinctKeys(bs) && bs != []
    ensures forall b | b in bs[1..] :: b.key != bs[0].key
    ensures DistinctKeys(bs[1..])
  {
    forall b | b in bs[1..] ensures b.key != bs[0].key {
      var m :| 0 <= m < |bs[1..]| && bs[1..][m] == b;
      assert bs[m + 1] == b;
    }
    forall i, j | 0 <= i < j < |bs[1..]| ensures bs[1..][i].key != bs[1..][j].key {
      assert bs[1..][i] == bs[i + 1] && bs[1..][j] == bs[j + 1];
    }
  }

  /** A bucket put in front of buckets with distinct keys, none of them its own, keeps the keys distinct. */
  lemma ConsDistinct<K>(b: Bucket<K>, rest: seq<Bucket<K>>)
    requires DistinctKeys(rest)
    requires forall c | c in rest :: c.key != b.key
    ensures DistinctKeys([b] + rest)
  {
    var r := [b] + rest;
    forall i, j | 0 <= i < j < |r| ensures r[i].key != r[j].key {
      assert r[j] == rest[j - 1];
      if i == 0 {
        assert rest[j - 1] in rest;
      } else {
        assert r[i] == rest[i - 1];
      }
    }
  }

  lemma {:induction false} OverLimitDistinct<K>(bs: seq<Bucket<K>>, limit: int)
    requires DistinctKeys(bs)
    ensures DistinctKeys(OverLimit(bs, limit))
  {
    if bs != [] {
      var rest := OverLimit(bs[1..], limit);
      HeadKeyNotInTail(bs);
      OverLimitDistinct(bs[1..], limit);
      if |bs[0].ras| > limit {
        ConsDistinct(bs[0], rest);
      } else {
        assert OverLimit(bs, limit) == [] + rest;
      }
    }
  }

  /**
   * The scope map partitions the listed assignments by scope name, in order;
   * with the filter it keeps exactly the scopes holding more than the limit.
   */
  lemma ScopeMapSpec(o: Overlay, raLimit: int, filterUnder: bool, human: bool)
    requires o.ListRoleAssignments(None, None).Ok?
    ensures ScopeMap(o, raLimit, filterUnder, human).Ok?
    ensures DistinctKeys(ScopeMap(o, raLimit, filterUnder, human).value)
    ensures forall b | b in ScopeMap(o, raLimit, filterUnder, human).value ::
      && b.ras == WithKey(o.ListRoleAssignments(None, None).value, ScopeKey(o, human), b.key)
      && (filterUnder ==> |b.ras| > raLimit)
    ensures forall b | b in GroupBy(o.ListRoleAssignments(None, None).value, ScopeKey(o, human)) ::
      (b in ScopeMap(o, raLimit, filterUnder, human).value <==> !filterUnder || |b.ras| > raLimit)
    ensures !filterUnder ==>
      forall x | x in o.ListRoleAssignments(None, None).value ::
        exists b | b in ScopeMap(o, raLimit, filterUnder, human).value :: b.key == ScopeKey(o, human)(x)
  {
    var ras := o.ListRoleAssignments(None, None).value;
    GroupByPartition(ras, ScopeKey(o, human));
    OverLimitDistinct(GroupBy(ras, ScopeKey(o, human)), raLimit);
  }

  /** `dict.update` with each scope's selection, scope by scope. */
  function RoleScopeMapFrom(o: Overlay, scopes: seq<Bucket<string>>, p: Limits, filtered: bool,
                            acc: seq<Bucket<RoleScope>>): Result<seq<Bucket<RoleScope>>>
    decreases |scopes|
  {
    if scopes == [] then Ok(acc)
    else
      match FilteredRoleScopeMap(o, scopes[0].ras, p, filtered)
      case Err(e) => Err(e)
      case Ok(part) => RoleScopeMapFrom(o, scopes[1..], p, filtered, acc + part)
  }

  /** One scope of the merge: its selection is appended, or its error ends the merge. */
  lemma RoleScopeMapFromStep(o: Overlay, scopes: seq<Bucket<string>>, i: nat, p: Limits, filtered: bool,
                             acc: seq<Bucket<RoleScope>>)
    requires i < |scopes|
    ensures FilteredRoleScopeMap(o, scopes[i].ras, p, filtered).Err? ==>
      RoleScopeMapFrom(o, scopes[i..], p, filtered, acc) == Err(FilteredRoleScopeMap(o, scopes[i].ras, p, filtered).error)
    ensures FilteredRoleScopeMap(o, scopes[i].ras, p, filtered).Ok? ==>
      RoleScopeMapFrom(o, scopes[i..], p, filtered, acc)
        == RoleScopeMapFrom(o, scopes[i + 1..], p, filtered, acc + FilteredRoleScopeMap(o, scopes[i].ras, p, filtered).value)
  {
    assert scopes[i..][0] == scopes[i] && scopes[i..][1..] == scopes[i + 1..];
  }

  /** `get_rolescope_to_ra_map(filtered)`: the union of the per-scope maps. */
  function RoleScopeMap(o: Overlay, p: Limits, filtered: bool): Result<seq<Bucket<RoleScope>>> {
    match ScopeMap(o, p.raLimit, false, false)
    case Err(e) => Err(e)
    case Ok(scopes) => RoleScopeMapFrom(o, scopes, p, filtered, [])
  }

  /** Every key of a scope's selection names that scope. */
  lemma SelectionNamesScope(o: Overlay, s: Bucket<string>, p: Limits, filtered: bool)
    requires forall x | x in s.ras :: ScopeName(RoleScopeOf(x)) == s.key
    requires FilteredRoleScopeMap(o, s.ras, p, filtered).Ok?
    ensures forall b | b in FilteredRoleScopeMap(o, s.ras, p, filtered).value :: ScopeName(b.key) == s.key
  {
    SelectionFromBuckets(o, s.ras, p, filtered);
    RoleScopeBucketsSpec(o, s.ras);
    forall b | b in FilteredRoleScopeMap(o, s.ras, p, filtered).value ensures ScopeName(b.key) == s.key {
      assert b.ras[0] in b.ras;
    }
  }

  lemma {:induction false} RoleScopeMapFromDistinct(o: Overlay, scopes: seq<Bucket<string>>, p: Limits, filtered: bool,
                                                    acc: seq<Bucket<RoleScope>>)
    requires DistinctKeys(scopes) && DistinctKeys(acc)
    requires forall s | s in scopes :: forall x | x in s.ras :: ScopeName(RoleScopeOf(x)) == s.key
    requires forall b, s | b in acc && s in scopes :: ScopeName(b.key) != s.key
    requires RoleScopeMapFrom(o, scopes, p, filtered, acc).Ok?
    ensures DistinctKeys(RoleScopeMapFrom(o, scopes, p, filtered, acc).value)
    decreases |scopes|
  {
    if scopes != [] {
      var s := scopes[0];
      assert s in scopes;
      var part := FilteredRoleScopeMap(o, s.ras, p, filtered).value;
      SelectionFromBuckets(o, s.ras, p, filtered);
      SelectionNamesScope(o, s, p, filtered);
      var acc' := acc + part;
      forall i, j | 0 <= i < j < |acc'| ensures acc'[i].key != acc'[j].key {
        if j < |acc| {
        } else if i >= |acc| {
          assert acc'[i] == part[i - |acc|] && acc'[j] == part[j - |acc|];
        } else {
          assert acc'[i] in acc;
          assert acc'[j] == part[j - |acc|];
          assert ScopeName(acc'[j].key) == s.key;
        }
      }
      HeadKeyNotInTail(scopes);
      forall b, t | b in acc' && t in scopes[1..] ensures ScopeName(b.key) != t.key {
        assert t in scopes;
        if b !in acc {
          assert b in part;
        }
      }
      RoleScopeMapFromDistinct(o, scopes[1..], p, filtered, acc');
    }
  }

  /**
   * Role-scopes of different scopes differ, so the `update` calls never
   * overwrite: the union has distinct keys.
   */
  lemma RoleScopeMapDistinct(o: Overlay, p: Limits, filtered: bool)
    requires RoleScopeMap(o, p, filtered).Ok?
    ensures DistinctKeys(RoleScopeMap(o, p, filtered).value)
  {
    var scopes := ScopeMap(o, p.raLimit, false, false).value;
    var ras := o.ListRoleAssignments(None, None).value;
    ScopeMapSpec(o, p.raLimit, false, false);
    forall s | s in scopes ensures forall x | x in s.ras :: ScopeName(RoleScopeOf(x)) == s.key {
    }
    RoleScopeMapFromDistinct(o, scopes, p, filtered, []);
  }
}

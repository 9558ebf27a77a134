/**
 * Control logic of the live client (change_client/google_api_client.py):
 * the retry wrapper every remote call runs under, the mapping from HTTP
 * status codes to results, the accumulation of paginated listings, the
 * root-OU computation and the dry-run guards on the mutations.
 *
 * One invocation of a wrapped call is an `Attempt`: it returns a value,
 * raises an exception the wrapper does not catch, or fails with an HTTP
 * status.  Against the in-memory directory an attempt that fails leaves the
 * directory as it was, so the five attempts of the wrapper all behave alike
 * (`Retried`), and the value of a wrapped call is `Settle` of one attempt
 * (lemma `RetryDeterministic`).
 */
module LiveClient {
  import opened Base
  import opened Directory

  const LIVE_BOTH_FILTERS_MESSAGE: string := "google_api_client.list_role_assignments user_id and role_id may not be both specified"
  const NO_LAST_PAGE_MESSAGE: string := "pagination ended without a last page"
  const INVALID_OU_MESSAGE: string := "Unexpected error:invalid ouId patterns"
  const NO_ROOT_MESSAGE: string := "Unexpected error: couldn't find root OU"
  // the source's own wording: the two insertions say dryRun=False although they refuse dry runs
  const CREATE_GROUP_DRY_RUN_MESSAGE: string := "GoogleApiClient.create_group invoked when dryRun=True "
  const DELETE_RA_DRY_RUN_MESSAGE: string := "GoogleApiClient.delete_role_assignment invoked when dryRun=True "
  const INSERT_MEMBER_DRY_RUN_MESSAGE: string := "GoogleApiClient.insert_member_into_group invoked when dryRun=False "
  const INSERT_RA_DRY_RUN_MESSAGE: string := "GoogleApiClient.insert_role_assignment invoked when dryRun=False "
  const MULTIPLE_ROOTS_MESSAGE: string := "Unexpected error:multiple-root-ou, please contact Google support"

  const MAX_RETRIES: nat := 5
  const BASE_DELAY_SECONDS: nat := 1
  const MAX_DELAY_SECONDS: nat := 32
  const DEFAULT_PAGE_SIZE: nat := 100
  const TEST_PAGE_SIZE: nat := 10
  const MAX_RETRIES_MESSAGE: string := "Max retries exceeded. The operation failed."
  const SELF_REVOKE_MARKER: string := "AdminSelfRevokeNotAllowed"

  /** The two flags the live client is built with. */
  datatype Config = Config(testEnv: bool, dryRun: bool)

  function PageSize(cfg: Config): (n: nat)
    ensures n > 0
  {
    if cfg.testEnv then TEST_PAGE_SIZE else DEFAULT_PAGE_SIZE
  }

  // ---------------------------------------------------------------------
  // The retry wrapper
  // ---------------------------------------------------------------------

  /** One invocation of a wrapped call. */
  datatype Attempt<T> = Returned(value: T) | Raised(error: Error) | Failed(code: int)

  /**
   * What the wrapper did: its result, how many times it invoked the call,
   * how often it refreshed the credentials, and the base delays it slept.
   */
  datatype RetryRun<T> = RetryRun(result: Result<T>, calls: nat, refreshes: nat, delays: seq<nat>)

  function Pow2(n: nat): (p: nat)
    ensures p >= 1
  {
    if n == 0 then 1 else 2 * Pow2(n - 1)
  }

  /** The base delay before the next attempt after failed attempt number `retries` (0-based). */
  function BackoffDelay(retries: nat): nat {
    var d := BASE_DELAY_SECONDS * Pow2(retries);
    if d < MAX_DELAY_SECONDS then d else MAX_DELAY_SECONDS
  }

  /** The wrapper's value for an attempt that ends the loop, or for the last failed one. */
  function Settle<T>(a: Attempt<T>): Result<T> {
    match a
    case Returned(v) => Ok(v)
    case Raised(e) => Err(e)
    case Failed(_) => Err(RuntimeError(MAX_RETRIES_MESSAGE))
  }

  /** The wrapper from attempt number `i` on. */
  function RetryFrom<T>(attempts: seq<Attempt<T>>, i: nat, testEnv: bool): RetryRun<T>
    requires i <= |attempts|
    decreases |attempts| - i
  {
    if i == |attempts| then RetryRun(Err(RuntimeError(MAX_RETRIES_MESSAGE)), 0, 0, [])
    else
      match attempts[i]
      case Returned(v) => RetryRun(Ok(v), 1, 0, [])
      case Raised(e) => RetryRun(Err(e), 1, 0, [])
      case Failed(code) =>
        var rest := RetryFrom(attempts, i + 1, testEnv);
        RetryRun(rest.result, rest.calls + 1,
                 rest.refreshes + (if code == 401 then 1 else 0),
                 (if code != 401 && !testEnv then [BackoffDelay(i)] else []) + rest.delays)
  }

  /** `retry_with_credential_refresh` around a call whose successive invocations behave as `attempts`. */
  function Retry<T>(attempts: seq<Attempt<T>>, testEnv: bool): RetryRun<T>
    requires |attempts| == MAX_RETRIES
  {
    RetryFrom(attempts, 0, testEnv)
  }

  /** The run that continues a loop that has made `calls` calls, `refreshes` refreshes and slept `delays`. */
  function Resume<T>(rest: RetryRun<T>, calls: nat, refreshes: nat, delays: seq<nat>): RetryRun<T> {
    RetryRun(rest.result, rest.calls + calls, rest.refreshes + refreshes, delays + rest.delays)
  }

  /** The wrapper's loop, proved to do what `Retry` describes. */
  method RetryWithCredentialRefresh<T>(attempts: seq<Attempt<T>>, testEnv: bool) returns (run: RetryRun<T>)
    requires |attempts| == MAX_RETRIES
    ensures run == Retry(attempts, testEnv)
  {
    ghost var want := Retry(attempts, testEnv);
    var refreshes := 0;
    var delays: seq<nat> := [];
    for retries := 0 to MAX_RETRIES
      invariant want == Resume(RetryFrom(attempts, retries, testEnv), retries, refreshes, delays)
    {
      var a := attempts[retries];
      if !a.Failed? {
        RetryStop(attempts, retries, testEnv, refreshes, delays);
        return RetryRun(Settle(a), retries + 1, refreshes, delays);
      }
      ghost var refreshes0, delays0 := refreshes, delays;
      if a.code == 401 {
        refreshes := refreshes + 1;  // reauth_and_refresh_clients
      } else if !testEnv {
        delays := delays + [BackoffDelay(retries)];
      }
      assert refreshes == refreshes0 + (if a.code == 401 then 1 else 0);
      assert delays == delays0 + (if a.code != 401 && !testEnv then [BackoffDelay(retries)] else []);
      RetryStep(attempts, retries, testEnv, refreshes0, delays0);
    }
    assert delays + [] == delays;
    run := RetryRun(Err(RuntimeError(MAX_RETRIES_MESSAGE)), MAX_RETRIES, refreshes, delays);
  }

  /** An attempt that returns or raises ends the loop with its own outcome. */
  lemma RetryStop<T>(attempts: seq<Attempt<T>>, i: nat, testEnv: bool, refreshes: nat, delays: seq<nat>)
    requires i < |attempts| && !attempts[i].Failed?
    ensures Resume(RetryFrom(attempts, i, testEnv), i, refreshes, delays)
         == RetryRun(Settle(attempts[i]), i + 1, refreshes, delays)
  {
    assert delays + [] == delays;
  }

  /** One failed attempt moves the loop on by one call. */
  lemma RetryStep<T>(attempts: seq<Attempt<T>>, i: nat, testEnv: bool, refreshes: nat, delays: seq<nat>)
    requires i < |attempts| && attempts[i].Failed?
    ensures Resume(RetryFrom(attempts, i, testEnv), i, refreshes, delays)
         == Resume(RetryFrom(attempts, i + 1, testEnv), i + 1,
                   refreshes + (if attempts[i].code == 401 then 1 else 0),
                   delays + (if attempts[i].code != 401 && !testEnv then [BackoffDelay(i)] else []))
  {
    var rest := RetryFrom(attempts, i + 1, testEnv);
    var slept := if attempts[i].code != 401 && !testEnv then [BackoffDelay(i)] else [];
    assert delays + (slept + rest.delays) == (delays + slept) + rest.delays;
  }

  lemma {:induction false} RetryFromOutcome<T>(attempts: seq<Attempt<T>>, i: nat, testEnv: bool)
    requires i < |attempts|
    ensures var run := RetryFrom(attempts, i, testEnv);
      && 1 <= run.calls <= |attempts| - i
      && (forall j | i <= j < i + run.calls - 1 :: attempts[j].Failed?)
      && (i + run.calls < |attempts| ==> !attempts[i + run.calls - 1].Failed?)
      && run.result == Settle(attempts[i + run.calls - 1])
    decreases |attempts| - i
  {
    if attempts[i].Failed? && i + 1 < |attempts| {
      RetryFromOutcome(attempts, i + 1, testEnv);
    }
  }

  /**
   * The wrapper invokes the call at least once and at most MAX_RETRIES
   * times; every invocation but the last failed with an HTTP status; it stops
   * early only at an invocation that did not fail; and its value is that of
   * the last invocation: the returned value, the uncaught exception, or
   * RuntimeError after MAX_RETRIES failures.
   */
  lemma RetryOutcome<T>(attempts: seq<Attempt<T>>, testEnv: bool)
    requires |attempts| == MAX_RETRIES
    ensures var run := Retry(attempts, testEnv);
      && 1 <= run.calls <= MAX_RETRIES
      && (forall j | 0 <= j < run.calls - 1 :: attempts[j].Failed?)
      && (run.calls < MAX_RETRIES ==> !attempts[run.calls - 1].Failed?)
      && run.result == Settle(attempts[run.calls - 1])
  {
    RetryFromOutcome(attempts, 0, testEnv);
  }

  /** When every attempt fails, the call is made exactly MAX_RETRIES times and RuntimeError is raised. */
  lemma RetryExhausted<T>(attempts: seq<Attempt<T>>, testEnv: bool)
    requires |attempts| == MAX_RETRIES
    requires forall j | 0 <= j < MAX_RETRIES :: attempts[j].Failed?
    ensures Retry(attempts, testEnv).calls == MAX_RETRIES
    ensures Retry(attempts, testEnv).result == Err(RuntimeError(MAX_RETRIES_MESSAGE))
  {
    RetryOutcome(attempts, testEnv);
  }

  /** Five invocations that all behave like `a`. */
  function Retried<T>(a: Attempt<T>): (attempts: seq<Attempt<T>>)
    ensures |attempts| == MAX_RETRIES
  {
    [a, a, a, a, a]
  }

  /**
   * Against a remote that answers every invocation alike, the wrapped call's
   * value is `Settle` of one attempt, after one call, or MAX_RETRIES calls
   * when the attempt fails.
   */
  lemma RetryDeterministic<T>(a: Attempt<T>, testEnv: bool)
    ensures Retry(Retried(a), testEnv).result == Settle(a)
    ensures Retry(Retried(a), testEnv).calls == if a.Failed? then MAX_RETRIES else 1
  {
    RetryOutcome(Retried(a), testEnv);
  }

  /** Number of attempts that failed with 401. */
  function Unauthorized<T>(attempts: seq<Attempt<T>>): nat {
    if attempts == [] then 0
    else (if attempts[0] == Failed(401) then 1 else 0) + Unauthorized(attempts[1..])
  }

  /** Number of attempts that failed with a status other than 401. */
  function OtherFailures<T>(attempts: seq<Attempt<T>>): nat {
    if attempts == [] then 0
    else (if attempts[0].Failed? && attempts[0].code != 401 then 1 else 0) + OtherFailures(attempts[1..])
  }

  lemma {:induction false} RetryFromCounts<T>(attempts: seq<Attempt<T>>, i: nat, testEnv: bool)
    requires i < |attempts|
    ensures var run := RetryFrom(attempts, i, testEnv);
      && i + run.calls <= |attempts|
      && run.refreshes == Unauthorized(attempts[i..i + run.calls])
      && (testEnv ==> run.delays == [])
      && (!testEnv ==> |run.delays| == OtherFailures(attempts[i..i + run.calls]))
    decreases |attempts| - i
  {
    var run := RetryFrom(attempts, i, testEnv);
    RetryFromOutcome(attempts, i, testEnv);
    var window := attempts[i..i + run.calls];
    assert window[0] == attempts[i];
    if attempts[i].Failed? && i + 1 < |attempts| {
      RetryFromCounts(attempts, i + 1, testEnv);
      var rest := RetryFrom(attempts, i + 1, testEnv);
      assert window[1..] == attempts[i + 1..i + 1 + rest.calls];
    } else if attempts[i].Failed? {
      assert window == [attempts[i]];
      assert window[1..] == [];
    } else {
      assert window[1..] == [];
    }
  }

  /**
   * The wrapper refreshes the credentials once per 401, and outside the test
   * environment sleeps once per other failure; in the test environment it
   * never sleeps.  (A 401 is therefore never followed by a sleep.)
   */
  lemma RetryRefreshesAndSleeps<T>(attempts: seq<Attempt<T>>, testEnv: bool)
    requires |attempts| == MAX_RETRIES
    ensures var run := Retry(attempts, testEnv);
      && run.calls <= MAX_RETRIES
      && run.refreshes == Unauthorized(attempts[..run.calls])
      && (testEnv ==> run.delays == [])
      && (!testEnv ==> |run.delays| == OtherFailures(attempts[..run.calls]))
  {
    RetryFromCounts(attempts, 0, testEnv);
    assert attempts[0..Retry(attempts, testEnv).calls] == attempts[..Retry(attempts, testEnv).calls];
  }

  /** The base delays for the five attempts: 1, 2, 4, 8 and 16 seconds. */
  lemma BackoffSchedule()
    ensures BackoffDelay(0) == 1 && BackoffDelay(1) == 2 && BackoffDelay(2) == 4
    ensures BackoffDelay(3) == 8 && BackoffDelay(4) == 16
  {
    assert Pow2(4) == 16 by {
      assert Pow2(0) == 1;
      assert Pow2(1) == 2;
      assert Pow2(2) == 4;
      assert Pow2(3) == 8;
    }
  }

  lemma BackoffIncreasing(i: nat, j: nat)
    requires i < j < MAX_RETRIES
    ensures BackoffDelay(i) < BackoffDelay(j) <= 16
  {
    BackoffSchedule();
  }

  /** The delays are strictly increasing. */
  predicate Increasing(ds: seq<nat>) {
    forall j, k | 0 <= j < k < |ds| :: ds[j] < ds[k]
  }

  lemma {:induction false} RetryFromDelays<T>(attempts: seq<Attempt<T>>, i: nat, testEnv: bool)
    requires i <= |attempts| <= MAX_RETRIES
    ensures forall x: int | x in RetryFrom(attempts, i, testEnv).delays :: BackoffDelay(i) <= x <= 16
    ensures Increasing(RetryFrom(attempts, i, testEnv).delays)
    decreases |attempts| - i
  {
    if i < |attempts| && attempts[i].Failed? {
      RetryFromDelays(attempts, i + 1, testEnv);
      var rest := RetryFrom(attempts, i + 1, testEnv).delays;
      var head: seq<nat> := if attempts[i].code != 401 && !testEnv then [BackoffDelay(i)] else [];
      assert RetryFrom(attempts, i, testEnv).delays == head + rest;
      assert BackoffDelay(i) <= 16 by {
        BackoffSchedule();
        if i < 4 { BackoffIncreasing(i, 4); }
      }
      if i + 1 < |attempts| {
        BackoffIncreasing(i, i + 1);
      } else {
        assert rest == [];
      }
      IncreasingCons(head, rest, BackoffDelay(i));
    }
  }

  lemma IncreasingCons(head: seq<nat>, rest: seq<nat>, d: nat)
    requires head == [] || head == [d]
    requires Increasing(rest)
    requires forall x: int | x in rest :: d < x
    ensures Increasing(head + rest)
  {
    var ds := head + rest;
    forall j, k | 0 <= j < k < |ds|
      ensures ds[j] < ds[k]
    {
      if head != [] && j == 0 {
        assert ds[k] == rest[k - 1] && rest[k - 1] in rest;
      } else if head != [] {
        assert ds[j] == rest[j - 1] && ds[k] == rest[k - 1];
      } else {
        assert ds == rest;
      }
    }
  }

  /**
   * The delays the wrapper sleeps double from one failure to the next and
   * stay within 1..16 seconds, below the MAX_DELAY_SECONDS cap.
   */
  lemma RetryDelaysIncrease<T>(attempts: seq<Attempt<T>>, testEnv: bool)
    requires |attempts| == MAX_RETRIES
    ensures forall x: int | x in Retry(attempts, testEnv).delays :: 1 <= x <= 16 < MAX_DELAY_SECONDS
    ensures Increasing(Retry(attempts, testEnv).delays)
  {
    RetryFromDelays(attempts, 0, testEnv);
    BackoffSchedule();
  }

  // ---------------------------------------------------------------------
  // Pagination
  // ---------------------------------------------------------------------

  /**
   * Whether the loop stops after this page.  `list_roles` loops while the
   * token is not None; `get_group_members` and `list_role_assignments` stop
   * on any false token, the empty string included (`stopOnEmpty`).
   */
  predicate LastPage<T>(p: Page<T>, stopOnEmpty: bool) {
    p.nextPageToken.None? || (stopOnEmpty && p.nextPageToken.value == "")
  }

  /**
   * The items the loop accumulates from the pages the service answers, or
   * None when the pages run out before one ends the listing.  A page without
   * the items key contributes nothing.
   */
  function CollectPages<T>(pages: seq<Page<T>>, stopOnEmpty: bool): Option<seq<T>> {
    if pages == [] then None
    else
      var items := pages[0].items.GetOr([]);
      if LastPage(pages[0], stopOnEmpty) then Some(items)
      else
        match CollectPages(pages[1..], stopOnEmpty)
        case None => None
        case Some(rest) => Some(items + rest)
  }

  function Prepend<T>(prefix: seq<T>, rest: Option<seq<T>>): Option<seq<T>> {
    match rest
    case None => None
    case Some(xs) => Some(prefix + xs)
  }

  lemma PrependTwice<T>(a: seq<T>, b: seq<T>, rest: Option<seq<T>>)
    ensures Prepend(a, Prepend(b, rest)) == Prepend(a + b, rest)
  {
    if rest.Some? {
      assert a + (b + rest.value) == (a + b) + rest.value;
    }
  }

  lemma PrependEmpty<T>(rest: Option<seq<T>>)
    ensures Prepend([], rest) == rest
  {
    if rest.Some? {
      assert [] + rest.value == rest.value;
    }
  }

  /** The pagination loop of the three listings, proved to accumulate what `CollectPages` says. */
  method AccumulatePages<T>(pages: seq<Page<T>>, stopOnEmpty: bool) returns (r: Option<seq<T>>)
    ensures r == CollectPages(pages, stopOnEmpty)
  {
    var all: seq<T> := [];
    var k := 0;
    assert pages[0..] == pages;
    PrependEmpty(CollectPages(pages, stopOnEmpty));
    while k < |pages|
      invariant 0 <= k <= |pages|
      invariant CollectPages(pages, stopOnEmpty) == Prepend(all, CollectPages(pages[k..], stopOnEmpty))
    {
      var page := pages[k];
      var items := page.items.GetOr([]);
      assert pages[k..][0] == page;
      assert pages[k..][1..] == pages[k + 1..];
      var tail := CollectPages(pages[k + 1..], stopOnEmpty);
      if LastPage(page, stopOnEmpty) {
        assert CollectPages(pages[k..], stopOnEmpty) == Some(items);
        return Some(all + items);
      }
      assert CollectPages(pages[k..], stopOnEmpty) == Prepend(items, tail);
      PrependTwice(all, items, tail);
      all := all + items;
      k := k + 1;
    }
    r := None;
  }

  /** Reassembling the pages the service cuts a listing into gives back the listing. */
  lemma {:induction false} PaginateRoundTrip<T>(xs: seq<T>, size: nat, stopOnEmpty: bool)
    requires size > 0
    ensures CollectPages(Paginate(xs, size), stopOnEmpty) == Some(xs)
    decreases |xs|
  {
    if |xs| > size {
      PaginateRoundTrip(xs[size..], size, stopOnEmpty);
      var pages := Paginate(xs, size);
      assert pages[1..] == Paginate(xs[size..], size);
      assert xs == xs[..size] + xs[size..];
    }
  }

  /** Pages after the one that ends the listing are never requested. */
  lemma {:induction false} CollectIgnoresLaterPages<T>(pages: seq<Page<T>>, later: seq<Page<T>>, stopOnEmpty: bool)
    requires CollectPages(pages, stopOnEmpty).Some?
    ensures CollectPages(pages + later, stopOnEmpty) == CollectPages(pages, stopOnEmpty)
  {
    assert (pages + later)[0] == pages[0];
    if !LastPage(pages[0], stopOnEmpty) {
      assert (pages + later)[1..] == pages[1..] + later;
      CollectIgnoresLaterPages(pages[1..], later, stopOnEmpty);
    }
  }

  /**
   * An empty-string token ends the member and assignment listings but not
   * the role listing, which requests another page.
   */
  lemma EmptyTokenStopsOnlyFalsyLoops<T>(first: seq<T>, second: seq<T>)
    ensures CollectPages([Page(Some(first), Some("")), Page(Some(second), None)], true) == Some(first)
    ensures CollectPages([Page(Some(first), Some("")), Page(Some(second), None)], false) == Some(first + second)
  {
    var pages := [Page(Some(first), Some("")), Page(Some(second), None)];
    assert pages[1..] == [Page(Some(second), None)];
    assert pages[1..][1..] == [];
  }

  // ---------------------------------------------------------------------
  // Root OU
  // ---------------------------------------------------------------------

  /** The OU ids that are some OU's parent but not themselves listed: parents − ids. */
  function RootCandidates(ous: seq<OrgUnit>): set<string> {
    (set o | o in ous :: o.parentOrgUnitId) - (set o | o in ous :: o.orgUnitId)
  }

  /** The parent ids of the OUs, in order, that are not ids of listed OUs. */
  function UnlistedParents(ous: seq<OrgUnit>, all: seq<OrgUnit>): (r: seq<string>)
    ensures forall x | x in r :: x in RootCandidates(all) || exists o | o in ous :: o.parentOrgUnitId == x
    ensures forall o | o in ous && o.parentOrgUnitId in RootCandidates(all) :: o.parentOrgUnitId in r
    ensures forall x | x in r :: x in (set o | o in ous :: o.parentOrgUnitId)
    ensures forall x | x in r :: x !in (set o | o in all :: o.orgUnitId)
  {
    if ous == [] then []
    else
      var p := ous[0].parentOrgUnitId;
      (if p in (set o | o in all :: o.orgUnitId) then [] else [p]) + UnlistedParents(ous[1..], all)
  }

  /** Some OU's parent is unlisted exactly when the unlisted parents are not empty. */
  lemma UnlistedParentsFound(ous: seq<OrgUnit>)
    requires RootCandidates(ous) != {}
    ensures UnlistedParents(ous, ous) != [] && UnlistedParents(ous, ous)[0] in RootCandidates(ous)
  {
    var x :| x in RootCandidates(ous);
    var o :| o in ous && o.parentOrgUnitId == x;
  }

  /** The text of a line up to its first newline: what `.` matches. */
  function UpToNewline(s: string): (r: string)
    ensures r <= s
    ensures '\n' !in r
    ensures |r| < |s| ==> s[|r|] == '\n'
  {
    if s == [] || s[0] == '\n' then [] else [s[0]] + UpToNewline(s[1..])
  }

  /** `re.search(r'id:(.*)', s).group(1)`: the rest of the line after the first "id:". */
  function AfterIdTag(s: string): (r: Option<string>)
    ensures r.Some? ==> exists i | 0 <= i <= |s| - 3 :: OccursAt(s, "id:" + r.value, i)
    decreases |s|
  {
    if |s| < 3 then None
    else if s[..3] == "id:" then
      var t := UpToNewline(s[3..]);
      assert OccursAt(s, "id:" + t, 0) by {
        assert s[..3 + |t|] == s[..3] + s[3..][..|t|];
      }
      Some(t)
    else
      match AfterIdTag(s[1..])
      case None => None
      case Some(t) =>
        assert exists i | 0 <= i <= |s| - 3 :: OccursAt(s, "id:" + t, i) by {
          var i :| 0 <= i <= |s[1..]| - 3 && OccursAt(s[1..], "id:" + t, i);
          assert s[1..][i..i + |"id:" + t|] == s[i + 1..i + 1 + |"id:" + t|];
          assert OccursAt(s, "id:" + t, i + 1);
        }
        Some(t)
  }

  /** The id format the listing uses, "id:<ou>", is read back as <ou>. */
  lemma AfterIdTagReadsBack(t: string)
    requires '\n' !in t
    ensures AfterIdTag("id:" + t) == Some(t)
  {
    var s := "id:" + t;
    assert s[..3] == "id:";
    assert s[3..] == t;
    assert UpToNewline(t) == t;
    assert AfterIdTag(s) == Some(UpToNewline(s[3..]));
  }

  /**
   * `get_root_ou` on the OU listing: the root is the only parent id that is
   * not itself a listed OU; zero or several such ids, or one without "id:",
   * raise AssertionError.
   */
  function RootOuOf(ous: seq<OrgUnit>): (r: Result<string>)
    ensures r.Ok? ==> exists root | root in RootCandidates(ous) :: AfterIdTag(root) == Some(r.value)
    ensures r.Ok? ==> |RootCandidates(ous)| == 1
    ensures |RootCandidates(ous)| != 1 ==> r.Err? && r.error.AssertionError?
  {
    var roots := RootCandidates(ous);
    if |roots| > 1 then Err(AssertionError(MULTIPLE_ROOTS_MESSAGE))
    else if roots == {} then Err(AssertionError(NO_ROOT_MESSAGE))
    else
      var unlisted := UnlistedParents(ous, ous);
      UnlistedParentsFound(ous);
      match AfterIdTag(unlisted[0])
      case Some(id) => Ok(id)
      case None => Err(AssertionError(INVALID_OU_MESSAGE))
  }

  /** An OU tree whose root the listing names as "id:<t>" yields <t>. */
  lemma RootOuOfTree(ous: seq<OrgUnit>, t: string)
    requires RootCandidates(ous) == {"id:" + t}
    requires '\n' !in t
    ensures RootOuOf(ous) == Ok(t)
  {
    var unlisted := UnlistedParents(ous, ous);
    var o :| o in ous && o.parentOrgUnitId == "id:" + t;
    assert unlisted != [];
    assert unlisted[0] in RootCandidates(ous);
    AfterIdTagReadsBack(t);
  }

  // ---------------------------------------------------------------------
  // Remote calls
  // ---------------------------------------------------------------------

  /** A mutation's effect on the directory and the value of the wrapped call. */
  datatype Answer<T> = Answer(dir: Directory, result: Result<T>)

  /** A read whose 404 means "absent" and whose other statuses are retried. */
  function Lookup<T>(resp: Response<T>): Attempt<Option<T>> {
    match resp
    case Payload(x) => Returned(Some(x))
    case Status(code, _) => if code == 404 then Returned(None) else Failed(code)
  }

  /** `get_primary_email`: an error status from people/me ends in RuntimeError. */
  function GetPrimaryEmail(d: Directory): (r: Result<Option<string>>)
    ensures d.me.Payload? ==> r == Ok(d.me.body)
    ensures d.me.Status? ==> r == Err(RuntimeError(MAX_RETRIES_MESSAGE))
  {
    Settle(match PeopleMe(d) case Payload(e) => Returned(e) case Status(c, _) => Failed(c))
  }

  function GetCustomer(d: Directory): Customer {
    d.customer
  }

  function GetRootOu(d: Directory): Result<string> {
    Settle(match RootOuOf(OrgUnitsList(d)) case Ok(id) => Returned(id) case Err(e) => Raised(e))
  }

  /** `get_ou`: the OU, or None on 404. */
  function GetOu(d: Directory, ouId: string): (r: Result<Option<OrgUnit>>)
    ensures r.Ok?
    ensures r.value.Some? ==> r.value.value in d.orgUnits && r.value.value.orgUnitId == "id:" + ouId
    ensures r.value.None? <==> forall o | o in d.orgUnits :: o.orgUnitId != "id:" + ouId
  {
    Settle(Lookup(OrgUnitsGet(d, ouId)))
  }

  /** `get_user`: the user, or None on 404. */
  function GetUser(d: Directory, key: string): (r: Result<Option<User>>)
    ensures r == Ok(FindUser(d.users, key))
    ensures r.value.Some? ==> r.value.value in d.users && (r.value.value.id == key || r.value.value.primaryEmail == key)
    ensures r.value.None? <==> forall u | u in d.users :: u.id != key && u.primaryEmail != key
  {
    Settle(Lookup(UsersGet(d, key)))
  }

  /** `get_group`: the group, or None on 404. */
  function GetGroup(d: Directory, key: string): (r: Result<Option<Group>>)
    ensures r.Ok?
    ensures r.value.Some? ==> r.value.value in d.groups && (r.value.value.email == key || r.value.value.id == key)
    ensures r.value.None? <==> forall g | g in d.groups :: g.email != key && g.id != key
  {
    Settle(Lookup(GroupsGet(d, key)))
  }

  /** `group_has_member`: True only when the member the service returns has the queried email; 404 is False. */
  function GroupHasMember(d: Directory, groupKey: string, userEmail: string): (r: Result<bool>)
    ensures r.Ok?
    ensures r.value ==> FindGroup(d.groups, groupKey).Some?
    ensures r.value ==> exists m | m in MembersOf(d, FindGroup(d.groups, groupKey).value.email) :: m.email == userEmail
    ensures FindGroup(d.groups, groupKey).Some?
            && (forall m | m in MembersOf(d, FindGroup(d.groups, groupKey).value.email) :: m.id != userEmail)
            && (exists m | m in MembersOf(d, FindGroup(d.groups, groupKey).value.email) :: m.email == userEmail)
            ==> r.value
  {
    Settle(match MembersGet(d, groupKey, userEmail)
           case Payload(m) => Returned(m.email == userEmail)
           case Status(code, _) => if code == 404 then Returned(false) else Failed(code))
  }

  /** The members the service lists for a group key, in order. */
  function ListedMembers(d: Directory, groupKey: string): seq<Member> {
    match FindGroup(d.groups, groupKey)
    case Some(g) => MembersOf(d, g.email)
    case None => []
  }

  /** `get_group_members`: [] for an unknown group, otherwise every page's members in order. */
  function GetGroupMembers(d: Directory, cfg: Config, groupKey: string): (r: Result<seq<Member>>)
    ensures r == Ok(ListedMembers(d, groupKey))
  {
    match GetGroup(d, groupKey)
    case Err(e) => Err(e)
    case Ok(None) => Ok([])
    case Ok(Some(_)) =>
      var pages := MembersList(d, groupKey, PageSize(cfg));
      PaginateRoundTrip(MembersOf(d, FindGroup(d.groups, groupKey).value.email), PageSize(cfg), true);
      match CollectPages(pages, true)
      case Some(ms) => Settle(Returned(ms))
      case None => Settle(Raised(RuntimeError(NO_LAST_PAGE_MESSAGE)))
  }

  /** `list_roles`: every page's roles in order. */
  function ListRoles(d: Directory, cfg: Config): (r: Result<seq<Role>>)
    ensures r == Ok(d.roles)
  {
    PaginateRoundTrip(d.roles, PageSize(cfg), false);
    match CollectPages(RolesList(d, PageSize(cfg)), false)
    case Some(roles) => Settle(Returned(roles))
    case None => Settle(Raised(RuntimeError(NO_LAST_PAGE_MESSAGE)))
  }

  /**
   * `list_role_assignments`: AssertionError when both filters are given;
   * a user key the service does not know (404) ends in RuntimeError;
   * otherwise every page's assignments in order.
   */
  function ListRoleAssignments(d: Directory, cfg: Config, roleId: Option<string>, userKey: Option<string>)
    : (r: Result<seq<RoleAssignment>>)
    ensures roleId.Some? && userKey.Some? ==> r.Err? && r.error.AssertionError?
    ensures roleId.None? && userKey.None? ==> r == Ok(d.assignments)
    ensures roleId.Some? && userKey.None? ==> r == Ok(WithRoleId(d.assignments, roleId.value))
    ensures roleId.None? && userKey.Some? ==>
      match PrincipalId(d, userKey.value)
      case Some(id) => r == Ok(AssignedToUser(d.assignments, id))
      case None => r == Err(RuntimeError(MAX_RETRIES_MESSAGE))
  {
    if roleId.Some? && userKey.Some? then
      Settle(Raised(AssertionError(LIVE_BOTH_FILTERS_MESSAGE)))
    else
      match RoleAssignmentsList(d, roleId, userKey, PageSize(cfg))
      case Status(code, _) => Settle(Failed(code))
      case Payload(pages) =>
        var listed :=
          if userKey.Some? then AssignedToUser(d.assignments, PrincipalId(d, userKey.value).value)
          else if roleId.Some? then WithRoleId(d.assignments, roleId.value)
          else d.assignments;
        PaginateRoundTrip(listed, PageSize(cfg), true);
        match CollectPages(pages, true)
        case Some(ras) => Settle(Returned(ras))
        case None => Settle(Raised(RuntimeError(NO_LAST_PAGE_MESSAGE)))
  }

  /** `get_role`: an unknown role is an error status, retried until RuntimeError. */
  function GetRole(d: Directory, roleId: string): (r: Result<Role>)
    ensures r.Ok? <==> FindRole(d.roles, roleId).Some?
    ensures r.Ok? ==> r.value in d.roles && r.value.roleId == roleId
    ensures r.Err? ==> r.error == RuntimeError(MAX_RETRIES_MESSAGE)
  {
    Settle(match RolesGet(d, roleId) case Payload(role) => Returned(role) case Status(c, _) => Failed(c))
  }

  /** The refusal of a mutating endpoint in dry run. */
  function DryRunGuard<T>(message: string): Attempt<T> {
    Raised(AssertionError(message))
  }

  /** `create_group`: refused in dry run; 409 (the group exists) counts as success. */
  function CreateGroup(d: Directory, cfg: Config, customerId: string, email: string, name: string, description: string)
    : (r: Answer<()>)
    ensures SameReferenceData(d, r.dir)
    ensures cfg.dryRun ==> r.dir == d && r.result.Err? && r.result.error.AssertionError?
    ensures !cfg.dryRun ==> r.result.Ok? && FindGroup(r.dir.groups, email).Some?
    ensures FindGroup(d.groups, email).Some? ==> r.dir == d
  {
    if cfg.dryRun then Answer(d, Settle(DryRunGuard(CREATE_GROUP_DRY_RUN_MESSAGE)))
    else
      var (d', resp) := GroupsCreate(d, customerId, email, name, description);
      var a: Attempt<()> := match resp
        case Payload(_) => Returned(())
        case Status(code, _) => if code == 409 then Returned(()) else Failed(code);
      assert FindGroup(d'.groups, email).Some? by {
        if resp.Payload? {
          assert d'.groups[|d'.groups| - 1].email == email;
          assert d'.groups[|d'.groups| - 1] in d'.groups;
        }
      }
      Answer(d', Settle(a))
  }

  /**
   * `delete_role_assignment`: refused in dry run; True when the assignment
   * was deleted, False on 404 and on the self-revoke 403.
   */
  function DeleteRoleAssignment(d: Directory, cfg: Config, id: string): (r: Answer<bool>)
    ensures SameReferenceData(d, r.dir)
    ensures cfg.dryRun ==> r.dir == d && r.result.Err? && r.result.error.AssertionError?
    ensures !cfg.dryRun ==> r.result.Ok?
    ensures !cfg.dryRun ==>
      (r.result.value <==> (exists x | x in d.assignments :: x.roleAssignmentId == id) && id !in d.selfRevoke)
    ensures r.result == Ok(true) ==> forall x | x in r.dir.assignments :: x.roleAssignmentId != id
    ensures r.result != Ok(true) ==> r.dir == d
    ensures r.dir.groups == d.groups && r.dir.members == d.members
    ensures forall x | x in r.dir.assignments :: x in d.assignments
  {
    if cfg.dryRun then Answer(d, Settle(DryRunGuard(DELETE_RA_DRY_RUN_MESSAGE)))
    else
      var (d', resp) := RoleAssignmentsDelete(d, id);
      var a: Attempt<bool> := match resp
        case Payload(_) => Returned(true)
        case Status(code, text) =>
          if code == 404 then Returned(false)
          else if code == 403 && Contains(text, SELF_REVOKE_MARKER) then Returned(false)
          else Failed(code);
      assert resp.Status? && resp.code == 403 ==> Contains(resp.text, SELF_REVOKE_MARKER) by {
        if resp.Status? && resp.code == 403 {
          assert OccursAt(resp.text, SELF_REVOKE_MARKER, 0);
        }
      }
      Answer(d', Settle(a))
  }

  /** `insert_member_into_group`: refused in dry run; 409 (already a member) counts as success. */
  function InsertMemberIntoGroup(d: Directory, cfg: Config, userEmail: string, userId: string, groupEmail: string)
    : (r: Answer<()>)
    ensures SameReferenceData(d, r.dir)
    ensures cfg.dryRun ==> r.dir == d && r.result.Err? && r.result.error.AssertionError?
    ensures !cfg.dryRun ==>
      (r.result.Ok? <==> FindGroup(d.groups, groupEmail).Some? && FindUser(d.users, userEmail).Some?)
    ensures r.result.Ok? ==>
      (FindGroup(d.groups, groupEmail).Some?
       && FindMember(MembersOf(r.dir, FindGroup(d.groups, groupEmail).value.email), userEmail).Some?)
    ensures r.result.Err? ==> r.dir == d
    ensures r.dir.groups == d.groups
    ensures forall k :: MembersOf(d, k) <= MembersOf(r.dir, k)
  {
    if cfg.dryRun then Answer(d, Settle(DryRunGuard(INSERT_MEMBER_DRY_RUN_MESSAGE)))
    else
      var (d', resp) := MembersInsert(d, groupEmail, userEmail);
      var a: Attempt<()> := match resp
        case Payload(_) => Returned(())
        case Status(code, _) => if code == 409 then Returned(()) else Failed(code);
      assert resp.Payload? ==> FindMember(MembersOf(d', FindGroup(d.groups, groupEmail).value.email), userEmail).Some? by {
        if resp.Payload? {
          var ms := MembersOf(d', FindGroup(d.groups, groupEmail).value.email);
          assert ms[|ms| - 1].email == userEmail && ms[|ms| - 1] in ms;
        }
      }
      Answer(d', Settle(a))
  }

  /** A member found under its own email stays found while members are only appended. */
  lemma GroupHasMemberKept(d: Directory, d': Directory, groupKey: string, userEmail: string)
    requires d'.groups == d.groups
    requires forall k :: MembersOf(d, k) <= MembersOf(d', k)
    requires GroupHasMember(d, groupKey, userEmail) == Ok(true)
    ensures GroupHasMember(d', groupKey, userEmail) == Ok(true)
  {
    var g := FindGroup(d.groups, groupKey).value;
    FindMemberPrefix(MembersOf(d, g.email), MembersOf(d', g.email), userEmail);
  }

  /**
   * After a successful insertion the service finds the user as a member,
   * unless an earlier member of the group carries the user's email as its
   * id: then the insertion answers 409 and `group_has_member` stays False.
   */
  lemma InsertMemberJoins(d: Directory, cfg: Config, userEmail: string, userId: string, groupEmail: string)
    requires InsertMemberIntoGroup(d, cfg, userEmail, userId, groupEmail).result.Ok?
    ensures var d' := InsertMemberIntoGroup(d, cfg, userEmail, userId, groupEmail).dir;
      || GroupHasMember(d', groupEmail, userEmail) == Ok(true)
      || exists m | m in MembersOf(d', FindGroup(d'.groups, groupEmail).value.email) :: m.id == userEmail
  {
    var d' := InsertMemberIntoGroup(d, cfg, userEmail, userId, groupEmail).dir;
    var g := FindGroup(d.groups, groupEmail).value;
    var before := MembersOf(d, g.email);
    match FindMember(before, userEmail)
    case Some(m) =>
      FindMemberPrefix(before, MembersOf(d', g.email), userEmail);
      assert m in MembersOf(d', g.email);
    case None =>
      var (d1, resp) := MembersInsert(d, groupEmail, userEmail);
      var u := FindUser(d.users, userEmail).value;
      assert d' == d1 && MembersOf(d', g.email) == before + [Member(userEmail, u.id)];
      FindMemberAppended(before, Member(userEmail, u.id), userEmail);
  }

  /** `insert_role_assignment`: refused in dry run; 409 (a duplicate grant) counts as success. */
  function InsertRoleAssignment(d: Directory, cfg: Config, ra: RoleAssignment): (r: Answer<()>)
    ensures SameReferenceData(d, r.dir)
    ensures r.dir.groups == d.groups
    ensures cfg.dryRun ==> r.dir == d && r.result.Err? && r.result.error.AssertionError?
    ensures !cfg.dryRun ==> r.result.Ok? && exists x | x in r.dir.assignments :: SameGrant(x, ra)
    ensures (exists x | x in d.assignments :: SameGrant(x, ra)) ==> r.dir == d
  {
    if cfg.dryRun then Answer(d, Settle(DryRunGuard(INSERT_RA_DRY_RUN_MESSAGE)))
    else
      var (d', resp) := RoleAssignmentsInsert(d, ra);
      var a: Attempt<()> := match resp
        case Payload(_) => Returned(())
        case Status(code, _) => if code == 409 then Returned(()) else Failed(code);
      assert exists x | x in d'.assignments :: SameGrant(x, ra) by {
        if resp.Payload? {
          var x := d'.assignments[|d'.assignments| - 1];
          assert x in d'.assignments && SameGrant(x, ra);
        }
      }
      Answer(d', Settle(a))
  }
}

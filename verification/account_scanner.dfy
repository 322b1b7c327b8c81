/**
 * The account scanner: flattens one account's users and access keys into report rows.
 * A failed lookup ends the account's scan at that point; the rows emitted before it stay.
 */
module AccountScanner {
  import opened Options
  import opened Calendar
  import opened IamSnapshot
  import opened ReportRow

  /** The rows a scan emitted, and whether it ran to the end without a failed lookup. */
  datatype Emitted = Emitted(rows: seq<Row>, completed: bool)

  /** Runs `next` only when `first` ran to the end; otherwise the scan stopped inside `first`. */
  function Then(first: Emitted, next: Emitted): (e: Emitted)
    ensures first.completed ==> e.rows == first.rows + next.rows && e.completed == next.completed
    ensures !first.completed ==> e == first
  {
    if first.completed then Emitted(first.rows + next.rows, next.completed) else first
  }

  /** A date cell: the `%m/%d/%Y` rendering, or "None" when there is no date. */
  function DateText(d: Option<Date>): (s: string)
    ensures s == NoneText <==> d.None?
    ensures d.Some? ==> ParseDate(s) == Some(d.value)
  {
    match d
    case Some(v) => ParseFormatRoundTrip(v); FormatDate(v)
    case None => NoneText
  }

  /** The console-access cell, derived only from the presence of a last password use. */
  function ConsoleAccess(lastLogin: Option<Date>): (s: string)
    ensures s == "Yes" <==> lastLogin.Some?
    ensures s == "No" <==> lastLogin.None?
  {
    if lastLogin.Some? then "Yes" else "No"
  }

  /** The MFA cell, derived only from whether any MFA device is attached. */
  function MfaStatus(devices: seq<string>): (s: string)
    ensures s == "Yes" <==> |devices| > 0
    ensures s == "No" <==> |devices| == 0
  {
    if |devices| > 0 then "Yes" else "No"
  }

  /** The seven user-side arguments every row of one user is built from. */
  datatype UserCells = UserCells(
    profile: Option<string>, accountId: string, user: string, created: string,
    login: string, console: string, mfa: string)

  /** The user-side cells of `u`: name, rendered dates, console flag and MFA flag. */
  function CellsFor(profile: Option<string>, accountId: string, u: User, devices: seq<string>): UserCells {
    UserCells(profile, accountId, u.name, DateText(Some(u.created)), DateText(u.passwordLastUsed),
              ConsoleAccess(u.passwordLastUsed), MfaStatus(devices))
  }

  /** `r` holds the cells the scanner derives for user `u` of the given account. */
  predicate DescribesUser(r: Row, profile: Option<string>, accountId: string, u: User)
    requires u.mfaDevices.Fetched?
  {
    && r.account == AccountLabel(profile)
    && r.accountId == accountId
    && r.user == u.name
    && r.createDate == FormatDate(u.created)
    && (r.lastConsoleLogin == NoneText <==> u.passwordLastUsed.None?)
    && (u.passwordLastUsed.Some? ==> r.lastConsoleLogin == FormatDate(u.passwordLastUsed.value))
    && (r.consoleAccess == "Yes" <==> u.passwordLastUsed.Some?)
    && (r.consoleAccess == "No" <==> u.passwordLastUsed.None?)
    && (r.mfa == "Yes" <==> |u.mfaDevices.value| > 0)
    && (r.mfa == "No" <==> |u.mfaDevices.value| == 0)
  }

  /** `r` holds key `k` unchanged, and its usage with "None" for each absent part. */
  predicate CarriesKey(r: Row, k: AccessKey)
    requires k.usage.Fetched?
  {
    var usage := k.usage.value;
    && r.accessKeyId == k.id
    && r.keyStatus == k.status
    && (r.lastUsedDate == NoneText <==> usage.lastUsed.None?)
    && (usage.lastUsed.Some? ==> ParseDate(r.lastUsedDate) == Some(usage.lastUsed.value))
    && (usage.service.None? ==> r.serviceName == NoneText)
    && (usage.service.Some? ==> r.serviceName == usage.service.value)
    && (usage.region.None? ==> r.region == NoneText)
    && (usage.region.Some? ==> r.region == usage.region.value)
  }

  /** `r` was built from the user-side arguments `c`. */
  predicate HasUserCells(r: Row, c: UserCells) {
    && r.account == AccountLabel(c.profile)
    && r.accountId == c.accountId
    && r.user == c.user
    && r.createDate == c.created
    && r.lastConsoleLogin == c.login
    && r.consoleAccess == c.console
    && r.mfa == c.mfa
  }

  /** The row appended for one key once its last-used lookup has returned `usage`. */
  function KeyRow(c: UserCells, k: AccessKey, usage: KeyUsage): (r: Row)
    requires k.usage == Fetched(usage)
    ensures CarriesKey(r, k) && HasUserCells(r, c)
  {
    BuildRow(c.profile, c.accountId, c.user, c.created, c.login, c.console, c.mfa,
             k.id, k.status, DateText(usage.lastUsed),
             usage.service.GetOr(NoneText), usage.region.GetOr(NoneText))
  }

  /** Row `i` carries key `i` and the user's cells, for every row. */
  predicate RowsCarryKeys(rows: seq<Row>, keys: seq<AccessKey>, c: UserCells)
    requires |rows| <= |keys|
  {
    forall i :: 0 <= i < |rows| ==>
      KeyFetched(keys[i]) && CarriesKey(rows[i], keys[i]) && HasUserCells(rows[i], c)
  }

  /** One row per key, in key order, until a last-used lookup fails. */
  function KeyRows(c: UserCells, keys: seq<AccessKey>): (e: Emitted)
    ensures |e.rows| <= |keys|
    ensures e.completed <==> |e.rows| == |keys|
    ensures e.completed <==> forall i :: 0 <= i < |keys| ==> KeyFetched(keys[i])
    ensures !e.completed ==> keys[|e.rows|].usage.Failed?
    ensures RowsCarryKeys(e.rows, keys, c)
    decreases |keys|
  {
    if |keys| == 0 then Emitted([], true)
    else
      match keys[0].usage
      case Failed => Emitted([], false)
      case Fetched(usage) =>
        var rest := KeyRows(c, keys[1..]);
        var e := Emitted([KeyRow(c, keys[0], usage)] + rest.rows, rest.completed);
        assert RowsCarryKeys(e.rows, keys, c) by {
          forall i | 1 <= i < |e.rows|
            ensures KeyFetched(keys[i]) && CarriesKey(e.rows[i], keys[i]) && HasUserCells(e.rows[i], c)
          {
            assert e.rows[i] == rest.rows[i - 1] && keys[i] == keys[1..][i - 1];
          }
        }
        assert (forall i :: 0 <= i < |keys| ==> KeyFetched(keys[i]))
               <==> (forall i :: 0 <= i < |keys[1..]| ==> KeyFetched(keys[1..][i]));
        e
  }

  /** How many rows a user whose key list was fetched contributes: one per key, at least one. */
  function RowsPerUser(u: User): (n: nat)
    requires u.keys.Fetched?
    ensures n >= 1
    ensures n >= |u.keys.value|
  {
    if |u.keys.value| == 0 then 1 else |u.keys.value|
  }

  /** The body of the per-user loop: flags, then one row per key or a single keyless row. */
  function UserRows(profile: Option<string>, accountId: string, u: User): (e: Emitted)
    ensures e.completed <==> UserFetched(u)
    ensures u.mfaDevices.Failed? || u.keys.Failed? ==> e.rows == []
    ensures forall i :: 0 <= i < |e.rows| ==>
              e.rows[i].account == AccountLabel(profile) && e.rows[i].accountId == accountId
    ensures u.mfaDevices.Fetched? ==>
              forall i :: 0 <= i < |e.rows| ==> DescribesUser(e.rows[i], profile, accountId, u)
    ensures u.mfaDevices.Fetched? && u.keys.Fetched? && |u.keys.value| == 0 ==>
              |e.rows| == 1 && IsKeylessRow(e.rows[0])
    ensures u.keys.Fetched? && |u.keys.value| > 0 ==>
              && |e.rows| <= |u.keys.value|
              && forall i :: 0 <= i < |e.rows| ==>
                   KeyFetched(u.keys.value[i]) && CarriesKey(e.rows[i], u.keys.value[i])
    ensures e.completed ==> |e.rows| == RowsPerUser(u)
    ensures u.mfaDevices.Fetched? && u.keys.Fetched? && !e.completed ==>
              |e.rows| < |u.keys.value| && u.keys.value[|e.rows|].usage.Failed?
  {
    match u.mfaDevices
    case Failed => Emitted([], false)
    case Fetched(devices) =>
      match u.keys
      case Failed => Emitted([], false)
      case Fetched(keys) =>
        var c := CellsFor(profile, accountId, u, devices);
        if |keys| == 0 then
          Emitted([BuildRow(c.profile, c.accountId, c.user, c.created, c.login, c.console, c.mfa)], true)
        else
          KeyRows(c, keys)
  }

  /** The number of rows a run of users yields when every lookup succeeds. */
  function RowCount(users: seq<User>): (n: nat)
    requires forall i :: 0 <= i < |users| ==> UserFetched(users[i])
    ensures n >= |users|
  {
    if |users| == 0 then 0
    else
      assert UserFetched(users[0]);
      RowsPerUser(users[0]) + RowCount(users[1..])
  }

  /** The users of one listing page, in order, until a lookup fails. */
  function UsersRows(profile: Option<string>, accountId: string, users: seq<User>): (e: Emitted)
    ensures e.completed <==> forall i :: 0 <= i < |users| ==> UserFetched(users[i])
    ensures forall i :: 0 <= i < |e.rows| ==>
              e.rows[i].account == AccountLabel(profile) && e.rows[i].accountId == accountId
    ensures e.completed ==> |e.rows| == RowCount(users)
    decreases |users|
  {
    if |users| == 0 then Emitted([], true)
    else
      var first := UserRows(profile, accountId, users[0]);
      var rest := UsersRows(profile, accountId, users[1..]);
      assert (forall i :: 0 <= i < |users| ==> UserFetched(users[i]))
             <==> UserFetched(users[0]) && (forall i :: 0 <= i < |users[1..]| ==> UserFetched(users[1..][i]));
      Then(first, rest)
  }

  /** The whole `list_users` listing, page after page, until a page or a lookup fails. */
  function PagesRows(profile: Option<string>, accountId: string, pages: seq<Fetch<seq<User>>>): (e: Emitted)
    ensures e.completed ==> forall i :: 0 <= i < |pages| ==> pages[i].Fetched?
    ensures forall i :: 0 <= i < |e.rows| ==>
              e.rows[i].account == AccountLabel(profile) && e.rows[i].accountId == accountId
    decreases |pages|
  {
    if |pages| == 0 then Emitted([], true)
    else
      match pages[0]
      case Failed => Emitted([], false)
      case Fetched(users) =>
        Then(UsersRows(profile, accountId, users), PagesRows(profile, accountId, pages[1..]))
  }

  /**
   * `get_user_data` for one profile: nothing at all when the account id cannot be
   * resolved, otherwise the listing's rows up to the first failed lookup.
   */
  function ScanAccount(profile: Option<string>, snap: AccountSnapshot): (rows: seq<Row>)
    ensures snap.accountId.Failed? ==> rows == []
    ensures snap.accountId.Fetched? ==>
              forall i :: 0 <= i < |rows| ==>
                rows[i].account == AccountLabel(profile) && rows[i].accountId == snap.accountId.value
  {
    match snap.accountId
    case Failed => []
    case Fetched(id) => PagesRows(profile, id, snap.pages).rows
  }

  lemma ThenAssociative(a: Emitted, b: Emitted, c: Emitted)
    ensures Then(Then(a, b), c) == Then(a, Then(b, c))
  {
  }

  /**
   * Rows are appended as they are built: scanning `xs + ys` yields the rows of `xs`,
   * and goes on to `ys` only if nothing in `xs` failed.
   */
  lemma {:induction false} UsersRowsAppend(profile: Option<string>, accountId: string, xs: seq<User>, ys: seq<User>)
    ensures UsersRows(profile, accountId, xs + ys)
            == Then(UsersRows(profile, accountId, xs), UsersRows(profile, accountId, ys))
    decreases |xs|
  {
    if |xs| == 0 {
      assert xs + ys == ys;
    } else {
      assert (xs + ys)[0] == xs[0];
      assert (xs + ys)[1..] == xs[1..] + ys;
      UsersRowsAppend(profile, accountId, xs[1..], ys);
      ThenAssociative(UserRows(profile, accountId, xs[0]),
                      UsersRows(profile, accountId, xs[1..]), UsersRows(profile, accountId, ys));
    }
  }

  /**
   * A failed lookup for user `k` ends the scan: the rows of the users before it stay,
   * followed by whatever that user emitted before the failure, and nothing after.
   */
  lemma {:induction false} ScanStopsAtFailedUser(profile: Option<string>, accountId: string, users: seq<User>, k: nat)
    requires k < |users|
    requires !UserFetched(users[k])
    ensures UsersRows(profile, accountId, users)
            == Then(UsersRows(profile, accountId, users[..k]), UserRows(profile, accountId, users[k]))
    ensures !UsersRows(profile, accountId, users).completed
  {
    assert users == users[..k] + users[k..];
    UsersRowsAppend(profile, accountId, users[..k], users[k..]);
    assert users[k..][0] == users[k];
    var tail := UsersRows(profile, accountId, users[k..]);
    assert tail == UserRows(profile, accountId, users[k]);
  }

  /** Pagination is concatenation: a fully fetched listing scans like one list of its users. */
  lemma {:induction false} PaginationIsConcatenation(profile: Option<string>, accountId: string, pages: seq<seq<User>>)
    ensures PagesRows(profile, accountId, Listing(pages)) == UsersRows(profile, accountId, AllUsers(pages))
    decreases |pages|
  {
    if |pages| == 0 {
    } else {
      assert Listing(pages)[1..] == Listing(pages[1..]);
      PaginationIsConcatenation(profile, accountId, pages[1..]);
      UsersRowsAppend(profile, accountId, pages[0], AllUsers(pages[1..]));
    }
  }

  /**
   * Pages are scanned in order: the listing `a + b` gives the rows of `a`, then the rows of
   * `b` only if nothing in `a` failed.
   */
  lemma {:induction false} PagesRowsAppend(profile: Option<string>, accountId: string,
                                           a: seq<Fetch<seq<User>>>, b: seq<Fetch<seq<User>>>)
    ensures PagesRows(profile, accountId, a + b)
            == Then(PagesRows(profile, accountId, a), PagesRows(profile, accountId, b))
    decreases |a|
  {
    if |a| == 0 {
      assert a + b == b;
    } else {
      assert (a + b)[0] == a[0];
      assert (a + b)[1..] == a[1..] + b;
      match a[0]
      case Failed =>
      case Fetched(users) =>
        PagesRowsAppend(profile, accountId, a[1..], b);
        ThenAssociative(UsersRows(profile, accountId, users),
                        PagesRows(profile, accountId, a[1..]), PagesRows(profile, accountId, b));
    }
  }

  /**
   * An account's rows begin with those of its first `k` pages. When those pages were
   * scanned without a failure the later pages' rows follow; when page `k` itself could
   * not be fetched nothing follows.
   */
  lemma {:induction false} ScanAccountPrefix(profile: Option<string>, snap: AccountSnapshot, k: nat)
    requires snap.accountId.Fetched? && k <= |snap.pages|
    ensures var before := PagesRows(profile, snap.accountId.value, snap.pages[..k]);
            && before.rows <= ScanAccount(profile, snap)
            && (before.completed ==>
                  ScanAccount(profile, snap)
                  == before.rows + PagesRows(profile, snap.accountId.value, snap.pages[k..]).rows)
            && (k < |snap.pages| && snap.pages[k].Failed? ==> ScanAccount(profile, snap) == before.rows)
  {
    var id := snap.accountId.value;
    assert snap.pages == snap.pages[..k] + snap.pages[k..];
    PagesRowsAppend(profile, id, snap.pages[..k], snap.pages[k..]);
    if k < |snap.pages| && snap.pages[k].Failed? {
      assert snap.pages[k..][0] == snap.pages[k];
    }
  }

  /**
   * When every lookup succeeds, an account yields exactly one row per key of each user,
   * plus one row per user without keys.
   */
  lemma {:induction false} CompleteScanRowCount(profile: Option<string>, accountId: string, pages: seq<seq<User>>)
    requires forall i :: 0 <= i < |AllUsers(pages)| ==> UserFetched(AllUsers(pages)[i])
    ensures |ScanAccount(profile, AccountSnapshot(Fetched(accountId), Listing(pages)))| == RowCount(AllUsers(pages))
  {
    PaginationIsConcatenation(profile, accountId, pages);
  }

  /** All rows of one user agree on the seven user columns. */
  lemma UserRowsAgree(profile: Option<string>, accountId: string, u: User, i: nat, j: nat)
    requires i < |UserRows(profile, accountId, u).rows| && j < |UserRows(profile, accountId, u).rows|
    ensures var rows := UserRows(profile, accountId, u).rows;
            && rows[i].account == rows[j].account
            && rows[i].accountId == rows[j].accountId
            && rows[i].user == rows[j].user
            && rows[i].createDate == rows[j].createDate
            && rows[i].lastConsoleLogin == rows[j].lastConsoleLogin
            && rows[i].consoleAccess == rows[j].consoleAccess
            && rows[i].mfa == rows[j].mfa
  {
  }
}

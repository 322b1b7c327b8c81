/**
 * One account's identity store, as the scanner sees it once every API call has been
 * made. Each call that can raise is a `Fetch`: it either returned a value or failed.
 */
module IamSnapshot {
  import opened Options
  import opened Calendar

  /** The outcome of one identity-API call. */
  datatype Fetch<+T> = Fetched(value: T) | Failed

  /** The `AccessKeyLastUsed` part of `get_access_key_last_used`; every field may be absent. */
  datatype KeyUsage = KeyUsage(lastUsed: Option<Date>, service: Option<string>, region: Option<string>)

  /** One entry of `list_access_keys`, with the result of its own last-used lookup. */
  datatype AccessKey = AccessKey(id: string, status: string, usage: Fetch<KeyUsage>)

  /**
   * One entry of the `list_users` listing, with the results of the two per-user lookups
   * (`list_mfa_devices`, `list_access_keys`).
   */
  datatype User = User(
    name: string,
    created: Date,
    passwordLastUsed: Option<Date>,
    mfaDevices: Fetch<seq<string>>,
    keys: Fetch<seq<AccessKey>>)

  /**
   * What one profile's session yields: the caller's account id (or a failure, which also
   * covers a session that cannot be built) and the `list_users` pages in paginator order.
   */
  datatype AccountSnapshot = AccountSnapshot(accountId: Fetch<string>, pages: seq<Fetch<seq<User>>>)

  /** Every lookup made for this key succeeded. */
  predicate KeyFetched(k: AccessKey) {
    k.usage.Fetched?
  }

  /** Every lookup made for this user, and for each of its keys, succeeded. */
  predicate UserFetched(u: User) {
    && u.mfaDevices.Fetched?
    && u.keys.Fetched?
    && forall i :: 0 <= i < |u.keys.value| ==> KeyFetched(u.keys.value[i])
  }

  /** Every user of every page, in listing order: pagination as concatenation. */
  function AllUsers(pages: seq<seq<User>>): seq<User> {
    if |pages| == 0 then [] else pages[0] + AllUsers(pages[1..])
  }

  /** A listing whose every page was fetched. */
  function Listing(pages: seq<seq<User>>): (listing: seq<Fetch<seq<User>>>)
    ensures |listing| == |pages|
    ensures forall i :: 0 <= i < |pages| ==> listing[i] == Fetched(pages[i])
  {
    seq(|pages|, i requires 0 <= i < |pages| => Fetched(pages[i]))
  }
}

/** The fixed-shape report row and its constructor. */
module ReportRow {
  import opened Options

  /** The literal placeholder written wherever a value is absent. */
  const NoneText := "None"

  /** Label of the implicit profile. */
  const DefaultLabel := "Default"

  datatype Row = Row(
    account: string,
    accountId: string,
    user: string,
    createDate: string,
    lastConsoleLogin: string,
    consoleAccess: string,
    accessKeyId: string,
    keyStatus: string,
    lastUsedDate: string,
    serviceName: string,
    region: string,
    mfa: string)

  /** The report's column headings, in output order. */
  const Header: seq<string> := [
    "CUENTA", "ID Cuenta", "Usuarios", "CreateDate", "LastConsoleLogin", "ConsoleAccess",
    "AccessKeyId", "KeyStatus", "LastUsedDate", "ServiceName", "Region", "MFA"]

  /** The row's cells, in the order of `Header`. */
  function Cells(r: Row): (cs: seq<string>)
    ensures |cs| == |Header|
  {
    [r.account, r.accountId, r.user, r.createDate, r.lastConsoleLogin, r.consoleAccess,
     r.accessKeyId, r.keyStatus, r.lastUsedDate, r.serviceName, r.region, r.mfa]
  }

  /** The cell a row holds under a column heading, as the row's dict keys name them; `None` for any other name. */
  function Column(r: Row, name: string): Option<string> {
    if name == "CUENTA" then Some(r.account)
    else if name == "ID Cuenta" then Some(r.accountId)
    else if name == "Usuarios" then Some(r.user)
    else if name == "CreateDate" then Some(r.createDate)
    else if name == "LastConsoleLogin" then Some(r.lastConsoleLogin)
    else if name == "ConsoleAccess" then Some(r.consoleAccess)
    else if name == "AccessKeyId" then Some(r.accessKeyId)
    else if name == "KeyStatus" then Some(r.keyStatus)
    else if name == "LastUsedDate" then Some(r.lastUsedDate)
    else if name == "ServiceName" then Some(r.serviceName)
    else if name == "Region" then Some(r.region)
    else if name == "MFA" then Some(r.mfa)
    else None
  }

  /** Cell `i` of a row is the one its dict holds under heading `i`: cells follow the headings. */
  lemma CellsFollowHeader(r: Row)
    ensures forall i :: 0 <= i < |Header| ==> Column(r, Header[i]) == Some(Cells(r)[i])
  {
  }

  /** A profile's label in the report: Python's `profile or "Default"`. */
  function AccountLabel(profile: Option<string>): (shown: string)
    ensures shown != ""
    ensures shown == DefaultLabel <==> profile.None? || profile.value in {"", DefaultLabel}
    ensures profile.Some? && profile.value != "" ==> shown == profile.value
  {
    if profile.Some? && profile.value != "" then profile.value else DefaultLabel
  }

  /**
   * Builds a row from its arguments in the order the scanner passes them (MFA seventh),
   * each under its own heading; omitted key arguments are "None".
   */
  function BuildRow(
    profile: Option<string>, accountId: string, user: string, created: string,
    login: string, console: string, mfa: string,
    key: string := NoneText, status: string := NoneText, used: string := NoneText,
    service: string := NoneText, region: string := NoneText): (r: Row)
    ensures Cells(r) == [AccountLabel(profile), accountId, user, created, login, console,
                         key, status, used, service, region, mfa]
    ensures Cells(r)[|Header| - 1] == mfa
  {
    Row(AccountLabel(profile), accountId, user, created, login, console,
        key, status, used, service, region, mfa)
  }

  /**
   * Whatever order the arguments come in, each lands under its own heading:
   * MFA, passed seventh, is the cell under "MFA".
   */
  lemma BuildRowColumns(
    profile: Option<string>, accountId: string, user: string, created: string,
    login: string, console: string, mfa: string,
    key: string, status: string, used: string, service: string, region: string)
    ensures var r := BuildRow(profile, accountId, user, created, login, console, mfa,
                              key, status, used, service, region);
      && Column(r, "CUENTA") == Some(AccountLabel(profile))
      && Column(r, "ID Cuenta") == Some(accountId)
      && Column(r, "Usuarios") == Some(user)
      && Column(r, "CreateDate") == Some(created)
      && Column(r, "LastConsoleLogin") == Some(login)
      && Column(r, "ConsoleAccess") == Some(console)
      && Column(r, "AccessKeyId") == Some(key)
      && Column(r, "KeyStatus") == Some(status)
      && Column(r, "LastUsedDate") == Some(used)
      && Column(r, "ServiceName") == Some(service)
      && Column(r, "Region") == Some(region)
      && Column(r, "MFA") == Some(mfa)
  {
  }

  /** A row whose five key cells all hold the placeholder: the row of a user without keys. */
  predicate IsKeylessRow(r: Row) {
    && r.accessKeyId == NoneText
    && r.keyStatus == NoneText
    && r.lastUsedDate == NoneText
    && r.serviceName == NoneText
    && r.region == NoneText
  }

  /** Leaving out every key argument yields a keyless row. */
  lemma BuildRowDefaultsKeyless(
    profile: Option<string>, accountId: string, user: string, created: string,
    login: string, console: string, mfa: string)
    ensures IsKeylessRow(BuildRow(profile, accountId, user, created, login, console, mfa))
    ensures Cells(BuildRow(profile, accountId, user, created, login, console, mfa))[6..11]
            == [NoneText, NoneText, NoneText, NoneText, NoneText]
  {
  }
}

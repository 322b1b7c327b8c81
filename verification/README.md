# IAM user and access-key audit — Dafny model

`Info_Usuarios/list.py` walks every locally configured AWS profile. For each one it
resolves the caller's account id and lists the IAM users page by page. For every user it
derives a console-access flag and an MFA flag. It then turns each user into report rows:
one row per access key, or a single keyless row when the user has no keys. All rows of
all accounts are collected, sorted by (account label, key status) and written out, or
nothing is written when no row was collected.

This project models that pure core. The AWS responses are plain values:

- a per-profile `AccountSnapshot` holds the account id and the `list_users` pages;
- each `User` holds the MFA-device and access-key lookups;
- each `AccessKey` holds its last-used lookup.

Every call that can raise is a `Fetch` (`Fetched(value)` or `Failed`). The scanning,
defaulting, flattening, date rendering and sorting are pure functions over these values.

| module (file) | models |
|---|---|
| `Calendar` (calendar.dfy) | `strftime('%m/%d/%Y')`; `ParseDate` reads that shape back, and the round-trip lemmas prove the rendering loses nothing |
| `IamSnapshot` (iam_snapshot.dfy) | the fetched users, keys, key usage and account snapshots |
| `ReportRow` (report_row.dfy) | `_build_row`: the 12-column row and the `profile or "Default"` label |
| `AccountScanner` (account_scanner.dfy) | `get_user_data`: the flags, then per key, per user, per page and per account |
| `Orchestrator` (orchestrator.dfy) | `run`: the default profile, the scan of every profile in order, the report |
| `Lexical` (lexical.dfy) | Python's `<` on `str`, which the sort compares with |
| `SortedKeys` (sorted_keys.dfy) | generic fact: sorting by a key fixes the key sequence |
| `ReportBuilder` (report_builder.dfy) | the sort on `CUENTA`/`KeyStatus` and "no rows, no report" |
| `Options` (options.dfy) | optional values and `dict.get(k, default)` |

A failed lookup ends that account's scan at the point of failure, as the single
`try`/`except` around the whole of `get_user_data` does. Rows already appended for that
account stay in the collection. Later profiles are still scanned.

## Model

| member | source | states |
|---|---|---|
| Calendar.FormatDate | Info_Usuarios/list.py:27 | the rendering is ten characters: two digits, `/`, two digits, `/`, four digits |
| Calendar.ParseFormatRoundTrip | Info_Usuarios/list.py:27 | reading a rendered date back gives the same date, so rendering loses nothing |
| Calendar.FormatParseRoundTrip | Info_Usuarios/list.py:27 | any `MM/DD/YYYY` text that reads as a valid date is exactly that date's rendering |
| Calendar.FormatDateInjective | Info_Usuarios/list.py:27 | distinct dates render to distinct texts |
| ReportRow.AccountLabel | Info_Usuarios/list.py:72 | the label is never empty; it is the profile name when one is given and non-empty, otherwise "Default" |
| ReportRow.BuildRowColumns | Info_Usuarios/list.py:69-84 | the contract of `BuildRow` (`_build_row`): each argument is the cell under its own heading: the label under "CUENTA", the status under "KeyStatus", and MFA, passed seventh, under "MFA" |
| ReportRow.CellsFollowHeader | Info_Usuarios/list.py:71-84 | the cells of a row, in header order, are the values its dict holds under those headings, so the CSV column order matches the keys |
| ReportRow.BuildRowDefaultsKeyless | Info_Usuarios/list.py:69-70 | leaving out every key argument gives a row whose five key cells are "None" |
| AccountScanner.DateText | Info_Usuarios/list.py:30-31 | a date cell is "None" exactly when the date is absent; otherwise it reads back as that date |
| AccountScanner.ConsoleAccess | Info_Usuarios/list.py:30-32 | console access is "Yes" iff a last password use is present, and "No" iff it is absent |
| AccountScanner.MfaStatus | Info_Usuarios/list.py:34-35 | MFA is "Yes" iff the device list is non-empty, and "No" iff it is empty |
| AccountScanner.KeyRow | Info_Usuarios/list.py:48-64 | a key row carries the key's id and status unchanged; an absent last-used date, service or region gives "None" in that cell |
| AccountScanner.KeyRows | Info_Usuarios/list.py:47-64 | row i carries key i, in key order; rows stop exactly at the first key whose last-used lookup fails; all rows carry the user's cells |
| AccountScanner.UserRows | Info_Usuarios/list.py:26-64 | a failed MFA or key listing yields no row; a keyless user yields exactly one keyless row; otherwise row i carries key i, and an incomplete user's rows stop exactly at the first key whose last-used lookup failed, keeping the rows of the keys before it; a complete user yields max(1, key count) rows; every row carries the profile's label, the account id, the user's name, dates and both flags |
| AccountScanner.UserRowsAgree | Info_Usuarios/list.py:42-64 | all rows of one user agree on the seven user columns |
| AccountScanner.UsersRows | Info_Usuarios/list.py:25-64 | a page completes iff every lookup for its users succeeded, and then yields exactly the sum of the per-user row counts |
| AccountScanner.UsersRowsAppend | Info_Usuarios/list.py:40-64 | rows are appended as built: scanning `xs + ys` gives the rows of `xs`, then the rows of `ys` only if nothing in `xs` failed |
| AccountScanner.ScanStopsAtFailedUser | Info_Usuarios/list.py:24-67 | a failed lookup for user k keeps the rows of the users before it and whatever user k emitted first, and nothing after |
| AccountScanner.PagesRows | Info_Usuarios/list.py:23-64 | every row carries the profile's label and the account id; the listing completes only if every page was fetched |
| AccountScanner.PagesRowsAppend | Info_Usuarios/list.py:23-64 | pages are scanned in order: the listing `a + b` gives the rows of `a`, then the rows of `b` only if nothing in `a` failed |
| AccountScanner.ScanAccountPrefix | Info_Usuarios/list.py:13-67 | an account's rows begin with those of its first k pages; the later pages' rows follow when those k completed; a page that cannot be fetched ends the scan |
| AccountScanner.PaginationIsConcatenation | Info_Usuarios/list.py:23-25 | scanning a fully fetched listing page by page equals scanning the concatenation of its pages |
| AccountScanner.ScanAccount | Info_Usuarios/list.py:12-67 | an unresolvable account id yields no rows; otherwise every row carries the profile's label and the resolved id |
| AccountScanner.CompleteScanRowCount | Info_Usuarios/list.py:40-64 | with every lookup successful, an account yields one row per key plus one per keyless user |
| Orchestrator.ProfilesToScan | Info_Usuarios/list.py:88 | no configured profile means exactly one scan, of the default profile; otherwise each profile once, in order |
| Orchestrator.ScanAll | Info_Usuarios/list.py:90-91 | every collected row is labelled with one of the scanned profiles |
| Orchestrator.ScanAllAppend | Info_Usuarios/list.py:90-91 | scanning two runs of profiles one after the other concatenates their rows |
| Orchestrator.AccountRowsKept | Info_Usuarios/list.py:90-91 | each profile's rows appear unchanged as one block, after those of the profiles before it, whatever the other accounts do |
| Orchestrator.FailedAccountContributesNothing | Info_Usuarios/list.py:66-67 | a profile whose account id cannot be resolved changes nothing: the collection equals the scan of the other profiles alone |
| Orchestrator.Run | Info_Usuarios/list.py:86-91 | with no profiles the rows are those of the default scan, all labelled "Default"; otherwise the rows are the scan of every configured profile, in order; every row is labelled with a scanned profile |
| Orchestrator.RunKeepsEveryProfile | Info_Usuarios/list.py:88-91 | every configured profile's rows appear unchanged, as one block, right after the rows of the profiles configured before it |
| Orchestrator.Audit | Info_Usuarios/list.py:86-102 | no report iff no row was collected; otherwise the report is a sorted permutation of the collected rows |
| Lexical.LessIsLexicographic | Info_Usuarios/list.py:96 | the string comparison is the lexicographic order: a proper prefix first, else the first differing code point decides |
| Lexical.LessTransitive | Info_Usuarios/list.py:96 | the string order is transitive |
| Lexical.LessTrichotomous | Info_Usuarios/list.py:96 | any two distinct strings are ordered exactly one way |
| Lexical.StatusOrder | Info_Usuarios/list.py:49 | the status texts compare as "Active" < "Inactive" < "None" |
| ReportBuilder.Insert | Info_Usuarios/list.py:96 | inserting into a sorted sequence keeps it sorted and adds exactly the one row |
| ReportBuilder.SortRows | Info_Usuarios/list.py:96 | the result is sorted ascending by (label, key status) and is a permutation of the input |
| ReportBuilder.BuildReport | Info_Usuarios/list.py:93-96 | no report iff there are no rows; otherwise a sorted permutation with the same number of rows |
| ReportBuilder.SortedPermutationsAgree | Info_Usuarios/list.py:96 | any two sorted arrangements of the same rows agree on (label, key status) at every position |
| ReportBuilder.AccountsContiguous | Info_Usuarios/list.py:96 | in the report the rows of one account are contiguous |
| ReportBuilder.StatusOrderWithinAccount | Info_Usuarios/list.py:95-96 | within one account, no "Active" row follows an "Inactive" or "None" row, and no "Inactive" row follows a "None" row |
| SortedKeys.SortedPermutationsAgreeOnKeys | Info_Usuarios/list.py:96 | under a total preorder whose ties share a key, sorted permutations have the same key sequence |

## Behaviour the code pins down

- One `try` covers the whole account (list.py:13, 66-67). Any failed lookup ends that
  account's scan. The rows appended before it stay in the collection.
- The sort is `sort_values` on two columns (list.py:96). The order of tied rows is left
  open. The model proves that the result is sorted and is a permutation of the collected
  rows. It also proves that the (label, status) sequence is fully determined.
- The placeholder for an absent value is the literal "None" (list.py:31, 56, 62-63, 70).
- Plain string comparison orders the statuses "Active" < "Inactive" < "None". Keyless
  rows therefore come last within an account.

## Left out

- boto3 sessions, the `sts`/`iam` clients and the paginator. They are replaced by
  already-fetched `AccountSnapshot` values, one per profile (`Orchestrator.World`).
  A session that cannot be built fails before any row, like a failed account-id lookup,
  and is modelled as that failure.
- The pandas DataFrame, the CSV writer, the UTF-8-with-BOM encoding and the dated filename
  built from `datetime.now()`. These are I/O and library calls. The column order is
  modelled by `ReportRow.Header` and `ReportRow.Cells`.
- The `print` progress and error messages, and the concrete exception types. Only the
  effect of the `except` is modelled: the failing account yields no more rows.
- Stability of the pandas sort, which the code does not promise.
- Calendar.FormatDate: always pads the year to four digits. Python's `%Y` does not pad
  years below 1000 on some platforms. Such years do not occur in IAM timestamps.
- Time of day and time zone of the AWS timestamps: only the calendar date is rendered,
  so only the date is modelled.
- The service and region placeholders apply only when the usage response omits those
  fields. What the real service returns for a never-used key is outside this model.
- Reading the profile list (`available_profiles`). It is a parameter of
  `Orchestrator.Run`.

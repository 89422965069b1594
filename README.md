# Business calculator: a verified model

The system is a small web application for auction buyers and traders. A PHP
API offers three calculators:

- budget to bid (`calculate-bid`): the largest hammer price a target total allows;
- bid to total (`calculate-total`): what a bid costs once buyer's premium, fees, a cash handling fee and VAT are added;
- cost to selling price (`calculate-profit`).

The API keeps two MySQL tables: `users` (one row per verified phone number)
and `calculation_history` (saved calculations, filed under the owner's phone
by value). A token-protected admin API lists, edits and deletes both. A React
front end calls it through `api.js`, keeps a seven-day session and the admin
token in `localStorage`, and has pages for the history and the admin
dashboard.

This Dafny project models that core:

| module | file | models |
|---|---|---|
| `Formulas` | formulas.dfy | the three calculators, over exact `real`s |
| `AdminAuth` | adminauth.dfy | `require_admin_auth` (header precedence, `Bearer ` stripping, query fallback, token comparison) and admin login |
| `Tables` | tables.dfy | the rows, and one pure function per endpoint stating its effect on the two tables |
| `Endpoints` | store.dfy | class `Database` holding the two tables and their id counters, one method per endpoint, each proved against its `Tables` function; the transactions of admin-user-update and admin-user-delete are modelled statement by statement with an injectable failure |
| `ApiClient` | apiclient.dfy | `url`, `adminUrl`, `encodeURIComponent` and how PHP reads the query back; class `BrowserStorage` for the session and admin-token entries |
| `HistoryView` | historyview.dfy | the summary line and the field-visibility and formatting rules of the history page |
| `UserModalForm` | usermodal.dfy | the welcome dialog: phone sanitiser, submit checks, class `UserModal` |
| `AdminDashboardPage` | admindashboard.dfy | search filter, total-calculations figure, class `Dashboard` |
| `AdminUserDetailPage` | adminuserdetail.dfy | the edit form's checks and redirect, the local history list, class `UserDetailPage` |
| `Text`, `Json`, `Sequences`, `Http`, `Wrappers` | | PHP and JavaScript string built-ins, JSON values and truthiness, generic sequence lemmas, the error envelope, `Option`/`Result` |

Modelling choices:

- The SHA-256 token hash is a function-valued field of `AdminAuth.Config`. Only the lemmas about the login token accepted by the gate (`AdminAuth.LoginTokenIsAccepted`, `AdminAuth.OtherTokensAreRefused`, `ApiClient.AdminRequestsPassTheGate`) assume anything about it: that the digest is a non-empty lower-case hexadecimal string other than "0", as `hash('sha256', …)` returns.
- The clock (`NOW()`, `Date.now()`) is a parameter.
- The outcome of an asynchronous API call in a React handler is a parameter. It is either `Ok` or the message of the error thrown.
- The persistence layer can fail inside the two transactions. A `fault` parameter names the statement that throws.

Some facts the proofs bring out:

- Budget to bid and bid to total are inverse to each other only without a cash fee. With a cash fee at c%, the re-priced total is the target times (1 − (c/100)²). The budget side takes the fee on the target total, the total side on the pre-VAT subtotal (`Formulas.CashRoundTripShortfall`).
- `str_replace('Bearer ', '', …)` is a single left-to-right pass. `"BeBearer arer "` comes out as `"Bearer "` (`AdminAuth.StripBearerIsSinglePass`).
- PHP treats the string `"0"` as false. A header token `"0"` therefore falls back to the `admin_token` query parameter (`AdminAuth.ZeroHeaderFallsBackToQuery`).
- The dialog trims names with JavaScript's `trim` and the server with PHP's `trim`, and the two strip different characters. A name made of a NUL character passes the dialog but is refused by verify-user (`UserModalForm.NulNameIsRefusedByServer`).
- The dashboard's total equals the number of history entries filed under some user's phone, whether the driver returns counts as numbers or as strings. Entries under phones with no user are counted nowhere (`AdminDashboardPage.TotalMatchesServer`).

## Model

| member | source | states |
|---|---|---|
| Formulas.CalculateBid | api/calculate-bid.php:25-59 | VAT factor ≤ 0 gives "Invalid VAT" before the premium factor is checked, then "Invalid buyer's premium"; otherwise subtotal + VAT equals the target exactly, bid × premium factor + fees + cash fee equals the subtotal, and the cash fee is target × c% / VAT factor only when paying in cash at a positive rate |
| Formulas.CalculateTotal | api/calculate-total.php:25-42 | never fails; premium = bid × p%, subtotal = bid + premium + fees, cash fee = subtotal × c% only when paying in cash at a positive rate, VAT on subtotal + cash fee, total = subtotal + cash fee + VAT |
| Formulas.TotalIsMonotone | api/calculate-total.php:33-42 | with non-negative inputs, total ≥ subtotal ≥ bid |
| Formulas.BidThenTotalRoundTrip | api/calculate-bid.php:40-59 | re-pricing the estimated bid with the same rates and fees and no cash fee gives back exactly the target total |
| Formulas.CashRoundTripShortfall | api/calculate-bid.php:43-47 | with a cash fee at c% on both sides the re-priced total is target × (1 − (c/100)²) |
| Formulas.CalculateProfit | api/calculate-profit.php:25-37 | total cost = price + expenses, profit = cost × p%, selling price − cost = profit, and the percentage is echoed |
| Formulas.ProfitMargin | api/calculate-profit.php:29-31 | a zero margin sells at cost; a positive margin on a positive cost sells above it |
| AdminAuth.EnvOr | api/admin-auth.php:13-14 | a configured admin name or password is used as it is; a missing one falls back to "admin" / "admin123" |
| AdminAuth.HeaderCredential | api/admin-auth.php:19-22 | the first present of Authorization, the redirected Authorization and X-Admin-Token, else "" |
| AdminAuth.StripBearer | api/admin-auth.php:23 | removing "Bearer " never lengthens the credential |
| AdminAuth.StripBearerPrefix | api/admin-auth.php:23 | a leading "Bearer " is removed |
| AdminAuth.StripBearerNoOccurrence | api/admin-auth.php:23 | a credential without "Bearer " is left as it is |
| AdminAuth.StripBearerAfterText | api/admin-auth.php:23 | an occurrence after other text is deleted as well: text at which no occurrence starts is kept as it is, and what follows the occurrence is stripped in turn |
| AdminAuth.StripBearerIsSinglePass | api/admin-auth.php:23 | the removal is one pass: an occurrence formed by the removal survives |
| AdminAuth.RequireAdminAuth | api/admin-auth.php:9-35 | accepted iff the presented token equals H(user:pass:secret), else 401 "Unauthorized" |
| AdminAuth.QueryIgnoredWhenHeaderTokenSet | api/admin-auth.php:26-28 | a truthy header token makes the query parameter irrelevant |
| AdminAuth.ZeroHeaderFallsBackToQuery | api/admin-auth.php:26-28 | the header token "0" is falsy, so the query token is used |
| AdminAuth.Login | api/admin-login.php:25-46 | succeeds iff the trimmed username and the untrimmed password match the configured ones, and then returns the expected token; otherwise 401 |
| AdminAuth.LoginTrimsOnlyTheUsername | api/admin-login.php:25-26 | surrounding blanks in the username are ignored; a blank before the password makes login fail |
| AdminAuth.DefaultCredentials | api/admin-login.php:31-32 | with no environment, admin / admin123 logs in |
| AdminAuth.LoginTokenIsAccepted | api/admin-login.php:41 | the token login issues passes the gate as "Bearer " header, as the client's X-Admin-Token request, or as query parameter |
| AdminAuth.OtherTokensAreRefused | api/admin-auth.php:30-34 | any other truthy hex token is refused, whether sent by the client or as a Bearer header |
| Tables.ParseFeature | api/history-save.php:30-35 | exactly the three feature names are accepted, each to its own feature |
| Tables.Upsert | api/verify-user.php:42-54 | a known phone keeps the number of users; an unknown phone appends one user with both timestamps now |
| Tables.VerifyUser | api/verify-user.php:27-40 | fails iff the trimmed name is empty (checked first) or the trimmed phone is not 11 ASCII digits |
| Tables.VerifyUserRecordsTheUser | api/verify-user.php:42-59 | afterwards exactly one user has the phone, under the new name and verified now; an existing user keeps id and creation time; other users are untouched; phones stay unique |
| Tables.SavedBlob | api/history-save.php:37-45 | a non-array input or output is stored as an empty array |
| Tables.HistorySave | api/history-save.php:25-52 | fails iff the trimmed phone is empty or the feature is unknown; success appends exactly one entry, keeps the others, and the new entry carries the trimmed phone, the parsed feature, both blobs as `Tables.SavedBlob` normalises them, the clock reading and the fresh id |
| Tables.HistoryQuery | api/history-list.php:25 | the query's rows are newest first and a permutation of the phone's entries |
| Tables.HistoryListing | api/history-list.php:16-39 | fails iff the trimmed phone is not 11 digits |
| Tables.QueryMembers | api/history-list.php:25 | an entry is listed iff it is filed under that phone |
| Tables.HistoryListIsTheUsersHistory | api/history-list.php:25-38 | the list is newest first, as long as the phone's history, each row is an entry of that phone, every entry of that phone is listed, and no blob is returned as null |
| Tables.SaveThenList | api/history-save.php:47-52 | after a save with array blobs, the phone's listing holds the new entry with its id, feature, blobs and time |
| Tables.FindUser | api/admin-user-detail.php:31-34 | finds a user with the phone iff there is one |
| Tables.UserDetailOf | api/admin-user-detail.php:18-59 | empty phone 400, unknown phone 404, else that user |
| Tables.DetailMatchesListing | api/admin-user-detail.php:42-55 | the detail's history is the same list history-list returns for that phone |
| Tables.Summaries | api/admin-users.php:23-30 | each user's count is the number of entries filed under its phone (0 without history) |
| Tables.UserList | api/admin-users.php:18-34 | one row per user, newest first, a permutation of the per-user summaries |
| Tables.UserListCounts | api/admin-users.php:25-27 | every user appears with its count and every row is a user's |
| Tables.UserListCountsAddUp | api/admin-users.php:26-27 | with unique phones the counts add up to the entries filed under some user's phone, at most the whole history |
| Tables.HistoryDelete | api/history-delete.php:24-42 | fails iff the trimmed phone is not 11 digits; never adds entries |
| Tables.HistoryDeleteScope | api/history-delete.php:35-42 | removes that phone's entry with the id, or all its entries when no positive id is given; other phones' histories are unchanged; deleting again changes nothing |
| Tables.UpdateUser | api/admin-user-update.php:29-80 | empty phone 400, unknown user 404, new phone held by another user 409, and no other error; the effect of success is stated by `Tables.UpdateUserRenames` and `Tables.UpdateUserMovesHistory` |
| Tables.UpdateUserRenames | api/admin-user-update.php:54-60 | without a phone change the user with that phone takes the trimmed name when one is given; every other user, every phone, every id and the whole history stay as they were |
| Tables.UpdateFound | api/admin-user-update.php:51-80 | the transaction can only fail with 409 |
| Tables.RenameKeepsPhones | api/admin-user-update.php:54-57 | a rename changes no phone |
| Tables.UpdateUserKeepsRows | api/admin-user-update.php:51-80 | phones stay unique; no row is added or removed; ids and creation times stay |
| Tables.RephoneKeepsUnique | api/admin-user-update.php:60-73 | moving a user to a phone nobody has keeps phones unique |
| Tables.UpdateUserMovesHistory | api/admin-user-update.php:72-77 | after a phone change the user is found only under the new phone, nothing stays filed under the old one, and other phones' histories are unchanged; every user with another phone is unchanged |
| Tables.DeleteUser | api/admin-user-delete.php:19-56 | fails iff the trimmed phone is empty |
| Tables.DeleteUserCascades | api/admin-user-delete.php:37-49 | no user and no entry with that phone remains, other users and phones are unchanged, and deleting again changes nothing |
| Tables.HistoryUpdate | api/admin-history-update.php:19-62 | id ≤ 0 gives 400, neither blob sent gives "Nothing to update" |
| Tables.HistoryUpdateScope | api/admin-history-update.php:42-60 | only the entry with the id changes, only in the blobs sent; its owner, type and time stay; an unknown id changes nothing |
| Tables.HistoryDeleteById | api/admin-history-delete.php:19-41 | fails iff the id ≤ 0 |
| Tables.HistoryDeleteByIdScope | api/admin-history-delete.php:38-41 | exactly the entry with the id goes, whatever its phone; deleting again changes nothing |
| Endpoints.Database.VerifyUser | api/verify-user.php:27-59 | the users table becomes what `Tables.VerifyUser` gives, the answer is the trimmed phone, history is unchanged, and the id counter moves only on an insert |
| Endpoints.Database.HistorySave | api/history-save.php:25-52 | the history becomes what `Tables.HistorySave` gives; the returned id is the next fresh id and is the id of the row just appended |
| Endpoints.Database.HistoryList | api/history-list.php:16-39 | the decoding loop returns exactly `Tables.HistoryListing`, changing nothing |
| Endpoints.Database.HistoryDelete | api/history-delete.php:24-42 | the history becomes what `Tables.HistoryDelete` gives, or stays on error |
| Endpoints.Database.AdminUserUpdate | api/admin-user-update.php:19-87 | unauthorised gives 401; any error leaves both tables as they were (rollback); success is exactly `Tables.UpdateUser`; without a fault the outcome is `Tables.UpdateUser`'s; a 500 happens only when a statement fails |
| Endpoints.Database.UpdateTransaction | api/admin-user-update.php:51-87 | the statements of the transaction, all or nothing, against `Tables.UpdateFound` |
| Endpoints.Database.AdminUserDelete | api/admin-user-delete.php:19-56 | unauthorised gives 401; all or nothing; success is exactly `Tables.DeleteUser` |
| Endpoints.Database.AdminHistoryUpdate | api/admin-history-update.php:19-62 | unauthorised gives 401; else the history becomes `Tables.HistoryUpdate`'s, users unchanged |
| Endpoints.Database.AdminHistoryDelete | api/admin-history-delete.php:19-41 | unauthorised gives 401; else the history becomes `Tables.HistoryDeleteById`'s |
| Endpoints.Database.AdminUsers | api/admin-users.php:18-34 | unauthorised gives 401; else exactly `Tables.UserList`, read-only |
| Endpoints.Database.AdminUserDetail | api/admin-user-detail.php:18-59 | unauthorised gives 401; else exactly `Tables.UserDetailOf`, read-only |
| ApiClient.StripTrailingSlash | frontend/src/api.js:7 | at most one trailing slash is removed |
| ApiClient.UrlJoinsWithOneSlash | frontend/src/api.js:6-10 | base and path are joined by exactly one slash |
| ApiClient.UrlStripsOnlyOneSlash | frontend/src/api.js:7 | a base ending in "//" keeps one slash |
| ApiClient.EncodeURIComponent | frontend/src/api.js:38 | the encoding uses only URI-safe characters and leaves unreserved text as it is |
| ApiClient.DecodeEncoded | frontend/src/api.js:38 | PHP's decoding gives back any ASCII text the browser encoded |
| ApiClient.AppendParamShape | frontend/src/api.js:76-77 | the token is appended with '&' iff the URL already has a '?', else with '?' |
| ApiClient.AppendParamCarries | frontend/src/api.js:73-78 | the appended value reaches `$_GET[key]` intact, whatever query the URL had |
| ApiClient.AppendParamKeepsOthers | frontend/src/api.js:73-78 | every other query parameter is unchanged |
| ApiClient.AdminUrlCarriesToken | frontend/src/api.js:73-78 | the stored token reaches `$_GET['admin_token']` |
| ApiClient.AdminUrlKeepsOtherParams | frontend/src/api.js:73-78 | the path's own parameters reach the endpoint unchanged |
| ApiClient.DetailUrlCarries | frontend/src/api.js:111-112 | admin-user-detail receives both the phone and the token |
| ApiClient.HistoryListUrlCarriesPhone | frontend/src/api.js:38 | history-list receives the phone as typed |
| ApiClient.AdminRequestsPassTheGate | frontend/src/api.js:80-105 | a request built with the token login issued passes `require_admin_auth` |
| ApiClient.ThrownMessage | frontend/src/api.js:18-19 | a failed request throws the server's error text, or "Request failed" when there is none |
| ApiClient.SessionWindow | frontend/src/api.js:59-64 | a stored time t makes the session valid at `now` iff now − t is less than seven days |
| ApiClient.BrowserStorage.SetUserSession | frontend/src/api.js:54-57 | the phone is stored, the session is valid from now for exactly seven days, the admin token is untouched |
| ApiClient.BrowserStorage.ClearSession | frontend/src/api.js:66-69 | no phone and no valid session remain; the admin token is untouched |
| ApiClient.BrowserStorage.SetAdminToken | frontend/src/api.js:127-129 | logged in as admin iff the token is non-empty; the user session is untouched |
| ApiClient.BrowserStorage.ClearAdminToken | frontend/src/api.js:131-137 | no longer logged in as admin; the user session is untouched |
| HistoryView.SummaryLine | frontend/src/pages/History.jsx:23-41 | each feature's two amounts with their fallbacks, '—' when either is missing or the feature is unknown; no amount shown is null |
| HistoryView.NoResultNoSummary | frontend/src/pages/History.jsx:23-41 | an entry saved without a result object is summarised as '—' |
| HistoryView.ShowInputField | frontend/src/pages/History.jsx:43-49 | hidden when null, a zero extra fee, a falsy cash flag, or a cash percentage without a truthy cash flag or at zero |
| HistoryView.ShowOutputField | frontend/src/pages/History.jsx:51-56 | hidden when null or a zero cash or extra fee; everything else shown |
| HistoryView.Entries | frontend/src/pages/History.jsx:180 | `Object.entries` of the blob, or of `{}` when it is falsy: an object's fields, a list's elements or a string's characters under their indices, and nothing for null, booleans and numbers |
| HistoryView.IndexEntries | frontend/src/pages/History.jsx:180 | a list's entries: one per element, each under the decimal form of its index, and no other key |
| HistoryView.VisibleInputs | frontend/src/pages/History.jsx:180-187 | the listed inputs are exactly the entries of the blob that pass `shouldShowInputField`, with their values; a cash percentage is listed only beside the cash flag |
| HistoryView.VisibleOutputs | frontend/src/pages/History.jsx:193-200 | the listed results are exactly the entries of the blob that pass `shouldShowOutputField`; any non-null entry other than the two fees is listed |
| HistoryView.ListBlobShowsItsElements | frontend/src/pages/History.jsx:180-200 | a blob saved as a list is listed element by element: every non-null element appears under its index among the inputs and the results |
| HistoryView.JsString | frontend/src/pages/History.jsx:61 | a string is written as it is, a plain object as "[object Object]"; only numbers and arrays are left uninterpreted |
| HistoryView.FormatInputValue | frontend/src/pages/History.jsx:58-62 | the cash flag reads Yes/No, an integer as it is, another number as money, a string as itself |
| HistoryView.ListedCashFlagReadsYes | frontend/src/pages/History.jsx:43-62 | a listed cash flag always reads "Yes" |
| UserModalForm.SanitizePhone | frontend/src/components/UserModal.jsx:11-15 | only digits, at most 11, a prefix of the digits typed, all of them when there are at most 11 |
| UserModalForm.SubmitCheck | frontend/src/components/UserModal.jsx:17-30 | a blank name is reported first, then a phone whose length is not 11; otherwise the trimmed name and the phone are sent |
| UserModalForm.SubmittedPhonePassesServer | frontend/src/components/UserModal.jsx:24-30 | a phone the dialog sends always passes verify-user's 11-digit check, so the server's answer depends on the name only |
| UserModalForm.NulNameIsRefusedByServer | frontend/src/components/UserModal.jsx:20-23 | a NUL name passes the dialog's check but verify-user answers "Full name is required" |
| UserModalForm.UserModal.PhoneChanged | frontend/src/components/UserModal.jsx:11-15 | the field holds the sanitised value and the error line is cleared |
| UserModalForm.UserModal.Submit | frontend/src/components/UserModal.jsx:17-38 | nothing is sent unless both checks pass, and then exactly the checked request; on success storage gets the phone and the timestamp `now` and nothing else changes, so a session for the phone starts now; a failure shows the server's message or the fallback |
| AdminDashboardPage.Filtered | frontend/src/pages/AdminDashboard.jsx:63-66 | an order-preserving subsequence holding exactly the users whose lower-cased name, or whose phone, contains the lower-cased search; an empty search shows everyone |
| AdminDashboardPage.SearchByPhoneFindsUser | frontend/src/pages/AdminDashboard.jsx:63-66 | a user's phone typed in full finds that user |
| AdminDashboardPage.CountNumber | frontend/src/pages/AdminDashboard.jsx:97 | a falsy count is 0, a number is itself, a decimal string is its value |
| AdminDashboardPage.TotalCalculations | frontend/src/pages/AdminDashboard.jsx:97 | the figure is NaN iff some row's count is NaN |
| AdminDashboardPage.TotalMatchesServer | frontend/src/pages/AdminDashboard.jsx:97 | for admin-users' rows the figure is the number of entries filed under some user's phone, never more than the history holds |
| AdminDashboardPage.WithoutUser | frontend/src/pages/AdminDashboard.jsx:52 | no row with that phone remains, and the others stay in order |
| AdminDashboardPage.Dashboard.LoadUsers | frontend/src/pages/AdminDashboard.jsx:30-46 | the list is replaced by the reply; an "Unauthorized" error drops the admin token, keeps every other stored item (the user session survives) and goes to login; another error shows its message |
| AdminDashboardPage.Dashboard.DeleteUser | frontend/src/pages/AdminDashboard.jsx:48-56 | nothing happens without confirmation; a success removes that phone's rows; a failure shows its message |
| AdminUserDetailPage.SanitizeEditPhone | frontend/src/pages/AdminUserDetail.jsx:206 | only digits, at most 15, a prefix of the digits typed |
| AdminUserDetailPage.SaveCheck | frontend/src/pages/AdminUserDetail.jsx:69-75 | an empty name is reported first, then an empty phone; otherwise the route phone, the trimmed name and the trimmed phone are sent |
| AdminUserDetailPage.AfterSave | frontend/src/pages/AdminUserDetail.jsx:77-81 | goes to the new phone's page iff it differs from the current one, else reloads |
| AdminUserDetailPage.MovedUserPages | frontend/src/pages/AdminUserDetail.jsx:77-79 | after a phone change the new phone's page shows the edited user (same id and creation time, the new name when given) and the old one answers 404 |
| AdminUserDetailPage.SamePhonePage | frontend/src/pages/AdminUserDetail.jsx:80-81 | without a phone change the reloaded page shows the same user row, carrying the new name when one was given |
| AdminUserDetailPage.SaveLandsOnTheUser | frontend/src/pages/AdminUserDetail.jsx:69-87 | whichever page the save goes to loads, and shows the edited user's row (id and creation time) under the name the server stored; after a phone change the old page answers 404 |
| AdminUserDetailPage.WithoutEntry | frontend/src/pages/AdminUserDetail.jsx:103 | exactly the entries with that id are removed, and a newest-first list stays newest first |
| AdminUserDetailPage.WithoutEntryKeepsOrder | frontend/src/pages/AdminUserDetail.jsx:103 | the rows that stay keep their order, and the list shrinks by exactly the number of rows with that id |
| AdminUserDetailPage.UserDetailPage.Load | frontend/src/pages/AdminUserDetail.jsx:48-67 | the user and history are taken from the reply; an "Unauthorized" error drops the admin token, keeps every other stored item (the user session survives) and goes to login |
| AdminUserDetailPage.UserDetailPage.StartEditing | frontend/src/pages/AdminUserDetail.jsx:191 | switches to editing and changes nothing else |
| AdminUserDetailPage.UserDetailPage.PhoneChanged | frontend/src/pages/AdminUserDetail.jsx:206 | the phone field holds the sanitised value |
| AdminUserDetailPage.UserDetailPage.SaveUser | frontend/src/pages/AdminUserDetail.jsx:69-87 | nothing is sent unless both checks pass, and then exactly the checked request; a success leaves editing and chooses the next view by `AfterSave`; a failure keeps the form open with the server's message |
| AdminUserDetailPage.UserDetailPage.DeleteHistory | frontend/src/pages/AdminUserDetail.jsx:99-107 | nothing happens without confirmation; a success removes the entries with that id |
| AdminUserDetailPage.UserDetailPage.Cancel | frontend/src/pages/AdminUserDetail.jsx:212 | leaves editing and restores the fields to the loaded user's name and phone |
| Text.PhpTrim | api/verify-user.php:27-28 | PHP's default trim: the result is the input with a run of trim characters cut from each end and nothing else changed, it starts and ends with a kept character, and it is empty iff every character is a trim character |
| Text.JsTrim | frontend/src/components/UserModal.jsx:20 | JavaScript's trim: the result is the input with a run of white space cut from each end and nothing else changed, it starts and ends with a non-space, and it is blank iff every character is white space |
| Text.TrimmedPhoneCheck | api/verify-user.php:36 | after trimming, `preg_match('/^[0-9]{11}$/')` holds iff the phone is exactly 11 ASCII digits |
| Text.KeepDigits | frontend/src/components/UserModal.jsx:12 | the first `limit` digits of the input |
| Text.ToLower | frontend/src/pages/AdminDashboard.jsx:64-65 | lower-cases character by character, keeping the length |

## Left out

- Rounding: every endpoint applies `round($x, 2)` to its outputs. The formulas use exact `real`s and the properties hold before rounding, so PHP float arithmetic is not modelled.
- The selling-multiple variant of the profit calculator, with its `extra_fee` and "total selling price", is not implemented by api/calculate-profit.php, which uses a percentage margin. The model follows the code.
- The frontends' own guards on the calculator pages (BudgetToBid.jsx, BidToTotal.jsx, Profit.jsx) are not part of this model.
- `hash('sha256', …)` is a parameter of the configuration. The gate lemmas assume only that its result is non-empty lower-case hexadecimal and not "0"; the digest itself is not computed.
- `NOW()` and `Date.now()` are parameters.
- Request plumbing is not modelled: the method check (405), reading and decoding the request body, and writing the response. The calculators receive each amount as an optional number (`Formulas.Amount`), so PHP's `(float)` cast of a numeric string or a boolean in the body is not modelled. Neither is the CORS bootstrap, the database connection and its configuration, or check-db.
- Failures of the database are modelled only inside the two transactions. Every other endpoint makes at most one write, after its reads, so a failure leaves both tables as they were; its 500 is not modelled.
- Concurrent requests are not modelled; each request is one sequential step.
- Tables.SavedBlob: a blob is stored as the decoded value that was sent. The `json_decode(…, true)` / `json_encode` round trip in PHP writes an empty object `{}` back as `[]` and an object whose keys are 0, 1, … as a list; that re-encoding is not modelled. Only the admin JSON editor, also left out, would show the difference.
- HistoryView.Entries: a string blob is split into Unicode characters, where JavaScript splits it into UTF-16 code units; the two differ only for characters outside the Basic Multilingual Plane.
- Tables.HistoryQuery and Tables.UserList: MySQL leaves the order of rows with equal `created_at` unspecified. The model sorts by a fixed insertion order, and its contracts state only the order by time and the permutation.
- AdminDashboardPage.CountNumber: `Number()` of an array or object, and of a string that is not plain decimal digits (a sign, a decimal point, an exponent), is taken as NaN. The counts admin-users sends are plain digits.
- HistoryView.JsString: `String()` of a number or an array is left as an uninterpreted `Stringified` value, because its text depends on JavaScript's number printing. An object is always written "[object Object]".
- Text.ToLower: only ASCII letters are lower-cased.
- `formatMoney` (`Intl.NumberFormat`) and `formatDate` (`toLocaleDateString`) are browser library calls. The model keeps the amount a money field would show.
- React rendering, routing, `loading` flags of the pages, and object key order in `Object.entries` are not modelled.
- The admin detail page's JSON editor for history entries (`startEditHistory`, `handleSaveHistory`) and its `handleDeleteUser` are not modelled; the endpoints they call are.
- The history page's own handlers (`load`, `handleDeleteOne`, `handleClearAll`) are not modelled; the endpoints they call are.
- The admin login page and the other pages (Welcome, App, Layout, theme) are not part of this model.

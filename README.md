# Arava Distillery factory control — verified model of the core

This project models three parts of the factory-control application in Dafny and proves properties of them:

- **The browser-side account layer** (`auth.js`). The application keeps three localStorage keys: `factory_users`, `factory_session` and `factory_access_requests`. The layer reads and writes them as it does the following:
  - seeds and migrates the two owner accounts;
  - logs users in by email or username;
  - expires sessions after twelve hours;
  - answers permission questions from the role table;
  - runs the access-request workflow (submit, approve, deny);
  - creates, updates and deletes users.
- **The spreadsheet relay** (`google-apps-script.js`). `doPost` receives sync batches and invitation actions and writes them into sheets:
  - `append` adds rows under the last row;
  - any other action rewrites the whole sheet;
  - `send_invite` and `accept_invite` maintain the `Invitations` sheet.

  `doGet` reports a sheet's row count, looks up one invitation by token and lists all invitations.
- **The bottle inventory endpoint** (`backend/api/inventory.ts`). It sums approved bottling records per drink type into an object that starts with every known drink type at zero, adds a grand total, and gates the request on the HTTP method and the caller's token.

Files and modules:

| file | module | what it holds |
|---|---|---|
| `jsarray.dfy` | `JsArray` | `Array.prototype.find` / `findIndex` and `filter`, with their laws |
| `jsstring.dfy` | `JsString` | `toLowerCase` on ASCII letters, `trim`, `split('@')[0]`, the `[^a-zA-Z0-9]` strip and `parseInt(s, 10)` |
| `permissions.dfy` | `Permissions` | the role/capability table |
| `auth.dfy` | `Auth` | records, constants and the specification functions of the account layer, with its lemmas |
| `auth_store.dfy` | `AuthStore` | class `LocalStore`: the three storage keys as fields; each operation is a method proved against `Auth` |
| `relay.dfy` | `Relay` | sheets as rows of text cells; the cell transforms of both sync modes; the invitation rows |
| `relay_workbook.dfy` | `RelayWorkbook` | class `Workbook`: the spreadsheet's sheets, the `lastSync_` properties and the sent mail as fields; `doPost` and `doGet` as methods |
| `inventory.dfy` | `Inventory` | the aggregation loops and the handler's gating |

### Modelling choices

- **Storage keys.** A localStorage key is `Missing`, `Corrupt` (unparseable or not an array) or `Holds(items)`.
- **Absent fields.** An absent or empty optional text field is `""`, which is falsy as in JavaScript. A `loginTime` of 0 is falsy. The invitation token is the exception: `doPost` and `doGet` take it as an `Option`, because an absent token is `undefined` and equals no cell, while `""` would equal an empty one.
- **Outside values are parameters.**
  - clock readings (`Date.now()`, ISO timestamps) and generated ids;
  - whether mail delivery succeeded;
  - whether the bearer token verified;
  - whether the CORS helper answered;
  - the Firestore snapshot.
- **Sheets are compact.** A sheet never ends in a row with no content, because `getLastRow` and `getDataRange` cannot see such rows. `Relay.DataRegion` drops trailing blank rows after each write.
- **Two-way connection between methods and specifications.** Every method's postcondition ties its result and new state to a specification function. The lemmas then state what the application promises about those functions.

## Model

| member | source | states |
|---|---|---|
| `JsArray.FindIndex` | auth.js:84 | `find`/`findIndex`: the index found satisfies the predicate and no earlier element does; none is found iff no element satisfies it |
| `JsArray.Filter` | auth.js:167 | `filter` keeps only satisfying elements, is never longer, and keeps all of them iff every element satisfies the predicate |
| `JsArray.FilterMembers` | auth.js:258 | every kept element comes from the input and every satisfying input element is kept |
| `JsArray.FilterConcat` | auth.js:167 | filtering a concatenation is the concatenation of the filtered parts |
| `JsArray.FilterKeepsAll` | auth.js:258-259 | a filter that rejects nothing returns its input unchanged |
| `JsArray.FilterIdempotent` | auth.js:173-174 | filtering twice with the same predicate is filtering once |
| `JsArray.FilterCongruent` | auth.js:167 | predicates that agree on the elements filter identically |
| `JsArray.FilterKeepsPairwise` | auth.js:167 | a filtered list keeps any pairwise-distinctness its input had |
| `JsString.Lower` | auth.js:101-102 | lower-casing keeps the length, turns each upper-case ASCII letter into its lower-case partner (code point plus 32) and changes nothing else |
| `JsString.LowerIdempotent` | auth.js:129 | lower-casing is idempotent |
| `JsString.LowerKeepsLower` | auth.js:141 | text without capitals is its own lower-case form |
| `JsString.LeadingSpaces` | auth.js:141 | the run `trim` drops at the front: all white space, followed by a non-space |
| `JsString.TrailingSpaces` | auth.js:141 | the run `trim` drops at the back: all white space, preceded by a non-space |
| `JsString.TrimShape` | auth.js:140-141 | `trim` returns a contiguous slice whose dropped ends are white space and whose own ends are not |
| `JsString.TrimIdempotent` | auth.js:141 | trimming twice is trimming once |
| `JsString.LocalPart` | auth.js:155 | `split('@')[0]` is the longest prefix without `@` |
| `JsString.AlnumOnly` | auth.js:155 | the `[^a-zA-Z0-9]` strip keeps only ASCII letters and digits of the input, and every one of them |
| `JsString.AlnumOnlyLaws` | auth.js:155 | the strip distributes over concatenation, keeps a single character iff it is an ASCII letter or digit, and maps "" to ""; so the kept characters stay in order with their multiplicity |
| `JsString.DigitChar` | backend/api/inventory.ts:44 | the digit written for a value below ten reads back as that value |
| `JsString.LeadingDigits` | backend/api/inventory.ts:44 | the digit run `parseInt` reads: all digits, then a non-digit or the end |
| `JsString.ParseInt10` | backend/api/inventory.ts:44 | `parseInt(s, 10)` is NaN exactly when no digit follows the white space and the optional sign |
| `JsString.Digits` | backend/api/inventory.ts:44 | a natural number's decimal form is a non-empty run of digits |
| `JsString.DigitsValueOfDigits` | backend/api/inventory.ts:44 | reading back a decimal form gives the number |
| `JsString.LeadingDigitsOfRun` | backend/api/inventory.ts:44 | `parseInt` stops at the first non-digit after a run of digits |
| `JsString.ParseIntOfDecimal` | backend/api/inventory.ts:44 | `parseInt` of white space, a decimal integer and a non-digit tail is that integer (round trip) |
| `JsString.ParseIntOfDecimalAlone` | backend/api/inventory.ts:44 | the same round trip without leading white space |
| `JsString.SpacesThenNonSpace` | backend/api/inventory.ts:44 | white space in front of a non-space is exactly what is skipped |
| `Permissions.RoleNamed` | auth.js:28-68 | exactly the three names `admin`, `manager` and `worker` are roles |
| `Permissions.Allows` | auth.js:225-229 | a permission is granted only for a known role name and a known capability name, and for those it is the role's entry in the table |
| `Permissions.RolesNested` | auth.js:28-68 | whatever a worker may do a manager may, and whatever a manager may do an admin may |
| `Permissions.AdminAndManagerRows` | auth.js:29-54 | an admin has every capability; a manager has all but `canApproveBottling` |
| `Permissions.WorkerRow` | auth.js:55-67 | a worker lacks exactly edit, delete, export, user management, bottling approval and back office |
| `Permissions.UnknownNamesGrantNothing` | auth.js:228 | an unknown role or capability name grants nothing |
| `Auth.HasUsernameAppend` | auth.js:85-86 | after a push, a username is present iff it was present before or is the pushed user's |
| `Auth.WithSeedsAppendsMissing` | auth.js:84-89 | the migration loop appends exactly the seeds whose username is missing, in seed order |
| `Auth.WithSeedsStep` | auth.js:84-89 | one iteration of the migration loop keeps that characterisation |
| `Auth.KnownSeedSkipped` | auth.js:85-86 | a seed some user already has is not pushed |
| `Auth.MissingSeedPushed` | auth.js:85-87 | a seed no user has is pushed first, and the later seeds are then missing as before |
| `Auth.SeedAddedKeepsOthers` | auth.js:84-89 | pushing one seed does not change which later seeds are missing |
| `Auth.SeedsAlwaysLoaded` | auth.js:6-25 | after loading, both `guymaich` and `yonatangarini` are present, whatever was stored |
| `Auth.SeedPresent` | auth.js:77-89 | every seed username is present after loading a missing, corrupt or stored list |
| `Auth.KeptUserFound` | auth.js:82-89 | a username present before the migration is present after it |
| `Auth.AddedUserFound` | auth.js:85-87 | a pushed seed's username is present after the migration |
| `Auth.MigrationAppendsMissing` | auth.js:82-89 | a stored list keeps its users and order and gains only the missing seeds, at the end |
| `Auth.MigrationIdempotent` | auth.js:82-90 | loading what was loaded changes nothing |
| `Auth.Authenticated` | auth.js:95-113 | a session is issued iff some user is not inactive, has this password and matches the identifier by email or username in any letter case. It is the first such user, without password, stamped with the login time |
| `Auth.IdentifierCaseInsensitive` | auth.js:101-102 | logging in with a lower-cased identifier gives the same result |
| `Auth.SameMatchSameFind` | auth.js:97 | `find` with predicates that agree element by element finds the same index |
| `Auth.ReadSessionCases` | auth.js:182-204 | a stored session is returned unchanged iff it is readable, unexpired and has a username and a role; in every other case null is returned and no session is left (a stored falsy JSON value counts as no session, see Left out) |
| `Auth.SessionValidForTwelveHours` | auth.js:180-195 | a fresh session for a user with a username and a role is valid up to twelve hours after login |
| `Auth.SessionExpiresAfterTwelveHours` | auth.js:191-195 | a session older than twelve hours is refused and its key removed |
| `Auth.SubmitError` | auth.js:125-137 | corrected check: fill-all iff name or email empty; already-pending iff a request has the trimmed, lower-cased email; email-exists iff a user has it; otherwise accepted |
| `Auth.SubmitErrorAsWritten` | auth.js:126-136 | the cascade as written, with the untrimmed lower-cased email: fill-all iff name or email empty; already-pending iff a request has that email; email-exists iff a user has it; accepted iff neither matches |
| `Auth.AsWrittenAgreesUnpadded` | auth.js:126-141 | for an email typed without surrounding white space the as-written and the corrected cascades give the same answer, so the correction only changes padded input |
| `Auth.PendingSearch` | auth.js:129 | the pending search (with the stored form of the email) finds a request iff one is pending for it |
| `Auth.TakenSearch` | auth.js:134 | the existing-user search finds a user iff one with a non-empty email has it |
| `Auth.ResubmitIsPending` | auth.js:128-131 | after a request is accepted, the same email is refused as already pending |
| `Auth.SubmitKeepsEmailsDistinct` | auth.js:125-147 | an accepted request keeps the pending requests' emails pairwise distinct |
| `Auth.RemovalKeepsEmailsDistinct` | auth.js:167-174 | approving or denying keeps the pending emails distinct |
| `Auth.AsWrittenAdmitsDuplicate` | auth.js:128-141 | as written, an email with a leading space passes the pending check although its stored form is already pending |
| `Auth.PaddedEmailNormalizes` | auth.js:141 | a space-padded lower-case email is stored without the padding |
| `Auth.WithoutRequest` | auth.js:167-174 | the filter drops every request with the id and keeps every other |
| `Auth.DenyIdempotent` | auth.js:172-177 | denying twice is denying once |
| `Auth.CreateKeepsUsernamesUnique` | auth.js:266-281 | creating a user keeps usernames unique regardless of letter case |
| `Auth.NewcomerLogsIn` | auth.js:97-111 | a pushed user whom the credentials fit can log in; when no earlier user accepts them, the session is the pushed user's |
| `Auth.ApprovedApplicantCanLogIn` | auth.js:150-170 | the user created on approval can log in with the applicant's email or the username derived from it and the chosen password (or `Welcome1`). When no earlier user accepts those credentials, the session has the derived username, the approval role (`worker` by default), the applicant's name and email, status `active`, and the login time |
| `Auth.WithoutUser` | auth.js:256-264 | deletion drops exactly the users with that username, and shortens the list iff one exists |
| `Auth.DeleteIdempotent` | auth.js:256-258 | deleting twice is deleting once |
| `Auth.EmptyPatchOnlyStamps` | auth.js:249 | an update with no fields only stamps `updatedAt` |
| `Auth.WithSeedsExtends` | auth.js:82-89 | the migration only appends: the stored users stay in front |
| `Auth.WithSeedsAddsMissing` | auth.js:83-87 | a seed whose username neither a user nor an earlier seed has is pushed |
| `Auth.AsWrittenDeletedUserReturns` | auth.js:77-89 | as written (see Findings): a user created while the key is missing is pushed into `DEFAULT_USERS` as well, so after deleting it the next load brings it back and it can log in |
| `Auth.DeletedUserStaysDeleted` | auth.js:256-264 | with the seeds kept as the two owner accounts, a deleted user who is not one of them is absent from every later load |
| `Auth.PlainLocalPartIsUsername` | auth.js:155 | an applicant whose email's local part is letters and digits gets that local part as username |
| `AuthStore.LocalStore.constructor` | auth.js:117 | the three storage keys as given |
| `AuthStore.LocalStore.GetUsers` | auth.js:70-92 | returns the loaded list and writes it back (the write is a no-op when no seed was missing) |
| `AuthStore.LocalStore.Authenticate` | auth.js:95-113 | result is `Authenticated` of the loaded users; the session key is set on success and untouched on failure |
| `AuthStore.LocalStore.PendingRequests` | auth.js:119-123 | the stored requests, or none when the key is missing or corrupt |
| `AuthStore.LocalStore.SubmitAccessRequest` | auth.js:125-148 | with the corrected comparison (see Findings): on error the requests are unchanged and the error is `SubmitError`'s; otherwise the trimmed, lower-cased request is appended. Users are loaded only past the pending check |
| `AuthStore.LocalStore.SubmitCheck` | auth.js:126-136 | the refusal is `SubmitError`'s; the users are loaded, and so migrated, only once the pending check passes |
| `AuthStore.LocalStore.CreateUser` | auth.js:266-281 | refused with `signUpError_userExists` iff the username is taken in any case; otherwise the stamped, active-by-default user is appended |
| `AuthStore.LocalStore.ApproveRequest` | auth.js:150-170 | an unknown id changes nothing; otherwise the applicant's user is created; only on success are the requests with that id removed |
| `AuthStore.LocalStore.DenyRequest` | auth.js:172-177 | succeeds and removes every request with the id |
| `AuthStore.LocalStore.GetSession` | auth.js:182-204 | the result and the new key are `ReadSession` of the old key and the clock |
| `AuthStore.LocalStore.Logout` | auth.js:206-207 | the session key is removed |
| `AuthStore.LocalStore.HasPermission` | auth.js:225-229 | false without a valid session, else the table entry for its role; the session key is updated as `getSession` does |
| `AuthStore.LocalStore.UpdateUser` | auth.js:245-254 | the first user with exactly that username is patched and stamped; otherwise `User not found` |
| `AuthStore.LocalStore.DeleteUserByUsername` | auth.js:256-264 | succeeds and removes the users iff one has that username; otherwise `User not found` |
| `Relay.SetCell` | google-apps-script.js:100-101 | writing one cell sets it, pads the row when needed and changes no other cell |
| `Relay.DataRegion` | google-apps-script.js:139-140 | the region `getDataRange` sees: a compact prefix of the sheet whose dropped rows are all blank, the sheet itself when already compact |
| `Relay.RegionAfterAppend` | google-apps-script.js:140-149 | rows written below a compact sheet keep it as a prefix and end the sheet when the last has content |
| `Relay.AppendCellCases` | google-apps-script.js:143-146 | an `append` cell is blank iff the field is missing, false or empty text; true is the check mark; else the value's text |
| `Relay.ReplaceAgreesWithAppend` | google-apps-script.js:213-226 | outside `signature`, `decision` and `alcohol`, both modes write the same cell |
| `Relay.SignatureRedacted` | google-apps-script.js:215 | a signature never reaches the sheet; it becomes `[signed]` |
| `Relay.DecisionLabels` | google-apps-script.js:217-221 | a decision becomes one of three labels: approved iff `approved`, not approved iff `notApproved` |
| `Relay.AppendRowCells` | google-apps-script.js:142-147 | column `i` of a row is the cell of key `i` |
| `Relay.AppendRowsInOrder` | google-apps-script.js:141 | row `i` is record `i` |
| `Relay.ReplaceRowCells` | google-apps-script.js:212-227 | column `i` of a replace row is the replace cell of key `i` |
| `Relay.ReplaceRowsInOrder` | google-apps-script.js:211 | replace row `i` is record `i` |
| `Relay.AppendRowsConcat` | google-apps-script.js:141 | rows of two batches are the rows of each, in order |
| `Relay.AppendKeepsExistingRows` | google-apps-script.js:139-149 | `append` keeps every existing row in place and adds only the batch's rows, one per record when the last has content |
| `Relay.AppendIntoEmptySheet` | google-apps-script.js:126-149 | into an empty sheet the header comes first and the records follow |
| `Relay.ReplaceLayout` | google-apps-script.js:176-229 | replace: header in row 1, record `i` in row `i + 2`, nothing of the old sheet kept |
| `Relay.StatusRowCount` | google-apps-script.js:280 | `rowCount` is 0 iff the sheet has at most the header, else the rows below it |
| `Relay.InviteRow` | google-apps-script.js:66 | an invitation row has seven cells and is a pending invitation for its email |
| `Relay.TokenRow` | google-apps-script.js:98-99 | the first data row carrying the token; none iff no data row carries it |
| `Relay.Accepted` | google-apps-script.js:100-101 | acceptance sets status `accepted` and the username and keeps every other cell |
| `Relay.EntriesOf` | google-apps-script.js:328-337 | one invitation entry per row, in order |
| `Relay.InviteEntries` | google-apps-script.js:326-338 | `listInvites` lists one entry per data row, in sheet order |
| `Relay.SentInviteBlocksResend` | google-apps-script.js:57-64 | once the sheet has its header row, a sent invitation makes the same email in any letter case a duplicate |
| `Relay.SentInviteIsFound` | google-apps-script.js:292-307 | once the sheet has its header row, a new token's invitation is found by `getInvite` as pending with its email and role |
| `Relay.SentInviteIsListed` | google-apps-script.js:321-338 | once the sheet has its header row, `listInvites` lists the earlier entries and then the new pending one |
| `Relay.AsWrittenFirstInviteUnseen` | google-apps-script.js:44-66 | as written (see Findings): an invitation appended to an existing empty sheet sits in row 1, so the duplicate scan, `getInvite` and `listInvites` do not see it |
| `Relay.FirstInviteSeen` | google-apps-script.js:44-66 | with the header written into an empty sheet as well, the first invitation is a duplicate for a resend, is found pending under a new token and is listed last, whatever the sheet held |
| `Relay.AcceptThenFind` | google-apps-script.js:96-104 | after acceptance the token is on the same row and `getInvite` reports it accepted |
| `Relay.AcceptIdempotent` | google-apps-script.js:92-109 | accepting twice with the same username is accepting once |
| `Relay.AcceptTouchesOneRow` | google-apps-script.js:98-103 | acceptance changes only the token's row |
| `RelayWorkbook.StoreKeepsCompact` | google-apps-script.js:149 | storing a compact sheet keeps every sheet compact |
| `RelayWorkbook.FindPendingInvite` | google-apps-script.js:57-64 | the duplicate scan finds a row iff some data row holds a pending invitation for the email in any letter case |
| `RelayWorkbook.FindToken` | google-apps-script.js:97-99 | the token scan returns `TokenRow`: the first data row with the token, or none |
| `RelayWorkbook.Workbook.constructor` | google-apps-script.js:23-29 | an empty spreadsheet, no sync records and no mail |
| `RelayWorkbook.Workbook.SendInvite` | google-apps-script.js:40-89 | creates the sheet with its header if absent, and writes the header into an empty sheet (the corrected rule, see Findings). A pending invitation for the email in any case is a duplicate. Otherwise the row is appended, and the invite link is mailed when delivery works |
| `RelayWorkbook.Workbook.AcceptInvite` | google-apps-script.js:92-109 | the first row with the token is accepted; no other change, even when none matches. An absent token matches no row |
| `RelayWorkbook.Workbook.OpenSheet` | google-apps-script.js:112-116 | the named sheet, created empty when absent; every other sheet is unchanged |
| `RelayWorkbook.Workbook.Store` | google-apps-script.js:149 | a compact sheet written under a name replaces that sheet only and keeps every sheet compact |
| `RelayWorkbook.Workbook.Append` | google-apps-script.js:112-173 | creates the sheet. Without labels or records it answers `rows: 0` and changes nothing else. Otherwise the sheet becomes `AppendedSheet`. Without keys the header is written and the reply is the error, with no `lastSync`; with keys `lastSync` records the rows below the header and the reply carries both counts |
| `RelayWorkbook.Workbook.AppendBelow` | google-apps-script.js:124-149 | the sheet becomes `AppendedSheet`. Without keys the range of zero columns fails after the header is written: the reply is the error and `lastSync` is unchanged. Otherwise `lastSync` and the reply carry the rows below the header |
| `RelayWorkbook.Workbook.Replace` | google-apps-script.js:176-254 | the sheet becomes `ReplacedSheet` (cleared even when the batch is empty). Without keys only the header is written, because the write of the rows fails; the reply is the error and `lastSync` is unchanged. Otherwise `lastSync` and the reply count the records of a non-empty batch |
| `RelayWorkbook.Workbook.DoPost` | google-apps-script.js:23-262 | dispatch: `notify`, `send_invite`, `accept_invite` (an absent token changes nothing), `append`, and replace for any other action (the error reply when there are records but no keys) |
| `RelayWorkbook.Workbook.SyncStatusOf` | google-apps-script.js:267-289 | `exists`, `rowCount` (never negative) and the last sync record of a sheet |
| `RelayWorkbook.Workbook.GetInvite` | google-apps-script.js:292-318 | the invitation on the first row with the token, or not found; an absent token is never found |
| `RelayWorkbook.Workbook.ListInvites` | google-apps-script.js:321-348 | every data row's entry in order, none without the sheet |
| `RelayWorkbook.Workbook.DoGet` | google-apps-script.js:264-358 | dispatch: `syncStatus`, `getInvite` (an absent token is not found), `listInvites`, and health for anything else |
| `Inventory.Contributions` | backend/api/inventory.ts:41-47 | at most one entry per record, each with a drink type |
| `Inventory.KeyOrder` | backend/api/inventory.ts:38-45 | the object's keys start with the seven drink types |
| `Inventory.ContributionsStep` | backend/api/inventory.ts:43-44 | a record adds an entry iff it is approved and has a drink type |
| `Inventory.EntryStep` | backend/api/inventory.ts:45 | an entry adds its count under its type, appending the key when new, and adds it to the total |
| `Inventory.KeyedIffListed` | backend/api/inventory.ts:38-45 | a type is a key of the object iff it is in the key order |
| `Inventory.ListedAreKeyed` | backend/api/inventory.ts:38-45 | every key in the key order is a key of the object |
| `Inventory.KeyOrderDistinct` | backend/api/inventory.ts:38-45 | no key appears twice |
| `Inventory.UnseenIsZero` | backend/api/inventory.ts:45 | a type that is not a key has received nothing |
| `Inventory.BottlesMeaning` | backend/api/inventory.ts:38-47 | the keys are exactly the listed keys, and each holds the sum of its type's counts |
| `Inventory.AllDrinkTypesPresent` | backend/api/inventory.ts:38-39 | all seven drink types are always keys, holding their sums (zero without records) |
| `Inventory.NoRecordsAllZero` | backend/api/inventory.ts:38-49 | with no records every drink type is 0, nothing else is there, and the total is 0 |
| `Inventory.NonContributingIgnored` | backend/api/inventory.ts:43 | a record without a drink type or not approved changes nothing |
| `Inventory.NewTypeGetsOwnKey` | backend/api/inventory.ts:45 | an approved record of an unlisted type gets its own key, last, holding its count |
| `Inventory.UnparseableAddsNothing` | backend/api/inventory.ts:44 | a count that does not parse adds 0: the total stays and the type's key at most appears at 0 |
| `Inventory.CountOfDecimal` | backend/api/inventory.ts:44 | a count stored as a decimal number is counted exactly |
| `Inventory.SumOverAgree` | backend/api/inventory.ts:49 | the reduce depends only on the values of the listed keys |
| `Inventory.SumOverZero` | backend/api/inventory.ts:39-49 | the reduce over zeros is zero |
| `Inventory.SumOverBump` | backend/api/inventory.ts:45-49 | raising one key's value raises the reduce by as much |
| `Inventory.TotalIsSumOfBottles` | backend/api/inventory.ts:49 | `total`, the sum of the object's values, equals the sum of all contributing counts |
| `Inventory.SumStep` | backend/api/inventory.ts:45-49 | one more entry raises the reduce over the keys by its count |
| `Inventory.Aggregate` | backend/api/inventory.ts:38-49 | the loops build exactly `KeyOrder`, `Bottles` and the total of the contributions |
| `Inventory.ZeroedDrinkTypes` | backend/api/inventory.ts:38-39 | the seven drink types, in order, each at 0: the object for no records |
| `Inventory.AddRecord` | backend/api/inventory.ts:41-46 | the `forEach` callback moves the object one record along the specification |
| `Inventory.AddEntry` | backend/api/inventory.ts:45 | adding a count under its type (a missing key reads as 0, a new key goes last) moves the keys and the object one entry along the specification |
| `Inventory.SumValues` | backend/api/inventory.ts:49 | the reduce over the values, in key order |
| `Inventory.Handler` | backend/api/inventory.ts:22-59 | no response of its own (None) iff the CORS helper answered the request. A non-GET gets 405 before the token is looked at, and a bad token gets 401 before the collection is read. A failed read gets 500; otherwise the aggregate |

## Left out

- JavaScript `toLowerCase` outside ASCII: case folding is modelled on `A`–`Z` only.
- JSON parsing of storage and payloads: a storage key is `Missing`, `Corrupt` or `Holds(items)`. A stored `factory_access_requests` value that parses but is not an array, or whose entries lack an `email`, makes the source throw; that is not modelled.
- Prototype keys (`__proto__`, `constructor`) used as drink types, usernames or record fields.
- Permissions.Allows: a role or capability name that is a prototype key of the table (`hasPermission('constructor')`, or a session role `constructor`) is truthy in the source; the model answers false for every name outside the table.
- Inventory.Handler: the returned key order is the insertion order `KeyOrder`. A JavaScript object lists integer-like keys (a drink type such as `"7"`) first, in numeric order, so for such types the source's key order differs. The values under each key and the total are unaffected.
- Floating point:
  - the `alcohol` percentage (`parseFloat`, `toFixed`) is the parameter `percent` of `Relay.ReplaceCell`;
  - inventory counts are unbounded integers, not doubles.
- Spreadsheet presentation: colours, fonts, frozen rows, shading, auto-resize and the 220 px width cap. Also the mail's HTML body and subject, and the JSON wrapping of replies.
- Sheets' conversion of written values into dates or numbers: cells are text.
- `doPost`/`doGet` exceptions:
  - a payload without `labels`, `keys` or `records` arrays is treated as empty;
  - of the `catch` replies only the zero-column write is modelled, as the reply `Failed` of `append` and replace batches with records but no keys; other throws are not;
  - the health check's timestamp is not modelled.
- `api-client.js` (network plumbing) is not part of this model.
- `getUserDisplayName`, `getUserRole`, `secureRecordAction` and the screen changes in `logout`: they depend on UI globals.
- Concurrent tabs writing localStorage.
- Passwords are compared as stored plaintext, as in the source.
- The CORS helper, token verification and Firestore read in `backend/api/inventory.ts`: their results are the parameters `corsHandled`, `tokenValid` and `snapshot` of `Inventory.Handler`. The response's `updatedAt` is a parameter.
- RelayWorkbook.Workbook.DoPost: for `send_invite` and `append` its postcondition only names the reply kind and leaves the state to `SendInvite` and `Append`, whose postconditions state it in full.
- RelayWorkbook.Workbook.DoGet: for `syncStatus` its postcondition states only the sheet name; the rest is stated by `SyncStatusOf`.
- Inventory.KeyOrder: the postcondition states only that the seven drink types come first; what the remaining keys are is stated by `Inventory.BottlesMeaning`.
- Auth.ReadSession: a stored falsy JSON value (`null`, `0`, `false`, `""`) is `NoSession` in the model. The source returns null for it without removing the key (auth.js:190), so the text stays stored; the model does not record that.
- Auth.Authenticated: an email or username is compared after ASCII lower-casing only, as `JsString.Lower` models it. A stored user object without a `password` field is compared as `""`; in the source `undefined` equals no password, so such a user would not log in with an empty password.
- AuthStore.LocalStore.Authenticate: a stored user without a `password` field is modelled as having password `""`, as for `Auth.Authenticated`.
- RelayWorkbook.Workbook.SendInvite: an Invitations sheet that exists but is empty gets its header before the invitation, the corrected rule of `Relay.WithInviteHeader` (see Findings); the source appends the invitation into row 1.
- RelayWorkbook.Workbook.SendInvite: an absent `email` is taken as `""`; the source compares `String(email)`, which is `"undefined"`, and writes an empty cell. An absent token is written as `""`; the source writes an empty cell and puts the text `undefined` at the end of the link.
- RelayWorkbook.Workbook.DoPost: for `send_invite` an absent `email` or `token` is taken as `""`, as for `SendInvite`.
- RelayWorkbook.Workbook.DoGet: an absent `sheet` parameter is taken as `""`; the source reads the property `lastSync_undefined`.
- AuthStore.LocalStore.GetUsers: with the key missing or unreadable the source returns the `DEFAULT_USERS` array itself; the model returns a copy of the two owner accounts, so it does not capture that later pushes and assignments change the seeds (see Findings).
- AuthStore.LocalStore.CreateUser: when the key was missing or unreadable, the source's push also grows `DEFAULT_USERS`; the model does not, so a user created then and deleted later stays deleted here (see Findings).
- AuthStore.LocalStore.UpdateUser: when the key was missing or unreadable, the source's `users[idx] = …` also replaces the seed in `DEFAULT_USERS` (renaming `guymaich` means the account is never restored); the model keeps the seeds fixed.
- AuthStore.LocalStore.ApproveRequest: it creates the user as `createUser` does, so it shares that aliasing, which the model does not capture.

## Findings

| source | as written | input that shows it | evidently intended | confidence | as-written member | corrected member |
|---|---|---|---|---|---|---|
| auth.js:77-79 | with the key missing or unreadable, `getUsers` returns `DEFAULT_USERS` itself, so `createUser`'s push (auth.js:278) and `updateUser`'s assignment change the seeds every later migration restores | key missing; `createUser({username: "bob", …})`, then `deleteUserByUsername("bob")`: the next `getUsers` pushes bob back from `DEFAULT_USERS` and `authenticate("bob", …)` succeeds | the seeds stay the two owner accounts and a deleted user stays deleted. The effect lasts for the page's lifetime only: a reload rebuilds `DEFAULT_USERS`, after which bob stays deleted | not executed | `Auth.AsWrittenDeletedUserReturns` | `Auth.DeletedUserStaysDeleted` |
| google-apps-script.js:44-66 | `send_invite` writes the header only when it inserts the Invitations sheet itself; an existing empty sheet (left by an `append` naming `Invitations` without labels, lines 112-122) gets the first invitation in row 1, and the scans at lines 57, 98 and 299 and `listInvites` start at row 2 | `append` to `Invitations` with no labels, then `send_invite` for `ann@x.io`: a second `send_invite` for `ann@x.io` is not a duplicate, and `getInvite` of the first token finds nothing | write the header whenever the sheet is empty | not executed | `Relay.AsWrittenFirstInviteUnseen` | `Relay.FirstInviteSeen` |
| auth.js:128-141 | the pending and existing-email checks compare `email.toLowerCase()` of the untrimmed input, while the request is stored with `email.trim().toLowerCase()` | request for `ann@x.io` pending; submitting `" ann@x.io"` passes the check and stores a second pending request for `ann@x.io` | compare the email as it will be stored, so one pending request per email | not executed | `Auth.AsWrittenAdmitsDuplicate` | `Auth.SubmitKeepsEmailsDistinct` |

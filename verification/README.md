# User-Management-System core, modelled in Dafny

This project models the data core of a multi-tenant user-management front end. It is a pure, value-level model: every operation takes the current collections and returns new ones.

- **Entity store** (`entities.dfy`, `scoped.dfy`, `tenants.dfy`). There are six kinds of record: tenant, organization, user, role, privilege and legal entity. Every kind except tenant carries a tenant id, and every lookup names a (tenant, id) pair.
  - List, get, create and update are written once, generically, in `scoped.dfy`.
  - Deleting an organization is in `scoped.dfy` too.
  - Tenants use their own id-only lookups, in `tenants.dfy`.
  - Each kind has its own spread of a partial record, in `entities.dfy`.
- **Relationship toggles** (`links.dfy`): assigning and removing a role on a user, and linking and unlinking a privilege on a role.
- **Bulk operations** (`bulk.dfy`, using the text helpers in `text.dfy`):
  - the CSV user import, with the non-blank line filter, header row, per-row object, required-field and email checks, and the error report;
  - the CSV and tab-separated export;
  - the import template.
- **Audit trail** (`audit.dfy`): the filtered, newest-first query and the prepend that logs an action.
- **Authentication** (`auth.dfy`):
  - the five-action reducer and its invariant;
  - the fixed-credential login, both the provider's and the mock API's;
  - logout;
  - the session-restore decision taken at startup.

`outcomes.dfy` holds `Option`, which stands for a missing value or JavaScript `null`, and `Result`, which stands for a value or the message of a thrown `Error`.

Clock readings (`new Date().toISOString()`, `Date.now()`) and generated ids are passed in as parameters. Timestamps are ISO-8601 strings of one format, so the model compares them as strings (`Text.StrLe`, JavaScript's `<=` on strings). JSON encoding and decoding of the stored user are parameters `stringify` and `parse`.

Where the code departs from its own documentation, the model follows the code:
- an update's partial record may change a record's `tenantId`, `id` and `createdAt`, because the spread copies every property it is given;
- `removeRoleFromUser` and `unlinkPrivilegeFromRole` set `updatedAt` even when nothing was removed;
- the audit query ignores its `tenantId` argument, so the model's query has none.

## Model

| member | source | states |
|---|---|---|
| Scoped.Locate | src/services/mockApi.ts:414-417 | finds no position exactly when no record has the (tenant, id) pair; otherwise the position found matches, and no record before it does |
| Scoped.LocateFirst | src/services/mockApi.ts:427-430 | the first matching position is the one the search returns |
| Scoped.List | src/services/mockApi.ts:391-394 | a listing holds only records of the tenant, and holds every record of the tenant |
| Scoped.ListCount | src/services/mockApi.ts:435-438 | a listing is a sub-multiset of the store: each record of the tenant appears as often as it is stored, and no other record appears |
| Scoped.ListAppend | src/services/mockApi.ts:391-394 | listing distributes over concatenation, so records keep their store order |
| Scoped.Get | src/services/mockApi.ts:396-399 | finds nothing exactly when no record has both the id and the tenant; otherwise returns the first such record |
| Scoped.Create | src/services/mockApi.ts:401-412 | appends exactly one record with the caller's tenant, the given id and fields, and both timestamps equal to now; the existing records stay unchanged |
| Scoped.CreateThenGet | src/services/mockApi.ts:445-456 | a record created under an id new to its tenant is what a later get returns |
| Scoped.CreateListing | src/services/mockApi.ts:401-412 | the new record goes at the end of its own tenant's listing; every other tenant's listing is unchanged |
| Scoped.Update | src/services/mockApi.ts:414-425 | fails with the not-found message exactly when no record matches; otherwise only the first match changes. Patched properties take the patch's value, all others keep theirs, and `updatedAt` becomes now even when the patch supplies one |
| Scoped.UpdateIsolated | src/services/mockApi.ts:458-470 | an update that keeps the tenant leaves every other tenant's listing unchanged |
| Scoped.UpdateTwice | src/services/mockApi.ts:495-507 | applying the same key-preserving patch twice, with the same clock reading, gives the same store as applying it once |
| Scoped.DeleteOrganization | src/services/mockApi.ts:427-432 | fails with "Organization not found" exactly when nothing matches; otherwise removes exactly the first match and keeps the rest in order |
| Scoped.UpdateOrganization | src/services/mockApi.ts:414-425 | fails with "Organization not found" exactly when nothing matches; otherwise the first match is replaced by the stored organization with the partial one spread over its fields and envelope, `updatedAt` set to now, and the rest of the collection unchanged |
| Scoped.UpdateUser | src/services/mockApi.ts:458-470 | fails with "User not found" exactly when nothing matches; otherwise the first match is replaced by the stored user with the partial one spread over its fields and envelope, `updatedAt` set to now, and the rest of the collection unchanged |
| Scoped.UpdateRole | src/services/mockApi.ts:495-507 | fails with "Role not found" exactly when nothing matches; otherwise the first match is replaced by the stored role with the partial one spread over its fields and envelope, `updatedAt` set to now, and the rest of the collection unchanged |
| Scoped.UpdatePrivilege | src/services/mockApi.ts:532-544 | fails with "Privilege not found" exactly when nothing matches; otherwise the first match is replaced by the stored privilege with the partial one spread over its fields and envelope, `updatedAt` set to now, and the rest of the collection unchanged |
| Scoped.UpdateLegalEntity | src/services/mockApi.ts:569-581 | fails with "Legal entity not found" exactly when nothing matches; otherwise the first match is replaced by the stored legal entity with the partial one spread over its fields and envelope, `updatedAt` set to now, and the rest of the collection unchanged |
| Scoped.UpdateThenGet | src/services/mockApi.ts:396-425 | after an update whose patch keeps the record's id and tenant, getting that id returns the updated record |
| Scoped.DeleteListing | src/services/mockApi.ts:427-432 | a delete shortens its own tenant's listing by one and leaves every other tenant's listing unchanged |
| Scoped.ListRemoveOther | src/services/mockApi.ts:431 | splicing out a record of one tenant leaves another tenant's listing unchanged |
| Scoped.ListReplace | src/services/mockApi.ts:419-423 | replacing a record with one of the same tenant leaves another tenant's listing unchanged |
| Entities.ApplyUserPatch | src/services/mockApi.ts:458-470 | an empty partial user changes nothing |
| Entities.ApplyTenantPatch | src/services/mockApi.ts:377-388 | an empty partial tenant changes nothing |
| Entities.ApplyOrganizationPatch | src/services/mockApi.ts:419-423 | an empty partial organization changes nothing |
| Entities.ApplyRolePatch | src/services/mockApi.ts:500-504 | an empty partial role changes nothing |
| Entities.ApplyPrivilegePatch | src/services/mockApi.ts:537-541 | an empty partial privilege changes nothing |
| Entities.ApplyLegalEntityPatch | src/services/mockApi.ts:574-578 | an empty partial legal entity changes nothing |
| Entities.PatchesIdempotent | src/services/mockApi.ts:419-423 | for every entity kind, spreading the same partial record twice is the same as spreading it once |
| Tenants.Locate | src/services/mockApi.ts:377-380 | finds no position exactly when no tenant has the id; otherwise the position found is the first tenant with it |
| Tenants.GetTenant | src/services/mockApi.ts:360-363 | returns null exactly when no tenant has the id; otherwise returns the first tenant that has it |
| Tenants.CreateTenant | src/services/mockApi.ts:365-375 | appends one tenant with the given id, the fields, and both timestamps equal to now; the existing tenants stay unchanged |
| Tenants.CreateThenGetTenant | src/services/mockApi.ts:360-375 | a tenant created under an unused id is what a later get returns |
| Tenants.UpdateTenant | src/services/mockApi.ts:377-388 | fails with "Tenant not found" exactly when the id is unused; otherwise only the first tenant with the id changes, patched properties take the patch's value, and `updatedAt` becomes now |
| Links.AddId | src/services/mockApi.ts:588-591 | the id is present afterwards; the list is unchanged if the id was already there, otherwise the id is appended |
| Links.RemoveId | src/services/mockApi.ts:599 | the result holds exactly the ids of the list other than the removed one |
| Links.RemoveIdAppend | src/services/mockApi.ts:620 | removing distributes over concatenation, so the other ids keep their order |
| Links.RemoveIdIdempotent | src/services/mockApi.ts:620 | removing twice is removing once |
| Links.AddThenRemove | src/services/mockApi.ts:604-622 | assigning and then removing an id leaves the same list as removing it alone |
| Links.AssignRole | src/services/mockApi.ts:604-613 | fails with "User not found" exactly when the (tenant, user) pair is absent. Otherwise only the first matching user changes, the role is assigned afterwards, and a role already present changes nothing, `updatedAt` included |
| Links.RemoveRole | src/services/mockApi.ts:615-622 | fails with "User not found" exactly when the pair is absent; otherwise the role is gone from the first matching user, `updatedAt` becomes now, and no other user changes |
| Links.LinkPrivilege | src/services/mockApi.ts:583-592 | fails with "Role not found" exactly when the (tenant, role) pair is absent; otherwise the privilege is linked afterwards, and a privilege already linked changes nothing |
| Links.UnlinkPrivilege | src/services/mockApi.ts:594-601 | fails with "Role not found" exactly when the pair is absent; otherwise the privilege is gone from the first matching role, `updatedAt` becomes now, and no other role changes |
| Links.AssignRoleIdempotent | src/services/mockApi.ts:604-613 | assigning the same role twice gives the same store as assigning it once, whatever the second clock reading |
| Links.RemoveRoleIdempotent | src/services/mockApi.ts:615-622 | removing the same role a second time leaves every user's fields as the first removal left them |
| Links.LinkPrivilegeIdempotent | src/services/mockApi.ts:583-592 | linking the same privilege twice gives the same store as linking it once |
| Links.UnlinkPrivilegeIdempotent | src/services/mockApi.ts:594-601 | unlinking the same privilege a second time leaves every role's fields as the first unlink left them |
| Text.Trim | src/services/bulkOperations.ts:28-29 | the result is empty exactly when the input is all whitespace; otherwise it neither starts nor ends with whitespace |
| Text.TrimSlice | src/services/bulkOperations.ts:45 | the trimmed text is a slice of the input with only whitespace cut from either end |
| Text.SplitJoin | src/services/bulkOperations.ts:45 | joining pieces that hold no separator and splitting again gives the pieces back |
| Text.JoinSplit | src/services/bulkOperations.ts:28 | splitting on a character and joining with it gives the text back |
| Text.StrLeTotal | src/services/auditService.ts:70-75 | any two strings are comparable with `<=` |
| Text.StrLeTrans | src/services/auditService.ts:78 | string `<=` is transitive |
| Text.StrLeAntisymmetric | src/services/auditService.ts:78 | strings that are each `<=` the other are equal |
| Bulk.NonBlankMembers | src/services/bulkOperations.ts:28 | the line filter keeps exactly the lines that are not blank |
| Bulk.NonBlankAppend | src/services/bulkOperations.ts:28 | the line filter keeps the lines' order |
| Bulk.Cells | src/services/bulkOperations.ts:45 | a line has one cell per comma-separated piece, at least one, and cell k is piece k trimmed |
| Bulk.RowDataLookup | src/services/bulkOperations.ts:46-50 | every header names the cell of its last column, or "" past the end of the row |
| Bulk.IsEmailMatchesPattern | src/services/bulkOperations.ts:59-60 | the decision procedure accepts exactly the strings that match `^[^\s@]+@[^\s@]+\.[^\s@]+$`, stated as the existence of a split point |
| Bulk.Validate | src/services/bulkOperations.ts:53-62 | the verdict is a pass, the missing-fields message or the email message; a row missing any of the four required properties fails with the missing-fields message, whatever its email; a row that passes has an email matching the pattern |
| Bulk.ValidateVerdict | src/services/bulkOperations.ts:53-62 | a row fails with the missing-fields message exactly when one of the four required properties is empty; it fails with the email message exactly when all four are set and the email does not match the pattern; otherwise it passes |
| Bulk.CheckRows | src/services/bulkOperations.ts:44-73 | every row is counted once, as a success or as an error; error row numbers lie within the rows |
| Bulk.CheckRowsOrdered | src/services/bulkOperations.ts:44-73 | errors come in the order of their rows, so no row is reported twice |
| Bulk.CheckRowsSound | src/services/bulkOperations.ts:64-71 | each error names a failing row and carries that row's object and failure message |
| Bulk.CheckRowsComplete | src/services/bulkOperations.ts:65-71 | every failing row is named by an error |
| Bulk.LinesEmpty | src/services/bulkOperations.ts:28-33 | a file has no non-blank line exactly when every newline-separated piece is blank |
| Bulk.ImportUsers | src/services/bulkOperations.ts:24-77 | throws "Invalid CSV format: No headers found" exactly when the file has no non-blank line. Otherwise the number processed is the non-blank line count minus the header, successes plus errors equal it, and success holds exactly when there is no error |
| Bulk.ImportErrorRows | src/services/bulkOperations.ts:67-68 | error rows are 1-based positions among the non-blank lines, from 2 up to the line count, in increasing order |
| Bulk.ImportErrorsSound | src/services/bulkOperations.ts:45-71 | each error carries the row object read from the line it names and the message validation gives that object |
| Bulk.ImportErrorsComplete | src/services/bulkOperations.ts:44-73 | every data line whose row object fails validation is reported |
| Bulk.CsvLinesRead | src/services/bulkOperations.ts:28-45 | a file built from tidy cells reads back as its lines, and each line reads back as its cells |
| Bulk.ImportClean | src/services/bulkOperations.ts:24-77 | a file of tidy rows that all pass validation imports with every row counted and no error |
| Bulk.TemplateImports | src/services/bulkOperations.ts:116-120 | the template's header reads back as its six column names, and importing the template counts its one sample row as a success |
| Bulk.FieldText | src/services/bulkOperations.ts:89-94 | a name that is not a user property renders as the empty string, the role list is joined with `;`, and a missing organization or last login renders as the empty string |
| Bulk.ExportUsers | src/services/bulkOperations.ts:79-114 | with headers the export starts with the header line and its newline, without headers it starts with the first user's line, and with no users it is the header line and newline or the empty text |
| Bulk.ExportLines | src/services/bulkOperations.ts:79-114 | for at least one user, split at newlines the export is the header line, when one is asked for, followed by one line per user |
| Bulk.ExportLinesEmpty | src/services/bulkOperations.ts:87-98 | with no users, split at newlines the export is the header line followed by an empty line, or a single empty line without headers |
| Bulk.ExportRowCells | src/services/bulkOperations.ts:88-110 | an exported line splits at the format's separator into one cell per selected field, provided no value holds the separator |
| Bulk.QuoteEmail | src/services/bulkOperations.ts:94 | quoting keeps an address matching the email pattern |
| Bulk.ImportAfterExport | src/services/bulkOperations.ts:24-98 | importing a CSV export made with headers and the default fields counts every user and reports no error, provided no value holds a comma or newline and every email is well formed |
| Audit.SelectCount | src/services/auditService.ts:53-75 | a filter keeps every copy of an accepted entry and drops every rejected one |
| Audit.SelectThen | src/services/auditService.ts:52-76 | filtering twice in a row is filtering once by both conditions |
| Audit.NarrowIsSelect | src/services/auditService.ts:52-76 | running the first n filter steps, each on what the one before left, keeps in log order exactly the entries that pass every one of those steps in force |
| Audit.ApplyFiltersIsSelect | src/services/auditService.ts:52-76 | the six filter steps together keep, in log order, exactly the entries that satisfy every filter in force: equal user id, action and resource type; the lower-cased term inside the lower-cased user name, resource name or action; timestamp at or after `dateFrom`; timestamp at or before `dateTo` |
| Audit.Insert | src/services/auditService.ts:78 | inserting adds exactly the one entry |
| Audit.InsertDescending | src/services/auditService.ts:78 | inserting into a newest-first list keeps it newest first |
| Audit.SortByTime | src/services/auditService.ts:78 | the sorted log is a permutation of its input, ordered newest first |
| Audit.SortStable | src/services/auditService.ts:78 | entries with the same timestamp keep their relative order |
| Audit.GetAuditLogs | src/services/auditService.ts:48-79 | the result is newest first and holds each passing entry as often as the log does, and no other entry |
| Audit.UnfilteredQuery | src/services/auditService.ts:50-52 | with no filters, or only empty ones, the result is a permutation of the whole log |
| Audit.LogAction | src/services/auditService.ts:81-89 | exactly one entry is put in front: it carries the caller's fields, the id `audit-` followed by the clock reading, and the given timestamp. The rest of the log is unchanged and in order |
| Audit.QueryAfterLog | src/services/auditService.ts:48-89 | after logging, a query returns what it returned before, plus the new entry when that entry passes the filters |
| Audit.LoggedEntryFirst | src/services/auditService.ts:78-88 | an entry logged no earlier than every other entry, and passing the filters, heads the next query |
| Auth.Initial | src/contexts/AuthContext.tsx:28-33 | the initial state is signed out, loading, and satisfies the invariant |
| Auth.Reduce | src/contexts/AuthContext.tsx:35-74 | LOGIN_START sets loading and keeps user, token and sign-in; every other action ends loading. Failure and logout clear the user and token. Success signs in with the payload's user and token, and restore signs in with the payload's user, which may be null, and token. An admissible action keeps the invariant that being signed in means holding both a user and a token |
| Auth.SuccessIsRestore | src/contexts/AuthContext.tsx:39-70 | LOGIN_SUCCESS and RESTORE_SESSION with the same user and token give the same state |
| Auth.FailureIsLogout | src/contexts/AuthContext.tsx:47-62 | LOGIN_FAILURE and LOGOUT give the same cleared state, whatever the state before |
| Auth.ClearIdempotent | src/contexts/AuthContext.tsx:47-62 | failing twice, or logging out twice, is doing it once |
| Auth.RunConsistent | src/contexts/AuthContext.tsx:35-74 | every run of admissible actions keeps the invariant |
| Auth.RunLoading | src/contexts/AuthContext.tsx:39-70 | a run whose last action is not LOGIN_START ends without loading |
| Auth.ApiLogin | src/services/mockApi.ts:335-352 | succeeds exactly for `admin@system.com` with `admin123`, returning the fixed admin user and the token `mock-jwt-token-` followed by the clock reading; otherwise fails with "Invalid credentials" |
| Auth.Login | src/contexts/AuthContext.tsx:105-138 | returns true exactly for the admin credentials. On success the admin is signed in and storage holds the token and the encoded user; on failure the state is cleared and storage is untouched. Either way loading has ended and the invariant holds |
| Auth.LoginsAgree | src/contexts/AuthContext.tsx:113-128 | the provider's login and the API's login accept the same credentials and hand out the same user and token |
| Auth.SignOut | src/contexts/AuthContext.tsx:140-144 | logout empties both storage entries and leaves the state signed out, not loading |
| Auth.DecideRestore | src/contexts/AuthContext.tsx:86-103 | restores a session exactly when a token and a user text are both stored and the text parses, and dispatches whatever the text parsed to, leaving storage alone. Otherwise it dispatches LOGIN_FAILURE: both entries are removed when the text did not parse, and storage is left alone when either entry is missing or empty |
| Auth.NullUserBreaksInvariant | src/contexts/AuthContext.tsx:91-94 | a stored user text of `null` yields a state that is signed in without a user |
| Auth.DecideRestoreChecked | src/contexts/AuthContext.tsx:86-103 | the corrected decision restores only a parsed, non-null user, so the action it dispatches is always admissible |
| Auth.CheckedDiffersOnlyOnNull | src/contexts/AuthContext.tsx:91-94 | the corrected decision agrees with the original everywhere except on a stored `null` user |
| Auth.StartupAsWritten | src/contexts/AuthContext.tsx:84-103 | startup as written: it ends signed in exactly when a token and a user text are stored and the text parses, holding whatever the text parsed to, null included, and the stored token; otherwise it ends signed out with nothing held. It never ends loading |
| Auth.NullUserStartup | src/contexts/AuthContext.tsx:91-94 | with token `t` and user text `null`, startup as written signs in without a user, breaking the invariant, while the corrected startup stays signed out |
| Auth.StartupsAgree | src/contexts/AuthContext.tsx:84-103 | the two startups give the same state and storage on every input except a stored `null` user |
| Auth.Startup | src/contexts/AuthContext.tsx:84-103 | the corrected startup (see ## Findings): it ends signed in exactly when a non-null user is restored, with that user and the stored token, and always ends not loading and satisfying the invariant |
| Auth.LoginThenStartup | src/contexts/AuthContext.tsx:123-128 | after a successful login, starting afresh from storage restores the same state, given that decoding inverts encoding |
| Auth.LogoutThenStartup | src/contexts/AuthContext.tsx:140-144 | after logout, starting afresh comes up signed out |

## Left out

- Delays, `async`, and the promises around every service call are left out; each operation is a synchronous function.
- Clock readings, `Date.now()` ids, browser storage and JSON are all parameters.
- `getTenants`: it returns a copy of the tenant array, which in a value model is the array itself, so it has no member.
- The seed data of the mock collections is not modelled; every operation takes the collection as an argument.
- `Blob`, `File.text()`, the MIME types of the export, and `URL.createObjectURL` are left out. The import takes the file's text, and the export returns its text.
- `trim`, `\s` and `toLowerCase` cover ASCII only; Unicode whitespace and case mapping are left out. Strings compare code point by code point, where JavaScript compares UTF-16 code units; the two orders can differ only for text with characters above U+FFFF.
- The audit sort parses timestamps with `new Date(...)`, including the `NaN` an unparseable string gives. The model compares timestamps as strings, which agrees only for ISO-8601 timestamps of one format. Equal times keep log order, since `Array.prototype.sort` is stable.
- The export's `user[field]` for a field name that is not a user property, or that names an inherited object property, gives "" in the model.
- Partial records: a property is either absent from the patch or carries a value. An explicit `undefined` in a `Partial<T>`, which the spread copies over the stored value, is not modelled.
- A stored user text that parses to a JSON value other than `null` or a user object is not modelled; `parse` answers only "no parse", `null`, or a user.
- Auth.Login: a failing storage write is not modelled. When `localStorage.setItem` throws (a full or disabled storage), the source dispatches LOGIN_FAILURE and returns false; the model always stores and succeeds for the admin credentials.
- Bulk.GenerateUserTemplate: it is defined as the comma-joined header and sample cells, each line ending in a newline, rather than as the literal text. The model does not prove that this join equals the two literal lines character by character.
- Bulk.ImportAfterExport: it states the counts of the re-import, not that the values come back equal. The import keeps the double quotes that the CSV export puts around every value.

## Findings

| source | as written | input that shows it | evidently intended | confidence | as-written member | corrected member |
|---|---|---|---|---|---|---|
| src/contexts/AuthContext.tsx:91-94 | whenever a token and a user text are stored and the text parses, RESTORE_SESSION is dispatched with whatever it parsed to, and the reducer then sets `isAuthenticated: true` | stored token `t` and stored user text `null`: `JSON.parse` returns `null`, so the state is signed in with `user: null` | a session is restored only for a parsed user object; anything else is treated like text that does not parse | not executed | Auth.NullUserBreaksInvariant | Auth.DecideRestoreChecked |

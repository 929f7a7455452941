# forgolang_forum core, modelled in Dafny

forgolang_forum is a forum REST backend written in Go. Most of it is HTTP controllers that glue SQL, Redis and other services together. This project models its deterministic layers, one Dafny module per Go source file:

- **Change-set builder** (`Change`, database/change.go). `GetChanges` compares a stored record with a requested one, field by field. It returns the changes, the changed column names and the named SQL parameters. It also copies the requested values into the stored record, which is an `array` updated in place.
- **SQL text and handle state** (`Database`, database/database.go).
  - The insert and update statement text.
  - The transaction state machine of a `Database` handle (open transaction, pending error, query type), as a class.
  - The `Force` panics; the `query`/`queryRow`/`Delete` result rules; `dbError`.
- **Migrations** (`Migrations`, also database/database.go). Loading and ordering the migration files, and which files `newMigrations` applies and records.
- **Constraint errors** (`Validator`, database/validator.go). A PostgreSQL integrity violation (SQLSTATE class 23, Appendix A of the PostgreSQL manual) becomes field messages, driven by `unique`/`foreign` tags.
- **Authorization**:
  - the permission gate with its positive-only cache (`Authorization`, api/authorization.go);
  - the route policies (`Policies`, api/*_policy.go);
  - the role-permission generator (`RolePermissions`, tasks/generate_role_permissions.go);
  - the cache key table (`AppKeys`, cmn/app.go).
- **Request rules**:
  - pagination (`Pagination`, model/pagination.go; `Api`, api/api.go);
  - the bearer-token gate, following section 2.1 of RFC 6750 (`JwtAuth`, api/jwtauth.go). Expiry follows the `exp` claim of section 4.1.4 of RFC 7519.
- **Utilities** (`Util`, utils/util.go):
  - membership search;
  - `strconv`-style 64-bit parse and format;
  - `strings.Split`/`strings.Join`;
  - `iterate`, `startNewRow`, `ToSnakeCase`;
  - the padded Base64 of section 4 of RFC 4648 behind `Passkey`.
- **JSONB codec** (`Jsonb`, database/jsonb.go).
- **Fixtures** (`Fixtures`): the tag layout of some `database/model` records, used by the example lemmas.

How the model represents things:

- Strings are `seq<char>`; JSONB bytes are a `byte` newtype.
- Go's `int64` is an unbounded `int`, with explicit range predicates. It wraps with `Wrap64` where the source overflows.
- A Go struct is a sequence of field descriptions (name, `db`/`unique`/`foreign` tags) next to a sequence of values.
- Everything the core gets from outside is a parameter (an oracle): the database driver's answers, Redis reads, the clock, JWT signature verification, random UUIDs.

## Model

| member | source | states |
|---|---|---|
| Change.FindField | database/change.go:64 | `FieldByName`: the first field with the name, or none exactly when no field has it |
| Change.FieldStep | database/change.go:69-181 | one field's handling keeps the field's Go kind; a change carries the field's name and `db` tag; a parameter goes under that tag, or under "" only when there is no change |
| Change.Filter | database/change.go:45-49 | the clean-up keeps exactly the parameters whose key is non-empty and whose value is not the string "" |
| Change.GetFieldChanges | database/change.go:54-183 | with the corrected guard (a requested-side `db:"-"` tag is skipped too), for a considered field: appends the step's change and its column, puts its parameter, stores its new value at index i; for any other field nothing changes |
| Change.GetChanges | database/change.go:21-52 | the three outputs and the updated record are those of the field-by-field run under the corrected guard; with no mode argument all are empty and the record is untouched |
| Change.FilterParams | database/change.go:45-49 | the deletion loop leaves exactly the filtered map |
| Change.KeysFollowChanges | database/change.go:38-43 | keys and changes grow together: the i-th key is the i-th change's column |
| Change.ParamsUnderKeys | database/change.go:84-98 | every parameter is written under a changed column or under the empty key |
| Change.NamedParamsAreChangedColumns | database/change.go:45-51 | after `GetChanges` every named parameter is a changed column, never "" and never holding ""; keys and changes correspond one to one |
| Change.RunValues | database/change.go:38-43 | after the run each field holds its step's value if considered, else its old value |
| Change.StepSettles | database/change.go:72-181 | repeating a step on its own result (not insert) changes nothing and reports a change only for always-reporting kinds |
| Change.StepOnSelf | database/change.go:99-181 | comparing a value with itself keeps it and reports a change exactly for bool, `zero.Bool` and `NullDecimal` |
| Change.QuietRun | database/change.go:38-43 | a run in which no step changes a value leaves the record as it was and reports one change per always-reporting considered field |
| Change.CompareWithSelf | database/change.go:21-52 | `GetChanges` of a record against an identical copy changes no value and reports exactly its considered bool and decimal fields, so such updates are never empty |
| Change.FirstRunCompatible | database/change.go:38-43 | the run keeps every field's type |
| Change.SecondRunSettles | database/change.go:38-181 | a second update run on the result copies nothing more and reports only the always-reporting fields |
| Change.InsertCopiesValidLate | database/change.go:84-98 | on insert a changed `zero.Int` keeps its old Valid flag; only the else-branch of a later run copies the whole wrapper, under the empty key |
| Change.IgnoredFieldSilent | database/change.go:40 | a field that is `DBInterface`, `ID`, missing on the requested side or untagged adds no change, key or parameter and keeps its value |
| Change.PlainFieldChangesIffDiffers | database/change.go:117-172 | string, int64, int and `time.Time` fields report one change iff stored and requested differ, with the requested value (rendered with `String()` for times), and take it |
| Change.NullableFieldRules | database/change.go:72-98 | `zero.String` changes only to a different non-empty string; `zero.Int` only to a different non-zero value, keeping Valid; on insert an unchanged `zero.Int` writes under "" |
| Change.DashColumnAsWritten | database/change.go:64 | as written, a field tagged `db:"-"` whose values differ yields "-" as a column |
| Change.KeysAreColumns | database/change.go:64 | with the corrected guard, every reported column is a real `db` tag of the struct, neither "" nor "-" |
| Database.Placeholders | database/database.go:654-658 | one `:column` placeholder per column, in order |
| Database.Assignments | database/database.go:678-680 | one `column = :column` assignment per column, in order |
| Database.RenderList | database/database.go:650-653 | the `$putComa` template loop renders the items joined by ", " |
| Database.RenderInsertSQL | database/database.go:648-673 | the rendered `insertSQL` text is `insert into T (cols) values (:cols) ` plus `returning K` iff K is non-empty |
| Database.RenderUpdateSQL | database/database.go:675-697 | the rendered `updateSQL` text is `update T set c = :c, ... where W ` plus the optional returning clause |
| Database.InsertSQLExample | database/database.go:648-673 | `insertSQL(["title","slug"])` is `insert into T (title, slug) values (:title, :slug) ` followed by the returning clause |
| Database.UpdateSQLExample | database/database.go:675-697 | the two-column update text, and `set  where` with no columns |
| Database.InsertListsSplitBack | database/database.go:648-659 | in the rendered insert, the column list and the value list (both joined by ", "), split at ',', have one piece per column, and piece i of the values is piece i of the columns with ':' before the name, so column i is bound to parameter i (no column containing ',') |
| Database.BeginTxNext | database/database.go:359-370 | an open transaction is reused and the error cleared; otherwise the new transaction, or the begin error, is recorded |
| Database.RollbackNext | database/database.go:372-381 | rollback never clears the transaction; the error becomes the rollback's error, or none |
| Database.CommitNext | database/database.go:383-393 | without a transaction nothing changes; a failed commit records its error; a successful one clears transaction and error |
| Database.TransactionOutcome | database/database.go:503-511 | a successful callback and commit leave no transaction and no error; a failed callback leaves the transaction recorded and the rollback's error |
| Database.RolledBackTransactionIsReused | database/database.go:503-511 | after a failed callback the next `Transaction` reuses the old transaction whatever `Beginx` would answer |
| Database.BeginFailureIsLost | database/database.go:359-370 | when `Beginx` fails and the callback succeeds, the begin error is replaced by what the callback left |
| Database.ForceDatabase | database/database.go:72-88 | panics iff an error is pending and the query type is row (404) or insert/update (422); otherwise returns the handle unchanged |
| Database.ForceIdempotent | database/database.go:72-88 | forcing a returned handle again gives the same answer |
| Database.ForceResult | database/database.go:121-135 | `Result.Force` panics (404) iff an error is set and the type is "row"; otherwise returns the result unchanged |
| Database.RowsRead | database/database.go:405-460 | the rows read are a prefix of the rows the driver returned |
| Database.StatementNext | database/database.go:585-611 | an insert/update sets its query type and never changes the open transaction |
| Database.StatementErrorHandling | database/database.go:591-611 | a prepare failure stays pending; a later failure inside a transaction leaves the rollback's error (none when it succeeds); outside one it stays pending; success keeps the old error |
| Database.DbError | database/database.go:342-357 | 1 iff a PostgreSQL "42P01" error, 0 for another PostgreSQL error, -1 otherwise |
| Database.Database.constructor | database/database.go:138-170 | a new handle has no transaction, no error and no query type |
| Database.Database.BeginTx | database/database.go:359-370 | the handle moves as `BeginTxNext` says |
| Database.Database.Rollback | database/database.go:372-381 | the handle moves as `RollbackNext` says |
| Database.Database.Commit | database/database.go:383-393 | the handle moves as `CommitNext` says |
| Database.Database.Transaction | database/database.go:503-511 | begins or reuses, runs the callback once, rolls back iff it returned an error, else commits |
| Database.Database.Force | database/database.go:72-88 | answers as `ForceDatabase` on the current state |
| Database.Database.Query | database/database.go:405-460 | a pending error is returned without running anything; an execution error becomes pending; otherwise the rows up to a scan failure are read; count stays 0 |
| Database.Database.QueryRow | database/database.go:471-500 | the result is always tagged "row" with count 0; a failed row rolls back, which resets or replaces the pending error |
| Database.Database.Insert | database/database.go:523-562 | the statement uses the insert run's keys (corrected guard) and the given keys joined by ", "; the error and new state follow the prepare/scan/close outcome |
| Database.Database.Update | database/database.go:565-614 | the stored ID is copied into `data` first; the changes are those of the update run under the corrected guard; the where clause defaults to "id = :id"; the error and new state follow the outcome |
| Database.Database.CopyId | database/database.go:566-567 | only the requested record's ID changes, to the stored record's ID |
| Database.Database.RunStatement | database/database.go:585-611 | returns the first failing step's error and moves the handle as `StatementNext` says |
| Database.Database.Delete | database/database.go:617-646 | the text is `DELETE FROM T WHERE W`; the error is none iff the rows affected are positive, inside or outside a transaction |
| Database.IdField | database/database.go:566 | the index of the `ID` field, which holds an int64 |
| Migrations.Load | database/database.go:228-240 | a readable file gives a migration, numbered by its name's leading digits and named by its last path segment; an unreadable one gives nothing |
| Migrations.Loaded | database/database.go:228-240 | the loaded migrations are no more than the files |
| Migrations.LoadedFromFiles | database/database.go:228-240 | every loaded migration comes from one of the files |
| Migrations.InsertDescending | database/database.go:242-246 | inserting into a descending list keeps it descending and adds exactly that item |
| Migrations.SortDescending | database/database.go:242-246 | the result is ordered by number, descending, and is a permutation of the input |
| Migrations.MigrationFiles | database/database.go:221-249 | "down" files come sorted descending (a permutation of those loaded); other types keep the loaded order |
| Migrations.Selection | database/database.go:301-308 | every selected file is not the base file and is newer than the last recorded number, if any |
| Migrations.Names | database/database.go:236 | the names of the migrations, in order |
| Migrations.NewMigrations | database/database.go:289-340 | a failed `Beginx` ends in a nil-transaction panic; otherwise the loop's final error, applied files and recorded files |
| Migrations.AttemptedFollowSelection | database/database.go:301-335 | the applied files are a prefix of the selected ones, and all of them while no execution has failed |
| Migrations.BaseNeverApplied | database/database.go:303-304 | `01.postgres.up.sql` is never applied |
| Migrations.FailureIsFinal | database/database.go:309-313 | after a rollback nothing more is applied or recorded, and every later selected file leaves `TxDone` as the error |
| Migrations.AllSelectedApplied | database/database.go:301-335 | when every selected file executes, all selected files are applied in order |
| Migrations.AllExecutionsSucceed | database/database.go:315-332 | then exactly the files whose record succeeded are recorded, and with no failure the error is nil |
| Migrations.SelectionExample | database/database.go:301-333 | with migration 3 recorded only 04 and 05 of 01..05 are selected; with none recorded all but the base file are |
| Validator.ViolationMessage | database/validator.go:80-87 | 23505 gives "has been already taken", 23503 gives "does not exists", any other code ""; the not-null message never appears |
| Validator.ConstraintErrors | database/validator.go:76-93 | one write per tag, the same key and message each time |
| Validator.UniqueTags | database/validator.go:49-59 | one tag per piece of the comma-split `unique` tag equal to the constraint |
| Validator.SplitSelf | database/validator.go:49-52 | a `unique` tag equal to the constraint yields a tag iff the constraint has no comma |
| Validator.ValidateConstraint | database/validator.go:39-74 | the error is returned unchanged; nil or a non-`pq` error gives {}; a `pq` error gives the constraint map |
| Validator.FieldErrors | database/validator.go:45-69 | a field whose tag matches gets its snake_case name mapped to the code's message; others leave the map |
| Validator.ConstraintMapEntries | database/validator.go:44-70 | a key is present iff some field with that snake_case name carries the constraint in `unique` or `foreign` |
| Validator.ConstraintMapMessages | database/validator.go:80-89 | every entry holds the code's message |
| Validator.RecordedIdempotent | database/validator.go:60-69 | the second `constraintErrors` call rewrites the same entry: recording twice equals recording once |
| Validator.NotNullGivesEmptyMessage | database/validator.go:80-87 | a 23502 violation maps every matching field to "" |
| Validator.JobDetailForeignKey | database/validator_test.go:118-137 | the job detail record with a failed `job_id` foreign key gives exactly {job_id: "does not exists"} |
| Validator.CompositeUnique | database/model/post_category_assignment.go:29-30 | the composite unique key marks both `post_id` and `category_id` |
| Fixtures.PlainFields | database/validator_test.go:33-53 | untagged fields carry only their name and `db` column |
| AppKeys.App.constructor | cmn/app.go:30 | the key table starts empty |
| AppKeys.App.PopulateRedisKeys | cmn/app.go:72-83 | after start-up the table holds the four entries over whatever was there |
| AppKeys.GetRedisKey | cmn/app.go:96-102 | with two or more keys the nested entry (or "" when absent); with one key the flat string |
| AppKeys.ExtraKeysIgnored | cmn/app.go:97-99 | keys beyond the second are ignored |
| AppKeys.RedisTableLookups | cmn/app.go:72-83 | each entry of the table as written; a flat entry with two keys and a nested one with one key fail |
| Authorization.PermissionPrefix | api/authorization.go:57-58 | the prefix read from the table is "user:permission" |
| Authorization.GenNext | api/authorization.go:56-106 | grants iff the key is cached or the query finds a row; only a grant on a miss writes the key; existing entries stay |
| Authorization.Decide | api/authorization.go:41-53 | `next` runs iff superadmin or both `gen` and the callback hold; otherwise 403 "forbidden" |
| Authorization.Authorizer.constructor | api/authorization.go:34-36 | the cache starts as given |
| Authorization.Authorizer.Gen | api/authorization.go:56-106 | answers and updates the cache as `GenNext` says |
| Authorization.Authorizer.Apply | api/authorization.go:39-54 | superadmin runs `next` with no cache access or callback; otherwise the callback is evaluated only when `gen` grants |
| Authorization.GrantIsSticky | api/authorization.go:64-70 | once granted, the cached key answers every later call, whatever the tables say |
| Authorization.RoleIdNotInKey | api/authorization.go:64-86 | callers differing only in role ID share a key, so a cached grant answers for both |
| Authorization.DenialWritesNothing | api/authorization.go:87-89 | a denial leaves the cache unchanged and means the query found no row |
| Authorization.CacheKeyParts | api/authorization.go:64-69 | the key splits at ':' into user, permission, role, id, controller, method |
| Authorization.CacheKeyInjective | api/authorization.go:64-69 | distinct callers or routes get distinct keys when names contain no ':' |
| Policies.GetPost | api/post_policy.go:51-67 | the post found, or the zero post; never nil |
| Policies.GetComment | api/post_comment_policy.go:52-64 | the comment found, or the zero comment; never nil |
| Policies.BindingNamesFree | api/user_policy.go:33 | no controller or method name passed to `Apply` contains ':' |
| Policies.BindingInjective | api/category_policy.go:31-52 | each policy passes a different (controller, method) pair |
| Policies.BindingsDistinct | api/authorization.go:64-69 | so two policies never share a cache key for the same caller |
| Policies.OpenRoutesNeedOnlyPermission | api/user_policy.go:32-75 | Index, Create and Delete of users, and the post, comment and category routes with true callbacks, pass iff superadmin, cached or granted |
| Policies.UserSelfAccess | api/user_policy.go:43-46 | Show and Update allow exactly the caller's own base-10 ID |
| Policies.ParseFailureDiffers | api/logout_policy.go:35-41 | an unparsable `userID` denies Show and Update, but Logout compares 0 and lets a caller with ID 0 through |
| Policies.NonNumericUserId | api/user_policy.go:62-65 | "abc" denies Show; Logout lets only ID 0 through |
| Policies.PostOwnership | api/post_detail_policy.go:30-36 | post Delete and detail Create allow exactly the post's author; a missing post acts as authored by 0 |
| Policies.CommentOwnership | api/post_comment_policy.go:41-49 | comment Delete allows exactly the comment's author; a missing comment acts as by 0 |
| Policies.UserRoleScenario | api/user_policy_test.go:18-56 | a "user" may show itself but not another user, and may not list users |
| Policies.ForeignPostDeleteForbidden | api/post_policy_test.go:78-101 | deleting (or detailing) another author's post is forbidden |
| RolePermissions.RouteCacheKey | tasks/generate_role_permissions.go:58 | the route's key is "routes:" + name |
| RolePermissions.BuildRolesMap | tasks/generate_role_permissions.go:35-38 | the loop builds the roles map |
| RolePermissions.Store.constructor | tasks/generate_role_permissions.go:40-48 | the stored routes, permissions and cache are as given |
| RolePermissions.Store.InsertMethodRows | tasks/generate_role_permissions.go:62-74 | no panic iff no row of one role's methods fails; the rows appended are exactly those before the first failing one (all of them without a panic) |
| RolePermissions.Store.InsertGrantRows | tasks/generate_role_permissions.go:61-75 | no panic iff no permission row of the controller fails; the rows appended are exactly those before the first failing one (all of them without a panic) |
| RolePermissions.Store.ProcessEntry | tasks/generate_role_permissions.go:50-76 | a stored controller is skipped; a new one gets a route, its cache entry and its permission rows; on a failed route insert nothing is written, on a failed permission insert the route, the cache entry and the rows before the failure are |
| RolePermissions.Store.GenerateRolePermissions | tasks/generate_role_permissions.go:28-79 | no panic iff no insert fails; then routes, permissions and cache are extended by exactly the new controllers' rows |
| RolePermissions.GrantRowsCount | tasks/generate_role_permissions.go:61-75 | one row per (role, method) pair |
| RolePermissions.GrantRowsComplete | tasks/generate_role_permissions.go:61-75 | every (role, method) pair has its row |
| RolePermissions.GrantRowsSound | tasks/generate_role_permissions.go:63-65 | every row is some pair's, with the controller and method it names |
| RolePermissions.RowsOfNewControllers | tasks/generate_role_permissions.go:50-51 | rows and routes come only from table controllers not yet stored |
| RolePermissions.RolesMapLatest | tasks/generate_role_permissions.go:35-38 | a code is in the map iff some role has it, and maps to the last such role's ID |
| RolePermissions.UnknownRoleGetsZero | tasks/generate_role_permissions.go:63 | an unknown role code yields role ID 0 |
| Pagination.NewPagination | model/pagination.go:35-42 | limit 40, offset 0, "desc", "id" |
| Pagination.ValidateStruct | model/pagination.go:26-32 | no error iff limit ≤ 40 and order by asc/desc; each violated field is named |
| Pagination.Validate | model/pagination.go:45-53 | with a non-empty list an order field outside it fails first; otherwise valid iff the struct tags hold |
| Pagination.DefaultsValidate | model/pagination.go:35-53 | the defaults pass when the list is empty or contains "id" |
| Pagination.OrderFieldFailsFirst | model/pagination.go:46-51 | a rejected order field hides every struct error |
| Pagination.OrderFieldMessageTwo | model/pagination.go:49-50 | the message lists the fields joined by ", " |
| Api.ParseQuery | api/api.go:56-64 | the same keys, each with its first value |
| Api.ParamErrors | api/api.go:73-97 | exactly the unparsable numbers and a rejected order field are marked "is not valid" |
| Api.Paginate | api/api.go:67-116 | the result is the pagination-or-400 outcome of the query |
| Api.PaginatedIsValid | api/api.go:99-115 | a success satisfies the struct tags, has its order field in the list (or "id" with an empty list) and an empty error map |
| Api.AbsentParamsKeepDefaults | api/api.go:69-97 | no parameters give the defaults when they validate |
| Api.RejectedOrderField | api/api.go:91-104 | an order field outside the list ends in 400 marking it |
| Api.LimitErrorMasked | api/api.go:74-81 | a non-numeric limit next to a valid offset passes the first check, with limit 0 |
| Api.LimitTooLarge | api/api.go:106-113 | a limit above 40 fails validation with 400 |
| Api.LimitTwentyOffsetTen | api/post_controller_test.go:73-78 | `limit=20&offset=10` gives limit 20, offset 10 |
| JwtAuth.JwtAuth.constructor | api/jwtauth.go:36-44 | expiry starts at 0 |
| JwtAuth.JwtAuth.Generate | api/jwtauth.go:47-65 | the claims are id, role_id, role and exp = now + 25 000 000 000, wrapped to int64; nothing when signing fails |
| JwtAuth.Parse | api/jwtauth.go:68-90 | -1 iff verification fails, -2 iff not MapClaims or invalid, 0 iff expired, 1 iff accepted; claims only with 1 |
| JwtAuth.ToUpper | api/jwtauth.go:97 | the header bytes upper-cased one by one |
| JwtAuth.RequestCtx.constructor | api/jwtauth.go:94 | a fresh request has no auth context and status 200 |
| JwtAuth.RequestCtx.Verify | api/jwtauth.go:93-128 | the response is the gate's: reject with status and detail, or store the auth context and run `next` once |
| JwtAuth.ParseCodes | api/jwtauth.go:106-126 | code 0 is 401 "token expire", -1/-2 are 403, and acceptance runs `next` as the claims' caller |
| JwtAuth.ExpiryInclusive | api/jwtauth.go:82-86 | a token is accepted at second `exp` and expired one second later |
| JwtAuth.ExpiredOnlyAcrossASecond | api/jwtauth.go:69-86 | when jwt-go has checked `exp` at second t, code 0 (401) needs the clock to pass `exp` after t; in the second of the check it never occurs, and an already expired token gets 403 |
| JwtAuth.StandardHeader | api/jwtauth.go:97-104 | "Bearer " + token passes the gate and hands over exactly the token |
| JwtAuth.SeventhByteIgnored | api/jwtauth.go:97-104 | the scheme is case-insensitive and byte 7 is never checked |
| JwtAuth.ShortHeaderRefused | api/jwtauth.go:97-102 | a header shorter than 7 bytes, "Bearer" alone included, gets 403 |
| JwtAuth.GeneratedLifetime | api/jwtauth.go:48 | a generated token lives 25 000 000 000 seconds, not 25 |
| Jsonb.AppendOnto | database/jsonb.go:59 | `append((*m)[0:0], data...)` holds exactly the data and is nil only when both are |
| Jsonb.Value | database/jsonb.go:21-27 | nil iff the value is null (empty or "null"); otherwise its bytes as text |
| Jsonb.ScanInto | database/jsonb.go:30-44 | nil source gives nil; bytes give those bytes; any other source leaves it empty, nil only when it was |
| Jsonb.MarshalJson | database/jsonb.go:47-52 | nil gives "null", otherwise the bytes |
| Jsonb.Equals | database/jsonb.go:69-71 | true iff same bytes |
| Jsonb.JsonbField.constructor | database/jsonb.go:18 | holds the initial value |
| Jsonb.JsonbField.Scan | database/jsonb.go:30-44 | the new value is the scanned one; the error is always nil |
| Jsonb.UnmarshalJson | database/jsonb.go:55-61 | a nil pointer gives the error; otherwise the data is stored |
| Jsonb.UnmarshalMarshalRoundTrip | database/jsonb.go:47-61 | Unmarshal then Marshal gives back non-empty data |
| Jsonb.ValueScanRoundTrip | database/jsonb.go:21-44 | scanning a non-null `Value` gives back an equal value |
| Jsonb.ScanThenIsNull | database/jsonb.go:64-66 | after scanning bytes, null iff they are empty or "null" |
| Jsonb.EqualsIsEquivalence | database/jsonb.go:69-71 | `Equals` is an equivalence, and nil equals empty |
| Util.Wrap64 | api/jwtauth.go:48 | int64 wrap-around: always in range, identity in range |
| Util.NatToDigitsValue | utils/util.go:449 | the decimal rendering reads back as the number |
| Util.ParseInt | utils/util.go:455 | `strconv.ParseInt` base 10: an int64 result; 0 or the nearest bound on error |
| Util.FormatInt | utils/util.go:449 | the rendering is digits with an optional '-' |
| Util.ParseFormatInt | utils/util.go:448-460 | every int64 renders and parses back |
| Util.ParseFormatIntClamps | utils/util.go:455 | a rendering outside int64 parses as a range error with the nearer bound |
| Util.ParseIntExamples | utils/util.go:455 | "42", "-7", "+7" parse; "abc", "", "-", "4x" fail with 0 |
| Util.Int64ToStr | utils/util.go:448-451 | the rendering parses back to the value |
| Util.StrToInt64 | utils/util.go:454-460 | the parsed int64, or 0 on failure |
| Util.StrToInt | utils/util.go:463-469 | agrees with `StrToInt64` (`Atoi` on 64 bits) |
| Util.StrToInt64RoundTrip | utils/util.go:448-469 | `StrToInt64(Int64ToStr(x)) == x` |
| Util.ParseIntFlag | utils/util.go:548-554 | the flag is true exactly when parsing failed |
| Util.Split | database/validator.go:50 | `strings.Split` gives at least one piece |
| Util.JoinSplit | database/validator.go:50 | joining the pieces of a split restores the text |
| Util.SplitJoin | api/authorization.go:64-69 | splitting a join of separator-free parts gives back the parts |
| Util.InArray | utils/util.go:41-59 | found iff a slice holding the value; then the least index; else (false, -1) |
| Util.StringInSlice | utils/util.go:557-564 | true iff the string occurs |
| Util.Renderings | utils/util.go:540-543 | each element's base-10 rendering |
| Util.JoinInt64Array | utils/util.go:539-545 | the renderings joined by the separator |
| Util.JoinInt64ArraySplits | utils/util.go:539-545 | the joined text splits back and each piece parses to its number |
| Util.Iterate | utils/util.go:301-312 | start, start+1, … start+count−1; empty when count ≤ 0 |
| Util.GoRemZero | utils/util.go:438-440 | Go's truncated remainder is zero iff the Euclidean one is |
| Util.StartNewRow | utils/util.go:433-445 | true iff ndx is 0 or a multiple of colCount |
| Util.ToLower | utils/util.go:37 | each ASCII upper-case letter lower-cased, every other character kept |
| Util.ToSnakeCase | utils/util.go:34-38 | the result has no ASCII upper-case letter |
| Util.SnakeCaseOnlyInsertsUnderscores | utils/util.go:34-38 | removing underscores gives the lower-cased input without underscores |
| Util.SnakeCaseOfLowerIsIdentity | utils/util.go:34-38 | text without ASCII upper-case letters is unchanged (ASCII lowering only) |
| Util.SnakeCaseJobId | database/validator_test.go:136-137 | "JobID" becomes "job_id" |
| Util.SnakeCaseId | utils/util.go:34-38 | "ID" becomes "id" |
| Util.Base64Encode | utils/util.go:574 | padded Base64 is 4 characters per started 3 bytes |
| Util.Base64RoundTrip | utils/util.go:574 | decoding the encoding gives the bytes back |
| Util.Passkey | utils/util.go:567-575 | the Base64 of the nine 16-byte UUIDs: 192 characters that decode to those 144 bytes |

## Left out

- Reflection. Go structs become field lists with explicit tags and kinds. `GetChanges` on fields of other kinds (`Other`) records nothing, as the source's switch has no case for them.
- SQL execution, Redis I/O, the Elasticsearch and AWS clients, and the HTTP server and router. Driver answers (begin, commit, rollback, prepare, scan, close, rows affected) and cache hits are parameters.
- JSON text. Routes are cached by name rather than by `ToJSON`; claims are a record, not a map.
- Concurrency. Go map iteration order is not modelled: the role-permission table and `ParseQuery`'s query map are taken in a given order.
- bcrypt password hashing, `text/template` (modelled by the text it renders), and the template helper functions of utils/util.go: `add`, `subtract`, `multiply`, `divide`, `ieq`, `toText`, `mustache`, `attr`, `NewFuncMap`, `FloatToStr`, `StrToFloat` and the time parsers.
- `NewDB`, `DropDB`, `InstallDB`, `reset`, `migrationUp` and `baseMigrations`. They are connection and file-system glue.
- The SQL of the migration table query. `last` is the number column of its last row.
- `ToJSON`, `QueryWithModel`/`QueryRowWithModel` as separate entry points (an `intoTarget` flag), and `Tx.Select`.
- `Database.Database.Insert`, `Database.Database.Update`: scanning the returned row back into `data` is not modelled.
- `Database.Database.Update` requires that both records have an `ID` int64 field and are distinct objects. The source's reflection panics without the field, and aliasing is not modelled.
- JWT signing and signature verification are an oracle. Its answer includes jwt-go's own claim checks, whose library code is not part of this model; `JwtAuth.ExpiryChecked` states the expiry part of those checks, and `JwtAuth.ExpiredOnlyAcrossASecond` what follows from it. `JwtAuth.Parse` and `JwtAuth.ParseCodes` are stated for every oracle answer, including ones that break that predicate.
- Claims arrive as `float64` (api/jwtauth.go:82, 119-121). The loss of precision above 2^53 is not modelled.
- `JwtAuth.ToUpper`: it models ASCII upper-casing of single characters, not Go's Unicode case mapping, which can change byte lengths.
- Where `API.Auth` gets its value is not visible in the modelled files, so it is a parameter. `Verify` stores the auth context on the request, and the post and comment policies read that one.
- `uuid.New` in `Passkey` is random, so the nine UUIDs are a parameter.
- `utils.ValidateStruct` (the go-playground validator) is abstracted to the two tags `Pagination` carries: `lte=40` and `oneof=asc desc`.
- `Jsonb.IsNull` has no contract of its own. It is a predicate used by `Jsonb.Value` and `Jsonb.ScanThenIsNull`, which state it.
- `AppKeys.GetRedisKey` requires the lookup to succeed. A failing type assertion in the source panics.
- `Util.Iterate` requires `start + count - 1` (wrapped) to be below the largest int64. Otherwise the source's loop never ends.
- `Change.GetFieldChanges`: it implements the corrected guard of the finding below, skipping a field whose requested-side `db` tag is "-". database/change.go:64 compares such a field and reports "-" as its column; `Change.DashColumnAsWritten` models that.
- `Change.GetChanges`: its outputs and updated record are those of the corrected guard, so a `db:"-"` field (such as `User.Password`) is neither compared, reported nor copied, unlike database/change.go:64.
- `Database.Database.Insert`: it builds its statement from the corrected guard's run, so it never inserts a "-" column or binds a "-" parameter, unlike the insert database/change.go:64 lets through.
- `Database.Database.Update`: it builds its statement from the corrected guard's run, so a `db:"-"` field is not compared or copied, unlike database/change.go:64.
- `Util.ToLower`, `Util.ToSnakeCase`: ASCII lower-casing only. utils/util.go:37 calls Go's Unicode `strings.ToLower`, which also lowers letters such as "Ä"; `Util.SnakeCaseOfLowerIsIdentity` is therefore stated for text without ASCII upper-case letters.
- `Util.StartNewRow` requires a non-zero divisor unless `ndx` is 0. Go panics on division by zero.

## Findings

| source | as written | input that shows it | evidently intended | confidence | as-written member | corrected member |
|---|---|---|---|---|---|---|
| database/change.go:64 | the guard skips only fields whose requested-side `db` tag is empty, so a field tagged `db:"-"` is still compared and its tag "-" becomes an insert column | `Insert` of a `model.User` with a non-empty `Password` (tagged `db:"-"` at database/model/user.go:32), as in api/user_controller.go:106-117 | also skip `db:"-"`, the tag's usual meaning of a field that is not a column | not executed | Change.DashColumnAsWritten | Change.KeysAreColumns |

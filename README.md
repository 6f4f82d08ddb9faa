# Daily task tracker backend: a Dafny model of its handlers and access gate

The system is a small web backend where an employee keeps one task sheet
per day and an administrator reads, corrects, deletes and exports every
employee's sheets. It stores the sheets in a `tasks` collection and the
accounts in a `users` collection.

This project models three parts of it:

- **The access gate** (`app/deps.py`). A verified token is resolved to the
  stored account. `require_user` admits the roles "user" and "admin", and
  `require_admin` admits only "admin".
- **The task handlers** (`app/routes.py`):
  - reading today's sheet, the previous sheet and the history;
  - saving a sheet, which is an upsert;
  - the administrator's listing, update and delete;
  - the column shaping of the Excel export.
- **Two user-table handlers**: the non-admin user listing, and the field
  checks and record of `create_user`.

How the modules map onto the system:

- `Bson` holds documents (`map<string, Value>`, where a missing field reads
  as null) and the store's ordering of values.
- `Query` holds `find(filter).sort("date", -1).limit(n)` and `find_one`,
  stated over the set of stored documents.
- `Calendar` models `strptime`/`strftime` with `"%Y-%m-%d"` and the
  weekday name of `%A`.
- `Tasks` models the task table as a map from the key (user_id, date) to the
  record stored under it. This map is the unique compound index of
  `app/db.py:19`. Each handler is a function from the old table to the
  response or the new table.
- `Gate` models `app/deps.py`, and `Users` the user-table handlers.
- `Export` covers the frame building and column selection of
  `export_tasks`.
- `Routes.Database` is a class whose fields are the two collections. Its
  methods are the state-changing handlers, and each of them is proved to
  leave exactly the state that the matching function in `Tasks` or `Users`
  describes.

## Model

| member | source | states |
|---|---|---|
| Gate.FindUserIndex | app/deps.py:24 | `find_one({"uid": uid})` returns the first record in collection order whose uid matches; None means no record matches |
| Gate.GetCurrentUser | app/deps.py:13-37 | a missing or empty token payload gives 401 "Invalid authentication credentials"; every error is a 401; it succeeds exactly when some stored user has the token's uid; the result is that stored record, except that its email is taken from the token when the stored email is falsy |
| Gate.CheckUser | app/deps.py:39-48 | passes exactly when the role is "user" or "admin" and returns the record unchanged; otherwise 403 "Insufficient permissions" |
| Gate.CheckAdmin | app/deps.py:50-59 | passes exactly when the role is "admin"; otherwise 403 "Admin privileges required" |
| Gate.RequireUser | app/deps.py:39-48 | the user gate passes exactly when the token resolves to a stored record whose role is "user" or "admin", and it yields that record; a token that does not resolve keeps its 401 from `get_current_user`, and a resolved account with another role is the 403 "Insufficient permissions"; `Gate.GateStatuses` states the statuses |
| Gate.RequireAdmin | app/deps.py:50-59 | the admin gate passes exactly when the token resolves to a stored record whose role is "admin", and it yields that record; a token that does not resolve keeps its 401, and a resolved non-admin account is the 403 "Admin privileges required" |
| Gate.TokenRoleIgnored | app/deps.py:23-37 | a role claim in the token never changes the outcome; the stored role decides |
| Gate.NoClaimsIndependentOfUsers | app/deps.py:16-21 | a failed verification is refused with 401 at both gates, whatever the user table holds |
| Gate.UnknownAccountIsUnauthenticated | app/deps.py:26-31 | a valid token for an account missing from the table gives 401 "User not found in database" at both gates, not 403 |
| Gate.GateStatuses | app/deps.py:9-59 | a gate error is a 401 exactly when resolving the user failed; otherwise it is a 403 |
| Gate.AdminPassesUserGate | app/deps.py:39-59 | whoever passes the admin gate passes the user gate, as the same record |
| Gate.UserForbiddenAtAdminGate | app/deps.py:39-59 | a resolved "user" account passes the user gate and gets 403 at the admin gate |
| Query.CursorLimit | app/routes.py:128-138 | limit 0 means no limit; any other n caps the result at \|n\| |
| Query.Find | app/routes.py:116 | the results are distinct stored documents that match the filter, latest date first; their number is the number of matches capped by the limit; a matching document left out is one the limit cut, and its date is no later than any returned |
| Query.FindOneLatest | app/routes.py:59-62 | `find_one` with a descending date sort finds something exactly when some document matches, and what it finds is a match with the greatest date |
| Tasks.StoredUnderOwnKey | app/db.py:19 | under the unique index a record is found at its own (user_id, date), so two records never share a key |
| Tasks.GetToday | app/routes.py:31-47 | a missing uid is a 500; `exists` is true exactly when a task is returned; the task is stored, and it belongs to the caller with the target date; `Tasks.TodayIsFindOne` shows this lookup is the store's `find_one` |
| Tasks.TodayIsFindOne | app/routes.py:37-47 | `exists` is true exactly when a record of the caller has the target date, which is the query date or today when that is absent or empty; the task is that record, and it is null when there is none |
| Tasks.GetPrevious | app/routes.py:49-68 | a missing uid is a 500; a returned task is a stored record of the caller dated strictly before the target; `Tasks.PreviousIsLatestBefore` and `Tasks.PreviousIsChronological` state that it is the latest such record |
| Tasks.PreviousIsLatestBefore | app/routes.py:55-68 | `exists` is true exactly when the caller has a record dated strictly before the target; the task is the one with the greatest such date, and it is unique at that date |
| Tasks.CanonicalOrder | app/routes.py:14-15 | on canonical `YYYY-MM-DD` strings, the string comparison the store uses agrees with the calendar order |
| Tasks.LatestIsChronological | app/routes.py:58-61 | among canonical dates before the target, the greatest string is the latest day |
| Tasks.PreviousIsChronological | app/routes.py:55-68 | when the stored dates and the target are canonical, the previous task is the caller's latest calendar day strictly before the target day |
| Tasks.GetHistory | app/routes.py:110-120 | a limit outside 1..100 is refused with the 422; otherwise an account without a uid is the 500; otherwise the result is at most `limit` of the caller's own records, distinct, latest first, and a record left out is no later than any returned |
| Tasks.GetAllTasks | app/routes.py:132-142 | fails, with a 500, exactly when the limit does not fit the store's 64-bit integers; otherwise the results are distinct stored records, latest first; a non-empty `date` or `user` filter holds for every result; there are as many results as matches, capped by the cursor limit; a match left out was cut by a non-zero limit and is no later than any result; limit 0 returns every match |
| Tasks.DefaultLimits | app/routes.py:110-138 | a request without `limit` gets min(30, n) of the caller's n records from the history, and min(100, n) of the table's n records from the admin listing; `Tasks.GetHistory` and `Tasks.GetAllTasks` state that these are the latest ones |
| Tasks.OwnerName | app/routes.py:91 | the stored name when it is truthy, else the email when present, else "Unknown" |
| Tasks.SetDoc | app/routes.py:81-85 | the `$set` document holds the sent fields without `date`, plus `updated_at` |
| Tasks.InsertDoc | app/routes.py:88-94 | the `$setOnInsert` document has exactly user_id, date, owner_name, planner and created_at |
| Tasks.AsWrittenSaveAlwaysFails | app/routes.py:77 | with the body model as declared, every save raises before it writes |
| Tasks.SaveFailures | app/routes.py:73-78 | with a `date` field declared, a save fails (500) exactly when the account has no uid, strptime rejects the target date, or an integer of the body does not fit the store's 64-bit integers |
| Tasks.Upsert | app/routes.py:96-103 | the upsert with `$set` and `$setOnInsert`; its laws are `Tasks.UpsertTouchesOneKey`, `Tasks.UpsertPartialUpdate` and `Tasks.UpsertInsertOnly` |
| Tasks.SaveTask | app/routes.py:70-106 | with the body model as declared every save is a 500; every error is a 500; a save that succeeds leaves the keys of the table plus (uid, target date); its laws are `Tasks.SaveTouchesOneKey`, `Tasks.SavePartialUpdate` and `Tasks.SaveInsertOnly` |
| Tasks.UpsertTouchesOneKey | app/routes.py:96-103 | the upsert creates or replaces only the record at its key, keeps every other record, and keeps the table well keyed |
| Tasks.SaveTouchesOneKey | app/routes.py:71-106 | after a save, only the record at (uid, target date) is new or changed, and the index still holds |
| Tasks.UpsertPartialUpdate | app/routes.py:96-103 | the sent fields overwrite; stored fields that were not sent are kept; `updated_at` is the time of the call |
| Tasks.SavePartialUpdate | app/routes.py:81-103 | the partial-update law of a save: sent fields overwrite, unsent stored fields stay, `date` is never written from the body, and `updated_at` is set |
| Tasks.UpsertInsertOnly | app/routes.py:96-103 | `$setOnInsert` fields are written only when the record is created; an existing record keeps its values of those fields |
| Tasks.SaveInsertOnly | app/routes.py:87-103 | a new record gets user_id, date, owner_name, the day name as planner, and created_at; an existing record's values of these fields are kept |
| Tasks.UnpaddedSaveIsAnotherKey | app/routes.py:77-103 | a save under an unpadded date such as "2024-1-5" stores the record under that string, not under the canonical "2024-01-05" of the same day; the planner is that day's name, and today's lookup under the canonical date answers as before the save |
| Routes.GatedOwnerName | app/routes.py:91 | after the user gate the caller's record always has an `email` key, so the "Unknown" default is never taken, and the owner name is null when neither the stored record nor the token has an email |
| Tasks.SaveDocsDisjoint | app/routes.py:81-100 | the `$set` and `$setOnInsert` documents never name the same field |
| Tasks.AdminUpdate | app/routes.py:144-165 | 404 "Task not found" exactly when the body is encodable and no record has the path key; 500 exactly when an integer of the body does not fit 64 bits, or the record exists and the body sets the immutable `_id` or moves the record onto another existing key; so a move to a free key succeeds; on success the updated record is present and every other record keeps its value; `Tasks.AdminUpdateKeys` states the full law |
| Tasks.AdminUpdateMiss | app/routes.py:156-162 | the update is a 404 "Task not found" exactly when the body is encodable and no record has the (user_id, date) of the path |
| Tasks.AdminUpdateKeys | app/routes.py:154-165 | an update never creates a record; the record at the key becomes the updated record, under the key its fields now name; every other record stays; size and index are preserved |
| Tasks.UpdatedFields | app/routes.py:154-159 | the body's fields overwrite, the other stored fields stay, and `updated_at` is the time of the call |
| Tasks.AdminUpdateInPlace | app/routes.py:154-159 | an encodable body that names neither key field nor `_id` updates the record in place |
| Tasks.AdminDelete | app/routes.py:174-177 | 404 exactly when no record has the key; otherwise exactly that record is removed and every other record keeps its value |
| Tasks.DeleteKeepsWellKeyed | app/routes.py:174 | deleting keeps the index |
| Calendar.ParseDate | app/routes.py:17-18 | strptime accepts only real days of years 1..9999 |
| Calendar.DayName | app/routes.py:17-18 | a day name is produced exactly when strptime accepts the string, and it is one of the seven names |
| Calendar.ParseFormat | app/routes.py:14-18 | parsing the form written by `get_today_str` gives the date back |
| Calendar.FormatInjective | app/routes.py:14-15 | two different dates never share a canonical form |
| Calendar.UnpaddedAlias | app/routes.py:17-18 | "2024-1-5" parses to the same day as "2024-01-05" |
| Calendar.UnpaddedAliases | app/routes.py:17-18 | every day has an unpadded spelling that strptime reads as that day; that spelling differs from the canonical form whenever the month or the day has one digit |
| Calendar.UnpaddedSortsLate | app/routes.py:58-61 | the unpadded spelling of a day in January to September sorts, as a string, after the canonical form of every day in January to September of the same year |
| Calendar.FirstDayIsMonday | app/routes.py:17-18 | 0001-01-01 is a Monday, which anchors the weekday cycle |
| Calendar.KnownMonday | app/routes.py:17-18 | `get_day_name("2024-01-01")` is "Monday" |
| Calendar.NextWeekday | app/routes.py:17-18 | the weekday of the next day is the following one, cyclically |
| Calendar.DayNameOfFormat | app/routes.py:14-18 | the day name of a date's canonical form is that date's weekday name |
| Calendar.FormatOrderIsChronological | app/routes.py:58-61 | the canonical form of one date is string-less than another's exactly when the first is the earlier day |
| Users.NonAdmins | app/routes.py:226-227 | every listed account is non-admin and stored; every stored non-admin account is listed, including one without a role |
| Users.NonAdminsOfAppend | app/routes.py:227 | the listing keeps collection order |
| Users.NewUser | app/routes.py:188-212 | a missing or falsy email, password or name gives 400 "Missing fields"; a provider error gives 400 with its text; otherwise the result is the seven-field record with role "user", is_active true and the new uid |
| Users.MissingFieldsBeforeProvider | app/routes.py:192-197 | the field check comes before the identity provider is called |
| Users.CreatedUserIsListed | app/routes.py:204-227 | a created account appears at the end of the user listing |
| Export.ExportCell | app/routes.py:276-291 | a cell is the task's stored value; NaN when the task lacks a column some other task has; "" when no task has that column |
| Export.Sheet | app/routes.py:276-291 | the shaped table has one row per task and twelve cells per row; `Export.ShapeRows` proves the pandas steps produce it |
| Export.ShapeRows | app/routes.py:276-291 | the shaping loop yields one row per task with the twelve expected columns in order, each cell equal to `ExportCell`, i.e. the `Sheet` of the tasks |
| Export.ExportTasks | app/routes.py:254-291 | an error is always the 404 "No tasks found"; a workbook has the file name `tasks_<date>.xlsx`, or `tasks_all_<today>.xlsx` when no date is given, the twelve columns as header, and at least one row; `Export.ExportLaw` states which rows |
| Export.ExportLaw | app/routes.py:261-291 | the export is a 404 exactly when no task matches the date filter; otherwise it has one row per matching task with the twelve columns in order |
| Routes.Database.constructor | app/db.py:19 | an empty task table satisfies the index |
| Routes.Database.SaveTask | app/routes.py:71-106 | the new task table is exactly the `Tasks.SaveTask` of the old one; on error it is unchanged; the index and the user table are preserved |
| Routes.Database.AdminUpdateTask | app/routes.py:144-165 | the new task table is exactly `Tasks.AdminUpdate` of the old one; a miss, an unencodable body, an `_id` in the body or a key clash leaves it unchanged; the index is preserved |
| Routes.Database.AdminDeleteTask | app/routes.py:167-177 | the new task table is exactly `Tasks.AdminDelete` of the old one; the index is preserved |
| Routes.Database.CreateUser | app/routes.py:182-217 | on success the new record is appended to the user table and the new uid is returned; on error nothing changes; the task table is untouched |

## Left out

- The token verifier (`app/auth.py`, `app/firebase.py`) is not part of this model. Its outcome is the parameter `verified`, and the identity provider's `create_user` outcome is the parameter `created`.
- The clock is a parameter. `today` is the string `get_today_str` returns, and `now` is a single instant used for both `datetime.utcnow()` calls of one request.
- Logging, the database connection and its error handling, and the HTTP framework's routing are left out.
- pydantic's type coercion and its 422 responses for malformed bodies are left out. A saved body is assumed to be already validated (`IsTaskSave`).
- The Excel writing, `BytesIO` and streaming in `export_tasks` are left out. The model stops at the shaped rows. pandas' dtype conversions are not modelled; a missing cell is the symbolic `NaN`.
- The `/health` and `/api/me` handlers, `delete_user` and `seed_data.py` are outside the modelled core.
- The `_id` field and the `{"_id": 0}` projection are left out: stored documents carry no `_id`. A body that sets `_id` is modelled only in `Tasks.AdminUpdate`, as the store's refusal to change an immutable field. Nested values, arrays, dotted field names and `$`-prefixed field names are not modelled either.
- The order among records that share a sort date is left open. `Query.Find` fixes one order, but the contracts constrain only the date order.
- Query.CursorLimit: a negative limit is modelled as "at most |n|". pymongo's single-batch behaviour is not modelled.
- Calendar.ParseDate: `\d` in strptime also accepts non-ASCII digits. The model accepts only ASCII digits. Locale-dependent `%A` names are taken to be the English ones.
- Users.NewUser: a failure inserting the user record into the store, which the source also turns into a 400, is not modelled. The provider error text is taken as given.
- Gate.GetCurrentUser: the email is used exactly as stored or as it appears in the token. No normalisation, such as lower-casing, is applied, because the code applies none.
- The read-only handlers (`GetToday`, `GetPrevious`, `GetHistory`, `GetAllTasks`, `ExportTasks`) are functions of the task table, not methods of `Routes.Database`. Because they change nothing, the function is the whole behaviour.
- Gate.GateStatuses: holds only for requests that carry a Bearer credential. A missing or non-Bearer `Authorization` header is rejected by `HTTPBearer` (app/deps.py:7, 9) before `verify_token` runs, and it is not modelled; depending on the framework release, that rejection is a 403 "Not authenticated" or a 401.
- Tasks.AdminUpdate: the store's duplicate-key error, raised when a body moves a record onto an existing key, is modelled as a 500 that leaves the table unchanged.
- Tasks.AdminUpdate: a JSON number with a fraction in the free-form body is not representable, because `Bson.Value` has no double. Only integers are modelled, and only the 64-bit bound is checked for them.
- Tasks.SaveFailures: the 64-bit bound is modelled as the driver's OverflowError, a 500. A pydantic release that refuses such an integer with a 422 first is not modelled; pydantic's 422 responses are left out as a whole.
- Tasks.GetAllTasks: the limit is checked only against the 64-bit range. The driver's handling of the single value -2^63, whose absolute value does not fit, is not modelled.

The date strings are not normalised. `get_day_name` accepts unpadded forms,
but the stored key is the string as sent. `Tasks.UnpaddedSaveIsAnotherKey`
and `Calendar.UnpaddedSortsLate` state what follows: a second record for
the same day, and a sort position out of calendar order.

## Findings

| source | as written | input that shows it | evidently intended | confidence | as-written member | corrected member |
|---|---|---|---|---|---|---|
| app/routes.py:77 | `save_task` reads `task_data.date`, but the `TaskSave` model (app/schemas.py:5-13) declares no `date` field, so the read raises AttributeError and every save is a 500 before anything is written | any body, e.g. `{"status": "Done"}` | `TaskSave` declares an optional `date`, so a save stores under the sent date, or today when there is none | not executed | Tasks.AsWrittenSaveAlwaysFails | Tasks.SavePartialUpdate |

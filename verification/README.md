# Job-tracker backend core, modelled in Dafny

This project models the service layer of a job-application tracker backend.
It covers three parts:

- **Application repository.** Create, read, update, delete and list a user's
  job applications. Every operation is scoped to the calling user. It also
  computes per-user statistics.
- **User registry.** Registration, profile lookup and profile update. Emails
  are stored lower-cased and are unique. The password is kept only as a hash
  and never returned.
- **Request validation.** The rule chains for the registration, login and
  application bodies, and the middleware that answers 400 when a chain
  reported an error.

The database is a set of immutable tables (`map<Id, Record>` plus an id
counter). Each operation is a pure function from a store to a `Step`: the new
store together with a `Result`. A failed operation returns the store it was
given.

| file | module | what it holds |
|---|---|---|
| `common.dfy` | `Common` | ids, `Option`, `Result`, `Step`, error values and messages, the status enumeration |
| `text.dfy` | `Text` | ASCII lower-casing, substring search, trimming of JavaScript whitespace |
| `applications.dfy` | `Applications` | the application table; create/get/update/delete; the filtered, date-ordered list |
| `stats.dfy` | `ApplicationStats` | the total and per-status counts, and their agreement with the list |
| `auth.dfy` | `Auth` | the user table, registration, profile read and update |
| `validation.dfy` | `Validation` | a small interpreter for validation chains, the three rule sets, the 400 gate |

Where the model follows the code rather than the service's documented intent:

- **Update writes the request body as given.** A `userId` in the body moves
  the row to that user (`Applications.UpdateCanTransferOwnership`). The
  validation rules are attached only to the create route
  (`backend/src/routes/applicationRoutes.js` lines 11 and 15). So update
  stores a blank company or an empty position, which create would reject
  (`Applications.UpdateSkipsValidation`). Only the column types still
  guard update: a status outside the enumeration, or a date the database
  cannot read, fails in the database (`Applications.UpdateRejectsBadColumns`).
- **Column types.** The status column is the eight-value enumeration. A
  create, an update or a list filter naming another status fails in the
  database. The date column takes a date-time string. Its parse is the
  `parseDate` parameter, and a string it refuses fails the create or
  update. This can happen even for a date the create route's `isISO8601`
  rule accepted, such as a date without a time.
- **Not-found answers differ by route.** All three operations throw the same
  "Application not found" error. The HTTP layer answers 404 for get and
  delete but 400 for update (`backend/src/controllers/applicationController.js`
  lines 62-66, 83-88 and 103-107). The model stops at the service error.

## Model

| member | source | states |
|---|---|---|
| Applications.CreateApplication | backend/src/services/applicationService.js:5-19 | succeeds exactly when company and position are given, any status is in the enumeration and any date parses; the new row belongs to the caller whatever owner the payload names, gets a fresh id, defaults status to APPLIED and the date to the creation time, stores the parsed date, and is the only change to the table; a failure is a database error and changes nothing |
| Applications.GetApplicationById | backend/src/services/applicationService.js:48-66 | returns the row exactly when it exists and belongs to the caller, otherwise fails with "Application not found" |
| Applications.UpdateApplication | backend/src/services/applicationService.js:69-93 | succeeds exactly when the caller owns the row, any status is in the enumeration and any date parses; overwrites each column the payload carries (owner included), keeps the others, merges the remaining columns so that no column appears that neither the row nor the payload had, touches no other row; a row the caller does not own fails with "Application not found", a refused column with a database error, and neither changes anything |
| Applications.DeleteApplication | backend/src/services/applicationService.js:96-114 | succeeds exactly when the caller owns the row, removes only that row and answers "Application deleted successfully"; otherwise fails with "Application not found" and changes nothing |
| Applications.ForeignLooksAbsent | backend/src/services/applicationService.js:48-114 | on another user's row, get, update and delete answer exactly as if the row did not exist, and leave the store unchanged |
| Applications.OthersRowsUntouched | backend/src/services/applicationService.js:5-114 | create, update and delete by one user never change a row another user owned before |
| Applications.CreateThenGet | backend/src/services/applicationService.js:5-66 | what a successful create stored, get returns to its owner |
| Applications.DeleteThenGet | backend/src/services/applicationService.js:96-114 | after a successful delete, get fails for every user |
| Applications.UpdateCanTransferOwnership | backend/src/services/applicationService.js:82-90 | an update whose body names another `userId` succeeds, after which the caller can no longer read the row and the other user can |
| Applications.UpdateKeepsOwner | backend/src/services/applicationService.js:82-90 | an update without `userId` in the body changes no row's owner |
| Applications.UpdateSkipsValidation | backend/src/routes/applicationRoutes.js:11-15 | the update path stores a blank company and an empty position, which the create rules refuse |
| Applications.UpdateRejectsBadColumns | backend/src/services/applicationService.js:82-90 | on the caller's own row, an update naming a status outside the enumeration or an unreadable date fails in the database and changes nothing |
| Applications.WhereMeansSelects | backend/src/services/applicationService.js:25-30 | the `where` clause built from the filters matches a row exactly when the row is the caller's, has the requested status, and contains the company and position texts ignoring case; an absent or empty filter asks nothing |
| Applications.Rows | backend/src/services/applicationService.js:32-42 | enumerates every stored row exactly once, in increasing id order |
| Applications.Select | backend/src/services/applicationService.js:32-33 | keeps exactly the rows that satisfy the clause and never more rows than it was given; a list in increasing id order stays in increasing id order |
| Applications.InsertByDate | backend/src/services/applicationService.js:39-41 | inserting into a newest-first list gives a newest-first list holding exactly the old elements plus the new one, as a multiset |
| Applications.SortByDate | backend/src/services/applicationService.js:39-41 | the result is newest first and a permutation of the input (equal multisets), with distinct ids kept distinct |
| Applications.GetApplications | backend/src/services/applicationService.js:22-45 | fails in the database exactly when a non-empty status filter is outside the enumeration; otherwise lists exactly the stored rows the filters select, each once, most recent application date first |
| Text.ToLower | backend/src/services/applicationService.js:28-29 | same length, each letter A-Z replaced by its lower-case letter, every other character kept |
| Text.ToLowerIdempotent | backend/src/services/authService.js:11-13 | lower-casing twice is lower-casing once |
| Text.Contains | backend/src/services/applicationService.js:28-29 | true exactly when the needle occurs at some position of the haystack |
| Text.TrimStart | backend/src/middleware/validation.js:24-28 | the result is the suffix starting at the first non-whitespace character; everything dropped is whitespace |
| Text.TrimEnd | backend/src/middleware/validation.js:29-33 | the result is the prefix ending at the last non-whitespace character; everything dropped is whitespace |
| Text.Trim | backend/src/middleware/validation.js:49-56 | the result is no longer than the input; it is empty exactly when the input is all whitespace, and otherwise starts and ends with non-whitespace |
| Text.TrimIsSlice | backend/src/middleware/validation.js:49-56 | the trimmed value is the slice of the input that starts at its first non-whitespace character, with only whitespace before and after it |
| Text.Length | backend/src/middleware/validation.js:21-27 | the length the `isLength` rules measure: the number of characters minus the occurrences of the variation selectors U+FE0E and U+FE0F; hence at most the number of characters, and zero exactly when there is nothing else |
| Text.TrimIdempotent | backend/src/middleware/validation.js:49-56 | trimming a trimmed value changes nothing |
| ApplicationStats.GetStats | backend/src/services/applicationService.js:117-137 | total is the number of the caller's rows; a status is a key exactly when the caller has a row in it, and maps to the number of such rows; every key is a value of the enumeration; the per-status counts add up to the total |
| ApplicationStats.StatsAgreeWithList | backend/src/services/applicationService.js:117-137 | the total equals the length of the unfiltered list; for a status of the enumeration the count equals the length of the list filtered by it (empty when the status has no key); any other non-empty status makes the filtered list fail |
| ApplicationStats.ReduceByStatus | backend/src/services/applicationService.js:130-133 | the folded object has a key for each group's status, holding that group's count when the statuses are distinct |
| ApplicationStats.ReduceKeepsSum | backend/src/services/applicationService.js:128-134 | folding groups with distinct statuses keeps the sum of their counts |
| ApplicationStats.StatusesOf | backend/src/services/applicationService.js:122-126 | the group keys are distinct and are exactly the statuses of the caller's rows |
| ApplicationStats.GroupedCounts | backend/src/services/applicationService.js:122-133 | each group counts the caller's rows in its status |
| ApplicationStats.GroupedSum | backend/src/services/applicationService.js:118-133 | the group counts add up to the count of the caller's rows |
| ApplicationStats.SelectCount | backend/src/services/applicationService.js:118-120 | a count query returns the number of stored rows that match |
| ApplicationStats.IncreasingIdsCount | backend/src/services/applicationService.js:118-120 | a list with increasing ids has as many elements as distinct ids |
| ApplicationStats.SumKeysRemove | backend/src/services/applicationService.js:128-134 | the sum over an object's keys can take any key out first |
| Auth.Register | backend/src/services/authService.js:7-41 | fails with "User with this email already exists" exactly when a stored user holds the lower-cased email, changing nothing; otherwise adds one user with a fresh id, the lower-cased email, the hashed password and the given names, and answers with its view |
| Auth.GetUserProfile | backend/src/services/authService.js:56-74 | answers the user's view exactly when the id exists, otherwise fails with "User not found" |
| Auth.UpdateUserProfile | backend/src/services/authService.js:77-97 | an unknown id and an email held by another user are refused without change; otherwise names given are replaced, a non-empty email is lower-cased and stored, an absent or empty one keeps the old email, the password and all other users are untouched |
| Auth.ViewHidesPassword | backend/src/services/authService.js:31-37 | the returned view does not depend on the stored password hash |
| Auth.RegisterKeepsValid | backend/src/services/authService.js:10-30 | registration keeps every stored email lower-case and no two users sharing one |
| Auth.UpdateKeepsValid | backend/src/services/authService.js:80-86 | a profile update keeps every stored email lower-case and no two users sharing one |
| Auth.ValidMeansCaseInsensitiveUnique | backend/src/services/authService.js:11-13 | in such a store no two users' emails differ only in letter case |
| Auth.RegisterTwiceFails | backend/src/services/authService.js:10-17 | once an email is registered, registering any case variant of it fails and changes nothing |
| Auth.ProfileAfterRegister | backend/src/services/authService.js:56-74 | the profile of a freshly registered user is the view registration returned |
| Validation.RunChain | backend/src/middleware/validation.js:24-28 | an optional chain leaves the state alone when its field is absent; no chain adds or removes a field |
| Validation.Validate | backend/src/middleware/validation.js:4-13 | passes the request on exactly when no error was recorded; otherwise answers 400 with the non-empty error list, each error carrying its field, the value the validator read and the message |
| Validation.CheckRegistration | backend/src/middleware/validation.js:16-34 | reports one error per failed rule in rule order, carrying the value read (the raw email, the password, the trimmed name); none exactly when the email is accepted, the password is at least 6 long and any given name is at least 1 long once trimmed, by the validator's count; the email is normalized and the names trimmed |
| Validation.ShortPasswordEchoed | backend/src/middleware/validation.js:4-23 | a registration refused for a short password answers 400 with the password itself among the errors |
| Validation.CheckLogin | backend/src/middleware/validation.js:37-45 | reports one error per failed rule, carrying the value read; none exactly when the email is accepted and the password is not empty; the email is normalized |
| Validation.CheckApplication | backend/src/middleware/validation.js:48-65 | company and position are trimmed, every other field keeps its value, no field is added or removed |
| Validation.ApplicationErrors | backend/src/middleware/validation.js:48-65 | reports one error per failed rule in rule order, carrying the value read; none exactly when company and position are not blank, a given status is in the enumeration and a given date is accepted |
| Validation.RegistrationGate | backend/src/middleware/validation.js:4-34 | the registration route reaches its handler exactly when the body is acceptable |
| Validation.LoginGate | backend/src/middleware/validation.js:4-45 | the login route reaches its handler exactly when the body is acceptable |
| Validation.ApplicationGate | backend/src/middleware/validation.js:4-65 | the create route reaches its handler exactly when the body is acceptable |
| Validation.ApplicationHandlerInput | backend/src/middleware/validation.js:49-56 | for a body the rules accept (exactly the bodies that reach the handler), the handler sees a company and a position that are non-empty and already trimmed |

## Left out

- HTTP layer: routes, controllers and status codes, including the 400 for a failed update versus 404 for get and delete. The model ends at the service result.
- Authentication: login through Passport, token checking, and `generateToken`. JWT signing and its secret and expiry are outside the modelled logic.
- Password hashing: bcrypt with a fresh salt becomes a `hash` parameter of `Auth.Register`.
- Library string predicates: the email check, email normalization and ISO 8601 date check are parameters (`Validation.Library`), left uninterpreted.
- Timestamps (`createdAt`, `updatedAt`) and the nested contacts, documents and interviews returned by `include`. The other columns are kept as an opaque `details` map.
- The database default for `applicationDate` is assumed to be the creation time, passed in as `now`. Ids are opaque fresh values, modelled by a per-table counter.
- A client-supplied `id` or other non-column keys in a payload. The keys of `Payload.details` are taken to be column names (location, jobDescription, salary, jobUrl, notes, source). The database client refuses any other key as an unknown argument, and that request answers 400. A payload carrying such a key is outside the model.
- JSON `null`, and values of an unexpected JSON type, in request bodies and query parameters. Body fields are strings except the owner id, and every filter is an optional string.
- The date parse is the `parseDate` parameter, left uninterpreted.
- Unicode case folding. `toLowerCase` and the database's case-insensitive match are modelled on ASCII letters only.
- Wildcard characters in filter values, which the model treats as plain text.
- Foreign-key checks on `userId`. Any id is accepted as an owner.
- Concurrency, including the window between the ownership check and the update or delete.
- Applications.GetApplications: rows with equal application dates may come in any order, and the model does not state one.
- Validation.CheckRegistration: lengths are counted in code points, leaving out the variation selectors U+FE0E and U+FE0F, as the validation library does. When a required field is absent, its sanitized value is not written back. That request is rejected anyway.
- Validation.Validate: each error carries the field, the value and the message. The library's `type` and `location` entries are left out, because they are the same for every rule here. An absent field's value is reported as missing, not as what a sanitizer might make of it.

# School clinic record keeper — a verified model of its server core

This project models the server and the client helpers of a school health
office's record keeper. The modelled parts are:

- An Express server over one SQLite database holding users, students, daily
  visits, special-case follow-ups, referrals, clinic appointments, an audit
  log and a single settings row.
- The access gate. Every request is assigned a fixed Admin identity, and a
  per-route role list admits or answers 403.
- The route handlers for students, settings, login, users, visits, special
  cases, referrals, clinic appointments, the audit log and the dashboard.
  Each one writes exactly one audit entry when it changes something. The
  clinic-appointments handlers are modelled as written, although server.ts
  never mounts their router.
- Three pieces of the browser client:
  - the phone cleaning and link building used to notify a guardian on WhatsApp;
  - the spreadsheet header detection of the student roster import;
  - the client-side filter of the archive search.

## How the model is organised

- **Tables**: `Tables.Table<T>` is a table as its rows in Id order plus its
  AUTOINCREMENT mark.
  - `Append` is an INSERT without an Id.
  - `Put` and `Load` are INSERTs with an explicit, possibly NULL, Id.
  - `Modify` and `Remove` are `UPDATE`/`DELETE ... WHERE Id = ?`.
  - `Clear` is `DELETE FROM t`.
- **Database**: `Store.Database` is a class with one field per table. Each
  route handler is a method with `modifies db`. Its postcondition gives the
  whole new database state, as a function of the old one plus exactly one audit
  entry (`Store.Logged`).
- **Multi-statement handlers**: bulk import, restore and reset-year are
  specified by pure functions (`BulkRun`, `RestoreRun`, `ResetRun`). Their
  loops are proved to compute those functions, and the behaviours promised
  about them are proved as lemmas.
- **Gate**: `Gate.Admits` is the role check. Every handler behind
  `requireRole` states both outcomes: Forbidden with the database unchanged,
  or the handler's effect.
- **Errors**: SQLite constraint failures are a `SqlError`. A failure outside a
  try block is `Reply.Thrown`, which Express answers with 500. A bcrypt call on
  a missing password is `Reply.HashThrew`.
- **Parameters**: the parts the model cannot see are parameters:
  - bcrypt's compare and hash functions;
  - the clock (`now`, today's date, the start of the week);
  - SQLite's `date()` and JavaScript's `Date` parsing;
  - `toLowerCase` and `encodeURIComponent`;
  - whether the SQLite build enforces FOREIGN KEY constraints (`Database.foreignKeys`).

## Model

| member | source | states |
|---|---|---|
| Tables.IdSpread | server/db.ts:22 | in ascending Ids the last Id exceeds the first by at least the row count minus one |
| Tables.Lookup | server/routes/settings.ts:9 | `WHERE Id = ?` finds a value iff some row has that Id, and then it is that row's value |
| Tables.Append | server/routes/students.ts:15 | an INSERT without Id adds one row at the end under an Id never used before and raises the AUTOINCREMENT mark to it |
| Tables.AppendFind | server/routes/students.ts:15-17 | the inserted row reads back under the returned Id; every other Id reads as before |
| Tables.Place | server/routes/settings.ts:68 | an explicit-Id insert puts the row at its place in Id order: a permutation of old rows plus the new one, still ascending |
| Tables.Put | server/routes/settings.ts:66-68 | an explicit-Id INSERT fails with the primary-key UNIQUE error iff the Id is taken; otherwise it adds exactly that row and raises the mark to at least the Id |
| Tables.Load | server/routes/settings.ts:68 | an INSERT whose Id may be NULL fails iff a given Id is taken; otherwise the rows are the old ones plus exactly one row, under the given Id or else the next one |
| Tables.LoadKeeps | server/routes/settings.ts:68 | after one INSERT every earlier row is still there, the row with a given Id is there, and any other row carries the inserted value |
| Tables.Modify | server/routes/students.ts:23 | an UPDATE by Id rewrites exactly the row with that Id and keeps every Id and every other row |
| Tables.ModifyFind | server/routes/students.ts:23 | after an UPDATE of an existing row, reading it gives the updated value |
| Tables.ModifyOther | server/routes/students.ts:23 | an UPDATE leaves every other Id reading as before |
| Tables.ModifyTwice | server/routes/visits.ts:32 | an update idempotent on each row is idempotent as a statement |
| Tables.ModifyAbsent | server/routes/students.ts:23 | an UPDATE of an Id no row has changes nothing |
| Tables.Remove | server/routes/clinic-appointments.ts:34 | a DELETE by Id drops exactly the rows with that Id and keeps the rest in order |
| Tables.RemoveFind | server/routes/clinic-appointments.ts:34 | after the DELETE the Id reads as absent and every other Id reads as before |
| Tables.Keys | server/routes/settings.ts:28-34 | a dump of the rows carries each row's Id and value, in order |
| Tables.LoadAll | server/routes/settings.ts:65-70 | loading a dump adds one checked row per element, or fails; the old rows stay, every element that carries an Id is a row under that Id, and added rows pass the NOT NULL / FOREIGN KEY check |
| Tables.LoadedOneMore | server/routes/settings.ts:67-69 | one more checked INSERT keeps the dump's facts: old rows stay, every Id-carrying element is a row, every added row passes the check |
| Tables.LoadedIntoEmpty | server/routes/settings.ts:65-94 | a dump loaded into an emptied table has one row per element, each Id-carrying element under its Id |
| Tables.KeysHold | server/routes/settings.ts:28-34 | every row of a table is in its dump, under its own Id |
| Tables.LoadEach | server/routes/settings.ts:67-69 | the insert loop computes exactly `LoadAll` |
| Tables.LoadAllFailsWithPrefix | server/routes/settings.ts:48-97 | once an insert fails, the rest of the dump changes nothing: the transaction's result is the first failure |
| Tables.LoadKeys | server/routes/settings.ts:66-69 | loading the dump of an ascending table whose rows pass the check into an emptied table gives back exactly those rows, Ids included |
| Tables.LoadLast | server/routes/settings.ts:67-69 | loading one more element is one more checked insert on what was loaded so far |
| Tables.Clear | server/routes/settings.ts:50-54 | `DELETE FROM t` leaves no row and keeps the AUTOINCREMENT mark |
| Schema.Bit | server/routes/students.ts:15 | `x ? 1 : 0` is 0 or 1, and 1 exactly for truthy JSON values |
| Schema.OrZero | server/routes/visits.ts:24 | `x \|\| 0` is the given number or 0 when absent |
| Schema.SettingsAtMostOne | server/db.ts:113 | the `CHECK (Id = 1)` primary key lets the Settings table hold at most one row |
| Schema.ChildCheck | server/db.ts:40-55 | a child INSERT fails iff StudentId or CreatedByUserId is NULL, or (with FKs enforced) names a missing student or user; the error names the first failing constraint |
| Store.Database.constructor | server/db.ts:20-118 | a new database has every table empty and is well formed |
| Store.Logged | server/db.ts:140-142 | one audit entry is appended under a fresh Id; every other table is unchanged |
| Store.LogAudit | server/db.ts:140-142 | `logAudit` changes the database to exactly `Logged` of the old state |
| Store.Commit | server/routes/settings.ts:97 | the end of a transaction leaves the database holding the state its statements built |
| Store.UpdateUser | server/routes/users.ts:31 | an UPDATE of a Users row that keeps the username keeps the database well formed and changes only that row |
| Store.Bootstrap | server/db.ts:120-131 | the seed adds the `admin` user only when no user has that name and the default settings row only when there is no Id 1; nothing else changes |
| Store.BootstrapIdempotent | server/db.ts:120-131 | seeding a second time changes nothing |
| Store.InitDb | server/db.ts:19-138 | `initDb` leaves the database as `Bootstrap` of the old state |
| Gate.Authenticate | server/middleware/auth.ts:10-14 | whatever the request carried, its user becomes id 1, role Admin |
| Gate.Admits | server/middleware/auth.ts:16-23 | a request passes iff it has a user whose role is in the list |
| Gate.EmptyListRejectsAll | server/middleware/auth.ts:18 | `requireRole([])` rejects everyone |
| Gate.AdminListAdmitsAuthenticated | server/middleware/auth.ts:10-23 | after `authenticate`, any role list naming Admin admits the request |
| Gate.Guard | server/middleware/auth.ts:10-23 | the two middlewares in a row admit exactly when Admin is listed |
| Joins.JoinOne | server/routes/visits.ts:9-13 | a joined row carries its own row, its stored student and (when Users is joined) its creator's username |
| Joins.JoinRows | server/routes/visits.ts:9-13 | the inner join yields every row with both partners and nothing else; with all partners present it drops none |
| Joins.Listing | server/routes/visits.ts:9-15 | the listing is the join sorted by the key descending: a permutation of the join whose keys never increase |
| Lists.KeyLeTotal | server/routes/visits.ts:14 | ORDER BY on a nullable TEXT column compares any two keys |
| Lists.KeyLeTransitive | server/routes/visits.ts:14 | that order is transitive |
| Lists.SortedDescPrefix | server/routes/audit.ts:14-15 | `LIMIT n` keeps a descending result descending |
| Lists.InsertDesc | server/routes/visits.ts:14 | inserting into a descending list keeps it descending and adds exactly that element |
| Lists.SortDesc | server/routes/visits.ts:14 | `ORDER BY key DESC` returns a permutation of its input whose keys never increase |
| Lists.Filter | src/pages/Archive.tsx:30 | `Array.filter` keeps exactly the elements that pass |
| Lists.FilterFilter | src/pages/Archive.tsx:28-43 | two filters in a row are one filter by the conjunction |
| Lists.FilterSubsequence | src/pages/Archive.tsx:28-43 | a filter keeps the relative order of what it keeps |
| Lists.PrefixWithin | server/routes/audit.ts:15 | `LIMIT n` takes no entry more often than the whole result holds it |
| Lists.FilterAll | src/pages/Students.tsx:80 | a filter whose test passes every element keeps everything |
| Text.LexLeTotal | server/routes/visits.ts:14 | the BINARY collation compares any two strings |
| Text.LexLeTransitive | server/routes/visits.ts:14 | the BINARY collation is transitive |
| Text.LexLeAntisymmetric | server/routes/visits.ts:14 | strings each at most the other are equal |
| Text.TrimStart | src/pages/Students.tsx:77 | the result is a suffix, only white space was cut, and it does not start with white space |
| Text.TrimEnd | src/pages/Students.tsx:77 | the result is a prefix, only white space was cut, and it does not end with white space |
| Text.Trim | src/pages/Students.tsx:77 | `trim()` gives a slice of the input with white space, and only white space, cut from both ends |
| Text.TrimKeeps | src/pages/Students.tsx:77 | a string without white space at its ends is its own trim |
| Text.Digits | src/utils/whatsapp.ts:13 | `replace(/[^0-9]/g, '')` leaves only digits |
| Text.DigitsCounts | src/utils/whatsapp.ts:13 | every digit of the input is kept exactly as often as it occurs, and no other character is kept |
| Text.DigitsOfChar | src/utils/whatsapp.ts:13 | a single digit is kept and any other single character is removed; with `DigitsConcat` this fixes the result character by character |
| Text.DigitsConcat | src/utils/whatsapp.ts:13 | keeping digits distributes over concatenation, so the digits stay in input order |
| Text.DigitsOfDigits | src/utils/whatsapp.ts:13 | a string of digits is left as it is |
| Text.IntToString | src/pages/Students.tsx:77 | `String(n)` of a whole number is non-empty, all digits for `n >= 0`, and a minus sign followed by digits for `n < 0` |
| Text.NatToStringValue | src/pages/Students.tsx:77 | the decimal spelling of a natural number denotes that number and has no leading zero unless it is 0 |
| Text.IntToStringValue | src/pages/Students.tsx:77 | `String(n)` starts with `-` exactly when `n` is negative, and its digits denote `|n|` with no leading zero |
| WhatsApp.DropIntlPrefix | src/utils/whatsapp.ts:14 | a leading `00` is dropped once, anything else is kept |
| WhatsApp.CleanPhone | src/utils/whatsapp.ts:13-16 | the cleaned number is all digits: `968` followed by an 8-digit local number, or by a 9-digit one without its leading 0, otherwise the digits with `00` dropped |
| WhatsApp.OnlyDigitsMatter | src/utils/whatsapp.ts:13-16 | punctuation, spaces and letters never change the cleaned number |
| WhatsApp.CleanLocal | src/utils/whatsapp.ts:13-16 | any spelling whose digits are a subscriber number with or without `0`, `968`, `00968` cleans to `968` + number |
| WhatsApp.SpellingsAgree | src/utils/whatsapp.ts:13-16 | `n`, `0n`, `+968n`, `00968n` and `968n` give the same number |
| WhatsApp.InternationalIsFixed | src/utils/whatsapp.ts:13-16 | cleaning an already international 11-digit number changes nothing |
| WhatsApp.Link | src/utils/whatsapp.ts:22 | the link is the prefix, then the cleaned number, then the text field with the encoded message |
| WhatsApp.PhoneFieldIsDigits | src/utils/whatsapp.ts:22 | the phone field holds only digits, so the text field begins at the first `&` |
| WhatsApp.SendWhatsApp | src/utils/whatsapp.ts:6-35 | an empty or missing phone opens nothing; otherwise the app link is opened, and the web link follows exactly when opening the app throws |
| WhatsApp.FallbackSameQuery | src/utils/whatsapp.ts:31-34 | the fallback link carries the same number and message as the app link |
| StudentRoutes.FromBody | server/routes/students.ts:14-15 | the stored row is the body with the special-case flag normalised to 1 iff truthy |
| StudentRoutes.StudentCheck | server/db.ts:31-38 | the insert fails iff Name or Grade is NULL, naming the first such column |
| StudentRoutes.ListStudents | server/routes/students.ts:8-11 | GET returns every student row, in Id order, each with a name and grade |
| StudentRoutes.CreateStudent | server/routes/students.ts:13-18 | a NOT NULL failure escapes (500) and changes nothing; otherwise one row appended, one `CREATE_STUDENT` entry, the new Id returned |
| StudentRoutes.CreateThenRead | server/routes/students.ts:15-17 | the created student reads back under the returned Id; others unchanged |
| StudentRoutes.UpdateStudents | server/routes/students.ts:20-23 | the UPDATE fails iff the Id exists and the body lacks Name or Grade; otherwise the table keeps its constraints and mark |
| StudentRoutes.UpdateStudent | server/routes/students.ts:20-26 | PUT applies `UpdateStudents`, logs `UPDATE_STUDENT` on success, and changes nothing on failure |
| StudentRoutes.UpdateThenRead | server/routes/students.ts:23 | the updated row reads as the body, other rows as before; a missing Id changes nothing |
| StudentRoutes.Imported | server/routes/students.ts:31-40 | a bulk row keeps name and phone, gets `غير محدد` for a falsy grade, flag 0 and no condition |
| StudentRoutes.BulkNext | server/routes/students.ts:36-42 | one element: a taken name is skipped and changes nothing, an absent name aborts with the Name NOT NULL error, any other is appended under the next Id as its imported row and counted |
| StudentRoutes.BulkRun | server/routes/students.ts:34-45 | the transaction keeps all old rows as a prefix, adds `count` rows and raises the mark by `count`, or aborts with the NOT NULL error |
| StudentRoutes.BulkTransaction | server/routes/students.ts:34-45 | the loop computes exactly `BulkRun` |
| StudentRoutes.BulkStep | server/routes/students.ts:36-42 | the transaction over one more element is one more `BulkNext` |
| StudentRoutes.BulkLast | server/routes/students.ts:36-42 | after a successful transaction, its last element left the table as it was when its name was taken, and otherwise had a name and appended its imported row |
| StudentRoutes.BulkImport | server/routes/students.ts:28-55 | on abort nothing changes (500); on success the Students table is the transaction's, one `BULK_IMPORT_STUDENTS` entry with record 0, reply the count |
| StudentRoutes.BulkFailsWithPrefix | server/routes/students.ts:34-48 | a transaction that aborts on a prefix aborts on the whole array |
| StudentRoutes.BulkFailsIffNameMissing | server/routes/students.ts:31-45 | the import aborts exactly when some element has no name |
| StudentRoutes.BulkNamesPresent | server/routes/students.ts:36-42 | after a successful import every named element's name is on the roster |
| StudentRoutes.BulkAllPresent | server/routes/students.ts:38-42 | elements whose names are all present insert nothing and leave the table as it was |
| StudentRoutes.BulkIdempotent | server/routes/students.ts:34-45 | importing the same array again inserts nothing and returns count 0 |
| StudentRoutes.BulkAddsNoDuplicate | server/routes/students.ts:38-42 | every inserted row's name differs from every earlier row's, old or new |
| UserRoutes.PublicUsers | server/routes/users.ts:12 | one view per user row, in order, each the row without its password hash |
| UserRoutes.ListUsers | server/routes/users.ts:11-14 | Admin gets the public view of all users, anyone else 403 |
| UserRoutes.ListHidesHashes | server/routes/users.ts:12 | tables that differ only in password hashes list identically |
| UserRoutes.CreateCheck | server/routes/users.ts:20-24 | the INSERT fails iff Username or Role is NULL or the name is taken, with the matching constraint error |
| UserRoutes.AppendKeepsUnique | server/db.ts:23 | appending a user under a new name keeps usernames unique |
| UserRoutes.CreateUser | server/routes/users.ts:16-26 | a missing password throws before the insert; a constraint failure answers 400 and changes nothing; otherwise one active account appended, `CREATE_USER` logged, Id, name and role returned |
| UserRoutes.CreatedUserCanLogIn | server/routes/users.ts:16-22 | a new account logs in with its password when bcrypt's check accepts it |
| UserRoutes.EditUser | server/routes/users.ts:28-34 | a NULL role on an existing user escapes and changes nothing; otherwise that row gets the role and `isActive ? 1 : 0`, `UPDATE_USER` logged |
| UserRoutes.DeactivatedCannotLogIn | server/routes/users.ts:31 | a deactivated, unlocked account is refused as inactive whatever the password |
| UserRoutes.ResetPassword | server/routes/users.ts:36-43 | a missing password throws; otherwise that row gets the new hash and a zero failure counter, `RESET_PASSWORD` logged |
| UserRoutes.ResetUnlocks | server/routes/users.ts:40 | after a reset an active user logs in with the new password, however many failures came before |
| Login.FindByUsername | server/routes/auth.ts:13 | the lookup finds a row iff one has the name, and that row has it |
| Login.LoginStep | server/routes/auth.ts:13-39 | an attempt keeps every Id and username, the row count, the mark and the uniqueness of names |
| Login.PasswordUnusedBeforeCompare | server/routes/auth.ts:13-28 | while the lookup or an account check decides the outcome, the password is not consulted |
| Login.Login | server/routes/auth.ts:9-44 | the handler replies as `LoginStep`, writes its one audit entry and changes nothing else; without a password, once the comparison is reached, bcrypt throws and nothing is written |
| Login.UnknownUser | server/routes/auth.ts:15-18 | an unknown name gets 401 `Invalid credentials`, an entry with no user, and Users unchanged |
| Login.LockoutComesFirst | server/routes/auth.ts:20-23 | a counter at 5 or more gets 403 locked before the active flag or the password is consulted |
| Login.InactiveRefused | server/routes/auth.ts:25-28 | an unlocked inactive account gets 403 `Account is inactive`, one LOGIN_INACTIVE entry for that user, and Users unchanged |
| Login.WrongPasswordLooksUnknown | server/routes/auth.ts:32-36 | a wrong password raises that counter by one and gets the same reply as an unknown name |
| Login.SuccessResets | server/routes/auth.ts:38-43 | success sets the counter to 0, stamps LastLogin and leaves the rest of the row, logs LOGIN_SUCCESS, and answers with an 8h token over the row's own Id, name and role, which it also echoes |
| Login.FindAfterModify | server/routes/auth.ts:33-38 | after the found row is updated without renaming it, the lookup finds the updated row under the same Id |
| Login.OnlyMatchedUserChanges | server/routes/auth.ts:33-38 | rows of other users are untouched by any attempt |
| Login.Run | server/routes/auth.ts:9-44 | a series of requests, each from the state the last one left, gives one reply per request |
| Login.RunSplit | server/routes/auth.ts:9-44 | a series is its first k requests followed by the rest, from the state they leave |
| Login.Replay | server/routes/auth.ts:9-44 | a series of attempts gives one reply per attempt, each starting from the Users table the previous one left |
| Login.LockedStaysLocked | server/routes/auth.ts:20-23 | once locked, every later attempt with any password is refused and changes nothing |
| Login.WrongPasswordsCount | server/routes/auth.ts:32-36 | k wrong passwords below the threshold raise the counter by exactly k and change nothing else of the account |
| Login.FiveFailuresLock | server/routes/auth.ts:20-36 | from a clean counter five wrong passwords lock the account: every later attempt is refused as locked |
| SettingsRoutes.GetSettings | server/routes/settings.ts:8-11 | GET returns the row with Id 1, the only row the table can hold, or nothing when it is empty |
| SettingsRoutes.UpdatedSettings | server/routes/settings.ts:15-19 | the UPDATE replaces row 1 by the body's values, and changes nothing when there is no row |
| SettingsRoutes.UpdateSettings | server/routes/settings.ts:13-23 | Admin only; applies `UpdatedSettings` and logs `UPDATE_SETTINGS` for record 1 |
| SettingsRoutes.UpdateThenGet | server/routes/settings.ts:15-19 | GET after PUT gives the body's values when the row existed |
| SettingsRoutes.BackupData | server/routes/settings.ts:26-41 | Admin only; the reply is every row of the five tables and `BACKUP_DATA` is logged |
| SettingsRoutes.FirstSettings | server/routes/settings.ts:57-62 | restore writes the first backed-up settings row, else empty names and no logo |
| SettingsRoutes.RestoredAll | server/routes/settings.ts:89-94 | each restored referral keeps Id and the columns restore writes; Age, Gender, History and ReferralTime become NULL |
| SettingsRoutes.RestoredRows | server/routes/settings.ts:90-92 | the same, on table rows |
| SettingsRoutes.RestoredSettings | server/routes/settings.ts:54-62 | after restore the Settings table holds exactly row 1 |
| SettingsRoutes.RestoreRun | server/routes/settings.ts:48-95 | a committed restore changes only the five tables, leaves them well formed with exactly one settings row, and always fails with FKs enforced while an appointment names a student |
| SettingsRoutes.RestoreLoadsDocument | server/routes/settings.ts:64-94 | a committed restore holds one row per backed-up student, visit, follow-up and referral, each backed-up Id with its values (referrals in their restored form) |
| SettingsRoutes.RestoreTransaction | server/routes/settings.ts:48-97 | the statements of the transaction compute exactly `RestoreRun` |
| SettingsRoutes.Restore | server/routes/settings.ts:44-104 | Admin only; a failed transaction answers 500 and changes nothing; else the state is `RestoreRun`'s plus `RESTORE_DATA` |
| SettingsRoutes.RestoreThenBackup | server/routes/settings.ts:26-95 | a backup right after a successful restore has as many rows per table as the restored document, each of its entries with an Id under that Id (referrals without the four unwritten columns), and settings row 1 |
| SettingsRoutes.BackupThenRestore | server/routes/settings.ts:26-95 | restoring the database's own backup gives back every row with its Id, except the referral columns restore does not write |
| SettingsRoutes.StudentsLoadBack | server/routes/settings.ts:64-70 | the dumped students load back exactly into the emptied table |
| SettingsRoutes.VisitsLoadBack | server/routes/settings.ts:72-78 | the dumped visits load back exactly |
| SettingsRoutes.FollowUpsLoadBack | server/routes/settings.ts:80-86 | the dumped follow-ups load back exactly |
| SettingsRoutes.ReferralsLoadBack | server/routes/settings.ts:88-94 | the dumped referrals load back as their restored form |
| SettingsRoutes.RestoreBlockedByAppointments | server/routes/settings.ts:53 | with FKs enforced, one appointment naming a student makes every restore fail |
| SettingsRoutes.ResetRun | server/routes/settings.ts:109-115 | reset fails iff FKs are enforced and an appointment names a student; else the four tables are empty with marks kept, Users, Settings and audit untouched |
| SettingsRoutes.ResetYear | server/routes/settings.ts:107-123 | Admin only; a failed transaction answers 500 and changes nothing; else `ResetRun` plus `RESET_NEW_YEAR` |
| SettingsRoutes.ResetIdempotent | server/routes/settings.ts:109-115 | resetting twice is resetting once |
| SettingsRoutes.ResetNeverReusesIds | server/routes/settings.ts:113 | after a reset the next student Id is above every deleted student's |
| VisitRoutes.ListVisits | server/routes/visits.ts:8-17 | newest first, and a visit joined row is listed iff its row is stored and its student and creator exist |
| VisitRoutes.ListingIsComplete | server/routes/visits.ts:9-15 | with every student and creator present, no visit is dropped |
| VisitRoutes.CreateVisit | server/routes/visits.ts:19-28 | staff only; a refused INSERT escapes and changes nothing; else the visit is appended with 0/1 flags and the caller as creator, `CREATE_VISIT` logged |
| VisitRoutes.CreatedVisitIsListed | server/routes/visits.ts:19-27 | a recorded visit whose student and creator exist is listed under the returned Id |
| VisitRoutes.MarkNotified | server/routes/visits.ts:30-35 | staff only; sets the flag and sent date on that visit only and logs `WHATSAPP_NOTIFIED` |
| VisitRoutes.NotifiedReadsBack | server/routes/visits.ts:32 | the visit reads back notified at that time, otherwise unchanged |
| VisitRoutes.NotifyTwice | server/routes/visits.ts:32 | marking twice at the same time is marking once |
| SpecialCaseRoutes.ListFollowUps | server/routes/specialCases.ts:8-17 | latest follow-up date first; a row is listed iff stored with its student and creator present |
| SpecialCaseRoutes.ListingIsComplete | server/routes/specialCases.ts:9-15 | with every partner present, no follow-up is dropped |
| SpecialCaseRoutes.CreateFollowUp | server/routes/specialCases.ts:19-28 | staff only; a refused INSERT changes nothing; else one row appended, `CREATE_SPECIAL_CASE` logged |
| SpecialCaseRoutes.CreatedFollowUpIsListed | server/routes/specialCases.ts:19-27 | a recorded follow-up with existing partners is listed under the returned Id |
| SpecialCaseRoutes.MarkNotified | server/routes/specialCases.ts:30-35 | staff only; sets the flag on that row only and logs `WHATSAPP_NOTIFIED` |
| SpecialCaseRoutes.NotifiedReadsBack | server/routes/specialCases.ts:32 | the row reads back notified, otherwise unchanged |
| SpecialCaseRoutes.NotifyTwice | server/routes/specialCases.ts:32 | marking twice is marking once |
| ReferralRoutes.ListReferrals | server/routes/referrals.ts:8-17 | newest first; a row is listed iff stored with its student and creator present |
| ReferralRoutes.ListingIsComplete | server/routes/referrals.ts:9-15 | with every partner present, no referral is dropped |
| ReferralRoutes.CreateReferral | server/routes/referrals.ts:19-28 | staff only; a refused INSERT changes nothing; else one row appended with the caller as creator, `CREATE_REFERRAL` logged |
| ReferralRoutes.CreatedReferralIsListed | server/routes/referrals.ts:19-27 | a recorded referral with existing partners is listed under the returned Id |
| ReferralRoutes.MarkNotified | server/routes/referrals.ts:30-35 | staff only; sets the flag on that row only and logs `WHATSAPP_NOTIFIED` |
| ReferralRoutes.NotifiedReadsBack | server/routes/referrals.ts:32 | the row reads back notified, otherwise unchanged |
| ReferralRoutes.NotifyTwice | server/routes/referrals.ts:32 | marking twice is marking once |
| ClinicAppointmentRoutes.ListAppointments | server/routes/clinic-appointments.ts:8-16 | latest date first, joined with the student only; a row is listed iff its student exists |
| ClinicAppointmentRoutes.ListingIgnoresUsers | server/routes/clinic-appointments.ts:9-14 | every appointment whose student exists is listed, whatever happened to the users |
| ClinicAppointmentRoutes.CreateAppointment | server/routes/clinic-appointments.ts:18-23 | no role check; a refused INSERT changes nothing; else one row appended, `CREATE_CLINIC_APPOINTMENT` logged |
| ClinicAppointmentRoutes.CreatedAppointmentIsListed | server/routes/clinic-appointments.ts:18-22 | a booked appointment whose student exists is listed under the returned Id |
| ClinicAppointmentRoutes.MarkNotified | server/routes/clinic-appointments.ts:25-30 | sets the flag on that row only and logs `WHATSAPP_CLINIC_APPOINTMENT` |
| ClinicAppointmentRoutes.NotifiedReadsBack | server/routes/clinic-appointments.ts:27 | the row reads back notified, otherwise unchanged |
| ClinicAppointmentRoutes.NotifyTwice | server/routes/clinic-appointments.ts:27 | marking twice is marking once |
| ClinicAppointmentRoutes.DeleteAppointment | server/routes/clinic-appointments.ts:32-37 | removes exactly that Id and logs `DELETE_CLINIC_APPOINTMENT` |
| ClinicAppointmentRoutes.DeletedIsGone | server/routes/clinic-appointments.ts:34 | the deleted appointment is gone from the listing; every other Id reads as before |
| AuditRoutes.WithUsername | server/routes/audit.ts:13 | the LEFT JOIN gives an entry its user's name iff that user exists |
| AuditRoutes.LeftJoin | server/routes/audit.ts:11-13 | the left join keeps every entry, in order |
| AuditRoutes.RecentLog | server/routes/audit.ts:10-16 | at most 500 entries, newest first, each a stored entry with its username, and no joined entry listed more often than it occurs |
| AuditRoutes.AuditLog | server/routes/audit.ts:7-18 | Admin gets the recent log, anyone else 403 |
| AuditRoutes.OnlyOlderEntriesDropped | server/routes/audit.ts:14-15 | an entry left out by the limit is no newer than any listed one |
| AuditRoutes.OrphanEntriesKept | server/routes/audit.ts:13 | an entry whose user is gone is listed with a NULL username |
| DashboardRoute.CountOn | server/routes/dashboard.ts:11-13 | the count is at most the rows, all of them iff every date is today, 0 iff none is |
| DashboardRoute.CountOnConcat | server/routes/dashboard.ts:11 | counting a longer log counts the shorter one first |
| DashboardRoute.NewVisitCountsToday | server/routes/dashboard.ts:11 | a visit stamped today raises today's count by exactly one |
| DashboardRoute.SchoolName | server/routes/dashboard.ts:27 | the stored name unless the row is missing or the name NULL or empty, then `المدرسة` |
| DashboardRoute.WeekDays | server/routes/dashboard.ts:18-21 | one date per visit whose date is on or after the week start, each on or after it, and every such visit's date among them |
| DashboardRoute.WeekDaysFromCounted | server/routes/dashboard.ts:18-21 | every counted date is the date of a visit of the week |
| DashboardRoute.CountForAt | server/routes/dashboard.ts:22-23 | in ascending groups a present day's count is its group's |
| DashboardRoute.CountForAbsent | server/routes/dashboard.ts:22-23 | a day with no group counts 0 |
| DashboardRoute.GroupsExplained | server/routes/dashboard.ts:22-23 | each group carries its date's multiplicity and every date has a group |
| DashboardRoute.Tally | server/routes/dashboard.ts:22 | adding one visit keeps the groups strictly ascending |
| DashboardRoute.TallyCounts | server/routes/dashboard.ts:22 | tallying day d adds one to d's count and leaves every other day alone |
| DashboardRoute.TallyTotal | server/routes/dashboard.ts:22 | tallying adds one to the total and never creates an empty group |
| DashboardRoute.Histogram | server/routes/dashboard.ts:22-23 | `GROUP BY ... ORDER BY date` gives strictly ascending dates |
| DashboardRoute.HistogramGroups | server/routes/dashboard.ts:18-24 | the histogram groups exactly the dates it was built from, and its total is their number |
| DashboardRoute.WeeklyStats | server/routes/dashboard.ts:18-24 | ascending dates, each on or after the week start, each counted at least once |
| DashboardRoute.WeeklyStatsCountEveryVisit | server/routes/dashboard.ts:18-24 | the chart counts every visit of the week exactly once per day |
| DashboardRoute.Dashboard | server/routes/dashboard.ts:8-33 | counts bounded by their tables, a non-empty school name, weekly dates ascending |
| Roster.Get | src/pages/Students.tsx:77 | `row[key]` finds a cell iff the row has that header |
| Roster.KeysOf | src/pages/Students.tsx:65 | `Object.keys` lists the row's headers in order |
| Roster.Find | src/pages/Students.tsx:67-69 | `keys.find` returns the first key passing the test, and none iff none does |
| Roster.HeaderTestsSimplify | src/pages/Students.tsx:67-68 | the name and grade tests reduce to `اسم`/`name` and `صف`/`grade` |
| Roster.Mapped | src/pages/Students.tsx:76-79 | one object per row, in row order |
| Roster.ToItems | src/pages/Students.tsx:76-80 | the objects kept all have names and come from rows, every row with a non-empty name is kept, in row order, and there are exactly as many as named rows |
| Roster.SentItems | src/pages/Students.tsx:76-80 | each filtered object comes from a row, and each named row's object is among them |
| Roster.ParseWith | src/pages/Students.tsx:67-85 | no name header stops the import; otherwise the objects posted are the named rows, and nothing is posted when there are none |
| Roster.ParseSheet | src/pages/Students.tsx:59-85 | an empty sheet stops; otherwise the headers searched are the first row's keys |
| Roster.ImportedItemsNeverAbort | src/pages/Students.tsx:76-80 | the array posted never makes the bulk import abort |
| Roster.SheetKeys | src/pages/Students.tsx:64-65 | the corrected header list holds every header of every row |
| Roster.SheetKeysFindEveryColumn | src/pages/Students.tsx:65-69 | with the whole sheet's headers, a column present in any row is detected |
| Roster.ParseSheetAllColumns | src/pages/Students.tsx:59-85 | the corrected import searches the headers of the whole sheet |
| Roster.NameHeaderOnly | src/pages/Students.tsx:67-69 | `الاسم` is detected as the name column and as nothing else |
| Roster.CleanedWords | src/pages/Students.tsx:77 | a text cell without outer white space is read as it is |
| Roster.FirstRowHidesPhoneColumn | src/pages/Students.tsx:64-79 | as written, a first row without a phone cell loses the second row's phone |
| Roster.AllColumnsKeepPhone | src/pages/Students.tsx:64-79 | with the whole sheet's headers the second row's phone is imported |
| Archive.Endpoint | src/pages/Archive.tsx:22-24 | special cases and referrals each for their own choice, visits for anything else |
| Archive.Fetch | src/pages/Archive.tsx:26 | the fetched list holds only records of the chosen type, as many as that route's listing has rows |
| Archive.DateOf | src/pages/Archive.tsx:34 | `DateTime \|\| FollowUpDate`: the first unless falsy; a visit or referral without a date has `undefined`, a follow-up its follow-up date, `null` when NULL |
| Archive.Instant | src/pages/Archive.tsx:35 | `new Date(x)`: NaN for `undefined`, the epoch for `null`, the parsed instant for a string |
| Archive.Search | src/pages/Archive.tsx:28-47 | the search throws (results unchanged) iff the name filter is set and some record lacks a student name |
| Archive.SearchStages | src/pages/Archive.tsx:28-43 | the search is the name, start and end stages in a row, each a filter that passes everything when its field is empty |
| Archive.SearchIsOneFilter | src/pages/Archive.tsx:28-43 | the three optional filters are one filter by the conjunction of the filled-in tests |
| Archive.SearchFinds | src/pages/Archive.tsx:28-43 | a record is found iff it was fetched and passes every filled-in filter |
| Archive.SearchKeepsOrder | src/pages/Archive.tsx:28-45 | the results are the fetched list with some records left out, in order |
| Archive.EmptyFiltersKeepAll | src/pages/Archive.tsx:28-43 | with every field empty the whole list is shown |
| Archive.BoundsInclusive | src/pages/Archive.tsx:32-43 | a record dated at a bound is kept |
| Archive.InvalidStartFindsNothing | src/pages/Archive.tsx:32-37 | an unreadable start date leaves nothing, as no comparison with NaN holds |
| Archive.NullFollowUpDateIsEpoch | src/pages/Archive.tsx:32-43 | a follow-up with a NULL date is dated at the epoch: kept by any end date from 1970 on, by a start date only at or before it |
| Archive.NullFollowUpKeptByEndDate | src/pages/Archive.tsx:39-43 | such a follow-up is found by an end date alone that is not before 1970 |
| Archive.UndatedRecordDropped | src/pages/Archive.tsx:32-43 | a visit or referral without a date is dropped by any filled-in date filter |
| Archive.FetchedNamesPresent | src/pages/Archive.tsx:26-30 | every record fetched from a well-formed database names its student |
| Archive.SearchOfStoredRecordsSucceeds | src/pages/Archive.tsx:26-31 | searching what the routes list never throws |

## Left out

- Reading the workbook (XLSX), `FileReader`, `alert`, `confirm` and `apiFetch` are left out. The roster import ends with the array it would post. The archive search starts from the list the route returns.
- JWT signing, the secret and expiry enforcement are left out. A token is the claims it carries plus the lifetime `8h`.
- bcrypt is left out. `hashSync` and `compareSync` are parameters. A missing password makes either of them throw, which is the `HashThrew` reply.
- Login.Login: the username is a string. A login body without a username, which the store driver would be asked to bind as `undefined`, is not modelled.
- `toLowerCase`, `encodeURIComponent`, SQLite's `date()` and JavaScript's `new Date(...)` of a string are parameters. In the archive search `new Date(undefined)` is NaN and `new Date(null)` is the epoch, as JavaScript defines them.
- `CURRENT_TIMESTAMP`, today's date and `date('now', '-7 days')` are parameters. Which rows they match is decided by those parameters.
- `window.open` is left out. `SendWhatsApp` returns the links it opens, and whether opening the app throws is the parameter `appOpens`.
- Gate.Authenticate: only the assignment of the fixed identity is modelled. As written, every role check behind it passes. The handlers still state the Forbidden branch for any other caller.
- Path Ids are whole numbers. A non-numeric `:id` (which SQLite compares as text and never matches) is not modelled.
- JSON numbers are whole numbers. Floating-point values, and cells holding them, are not modelled.
- A JSON body that is not an object or array (for instance `null` for bulk import or restore) is not modelled.
- SQLite's 64-bit rowid limit and AUTOINCREMENT exhaustion are not modelled.
- The order of rows with equal sort keys under `ORDER BY` is one fixed choice. SQLite leaves it open.
- `Object.keys` lists integer-like keys first in JavaScript. The model keeps header order.
- The FOREIGN KEY on `AuditLogs.UserId` is not modelled. Entries are always written.
- DATETIME columns are modelled as nullable text. A numeric-looking value, which SQLite's NUMERIC affinity would store as a number (changing `ORDER BY` and what `new Date` sees), is not represented; the app itself writes `CURRENT_TIMESTAMP` and form date strings.
- The four `ALTER TABLE Referrals ADD COLUMN` migrations (server/db.ts:133-137) are not modelled. The columns are always present.
- Concurrency between requests is not modelled. Each handler runs alone, so a transaction is simply a function of the state before it.
- Express routing, the HTTP status of successful replies, and the JSON shape of error bodies are left out. Replies carry a status and a message.
- Login.LoginStep: its own contract states only what every attempt keeps. The outcome of each branch is stated by the lemmas `UnknownUser`, `LockoutComesFirst`, `InactiveRefused`, `WrongPasswordLooksUnknown` and `SuccessResets`; the missing password is stated by `Login`.
- SettingsRoutes.RestoreThenBackup: states the counts and that every restored entry carrying an Id is backed up under it. Entries without an Id get fresh Ids, so the lemma does not state the backup equal to the document.
- DashboardRoute.Dashboard: each count is stated through `CountOn`, and the weekly chart through `WeeklyStats`. Its own contract states only bounds and shape.

## Where the expected behaviour and the code differ

- A backup and restore pair, as the route names suggest, would be expected to reproduce the rows; it does not for referrals. The restore INSERT (server/routes/settings.ts:90) omits Age, Gender, History and ReferralTime, so these come back NULL. The model follows the code: `SettingsRoutes.RestoreThenBackup` states restore then backup for any restored document, with referrals through `Restored`; `SettingsRoutes.BackupThenRestore` states the other direction, backup then restore of the database's own snapshot, through `RestoredRows`.
- Nothing in the restore and reset routes suggests that, with foreign keys enforced, a clinic appointment naming a student blocks restore and reset-year. The model follows the code: `DELETE FROM Students` violates the appointment's FOREIGN KEY, and clinic appointments are not deleted first. The clinic-appointments router is never mounted by server.ts:29-37, so in the shipped server `ClinicAppointmentRoutes.CreateAppointment`, `MarkNotified` and `DeleteAppointment` cannot be reached over HTTP; the model still states what those handlers do. An appointment that blocks restore or reset can then only come from rows already in the database.

## Findings

| source | as written | input that shows it | evidently intended | confidence | as-written member | corrected member |
|---|---|---|---|---|---|---|
| src/pages/Students.tsx:64-69 | the headers searched for the name, grade and phone columns are `Object.keys` of the first record only; the spreadsheet library omits empty cells, so a column whose first-row cell is empty is not found | a sheet whose first data row has a name but an empty guardian-phone cell, and whose second row has the phone `99123456` under `هاتف ولي الأمر`: the second student is imported with phone `""` | search the headers of every row, so each column present anywhere is recognised | medium; not executed | Roster.FirstRowHidesPhoneColumn | Roster.AllColumnsKeepPhone |

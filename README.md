# School Management System — records layer, session and CSV handling

This project models the logic under the Swing front end of the School Management System, a desktop
application that keeps students, teachers, subjects, class levels, teacher assignments, attendance and
administrator accounts in a relational database. It also proves properties of that logic.

- **The store (`DB`, `StoreSpec`, `Schema`, `Tables`).** The database is an in-memory store: one
  sequence of row records per table, keyed by integer ids. The store keeps its PRIMARY KEY and UNIQUE
  constraints as the class invariant `Valid()`. `Database` models the repository class against the
  SQLite fallback store; how the MySQL store differs is listed under "Left out". It covers:
  - schema provisioning: the tables are created, and the case-insensitive `profile_pic` column is
    added only where it is missing;
  - the one-time migration of plaintext passwords to hashes;
  - login validation;
  - admin writes that never store plaintext, and the last-admin guard on delete;
  - add/update/delete/fetch/count of the other entities, with their joins;
  - the search-column selector and the case-insensitive substring search;
  - the import batches, which commit row by row;
  - the transactional delete-then-insert of attendance;
  - the per-class student counts.
- **Class deletion and names (`Services`).** `DataService` checks students first, then teacher
  assignments, before it deletes a class. It also resolves class names, falling back to `"N/A"` and
  `"Error"`.
- **Moving to the other backend (`Migration`).** `DataSource.performMigrationIfNeeded` copies tables
  from the fallback (SQLite) store into the primary (MySQL) store, with two stores of untyped positional
  rows.
  - The copy is guarded by the persisted `mysql_migrated` flag and by a "primary students table is
    non-empty" check.
  - Five tables are copied in a fixed order, with the column counts the source passes.
  - The `INSERT … VALUES (?,…,?)` text is built by the model.
- **The administrator session (`Auth`).** `AuthService` keeps two preference keys (`isAdminLoggedIn`,
  `lastAdminUser`) and the shared `Admin` object. It covers login, logout and auto-login.
- **CSV (`StringUtils`, `Csv`, `Files`).** These model quote escaping in the style of RFC 4180,
  section 2, items 6–7, the export of a table model as lines, and the import.
  - The import reads the file line by line, splits each line at the commas that lie outside quotes,
    maps the fields to a student or teacher, and hands the rows over as one batch.
  - The conflict message is chosen from the SQLite result code 19.
- **The admin dialog (`AdminForm`).** `AddAdmin.onOK` validates the form in order, copies the fields
  into the shared admin, and then calls `updateAdmin` or `signUp`.

BCrypt is replaced by `Password.Hash`. It is a deterministic stand-in that keeps the two facts the code
relies on: every hash begins with `"$2"`, and a password checks against its own hash. Exceptions are
values of `Wrappers.Failure`. A void method that may throw returns an `Outcome`.

These are modelled as written, not fixed:
- `migrateTable` copies 7 student and 6 teacher columns into tables whose schema has 8 and 7.
  `FirstAttemptFailsAtStudents` and `RetryFailsAtAdmin` show the consequences.
- Usernames are not unique, and login checks only the first row with that name
  (`LoginChecksFirstRowOnly`). Auto-login takes the first admin with the remembered username in
  `fetchAllAdmins`' listing, which is sorted by name. So with a shared username the next start can
  restore another admin's account (`SharedUserNameRestoresOtherAdmin`).
- Search by id is a substring match (`IdSearchIsSubstring`).
- Setup is not idempotent from a legacy layout with a teachers table without `profile_pic` and no
  students table: the missing students table ends the column migration before teachers is looked
  at, so only the second run adds the column (`SetupNotIdempotentFromLegacyTeachers`).
- The migration takes any password starting with `"$2"` for a hash, so such a plaintext password is
  kept and its login then throws (`MarkedPlaintextBreaksLogin`).
- The student export writes the class *name* where the import parses an integer
  (`ClassNameColumnBreaksImport`).

## Model

| member | source | states |
|---|---|---|
| Schema.AddPicIfAbsent | src/school/management/system/data/DB.java:1153-1164 | the result has a `profile_pic` column; columns that already have one (ignoring case) are returned unchanged, otherwise `profile_pic` is appended |
| Schema.ProfilePicMigrated | src/school/management/system/data/DB.java:1150-1183 | no table is added or dropped; students gets `profile_pic` if absent; teachers only when students exists (a missing students table aborts the rest through the catch); every other table is untouched |
| Schema.TablesCreated | src/school/management/system/data/DB.java:59-140 | `CREATE TABLE IF NOT EXISTS`: existing tables keep their columns, missing canonical tables are created with the canonical columns |
| Schema.CanonicalHasPictures | src/school/management/system/data/DB.java:60-89 | freshly created students and teachers tables already have `profile_pic` |
| Schema.SetupProvisions | src/school/management/system/data/DB.java:53-146 | after setup every canonical table exists and students has `profile_pic`; teachers has it too unless teachers existed without students |
| Schema.SetupFixedPoint | src/school/management/system/data/DB.java:53-146 | a fully provisioned layout is not changed by setup |
| Schema.SetupIdempotent | src/school/management/system/data/DB.java:53-146 | running setup twice leaves the schema as one run did, from every layout except a legacy teachers table without students |
| Schema.SetupStable | src/school/management/system/data/DB.java:53-146 | from any layout, a third setup changes nothing |
| Schema.SetupNotIdempotentFromLegacyTeachers | src/school/management/system/data/DB.java:1150-1183 | a concrete layout (teachers without `profile_pic`, no students) where the second setup still alters teachers |
| DB.Database.MigrateProfilePicColumns | src/school/management/system/data/DB.java:1150-1183 | the layout becomes `ProfilePicMigrated` of the old one; the rows are untouched |
| DB.Database.HasProfilePic | src/school/management/system/data/DB.java:1155-1160 | the column scan finds a column exactly when some column name equals `profile_pic` ignoring case |
| DB.Database.Setup | src/school/management/system/data/DB.java:53-146 | the layout after profile-pic migration and table creation, the admins after password migration, nothing else changed, invariant kept |
| StoreSpec.PendingHashes | src/school/management/system/data/DB.java:1197-1208 | its keys are exactly the ids of rows whose password is non-null and does not start with `"$2"` |
| StoreSpec.PendingHashOfRow | src/school/management/system/data/DB.java:1197-1208 | with unique ids, the value collected for such a row is the hash of its plaintext |
| StoreSpec.MigratedAdmins | src/school/management/system/data/DB.java:1193-1222 | same rows with ids, names and usernames kept; every plaintext password replaced by its hash; hashed and null passwords untouched; no row left needing a hash |
| StoreSpec.MigrationIdempotent | src/school/management/system/data/DB.java:1193-1222 | a second migration collects nothing to update and changes nothing |
| StoreSpec.PendingHashesApplied | src/school/management/system/data/DB.java:1210-1221 | updating each collected id with its collected hash gives `MigratedAdmins` |
| DB.Database.CollectPending | src/school/management/system/data/DB.java:1197-1208 | the while loop builds exactly `PendingHashes`, with each collected id listed once |
| DB.Database.ApplyPending | src/school/management/system/data/DB.java:1210-1221 | each row gets its collected hash, the rest are left as they were; one update per collected id |
| DB.Database.MigratePasswordsToHashes | src/school/management/system/data/DB.java:1193-1222 | the admins become `MigratedAdmins` of the old ones and nothing else changes; zero updates exactly when no row held plaintext |
| Password.Hash | src/school/management/system/util/PasswordUtil.java:20-22 | every hash begins with the `"$2"` version mark |
| Password.CheckHash | src/school/management/system/util/PasswordUtil.java:31-33 | a password checks against its own hash, and no other password checks against it |
| Password.CheckPassword | src/school/management/system/util/PasswordUtil.java:31-33 | a null stored value throws; a stored value not starting with `"$2"` throws "Invalid salt version", and one with a revision other than none or `a` throws "Invalid salt revision"; it returns a verdict exactly when the stored value has the `"$2$"` or `"$2a$"` header, and then true exactly when it is the hash of the password, a null password taken as the text "null" |
| Password.ValueOf | src/school/management/system/util/PasswordUtil.java:20-22 | the text `hashpw` hashes: a null password becomes "null", any other password is itself |
| StoreSpec.FirstWithUserName | src/school/management/system/data/DB.java:155-172 | the index of the first row with the username, with no earlier row matching, or none when no row matches |
| StoreSpec.LoginCharacterised | src/school/management/system/data/DB.java:155-172 | login gives true exactly when the first row with that username exists and stores the hash of the password |
| StoreSpec.LoginChecksFirstRowOnly | src/school/management/system/data/DB.java:155-172 | with two admins sharing a username (the column is not UNIQUE), the second one's password is refused |
| StoreSpec.LoginAfterMigration | src/school/management/system/data/DB.java:1193-1222 | once every stored password is migrated, login never throws "Invalid salt version", and throws nothing when every password was plaintext or had a hash header |
| StoreSpec.MarkedPlaintextBreaksLogin | src/school/management/system/data/DB.java:1197-1208 | a plaintext password starting with `"$2b"` is kept by the migration, and logging in with it throws "Invalid salt revision" |
| DB.Database.ValidateLogin | src/school/management/system/data/DB.java:155-172 | the result is the login decision; only on true does the admin take the row's id and name, keeping its username and password; otherwise the admin is untouched |
| DB.Database.SignUp | src/school/management/system/data/DB.java:180-189 | a null name or username fails NOT NULL with code 19 and writes nothing; otherwise one row with a fresh id and the hash of the password (of the text "null" for a null password) is appended, never plaintext |
| StoreSpec.LoginAfterSignUp | src/school/management/system/data/DB.java:180-189 | after signing up under a username no row has, login accepts exactly the password signed up with |
| StoreSpec.AdminUpdated | src/school/management/system/data/DB.java:1098-1118 | id kept, name and username replaced; a null or empty password keeps the stored hash, any other one is stored hashed |
| StoreSpec.AdminsUpdated | src/school/management/system/data/DB.java:1098-1118 | same number of rows with the same ids; rows with another id are unchanged |
| StoreSpec.AdminsUpdatedKeepHashes | src/school/management/system/data/DB.java:1098-1118 | an update never brings a plaintext password into a migrated table |
| StoreSpec.LoginAfterUpdate | src/school/management/system/data/DB.java:1098-1118 | after an update with a new password, login under the new username accepts exactly that password |
| DB.Database.UpdateAdmin | src/school/management/system/data/DB.java:1098-1118 | an unknown id updates nothing and succeeds; null name or username fails NOT NULL and writes nothing; otherwise the row with the id is rewritten as `AdminsUpdated` |
| DB.Database.DeleteAdmin | src/school/management/system/data/DB.java:1127-1143 | with one admin or none it throws IllegalState and deletes nothing; otherwise exactly the rows with that id go and an admin always remains |
| StoreSpec.WithoutPasswords | src/school/management/system/data/DB.java:1074-1089 | the same rows in the same order with the password left unset |
| DB.Database.FetchAllAdmins | src/school/management/system/data/DB.java:1074-1089 | every admin row with its id, name and username and no password |
| DB.Database.AddStudent | src/school/management/system/data/DB.java:218-232 | the student is appended under a fresh id; nothing else changes |
| DB.Database.AddTeacher | src/school/management/system/data/DB.java:197-210 | the teacher is appended under a fresh id; nothing else changes |
| DB.Database.UpdateStudent | src/school/management/system/data/DB.java:287-300 | the row with the student's id is replaced and no other |
| DB.Database.UpdateTeacher | src/school/management/system/data/DB.java:308-320 | the row with the teacher's id is replaced and no other |
| DB.Database.DeleteStudent | src/school/management/system/data/DB.java:848-854 | exactly the students with that id are removed |
| DB.Database.DeleteTeacher | src/school/management/system/data/DB.java:834-840 | exactly the teachers with that id are removed |
| DB.Database.FetchAllStudents | src/school/management/system/data/DB.java:408-419 | all stored students |
| DB.Database.FetchAllTeachers | src/school/management/system/data/DB.java:427-438 | all stored teachers |
| DB.Database.GetStudentsByClass | src/school/management/system/data/DB.java:863-874 | exactly the stored students of that class level, in stored order |
| DB.Database.CountStudentsInClass | src/school/management/system/data/DB.java:588-596 | the number of students of the class; zero exactly when none has that level |
| DB.Database.CountAssignmentsForClass | src/school/management/system/data/DB.java:605-613 | the number of assignments for the class; zero exactly when none is for that level |
| DB.Database.AddSubject | src/school/management/system/data/DB.java:465-471 | a taken name fails UNIQUE with code 19 and writes nothing; otherwise the subject is appended under a fresh id |
| DB.Database.UpdateSubject | src/school/management/system/data/DB.java:479-486 | unknown id: no change; a name another subject has fails UNIQUE and writes nothing; otherwise that row is replaced |
| DB.Database.DeleteSubject | src/school/management/system/data/DB.java:494-500 | the subject rows with the id go; no joined assignment names the deleted subject afterwards |
| DB.Database.FetchAllSubjects | src/school/management/system/data/DB.java:446-457 | all stored subjects |
| DB.Database.AddClass | src/school/management/system/data/DB.java:527-533 | a taken name fails UNIQUE with code 19 and writes nothing; otherwise the class is appended under a fresh id |
| DB.Database.UpdateClass | src/school/management/system/data/DB.java:541-548 | unknown id: no change; a name another class has fails UNIQUE and writes nothing; otherwise that row is replaced |
| DB.Database.DeleteClass | src/school/management/system/data/DB.java:556-562 | exactly the class rows with that id are removed |
| DB.Database.FetchAllClasses | src/school/management/system/data/DB.java:508-519 | all stored class levels |
| StoreSpec.ClassNameOf | src/school/management/system/data/DB.java:571-579 | a name of a class with that id, or none when no class has it |
| DB.Database.GetClassNameById | src/school/management/system/data/DB.java:571-579 | the name of the class with that id, or null when there is none |
| DB.Database.AddTeacherAssignment | src/school/management/system/data/DB.java:667-675 | the assignment is appended under a fresh id |
| DB.Database.DeleteTeacherAssignment | src/school/management/system/data/DB.java:683-689 | exactly the assignments with that id are removed |
| StoreSpec.JoinAllSound | src/school/management/system/data/DB.java:623-657 | every joined row comes from a stored assignment and carries the names of an existing teacher and subject with those ids |
| StoreSpec.JoinAllComplete | src/school/management/system/data/DB.java:623-657 | every assignment whose teacher and subject exist appears in the join |
| StoreSpec.JoinAllWithoutSubject | src/school/management/system/data/DB.java:623-657 | an inner join never shows a subject id that no subject row has |
| DB.Database.SelectAssignments | src/school/management/system/data/DB.java:715-716 | the loop keeps exactly the assignments that pass the WHERE condition, in table order |
| DB.Database.JoinRows | src/school/management/system/data/DB.java:632-653 | the row loop over the two inner joins yields exactly `JoinAll`, which `JoinAllSound` and `JoinAllComplete` characterise |
| DB.Database.JoinWhere | src/school/management/system/data/DB.java:699-729 | the joined rows are exactly those of the assignments that pass the condition |
| DB.Database.GetTeacherAssignments | src/school/management/system/data/DB.java:623-657 | the inner join of all assignments with teachers and subjects |
| DB.Database.GetAssignmentsForTeacher | src/school/management/system/data/DB.java:699-729 | the join restricted to the teacher; every row returned is that teacher's |
| DB.Database.GetAssignmentsForClass | src/school/management/system/data/DB.java:739-769 | the join restricted to the class level; every row returned is for that level |
| StoreSpec.StudentColumnFor | src/school/management/system/data/DB.java:353-360 | options 0, 1 and 2 select a column; any other option is an IllegalArgument naming it |
| StoreSpec.TeacherColumnFor | src/school/management/system/data/DB.java:391-400 | options 0 to 4 select a column; any other option is an IllegalArgument naming it |
| StoreSpec.StudentColumnsDistinct | src/school/management/system/data/DB.java:353-360 | different options select different columns (id, first name, last name) |
| StoreSpec.TeacherColumnsDistinct | src/school/management/system/data/DB.java:391-400 | different options select different columns (id, name, contact, email, address) |
| DB.Database.SearchStudent | src/school/management/system/data/DB.java:330-344 | a bad option throws; otherwise exactly the students whose selected column contains the term ignoring case, in stored order |
| DB.Database.SearchTeacher | src/school/management/system/data/DB.java:370-382 | a bad option throws; otherwise exactly the teachers whose selected column contains the term ignoring case, in stored order |
| StoreSpec.IdSearchIsSubstring | src/school/management/system/data/DB.java:330-344 | searching ids for "1" or for "2" both find student 12 |
| StoreSpec.NameSearchIgnoresCase | src/school/management/system/data/DB.java:330-344 | a first-name search for "aMA" finds "Ama" |
| Tables.InsertablePrefixAll | src/school/management/system/data/DB.java:240-256 | the whole batch is inserted exactly when no id is already stored or repeated inside the batch |
| Tables.InsertablePrefixUnique | src/school/management/system/data/DB.java:240-256 | the rows the batch commits keep the ids unique |
| DB.Database.AddStudentsBatch | src/school/management/system/data/DB.java:240-256 | without a transaction, the students before the first id clash are committed and the rest are not; a clash reports UNIQUE failure code 19 |
| DB.Database.AddTeachersBatch | src/school/management/system/data/DB.java:264-279 | the same for teachers |
| StoreSpec.NewRow | src/school/management/system/data/DB.java:902-905 | an inserted attendance row holds the record's student, date and status under an id not yet used |
| StoreSpec.InsertedOnDay | src/school/management/system/data/DB.java:902-908 | after the inserts, the rows of a (student, date) pair are the earlier ones followed by the records for that pair, in input order |
| StoreSpec.InsertedElsewhere | src/school/management/system/data/DB.java:902-908 | the inserts leave the rows of pairs not in the input as they were |
| StoreSpec.InsertedUnique | src/school/management/system/data/DB.java:902-908 | the inserts keep attendance ids unique |
| StoreSpec.SavedOnDay | src/school/management/system/data/DB.java:895-909 | because all deletes run before all inserts, the stored rows of an input pair are exactly the input records for it |
| StoreSpec.SavedElsewhere | src/school/management/system/data/DB.java:895-909 | rows of pairs not in the input are untouched |
| StoreSpec.SaveTwiceSameAttendance | src/school/management/system/data/DB.java:883-915 | saving the same records twice leaves every pair as one save did |
| DB.Database.DeleteDays | src/school/management/system/data/DB.java:895-907 | the delete batch keeps exactly the rows whose pair is not in the input |
| DB.Database.InsertRecords | src/school/management/system/data/DB.java:902-908 | a null status fails NOT NULL; otherwise the rows `Inserted` gives, with unique ids |
| DB.Database.SaveAttendance | src/school/management/system/data/DB.java:883-915 | an empty list changes nothing; a null date throws; a null status rolls back to the old table and rethrows; otherwise the attendance is the delete-then-insert result and nothing else changes |
| StoreSpec.CountPerClassName | src/school/management/system/data/DB.java:1004-1027 | every reported count is at least one |
| StoreSpec.CountPerClassNameCounts | src/school/management/system/data/DB.java:1004-1027 | the keys are exactly the labels of some student (class name or "Unassigned"), each mapped to the number of students with that label |
| DB.Database.GetStudentCountPerClassName | src/school/management/system/data/DB.java:1004-1027 | the map of `CountPerClassName`: every student's label is a key, and each count is the number of students with it |
| Services.StudentsBlockMessageInjective | src/school/management/system/data/DataService.java:485-486 | two student-block messages are equal only for equal counts |
| Services.AssignmentsBlockMessageInjective | src/school/management/system/data/DataService.java:491-492 | two assignment-block messages are equal only for equal counts |
| Services.BlockMessagesDiffer | src/school/management/system/data/DataService.java:481-496 | a student-block message is never an assignment-block message |
| JavaText.ParseInt | src/school/management/system/data/DataService.java:515 | a parsed value fits in 32 bits and a failure is NumberFormat of the input; `ParseIntToString` is its partner |
| JavaText.ParseIntToString | src/school/management/system/data/DataService.java:515 | the decimal text of every 32-bit integer parses back to that integer |
| JavaText.ParseIntOtherScripts | src/school/management/system/data/DataService.java:515 | decimal digits of other scripts in the Basic Multilingual Plane parse, mixed with ASCII ones; a digit above U+FFFF does not |
| Services.DataService.DeleteClass | src/school/management/system/data/DataService.java:481-496 | students block first (message with their count), then assignments; a blocked delete changes nothing; it succeeds exactly when neither exists, and then removes exactly that class |
| Services.ClassNameForId | src/school/management/system/data/DataService.java:528-537 | a failing lookup gives "Error"; a missing id gives "N/A"; otherwise the name of a class with that id |
| Services.ClassNameForExistingId | src/school/management/system/data/DataService.java:528-537 | a stored class's id resolves to its own name |
| Services.ClassNameOfLevel | src/school/management/system/data/DataService.java:506-521 | null gives "N/A"; the result is never empty when the lookup never is; a level is parsed with the decimal digits of every script `Integer.parseInt` takes |
| Services.LevelOfIdIsLookedUp | src/school/management/system/data/DataService.java:512-516 | the decimal text of an int id resolves through the id lookup |
| Services.PaddedLevelOfIdIsLookedUp | src/school/management/system/data/DataService.java:512-516 | surrounding blanks are trimmed before the id is parsed |
| Services.OtherScriptLevelIsLookedUp | src/school/management/system/data/DataService.java:512-516 | a level written in ARABIC-INDIC DIGIT ONE is parsed as id 1 and looked up |
| Services.LabelLevelIsShownTrimmed | src/school/management/system/data/DataService.java:517-520 | a label that does not parse as an integer is returned trimmed |
| Services.DataService.GetClassName | src/school/management/system/data/DataService.java:528-537 | the result is `ClassNameForId` of the stored classes |
| Services.DataService.GetClassNameOfLevel | src/school/management/system/data/DataService.java:506-521 | the result is `ClassNameOfLevel` with the id lookup over the stored classes, parsing the digits of every script `Integer.parseInt` takes |
| Services.DataService.SearchAndReturn | src/school/management/system/data/DataService.java:267-269 | the student search: a bad option throws, otherwise exactly the matching students |
| Migration.Placeholders | src/school/management/system/data/DataSource.java:153-161 | empty for no column; otherwise starts and ends with `?` |
| Migration.PlaceholderCount | src/school/management/system/data/DataSource.java:153-161 | n question marks separated by n - 1 commas |
| Migration.BuildInsertSql | src/school/management/system/data/DataSource.java:153-161 | the StringBuilder loop builds `INSERT INTO t VALUES (` + placeholders + `)` |
| Migration.InsertRow | src/school/management/system/data/DataSource.java:167-173 | the destination accepts a row exactly when its value count is the table's column count and its key is free, and then appends it |
| Migration.RunBatch | src/school/management/system/data/DataSource.java:173 | rows already stored are kept; without a failure every row was appended |
| Migration.Project | src/school/management/system/data/DataSource.java:167-170 | each source row read as its first n column values, in order |
| Migration.RunBatchAllFresh | src/school/management/system/data/DataSource.java:167-173 | rows of the right width with fresh, distinct keys are all appended without a failure |
| Migration.RunBatchAllRejected | src/school/management/system/data/DataSource.java:173 | a batch whose every row is refused changes nothing and reports a failure |
| Migration.CopyTable | src/school/management/system/data/DataSource.java:146-175 | only the named destination table can change; a missing source table or short row copies nothing |
| Migration.CopyTableComplete | src/school/management/system/data/DataSource.java:146-175 | with matching width and fresh keys, the destination gains exactly the source's rows, each as its first n values |
| Migration.WidthMismatchCopiesNothing | src/school/management/system/data/DataSource.java:146-175 | a column count unlike the destination's copies nothing and fails |
| Migration.DuplicatesCopyNothing | src/school/management/system/data/DataSource.java:146-175 | rows whose keys are all taken copy nothing and fail |
| Migration.CopyAll | src/school/management/system/data/DataSource.java:122-126 | no table is added or dropped, and tables outside the plan are untouched |
| Migration.FirstAttemptFailsAtStudents | src/school/management/system/data/DataSource.java:122-124 | into a students table with the 8 columns setup gives it, the 7-value students copy fails and only admin has changed |
| Migration.RetryFailsAtAdmin | src/school/management/system/data/DataSource.java:100-135 | after that failure the flag is unset, and a rerun fails at the already copied admin rows and changes nothing |
| Migration.ReadBatch | src/school/management/system/data/DataSource.java:167-170 | a row with fewer than n columns is a column-index error; otherwise the projected rows |
| Migration.InsertEach | src/school/management/system/data/DataSource.java:173 | the loop gives `RunBatch` |
| Migration.Backend.ExecuteBatch | src/school/management/system/data/DataSource.java:173 | a missing table reports no such table; otherwise only that table changes, as `RunBatch` says |
| Migration.DataSource.constructor | src/school/management/system/data/DataSource.java:31-61 | the backend flag is whether the test connection succeeded; it is a constant afterwards |
| Migration.DataSource.IsUsingMySql | src/school/management/system/data/DataSource.java:91-93 | the flag fixed at start-up |
| Migration.DataSource.MigrateTable | src/school/management/system/data/DataSource.java:146-175 | the primary store and outcome are `CopyTable` of the fallback's table |
| Migration.DataSource.PerformMigrationIfNeeded | src/school/management/system/data/DataSource.java:100-135 | no-op unless MySQL and not yet migrated; a non-empty primary students table sets the flag and copies nothing; otherwise the five tables are copied in order and the flag is set only if all succeed, with earlier copies kept on failure |
| Auth.AfterSetLoggedIn | src/school/management/system/service/AuthService.java:68-83 | the flag reads back as given; logging out removes the username; logging in records the admin's username when non-null; other keys untouched |
| Auth.AutoLoginMatch | src/school/management/system/service/AuthService.java:146-164 | only with the flag set and a remembered username, a listed admin with that username |
| Auth.LogoutDisablesAutoLogin | src/school/management/system/service/AuthService.java:124-140 | after logout the next start restores no one |
| Auth.RememberedLoginIsStable | src/school/management/system/service/AuthService.java:68-77 | marking a session logged in again under the same username leaves the preferences as they were |
| Auth.RestartRestoresLoggedInAdmin | src/school/management/system/service/AuthService.java:146-158 | after a successful login under a non-blank username that no other admin has, the next start restores the very row that was checked, in whatever order the admins are listed; marking it logged in again leaves the preferences as they were |
| Auth.SharedUserNameRestoresOtherAdmin | src/school/management/system/service/AuthService.java:146-158 | with two admins sharing a username, the login checks the first stored row, but the listing by name puts the other first, and auto-login restores that other account |
| StoreSpec.FirstWithUserNameWithoutPasswords | src/school/management/system/service/AuthService.java:151-152 | the admin list without passwords has its first match at the same place as the stored rows |
| Auth.AuthService.IsLoggedIn | src/school/management/system/service/AuthService.java:59-61 | false when the key was never written; otherwise the stored boolean |
| Auth.AuthService.SetLoggedIn | src/school/management/system/service/AuthService.java:68-83 | the preferences become `AfterSetLoggedIn`, and the flag reads back as given |
| Auth.AuthService.LoginDone | src/school/management/system/service/AuthService.java:96-113 | logged in exactly when validation returned true; false and an exception both log out |
| Auth.AuthService.Login | src/school/management/system/service/AuthService.java:88-117 | logged in exactly when the shared admin's credentials pass `validateLogin`; then the admin carries the id and name of the first row with its username, otherwise it is unchanged |
| Auth.AuthService.Logout | src/school/management/system/service/AuthService.java:124-140 | cancelled: nothing changes; confirmed: logged out, username forgotten, admin id 0 and every field null |
| Auth.AuthService.AttemptAutoLogin | src/school/management/system/service/AuthService.java:146-164 | flag false: nothing changes; flag true: the remembered admin's id, name and username are copied when found, the password kept, and the flag is true even with no match or a failed lookup |
| Auth.AuthService.RestoreAdmin | src/school/management/system/service/AuthService.java:151-156 | the first listed admin with the username is copied in; with none the admin is unchanged |
| StringUtils.Capitalize | src/school/management/system/util/StringUtils.java:23-28 | null and "" give ""; otherwise the first character uppercased and the rest identical |
| StringUtils.DoubleQuotes | src/school/management/system/util/StringUtils.java:37 | twice as many quotes, and the same set of characters |
| StringUtils.EscapeCsv | src/school/management/system/util/StringUtils.java:35-40 | a value without comma, quote or newline is unchanged; otherwise it is wrapped in quotes; the quotes of the result are balanced |
| StringUtils.UnEscapeCsv | src/school/management/system/util/StringUtils.java:47-53 | unchanged unless it starts and ends with a quote; the one-character `"` fails with an index error; a stripped value is at least two shorter |
| StringUtils.CollapseDoubled | src/school/management/system/util/StringUtils.java:49 | collapsing `""` to `"` undoes doubling |
| StringUtils.UnEscapeEscape | src/school/management/system/util/StringUtils.java:35-53 | `unEscapeCsv(escapeCsv(v)) == v` for every string |
| StringUtils.PlainValueUnchanged | src/school/management/system/util/StringUtils.java:35-53 | a value with nothing to quote survives both functions unchanged |
| Csv.EscapeAll | src/school/management/system/service/FileService.java:88 | each value escaped, in order |
| Csv.FirstSeparatorFrom | src/school/management/system/service/FileService.java:131 | the first comma from k that is followed by an even number of quotes, with none before it |
| Csv.SplitCsvLine | src/school/management/system/service/FileService.java:131 | a line always splits into at least one field, trailing empty fields kept |
| Csv.JoinSplit | src/school/management/system/service/FileService.java:131 | splitting loses nothing: the fields joined by commas give the line back |
| Csv.EscapedIsSafe | src/school/management/system/util/StringUtils.java:35-40 | an escaped value has balanced quotes, and each comma in it is followed by an odd number of quotes |
| Csv.SplitJoinSafe | src/school/management/system/service/FileService.java:131 | fields of that kind, joined by commas, split back into the same fields |
| Csv.ExportedLineRoundTrip | src/school/management/system/service/FileService.java:93-99 | an exported line splits back into its escaped cells, and unescaping each gives the cell text written |
| Csv.NewlineFrom | src/school/management/system/service/FileService.java:130 | the first line break from k, with none before it |
| Csv.ReadLinesFileText | src/school/management/system/service/FileService.java:130 | lines written with `newLine()` and free of line breaks are read back one for one |
| Files.CellTexts | src/school/management/system/service/FileService.java:96 | a null cell is written as "", any other as its text |
| Files.RowLines | src/school/management/system/service/FileService.java:93-100 | one line per table row, being its escaped cells joined by commas |
| Files.ExportLines | src/school/management/system/service/FileService.java:87-100 | the header of escaped column names first, then one line per row |
| Files.WriteLine | src/school/management/system/service/FileService.java:87-91 | the loop writes the escaped values with a comma between neighbours and none at the end |
| Files.WriteRows | src/school/management/system/service/FileService.java:93-100 | the nested loops write each row's line followed by a line break |
| Files.FileService.ExportModelToCsv | src/school/management/system/service/FileService.java:74-106 | the file text is the header and row lines, each ended; it reads back as those lines exactly when no cell or name holds a line break |
| Files.Field | src/school/management/system/service/FileService.java:133-138 | a missing field is an index error; a field not wrapped in quotes is taken as it is |
| Files.IntField | src/school/management/system/service/FileService.java:133 | fails only by a missing field or a bad number; a parsed value fits in an int; digits of other scripts are parsed as `Integer.parseInt` does |
| Files.ParseStudentFields | src/school/management/system/service/FileService.java:132-139 | never an SQL failure; a student has no picture and int id and level |
| Files.ParseTeacherFields | src/school/management/system/service/FileService.java:151-157 | never an SQL failure; a teacher has no picture and an int id |
| Files.ParseLines | src/school/management/system/service/FileService.java:130-141 | all lines parsed in order, or the failure of one of them |
| Files.ParseStudentLines | src/school/management/system/service/FileService.java:127-141 | a failure is a parse failure, not an SQL one; success gives one student per line |
| Files.ParseTeacherLines | src/school/management/system/service/FileService.java:146-159 | a failure is a parse failure, not an SQL one; success gives one teacher per line |
| Files.FieldsOfExportedLine | src/school/management/system/service/FileService.java:131-138 | an exported line has as many fields as cells, and each field reads back as its cell |
| Files.StudentLineRoundTrip | src/school/management/system/service/FileService.java:127-141 | a student row whose level column holds the level's number imports as that student without picture; the row is the one `fetchData` builds (`StudentViewRow`, DataService.java:65-71) |
| Files.ClassNameColumnBreaksImport | src/school/management/system/data/DataService.java:66-71 | the exported student row holds the class name, which the import's integer parse refuses with NumberFormat |
| Files.TeacherLineRoundTrip | src/school/management/system/service/FileService.java:146-159 | an exported teacher row imports as that teacher without picture |
| Files.TeacherRows | src/school/management/system/data/DataService.java:78-81 | one table row per teacher, numbered from 1 |
| Files.TeacherExportImport | src/school/management/system/service/FileService.java:74-163 | exporting the teacher table and importing the file gives the teachers back without pictures, when no value holds a line break |
| Files.ReadLinesOfExport | src/school/management/system/service/FileService.java:124-130 | written lines are read back exactly when none holds a line break |
| Files.ImportMessage | src/school/management/system/service/FileService.java:170-182 | the ID-conflict message appears exactly for an SQL failure with code 19 |
| Files.FileService.ImportStudents | src/school/management/system/service/FileService.java:127-145 | a parse failure writes nothing; no rows: no batch call and 0; otherwise the batch commits the rows before the first id clash, reporting the count or the code-19 failure |
| Files.FileService.ImportTeachers | src/school/management/system/service/FileService.java:146-163 | the same for teachers |
| Files.FileService.ImportFromCsv | src/school/management/system/service/FileService.java:112-186 | after the header line, another type is 0 with no change; the conflict message shows exactly when parsing succeeded and a row's id clashed; a parse error writes nothing |
| AdminForm.Rejection | src/school/management/system/ui/adm/AddAdmin.java:189-203 | accepted exactly when name and username are not blank, the confirmation matches, and edit mode or a non-empty password; the checks come in that order |
| AdminForm.AcceptedFieldsHaveText | src/school/management/system/ui/adm/AddAdmin.java:189-192 | an accepted name and username each hold a character above space |
| AdminForm.PasswordAfter | src/school/management/system/ui/adm/AddAdmin.java:208-210 | the typed password when non-empty, otherwise the one already held |
| AdminForm.NewAdminLogsIn | src/school/management/system/ui/adm/AddAdmin.java:215-219 | an admin added under a new username logs in with the confirmed password and with no other |
| AdminForm.EditWithoutPasswordKeepsHash | src/school/management/system/ui/adm/AddAdmin.java:208-210 | editing with the password box empty keeps every stored hash |
| AdminForm.AdminDialog.OnOK | src/school/management/system/ui/adm/AddAdmin.java:183-234 | a rejected form shows its message and changes nothing; an accepted one stores the raw name and username, the password only when typed, then updates or adds the admin |
| AdminForm.AdminDialog.Accept | src/school/management/system/ui/adm/AddAdmin.java:205-210 | the raw name and username copied in, the password only when typed, the id kept |
| AdminForm.AdminDialog.Submit | src/school/management/system/ui/adm/AddAdmin.java:215-219 | edit mode calls `updateAdmin` and add mode `signUp`; neither fails on an accepted form |

## Left out

- The Swing user interface: file choosers, dialogs, progress workers and table refreshes. Files are
  texts, the table model is a `TableView`, and a user's confirmation is a parameter.
- The self-deletion guard of the admin list and the empty-field check of the login form. They live in
  UI classes outside the modelled core.
- JDBC, HikariCP and SQL text. Tables are in-memory sequences, and the backend choice is a constructor
  parameter. Connection failures appear only where the code catches them: `queryFails` in
  `GetClassName` and `lookupFails` in `AttemptAutoLogin`.
- `java.util.prefs` persistence. The preferences are an in-memory map of strings.
- BCrypt. `Hash` is a deterministic, injective stand-in without a random salt. jBCrypt itself is not
  part of the repository.
- Password.CheckPassword: an approximation of jBCrypt's `checkpw`. It follows the header checks of
  `hashpw` (version, revision, and the index errors of too short values) and its string concatenation
  of a null password. The checks after the header are not modelled: the rounds field, the salt length
  and the base64 decoding. So a value such as `"$2a$"` followed by a short text gets a verdict of
  false here, where the library throws.
- Password.CheckHash: it holds for the stand-in; real BCrypt only promises the first half.
- ORDER BY and LinkedHashMap order. Fetches and joins keep the stored order, and the per-class counts
  are an unordered map.
- DB.Database.FetchAllAdmins: it lists the admins in stored order, not by `ORDER BY adm_name`, so
  `Auth.AuthService.AttemptAutoLogin` takes the first stored admin with the username. For that
  reason `Auth.RestartRestoresLoggedInAdmin` is stated for any listing order, and only for a username
  no other admin has. `Auth.SharedUserNameRestoresOtherAdmin` shows the shared case with the
  listing by name given explicitly.
- SQL collation and LIKE wildcards. Case folding is ASCII only, and `%` and `_` inside a search term
  are ordinary characters.
- StringUtils.Capitalize: it uppercases ASCII letters only, so `|r| == |str|` holds here. Java's
  `toUpperCase` is Unicode-aware and can lengthen the text (`'ß'` becomes `"SS"`). Its callers pass
  only the ASCII item names "class", "student" and "teacher".
- NULL values in the columns the schema leaves nullable: `std_mname`, `std_dob`, `tch_contact`,
  `tch_address` and `tch_email`. `Model.Student` and `Model.Teacher` hold plain texts there, and the
  texts of their NOT NULL columns are never NULL. The model therefore does not capture three things:
  - A NULL column never matches the `LIKE` of `DB.Database.SearchStudent` and
    `DB.Database.SearchTeacher`.
  - `DB.Database.AddStudent`, `DB.Database.AddTeacher`, `DB.Database.UpdateStudent` and
    `DB.Database.UpdateTeacher` fail NOT NULL with code 19 and write nothing when a NOT NULL field is
    null.
  - The export writes a NULL as `""`, and the import reads it back as the empty text, not as NULL.
    `Files.StudentLineRoundTrip` and `Files.TeacherLineRoundTrip` cover only rows without NULLs.
- Concurrency. This covers SwingWorker threads and the non-atomic count-then-delete of `deleteAdmin`
  and `deleteClass`.
- Floating point and payments: `getStudentPayments`, `addStudentPayment`, `getDashboardStats`,
  `getFeesCollectedPerMonth` and `getStudentGenderDistribution`.
- `connect`, and SQL failures during `setup` other than the missing students table, which the
  profile-pic migration catches. Setup is modelled as always succeeding.
- The progress messages the password migration prints. The model returns the number of updates
  instead.
- The failures of the other backend are limited to wrong value counts, duplicate keys, missing tables
  and short rows. MySQL's batch continues past a failed row (`RunBatch`).
- DB.Database: it is modelled against the SQLite fallback. When MySQL is reachable,
  `DataSource.getConnection()` hands every method a MySQL connection, and the methods behave
  differently in five ways:
  - The inserts of `addStudent`, `addTeacher`, `signUp`, `addSubject` and `addClass` omit the id. The
    `integer PRIMARY KEY` columns have no AUTO_INCREMENT, so MySQL assigns no fresh id (`NextKey`).
  - A duplicate key fails with code 1062, not 19. `Files.ImportMessage` then shows the generic message
    instead of the ID-conflict one.
  - A batch goes on past a failed row. It does not stop at the first clash as `InsertablePrefix` does.
  - `setup` fails at `subject_name text NOT NULL UNIQUE`: MySQL refuses a UNIQUE key on a TEXT
    column without a key length (error 1170). `student_attendance`, `student_payments` and the later
    tables are then never created, and the startup skips `performMigrationIfNeeded`. The migration
    lemmas (`FirstAttemptFailsAtStudents`) therefore need only a students table with its 8 columns.
  - The FOREIGN KEY clauses are enforced, which SQLite leaves off by default. So `deleteSubject`,
    `deleteStudent` and `deleteClass` can be refused while rows still refer to the deleted row.
- Line terminators. `readLine` is modelled as splitting on `'\n'` only; `'\r'` and the platform line
  separator are not modelled.
- The table model's `toString` of a picture. The picture cell's text is an input.
- Connection failures during the admin dialog's background work, and the "Database operation failed"
  message they would show. On an accepted form neither database call fails in the model.
- FileService operations other than export and import (backup and restore). They copy files.

/**
 * The persistent state of the application as one value, with the integrity constraints of its
 * tables, and the pure definitions the database operations are specified by.
 */
module StoreSpec {
  import opened Wrappers
  import opened JavaText
  import opened Tables
  import opened Model
  import opened Password
  import Schema

  datatype Store = Store(
    layout: Schema.Layout,
    students: seq<Student>,
    teachers: seq<Teacher>,
    admins: seq<AdminRow>,
    subjects: seq<Subject>,
    classes: seq<SchoolClass>,
    assignments: seq<Assignment>,
    attendance: seq<AttendanceRow>)

  function SubjectName(s: Subject): string { s.name }
  function ClassName(c: SchoolClass): string { c.name }

  /** The PRIMARY KEY of every table, and the UNIQUE names of subjects and class levels. */
  predicate WellFormed(s: Store) {
    && UniqueKeys(s.students, StudentKey)
    && UniqueKeys(s.teachers, TeacherKey)
    && UniqueKeys(s.admins, AdminKey)
    && UniqueKeys(s.subjects, SubjectKey)
    && UniqueKeys(s.classes, ClassKey)
    && UniqueKeys(s.assignments, AssignmentKey)
    && UniqueKeys(s.attendance, AttendanceKey)
    && UniqueText(s.subjects, SubjectName)
    && UniqueText(s.classes, ClassName)
  }

  // ------------------------------------------------------------------ password migration

  /** A stored password that the migration takes for plaintext: present and without the "$2" mark. */
  predicate NeedsHash(p: Option<string>) {
    p.Some? && !StartsWith(p.value, BCRYPT_MARK)
  }

  /** The map `migratePasswordsToHashes` collects: admin id to the hash of its plaintext password. */
  function PendingHashes(rows: seq<AdminRow>): (m: map<int, string>)
    ensures forall k :: k in m <==> exists i :: 0 <= i < |rows| && rows[i].id == k && NeedsHash(rows[i].password)
  {
    if rows == [] then map[]
    else
      var init := rows[..|rows| - 1];
      var last := rows[|rows| - 1];
      var m := PendingHashes(init);
      assert forall i :: 0 <= i < |init| ==> rows[i] == init[i];
      if NeedsHash(last.password) then m[last.id := Hash(last.password.value)] else m
  }

  /** With unique ids, the pending hash of an admin is the hash of that admin's own password. */
  lemma {:induction false} PendingHashOfRow(rows: seq<AdminRow>, i: nat)
    requires UniqueKeys(rows, AdminKey)
    requires i < |rows| && NeedsHash(rows[i].password)
    ensures PendingHashes(rows)[rows[i].id] == Hash(rows[i].password.value)
    decreases |rows|
  {
    var init := rows[..|rows| - 1];
    var last := rows[|rows| - 1];
    assert UniqueKeys(init, AdminKey);
    if i < |rows| - 1 {
      assert rows[i] == init[i];
      assert last.id != rows[i].id;
      PendingHashOfRow(init, i);
    }
  }

  /** An admin row after the migration. */
  function Rehashed(a: AdminRow): AdminRow {
    if NeedsHash(a.password) then a.(password := Some(Hash(a.password.value))) else a
  }

  /**
   * The admin table after `migratePasswordsToHashes`: every plaintext password is replaced by its
   * hash, hashed and missing passwords are untouched, and no plaintext remains.
   */
  function MigratedAdmins(rows: seq<AdminRow>): (r: seq<AdminRow>)
    ensures |r| == |rows|
    ensures forall i :: 0 <= i < |r| ==> !NeedsHash(r[i].password)
    ensures forall i :: 0 <= i < |r| ==>
              r[i].id == rows[i].id && r[i].name == rows[i].name && r[i].userName == rows[i].userName
    ensures forall i :: 0 <= i < |r| && NeedsHash(rows[i].password) ==>
              r[i].password == Some(Hash(rows[i].password.value))
    ensures forall i :: 0 <= i < |r| && !NeedsHash(rows[i].password) ==> r[i] == rows[i]
  {
    seq(|rows|, i requires 0 <= i < |rows| => Rehashed(rows[i]))
  }

  /** A second migration finds nothing to do and changes nothing. */
  lemma MigrationIdempotent(rows: seq<AdminRow>)
    ensures PendingHashes(MigratedAdmins(rows)) == map[]
    ensures MigratedAdmins(MigratedAdmins(rows)) == MigratedAdmins(rows)
  {
  }

  /** The migrated table is the original with each pending hash written to its row. */
  lemma PendingHashesApplied(rows: seq<AdminRow>, i: nat)
    requires UniqueKeys(rows, AdminKey)
    requires i < |rows|
    ensures MigratedAdmins(rows)[i] ==
            if rows[i].id in PendingHashes(rows) then rows[i].(password := Some(PendingHashes(rows)[rows[i].id]))
            else rows[i]
  {
    if rows[i].id in PendingHashes(rows) {
      var j :| 0 <= j < |rows| && rows[j].id == rows[i].id && NeedsHash(rows[j].password);
      assert j == i;
      PendingHashOfRow(rows, i);
    }
  }

  // ------------------------------------------------------------------ login

  /** The first admin row with that username: how `validateLogin` reads its single result row. */
  function FirstWithUserName(rows: seq<AdminRow>, userName: string): (r: Option<nat>)
    ensures r.Some? ==> r.value < |rows| && rows[r.value].userName == userName
    ensures r.Some? ==> forall j :: 0 <= j < r.value ==> rows[j].userName != userName
    ensures r.None? ==> forall j :: 0 <= j < |rows| ==> rows[j].userName != userName
  {
    if rows == [] then None
    else if rows[0].userName == userName then Some(0)
    else
      match FirstWithUserName(rows[1..], userName)
      case None => None
      case Some(k) => Some(k + 1)
  }

  /**
   * The answer of `validateLogin`: a missing username matches no row; otherwise only the first
   * row with that username is checked.
   */
  function LoginResult(rows: seq<AdminRow>, userName: Option<string>, password: Option<string>): Result<bool> {
    if userName.None? then Ok(false)
    else
      match FirstWithUserName(rows, userName.value)
      case None => Ok(false)
      case Some(i) => CheckPassword(password, rows[i].password)
  }

  /** Login succeeds exactly when the first row with that username holds the hash of that password. */
  lemma LoginCharacterised(rows: seq<AdminRow>, userName: string, password: string)
    ensures LoginResult(rows, Some(userName), Some(password)) == Ok(true) <==>
            FirstWithUserName(rows, userName).Some? &&
            rows[FirstWithUserName(rows, userName).value].password == Some(Hash(password))
  {
  }

  /** Appending a row with a username no earlier row has makes that row the first with it. */
  lemma {:induction false} FirstWithUserNameAppend(rows: seq<AdminRow>, x: AdminRow)
    requires forall j :: 0 <= j < |rows| ==> rows[j].userName != x.userName
    ensures FirstWithUserName(rows + [x], x.userName) == Some(|rows|)
  {
    if rows != [] {
      assert (rows + [x])[1..] == rows[1..] + [x];
      FirstWithUserNameAppend(rows[1..], x);
    }
  }

  /** An account added with `signUp` under a new username logs in with its password and no other. */
  lemma LoginAfterSignUp(rows: seq<AdminRow>, id: int, name: string, userName: string, password: string, attempt: string)
    requires forall j :: 0 <= j < |rows| ==> rows[j].userName != userName
    ensures LoginResult(rows + [AdminRow(id, name, userName, Some(Hash(password)))], Some(userName), Some(attempt))
            == Ok(attempt == password)
  {
    FirstWithUserNameAppend(rows, AdminRow(id, name, userName, Some(Hash(password))));
    CheckHash(password, attempt);
  }

  /**
   * After the migration, with no missing passwords, a login attempt never throws the invalid salt
   * version error, and it throws nothing at all when every stored password was either plaintext
   * or had a hash header.
   */
  lemma LoginAfterMigration(rows: seq<AdminRow>, userName: string, password: string)
    requires forall j :: 0 <= j < |rows| ==> rows[j].password.Some?
    ensures LoginResult(MigratedAdmins(rows), Some(userName), Some(password)) != Err(IllegalArgument("Invalid salt version"))
    ensures (forall j :: 0 <= j < |rows| ==> NeedsHash(rows[j].password) || HashHeader(rows[j].password.value)) ==>
              LoginResult(MigratedAdmins(rows), Some(userName), Some(password)).Ok?
  {
  }

  /**
   * A plaintext password that happens to start with "$2" is taken for a hash: the migration keeps
   * it, and logging in with it then throws instead of succeeding.
   */
  lemma MarkedPlaintextBreaksLogin()
    ensures MigratedAdmins([AdminRow(1, "A", "head", Some("$2b-secret"))]) == [AdminRow(1, "A", "head", Some("$2b-secret"))]
    ensures LoginResult(MigratedAdmins([AdminRow(1, "A", "head", Some("$2b-secret"))]), Some("head"), Some("$2b-secret"))
            == Err(IllegalArgument("Invalid salt revision"))
  {
    assert "$2b-secret"[..2] == "$2";
  }

  /** Usernames are not unique, and only the first row with a username is ever checked. */
  lemma LoginChecksFirstRowOnly()
    ensures LoginResult(
              [AdminRow(1, "A", "head", Some(Hash("one"))), AdminRow(2, "B", "head", Some(Hash("two")))],
              Some("head"), Some("two")) == Ok(false)
  {
    CheckHash("one", "two");
  }

  /** The admin list `fetchAllAdmins` returns: every row, in order, without its password. */
  function WithoutPasswords(rows: seq<AdminRow>): (r: seq<AdminRow>)
    ensures |r| == |rows|
    ensures forall i :: 0 <= i < |rows| ==> r[i] == rows[i].(password := None)
  {
    seq(|rows|, i requires 0 <= i < |rows| => rows[i].(password := None))
  }

  /** Dropping the passwords keeps every username where it was, so lookups by username agree. */
  lemma {:induction false} FirstWithUserNameWithoutPasswords(rows: seq<AdminRow>, userName: string)
    ensures FirstWithUserName(WithoutPasswords(rows), userName) == FirstWithUserName(rows, userName)
  {
    if rows != [] {
      assert WithoutPasswords(rows)[1..] == WithoutPasswords(rows[1..]);
      FirstWithUserNameWithoutPasswords(rows[1..], userName);
    }
  }

  // ------------------------------------------------------------------ attendance

  /** Attendance is keyed by student and day (the stored date). */
  function RowDay(row: AttendanceRow): (int, int) {
    (row.studentId, row.date)
  }

  predicate Complete(r: AttendanceRecord) {
    r.date.Some? && r.status.Some?
  }

  /** The (student, day) keys of the records that carry a date. */
  function DaysOf(records: seq<AttendanceRecord>): set<(int, int)> {
    set r | r in records && r.date.Some? :: (r.studentId, r.date.value)
  }

  function OutsideDays(days: set<(int, int)>): AttendanceRow -> bool {
    (row: AttendanceRow) => RowDay(row) !in days
  }

  function OnDay(day: (int, int)): AttendanceRow -> bool {
    (row: AttendanceRow) => RowDay(row) == day
  }

  function RecordOnDay(day: (int, int)): AttendanceRecord -> bool {
    (r: AttendanceRecord) => r.date == Some(day.1) && r.studentId == day.0
  }

  /** A stored row seen as the record that produced it. */
  function AsRecord(row: AttendanceRow): AttendanceRecord {
    AttendanceRecord(row.studentId, Some(row.date), Some(row.status))
  }

  function AsRecords(rows: seq<AttendanceRow>): (r: seq<AttendanceRecord>)
    ensures |r| == |rows|
  {
    seq(|rows|, i requires 0 <= i < |rows| => AsRecord(rows[i]))
  }

  lemma AsRecordsAppend(a: seq<AttendanceRow>, b: seq<AttendanceRow>)
    ensures AsRecords(a + b) == AsRecords(a) + AsRecords(b)
  {
  }

  /** The insert batch: each record becomes a row with the next free attendance id. */
  function Inserted(rows: seq<AttendanceRow>, records: seq<AttendanceRecord>): (r: seq<AttendanceRow>)
    requires forall i :: 0 <= i < |records| ==> Complete(records[i])
    ensures |r| == |rows| + |records|
  {
    if records == [] then rows
    else
      var prev := Inserted(rows, records[..|records| - 1]);
      var rec := records[|records| - 1];
      assert Complete(records[|records| - 1]);
      prev + [NewRow(prev, rec)]
  }

  /** The row the insert of a record adds: SQLite picks the attendance id. */
  function NewRow(prev: seq<AttendanceRow>, rec: AttendanceRecord): (row: AttendanceRow)
    requires Complete(rec)
    ensures AsRecord(row) == rec
    ensures row.id !in Keys(prev, AttendanceKey)
  {
    AttendanceRow(NextKey(Keys(prev, AttendanceKey)), rec.studentId, rec.date.value, rec.status.value)
  }

  /** The attendance table after a successful `saveAttendance`: every delete runs before every insert. */
  function AttendanceSaved(rows: seq<AttendanceRow>, records: seq<AttendanceRecord>): seq<AttendanceRow>
    requires forall i :: 0 <= i < |records| ==> Complete(records[i])
  {
    Inserted(Filter(rows, OutsideDays(DaysOf(records))), records)
  }

  /** The inserted rows at one day are the records at that day, after the rows already there. */
  lemma AsRecordsOnDaySnoc(prev: seq<AttendanceRow>, row: AttendanceRow, day: (int, int))
    ensures AsRecords(Filter(prev + [row], OnDay(day))) ==
            AsRecords(Filter(prev, OnDay(day))) + (if OnDay(day)(row) then [AsRecord(row)] else [])
  {
    FilterAppend(prev, [row], OnDay(day));
    FilterSingle(row, OnDay(day));
    AsRecordsAppend(Filter(prev, OnDay(day)), Filter([row], OnDay(day)));
  }

  lemma {:induction false} InsertedOnDay(rows: seq<AttendanceRow>, records: seq<AttendanceRecord>, day: (int, int))
    requires forall i :: 0 <= i < |records| ==> Complete(records[i])
    ensures AsRecords(Filter(Inserted(rows, records), OnDay(day))) ==
            AsRecords(Filter(rows, OnDay(day))) + Filter(records, RecordOnDay(day))
    decreases |records|
  {
    if records != [] {
      var init := records[..|records| - 1];
      var rec := records[|records| - 1];
      assert Complete(rec);
      var prev := Inserted(rows, init);
      var row := NewRow(prev, rec);
      assert Inserted(rows, records) == prev + [row];
      AsRecordsOnDaySnoc(prev, row, day);
      InsertedOnDay(rows, init, day);
      var before := AsRecords(Filter(rows, OnDay(day)));
      var mid := Filter(init, RecordOnDay(day));
      var tail := if RecordOnDay(day)(rec) then [rec] else [];
      assert (if OnDay(day)(row) then [AsRecord(row)] else []) == tail;
      assert Filter(records, RecordOnDay(day)) == mid + tail;
      calc {
        AsRecords(Filter(Inserted(rows, records), OnDay(day)));
        AsRecords(Filter(prev, OnDay(day))) + tail;
        (before + mid) + tail;
        before + (mid + tail);
      }
    }
  }

  /** Rows at a day none of the records names are kept as they were, ids included. */
  lemma {:induction false} InsertedElsewhere(rows: seq<AttendanceRow>, records: seq<AttendanceRecord>, day: (int, int))
    requires forall i :: 0 <= i < |records| ==> Complete(records[i])
    requires day !in DaysOf(records)
    ensures Filter(Inserted(rows, records), OnDay(day)) == Filter(rows, OnDay(day))
    decreases |records|
  {
    if records != [] {
      var init := records[..|records| - 1];
      var rec := records[|records| - 1];
      var prev := Inserted(rows, init);
      var row := NewRow(prev, rec);
      assert DaysOf(init) <= DaysOf(records);
      InsertedElsewhere(rows, init, day);
      assert rec in records;
      assert !OnDay(day)(row);
      FilterAppend(prev, [row], OnDay(day));
      FilterSingle(row, OnDay(day));
    }
  }

  /** After a save, the rows at each day the records name are exactly the records at that day. */
  lemma SavedOnDay(rows: seq<AttendanceRow>, records: seq<AttendanceRecord>, day: (int, int))
    requires forall i :: 0 <= i < |records| ==> Complete(records[i])
    requires day in DaysOf(records)
    ensures AsRecords(Filter(AttendanceSaved(rows, records), OnDay(day))) == Filter(records, RecordOnDay(day))
  {
    var kept := Filter(rows, OutsideDays(DaysOf(records)));
    InsertedOnDay(kept, records, day);
    FilterMembers(rows, OutsideDays(DaysOf(records)));
    FilterNone(kept, OnDay(day));
    assert AsRecords([]) == [];
  }

  /** After a save, the rows at every other day are the rows that were there before. */
  lemma SavedElsewhere(rows: seq<AttendanceRow>, records: seq<AttendanceRecord>, day: (int, int))
    requires forall i :: 0 <= i < |records| ==> Complete(records[i])
    requires day !in DaysOf(records)
    ensures Filter(AttendanceSaved(rows, records), OnDay(day)) == Filter(rows, OnDay(day))
  {
    var kept := Filter(rows, OutsideDays(DaysOf(records)));
    InsertedElsewhere(kept, records, day);
    FilterTwice(rows, OutsideDays(DaysOf(records)), OnDay(day), OnDay(day));
  }

  /** Saving the same records a second time leaves the attendance of every day as the first save did. */
  lemma SaveTwiceSameAttendance(rows: seq<AttendanceRow>, records: seq<AttendanceRecord>, day: (int, int))
    requires forall i :: 0 <= i < |records| ==> Complete(records[i])
    ensures AsRecords(Filter(AttendanceSaved(AttendanceSaved(rows, records), records), OnDay(day))) ==
            AsRecords(Filter(AttendanceSaved(rows, records), OnDay(day)))
  {
    if day in DaysOf(records) {
      SavedOnDay(rows, records, day);
      SavedOnDay(AttendanceSaved(rows, records), records, day);
    } else {
      SavedElsewhere(rows, records, day);
      SavedElsewhere(AttendanceSaved(rows, records), records, day);
    }
  }

  // ------------------------------------------------------------------ students per class

  /** `SELECT class_name FROM class_levels WHERE class_id = ?`: empty when no class has that id. */
  function ClassNameOf(classes: seq<SchoolClass>, classId: int): (r: Option<string>)
    ensures r.Some? ==> exists c :: c in classes && c.id == classId && c.name == r.value
    ensures r.None? ==> forall c :: c in classes ==> c.id != classId
  {
    match FindKey(classes, ClassKey, classId)
    case None => None
    case Some(c) => Some(c.name)
  }

  /** `COALESCE(cl.class_name, 'Unassigned')` of a student's class id under the LEFT JOIN. */
  function ClassLabel(classes: seq<SchoolClass>, level: int): string {
    match ClassNameOf(classes, level)
    case None => "Unassigned"
    case Some(name) => name
  }

  function LabelIs(classes: seq<SchoolClass>, name: string): Student -> bool {
    (s: Student) => ClassLabel(classes, s.level) == name
  }

  /**
   * The result of `getStudentCountPerClassName`, grouped one student at a time: each student adds
   * one to the count of its label.
   */
  function CountPerClassName(classes: seq<SchoolClass>, students: seq<Student>): (m: map<string, int>)
    ensures forall l :: l in m ==> m[l] >= 1
  {
    if students == [] then map[]
    else
      var m := CountPerClassName(classes, students[..|students| - 1]);
      var l := ClassLabel(classes, students[|students| - 1].level);
      m[l := (if l in m then m[l] else 0) + 1]
  }

  /** The grouping holds exactly the labels some student carries, each with the number of students carrying it. */
  lemma {:induction false} CountPerClassNameCounts(classes: seq<SchoolClass>, students: seq<Student>)
    ensures forall l :: l in CountPerClassName(classes, students) <==>
                        exists s :: s in students && ClassLabel(classes, s.level) == l
    ensures forall l :: l in CountPerClassName(classes, students) ==>
                        CountPerClassName(classes, students)[l] == |Filter(students, LabelIs(classes, l))|
    decreases |students|
  {
    if students != [] {
      var init := students[..|students| - 1];
      var x := students[|students| - 1];
      assert students == init + [x];
      CountPerClassNameCounts(classes, init);
      var m := CountPerClassName(classes, init);
      forall l | l in CountPerClassName(classes, students)
        ensures CountPerClassName(classes, students)[l] == |Filter(students, LabelIs(classes, l))|
      {
        FilterSnoc(init, x, LabelIs(classes, l));
        if l !in m {
          forall y | y in init ensures !LabelIs(classes, l)(y) {
          }
          FilterNone(init, LabelIs(classes, l));
        }
      }
      forall l ensures l in CountPerClassName(classes, students) <==>
                       exists s :: s in students && ClassLabel(classes, s.level) == l
      {
        if l in CountPerClassName(classes, students) && l != ClassLabel(classes, x.level) {
          var y :| y in init && ClassLabel(classes, y.level) == l;
          assert y in students;
        }
        if exists s :: s in students && ClassLabel(classes, s.level) == l {
          var y :| y in students && ClassLabel(classes, y.level) == l;
          assert y in init || y == x;
        }
      }
    }
  }

  // ------------------------------------------------------------------ search

  /** The columns a student search may use, in the order of the search options. */
  datatype StudentColumn = StdId | StdFirstName | StdLastName

  /** The columns a teacher search may use, in the order of the search options. */
  datatype TeacherColumn = TchId | TchName | TchContact | TchEmail | TchAddress

  function StudentColumnName(c: StudentColumn): string {
    match c
    case StdId => "std_id"
    case StdFirstName => "std_fname"
    case StdLastName => "std_lname"
  }

  function TeacherColumnName(c: TeacherColumn): string {
    match c
    case TchId => "tch_id"
    case TchName => "tch_name"
    case TchContact => "tch_contact"
    case TchEmail => "tch_email"
    case TchAddress => "tch_address"
  }

  /** `getColumnNameForStudent`: options 0 to 2, anything else is an illegal argument. */
  function StudentColumnFor(option: int): (r: Result<StudentColumn>)
    ensures r.Ok? <==> 0 <= option < 3
    ensures r.Err? ==> r.failure == IllegalArgument("Invalid search option for student: " + IntToString(option))
  {
    if option == 0 then Ok(StdId)
    else if option == 1 then Ok(StdFirstName)
    else if option == 2 then Ok(StdLastName)
    else Err(IllegalArgument("Invalid search option for student: " + IntToString(option)))
  }

  /** `getColumnNameForTeacher`: options 0 to 4, anything else is an illegal argument. */
  function TeacherColumnFor(option: int): (r: Result<TeacherColumn>)
    ensures r.Ok? <==> 0 <= option < 5
    ensures r.Err? ==> r.failure == IllegalArgument("Invalid search option for teacher: " + IntToString(option))
  {
    if option == 0 then Ok(TchId)
    else if option == 1 then Ok(TchName)
    else if option == 2 then Ok(TchContact)
    else if option == 3 then Ok(TchEmail)
    else if option == 4 then Ok(TchAddress)
    else Err(IllegalArgument("Invalid search option for teacher: " + IntToString(option)))
  }

  /** Each option names its own column: the student selector is one-to-one. */
  lemma StudentColumnsDistinct(a: int, b: int)
    requires StudentColumnFor(a).Ok? && StudentColumnFor(b).Ok?
    ensures StudentColumnName(StudentColumnFor(a).value) == StudentColumnName(StudentColumnFor(b).value) <==> a == b
  {
  }

  /** Each option names its own column: the teacher selector is one-to-one. */
  lemma TeacherColumnsDistinct(a: int, b: int)
    requires TeacherColumnFor(a).Ok? && TeacherColumnFor(b).Ok?
    ensures TeacherColumnName(TeacherColumnFor(a).value) == TeacherColumnName(TeacherColumnFor(b).value) <==> a == b
  {
  }

  /** The text of a student's column as `LIKE` compares it; the id as decimal text. */
  function StudentText(c: StudentColumn, s: Student): string {
    match c
    case StdId => IntToString(s.id)
    case StdFirstName => s.firstName
    case StdLastName => s.lastName
  }

  function TeacherText(c: TeacherColumn, t: Teacher): string {
    match c
    case TchId => IntToString(t.id)
    case TchName => t.name
    case TchContact => t.contact
    case TchEmail => t.email
    case TchAddress => t.address
  }

  /** `column LIKE '%term%'`. */
  function StudentMatches(c: StudentColumn, term: string): Student -> bool {
    (s: Student) => ContainsIgnoreCase(StudentText(c, s), term)
  }

  function TeacherMatches(c: TeacherColumn, term: string): Teacher -> bool {
    (t: Teacher) => ContainsIgnoreCase(TeacherText(c, t), term)
  }

  /** Searching by id matches every id whose decimal text contains the term, not only the equal id. */
  lemma IdSearchIsSubstring(s: Student)
    requires s.id == 12
    ensures StudentMatches(StdId, "1")(s) && StudentMatches(StdId, "2")(s)
  {
    assert IntToString(12) == "12";
    assert LowerAsciiString("12") == "12";
    assert LowerAsciiString("1") == "1";
    assert LowerAsciiString("2") == "2";
    assert OccursAt("12", "1", 0);
    assert OccursAt("12", "2", 1);
  }

  /** Name searches ignore the case of ASCII letters. */
  lemma NameSearchIgnoresCase(s: Student)
    requires s.firstName == "Ama"
    ensures StudentMatches(StdFirstName, "aMA")(s)
  {
    assert LowerAsciiString("Ama") == "ama";
    assert LowerAsciiString("aMA") == "ama";
    assert OccursAt("ama", "ama", 0);
  }

  // ------------------------------------------------------------------ per-class queries

  function InClass(level: int): Student -> bool {
    (s: Student) => s.level == level
  }

  function ForClass(level: int): Assignment -> bool {
    (a: Assignment) => a.classLevel == level
  }

  function ByTeacher(teacherId: int): Assignment -> bool {
    (a: Assignment) => a.teacherId == teacherId
  }

  // ------------------------------------------------------------------ assignment joins

  /** One assignment under the two inner joins: it is dropped when its teacher or its subject is missing. */
  function Joined(a: Assignment, teachers: seq<Teacher>, subjects: seq<Subject>): seq<TeacherAssignment> {
    match (FindKey(teachers, TeacherKey, a.teacherId), FindKey(subjects, SubjectKey, a.subjectId))
    case (Some(t), Some(s)) => [TeacherAssignment(a.id, a.teacherId, t.name, a.subjectId, s.name, a.classLevel)]
    case _ => []
  }

  /** `teacher_assignments JOIN teachers JOIN subjects`, in assignment order. */
  function JoinAll(assignments: seq<Assignment>, teachers: seq<Teacher>, subjects: seq<Subject>): (r: seq<TeacherAssignment>)
    ensures |r| <= |assignments|
  {
    if assignments == [] then []
    else JoinAll(assignments[..|assignments| - 1], teachers, subjects) + Joined(assignments[|assignments| - 1], teachers, subjects)
  }

  /** Every joined row comes from an assignment and carries the names its teacher and its subject have. */
  lemma {:induction false} JoinAllSound(assignments: seq<Assignment>, teachers: seq<Teacher>, subjects: seq<Subject>, x: TeacherAssignment)
    requires x in JoinAll(assignments, teachers, subjects)
    ensures exists a :: a in assignments && a.id == x.assignmentId && a.teacherId == x.teacherId &&
                        a.subjectId == x.subjectId && a.classLevel == x.classLevel
    ensures exists t :: t in teachers && t.id == x.teacherId && t.name == x.teacherName
    ensures exists s :: s in subjects && s.id == x.subjectId && s.name == x.subjectName
    decreases |assignments|
  {
    var init := assignments[..|assignments| - 1];
    var last := assignments[|assignments| - 1];
    if x in JoinAll(init, teachers, subjects) {
      JoinAllSound(init, teachers, subjects, x);
      assert forall a :: a in init ==> a in assignments;
    } else {
      assert x in Joined(last, teachers, subjects);
      assert last in assignments;
    }
  }

  /** Once a subject is gone, no joined assignment names it. */
  lemma JoinAllWithoutSubject(assignments: seq<Assignment>, teachers: seq<Teacher>, subjects: seq<Subject>, subjectId: int)
    requires forall s :: s in subjects ==> s.id != subjectId
    ensures forall x :: x in JoinAll(assignments, teachers, subjects) ==> x.subjectId != subjectId
  {
    forall x | x in JoinAll(assignments, teachers, subjects) ensures x.subjectId != subjectId {
      JoinAllSound(assignments, teachers, subjects, x);
    }
  }

  /** An assignment whose teacher and subject both exist appears in the join, with their names. */
  lemma {:induction false} JoinAllComplete(assignments: seq<Assignment>, teachers: seq<Teacher>, subjects: seq<Subject>, i: nat)
    requires i < |assignments|
    requires FindKey(teachers, TeacherKey, assignments[i].teacherId).Some?
    requires FindKey(subjects, SubjectKey, assignments[i].subjectId).Some?
    ensures Joined(assignments[i], teachers, subjects)[0] in JoinAll(assignments, teachers, subjects)
    decreases |assignments|
  {
    var init := assignments[..|assignments| - 1];
    if i < |assignments| - 1 {
      assert assignments[i] == init[i];
      JoinAllComplete(init, teachers, subjects, i);
    }
  }

  // ------------------------------------------------------------------ admin updates

  /** The new value `updateAdmin` writes to the password column, if it writes one. */
  function NewHash(password: Option<string>): Option<string> {
    if password.Some? && password.value != "" then Some(Hash(password.value)) else None
  }

  /** An admin row after `updateAdmin` with these values: a missing or empty password leaves the stored one. */
  function AdminUpdated(row: AdminRow, name: string, userName: string, password: Option<string>): (r: AdminRow)
    ensures r.id == row.id && r.name == name && r.userName == userName
    ensures password.None? || password == Some("") ==> r.password == row.password
    ensures password.Some? && password.value != "" ==> r.password == Some(Hash(password.value))
  {
    AdminRow(row.id, name, userName, if NewHash(password).Some? then NewHash(password) else row.password)
  }

  /** `UPDATE admin SET ... WHERE adm_id = ?` applied to the table. */
  function AdminsUpdated(rows: seq<AdminRow>, id: int, name: string, userName: string, password: Option<string>): (r: seq<AdminRow>)
    ensures |r| == |rows|
    ensures forall i :: 0 <= i < |r| ==> r[i].id == rows[i].id
    ensures forall i :: 0 <= i < |r| && rows[i].id != id ==> r[i] == rows[i]
  {
    seq(|rows|, i requires 0 <= i < |rows| => if rows[i].id == id then AdminUpdated(rows[i], name, userName, password) else rows[i])
  }

  /** Admin writes never store plaintext: a table free of plaintext stays so under `updateAdmin`. */
  lemma AdminsUpdatedKeepHashes(rows: seq<AdminRow>, id: int, name: string, userName: string, password: Option<string>)
    requires forall i :: 0 <= i < |rows| ==> !NeedsHash(rows[i].password)
    ensures forall i :: 0 <= i < |rows| ==> !NeedsHash(AdminsUpdated(rows, id, name, userName, password)[i].password)
  {
  }

  /** After `updateAdmin` with a new password, the edited admin logs in with it when it is the first with its username. */
  lemma LoginAfterUpdate(rows: seq<AdminRow>, i: nat, name: string, userName: string, password: string, attempt: string)
    requires UniqueKeys(rows, AdminKey)
    requires i < |rows| && password != ""
    requires forall j :: 0 <= j < i ==> rows[j].userName != userName
    ensures LoginResult(AdminsUpdated(rows, rows[i].id, name, userName, Some(password)), Some(userName), Some(attempt))
            == Ok(attempt == password)
  {
    var r := AdminsUpdated(rows, rows[i].id, name, userName, Some(password));
    forall j | 0 <= j < i ensures r[j].userName != userName {
      assert rows[j].id != rows[i].id;
    }
    assert r[i].userName == userName;
    assert FirstWithUserName(r, userName) == Some(i);
    CheckHash(password, attempt);
  }

  /** The delete statement of one record: `WHERE student_id = ? AND attendance_date = ?`. */
  function NotOnDay(day: (int, int)): AttendanceRow -> bool {
    (row: AttendanceRow) => RowDay(row) != day
  }

  /** Deleting one more day is deleting the larger set of days. */
  lemma DeleteOneMoreDay(rows: seq<AttendanceRow>, days: set<(int, int)>, day: (int, int))
    ensures Filter(Filter(rows, OutsideDays(days)), NotOnDay(day)) == Filter(rows, OutsideDays(days + {day}))
  {
    FilterTwice(rows, OutsideDays(days), NotOnDay(day), OutsideDays(days + {day}));
  }

  lemma DaysOfStep(records: seq<AttendanceRecord>, i: nat)
    requires i < |records| && records[i].date.Some?
    ensures DaysOf(records[..i + 1]) == DaysOf(records[..i]) + {(records[i].studentId, records[i].date.value)}
  {
    var a := records[..i];
    assert records[..i + 1] == a + [records[i]];
    assert forall r :: r in records[..i + 1] <==> r in a || r == records[i];
  }

  lemma InsertedStep(rows: seq<AttendanceRow>, records: seq<AttendanceRecord>, i: nat)
    requires i < |records|
    requires forall j :: 0 <= j < |records| ==> Complete(records[j])
    ensures Inserted(rows, records[..i + 1]) ==
            Inserted(rows, records[..i]) + [NewRow(Inserted(rows, records[..i]), records[i])]
  {
    assert records[..i + 1][..i] == records[..i];
  }

  /** The insert batch keeps the attendance ids unique. */
  lemma {:induction false} InsertedUnique(rows: seq<AttendanceRow>, records: seq<AttendanceRecord>)
    requires forall i :: 0 <= i < |records| ==> Complete(records[i])
    requires UniqueKeys(rows, AttendanceKey)
    ensures UniqueKeys(Inserted(rows, records), AttendanceKey)
    decreases |records|
  {
    if records != [] {
      var init := records[..|records| - 1];
      var prev := Inserted(rows, init);
      InsertedUnique(rows, init);
      assert Complete(records[|records| - 1]);
      UniqueKeysAppend(prev, NewRow(prev, records[|records| - 1]), AttendanceKey);
    }
  }

  lemma JoinAllSnoc(assignments: seq<Assignment>, x: Assignment, teachers: seq<Teacher>, subjects: seq<Subject>)
    ensures JoinAll(assignments + [x], teachers, subjects) == JoinAll(assignments, teachers, subjects) + Joined(x, teachers, subjects)
  {
    assert (assignments + [x])[..|assignments|] == assignments;
  }

  /** One more assignment scanned by a filtered join. */
  lemma JoinStep(rows: seq<Assignment>, i: nat, p: Assignment -> bool, teachers: seq<Teacher>, subjects: seq<Subject>)
    requires i < |rows|
    ensures JoinAll(Filter(rows[..i + 1], p), teachers, subjects) ==
            JoinAll(Filter(rows[..i], p), teachers, subjects) + (if p(rows[i]) then Joined(rows[i], teachers, subjects) else [])
  {
    FilterStep(rows, i, p);
    if p(rows[i]) {
      JoinAllSnoc(Filter(rows[..i], p), rows[i], teachers, subjects);
    } else {
      assert Filter(rows[..i + 1], p) == Filter(rows[..i], p);
    }
  }

  /** `UPDATE admin SET password = ? WHERE adm_id = ?`. */
  function SetPassword(rows: seq<AdminRow>, id: int, hash: string): (r: seq<AdminRow>)
    ensures |r| == |rows|
    ensures forall j :: 0 <= j < |r| ==> r[j] == if rows[j].id == id then rows[j].(password := Some(hash)) else rows[j]
  {
    seq(|rows|, j requires 0 <= j < |rows| => if rows[j].id == id then rows[j].(password := Some(hash)) else rows[j])
  }

  /** An admin row once the pending hashes of the ids in `done` are written. */
  function HashWritten(row: AdminRow, pending: map<int, string>, done: seq<int>): AdminRow {
    if row.id in done && row.id in pending then row.(password := Some(pending[row.id])) else row
  }

  /** Writing the pending hash of one more id. */
  lemma SetPasswordStep(rows: seq<AdminRow>, table: seq<AdminRow>, pending: map<int, string>, done: seq<int>,
                        done': seq<int>, id: int)
    requires |table| == |rows|
    requires forall j :: 0 <= j < |rows| ==> table[j] == HashWritten(rows[j], pending, done)
    requires id in pending && id !in done
    requires forall k :: k in done' <==> k in done || k == id
    ensures forall j :: 0 <= j < |rows| ==> SetPassword(table, id, pending[id])[j] == HashWritten(rows[j], pending, done')
  {
    forall j | 0 <= j < |rows| ensures SetPassword(table, id, pending[id])[j] == HashWritten(rows[j], pending, done') {
      assert table[j].id == rows[j].id;
    }
  }
}

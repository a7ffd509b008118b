/**
 * The database access object: one `Database` holds the whole store and every method is one of
 * the statements (or statement sequences) the application runs against it.
 */
module DB {
  import opened Wrappers
  import opened JavaText
  import opened Tables
  import opened Model
  import opened Password
  import Schema
  import opened StoreSpec

  class Database {
    var store: Store

    /** The table constraints hold. */
    predicate Valid()
      reads this
    {
      WellFormed(store)
    }

    constructor (initial: Store)
      requires WellFormed(initial)
      ensures Valid()
      ensures store == initial
    {
      store := initial;
    }

    // ---------------------------------------------------------------- schema and migrations

    /** The column scan of `migrateProfilePicColumns`: a flag set on the first match, then `break`. */
    static method HasProfilePic(columns: seq<string>) returns (found: bool)
      ensures found == Schema.HasColumn(columns, Schema.PROFILE_PIC)
    {
      found := false;
      var i := 0;
      while i < |columns|
        invariant 0 <= i <= |columns|
        invariant forall j :: 0 <= j < i ==> !EqualsIgnoreCase(columns[j], Schema.PROFILE_PIC)
      {
        if EqualsIgnoreCase(columns[i], Schema.PROFILE_PIC) {
          found := true;
          break;
        }
        i := i + 1;
      }
    }

    /** Adds `profile_pic` to students, then teachers, where no column has that name in any case. */
    method MigrateProfilePicColumns()
      modifies this
      ensures store == old(store).(layout := Schema.ProfilePicMigrated(old(store.layout)))
    {
      var layout := store.layout;
      if "students" !in layout {
        // the first query throws and the handler ends the migration
        return;
      }
      var has := HasProfilePic(layout["students"]);
      if !has {
        layout := layout["students" := layout["students"] + [Schema.PROFILE_PIC]];
      }
      if "teachers" in layout {
        has := HasProfilePic(layout["teachers"]);
        if !has {
          layout := layout["teachers" := layout["teachers"] + [Schema.PROFILE_PIC]];
        }
      }
      store := store.(layout := layout);
    }

    /**
     * The select loop of `migratePasswordsToHashes`: the hash of every plaintext password, by
     * admin id, and the ids in the order they were first put.
     */
    static method CollectPending(rows: seq<AdminRow>) returns (pending: map<int, string>, ids: seq<int>)
      ensures pending == PendingHashes(rows)
      ensures forall k :: k in pending <==> k in ids
      ensures Distinct(ids)
    {
      pending := map[];
      ids := [];
      var i := 0;
      while i < |rows|
        invariant 0 <= i <= |rows|
        invariant pending == PendingHashes(rows[..i])
        invariant forall k :: k in pending <==> k in ids
        invariant Distinct(ids)
      {
        assert rows[..i + 1][..i] == rows[..i];
        var current := rows[i].password;
        if current.Some? && !StartsWith(current.value, BCRYPT_MARK) {
          if rows[i].id !in pending {
            ids := ids + [rows[i].id];
          }
          pending := pending[rows[i].id := Hash(current.value)];
        }
        i := i + 1;
      }
      assert rows[..|rows|] == rows;
    }

    /**
     * The update loop of `migratePasswordsToHashes`: one `UPDATE ... WHERE adm_id = ?` per pending
     * entry. The map's iteration order does not change the result.
     */
    static method ApplyPending(rows: seq<AdminRow>, pending: map<int, string>, ids: seq<int>)
      returns (table: seq<AdminRow>, updated: nat)
      requires forall k :: k in ids ==> k in pending
      requires Distinct(ids)
      ensures |table| == |rows|
      ensures forall j :: 0 <= j < |rows| ==> table[j] == HashWritten(rows[j], pending, ids)
      ensures updated == |ids|
    {
      table := rows;
      updated := 0;
      var i := 0;
      while i < |ids|
        invariant 0 <= i <= |ids|
        invariant |table| == |rows|
        invariant forall j :: 0 <= j < |rows| ==> table[j] == HashWritten(rows[j], pending, ids[..i])
        invariant updated == i
      {
        var id := ids[i];
        assert id !in ids[..i];
        assert forall k :: k in ids[..i + 1] <==> k in ids[..i] || k == id;
        SetPasswordStep(rows, table, pending, ids[..i], ids[..i + 1], id);
        table := SetPassword(table, id, pending[id]);
        updated := updated + 1;
        i := i + 1;
      }
      assert ids[..i] == ids;
    }

    /**
     * `migratePasswordsToHashes`: collects the hash of every plaintext password, then writes them.
     * `updated` is the number of updates run; a second migration runs none.
     */
    method MigratePasswordsToHashes() returns (updated: nat)
      requires Valid()
      modifies this
      ensures Valid()
      ensures store == old(store).(admins := MigratedAdmins(old(store.admins)))
      ensures updated == 0 <==> forall i :: 0 <= i < |old(store.admins)| ==> !NeedsHash(old(store.admins)[i].password)
    {
      var rows := store.admins;
      var pending, ids := CollectPending(rows);
      var table;
      table, updated := ApplyPending(rows, pending, ids);
      forall j | 0 <= j < |rows| ensures table[j] == MigratedAdmins(rows)[j] {
        PendingHashesApplied(rows, j);
      }
      assert table == MigratedAdmins(rows);
      assert forall j :: 0 <= j < |rows| ==> AdminKey(table[j]) == AdminKey(rows[j]);
      store := store.(admins := table);
      if updated != 0 {
        assert ids[0] in pending;
      }
    }

    /** `setup`: the profile-picture migration, the eight `CREATE TABLE IF NOT EXISTS`, then the password migration. */
    method Setup()
      requires Valid()
      modifies this
      ensures Valid()
      ensures store == old(store).(layout := Schema.AfterSetup(old(store.layout)),
                                   admins := MigratedAdmins(old(store.admins)))
    {
      MigrateProfilePicColumns();
      store := store.(layout := Schema.TablesCreated(store.layout));
      var _ := MigratePasswordsToHashes();
    }

    // ---------------------------------------------------------------- admins

    /**
     * `validateLogin`: looks up the first row with the admin's username and checks the password
     * against its stored hash; only a match copies that row's id and name into the admin.
     */
    method ValidateLogin(admin: Admin) returns (r: Result<bool>)
      modifies admin
      ensures r == LoginResult(store.admins, old(admin.userName), old(admin.password))
      ensures r == Ok(true) ==>
                old(admin.userName).Some? && FirstWithUserName(store.admins, old(admin.userName).value).Some? &&
                var row := store.admins[FirstWithUserName(store.admins, old(admin.userName).value).value];
                admin.id == row.id && admin.name == Some(row.name) &&
                admin.userName == old(admin.userName) && admin.password == old(admin.password)
      ensures r != Ok(true) ==> unchanged(admin)
    {
      if admin.userName.None? {
        // `adm_username = NULL` matches no row
        return Ok(false);
      }
      var first := FirstWithUserName(store.admins, admin.userName.value);
      if first.None? {
        return Ok(false);
      }
      var row := store.admins[first.value];
      r := CheckPassword(admin.password, row.password);
      if r == Ok(true) {
        admin.id := row.id;
        admin.name := Some(row.name);
      }
    }

    /** `signUp`: the password is hashed before the insert; SQLite picks the id. */
    method SignUp(newAdmin: Admin) returns (o: Outcome)
      requires Valid()
      modifies this
      ensures Valid()
      ensures newAdmin.name.None? ==>
                o == Fails(SqlFailure(SQLITE_CONSTRAINT, "NOT NULL constraint failed: admin.adm_name")) && store == old(store)
      ensures newAdmin.name.Some? && newAdmin.userName.None? ==>
                o == Fails(SqlFailure(SQLITE_CONSTRAINT, "NOT NULL constraint failed: admin.adm_username")) && store == old(store)
      ensures newAdmin.name.Some? && newAdmin.userName.Some? ==>
                o == Done &&
                store == old(store).(admins := old(store.admins) +
                  [AdminRow(NextKey(Keys(old(store.admins), AdminKey)), newAdmin.name.value, newAdmin.userName.value,
                            Some(Hash(ValueOf(newAdmin.password))))])
      ensures o == Done ==> !NeedsHash(store.admins[|store.admins| - 1].password)
    {
      // `hashPassword` runs before the insert; a null password is hashed as the text "null"
      var hashed := Hash(ValueOf(newAdmin.password));
      if newAdmin.name.None? {
        return Fails(SqlFailure(SQLITE_CONSTRAINT, "NOT NULL constraint failed: admin.adm_name"));
      }
      if newAdmin.userName.None? {
        return Fails(SqlFailure(SQLITE_CONSTRAINT, "NOT NULL constraint failed: admin.adm_username"));
      }
      var row := AdminRow(NextKey(Keys(store.admins, AdminKey)), newAdmin.name.value, newAdmin.userName.value, Some(hashed));
      UniqueKeysAppend(store.admins, row, AdminKey);
      store := store.(admins := store.admins + [row]);
      o := Done;
    }

    /**
     * `updateAdmin`: name and username always; the password only when one is given, and then
     * hashed. An update that matches no row changes nothing and reports no error.
     */
    method UpdateAdmin(admin: Admin) returns (o: Outcome)
      requires Valid()
      modifies this
      ensures Valid()
      ensures FindKey(old(store.admins), AdminKey, admin.id).None? ==> o == Done && store == old(store)
      ensures FindKey(old(store.admins), AdminKey, admin.id).Some? && admin.name.None? ==>
                o == Fails(SqlFailure(SQLITE_CONSTRAINT, "NOT NULL constraint failed: admin.adm_name")) && store == old(store)
      ensures FindKey(old(store.admins), AdminKey, admin.id).Some? && admin.name.Some? && admin.userName.None? ==>
                o == Fails(SqlFailure(SQLITE_CONSTRAINT, "NOT NULL constraint failed: admin.adm_username")) && store == old(store)
      ensures FindKey(old(store.admins), AdminKey, admin.id).Some? && admin.name.Some? && admin.userName.Some? ==>
                o == Done &&
                store == old(store).(admins := AdminsUpdated(old(store.admins), admin.id, admin.name.value,
                                                             admin.userName.value, admin.password))
    {
      if FindKey(store.admins, AdminKey, admin.id).None? {
        return Done;
      }
      if admin.name.None? {
        return Fails(SqlFailure(SQLITE_CONSTRAINT, "NOT NULL constraint failed: admin.adm_name"));
      }
      if admin.userName.None? {
        return Fails(SqlFailure(SQLITE_CONSTRAINT, "NOT NULL constraint failed: admin.adm_username"));
      }
      var rows := AdminsUpdated(store.admins, admin.id, admin.name.value, admin.userName.value, admin.password);
      assert forall i :: 0 <= i < |rows| ==> AdminKey(rows[i]) == AdminKey(store.admins[i]);
      store := store.(admins := rows);
      o := Done;
    }

    /** `deleteAdmin`: refuses while at most one admin exists, so the last administrator stays. */
    method DeleteAdmin(adminId: int) returns (o: Outcome)
      requires Valid()
      modifies this
      ensures Valid()
      ensures |old(store.admins)| <= 1 ==>
                o == Fails(IllegalState("Cannot delete the last administrator.")) && store == old(store)
      ensures |old(store.admins)| > 1 ==>
                o == Done && store == old(store).(admins := WithoutKey(old(store.admins), AdminKey, adminId))
      ensures |old(store.admins)| >= 1 ==> |store.admins| >= 1
    {
      if |store.admins| <= 1 {
        return Fails(IllegalState("Cannot delete the last administrator."));
      }
      WithoutKeyRemovesAtMostOne(store.admins, AdminKey, adminId);
      WithoutKeyUnique(store.admins, AdminKey, adminId);
      store := store.(admins := WithoutKey(store.admins, AdminKey, adminId));
      o := Done;
    }

    /** `fetchAllAdmins`: id, name and username of every admin; the password column is never read. */
    method FetchAllAdmins() returns (result: seq<AdminRow>)
      ensures result == WithoutPasswords(store.admins)
      ensures |result| == |store.admins|
      ensures forall i :: 0 <= i < |result| ==>
                result[i].password.None? && result[i].id == store.admins[i].id &&
                result[i].name == store.admins[i].name && result[i].userName == store.admins[i].userName
    {
      result := [];
      var i := 0;
      while i < |store.admins|
        invariant 0 <= i <= |store.admins|
        invariant |result| == i
        invariant forall j :: 0 <= j < i ==> result[j] == store.admins[j].(password := None)
      {
        result := result + [store.admins[i].(password := None)];
        i := i + 1;
      }
    }

    // ---------------------------------------------------------------- students and teachers

    /** `addStudent`: every column but the id comes from the student; SQLite picks the id. */
    method AddStudent(student: Student)
      requires Valid()
      modifies this
      ensures Valid()
      ensures store == old(store).(students := old(store.students) +
                                   [student.(id := NextKey(Keys(old(store.students), StudentKey)))])
    {
      var row := student.(id := NextKey(Keys(store.students, StudentKey)));
      UniqueKeysAppend(store.students, row, StudentKey);
      store := store.(students := store.students + [row]);
    }

    /** `addTeacher`: every column but the id comes from the teacher; SQLite picks the id. */
    method AddTeacher(teacher: Teacher)
      requires Valid()
      modifies this
      ensures Valid()
      ensures store == old(store).(teachers := old(store.teachers) +
                                   [teacher.(id := NextKey(Keys(old(store.teachers), TeacherKey)))])
    {
      var row := teacher.(id := NextKey(Keys(store.teachers, TeacherKey)));
      UniqueKeysAppend(store.teachers, row, TeacherKey);
      store := store.(teachers := store.teachers + [row]);
    }

    /** `updateStudent`: every column of the row with the student's id. */
    method UpdateStudent(student: Student)
      requires Valid()
      modifies this
      ensures Valid()
      ensures store == old(store).(students := ReplaceKey(old(store.students), StudentKey, student.id, student))
    {
      ReplaceKeyUnique(store.students, StudentKey, student.id, student);
      store := store.(students := ReplaceKey(store.students, StudentKey, student.id, student));
    }

    /** `updateTeacher`: every column of the row with the teacher's id. */
    method UpdateTeacher(teacher: Teacher)
      requires Valid()
      modifies this
      ensures Valid()
      ensures store == old(store).(teachers := ReplaceKey(old(store.teachers), TeacherKey, teacher.id, teacher))
    {
      ReplaceKeyUnique(store.teachers, TeacherKey, teacher.id, teacher);
      store := store.(teachers := ReplaceKey(store.teachers, TeacherKey, teacher.id, teacher));
    }

    /** `deleteStd`: removes the row with the student's id; attendance rows that name it stay. */
    method DeleteStudent(student: Student)
      requires Valid()
      modifies this
      ensures Valid()
      ensures store == old(store).(students := WithoutKey(old(store.students), StudentKey, student.id))
    {
      WithoutKeyUnique(store.students, StudentKey, student.id);
      store := store.(students := WithoutKey(store.students, StudentKey, student.id));
    }

    /** `deleteTch`: removes the row with the teacher's id; the teacher's assignments stay. */
    method DeleteTeacher(teacher: Teacher)
      requires Valid()
      modifies this
      ensures Valid()
      ensures store == old(store).(teachers := WithoutKey(old(store.teachers), TeacherKey, teacher.id))
    {
      WithoutKeyUnique(store.teachers, TeacherKey, teacher.id);
      store := store.(teachers := WithoutKey(store.teachers, TeacherKey, teacher.id));
    }

    method FetchAllStudents() returns (result: seq<Student>)
      ensures result == store.students
    {
      result := store.students;
    }

    method FetchAllTeachers() returns (result: seq<Teacher>)
      ensures result == store.teachers
    {
      result := store.teachers;
    }

    /** `getStudentsByClass`: the students whose class id is `classLevel`. */
    method GetStudentsByClass(classLevel: int) returns (result: seq<Student>)
      ensures result == Filter(store.students, InClass(classLevel))
      ensures forall s :: s in result <==> s in store.students && s.level == classLevel
    {
      result := [];
      var i := 0;
      while i < |store.students|
        invariant 0 <= i <= |store.students|
        invariant result == Filter(store.students[..i], InClass(classLevel))
      {
        FilterStep(store.students, i, InClass(classLevel));
        if store.students[i].level == classLevel {
          result := result + [store.students[i]];
        }
        i := i + 1;
      }
      assert store.students[..i] == store.students;
      FilterMembers(store.students, InClass(classLevel));
    }

    /** `countStudentsInClass`: zero exactly when no student has that class id. */
    method CountStudentsInClass(classId: int) returns (n: nat)
      ensures n == |Filter(store.students, InClass(classId))|
      ensures n == 0 <==> forall s :: s in store.students ==> s.level != classId
    {
      n := 0;
      var i := 0;
      while i < |store.students|
        invariant 0 <= i <= |store.students|
        invariant n == |Filter(store.students[..i], InClass(classId))|
      {
        FilterStep(store.students, i, InClass(classId));
        if store.students[i].level == classId {
          n := n + 1;
        }
        i := i + 1;
      }
      assert store.students[..i] == store.students;
      FilterMembers(store.students, InClass(classId));
      if n != 0 {
        assert Filter(store.students, InClass(classId))[0] in Filter(store.students, InClass(classId));
      }
    }

    /** `countAssignmentsForClass`: zero exactly when no assignment names that class. */
    method CountAssignmentsForClass(classId: int) returns (n: nat)
      ensures n == |Filter(store.assignments, ForClass(classId))|
      ensures n == 0 <==> forall a :: a in store.assignments ==> a.classLevel != classId
    {
      n := 0;
      var i := 0;
      while i < |store.assignments|
        invariant 0 <= i <= |store.assignments|
        invariant n == |Filter(store.assignments[..i], ForClass(classId))|
      {
        FilterStep(store.assignments, i, ForClass(classId));
        if store.assignments[i].classLevel == classId {
          n := n + 1;
        }
        i := i + 1;
      }
      assert store.assignments[..i] == store.assignments;
      FilterMembers(store.assignments, ForClass(classId));
      if n != 0 {
        assert Filter(store.assignments, ForClass(classId))[0] in Filter(store.assignments, ForClass(classId));
      }
    }

    // ---------------------------------------------------------------- subjects and classes

    /** `addSubject`: the UNIQUE name constraint rejects a name already taken. */
    method AddSubject(name: string) returns (o: Outcome)
      requires Valid()
      modifies this
      ensures Valid()
      ensures (exists i :: 0 <= i < |old(store.subjects)| && old(store.subjects)[i].name == name) ==>
                o == Fails(SqlFailure(SQLITE_CONSTRAINT, "UNIQUE constraint failed: subjects.subject_name")) &&
                store == old(store)
      ensures (forall i :: 0 <= i < |old(store.subjects)| ==> old(store.subjects)[i].name != name) ==>
                o == Done &&
                store == old(store).(subjects := old(store.subjects) +
                                     [Subject(NextKey(Keys(old(store.subjects), SubjectKey)), name)])
    {
      var i := 0;
      while i < |store.subjects|
        invariant 0 <= i <= |store.subjects|
        invariant forall j :: 0 <= j < i ==> store.subjects[j].name != name
      {
        if store.subjects[i].name == name {
          return Fails(SqlFailure(SQLITE_CONSTRAINT, "UNIQUE constraint failed: subjects.subject_name"));
        }
        i := i + 1;
      }
      var row := Subject(NextKey(Keys(store.subjects, SubjectKey)), name);
      UniqueKeysAppend(store.subjects, row, SubjectKey);
      UniqueTextAppend(store.subjects, row, SubjectName);
      store := store.(subjects := store.subjects + [row]);
      o := Done;
    }

    /** `updateSubject`: renames the row with that id, unless another subject already has the name. */
    method UpdateSubject(subject: Subject) returns (o: Outcome)
      requires Valid()
      modifies this
      ensures Valid()
      ensures FindKey(old(store.subjects), SubjectKey, subject.id).None? ==> o == Done && store == old(store)
      ensures FindKey(old(store.subjects), SubjectKey, subject.id).Some? &&
              (exists i :: 0 <= i < |old(store.subjects)| && old(store.subjects)[i].id != subject.id &&
                           old(store.subjects)[i].name == subject.name) ==>
                o == Fails(SqlFailure(SQLITE_CONSTRAINT, "UNIQUE constraint failed: subjects.subject_name")) &&
                store == old(store)
      ensures FindKey(old(store.subjects), SubjectKey, subject.id).Some? &&
              (forall i :: 0 <= i < |old(store.subjects)| && old(store.subjects)[i].id != subject.id ==>
                           old(store.subjects)[i].name != subject.name) ==>
                o == Done &&
                store == old(store).(subjects := ReplaceKey(old(store.subjects), SubjectKey, subject.id, subject))
    {
      if FindKey(store.subjects, SubjectKey, subject.id).None? {
        return Done;
      }
      var i := 0;
      while i < |store.subjects|
        invariant 0 <= i <= |store.subjects|
        invariant forall j :: 0 <= j < i && store.subjects[j].id != subject.id ==> store.subjects[j].name != subject.name
      {
        if store.subjects[i].id != subject.id && store.subjects[i].name == subject.name {
          return Fails(SqlFailure(SQLITE_CONSTRAINT, "UNIQUE constraint failed: subjects.subject_name"));
        }
        i := i + 1;
      }
      ReplaceKeyUnique(store.subjects, SubjectKey, subject.id, subject);
      ReplaceKeyUniqueText(store.subjects, SubjectKey, subject.id, subject, SubjectName);
      store := store.(subjects := ReplaceKey(store.subjects, SubjectKey, subject.id, subject));
      o := Done;
    }

    /** `deleteSubject`: foreign keys are not enforced, so assignments naming the subject stay. */
    method DeleteSubject(subjectId: int)
      requires Valid()
      modifies this
      ensures Valid()
      ensures store == old(store).(subjects := WithoutKey(old(store.subjects), SubjectKey, subjectId))
      ensures forall x :: x in JoinAll(store.assignments, store.teachers, store.subjects) ==> x.subjectId != subjectId
    {
      WithoutKeyUnique(store.subjects, SubjectKey, subjectId);
      WithoutKeyUniqueText(store.subjects, SubjectKey, subjectId, SubjectName);
      store := store.(subjects := WithoutKey(store.subjects, SubjectKey, subjectId));
      JoinAllWithoutSubject(store.assignments, store.teachers, store.subjects, subjectId);
    }

    method FetchAllSubjects() returns (result: seq<Subject>)
      ensures result == store.subjects
    {
      result := store.subjects;
    }

    /** `addClass`: the UNIQUE name constraint rejects a name already taken. */
    method AddClass(name: string) returns (o: Outcome)
      requires Valid()
      modifies this
      ensures Valid()
      ensures (exists i :: 0 <= i < |old(store.classes)| && old(store.classes)[i].name == name) ==>
                o == Fails(SqlFailure(SQLITE_CONSTRAINT, "UNIQUE constraint failed: class_levels.class_name")) &&
                store == old(store)
      ensures (forall i :: 0 <= i < |old(store.classes)| ==> old(store.classes)[i].name != name) ==>
                o == Done &&
                store == old(store).(classes := old(store.classes) +
                                     [SchoolClass(NextKey(Keys(old(store.classes), ClassKey)), name)])
    {
      var i := 0;
      while i < |store.classes|
        invariant 0 <= i <= |store.classes|
        invariant forall j :: 0 <= j < i ==> store.classes[j].name != name
      {
        if store.classes[i].name == name {
          return Fails(SqlFailure(SQLITE_CONSTRAINT, "UNIQUE constraint failed: class_levels.class_name"));
        }
        i := i + 1;
      }
      var row := SchoolClass(NextKey(Keys(store.classes, ClassKey)), name);
      UniqueKeysAppend(store.classes, row, ClassKey);
      UniqueTextAppend(store.classes, row, ClassName);
      store := store.(classes := store.classes + [row]);
      o := Done;
    }

    /** `updateClass`: renames the row with that id, unless another class already has the name. */
    method UpdateClass(schoolClass: SchoolClass) returns (o: Outcome)
      requires Valid()
      modifies this
      ensures Valid()
      ensures FindKey(old(store.classes), ClassKey, schoolClass.id).None? ==> o == Done && store == old(store)
      ensures FindKey(old(store.classes), ClassKey, schoolClass.id).Some? &&
              (exists i :: 0 <= i < |old(store.classes)| && old(store.classes)[i].id != schoolClass.id &&
                           old(store.classes)[i].name == schoolClass.name) ==>
                o == Fails(SqlFailure(SQLITE_CONSTRAINT, "UNIQUE constraint failed: class_levels.class_name")) &&
                store == old(store)
      ensures FindKey(old(store.classes), ClassKey, schoolClass.id).Some? &&
              (forall i :: 0 <= i < |old(store.classes)| && old(store.classes)[i].id != schoolClass.id ==>
                           old(store.classes)[i].name != schoolClass.name) ==>
                o == Done &&
                store == old(store).(classes := ReplaceKey(old(store.classes), ClassKey, schoolClass.id, schoolClass))
    {
      if FindKey(store.classes, ClassKey, schoolClass.id).None? {
        return Done;
      }
      var i := 0;
      while i < |store.classes|
        invariant 0 <= i <= |store.classes|
        invariant forall j :: 0 <= j < i && store.classes[j].id != schoolClass.id ==> store.classes[j].name != schoolClass.name
      {
        if store.classes[i].id != schoolClass.id && store.classes[i].name == schoolClass.name {
          return Fails(SqlFailure(SQLITE_CONSTRAINT, "UNIQUE constraint failed: class_levels.class_name"));
        }
        i := i + 1;
      }
      ReplaceKeyUnique(store.classes, ClassKey, schoolClass.id, schoolClass);
      ReplaceKeyUniqueText(store.classes, ClassKey, schoolClass.id, schoolClass, ClassName);
      store := store.(classes := ReplaceKey(store.classes, ClassKey, schoolClass.id, schoolClass));
      o := Done;
    }

    /** `deleteClass` of the store: only the class row goes; students and assignments keep its id. */
    method DeleteClass(classId: int)
      requires Valid()
      modifies this
      ensures Valid()
      ensures store == old(store).(classes := WithoutKey(old(store.classes), ClassKey, classId))
    {
      WithoutKeyUnique(store.classes, ClassKey, classId);
      WithoutKeyUniqueText(store.classes, ClassKey, classId, ClassName);
      store := store.(classes := WithoutKey(store.classes, ClassKey, classId));
    }

    method FetchAllClasses() returns (result: seq<SchoolClass>)
      ensures result == store.classes
    {
      result := store.classes;
    }

    /** `getClassNameById`: the name of the class with that id, or null when there is none. */
    method GetClassNameById(classId: int) returns (name: Option<string>)
      ensures name.Some? ==> exists c :: c in store.classes && c.id == classId && c.name == name.value
      ensures name.None? ==> forall c :: c in store.classes ==> c.id != classId
      ensures name == ClassNameOf(store.classes, classId)
    {
      var i := 0;
      while i < |store.classes|
        invariant 0 <= i <= |store.classes|
        invariant forall j :: 0 <= j < i ==> store.classes[j].id != classId
        invariant FindKey(store.classes[i..], ClassKey, classId) == FindKey(store.classes, ClassKey, classId)
      {
        assert store.classes[i..][1..] == store.classes[i + 1..];
        if store.classes[i].id == classId {
          return Some(store.classes[i].name);
        }
        i := i + 1;
      }
      name := None;
    }

    // ---------------------------------------------------------------- teacher assignments

    /** `addTeacherAssignment`: no check that the teacher or the subject exists. */
    method AddTeacherAssignment(teacherId: int, subjectId: int, classLevel: int)
      requires Valid()
      modifies this
      ensures Valid()
      ensures store == old(store).(assignments := old(store.assignments) +
                [Assignment(NextKey(Keys(old(store.assignments), AssignmentKey)), teacherId, subjectId, classLevel)])
    {
      var row := Assignment(NextKey(Keys(store.assignments, AssignmentKey)), teacherId, subjectId, classLevel);
      UniqueKeysAppend(store.assignments, row, AssignmentKey);
      store := store.(assignments := store.assignments + [row]);
    }

    method DeleteTeacherAssignment(assignmentId: int)
      requires Valid()
      modifies this
      ensures Valid()
      ensures store == old(store).(assignments := WithoutKey(old(store.assignments), AssignmentKey, assignmentId))
    {
      WithoutKeyUnique(store.assignments, AssignmentKey, assignmentId);
      store := store.(assignments := WithoutKey(store.assignments, AssignmentKey, assignmentId));
    }

    /** The assignments that pass `p`, in table order: the WHERE clause of the join queries. */
    static method SelectAssignments(rows: seq<Assignment>, p: Assignment -> bool) returns (result: seq<Assignment>)
      ensures result == Filter(rows, p)
    {
      result := [];
      var i := 0;
      while i < |rows|
        invariant 0 <= i <= |rows|
        invariant result == Filter(rows[..i], p)
      {
        FilterStep(rows, i, p);
        if p(rows[i]) {
          result := result + [rows[i]];
        }
        i := i + 1;
      }
      assert rows[..i] == rows;
    }

    /** The two inner joins, one assignment at a time. */
    static method JoinRows(rows: seq<Assignment>, teachers: seq<Teacher>, subjects: seq<Subject>)
      returns (result: seq<TeacherAssignment>)
      ensures result == JoinAll(rows, teachers, subjects)
    {
      result := [];
      var i := 0;
      while i < |rows|
        invariant 0 <= i <= |rows|
        invariant result == JoinAll(rows[..i], teachers, subjects)
      {
        assert rows[..i + 1][..i] == rows[..i];
        result := result + Joined(rows[i], teachers, subjects);
        i := i + 1;
      }
      assert rows[..i] == rows;
    }

    /** The joined rows of the assignments that pass `p`. */
    method JoinWhere(p: Assignment -> bool) returns (result: seq<TeacherAssignment>)
      ensures result == JoinAll(Filter(store.assignments, p), store.teachers, store.subjects)
    {
      var selected := SelectAssignments(store.assignments, p);
      result := JoinRows(selected, store.teachers, store.subjects);
    }

    /** `getTeacherAssignments`: every assignment whose teacher and subject both exist, with their names. */
    method GetTeacherAssignments() returns (result: seq<TeacherAssignment>)
      ensures result == JoinAll(store.assignments, store.teachers, store.subjects)
    {
      result := JoinWhere(a => true);
      FilterAll(store.assignments, (a: Assignment) => true);
    }

    /** `getAssignmentsForTeacher`: the joined assignments of one teacher. */
    method GetAssignmentsForTeacher(teacherId: int) returns (result: seq<TeacherAssignment>)
      ensures result == JoinAll(Filter(store.assignments, ByTeacher(teacherId)), store.teachers, store.subjects)
      ensures forall x :: x in result ==> x.teacherId == teacherId
    {
      result := JoinWhere(ByTeacher(teacherId));
      forall x | x in result ensures x.teacherId == teacherId {
        JoinAllSound(Filter(store.assignments, ByTeacher(teacherId)), store.teachers, store.subjects, x);
        FilterMembers(store.assignments, ByTeacher(teacherId));
      }
    }

    /** `getAssignmentsForClass`: the joined assignments of one class level. */
    method GetAssignmentsForClass(classLevel: int) returns (result: seq<TeacherAssignment>)
      ensures result == JoinAll(Filter(store.assignments, ForClass(classLevel)), store.teachers, store.subjects)
      ensures forall x :: x in result ==> x.classLevel == classLevel
    {
      result := JoinWhere(ForClass(classLevel));
      forall x | x in result ensures x.classLevel == classLevel {
        JoinAllSound(Filter(store.assignments, ForClass(classLevel)), store.teachers, store.subjects, x);
        FilterMembers(store.assignments, ForClass(classLevel));
      }
    }

    // ---------------------------------------------------------------- search

    /**
     * `searchStudent`: an option outside 0..2 throws before any query; otherwise the students
     * whose selected column, the id as decimal text, contains the term ignoring case.
     */
    method SearchStudent(searchTerm: string, option: int) returns (r: Result<seq<Student>>)
      ensures StudentColumnFor(option).Err? ==> r == Err(StudentColumnFor(option).failure)
      ensures StudentColumnFor(option).Ok? ==>
                r == Ok(Filter(store.students, StudentMatches(StudentColumnFor(option).value, searchTerm)))
      ensures r.Ok? ==> forall s :: s in r.value <==>
                s in store.students && ContainsIgnoreCase(StudentText(StudentColumnFor(option).value, s), searchTerm)
    {
      var column := StudentColumnFor(option);
      if column.Err? {
        return Err(column.failure);
      }
      var matches := StudentMatches(column.value, searchTerm);
      var results := [];
      var i := 0;
      while i < |store.students|
        invariant 0 <= i <= |store.students|
        invariant results == Filter(store.students[..i], matches)
      {
        FilterStep(store.students, i, matches);
        if matches(store.students[i]) {
          results := results + [store.students[i]];
        }
        i := i + 1;
      }
      assert store.students[..i] == store.students;
      FilterMembers(store.students, matches);
      r := Ok(results);
    }

    /**
     * `searchTeacher`: an option outside 0..4 throws before any query; otherwise the teachers
     * whose selected column, the id as decimal text, contains the term ignoring case.
     */
    method SearchTeacher(searchTerm: string, option: int) returns (r: Result<seq<Teacher>>)
      ensures TeacherColumnFor(option).Err? ==> r == Err(TeacherColumnFor(option).failure)
      ensures TeacherColumnFor(option).Ok? ==>
                r == Ok(Filter(store.teachers, TeacherMatches(TeacherColumnFor(option).value, searchTerm)))
      ensures r.Ok? ==> forall t :: t in r.value <==>
                t in store.teachers && ContainsIgnoreCase(TeacherText(TeacherColumnFor(option).value, t), searchTerm)
    {
      var column := TeacherColumnFor(option);
      if column.Err? {
        return Err(column.failure);
      }
      var matches := TeacherMatches(column.value, searchTerm);
      var results := [];
      var i := 0;
      while i < |store.teachers|
        invariant 0 <= i <= |store.teachers|
        invariant results == Filter(store.teachers[..i], matches)
      {
        FilterStep(store.teachers, i, matches);
        if matches(store.teachers[i]) {
          results := results + [store.teachers[i]];
        }
        i := i + 1;
      }
      assert store.teachers[..i] == store.teachers;
      FilterMembers(store.teachers, matches);
      r := Ok(results);
    }

    // ---------------------------------------------------------------- batches

    /**
     * `addStudentsBatch`: the batch runs with auto-commit, so each insert is kept as it goes and
     * the first id already present stops the batch with the rows before it stored.
     */
    method AddStudentsBatch(newStudents: seq<Student>) returns (o: Outcome)
      requires Valid()
      modifies this
      ensures Valid()
      ensures store == old(store).(students := old(store.students) +
                newStudents[..InsertablePrefix(old(store.students), newStudents, StudentKey)])
      ensures o == if InsertablePrefix(old(store.students), newStudents, StudentKey) == |newStudents| then Done
                   else Fails(SqlFailure(SQLITE_CONSTRAINT, "UNIQUE constraint failed: students.std_id"))
    {
      var i := 0;
      while i < |newStudents|
        invariant 0 <= i <= |newStudents|
        invariant store == old(store).(students := old(store.students) + newStudents[..i])
        invariant InsertablePrefix(old(store.students), newStudents, StudentKey) ==
                  i + InsertablePrefix(store.students, newStudents[i..], StudentKey)
        invariant UniqueKeys(store.students, StudentKey)
      {
        var x := newStudents[i];
        assert newStudents[i..][0] == x && newStudents[i..][1..] == newStudents[i + 1..];
        if x.id in Keys(store.students, StudentKey) {
          return Fails(SqlFailure(SQLITE_CONSTRAINT, "UNIQUE constraint failed: students.std_id"));
        }
        UniqueKeysAppend(store.students, x, StudentKey);
        assert newStudents[..i + 1] == newStudents[..i] + [x];
        store := store.(students := store.students + [x]);
        i := i + 1;
      }
      assert newStudents[..i] == newStudents;
      o := Done;
    }

    /** `addTeachersBatch`: as for students, teacher by teacher with auto-commit. */
    method AddTeachersBatch(newTeachers: seq<Teacher>) returns (o: Outcome)
      requires Valid()
      modifies this
      ensures Valid()
      ensures store == old(store).(teachers := old(store.teachers) +
                newTeachers[..InsertablePrefix(old(store.teachers), newTeachers, TeacherKey)])
      ensures o == if InsertablePrefix(old(store.teachers), newTeachers, TeacherKey) == |newTeachers| then Done
                   else Fails(SqlFailure(SQLITE_CONSTRAINT, "UNIQUE constraint failed: teachers.tch_id"))
    {
      var i := 0;
      while i < |newTeachers|
        invariant 0 <= i <= |newTeachers|
        invariant store == old(store).(teachers := old(store.teachers) + newTeachers[..i])
        invariant InsertablePrefix(old(store.teachers), newTeachers, TeacherKey) ==
                  i + InsertablePrefix(store.teachers, newTeachers[i..], TeacherKey)
        invariant UniqueKeys(store.teachers, TeacherKey)
      {
        var x := newTeachers[i];
        assert newTeachers[i..][0] == x && newTeachers[i..][1..] == newTeachers[i + 1..];
        if x.id in Keys(store.teachers, TeacherKey) {
          return Fails(SqlFailure(SQLITE_CONSTRAINT, "UNIQUE constraint failed: teachers.tch_id"));
        }
        UniqueKeysAppend(store.teachers, x, TeacherKey);
        assert newTeachers[..i + 1] == newTeachers[..i] + [x];
        store := store.(teachers := store.teachers + [x]);
        i := i + 1;
      }
      assert newTeachers[..i] == newTeachers;
      o := Done;
    }

    // ---------------------------------------------------------------- attendance

    /** The delete batch of `saveAttendance`: one `DELETE ... WHERE student_id = ? AND attendance_date = ?` per record. */
    static method DeleteDays(rows: seq<AttendanceRow>, records: seq<AttendanceRecord>) returns (kept: seq<AttendanceRow>)
      requires forall i :: 0 <= i < |records| ==> records[i].date.Some?
      requires UniqueKeys(rows, AttendanceKey)
      ensures kept == Filter(rows, OutsideDays(DaysOf(records)))
      ensures UniqueKeys(kept, AttendanceKey)
    {
      assert DaysOf(records[..0]) == {};
      FilterAll(rows, OutsideDays({}));
      kept := rows;
      var i := 0;
      while i < |records|
        invariant 0 <= i <= |records|
        invariant kept == Filter(rows, OutsideDays(DaysOf(records[..i])))
        invariant UniqueKeys(kept, AttendanceKey)
      {
        var day := (records[i].studentId, records[i].date.value);
        UniqueKeysFilter(kept, NotOnDay(day), AttendanceKey);
        DeleteOneMoreDay(rows, DaysOf(records[..i]), day);
        DaysOfStep(records, i);
        kept := Filter(kept, NotOnDay(day));
        i := i + 1;
      }
      assert records[..i] == records;
    }

    /** The insert batch of `saveAttendance`: a record without a status fails the NOT NULL constraint. */
    static method InsertRecords(rows: seq<AttendanceRow>, records: seq<AttendanceRecord>) returns (r: Result<seq<AttendanceRow>>)
      requires forall i :: 0 <= i < |records| ==> records[i].date.Some?
      requires UniqueKeys(rows, AttendanceKey)
      ensures (exists i :: 0 <= i < |records| && records[i].status.None?) ==>
                r == Err(SqlFailure(SQLITE_CONSTRAINT, "NOT NULL constraint failed: student_attendance.status"))
      ensures (forall i :: 0 <= i < |records| ==> Complete(records[i])) ==>
                r == Ok(Inserted(rows, records)) && UniqueKeys(r.value, AttendanceKey)
    {
      var table := rows;
      var i := 0;
      while i < |records|
        invariant 0 <= i <= |records|
        invariant forall j :: 0 <= j < i ==> Complete(records[j])
        invariant table == Inserted(rows, records[..i])
        invariant UniqueKeys(table, AttendanceKey)
      {
        if records[i].status.None? {
          return Err(SqlFailure(SQLITE_CONSTRAINT, "NOT NULL constraint failed: student_attendance.status"));
        }
        var row := NewRow(table, records[i]);
        UniqueKeysAppend(table, row, AttendanceKey);
        InsertedStep(rows, records[..i + 1], i);
        assert records[..i + 1][..i] == records[..i];
        table := table + [row];
        i := i + 1;
      }
      assert records[..i] == records;
      r := Ok(table);
    }

    /**
     * `saveAttendance`: inside one transaction, every (student, day) of the records is deleted,
     * then every record is inserted; a failing statement rolls the table back.
     */
    method SaveAttendance(records: seq<AttendanceRecord>) returns (o: Outcome)
      requires Valid()
      modifies this
      ensures Valid()
      ensures records == [] ==> o == Done && store == old(store)
      ensures (exists i :: 0 <= i < |records| && records[i].date.None?) ==> o == Fails(NullPointer) && store == old(store)
      ensures (forall i :: 0 <= i < |records| ==> records[i].date.Some?) &&
              (exists i :: 0 <= i < |records| && records[i].status.None?) ==>
                o == Fails(SqlFailure(SQLITE_CONSTRAINT, "NOT NULL constraint failed: student_attendance.status")) &&
                store == old(store)
      ensures records != [] && (forall i :: 0 <= i < |records| ==> Complete(records[i])) ==>
                o == Done && store == old(store).(attendance := AttendanceSaved(old(store.attendance), records))
    {
      if records == [] {
        return Done;
      }
      // binding the batches reads every record's date
      var i := 0;
      while i < |records|
        invariant 0 <= i <= |records|
        invariant forall j :: 0 <= j < i ==> records[j].date.Some?
      {
        if records[i].date.None? {
          return Fails(NullPointer);
        }
        i := i + 1;
      }
      var saved := store;
      var kept := DeleteDays(store.attendance, records);
      store := store.(attendance := kept);
      var inserted := InsertRecords(kept, records);
      if inserted.Err? {
        store := saved;
        return Fails(inserted.failure);
      }
      store := store.(attendance := inserted.value);
      o := Done;
    }

    // ---------------------------------------------------------------- reports

    /** `getStudentCountPerClassName`: the student count of every class label, students without a class under "Unassigned". */
    method GetStudentCountPerClassName() returns (counts: map<string, int>)
      ensures counts == CountPerClassName(store.classes, store.students)
      ensures forall l :: l in counts <==> exists s :: s in store.students && ClassLabel(store.classes, s.level) == l
      ensures forall l :: l in counts ==> counts[l] == |Filter(store.students, LabelIs(store.classes, l))|
    {
      counts := map[];
      var i := 0;
      while i < |store.students|
        invariant 0 <= i <= |store.students|
        invariant counts == CountPerClassName(store.classes, store.students[..i])
      {
        assert store.students[..i + 1][..i] == store.students[..i];
        var tag := ClassLabel(store.classes, store.students[i].level);
        counts := counts[tag := (if tag in counts then counts[tag] else 0) + 1];
        i := i + 1;
      }
      assert store.students[..i] == store.students;
      CountPerClassNameCounts(store.classes, store.students);
    }
  }
}

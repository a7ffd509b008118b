/**
 * The table layout `setup` provisions, and the start-up migration that adds the `profile_pic`
 * column to a students or teachers table created by an older release.
 */
module Schema {
  import opened JavaText

  /** Table name to its column names, in declaration order. */
  type Layout = map<string, seq<string>>

  const PROFILE_PIC: string := "profile_pic"

  const STUDENT_COLUMNS: seq<string> :=
    ["std_id", "std_fname", "std_mname", "std_lname", "std_gender", "std_dob", "std_class", "profile_pic"]
  const ADMIN_COLUMNS: seq<string> := ["adm_id", "adm_name", "adm_username", "password"]
  const TEACHER_COLUMNS: seq<string> :=
    ["tch_id", "tch_name", "tch_contact", "tch_gender", "tch_email", "tch_address", "profile_pic"]
  const SUBJECT_COLUMNS: seq<string> := ["subject_id", "subject_name"]
  const ASSIGNMENT_COLUMNS: seq<string> := ["assignment_id", "teacher_id", "subject_id", "class_level"]
  const CLASS_COLUMNS: seq<string> := ["class_id", "class_name"]
  const ATTENDANCE_COLUMNS: seq<string> := ["attendance_id", "student_id", "attendance_date", "status"]
  const PAYMENT_COLUMNS: seq<string> :=
    ["payment_id", "student_id", "amount_paid", "payment_date", "term", "academic_year"]

  /** The eight `CREATE TABLE IF NOT EXISTS` statements of `setup`. */
  const CANONICAL: Layout := map[
    "students" := STUDENT_COLUMNS, "admin" := ADMIN_COLUMNS, "teachers" := TEACHER_COLUMNS,
    "subjects" := SUBJECT_COLUMNS, "teacher_assignments" := ASSIGNMENT_COLUMNS,
    "class_levels" := CLASS_COLUMNS, "student_attendance" := ATTENDANCE_COLUMNS,
    "student_payments" := PAYMENT_COLUMNS]

  /** Some column of the table equals `name` ignoring case. */
  predicate HasColumn(columns: seq<string>, name: string) {
    exists i :: 0 <= i < |columns| && EqualsIgnoreCase(columns[i], name)
  }

  /** `ALTER TABLE t ADD COLUMN profile_pic blob` when no column is called that, in any case. */
  function AddPicIfAbsent(columns: seq<string>): (r: seq<string>)
    ensures HasColumn(r, PROFILE_PIC)
    ensures HasColumn(columns, PROFILE_PIC) ==> r == columns
    ensures !HasColumn(columns, PROFILE_PIC) ==> r == columns + [PROFILE_PIC]
  {
    if HasColumn(columns, PROFILE_PIC) then columns
    else
      assert EqualsIgnoreCase((columns + [PROFILE_PIC])[|columns|], PROFILE_PIC);
      columns + [PROFILE_PIC]
  }

  /**
   * `migrateProfilePicColumns`: students first, then teachers. Inspecting a missing table throws,
   * and the single handler ends the whole migration, so a missing students table also leaves a
   * teachers table alone.
   */
  function ProfilePicMigrated(s: Layout): (r: Layout)
    ensures r.Keys == s.Keys
    ensures "students" in s ==> r["students"] == AddPicIfAbsent(s["students"])
    ensures "students" in s && "teachers" in s ==> r["teachers"] == AddPicIfAbsent(s["teachers"])
    ensures "students" !in s ==> r == s
    ensures forall t :: t in s && t != "students" && t != "teachers" ==> r[t] == s[t]
  {
    if "students" !in s then s
    else
      var s1 := s["students" := AddPicIfAbsent(s["students"])];
      if "teachers" !in s1 then s1
      else s1["teachers" := AddPicIfAbsent(s1["teachers"])]
  }

  /** The eight `CREATE TABLE IF NOT EXISTS` statements: absent tables are created, present ones left alone. */
  function TablesCreated(s: Layout): (r: Layout)
    ensures r.Keys == s.Keys + CANONICAL.Keys
    ensures forall t :: t in s ==> r[t] == s[t]
    ensures forall t :: t in CANONICAL && t !in s ==> r[t] == CANONICAL[t]
  {
    map t | t in s.Keys + CANONICAL.Keys :: if t in s then s[t] else CANONICAL[t]
  }

  /** The layout after `setup`: the profile-picture migration runs before the tables are created. */
  function AfterSetup(s: Layout): Layout {
    TablesCreated(ProfilePicMigrated(s))
  }

  lemma CanonicalHasPictures()
    ensures HasColumn(CANONICAL["students"], PROFILE_PIC)
    ensures HasColumn(CANONICAL["teachers"], PROFILE_PIC)
  {
    assert EqualsIgnoreCase(STUDENT_COLUMNS[7], PROFILE_PIC);
    assert EqualsIgnoreCase(TEACHER_COLUMNS[6], PROFILE_PIC);
  }

  /** After `setup` every table exists, and students and teachers both have a picture column. */
  lemma SetupProvisions(s: Layout)
    ensures CANONICAL.Keys <= AfterSetup(s).Keys
    ensures HasColumn(AfterSetup(s)["students"], PROFILE_PIC)
    ensures "students" in s || "teachers" !in s ==> HasColumn(AfterSetup(s)["teachers"], PROFILE_PIC)
  {
    CanonicalHasPictures();
  }

  /** A layout in which both migrated tables exist with their picture column is a fixed point of `setup`. */
  lemma SetupFixedPoint(s: Layout)
    requires CANONICAL.Keys <= s.Keys
    requires HasColumn(s["students"], PROFILE_PIC) && HasColumn(s["teachers"], PROFILE_PIC)
    ensures AfterSetup(s) == s
  {
    assert ProfilePicMigrated(s) == s;
  }

  /**
   * Running `setup` a second time changes nothing, unless the first run found a teachers table
   * without a picture column and no students table.
   */
  lemma SetupIdempotent(s: Layout)
    requires "students" in s || "teachers" !in s || HasColumn(s["teachers"], PROFILE_PIC)
    ensures AfterSetup(AfterSetup(s)) == AfterSetup(s)
  {
    SetupProvisions(s);
    CanonicalHasPictures();
    SetupFixedPoint(AfterSetup(s));
  }

  /** From the second run on, `setup` never changes the layout. */
  lemma SetupStable(s: Layout)
    ensures AfterSetup(AfterSetup(AfterSetup(s))) == AfterSetup(AfterSetup(s))
  {
    SetupProvisions(s);
    SetupIdempotent(AfterSetup(s));
  }

  /**
   * The exception: with no students table and a picture-less teachers table, the first run skips
   * the teachers table and creates students, so the second run alters teachers.
   */
  lemma SetupNotIdempotentFromLegacyTeachers()
    ensures var s: Layout := map["teachers" := ["tch_id", "tch_name"]];
            AfterSetup(AfterSetup(s))["teachers"] != AfterSetup(s)["teachers"]
  {
    var s: Layout := map["teachers" := ["tch_id", "tch_name"]];
    var cols := ["tch_id", "tch_name"];
    assert !HasColumn(cols, PROFILE_PIC) by {
      assert !EqualsIgnoreCase(cols[0], PROFILE_PIC);
      assert !EqualsIgnoreCase(cols[1], PROFILE_PIC);
    }
    assert AfterSetup(s)["teachers"] == cols;
    CanonicalHasPictures();
    assert AfterSetup(AfterSetup(s))["teachers"] == cols + [PROFILE_PIC];
  }
}

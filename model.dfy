/** The records the application stores: one datatype per row, and the shared Admin object. */
module Model {
  import opened Wrappers

  newtype byte = x: int | 0 <= x < 256

  /** A row of `students` (std_id, std_fname, std_mname, std_lname, std_gender, std_dob, std_class, profile_pic). */
  datatype Student = Student(
    id: int, firstName: string, middleName: string, lastName: string,
    gender: string, dateOfBirth: string, level: int, profilePic: Option<seq<byte>>)

  /** A row of `teachers` (tch_id, tch_name, tch_contact, tch_gender, tch_email, tch_address, profile_pic). */
  datatype Teacher = Teacher(
    id: int, name: string, contact: string, address: string,
    gender: string, email: string, profilePic: Option<seq<byte>>)

  /** A row of `admin`; the rows `fetchAllAdmins` returns carry no password. */
  datatype AdminRow = AdminRow(id: int, name: string, userName: string, password: Option<string>)

  datatype Subject = Subject(id: int, name: string)

  /** A row of `class_levels`. */
  datatype SchoolClass = SchoolClass(id: int, name: string)

  /** A row of `teacher_assignments`. */
  datatype Assignment = Assignment(id: int, teacherId: int, subjectId: int, classLevel: int)

  /** A teacher assignment joined with its teacher's and its subject's names. */
  datatype TeacherAssignment = TeacherAssignment(
    assignmentId: int, teacherId: int, teacherName: string,
    subjectId: int, subjectName: string, classLevel: int)

  /** What a caller hands to saveAttendance; the date is a java.util.Date's millisecond time. */
  datatype AttendanceRecord = AttendanceRecord(studentId: int, date: Option<int>, status: Option<string>)

  /** A row of `student_attendance`. */
  datatype AttendanceRow = AttendanceRow(id: int, studentId: int, date: int, status: string)

  function StudentKey(s: Student): int { s.id }
  function TeacherKey(t: Teacher): int { t.id }
  function AdminKey(a: AdminRow): int { a.id }
  function SubjectKey(s: Subject): int { s.id }
  function ClassKey(c: SchoolClass): int { c.id }
  function AssignmentKey(a: Assignment): int { a.id }
  function AttendanceKey(r: AttendanceRow): int { r.id }

  /** The one Admin object the running application shares between the login form, AuthService and the admin dialog. */
  class Admin {
    var id: int
    var name: Option<string>
    var userName: Option<string>
    var password: Option<string>

    constructor (id: int, name: Option<string>, userName: Option<string>, password: Option<string>)
      ensures this.id == id && this.name == name && this.userName == userName && this.password == password
    {
      this.id := id;
      this.name := name;
      this.userName := userName;
      this.password := password;
    }
  }
}

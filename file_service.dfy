/**
 * CSV export of a table view and CSV import of students and teachers. The file chooser and the
 * writer and reader are replaced by the text of the file.
 */
module Files {
  import opened Wrappers
  import opened JavaText
  import opened Tables
  import opened Model
  import opened StringUtils
  import opened Csv
  import opened DB

  // ---------------------------------------------------------------- export

  /** What a Swing table model offers: column names and one value per cell, `None` for null. */
  datatype TableView = TableView(columnNames: seq<string>, cells: seq<seq<Option<string>>>)

  /** Every row has a value for every column. */
  predicate Rectangular(view: TableView) {
    forall r :: 0 <= r < |view.cells| ==> |view.cells[r]| == |view.columnNames|
  }

  /** `obj == null ? "" : obj.toString()` */
  function CellText(cell: Option<string>): string {
    if cell.None? then "" else cell.value
  }

  function CellTexts(row: seq<Option<string>>): (r: seq<string>)
    ensures |r| == |row|
    ensures forall i :: 0 <= i < |row| ==> r[i] == CellText(row[i])
  {
    seq(|row|, i requires 0 <= i < |row| => CellText(row[i]))
  }

  /** A line of the export: the escaped values with a comma between neighbours. */
  function CsvLine(values: seq<string>): string {
    JoinFields(EscapeAll(values))
  }

  /** One line per row of the view. */
  function RowLines(cells: seq<seq<Option<string>>>): (r: seq<string>)
    ensures |r| == |cells|
    ensures forall i :: 0 <= i < |cells| ==> r[i] == CsvLine(CellTexts(cells[i]))
  {
    seq(|cells|, i requires 0 <= i < |cells| => CsvLine(CellTexts(cells[i])))
  }

  /** The lines of an export: the header, then one line per row. */
  function ExportLines(view: TableView): (r: seq<string>)
    ensures |r| == |view.cells| + 1
    ensures r[0] == CsvLine(view.columnNames) && r[1..] == RowLines(view.cells)
  {
    [CsvLine(view.columnNames)] + RowLines(view.cells)
  }

  lemma JoinFieldsStep(fields: seq<string>, i: nat)
    requires i < |fields|
    ensures JoinFields(fields[i..]) == fields[i] + (if i < |fields| - 1 then "," + JoinFields(fields[i + 1..]) else "")
  {
    assert fields[i..][1..] == fields[i + 1..];
  }

  lemma {:induction false} FileTextSnoc(lines: seq<string>, line: string)
    ensures FileText(lines + [line]) == FileText(lines) + line + "\n"
  {
    if lines != [] {
      assert (lines + [line])[1..] == lines[1..] + [line];
      FileTextSnoc(lines[1..], line);
    } else {
      assert [] + [line] == [line];
      assert FileText([line][1..]) == "";
    }
  }

  /** The inner loop of the export: one value after another, a comma after each but the last. */
  method WriteLine(values: seq<string>) returns (line: string)
    ensures line == CsvLine(values)
  {
    var fields := EscapeAll(values);
    line := "";
    for i := 0 to |values|
      invariant line + JoinFields(fields[i..]) == JoinFields(fields)
    {
      JoinFieldsStep(fields, i);
      var rest := JoinFields(fields[i + 1..]);
      if i < |values| - 1 {
        assert line + JoinFields(fields[i..]) == (line + fields[i] + ",") + rest;
        line := line + fields[i] + ",";
      } else {
        assert rest == "";
        line := line + fields[i];
      }
    }
    assert fields[|values|..] == [];
  }

  /** The outer loop of the export: each row's line followed by a line separator. */
  method WriteRows(cells: seq<seq<Option<string>>>) returns (text: string)
    ensures text == FileText(RowLines(cells))
  {
    ghost var lines := RowLines(cells);
    text := "";
    for row := 0 to |cells|
      invariant text == FileText(lines[..row])
    {
      var line := WriteLine(CellTexts(cells[row]));
      FileTextSnoc(lines[..row], line);
      assert lines[..row + 1] == lines[..row] + [line];
      text := text + line + "\n";
    }
    assert lines[..|cells|] == lines;
  }

  // ---------------------------------------------------------------- the rows the panels show

  /** A row of the students table as `fetchData` fills it: the class column holds the class name. */
  function StudentViewRow(rowNum: int, s: Student, className: string, picture: Option<string>): seq<Option<string>> {
    [Some(IntToString(rowNum)), Some(IntToString(s.id)), Some(s.firstName), Some(s.middleName),
     Some(s.lastName), Some(s.gender), Some(s.dateOfBirth), Some(className), picture]
  }

  /** A row of the teachers table as `fetchData` fills it. */
  function TeacherViewRow(rowNum: int, t: Teacher, picture: Option<string>): seq<Option<string>> {
    [Some(IntToString(rowNum)), Some(IntToString(t.id)), Some(t.name), Some(t.contact),
     Some(t.gender), Some(t.address), Some(t.email), picture]
  }

  // ---------------------------------------------------------------- import

  /** `StringUtils.unEscapeCsv(data[i])`, failing when the line has fewer fields. */
  function Field(data: seq<string>, i: nat): (r: Result<string>)
    ensures r.Err? ==> r.failure.IndexOutOfBounds?
    ensures i < |data| && !(StartsWith(data[i], "\"") && EndsWith(data[i], "\"")) ==> r == Ok(data[i])
  {
    if i >= |data| then Err(IndexOutOfBounds(i)) else UnEscapeCsv(data[i])
  }

  /** `Integer.parseInt(StringUtils.unEscapeCsv(data[i]))` */
  function IntField(data: seq<string>, i: nat): (r: Result<int>)
    ensures r.Err? ==> r.failure.IndexOutOfBounds? || r.failure.NumberFormat?
    ensures r.Ok? ==> IsInt32(r.value)
  {
    var text :- Field(data, i);
    ParseInt(text)
  }

  /** Fields 1 to 7 of an imported line, in the order the setters run; field 0 is the row number. */
  function ParseStudentFields(data: seq<string>): (r: Result<Student>)
    ensures r.Err? ==> !r.failure.SqlFailure?
    ensures r.Ok? ==> r.value.profilePic.None? && IsInt32(r.value.id) && IsInt32(r.value.level)
  {
    var id :- IntField(data, 1);
    var firstName :- Field(data, 2);
    var middleName :- Field(data, 3);
    var lastName :- Field(data, 4);
    var gender :- Field(data, 5);
    var dateOfBirth :- Field(data, 6);
    var level :- IntField(data, 7);
    Ok(Student(id, firstName, middleName, lastName, gender, dateOfBirth, level, None))
  }

  /** Fields 1 to 6 of an imported line: id, name, contact, gender, address, email. */
  function ParseTeacherFields(data: seq<string>): (r: Result<Teacher>)
    ensures r.Err? ==> !r.failure.SqlFailure?
    ensures r.Ok? ==> r.value.profilePic.None? && IsInt32(r.value.id)
  {
    var id :- IntField(data, 1);
    var name :- Field(data, 2);
    var contact :- Field(data, 3);
    var gender :- Field(data, 4);
    var address :- Field(data, 5);
    var email :- Field(data, 6);
    Ok(Teacher(id, name, contact, address, gender, email, None))
  }

  /** Every line parsed in order; the first line that fails decides the failure. */
  function ParseLines<T>(lines: seq<string>, parse: string -> Result<T>): (r: Result<seq<T>>)
    ensures r.Ok? ==> |r.value| == |lines| && forall i :: 0 <= i < |lines| ==> parse(lines[i]) == Ok(r.value[i])
    ensures r.Err? ==> exists i :: 0 <= i < |lines| && parse(lines[i]) == Err(r.failure)
  {
    if lines == [] then Ok([])
    else
      var init :- ParseLines(lines[..|lines| - 1], parse);
      var last :- parse(lines[|lines| - 1]);
      Ok(init + [last])
  }

  function ParseStudentLine(line: string): Result<Student> {
    ParseStudentFields(SplitCsvLine(line))
  }

  function ParseTeacherLine(line: string): Result<Teacher> {
    ParseTeacherFields(SplitCsvLine(line))
  }

  /** The students of the data lines; no line fails with a database error. */
  function ParseStudentLines(lines: seq<string>): (r: Result<seq<Student>>)
    ensures r.Err? ==> !r.failure.SqlFailure?
    ensures r.Ok? ==> |r.value| == |lines|
  {
    ParseLines(lines, ParseStudentLine)
  }

  function ParseTeacherLines(lines: seq<string>): (r: Result<seq<Teacher>>)
    ensures r.Err? ==> !r.failure.SqlFailure?
    ensures r.Ok? ==> |r.value| == |lines|
  {
    ParseLines(lines, ParseTeacherLine)
  }

  /** The lines after the header, which `readLine` skips. */
  function DataLines(text: string): seq<string> {
    var lines := ReadLines(text);
    if lines == [] then [] else lines[1..]
  }

  const CONFLICT_MESSAGE: string := "Import failed. " + "One or more records already exist in the database (ID conflict)."
  const IMPORT_ERROR_MESSAGE: string := "An error occurred during the import process."

  /** The message of the import's `done`: the count, an ID conflict for SQLite code 19, or a generic error. */
  function ImportMessage(result: Result<nat>): (m: string)
    ensures m == CONFLICT_MESSAGE <==> result.Err? && result.failure.SqlFailure? && result.failure.code == SQLITE_CONSTRAINT
  {
    match result
    case Ok(n) =>
      var m := "Successfully imported " + IntToString(n) + " records.";
      assert m[0] == 'S' && CONFLICT_MESSAGE[0] == 'I';
      m
    case Err(f) =>
      if f.SqlFailure? && f.code == SQLITE_CONSTRAINT then CONFLICT_MESSAGE
      else
        assert IMPORT_ERROR_MESSAGE[0] == 'A' && CONFLICT_MESSAGE[0] == 'I';
        IMPORT_ERROR_MESSAGE
  }

  // ---------------------------------------------------------------- export followed by import

  lemma IntTextHasNoLineBreak(n: int)
    ensures '\n' !in IntToString(n)
  {
    var digits := NatToString(if n < 0 then -n else n);
    assert forall i :: 0 <= i < |digits| ==> digits[i] != '\n';
    if n < 0 {
      assert IntToString(n) == "-" + digits;
    }
  }

  /** Each field of an exported line reads back as the text of its cell. */
  lemma FieldsOfExportedLine(texts: seq<string>)
    requires |texts| >= 1
    ensures |SplitCsvLine(CsvLine(texts))| == |texts|
    ensures forall i :: 0 <= i < |texts| ==> Field(SplitCsvLine(CsvLine(texts)), i) == Ok(texts[i])
  {
    ExportedLineRoundTrip(texts);
  }

  /** Fields that read as the texts of a student's values parse as that student, without a picture. */
  lemma StudentFieldsParse(data: seq<string>, s: Student, className: string)
    requires IsInt32(s.id)
    requires Field(data, 1) == Ok(IntToString(s.id)) && Field(data, 2) == Ok(s.firstName)
    requires Field(data, 3) == Ok(s.middleName) && Field(data, 4) == Ok(s.lastName)
    requires Field(data, 5) == Ok(s.gender) && Field(data, 6) == Ok(s.dateOfBirth)
    requires Field(data, 7) == Ok(className)
    ensures ParseInt(className) == Ok(s.level) ==> ParseStudentFields(data) == Ok(s.(profilePic := None))
    ensures ParseInt(className).Err? ==> ParseStudentFields(data) == Err(NumberFormat(className))
  {
    ParseIntToString(s.id);
  }

  lemma TeacherFieldsParse(data: seq<string>, t: Teacher)
    requires IsInt32(t.id)
    requires Field(data, 1) == Ok(IntToString(t.id)) && Field(data, 2) == Ok(t.name)
    requires Field(data, 3) == Ok(t.contact) && Field(data, 4) == Ok(t.gender)
    requires Field(data, 5) == Ok(t.address) && Field(data, 6) == Ok(t.email)
    ensures ParseTeacherFields(data) == Ok(t.(profilePic := None))
  {
    ParseIntToString(t.id);
  }

  /** A line written from the texts of a student's values is read back as that student. */
  lemma StudentTextsParse(texts: seq<string>, s: Student, className: string)
    requires IsInt32(s.id)
    requires |texts| == 9 && texts[1] == IntToString(s.id) && texts[2] == s.firstName
    requires texts[3] == s.middleName && texts[4] == s.lastName && texts[5] == s.gender
    requires texts[6] == s.dateOfBirth && texts[7] == className
    ensures ParseInt(className) == Ok(s.level) ==> ParseStudentLine(CsvLine(texts)) == Ok(s.(profilePic := None))
    ensures ParseInt(className).Err? ==> ParseStudentLine(CsvLine(texts)) == Err(NumberFormat(className))
  {
    FieldsOfExportedLine(texts);
    StudentFieldsParse(SplitCsvLine(CsvLine(texts)), s, className);
  }

  lemma TeacherTextsParse(texts: seq<string>, t: Teacher)
    requires IsInt32(t.id)
    requires |texts| == 8 && texts[1] == IntToString(t.id) && texts[2] == t.name && texts[3] == t.contact
    requires texts[4] == t.gender && texts[5] == t.address && texts[6] == t.email
    ensures ParseTeacherLine(CsvLine(texts)) == Ok(t.(profilePic := None))
  {
    FieldsOfExportedLine(texts);
    TeacherFieldsParse(SplitCsvLine(CsvLine(texts)), t);
  }

  /**
   * An exported student line imports as that student, without the picture, only when the class
   * column parses as the student's class id.
   */
  lemma StudentLineRoundTrip(rowNum: int, s: Student, className: string, picture: Option<string>)
    requires IsInt32(s.id)
    requires ParseInt(className) == Ok(s.level)
    ensures ParseStudentLine(CsvLine(CellTexts(StudentViewRow(rowNum, s, className, picture)))) == Ok(s.(profilePic := None))
  {
    StudentTextsParse(CellTexts(StudentViewRow(rowNum, s, className, picture)), s, className);
  }

  /**
   * The student export writes the class name where the import expects the class id: any name
   * that is not a number, such as "JHS 1", makes the import of that line fail.
   */
  lemma ClassNameColumnBreaksImport(rowNum: int, s: Student, className: string, picture: Option<string>)
    requires IsInt32(s.id)
    requires ParseInt(className).Err?
    ensures ParseStudentLine(CsvLine(CellTexts(StudentViewRow(rowNum, s, className, picture)))) == Err(NumberFormat(className))
  {
    StudentTextsParse(CellTexts(StudentViewRow(rowNum, s, className, picture)), s, className);
  }

  /** An exported teacher line imports as that teacher, without the picture. */
  lemma TeacherLineRoundTrip(rowNum: int, t: Teacher, picture: Option<string>)
    requires IsInt32(t.id)
    ensures ParseTeacherLine(CsvLine(CellTexts(TeacherViewRow(rowNum, t, picture)))) == Ok(t.(profilePic := None))
  {
    TeacherTextsParse(CellTexts(TeacherViewRow(rowNum, t, picture)), t);
  }

  /** The rows of the teachers view `fetchData` builds, numbered from 1, with the text shown for each picture. */
  function TeacherRows(teachers: seq<Teacher>, pictures: seq<Option<string>>): (cells: seq<seq<Option<string>>>)
    requires |pictures| == |teachers|
    ensures |cells| == |teachers|
    ensures forall i :: 0 <= i < |teachers| ==> cells[i] == TeacherViewRow(i + 1, teachers[i], pictures[i])
  {
    seq(|teachers|, i requires 0 <= i < |teachers| => TeacherViewRow(i + 1, teachers[i], pictures[i]))
  }

  /** The fields of a teacher that are written as text hold no line break. */
  predicate SingleLineTeacher(t: Teacher) {
    '\n' !in t.name && '\n' !in t.contact && '\n' !in t.gender && '\n' !in t.address && '\n' !in t.email
  }

  lemma RowHasNoLineBreak(row: seq<Option<string>>)
    requires forall i :: 0 <= i < |row| ==> '\n' !in CellText(row[i])
    ensures '\n' !in CsvLine(CellTexts(row))
  {
    var es := EscapeAll(CellTexts(row));
    forall i | 0 <= i < |es|
      ensures '\n' !in es[i]
    {
      EscapeKeepsLineBreaks(CellTexts(row)[i]);
    }
    JoinKeepsLineBreaks(es);
  }

  /**
   * Exporting the teachers table and importing the file gives every teacher back, in order and
   * without pictures, when no text field holds a line break.
   */
  lemma TeacherExportImport(columnNames: seq<string>, teachers: seq<Teacher>, pictures: seq<Option<string>>)
    requires |pictures| == |teachers|
    requires forall i :: 0 <= i < |columnNames| ==> '\n' !in columnNames[i]
    requires forall i :: 0 <= i < |teachers| ==> IsInt32(teachers[i].id) && SingleLineTeacher(teachers[i])
    requires forall i :: 0 <= i < |pictures| ==> '\n' !in CellText(pictures[i])
    ensures ParseTeacherLines(DataLines(FileText(ExportLines(TableView(columnNames, TeacherRows(teachers, pictures))))))
            == Ok(WithoutPictures(teachers))
  {
    var view := TableView(columnNames, TeacherRows(teachers, pictures));
    var lines := ExportLines(view);
    var rows := RowLines(view.cells);
    HeaderHasNoLineBreak(columnNames);
    TeacherRowLines(teachers, pictures);
    forall j | 0 <= j < |lines|
      ensures '\n' !in lines[j]
    {
      if j > 0 {
        assert lines[j] == rows[j - 1];
      }
    }
    ReadLinesFileText(lines);
    assert DataLines(FileText(lines)) == rows;
    ParseLinesAll(rows, ParseTeacherLine, WithoutPictures(teachers));
  }

  /** The teachers as the import reads them: everything but the picture. */
  function WithoutPictures(teachers: seq<Teacher>): (r: seq<Teacher>)
    ensures |r| == |teachers|
    ensures forall i :: 0 <= i < |teachers| ==> r[i] == teachers[i].(profilePic := None)
  {
    seq(|teachers|, i requires 0 <= i < |teachers| => teachers[i].(profilePic := None))
  }

  /** Each data line of a teachers export is a single line that reads back as its teacher. */
  lemma TeacherRowLines(teachers: seq<Teacher>, pictures: seq<Option<string>>)
    requires |pictures| == |teachers|
    requires forall i :: 0 <= i < |teachers| ==> IsInt32(teachers[i].id) && SingleLineTeacher(teachers[i])
    requires forall i :: 0 <= i < |pictures| ==> '\n' !in CellText(pictures[i])
    ensures var rows := RowLines(TeacherRows(teachers, pictures));
            forall k :: 0 <= k < |rows| ==> '\n' !in rows[k] && ParseTeacherLine(rows[k]) == Ok(WithoutPictures(teachers)[k])
  {
    var cells := TeacherRows(teachers, pictures);
    forall k | 0 <= k < |cells|
      ensures '\n' !in RowLines(cells)[k] && ParseTeacherLine(RowLines(cells)[k]) == Ok(WithoutPictures(teachers)[k])
    {
      TeacherRowReadsBack(k + 1, teachers[k], pictures[k]);
    }
  }

  lemma HeaderHasNoLineBreak(columnNames: seq<string>)
    requires forall i :: 0 <= i < |columnNames| ==> '\n' !in columnNames[i]
    ensures '\n' !in CsvLine(columnNames)
  {
    forall i | 0 <= i < |columnNames|
      ensures '\n' !in EscapeAll(columnNames)[i]
    {
      EscapeKeepsLineBreaks(columnNames[i]);
    }
    JoinKeepsLineBreaks(EscapeAll(columnNames));
  }

  /** The line of one teacher holds no line break and reads back as that teacher. */
  lemma TeacherRowReadsBack(rowNum: int, t: Teacher, picture: Option<string>)
    requires IsInt32(t.id) && SingleLineTeacher(t) && '\n' !in CellText(picture)
    ensures '\n' !in CsvLine(CellTexts(TeacherViewRow(rowNum, t, picture)))
    ensures ParseTeacherLine(CsvLine(CellTexts(TeacherViewRow(rowNum, t, picture)))) == Ok(t.(profilePic := None))
  {
    IntTextHasNoLineBreak(rowNum);
    IntTextHasNoLineBreak(t.id);
    RowHasNoLineBreak(TeacherViewRow(rowNum, t, picture));
    TeacherLineRoundTrip(rowNum, t, picture);
  }

  // ---------------------------------------------------------------- the service

  class FileService {
    const db: Database

    constructor (db: Database)
      ensures this.db == db
    {
      this.db := db;
    }

    /** `exportModelToCsv`: the text written to the chosen file. */
    method ExportModelToCsv(view: TableView) returns (text: string)
      requires Rectangular(view)
      ensures text == FileText(ExportLines(view))
      ensures ReadLines(text) == ExportLines(view) <==>
              forall i :: 0 <= i < |ExportLines(view)| ==> '\n' !in ExportLines(view)[i]
    {
      var header := WriteLine(view.columnNames);
      var rows := WriteRows(view.cells);
      text := header + "\n" + rows;
      assert ExportLines(view)[1..] == RowLines(view.cells);
      ReadLinesOfExport(ExportLines(view));
    }

    /** The import loop for students, then the batch when at least one line was read. */
    method ImportStudents(lines: seq<string>) returns (r: Result<nat>)
      requires db.Valid()
      modifies db
      ensures db.Valid()
      ensures ParseStudentLines(lines).Err? ==> r == Err(ParseStudentLines(lines).failure) && db.store == old(db.store)
      ensures ParseStudentLines(lines) == Ok([]) ==> r == Ok(0) && db.store == old(db.store)
      ensures ParseStudentLines(lines).Ok? && ParseStudentLines(lines).value != [] ==>
                var students := ParseStudentLines(lines).value;
                var k := InsertablePrefix(old(db.store.students), students, StudentKey);
                db.store == old(db.store).(students := old(db.store.students) + students[..k]) &&
                r == (if k == |students| then Ok(|students|)
                      else Err(SqlFailure(SQLITE_CONSTRAINT, "UNIQUE constraint failed: students.std_id")))
    {
      var students: seq<Student> := [];
      for i := 0 to |lines|
        invariant ParseLines(lines[..i], ParseStudentLine) == Ok(students)
      {
        assert lines[..i + 1][..i] == lines[..i];
        var student := ParseStudentLine(lines[i]);
        if student.Err? {
          ParseLinesFailure(lines, ParseStudentLine, i);
          return Err(student.failure);
        }
        students := students + [student.value];
      }
      assert lines[..|lines|] == lines;
      if students == [] {
        return Ok(0);
      }
      var o := db.AddStudentsBatch(students);
      if o.Fails? {
        return Err(o.failure);
      }
      r := Ok(|students|);
    }

    method ImportTeachers(lines: seq<string>) returns (r: Result<nat>)
      requires db.Valid()
      modifies db
      ensures db.Valid()
      ensures ParseTeacherLines(lines).Err? ==> r == Err(ParseTeacherLines(lines).failure) && db.store == old(db.store)
      ensures ParseTeacherLines(lines) == Ok([]) ==> r == Ok(0) && db.store == old(db.store)
      ensures ParseTeacherLines(lines).Ok? && ParseTeacherLines(lines).value != [] ==>
                var teachers := ParseTeacherLines(lines).value;
                var k := InsertablePrefix(old(db.store.teachers), teachers, TeacherKey);
                db.store == old(db.store).(teachers := old(db.store.teachers) + teachers[..k]) &&
                r == (if k == |teachers| then Ok(|teachers|)
                      else Err(SqlFailure(SQLITE_CONSTRAINT, "UNIQUE constraint failed: teachers.tch_id")))
    {
      var teachers: seq<Teacher> := [];
      for i := 0 to |lines|
        invariant ParseLines(lines[..i], ParseTeacherLine) == Ok(teachers)
      {
        assert lines[..i + 1][..i] == lines[..i];
        var teacher := ParseTeacherLine(lines[i]);
        if teacher.Err? {
          ParseLinesFailure(lines, ParseTeacherLine, i);
          return Err(teacher.failure);
        }
        teachers := teachers + [teacher.value];
      }
      assert lines[..|lines|] == lines;
      if teachers == [] {
        return Ok(0);
      }
      var o := db.AddTeachersBatch(teachers);
      if o.Fails? {
        return Err(o.failure);
      }
      r := Ok(|teachers|);
    }

    /**
     * `importFromCsv`: the header line is skipped; any other import type reads nothing. The
     * message of `done` names an ID conflict exactly when the batch stopped on a taken id.
     */
    method ImportFromCsv(importType: string, text: string) returns (r: Result<nat>)
      requires db.Valid()
      modifies db
      ensures db.Valid()
      ensures importType != "student" && importType != "teacher" ==> r == Ok(0) && db.store == old(db.store)
      ensures importType == "student" ==>
                (ImportMessage(r) == CONFLICT_MESSAGE <==>
                 ParseStudentLines(DataLines(text)).Ok? &&
                 InsertablePrefix(old(db.store.students), ParseStudentLines(DataLines(text)).value, StudentKey)
                   < |ParseStudentLines(DataLines(text)).value|)
      ensures importType == "teacher" ==>
                (ImportMessage(r) == CONFLICT_MESSAGE <==>
                 ParseTeacherLines(DataLines(text)).Ok? &&
                 InsertablePrefix(old(db.store.teachers), ParseTeacherLines(DataLines(text)).value, TeacherKey)
                   < |ParseTeacherLines(DataLines(text)).value|)
      ensures importType == "student" && ParseStudentLines(DataLines(text)).Err? ==> db.store == old(db.store)
      ensures importType == "teacher" && ParseTeacherLines(DataLines(text)).Err? ==> db.store == old(db.store)
    {
      var lines := DataLines(text);
      if importType == "student" {
        r := ImportStudents(lines);
      } else if importType == "teacher" {
        r := ImportTeachers(lines);
      } else {
        r := Ok(0);
      }
    }
  }

  /** The first line that fails to parse makes the whole import fail with its failure. */
  lemma {:induction false} ParseLinesFailure<T>(lines: seq<string>, parse: string -> Result<T>, i: nat)
    requires i < |lines|
    requires ParseLines(lines[..i], parse).Ok?
    requires parse(lines[i]).Err?
    ensures ParseLines(lines, parse) == Err(parse(lines[i]).failure)
    decreases |lines|
  {
    if i < |lines| - 1 {
      var n := |lines| - 1;
      assert lines[..n][..i] == lines[..i];
      ParseLinesFailure(lines[..n], parse, i);
    } else {
      assert lines[..|lines| - 1] == lines[..i];
    }
  }

  /** Lines that all parse give the parsed values in order. */
  lemma {:induction false} ParseLinesAll<T>(lines: seq<string>, parse: string -> Result<T>, values: seq<T>)
    requires |lines| == |values|
    requires forall i :: 0 <= i < |lines| ==> parse(lines[i]) == Ok(values[i])
    ensures ParseLines(lines, parse) == Ok(values)
  {
    if lines != [] {
      var n := |lines| - 1;
      ParseLinesAll(lines[..n], parse, values[..n]);
      assert values[..n] + [values[n]] == values;
    }
  }

  /** The lines of an export are read back exactly when none of them holds a line break. */
  lemma ReadLinesOfExport(lines: seq<string>)
    ensures ReadLines(FileText(lines)) == lines <==> forall i :: 0 <= i < |lines| ==> '\n' !in lines[i]
  {
    if forall i :: 0 <= i < |lines| ==> '\n' !in lines[i] {
      ReadLinesFileText(lines);
    } else {
      var i :| 0 <= i < |lines| && '\n' in lines[i];
      ReadLinesHaveNoBreaks(FileText(lines));
      var read := ReadLines(FileText(lines));
      assert i >= |read| || read[i] != lines[i];
    }
  }

  /** No line `readLine` returns holds a line break. */
  lemma {:induction false} ReadLinesHaveNoBreaks(text: string)
    ensures forall i :: 0 <= i < |ReadLines(text)| ==> '\n' !in ReadLines(text)[i]
    decreases |text|
  {
    if text != "" {
      match NewlineFrom(text, 0)
      case None =>
        assert forall j :: 0 <= j < |text| ==> text[j] != '\n';
      case Some(k) =>
        ReadLinesHaveNoBreaks(text[k + 1..]);
        assert forall j :: 0 <= j < k ==> text[..k][j] != '\n';
        var rest := ReadLines(text[k + 1..]);
        assert ReadLines(text) == [text[..k]] + rest;
    }
  }
}

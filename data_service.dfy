/**
 * The service layer between the panels and the database: the dependency check before a class
 * is deleted, the display name of a class level, and the direct student search.
 */
module Services {
  import opened Wrappers
  import opened JavaText
  import opened Tables
  import opened Model
  import opened StoreSpec
  import opened DB

  // ---------------------------------------------------------------- messages of deleteClass

  function Plural(n: int): string {
    if n > 1 then "s" else ""
  }

  const STUDENTS_BLOCKED := "Cannot delete class. It is assigned to "
  const STUDENTS_NOUN := " student"
  const STUDENTS_ADVICE := ". Please reassign them first."
  const ASSIGNMENTS_BLOCKED := "Cannot delete class. It is used in "
  const ASSIGNMENTS_NOUN := " teacher assignment"
  const ASSIGNMENTS_ADVICE := ". Please remove the assignments first."

  /** The refusal when students are still assigned to the class. */
  function StudentsBlockMessage(n: int): string {
    STUDENTS_BLOCKED + IntToString(n) + STUDENTS_NOUN + Plural(n) + STUDENTS_ADVICE
  }

  /** The refusal when teacher assignments still name the class. */
  function AssignmentsBlockMessage(n: int): string {
    ASSIGNMENTS_BLOCKED + IntToString(n) + ASSIGNMENTS_NOUN + Plural(n) + ASSIGNMENTS_ADVICE
  }

  /** The length of the run of digits that opens `s`. */
  function DigitRun(s: string): (r: nat)
    ensures r <= |s|
  {
    if s == [] || !IsDigit(s[0]) then 0 else 1 + DigitRun(s[1..])
  }

  lemma {:induction false} DigitRunOf(d: string, x: string)
    requires AllDigits(d)
    requires x != [] && !IsDigit(x[0])
    ensures DigitRun(d + x) == |d|
  {
    if d == [] {
      assert d + x == x;
    } else {
      assert (d + x)[0] == d[0];
      assert (d + x)[1..] == d[1..] + x;
      DigitRunOf(d[1..], x);
    }
  }

  /** Two digit strings followed by text that starts with a non-digit are split at the same place. */
  lemma DigitsPrefixUnique(d1: string, x1: string, d2: string, x2: string)
    requires AllDigits(d1) && AllDigits(d2)
    requires x1 != [] && !IsDigit(x1[0])
    requires x2 != [] && !IsDigit(x2[0])
    requires d1 + x1 == d2 + x2
    ensures d1 == d2
  {
    DigitRunOf(d1, x1);
    DigitRunOf(d2, x2);
    assert d1 == (d1 + x1)[..|d1|];
    assert d2 == (d2 + x2)[..|d2|];
  }

  lemma CancelPrefix(p: string, y1: string, y2: string)
    requires p + y1 == p + y2
    ensures y1 == y2
  {
    assert y1 == (p + y1)[|p|..];
    assert y2 == (p + y2)[|p|..];
  }

  /** A message that spells a positive count between a fixed prefix and a noun gives the count back. */
  lemma CountMessageInjective(prefix: string, noun: string, advice: string, a: int, b: int)
    requires a >= 1 && b >= 1
    requires noun != [] && !IsDigit(noun[0])
    requires prefix + IntToString(a) + noun + Plural(a) + advice == prefix + IntToString(b) + noun + Plural(b) + advice
    ensures a == b
  {
    var x1 := noun + Plural(a) + advice;
    var x2 := noun + Plural(b) + advice;
    assert prefix + IntToString(a) + noun + Plural(a) + advice == prefix + (IntToString(a) + x1);
    assert prefix + IntToString(b) + noun + Plural(b) + advice == prefix + (IntToString(b) + x2);
    CancelPrefix(prefix, IntToString(a) + x1, IntToString(b) + x2);
    DigitsPrefixUnique(IntToString(a), x1, IntToString(b), x2);
    IntToStringInjective(a, b);
  }

  /** The count a refusal reports can be read back from it: different counts, different messages. */
  lemma StudentsBlockMessageInjective(a: int, b: int)
    requires a >= 1 && b >= 1
    requires StudentsBlockMessage(a) == StudentsBlockMessage(b)
    ensures a == b
  {
    CountMessageInjective(STUDENTS_BLOCKED, STUDENTS_NOUN, STUDENTS_ADVICE, a, b);
  }

  lemma AssignmentsBlockMessageInjective(a: int, b: int)
    requires a >= 1 && b >= 1
    requires AssignmentsBlockMessage(a) == AssignmentsBlockMessage(b)
    ensures a == b
  {
    CountMessageInjective(ASSIGNMENTS_BLOCKED, ASSIGNMENTS_NOUN, ASSIGNMENTS_ADVICE, a, b);
  }

  /** The two refusals never read alike, so the user learns which dependency blocks the delete. */
  lemma BlockMessagesDiffer(a: int, b: int)
    ensures StudentsBlockMessage(a) != AssignmentsBlockMessage(b)
  {
    assert StudentsBlockMessage(a)[27] == 'a';
    assert AssignmentsBlockMessage(b)[27] == 'u';
  }

  // ---------------------------------------------------------------- class names

  /** `getClassName(int)` on the outcome of the lookup: a failed query reads "Error", a missing class "N/A". */
  function ClassNameFromLookup(lookup: Result<Option<string>>): string {
    match lookup
    case Err(_) => "Error"
    case Ok(None) => "N/A"
    case Ok(Some(name)) => name
  }

  /** The display name of class `classId` in `classes`, or "Error" when `queryFails`. */
  function ClassNameForId(classes: seq<SchoolClass>, classId: int, queryFails: bool): (r: string)
    ensures queryFails ==> r == "Error"
    ensures !queryFails && (forall c :: c in classes ==> c.id != classId) ==> r == "N/A"
    ensures !queryFails ==> r == "N/A" || exists c :: c in classes && c.id == classId && c.name == r
  {
    ClassNameFromLookup(if queryFails then Err(SqlFailure(0, "query failed")) else Ok(ClassNameOf(classes, classId)))
  }

  /** With unique class ids, a class that exists is shown by its own name. */
  lemma ClassNameForExistingId(classes: seq<SchoolClass>, c: SchoolClass)
    requires UniqueKeys(classes, ClassKey)
    requires c in classes
    ensures ClassNameForId(classes, c.id, false) == c.name
  {
    var found := FindKey(classes, ClassKey, c.id);
    var i :| 0 <= i < |classes| && classes[i] == c;
    assert ClassKey(classes[i]) == c.id;
    var j :| 0 <= j < |classes| && classes[j] == found.value;
  }

  /**
   * `getClassName(String)`: a missing or blank level reads "N/A"; a level that parses as an
   * integer is looked up by id; any other level is taken as a label and shown trimmed.
   */
  function ClassNameOfLevel(level: Option<string>, lookup: int -> string): (r: string)
    ensures (forall id :: lookup(id) != "") ==> r != ""
    ensures level.None? ==> r == "N/A"
  {
    if level.None? || IsBlank(level.value) then "N/A"
    else
      var trimmed := Trim(level.value);
      match ParseInt(trimmed)
      case Ok(id) => lookup(id)
      case Err(_) => trimmed
  }

  /** The class lookup of the service over the current classes. */
  function LookupIn(classes: seq<SchoolClass>, queryFails: bool): int -> string {
    (id: int) => ClassNameForId(classes, id, queryFails)
  }

  /** Digits and a minus sign are all above U+0020, so `trim` leaves the text of an integer alone. */
  lemma TrimIntToString(n: int)
    ensures Trim(IntToString(n)) == IntToString(n)
  {
    var s := IntToString(n);
    SignOfText(n);
    assert forall i :: 0 <= i < |s| ==> s[i] > ' ' by {
      forall i | 0 <= i < |s|
        ensures s[i] > ' '
      {
        if n < 0 {
          if i > 0 {
            assert s[i] == NatToString(-n)[i - 1];
          }
        }
      }
    }
    var t := TrimStart(s);
    assert t == s;
    assert TrimEnd(t) == t;
  }

  /** A level holding the text of a class id is resolved through the id lookup. */
  lemma LevelOfIdIsLookedUp(id: int, lookup: int -> string)
    requires IsInt32(id)
    ensures ClassNameOfLevel(Some(IntToString(id)), lookup) == lookup(id)
  {
    TrimIntToString(id);
    ParseIntToString(id);
    assert !IsBlank(IntToString(id));
  }

  /** Surrounding blanks do not change how an id level resolves. */
  lemma PaddedLevelOfIdIsLookedUp(id: int, lookup: int -> string)
    requires IsInt32(id)
    ensures ClassNameOfLevel(Some(" " + IntToString(id) + " "), lookup) == lookup(id)
  {
    var s := IntToString(id);
    var padded := " " + s + " ";
    TrimIntToString(id);
    ParseIntToString(id);
    assert TrimStart(padded) == s + " " by {
      assert padded == [' '] + (s + " ");
      assert TrimStart(s + " ") == s + " " by {
        assert (s + " ")[0] == s[0];
        assert TrimStart(s)[0] > ' ' && TrimStart(s) == s;
      }
    }
    assert TrimEnd(s + " ") == s by {
      assert (s + " ")[..|s|] == s;
      assert TrimEnd(s) == s;
    }
  }

  /** A level written in the digits of another script, such as ARABIC-INDIC DIGIT ONE, is an id too. */
  lemma OtherScriptLevelIsLookedUp(lookup: int -> string)
    ensures ClassNameOfLevel(Some("\U{661}"), lookup) == lookup(1)
  {
    ParseIntOtherScripts();
    assert ParseInt("\U{661}") == Ok(1);
    assert Trim("\U{661}") == "\U{661}";
  }

  /**
   * A level whose trimmed text holds a character that is neither a digit nor a sign, such as
   * "JHS 1", is taken as a label and shown without its padding.
   */
  lemma LabelLevelIsShownTrimmed(level: string, lookup: int -> string, i: int)
    requires 0 <= i < |Trim(level)|
    requires var c := Trim(level)[i]; !IsDigit(c) && c != '-' && c != '+'
    ensures ClassNameOfLevel(Some(level), lookup) == Trim(level)
  {
    var t := Trim(level);
    if t[0] == '-' || t[0] == '+' {
      assert t[1..][i - 1] == t[i];
    }
  }

  // ---------------------------------------------------------------- the service

  class DataService {
    const db: Database

    constructor(db: Database)
      ensures this.db == db
    {
      this.db := db;
    }

    /**
     * `deleteClass`: refuses while students are in the class, then while teacher assignments
     * name it, and otherwise deletes the class row.
     */
    method DeleteClass(classId: int) returns (o: Outcome)
      requires db.Valid()
      modifies db
      ensures db.Valid()
      ensures var n := |Filter(old(db.store.students), InClass(classId))|;
              n > 0 ==> o == Fails(IllegalState(StudentsBlockMessage(n))) && db.store == old(db.store)
      ensures var n := |Filter(old(db.store.students), InClass(classId))|;
              var m := |Filter(old(db.store.assignments), ForClass(classId))|;
              n == 0 && m > 0 ==> o == Fails(IllegalState(AssignmentsBlockMessage(m))) && db.store == old(db.store)
      ensures o.Done? <==>
              (forall s :: s in old(db.store.students) ==> s.level != classId) &&
              (forall a :: a in old(db.store.assignments) ==> a.classLevel != classId)
      ensures o.Done? ==> db.store == old(db.store).(classes := WithoutKey(old(db.store.classes), ClassKey, classId))
    {
      var studentCount := db.CountStudentsInClass(classId);
      if studentCount > 0 {
        return Fails(IllegalState(StudentsBlockMessage(studentCount)));
      }
      var assignmentCount := db.CountAssignmentsForClass(classId);
      if assignmentCount > 0 {
        return Fails(IllegalState(AssignmentsBlockMessage(assignmentCount)));
      }
      db.DeleteClass(classId);
      o := Done;
    }

    /** `getClassName(int)`; `queryFails` stands for the `SQLException` of the lookup. */
    method GetClassName(classId: int, queryFails: bool) returns (name: string)
      ensures name == ClassNameForId(db.store.classes, classId, queryFails)
    {
      if queryFails {
        return "Error";
      }
      var found := db.GetClassNameById(classId);
      name := if found.Some? then found.value else "N/A";
    }

    /** `getClassName(String)`, resolving numeric levels through `GetClassName`. */
    method GetClassNameOfLevel(level: Option<string>, queryFails: bool) returns (name: string)
      ensures name == ClassNameOfLevel(level, LookupIn(db.store.classes, queryFails))
    {
      if level.None? || IsBlank(level.value) {
        return "N/A";
      }
      var trimmed := Trim(level.value);
      var parsed := ParseInt(trimmed);
      if parsed.Ok? {
        name := GetClassName(parsed.value, queryFails);
      } else {
        name := trimmed;
      }
    }

    /** `searchAndReturn`: the student search, handed straight to the database. */
    method SearchAndReturn(searchTerm: string, option: int) returns (r: Result<seq<Student>>)
      ensures StudentColumnFor(option).Err? ==> r == Err(StudentColumnFor(option).failure)
      ensures StudentColumnFor(option).Ok? ==>
                r == Ok(Filter(db.store.students, StudentMatches(StudentColumnFor(option).value, searchTerm)))
    {
      r := db.SearchStudent(searchTerm, option);
    }
  }
}

/**
 * The choice of backend and the one-time copy of the local SQLite tables into an empty MySQL
 * database. Tables are seen here as JDBC sees them through `SELECT *`: positional rows of values.
 */
module Migration {
  import opened Wrappers
  import opened Prefs
  import Schema

  datatype Value = Null | Int(n: int) | Text(t: string) | Decimal(r: real)

  type Row = seq<Value>

  /** A table with `width` columns; the first column is its primary key. */
  datatype Table = Table(width: nat, rows: seq<Row>)

  type Tables = map<string, Table>

  /** MySQL's error codes for a wrong number of values, a repeated primary key and a missing table. */
  const ER_WRONG_VALUE_COUNT: int := 1136
  const ER_DUP_ENTRY: int := 1062
  const ER_NO_SUCH_TABLE: int := 1146

  /** The preference that records a finished migration. */
  const MIGRATED_KEY: string := "mysql_migrated"

  /** The tables `performMigrationIfNeeded` copies, in order, with the number of columns it copies of each. */
  const COPY_PLAN: seq<(string, nat)> :=
    [("admin", 4), ("students", 7), ("teachers", 6), ("student_attendance", 4), ("student_payments", 6)]

  // ---------------------------------------------------------------- the INSERT text

  /** `len` characters alternating '?' and ',', starting with '?'. */
  function Alternating(len: nat): (r: string)
    ensures |r| == len
  {
    seq(len, i => if i % 2 == 0 then '?' else ',')
  }

  /** `n` placeholders separated by commas. */
  function Placeholders(n: nat): (r: string)
    ensures n == 0 ==> r == ""
    ensures n > 0 ==> |r| == 2 * n - 1 && r[0] == '?' && r[|r| - 1] == '?'
  {
    Alternating(if n == 0 then 0 else 2 * n - 1)
  }

  function InsertSql(tableName: string, n: nat): string {
    "INSERT INTO " + tableName + " VALUES (" + Placeholders(n) + ")"
  }

  /** The number of occurrences of `c` in `s`. */
  function Occurrences(s: string, c: char): nat {
    if s == [] then 0 else Occurrences(s[..|s| - 1], c) + (if s[|s| - 1] == c then 1 else 0)
  }

  /** The placeholder list holds exactly `n` question marks, one per copied column. */
  lemma {:induction false} PlaceholderCount(n: nat)
    ensures Occurrences(Placeholders(n), '?') == n
    ensures Occurrences(Placeholders(n), ',') == if n == 0 then 0 else n - 1
  {
    if n > 1 {
      PlaceholderCount(n - 1);
      var p := Placeholders(n);
      assert p[..|p| - 1][..|p| - 2] == Placeholders(n - 1);
    }
  }

  lemma AlternatingStep(len: nat, c: char)
    requires c == (if len % 2 == 0 then '?' else ',')
    ensures Alternating(len) + [c] == Alternating(len + 1)
  {
  }

  /** `migrateTable`'s StringBuilder loop. */
  method BuildInsertSql(tableName: string, columnCount: nat) returns (sql: string)
    ensures sql == InsertSql(tableName, columnCount)
  {
    var head := "INSERT INTO " + tableName + " VALUES (";
    var built := head;
    for i := 0 to columnCount
      invariant built == head + Alternating(if i == columnCount && i > 0 then 2 * i - 1 else 2 * i)
    {
      AlternatingStep(2 * i, '?');
      built := built + "?";
      if i < columnCount - 1 {
        AlternatingStep(2 * i + 1, ',');
        built := built + ",";
      }
    }
    sql := built + ")";
  }

  // ---------------------------------------------------------------- copying one table

  /** Some row of `t` has the same primary key as `row`. */
  predicate KeyTaken(t: Table, row: Row) {
    row != [] && exists r :: r in t.rows && r != [] && r[0] == row[0]
  }

  /** One positional `INSERT INTO t VALUES (...)` on an existing destination table. */
  function InsertRow(t: Table, row: Row): (r: Result<Table>)
    ensures r.Ok? <==> |row| == t.width && !KeyTaken(t, row)
    ensures r.Ok? ==> r.value == t.(rows := t.rows + [row])
  {
    if |row| != t.width then Err(SqlFailure(ER_WRONG_VALUE_COUNT, "Column count doesn't match value count"))
    else if KeyTaken(t, row) then Err(SqlFailure(ER_DUP_ENTRY, "Duplicate entry for key 'PRIMARY'"))
    else Ok(t.(rows := t.rows + [row]))
  }

  /** The destination table after a batch, and the first statement failure if any. */
  datatype BatchRun = BatchRun(table: Table, failure: Option<Failure>)

  /**
   * `executeBatch` as the MySQL driver runs it by default: every statement is tried, a failing
   * one is skipped, and the batch reports a failure when any statement failed.
   */
  function RunBatch(t: Table, batch: seq<Row>): (r: BatchRun)
    ensures r.table.width == t.width
    ensures |t.rows| <= |r.table.rows| <= |t.rows| + |batch|
    ensures r.table.rows[..|t.rows|] == t.rows
    ensures r.failure.None? ==> r.table.rows == t.rows + batch
    ensures batch == [] ==> r == BatchRun(t, None)
  {
    if batch == [] then BatchRun(t, None)
    else
      var before := RunBatch(t, batch[..|batch| - 1]);
      match InsertRow(before.table, batch[|batch| - 1])
      case Ok(grown) =>
        assert batch == batch[..|batch| - 1] + [batch[|batch| - 1]];
        assert grown.rows[..|t.rows|] == before.table.rows[..|t.rows|];
        BatchRun(grown, before.failure)
      case Err(f) => BatchRun(before.table, if before.failure.Some? then before.failure else Some(f))
  }

  /** The failure of a batch on a table the destination does not have: every statement fails. */
  function MissingTable(name: string): Failure {
    SqlFailure(ER_NO_SUCH_TABLE, "Table '" + name + "' doesn't exist")
  }

  /** The first `n` values of every row, as `getObject(1..n)` reads them. */
  function Project(rows: seq<Row>, n: nat): (r: seq<Row>)
    requires forall i :: 0 <= i < |rows| ==> n <= |rows[i]|
    ensures |r| == |rows|
    ensures forall i :: 0 <= i < |rows| ==> r[i] == rows[i][..n]
  {
    seq(|rows|, i requires 0 <= i < |rows| => rows[i][..n])
  }

  /** Some source row has fewer than `n` columns, so binding its values fails. */
  predicate ShortRow(rows: seq<Row>, n: nat) {
    exists i :: 0 <= i < |rows| && |rows[i]| < n
  }

  /** `migrateTable(source, dest, name, n)`: the destination after the copy and what was thrown. */
  function CopyTable(source: Tables, dest: Tables, name: string, n: nat): (r: (Tables, Outcome))
    ensures r.1.Fails? && (name !in source || ShortRow(source[name].rows, n)) ==> r.0 == dest
    ensures r.0.Keys == dest.Keys
    ensures forall t :: t in dest && t != name ==> r.0[t] == dest[t]
  {
    if name !in source then (dest, Fails(SqlFailure(0, "no such table: " + name)))
    else if ShortRow(source[name].rows, n) then (dest, Fails(SqlFailure(0, "column index out of range")))
    else
      var batch := Project(source[name].rows, n);
      if name !in dest then (dest, if batch == [] then Done else Fails(MissingTable(name)))
      else
        var run := RunBatch(dest[name], batch);
        (dest[name := run.table], if run.failure.None? then Done else Fails(run.failure.value))
  }

  /** The primary keys of the rows are pairwise different and none is already in `t`. */
  predicate FreshKeys(t: Table, rows: seq<Row>) {
    (forall i :: 0 <= i < |rows| ==> rows[i] != [] && !KeyTaken(t, rows[i])) &&
    (forall i, j :: 0 <= i < j < |rows| ==> rows[i][0] != rows[j][0])
  }

  lemma FreshKeysPrefix(t: Table, rows: seq<Row>, k: nat)
    requires k <= |rows|
    requires FreshKeys(t, rows)
    ensures FreshKeys(t, rows[..k])
  {
  }

  /** The key of a row that is neither in `t` nor among the fresh rows added before it is still free. */
  lemma FreshAfterPrefix(t: Table, batch: seq<Row>, k: nat)
    requires k < |batch|
    requires FreshKeys(t, batch)
    ensures !KeyTaken(t.(rows := t.rows + batch[..k]), batch[k])
  {
    var grown := t.rows + batch[..k];
    forall r | r in grown && r != []
      ensures r[0] != batch[k][0]
    {
      var j :| 0 <= j < |grown| && grown[j] == r;
      if j < |t.rows| {
        assert r in t.rows;
      } else {
        assert r == batch[j - |t.rows|];
      }
    }
  }

  /** A batch of rows of the right width with fresh keys goes in whole and in order. */
  lemma {:induction false} RunBatchAllFresh(t: Table, batch: seq<Row>)
    requires forall i :: 0 <= i < |batch| ==> |batch[i]| == t.width
    requires FreshKeys(t, batch)
    ensures RunBatch(t, batch) == BatchRun(t.(rows := t.rows + batch), None)
  {
    if batch != [] {
      var k := |batch| - 1;
      FreshKeysPrefix(t, batch, k);
      RunBatchAllFresh(t, batch[..k]);
      FreshAfterPrefix(t, batch, k);
      assert t.rows + batch[..k] + [batch[k]] == t.rows + batch;
    }
  }

  /**
   * Copying into a table of matching width that shares no key with the source adds every
   * source row, cut to the copied columns, after the rows it had: as many rows as the source has.
   */
  lemma CopyTableComplete(source: Tables, dest: Tables, name: string, n: nat)
    requires name in source && name in dest
    requires dest[name].width == n
    requires forall i :: 0 <= i < |source[name].rows| ==> |source[name].rows[i]| >= n
    requires FreshKeys(dest[name], Project(source[name].rows, n))
    ensures CopyTable(source, dest, name, n) ==
            (dest[name := dest[name].(rows := dest[name].rows + Project(source[name].rows, n))], Done)
    ensures |CopyTable(source, dest, name, n).0[name].rows| == |dest[name].rows| + |source[name].rows|
  {
    RunBatchAllFresh(dest[name], Project(source[name].rows, n));
  }

  /** Every statement of a batch whose rows all fail leaves the destination as it was. */
  lemma {:induction false} RunBatchAllRejected(t: Table, batch: seq<Row>)
    requires forall i :: 0 <= i < |batch| ==> InsertRow(t, batch[i]).Err?
    ensures RunBatch(t, batch).table == t
    ensures batch != [] ==> RunBatch(t, batch).failure.Some?
  {
    if batch != [] {
      RunBatchAllRejected(t, batch[..|batch| - 1]);
      assert InsertRow(t, batch[|batch| - 1]).Err?;
    }
  }

  /** Copying fewer columns than the destination table has fails on every row and copies nothing. */
  lemma WidthMismatchCopiesNothing(source: Tables, dest: Tables, name: string, n: nat)
    requires name in source && source[name].rows != []
    requires name in dest && dest[name].width != n
    ensures CopyTable(source, dest, name, n).1.Fails?
    ensures CopyTable(source, dest, name, n).0 == dest
  {
    var rows := source[name].rows;
    if !ShortRow(rows, n) {
      RunBatchAllRejected(dest[name], Project(rows, n));
    }
  }

  /** Copying rows whose keys are all present already fails on every row and copies nothing. */
  lemma DuplicatesCopyNothing(source: Tables, dest: Tables, name: string, n: nat)
    requires name in source && source[name].rows != []
    requires name in dest
    requires forall i :: 0 <= i < |source[name].rows| ==>
               n <= |source[name].rows[i]| && KeyTaken(dest[name], source[name].rows[i][..n])
    ensures CopyTable(source, dest, name, n).1.Fails?
    ensures CopyTable(source, dest, name, n).0 == dest
  {
    RunBatchAllRejected(dest[name], Project(source[name].rows, n));
  }

  // ---------------------------------------------------------------- the whole migration

  /** The tables of `plan` copied in order, stopping at the first failure. */
  function CopyAll(source: Tables, dest: Tables, plan: seq<(string, nat)>): (r: (Tables, Outcome))
    ensures r.0.Keys == dest.Keys
    ensures plan == [] ==> r == (dest, Done)
    ensures forall t :: t in dest && (forall k :: 0 <= k < |plan| ==> plan[k].0 != t) ==> r.0[t] == dest[t]
  {
    if plan == [] then (dest, Done)
    else
      var step := CopyTable(source, dest, plan[0].0, plan[0].1);
      if step.1.Fails? then step
      else
        var rest := CopyAll(source, step.0, plan[1..]);
        assert forall k :: 0 <= k < |plan[1..]| ==> plan[1..][k] == plan[k + 1];
        rest
  }

  /**
   * Against a students table with the 8 columns `setup` gives it, copying 7 of them fails: whenever
   * the local students table has a row, the migration fails at or before the students copy, and no
   * table but `admin` has changed.
   */
  lemma FirstAttemptFailsAtStudents(source: Tables, dest: Tables)
    requires "students" in dest && dest["students"].width == |Schema.STUDENT_COLUMNS|
    requires "students" in source && source["students"].rows != []
    ensures CopyAll(source, dest, COPY_PLAN).1.Fails?
    ensures forall t :: t in dest && t != "admin" ==> CopyAll(source, dest, COPY_PLAN).0[t] == dest[t]
  {
    var admin := CopyTable(source, dest, "admin", 4);
    if admin.1.Done? {
      assert admin.0["students"] == dest["students"];
      WidthMismatchCopiesNothing(source, admin.0, "students", 7);
      assert COPY_PLAN[1..][0] == ("students", 7);
      assert CopyAll(source, admin.0, COPY_PLAN[1..]) == CopyTable(source, admin.0, "students", 7);
    }
  }

  /** A retry after admin rows were copied fails at once on their keys and changes nothing. */
  lemma RetryFailsAtAdmin(source: Tables, dest: Tables)
    requires "admin" in source && source["admin"].rows != []
    requires "admin" in dest
    requires forall i :: 0 <= i < |source["admin"].rows| ==>
               4 <= |source["admin"].rows[i]| && KeyTaken(dest["admin"], source["admin"].rows[i][..4])
    ensures CopyAll(source, dest, COPY_PLAN) == (dest, CopyTable(source, dest, "admin", 4).1)
    ensures CopyAll(source, dest, COPY_PLAN).1.Fails?
  {
    DuplicatesCopyNothing(source, dest, "admin", 4);
  }

  /** The `while (rs.next())` loop: every row cut to the copied columns, or the failure of a short row. */
  method ReadBatch(rows: seq<Row>, n: nat) returns (r: Result<seq<Row>>)
    ensures ShortRow(rows, n) ==> r == Err(SqlFailure(0, "column index out of range"))
    ensures !ShortRow(rows, n) ==> r == Ok(Project(rows, n))
  {
    var batch: seq<Row> := [];
    var i := 0;
    while i < |rows|
      invariant 0 <= i <= |rows|
      invariant forall j :: 0 <= j < i ==> n <= |rows[j]|
      invariant batch == Project(rows[..i], n)
    {
      if |rows[i]| < n {
        return Err(SqlFailure(0, "column index out of range"));
      }
      batch := batch + [rows[i][..n]];
      i := i + 1;
    }
    assert rows[..i] == rows;
    r := Ok(batch);
  }

  // ---------------------------------------------------------------- the objects

  /** The insert loop of `executeBatch` on one table. */
  method InsertEach(t: Table, batch: seq<Row>) returns (run: BatchRun)
    ensures run == RunBatch(t, batch)
  {
    run := BatchRun(t, None);
    var k := 0;
    while k < |batch|
      invariant 0 <= k <= |batch|
      invariant run == RunBatch(t, batch[..k])
    {
      RunBatchStep(t, batch, k);
      var step := InsertRow(run.table, batch[k]);
      if step.Ok? {
        run := run.(table := step.value);
      } else if run.failure.None? {
        run := run.(failure := Some(step.failure));
      }
      k := k + 1;
    }
    assert batch[..k] == batch;
  }

  /** One more statement of a batch: its row is added, or its failure kept when it is the first. */
  lemma RunBatchStep(t: Table, batch: seq<Row>, k: nat)
    requires k < |batch|
    ensures var before := RunBatch(t, batch[..k]);
            var step := InsertRow(before.table, batch[k]);
            RunBatch(t, batch[..k + 1]) ==
              if step.Ok? then BatchRun(step.value, before.failure)
              else BatchRun(before.table, if before.failure.Some? then before.failure else Some(step.failure))
  {
    assert batch[..k + 1][..k] == batch[..k];
  }

  /** A database server or file, holding its tables. */
  class Backend {
    var tables: Tables

    constructor (tables: Tables)
      ensures this.tables == tables
    {
      this.tables := tables;
    }

    /** `executeBatch` on this backend: each insert in turn, the first failure kept. */
    method ExecuteBatch(name: string, batch: seq<Row>) returns (failure: Option<Failure>)
      modifies this
      ensures name !in old(tables) ==>
                tables == old(tables) && failure == (if batch == [] then None else Some(MissingTable(name)))
      ensures name in old(tables) ==>
                tables == old(tables)[name := RunBatch(old(tables)[name], batch).table] &&
                failure == RunBatch(old(tables)[name], batch).failure
    {
      if name !in tables {
        return if batch == [] then None else Some(MissingTable(name));
      }
      var run := InsertEach(tables[name], batch);
      tables := tables[name := run.table];
      failure := run.failure;
    }
  }

  class DataSource {
    /** Whether the MySQL test connection of the static initialiser succeeded; never reassigned. */
    const isMySql: bool
    const primary: Backend
    const fallback: Backend
    const prefs: Preferences

    /** The static initialiser; `mysqlReachable` is the outcome of its test connection. */
    constructor (mysqlReachable: bool, primary: Backend, fallback: Backend, prefs: Preferences)
      ensures isMySql == mysqlReachable
      ensures this.primary == primary && this.fallback == fallback && this.prefs == prefs
    {
      isMySql := mysqlReachable;
      this.primary := primary;
      this.fallback := fallback;
      this.prefs := prefs;
    }

    function IsUsingMySql(): (r: bool)
      ensures r == isMySql
    {
      isMySql
    }

    /** `migrateTable`: reads every row of the local table, then runs the batch of inserts. */
    method MigrateTable(tableName: string, columnCount: nat) returns (o: Outcome)
      requires primary != fallback
      modifies primary
      ensures (primary.tables, o) == CopyTable(fallback.tables, old(primary.tables), tableName, columnCount)
    {
      var insertSql := BuildInsertSql(tableName, columnCount);
      if tableName !in fallback.tables {
        return Fails(SqlFailure(0, "no such table: " + tableName));
      }
      var batch := ReadBatch(fallback.tables[tableName].rows, columnCount);
      if batch.Err? {
        return Fails(batch.failure);
      }
      var failure := primary.ExecuteBatch(tableName, batch.value);
      o := if failure.None? then Done else Fails(failure.value);
    }

    /**
     * `performMigrationIfNeeded`. The `Outcome` is what the method catches and reports; the
     * tables copied before a failure stay copied.
     */
    method PerformMigrationIfNeeded() returns (o: Outcome)
      requires primary != fallback
      modifies primary, prefs
      ensures !isMySql || old(prefs.GetBoolean(MIGRATED_KEY, false)) ==>
                o == Done && primary.tables == old(primary.tables) && prefs.entries == old(prefs.entries)
      ensures isMySql && !old(prefs.GetBoolean(MIGRATED_KEY, false)) && "students" !in old(primary.tables) ==>
                o.Fails? && primary.tables == old(primary.tables) && prefs.entries == old(prefs.entries)
      ensures isMySql && !old(prefs.GetBoolean(MIGRATED_KEY, false)) && "students" in old(primary.tables) &&
              old(primary.tables["students"].rows) != [] ==>
                o == Done && primary.tables == old(primary.tables) &&
                prefs.entries == old(prefs.entries)[MIGRATED_KEY := "true"]
      ensures isMySql && !old(prefs.GetBoolean(MIGRATED_KEY, false)) && "students" in old(primary.tables) &&
              old(primary.tables["students"].rows) == [] ==>
                (primary.tables, o) == CopyAll(fallback.tables, old(primary.tables), COPY_PLAN) &&
                prefs.entries == (if o.Done? then old(prefs.entries)[MIGRATED_KEY := "true"] else old(prefs.entries))
      ensures o.Done? <==> prefs.GetBoolean(MIGRATED_KEY, false)  || !isMySql
    {
      if !IsUsingMySql() || prefs.GetBoolean(MIGRATED_KEY, false) {
        return Done;
      }
      if "students" !in primary.tables {
        return Fails(SqlFailure(ER_NO_SUCH_TABLE, "Table 'students' doesn't exist"));
      }
      if |primary.tables["students"].rows| > 0 {
        prefs.PutBoolean(MIGRATED_KEY, true);
        return Done;
      }
      var i := 0;
      while i < |COPY_PLAN|
        invariant 0 <= i <= |COPY_PLAN|
        invariant prefs.entries == old(prefs.entries)
        invariant CopyAll(fallback.tables, old(primary.tables), COPY_PLAN) ==
                  CopyAll(fallback.tables, primary.tables, COPY_PLAN[i..])
      {
        assert COPY_PLAN[i..][1..] == COPY_PLAN[i + 1..];
        var step := MigrateTable(COPY_PLAN[i].0, COPY_PLAN[i].1);
        if step.Fails? {
          return step;
        }
        i := i + 1;
      }
      prefs.PutBoolean(MIGRATED_KEY, true);
      o := Done;
    }
  }
}

/**
 * The CSV text of export and import: fields joined by commas, the split of a line at the commas
 * that lie outside quotes, and the lines of a file.
 */
module Csv {
  import opened Wrappers
  import opened StringUtils

  /** Fields written one after another with a comma between two neighbours and none at the end. */
  function JoinFields(fields: seq<string>): string {
    if |fields| == 0 then ""
    else if |fields| == 1 then fields[0]
    else fields[0] + "," + JoinFields(fields[1..])
  }

  /** `escapeCsv` applied to every value. */
  function EscapeAll(values: seq<string>): (r: seq<string>)
    ensures |r| == |values|
    ensures forall i :: 0 <= i < |values| ==> r[i] == EscapeCsv(values[i])
  {
    seq(|values|, i requires 0 <= i < |values| => EscapeCsv(values[i]))
  }

  // ---------------------------------------------------------------- splitting a line

  /**
   * The comma at `i` matches `,(?=(?:[^"]*"[^"]*")*[^"]*$)`: what follows it up to the end of
   * the line holds an even number of quotes, so the comma is not inside a quoted field.
   */
  predicate SeparatorAt(line: string, i: int) {
    0 <= i < |line| && line[i] == ',' && QuoteCount(line[i + 1..]) % 2 == 0
  }

  function FirstSeparatorFrom(line: string, k: nat): (r: Option<nat>)
    requires k <= |line|
    ensures r.Some? ==> k <= r.value < |line| && SeparatorAt(line, r.value)
    ensures r.Some? ==> forall j :: k <= j < r.value ==> !SeparatorAt(line, j)
    ensures r.None? ==> forall j :: k <= j < |line| ==> !SeparatorAt(line, j)
    decreases |line| - k
  {
    if k == |line| then None
    else if SeparatorAt(line, k) then Some(k)
    else FirstSeparatorFrom(line, k + 1)
  }

  /** The first separator of a line is the one at `p` when none comes before it. */
  lemma FirstSeparatorIs(line: string, p: nat)
    requires SeparatorAt(line, p)
    requires forall j :: 0 <= j < p ==> !SeparatorAt(line, j)
    ensures FirstSeparatorFrom(line, 0) == Some(p)
  {
  }

  /**
   * `line.split(",(?=(?:[^\"]*\"[^\"]*\")*[^\"]*$)", -1)`: the pieces between separators, the
   * empty ones included, so a line always gives at least one field.
   */
  function SplitCsvLine(line: string): (r: seq<string>)
    ensures |r| >= 1
    decreases |line|
  {
    match FirstSeparatorFrom(line, 0)
    case None => [line]
    case Some(i) => [line[..i]] + SplitCsvLine(line[i + 1..])
  }

  /** Splitting loses nothing: the fields joined again give the line back. */
  lemma {:induction false} JoinSplit(line: string)
    ensures JoinFields(SplitCsvLine(line)) == line
    decreases |line|
  {
    match FirstSeparatorFrom(line, 0)
    case None =>
    case Some(i) =>
      var rest := SplitCsvLine(line[i + 1..]);
      JoinSplit(line[i + 1..]);
      assert ([line[..i]] + rest)[1..] == rest;
      assert line == line[..i] + "," + line[i + 1..];
  }

  // ---------------------------------------------------------------- escaped fields split back

  /** Quotes are balanced in the field, and every comma in it is followed by an odd number of quotes. */
  predicate SafeField(f: string) {
    QuoteCount(f) % 2 == 0 &&
    forall j :: 0 <= j < |f| && f[j] == ',' ==> QuoteCount(f[j + 1..]) % 2 == 1
  }

  /** Past any character of a doubled text that is not a quote, the quotes come in pairs. */
  lemma {:induction false} DoubledSuffixEven(v: string, k: nat)
    requires 0 < k <= |DoubleQuotes(v)|
    requires DoubleQuotes(v)[k - 1] != '"'
    ensures QuoteCount(DoubleQuotes(v)[k..]) % 2 == 0
  {
    var d := DoubleQuotes(v);
    var rest := DoubleQuotes(v[1..]);
    if v[0] == '"' {
      assert d == "\"\"" + rest;
      assert d[0] == '"' && d[1] == '"';
      assert d[k..] == rest[k - 2..];
      assert rest[k - 3] == d[k - 1];
      DoubledSuffixEven(v[1..], k - 2);
    } else {
      assert d == [v[0]] + rest;
      if k == 1 {
        assert d[1..] == rest;
      } else {
        assert d[k..] == rest[k - 1..];
        assert rest[k - 2] == d[k - 1];
        DoubledSuffixEven(v[1..], k - 1);
      }
    }
  }

  /** What `escapeCsv` writes is a safe field. */
  lemma EscapedIsSafe(v: string)
    ensures SafeField(EscapeCsv(v))
  {
    var f := EscapeCsv(v);
    if NeedsQuoting(v) {
      var d := DoubleQuotes(v);
      assert f == "\"" + d + "\"";
      forall j | 0 <= j < |f| && f[j] == ','
        ensures QuoteCount(f[j + 1..]) % 2 == 1
      {
        assert 1 <= j <= |d| && d[j - 1] == f[j];
        QuotedSuffixOdd(v, j);
      }
    } else {
      assert ',' !in v;
    }
  }

  /**
   * In a quoted field, the text after a character that is not a quote holds pairs of doubled
   * quotes and the closing one.
   */
  lemma QuotedSuffixOdd(v: string, j: nat)
    requires 0 < j <= |DoubleQuotes(v)| && DoubleQuotes(v)[j - 1] != '"'
    ensures QuoteCount(("\"" + DoubleQuotes(v) + "\"")[j + 1..]) % 2 == 1
  {
    var d := DoubleQuotes(v);
    QuotedSuffix(d, j);
    QuoteCountAppend(d[j..], "\"");
    DoubledSuffixEven(v, j);
    assert QuoteCount("\"") == 1;
  }

  lemma QuotedSuffix(d: string, j: nat)
    requires j <= |d|
    ensures ("\"" + d + "\"")[j + 1..] == d[j..] + "\""
  {
    var f := "\"" + d + "\"";
    assert |f[j + 1..]| == |d[j..] + "\""|;
    forall k | 0 <= k < |f[j + 1..]|
      ensures f[j + 1..][k] == (d[j..] + "\"")[k]
    {
      if k < |d| - j {
        assert f[j + 1 + k] == d[j + k];
      }
    }
  }

  /** Fields with balanced quotes give a line with balanced quotes. */
  lemma {:induction false} JoinQuoteCountEven(fields: seq<string>)
    requires forall i :: 0 <= i < |fields| ==> QuoteCount(fields[i]) % 2 == 0
    ensures QuoteCount(JoinFields(fields)) % 2 == 0
  {
    if |fields| >= 2 {
      JoinQuoteCountEven(fields[1..]);
      var rest := JoinFields(fields[1..]);
      QuoteCountAppend(fields[0] + ",", rest);
      QuoteCountAppend(fields[0], ",");
      assert QuoteCount(",") == 0;
    }
  }

  /** Safe fields joined by commas are split back into the same fields. */
  lemma {:induction false} SplitJoinSafe(fields: seq<string>)
    requires |fields| >= 1
    requires forall i :: 0 <= i < |fields| ==> SafeField(fields[i])
    ensures SplitCsvLine(JoinFields(fields)) == fields
  {
    var f := fields[0];
    if |fields| == 1 {
      assert forall j :: 0 <= j < |f| ==> !SeparatorAt(f, j);
      assert FirstSeparatorFrom(f, 0).None?;
    } else {
      var rest := JoinFields(fields[1..]);
      var line := f + "," + rest;
      assert forall i :: 0 <= i < |fields[1..]| ==> fields[1..][i] == fields[i + 1];
      JoinQuoteCountEven(fields[1..]);
      assert line[|f| + 1..] == rest;
      forall j | 0 <= j < |f|
        ensures !SeparatorAt(line, j)
      {
        if line[j] == ',' {
          assert f[j] == ',';
          assert line[j + 1..] == f[j + 1..] + ("," + rest);
          QuoteCountAppend(f[j + 1..], "," + rest);
          QuoteCountAppend(",", rest);
        }
      }
      FirstSeparatorIs(line, |f|);
      assert line[..|f|] == f;
      SplitJoinSafe(fields[1..]);
      assert [f] + fields[1..] == fields;
    }
  }

  /**
   * An exported line is split back into its escaped cells, and unescaping each gives the cell
   * text that was written.
   */
  lemma ExportedLineRoundTrip(cells: seq<string>)
    requires |cells| >= 1
    ensures SplitCsvLine(JoinFields(EscapeAll(cells))) == EscapeAll(cells)
    ensures forall i :: 0 <= i < |cells| ==> UnEscapeCsv(EscapeAll(cells)[i]) == Ok(cells[i])
  {
    var es := EscapeAll(cells);
    forall i | 0 <= i < |es|
      ensures SafeField(es[i])
    {
      EscapedIsSafe(cells[i]);
    }
    SplitJoinSafe(es);
    forall i | 0 <= i < |cells|
      ensures UnEscapeCsv(es[i]) == Ok(cells[i])
    {
      UnEscapeEscape(cells[i]);
    }
  }

  // ---------------------------------------------------------------- lines of a file

  /** Each line followed by the line separator, as `newLine()` ends it. */
  function FileText(lines: seq<string>): string {
    if lines == [] then "" else lines[0] + "\n" + FileText(lines[1..])
  }

  function NewlineFrom(text: string, k: nat): (r: Option<nat>)
    requires k <= |text|
    ensures r.Some? ==> k <= r.value < |text| && text[r.value] == '\n'
    ensures r.Some? ==> forall j :: k <= j < r.value ==> text[j] != '\n'
    ensures r.None? ==> forall j :: k <= j < |text| ==> text[j] != '\n'
    decreases |text| - k
  {
    if k == |text| then None
    else if text[k] == '\n' then Some(k)
    else NewlineFrom(text, k + 1)
  }

  /** The lines `readLine` returns one by one: a last line without a separator still counts. */
  function ReadLines(text: string): seq<string>
    decreases |text|
  {
    if text == "" then []
    else
      match NewlineFrom(text, 0)
      case None => [text]
      case Some(i) => [text[..i]] + ReadLines(text[i + 1..])
  }

  /** Lines without line breaks are read back exactly as they were written. */
  lemma {:induction false} ReadLinesFileText(lines: seq<string>)
    requires forall i :: 0 <= i < |lines| ==> '\n' !in lines[i]
    ensures ReadLines(FileText(lines)) == lines
  {
    if lines != [] {
      var first := lines[0];
      var text := FileText(lines);
      assert text == first + "\n" + FileText(lines[1..]);
      assert text[|first|] == '\n';
      assert forall j :: 0 <= j < |first| ==> text[j] == first[j];
      assert NewlineFrom(text, 0) == Some(|first|);
      assert text[..|first|] == first;
      assert text[|first| + 1..] == FileText(lines[1..]);
      ReadLinesFileText(lines[1..]);
    }
  }

  /** Escaping adds no line break, and neither does joining. */
  lemma EscapeKeepsLineBreaks(v: string)
    ensures '\n' in EscapeCsv(v) <==> '\n' in v
  {
    if NeedsQuoting(v) {
      assert EscapeCsv(v) == "\"" + DoubleQuotes(v) + "\"";
    }
  }

  lemma {:induction false} JoinKeepsLineBreaks(fields: seq<string>)
    requires forall i :: 0 <= i < |fields| ==> '\n' !in fields[i]
    ensures '\n' !in JoinFields(fields)
  {
    if |fields| >= 2 {
      JoinKeepsLineBreaks(fields[1..]);
    }
  }
}

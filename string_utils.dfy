/** Text helpers of the application: capitalisation and the CSV quoting used by export and import. */
module StringUtils {
  import opened Wrappers
  import opened JavaText

  /**
   * `capitalize`: null or empty gives the empty string; otherwise the first character is
   * upper-cased and the rest kept.
   */
  function Capitalize(str: Option<string>): (r: string)
    ensures str.None? || str == Some("") ==> r == ""
    ensures str.Some? && str.value != "" ==>
              |r| == |str.value| && r[0] == UpperAscii(str.value[0]) && r[1..] == str.value[1..]
  {
    if str.None? || str.value == "" then "" else [UpperAscii(str.value[0])] + str.value[1..]
  }

  /** Number of double-quote characters in `s`. */
  function QuoteCount(s: string): nat {
    if s == [] then 0 else (if s[0] == '"' then 1 else 0) + QuoteCount(s[1..])
  }

  lemma {:induction false} QuoteCountAppend(a: string, b: string)
    ensures QuoteCount(a + b) == QuoteCount(a) + QuoteCount(b)
  {
    if a != [] {
      assert (a + b)[1..] == a[1..] + b;
      QuoteCountAppend(a[1..], b);
    } else {
      assert a + b == b;
    }
  }

  /** `s.replace("\"", "\"\"")`. */
  function DoubleQuotes(s: string): (r: string)
    ensures QuoteCount(r) == 2 * QuoteCount(s)
    ensures forall c :: c in r <==> c in s
  {
    if s == [] then []
    else
      var rest := DoubleQuotes(s[1..]);
      QuoteCountAppend(if s[0] == '"' then "\"\"" else [s[0]], rest);
      assert forall c :: c in s <==> c == s[0] || c in s[1..];
      (if s[0] == '"' then "\"\"" else [s[0]]) + rest
  }

  /** `s.replace("\"\"", "\"")`: pairs are replaced from left to right, without overlap. */
  function CollapseQuotes(s: string): string {
    if |s| >= 2 && s[0] == '"' && s[1] == '"' then "\"" + CollapseQuotes(s[2..])
    else if s == [] then []
    else [s[0]] + CollapseQuotes(s[1..])
  }

  /** The characters that make `escapeCsv` quote a value. */
  predicate NeedsQuoting(value: string) {
    ',' in value || '"' in value || '\n' in value
  }

  /**
   * `escapeCsv`: a value holding a comma, a quote or a newline is put in quotes with every
   * inner quote doubled, so that it holds an even number of quotes; any other value is left as it is.
   */
  function EscapeCsv(value: string): (r: string)
    ensures !NeedsQuoting(value) ==> r == value
    ensures NeedsQuoting(value) ==> |r| >= 2 && r[0] == '"' && r[|r| - 1] == '"'
    ensures QuoteCount(r) % 2 == 0
  {
    if NeedsQuoting(value) then
      var r := "\"" + DoubleQuotes(value) + "\"";
      QuoteCountAppend("\"", DoubleQuotes(value));
      QuoteCountAppend("\"" + DoubleQuotes(value), "\"");
      r
    else
      assert QuoteCount(value) == 0 by { NoQuoteNoCount(value); }
      value
  }

  lemma {:induction false} NoQuoteNoCount(s: string)
    requires '"' !in s
    ensures QuoteCount(s) == 0
  {
    if s != [] {
      assert '"' !in s[1..] by { assert forall c :: c in s[1..] ==> c in s; }
      NoQuoteNoCount(s[1..]);
    }
  }

  /**
   * `unEscapeCsv`: a value that starts and ends with a quote loses both and has every `""`
   * collapsed to `"`; any other value is left as it is. The single character `"` both starts and
   * ends with a quote, and `substring(1, 0)` throws for it.
   */
  function UnEscapeCsv(value: string): (r: Result<string>)
    ensures !(StartsWith(value, "\"") && EndsWith(value, "\"")) ==> r == Ok(value)
    ensures value == "\"" ==> r == Err(IndexOutOfBounds(0))
    ensures r.Ok? && StartsWith(value, "\"") && EndsWith(value, "\"") ==> |r.value| <= |value| - 2
  {
    if StartsWith(value, "\"") && EndsWith(value, "\"") then
      if |value| < 2 then Err(IndexOutOfBounds(|value| - 1))
      else
        var inner := value[1..|value| - 1];
        CollapseShorter(inner);
        Ok(CollapseQuotes(inner))
    else Ok(value)
  }

  lemma {:induction false} CollapseShorter(s: string)
    ensures |CollapseQuotes(s)| <= |s|
  {
    if |s| >= 2 && s[0] == '"' && s[1] == '"' {
      CollapseShorter(s[2..]);
    } else if s != [] {
      CollapseShorter(s[1..]);
    }
  }

  /** Collapsing undoes doubling. */
  lemma {:induction false} CollapseDoubled(s: string)
    ensures CollapseQuotes(DoubleQuotes(s)) == s
  {
    if s != [] {
      var rest := DoubleQuotes(s[1..]);
      CollapseDoubled(s[1..]);
      if s[0] == '"' {
        assert DoubleQuotes(s) == "\"\"" + rest;
        assert ("\"\"" + rest)[2..] == rest;
      } else {
        assert DoubleQuotes(s) == [s[0]] + rest;
        assert ([s[0]] + rest)[1..] == rest;
      }
    }
  }

  /** Unescaping an escaped value gives the value back. */
  lemma UnEscapeEscape(value: string)
    ensures UnEscapeCsv(EscapeCsv(value)) == Ok(value)
  {
    if NeedsQuoting(value) {
      var e := EscapeCsv(value);
      assert e[1..|e| - 1] == DoubleQuotes(value);
      CollapseDoubled(value);
    } else {
      assert value == [] || value[0] != '"';
    }
  }

  /** Values with nothing to quote pass through both directions unchanged. */
  lemma PlainValueUnchanged(value: string)
    requires !NeedsQuoting(value)
    ensures EscapeCsv(value) == value
    ensures UnEscapeCsv(value) == Ok(value)
  {
    UnEscapeEscape(value);
  }
}

/** The java.lang.String and java.lang.Integer operations the modelled code relies on. */
module JavaText {
  import opened Wrappers

  /** `s.startsWith(p)` */
  predicate StartsWith(s: string, p: string) {
    |p| <= |s| && s[..|p|] == p
  }

  /** `s.endsWith(p)` */
  predicate EndsWith(s: string, p: string) {
    |p| <= |s| && s[|s| - |p|..] == p
  }

  predicate OccursAt(s: string, t: string, i: int) {
    0 <= i && i + |t| <= |s| && s[i..i + |t|] == t
  }

  /** `s.contains(t)` */
  predicate Contains(s: string, t: string) {
    exists i :: 0 <= i <= |s| && OccursAt(s, t, i)
  }

  /** `String.trim()`: strips every leading and trailing character at or below U+0020. */
  function TrimStart(s: string): (r: string)
    ensures |r| <= |s| && r == s[|s| - |r|..]
    ensures r == [] || r[0] > ' '
    ensures forall i :: 0 <= i < |s| - |r| ==> s[i] <= ' '
  {
    if |s| > 0 && s[0] <= ' ' then TrimStart(s[1..]) else s
  }

  function TrimEnd(s: string): (r: string)
    ensures |r| <= |s| && r == s[..|r|]
    ensures r == [] || r[|r| - 1] > ' '
    ensures forall i :: |r| <= i < |s| ==> s[i] <= ' '
  {
    if |s| > 0 && s[|s| - 1] <= ' ' then TrimEnd(s[..|s| - 1]) else s
  }

  function Trim(s: string): string {
    TrimEnd(TrimStart(s))
  }

  /** `s.trim().isEmpty()` */
  predicate IsBlank(s: string) {
    Trim(s) == ""
  }

  /** A string is blank exactly when every character is at or below U+0020. */
  lemma BlankIffAllSpace(s: string)
    ensures IsBlank(s) <==> forall i :: 0 <= i < |s| ==> s[i] <= ' '
  {
  }

  /** Character.toUpperCase restricted to ASCII letters. */
  function UpperAscii(c: char): char {
    if 'a' <= c <= 'z' then (c as int - 32) as char else c
  }

  function LowerAscii(c: char): char {
    if 'A' <= c <= 'Z' then (c as int + 32) as char else c
  }

  function LowerAsciiString(s: string): (r: string)
    ensures |r| == |s|
  {
    seq(|s|, i requires 0 <= i < |s| => LowerAscii(s[i]))
  }

  /** `a.equalsIgnoreCase(b)` for ASCII text. */
  predicate EqualsIgnoreCase(a: string, b: string) {
    |a| == |b| && forall i :: 0 <= i < |a| ==> UpperAscii(a[i]) == UpperAscii(b[i])
  }

  /** A case-insensitive substring test, as `LIKE '%term%'` performs it on ASCII text. */
  predicate ContainsIgnoreCase(s: string, t: string) {
    Contains(LowerAsciiString(s), LowerAsciiString(t))
  }

  // ---------------------------------------------------------------- integers

  const INT_MIN: int := -0x8000_0000
  const INT_MAX: int := 0x7fff_ffff

  predicate IsInt32(n: int) {
    INT_MIN <= n <= INT_MAX
  }

  /**
   * The value of a decimal digit (Unicode category Nd) of the Basic Multilingual Plane outside
   * ASCII, as of Unicode 15.0, or -1: each run of ten code points below holds the digits zero to
   * nine of one script, in order.
   */
  function OtherDigitValue(c: int): (d: int)
    ensures -1 <= d < 10
  {
    if 0x0660 <= c < 0x066A then c - 0x0660
    else if 0x06F0 <= c < 0x06FA then c - 0x06F0
    else if 0x07C0 <= c < 0x07CA then c - 0x07C0
    else if 0x0966 <= c < 0x0970 then c - 0x0966
    else if 0x09E6 <= c < 0x09F0 then c - 0x09E6
    else if 0x0A66 <= c < 0x0A70 then c - 0x0A66
    else if 0x0AE6 <= c < 0x0AF0 then c - 0x0AE6
    else if 0x0B66 <= c < 0x0B70 then c - 0x0B66
    else if 0x0BE6 <= c < 0x0BF0 then c - 0x0BE6
    else if 0x0C66 <= c < 0x0C70 then c - 0x0C66
    else if 0x0CE6 <= c < 0x0CF0 then c - 0x0CE6
    else if 0x0D66 <= c < 0x0D70 then c - 0x0D66
    else if 0x0DE6 <= c < 0x0DF0 then c - 0x0DE6
    else if 0x0E50 <= c < 0x0E5A then c - 0x0E50
    else if 0x0ED0 <= c < 0x0EDA then c - 0x0ED0
    else if 0x0F20 <= c < 0x0F2A then c - 0x0F20
    else if 0x1040 <= c < 0x104A then c - 0x1040
    else if 0x1090 <= c < 0x109A then c - 0x1090
    else if 0x17E0 <= c < 0x17EA then c - 0x17E0
    else if 0x1810 <= c < 0x181A then c - 0x1810
    else if 0x1946 <= c < 0x1950 then c - 0x1946
    else if 0x19D0 <= c < 0x19DA then c - 0x19D0
    else if 0x1A80 <= c < 0x1A8A then c - 0x1A80
    else if 0x1A90 <= c < 0x1A9A then c - 0x1A90
    else if 0x1B50 <= c < 0x1B5A then c - 0x1B50
    else if 0x1BB0 <= c < 0x1BBA then c - 0x1BB0
    else if 0x1C40 <= c < 0x1C4A then c - 0x1C40
    else if 0x1C50 <= c < 0x1C5A then c - 0x1C50
    else if 0xA620 <= c < 0xA62A then c - 0xA620
    else if 0xA8D0 <= c < 0xA8DA then c - 0xA8D0
    else if 0xA900 <= c < 0xA90A then c - 0xA900
    else if 0xA9D0 <= c < 0xA9DA then c - 0xA9D0
    else if 0xA9F0 <= c < 0xA9FA then c - 0xA9F0
    else if 0xAA50 <= c < 0xAA5A then c - 0xAA50
    else if 0xABF0 <= c < 0xABFA then c - 0xABF0
    else if 0xFF10 <= c < 0xFF1A then c - 0xFF10
    else -1
  }

  /**
   * `Character.digit(ch, 10)`: the value of a decimal digit of any script, or -1. Java reads a
   * string by UTF-16 units, so a code point above U+FFFF arrives as two surrogates, neither of
   * which is a digit.
   */
  function DigitValue(c: char): (d: int)
    ensures -1 <= d < 10
    ensures '0' <= c <= '9' ==> d == c as int - '0' as int
    ensures c as int < 0x80 && !('0' <= c <= '9') ==> d == -1
    ensures c as int >= 0x1_0000 ==> d == -1
  {
    if c as int < 0x80 then (if '0' <= c <= '9' then c as int - '0' as int else -1)
    else if c as int >= 0x1_0000 then -1
    else OtherDigitValue(c as int)
  }

  predicate IsDigit(c: char) {
    DigitValue(c) >= 0
  }

  predicate AllDigits(s: string) {
    forall i :: 0 <= i < |s| ==> IsDigit(s[i])
  }

  function DigitChar(d: int): (c: char)
    requires 0 <= d < 10
    ensures IsDigit(c) && DigitValue(c) == d
  {
    ('0' as int + d) as char
  }

  /** Decimal digits of a natural number, most significant first, no leading zeros. */
  function NatToString(n: nat): (r: string)
    ensures |r| > 0 && AllDigits(r)
    ensures forall i :: 0 <= i < |r| ==> '0' <= r[i] <= '9'
  {
    if n < 10 then [DigitChar(n)] else NatToString(n / 10) + [DigitChar(n % 10)]
  }

  /** `Integer.toString(n)` (and string concatenation of an int). */
  function IntToString(n: int): string {
    if n < 0 then "-" + NatToString(-n) else NatToString(n)
  }

  /** The value of a string of decimal digits. */
  function DigitsValue(s: string): nat
    requires AllDigits(s)
  {
    if s == [] then 0 else DigitsValue(s[..|s| - 1]) * 10 + DigitValue(s[|s| - 1])
  }

  /**
   * `Integer.parseInt(s)`: an optional sign, then at least one decimal digit of any script, and a
   * value within 32 bits.
   */
  function ParseInt(s: string): (r: Result<int>)
    ensures r.Ok? ==> IsInt32(r.value)
    ensures r.Err? ==> r.failure == NumberFormat(s)
  {
    if s == "" then Err(NumberFormat(s))
    else
      var body := if s[0] == '-' || s[0] == '+' then s[1..] else s;
      if body == "" || !AllDigits(body) then Err(NumberFormat(s))
      else
        var v: int := if s[0] == '-' then -(DigitsValue(body) as int) else DigitsValue(body);
        if IsInt32(v) then Ok(v) else Err(NumberFormat(s))
  }

  lemma {:induction false} DigitsOfNat(n: nat)
    ensures DigitsValue(NatToString(n)) == n
  {
    if n >= 10 {
      DigitsOfNat(n / 10);
      var s := NatToString(n);
      assert s[..|s| - 1] == NatToString(n / 10);
    }
  }

  /** Parsing the decimal text of any 32-bit integer gives the integer back. */
  lemma ParseIntToString(n: int)
    requires IsInt32(n)
    ensures ParseInt(IntToString(n)) == Ok(n)
  {
    var s := IntToString(n);
    if n < 0 {
      var digits := NatToString(-n);
      assert s == "-" + digits;
      assert s[0] == '-' && s[1..] == digits;
      DigitsOfNat(-n);
      assert DigitsValue(digits) == -n;
    } else {
      var digits := NatToString(n);
      assert s == digits;
      assert '0' <= s[0] <= '9';
      DigitsOfNat(n);
    }
  }

  /**
   * `Integer.parseInt` takes the decimal digits of every script in the Basic Multilingual Plane,
   * mixed freely, but not a digit above U+FFFF.
   */
  lemma ParseIntOtherScripts()
    ensures ParseInt("\U{661}\U{662}") == Ok(12)          // ARABIC-INDIC DIGIT ONE, TWO
    ensures ParseInt("-\U{FF14}2") == Ok(-42)              // FULLWIDTH DIGIT FOUR, then ASCII 2
    ensures ParseInt("\U{1D7CF}") == Err(NumberFormat("\U{1D7CF}"))  // MATHEMATICAL BOLD DIGIT ONE
  {
    var a := "\U{661}\U{662}";
    assert a[..1] == "\U{661}" && a[..1][..0] == "";
    assert DigitsValue(a) == 12;
    var b := "-\U{FF14}2";
    var body := b[1..];
    assert body == "\U{FF14}2" && body[..1] == "\U{FF14}" && body[..1][..0] == "";
    assert DigitsValue(body) == 42;
  }

  /** The decimal text of an integer starts with a minus sign exactly when it is negative. */
  lemma SignOfText(n: int)
    ensures IntToString(n)[0] == '-' <==> n < 0
  {
    if n >= 0 {
      assert '0' <= NatToString(n)[0] <= '9';
    }
  }

  /** Distinct naturals have distinct digit strings. */
  lemma NatToStringInjective(a: nat, b: nat)
    requires NatToString(a) == NatToString(b)
    ensures a == b
  {
    DigitsOfNat(a);
    DigitsOfNat(b);
  }

  /** Distinct integers have distinct decimal texts. */
  lemma IntToStringInjective(a: int, b: int)
    requires IntToString(a) == IntToString(b)
    ensures a == b
  {
    SignOfText(a);
    SignOfText(b);
    if a < 0 {
      assert IntToString(a)[1..] == NatToString(-a);
      assert IntToString(b)[1..] == NatToString(-b);
      NatToStringInjective(-a, -b);
    } else {
      NatToStringInjective(a, b);
    }
  }
}

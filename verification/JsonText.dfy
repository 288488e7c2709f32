/**
 The text level of JSON: string escapes, decimal integers, and the scanner functions of
 Python's json.loads that read them back.
 */
module JsonText {
  /** Which library writes the text; both are read back by the same scanner. */
  datatype Dialect = PythonDumps | GoMarshal

  datatype Scan<+T> = Fail | Got(value: T, rest: string)

  // ----- String escapes -----

  function HexDigit(n: int): (c: char)
    requires 0 <= n < 16
  {
    if n < 10 then '0' + n as char else 'a' + (n - 10) as char
  }

  function HexValue(c: char): (n: int)
    ensures -1 <= n < 16
  {
    if '0' <= c <= '9' then c as int - '0' as int
    else if 'a' <= c <= 'f' then c as int - 'a' as int + 10
    else if 'A' <= c <= 'F' then c as int - 'A' as int + 10
    else -1
  }

  function Hex4(n: int): (s: string)
    requires 0 <= n < 0x10000
    ensures |s| == 4
  {
    [HexDigit(n / 0x1000), HexDigit(n / 0x100 % 16), HexDigit(n / 16 % 16), HexDigit(n % 16)]
  }

  /** The characters beyond quote, backslash and controls that Go's encoder also escapes. */
  predicate GoOnlyEscaped(c: char) {
    c == '<' || c == '>' || c == '&' || c == '\U{2028}' || c == '\U{2029}'
  }

  function EscapeChar(d: Dialect, c: char): (s: string)
    ensures s != ""
  {
    if c == '"' then "\\\""
    else if c == '\\' then "\\\\"
    else if c == '\n' then "\\n"
    else if c == '\r' then "\\r"
    else if c == '\t' then "\\t"
    else if c == '\U{08}' then "\\b"
    else if c == '\U{0C}' then "\\f"
    else if c < ' ' || (d.GoMarshal? && GoOnlyEscaped(c)) then "\\u" + Hex4(c as int)
    else [c]
  }

  /** Characters with a two-character escape. */
  predicate ShortForm(c: char) {
    c == '"' || c == '\\' || c == '\n' || c == '\r' || c == '\t' || c == '\U{08}' || c == '\U{0C}'
  }

  /** Characters a writer may not leave as they are, beside those with a short form. */
  predicate LongForm(d: Dialect, c: char) {
    || (c < ' ' && !ShortForm(c))
    || (d.GoMarshal? && (c == '<' || c == '>' || c == '&' || c == '\U{2028}' || c == '\U{2029}'))
  }

  /** Which of the three forms a character takes; the digits of the long one are lower-case. */
  lemma {:induction false} EscapeForms(d: Dialect, c: char)
    ensures var e := EscapeChar(d, c);
            && (|e| == 1 <==> !ShortForm(c) && !LongForm(d, c)) && (|e| == 1 ==> e == [c])
            && (|e| == 2 <==> ShortForm(c)) && (|e| == 2 ==> e[0] == '\\')
            && (LongForm(d, c) ==> |e| == 6 && e[..2] == "\\u")
            && (LongForm(d, c) ==> forall i :: 2 <= i < 6 ==> '0' <= e[i] <= '9' || 'a' <= e[i] <= 'f')
  {
    if LongForm(d, c) {
      assert EscapeChar(d, c) == "\\u" + Hex4(c as int);
      HexDigitLower(c as int / 0x1000);
      HexDigitLower(c as int / 0x100 % 16);
      HexDigitLower(c as int / 16 % 16);
      HexDigitLower(c as int % 16);
    }
  }

  lemma {:induction false} HexDigitLower(n: int)
    requires 0 <= n < 16
    ensures '0' <= HexDigit(n) <= '9' || 'a' <= HexDigit(n) <= 'f'
  {
  }

  function EscapeAll(d: Dialect, s: string): string {
    if s == "" then "" else EscapeChar(d, s[0]) + EscapeAll(d, s[1..])
  }

  function Quote(d: Dialect, s: string): string {
    "\"" + EscapeAll(d, s) + "\""
  }

  // ----- Reading a string -----

  function Hex4Value(s: string): (n: int)
    ensures -1 <= n < 0x10000
    ensures n >= 0 ==> |s| >= 4
  {
    if |s| < 4 then -1
    else
      var a, b, c, e := HexValue(s[0]), HexValue(s[1]), HexValue(s[2]), HexValue(s[3]);
      if a < 0 || b < 0 || c < 0 || e < 0 then -1
      else ((a * 16 + b) * 16 + c) * 16 + e
  }

  /** One `\uXXXX` unit, or a surrogate pair of them; `s` starts after the `\u`. */
  function ScanUnicode(s: string): (r: Scan<char>)
    ensures r.Got? ==> |r.rest| < |s|
  {
    var n := Hex4Value(s);
    if n < 0 then Fail
    else if 0xD800 <= n < 0xDC00 then
      var low := if |s| >= 6 && s[4] == '\\' && s[5] == 'u' then Hex4Value(s[6..]) else -1;
      if 0xDC00 <= low < 0xE000
      then Got((0x10000 + (n - 0xD800) * 0x400 + (low - 0xDC00)) as char, s[10..])
      else Fail
    else if 0xDC00 <= n < 0xE000 then Fail
    else Got(n as char, s[4..])
  }

  /** One possibly escaped character of a string body. */
  function ScanChar(s: string): (r: Scan<char>)
    ensures r.Got? ==> |r.rest| < |s|
  {
    if s == "" || s[0] == '"' || s[0] < ' ' then Fail
    else if s[0] != '\\' then Got(s[0], s[1..])
    else if |s| < 2 then Fail
    else
      match s[1]
      case '"' => Got('"', s[2..])
      case '\\' => Got('\\', s[2..])
      case '/' => Got('/', s[2..])
      case 'b' => Got('\U{08}', s[2..])
      case 'f' => Got('\U{0C}', s[2..])
      case 'n' => Got('\n', s[2..])
      case 'r' => Got('\r', s[2..])
      case 't' => Got('\t', s[2..])
      case 'u' => ScanUnicode(s[2..])
      case _ => Fail
  }

  /** A string body up to and including its closing quote. */
  function ScanString(s: string): (r: Scan<string>)
    ensures r.Got? ==> |r.rest| < |s|
    decreases |s|
  {
    if s != "" && s[0] == '"' then Got("", s[1..])
    else
      match ScanChar(s)
      case Fail => Fail
      case Got(c, rest) =>
        match ScanString(rest)
        case Fail => Fail
        case Got(cs, end) => Got([c] + cs, end)
  }

  lemma {:induction false} HexRoundTrip(n: int)
    requires 0 <= n < 16
    ensures HexValue(HexDigit(n)) == n
  {
  }

  lemma {:induction false} Nibbles(n: int)
    requires 0 <= n < 0x10000
    ensures ((n / 0x1000 * 16 + n / 0x100 % 16) * 16 + n / 16 % 16) * 16 + n % 16 == n
  {
    var q := n / 16;
    var r := q / 16;
    assert n / 0x100 == r && n / 0x1000 == r / 16;
  }

  lemma {:induction false} Hex4RoundTrip(n: int, t: string)
    requires 0 <= n < 0x10000
    ensures Hex4Value(Hex4(n) + t) == n
  {
    var a, b, c, e := n / 0x1000, n / 0x100 % 16, n / 16 % 16, n % 16;
    var s := Hex4(n) + t;
    assert HexValue(s[0]) == a by { HexRoundTrip(a); }
    assert HexValue(s[1]) == b by { HexRoundTrip(b); }
    assert HexValue(s[2]) == c by { HexRoundTrip(c); }
    assert HexValue(s[3]) == e by { HexRoundTrip(e); }
    Nibbles(n);
  }

  lemma {:induction false} CharRoundTrip(d: Dialect, c: char, t: string)
    ensures ScanChar(EscapeChar(d, c) + t) == Got(c, t)
    ensures (EscapeChar(d, c) + t)[0] != '"'
  {
    var e := EscapeChar(d, c);
    var s := e + t;
    assert forall i :: 0 <= i < |e| ==> s[i] == e[i];
    assert s[|e|..] == t;
    if |e| == 6 {
      var tail := Hex4(c as int) + t;
      assert s[2..] == tail;
      Hex4RoundTrip(c as int, t);
      assert tail[4..] == t;
    }
  }

  /** Both writers' escapes are undone by the one scanner. */
  lemma {:induction false} StringRoundTrip(d: Dialect, s: string, t: string)
    ensures ScanString(EscapeAll(d, s) + "\"" + t) == Got(s, t)
    decreases |s|
  {
    if s == "" {
      assert EscapeAll(d, s) + "\"" + t == "\"" + t;
    } else {
      var rest := EscapeAll(d, s[1..]) + "\"" + t;
      assert EscapeAll(d, s) + "\"" + t == EscapeChar(d, s[0]) + rest;
      CharRoundTrip(d, s[0], rest);
      StringRoundTrip(d, s[1..], t);
      assert [s[0]] + s[1..] == s;
    }
  }

  // ----- Decimal integers -----

  predicate IsDigit(c: char) {
    '0' <= c <= '9'
  }

  function NatText(n: nat): (s: string)
    ensures s != ""
    ensures forall c :: c in s ==> IsDigit(c)
    ensures n > 0 ==> s[0] != '0'
    decreases n
  {
    if n < 10 then ['0' + n as char]
    else NatText(n / 10) + ['0' + (n % 10) as char]
  }

  function IntText(n: int): (s: string)
    ensures s != ""
  {
    if n < 0 then "-" + NatText(-n) else NatText(n)
  }

  function NatValue(s: string): (n: nat)
    requires forall c :: c in s ==> IsDigit(c)
  {
    if s == "" then 0
    else
      assert IsDigit(s[|s| - 1]);
      NatValue(s[..|s| - 1]) * 10 + (s[|s| - 1] as int - '0' as int)
  }

  lemma {:induction false} NatRoundTrip(n: nat)
    ensures NatValue(NatText(n)) == n
    decreases n
  {
    var s := NatText(n);
    if n < 10 {
      assert s[..|s| - 1] == "";
    } else {
      NatRoundTrip(n / 10);
      assert s[..|s| - 1] == NatText(n / 10);
    }
  }

  /** Length of the longest all-digit prefix. */
  function DigitRun(s: string): (k: nat)
    ensures k <= |s|
    ensures forall i :: 0 <= i < k ==> IsDigit(s[i])
    ensures k < |s| ==> !IsDigit(s[k])
  {
    if s == "" || !IsDigit(s[0]) then 0 else 1 + DigitRun(s[1..])
  }

  lemma {:induction false} DigitRunIs(s: string, k: nat)
    requires k <= |s|
    requires forall i :: 0 <= i < k ==> IsDigit(s[i])
    requires k < |s| ==> !IsDigit(s[k])
    ensures DigitRun(s) == k
  {
  }
}

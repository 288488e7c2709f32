/** Line-level text of a workflow file: comments, indentation, and the line patterns. */
module WorkflowText {
  import opened Wrappers

  // ----- White space -----

  /** str.isspace and the pattern class \s. */
  predicate IsSpace(c: char) {
    || '\U{09}' <= c <= '\U{0D}' || '\U{1C}' <= c <= '\U{20}'
    || c == '\U{85}' || c == '\U{A0}' || c == '\U{1680}' || '\U{2000}' <= c <= '\U{200A}'
    || c == '\U{2028}' || c == '\U{2029}' || c == '\U{202F}' || c == '\U{205F}' || c == '\U{3000}'
  }

  function Indent(s: string): (n: nat)
    ensures n <= |s|
    ensures n < |s| ==> !IsSpace(s[n])
  {
    if s != "" && IsSpace(s[0]) then 1 + Indent(s[1..]) else 0
  }

  function DropSpaces(s: string): (r: string)
    ensures |r| <= |s|
  {
    s[Indent(s)..]
  }

  predicate Blank(s: string) {
    Indent(s) == |s|
  }

  function TrimRight(s: string): (r: string)
    ensures r <= s
    ensures r != "" ==> !IsSpace(r[|r| - 1])
  {
    if s != "" && IsSpace(s[|s| - 1]) then TrimRight(s[..|s| - 1]) else s
  }

  // ----- Comments -----

  /** Where a scan of the line stands: outside quotes, or inside one of the two kinds. */
  datatype Mode = Outside | Single | Double(escaped: bool)

  function Next(mode: Mode, c: char): Mode {
    match mode
    case Outside => if c == '\'' then Single else if c == '"' then Double(false) else Outside
    case Single => if c == '\'' then Outside else Single
    case Double(escaped) =>
      if escaped then Double(false)
      else if c == '\\' then Double(true)
      else if c == '"' then Outside
      else Double(false)
  }

  function ModeAfter(s: string): Mode {
    if s == "" then Outside else Next(ModeAfter(s[..|s| - 1]), s[|s| - 1])
  }

  /** Position `i` holds a comment marker outside quotes. */
  predicate CommentAt(s: string, i: nat)
    requires i < |s|
  {
    s[i] == '#' && ModeAfter(s[..i]).Outside?
  }

  /** The first comment marker from `i` on, or the end of the line. */
  function CutFrom(s: string, i: nat): (k: nat)
    requires i <= |s|
    ensures i <= k <= |s| && (k < |s| ==> CommentAt(s, k))
    ensures forall j :: i <= j < k ==> !CommentAt(s, j)
    decreases |s| - i
  {
    if i == |s| || CommentAt(s, i) then i else CutFrom(s, i + 1)
  }

  /** The line without its comment and trailing white space. */
  function Code(line: string): string {
    TrimRight(line[..CutFrom(line, 0)])
  }

  /** The mode as the scan's two variables hold it. */
  function QuoteOf(mode: Mode): Option<char> {
    match mode
    case Outside => None
    case Single => Some('\'')
    case Double(_) => Some('"')
  }

  predicate EscapedIn(mode: Mode) {
    mode.Double? && mode.escaped
  }

  method WithoutYamlComment(line: string) returns (code: string)
    ensures code == Code(line)
  {
    var quote: Option<char> := None;
    var escaped := false;
    var i := 0;
    while i < |line|
      invariant 0 <= i <= |line|
      invariant quote == QuoteOf(ModeAfter(line[..i])) && escaped == EscapedIn(ModeAfter(line[..i]))
      invariant forall j :: 0 <= j < i ==> !CommentAt(line, j)
    {
      var c := line[i];
      assert line[..i + 1][..i] == line[..i];
      if quote == Some('"') && escaped {
        escaped := false;
      } else if quote == Some('"') && c == '\\' {
        escaped := true;
      } else if quote == None && (c == '\'' || c == '"') {
        quote := Some(c);
      } else if quote == Some(c) {
        quote := None;
      } else if quote == None && c == '#' {
        CutIs(line, i);
        return TrimRight(line[..i]);
      }
      i := i + 1;
    }
    CutIs(line, |line|);
    return TrimRight(line[..|line|]);
  }

  lemma {:induction false} CutIs(s: string, k: nat)
    requires k <= |s| && (k < |s| ==> CommentAt(s, k))
    requires forall j :: 0 <= j < k ==> !CommentAt(s, j)
    ensures CutFrom(s, 0) == k
  {
  }

  // ----- Comment stripping -----

  ghost predicate NoComment(s: string) {
    forall j :: 0 <= j < |s| ==> !CommentAt(s, j)
  }

  lemma {:induction false} PrefixNoComment(s: string, t: string)
    requires s <= t && forall j :: 0 <= j < |s| ==> !CommentAt(t, j)
    ensures NoComment(s)
  {
    forall j | 0 <= j < |s| ensures !CommentAt(s, j) {
      assert !CommentAt(t, j);
      assert s[..j] == t[..j] && s[j] == t[j];
    }
  }

  lemma {:induction false} TrimRightFixed(s: string)
    requires s == "" || !IsSpace(s[|s| - 1])
    ensures TrimRight(s) == s
  {
  }

  /** Stripped code has no comment marker outside quotes, and stripping it again changes nothing. */
  lemma {:induction false} CodeIdempotent(line: string)
    ensures NoComment(Code(line)) && Code(Code(line)) == Code(line)
  {
    var code := Code(line);
    PrefixNoComment(code, line);
    CutIs(code, |code|);
    assert code[..|code|] == code;
    TrimRightFixed(code);
  }

  /** A comment appended where no quote is open is invisible. */
  lemma {:induction false} AppendedComment(line: string, comment: string)
    requires ModeAfter(line).Outside? || CutFrom(line, 0) < |line|
    ensures Code(line + "#" + comment) == Code(line)
  {
    var long := line + "#" + comment;
    var k := CutFrom(line, 0);
    forall j | 0 <= j < k ensures !CommentAt(long, j) {
      assert !CommentAt(line, j);
      assert long[..j] == line[..j] && long[j] == line[j];
    }
    assert long[..k] == line[..k];
    assert long[k] == if k < |line| then line[k] else '#';
    if k == |line| { assert line[..k] == line; }
    CutIs(long, k);
  }

  // ----- Line patterns -----

  datatype Uses = Uses(indent: nat, dash: bool, value: string)

  /** A dash followed by white space. */
  predicate DashStart(s: string) {
    |s| >= 2 && s[0] == '-' && IsSpace(s[1])
  }

  function ValueRun(s: string): (n: nat)
    ensures n <= |s|
    ensures forall i :: 0 <= i < n ==> !IsSpace(s[i]) && s[i] != '#'
  {
    if s != "" && !IsSpace(s[0]) && s[0] != '#' then 1 + ValueRun(s[1..]) else 0
  }

  /** `uses: value`, optionally as the first key of a list item. */
  function MatchUses(s: string): (m: Option<Uses>)
    ensures m.Some? ==> m.value.indent == Indent(s) < |s|
    ensures m.Some? ==> m.value.dash == DashStart(s[Indent(s)..])
  {
    var rest := s[Indent(s)..];
    var dash := DashStart(rest);
    var body := if dash then DropSpaces(rest[1..]) else rest;
    if !("uses:" <= body) then None
    else
      var after := body[5..];
      if after == "" || !IsSpace(after[0]) then None
      else
        var text := DropSpaces(after);
        var n := ValueRun(text);
        if n == 0 || !Blank(text[n..]) then None
        else
          assert |rest| > 0;
          Some(Uses(Indent(s), dash, text[..n]))
  }

  function MatchWith(s: string): (m: Option<nat>)
    ensures m.Some? ==> m.value == Indent(s) < |s|
  {
    var rest := s[Indent(s)..];
    if "with:" <= rest && Blank(rest[5..]) then Some(Indent(s)) else None
  }

  datatype Persist = Persist(indent: nat, value: bool)

  function MatchPersist(s: string): (m: Option<Persist>)
    ensures m.Some? ==> m.value.indent == Indent(s) < |s|
  {
    var rest := s[Indent(s)..];
    var key := "persist-credentials:";
    if !(key <= rest) then None
    else
      var after := rest[|key|..];
      if after == "" || !IsSpace(after[0]) then None
      else
        var text := DropSpaces(after);
        if "true" <= text && Blank(text[4..]) then Some(Persist(Indent(s), true))
        else if "false" <= text && Blank(text[5..]) then Some(Persist(Indent(s), false))
        else None
  }

  /** The indent of a line that starts a list item. */
  function MatchStepStart(s: string): (m: Option<nat>)
    ensures m.Some? ==> m.value == Indent(s) < |s|
  {
    if DashStart(s[Indent(s)..]) then Some(Indent(s)) else None
  }

  predicate IsQuote(c: char) {
    c == '\'' || c == '"'
  }

  /** The key, bare or quoted, then optional white space and a colon. */
  predicate KeyHere(s: string, key: string) {
    || (key <= s && ColonNext(s[|key|..]))
    || (|s| >= |key| + 2 && IsQuote(s[0]) && key <= s[1..] && IsQuote(s[|key| + 1]) && ColonNext(s[|key| + 2..]))
  }

  predicate ColonNext(s: string) {
    var rest := DropSpaces(s);
    rest != "" && rest[0] == ':'
  }

  /** The key anywhere on the line, at its start or after white space, an open brace or a comma. */
  predicate MentionsKey(s: string, key: string) {
    exists i :: 0 <= i <= |s| && (i == 0 || IsSpace(s[i - 1]) || s[i - 1] == '{' || s[i - 1] == ',')
      && KeyHere(s[i..], key)
  }

  predicate IsHex(c: char) {
    '0' <= c <= '9' || 'a' <= c <= 'f' || 'A' <= c <= 'F'
  }

  /** The text ends in an at sign and a 40-digit commit. */
  predicate CommitSuffix(v: string) {
    |v| >= 41 && v[|v| - 41] == '@' && forall i :: |v| - 40 <= i < |v| ==> IsHex(v[i])
  }

  predicate RemoteAction(v: string) {
    && CommitSuffix(v) && |v| >= 42
    && forall i :: 0 <= i < |v| - 41 ==> v[i] != '@' && !IsSpace(v[i])
  }

  predicate LocalAction(v: string) {
    && "./" <= v && |v| > 2
    && forall i :: 2 <= i < |v| ==> !IsSpace(v[i]) && v[i] != '#'
  }

  predicate CheckoutAction(v: string) {
    CommitSuffix(v) && v[..|v| - 41] == "actions/checkout"
  }

  // ----- Lines of a text -----

  predicate LineBreak(c: char) {
    || '\U{0A}' <= c <= '\U{0D}' || '\U{1C}' <= c <= '\U{1E}'
    || c == '\U{85}' || c == '\U{2028}' || c == '\U{2029}'
  }

  function LineEnd(s: string): (n: nat)
    ensures n <= |s| && (n < |s| ==> LineBreak(s[n]))
    ensures forall i :: 0 <= i < n ==> !LineBreak(s[i])
  {
    if s == "" || LineBreak(s[0]) then 0 else 1 + LineEnd(s[1..])
  }

  /** str.splitlines */
  function SplitLines(s: string): (lines: seq<string>)
    decreases |s|
  {
    if s == "" then []
    else
      var n := LineEnd(s);
      if n == |s| then [s]
      else
        var skip := if s[n] == '\r' && n + 1 < |s| && s[n + 1] == '\n' then 2 else 1;
        [s[..n]] + SplitLines(s[n + skip..])
  }

  /** Every line followed by a newline. */
  function JoinLines(lines: seq<string>): string {
    if lines == [] then "" else lines[0] + "\n" + JoinLines(lines[1..])
  }

  ghost predicate OneLine(s: string) {
    forall i :: 0 <= i < |s| ==> !LineBreak(s[i])
  }

  lemma {:induction false} SplitOneLine(s: string)
    ensures forall i :: 0 <= i < |SplitLines(s)| ==> OneLine(SplitLines(s)[i])
    decreases |s|
  {
    if s != "" {
      var n := LineEnd(s);
      if n < |s| {
        var skip := if s[n] == '\r' && n + 1 < |s| && s[n + 1] == '\n' then 2 else 1;
        SplitOneLine(s[n + skip..]);
        assert OneLine(s[..n]);
      }
    }
  }

  lemma {:induction false} LineEndOf(line: string, rest: string)
    requires OneLine(line)
    ensures LineEnd(line + "\n" + rest) == |line|
  {
    var s := line + "\n" + rest;
    assert forall i :: 0 <= i < |line| ==> s[i] == line[i];
    assert s[|line|] == '\n';
  }

  lemma {:induction false} SplitJoined(lines: seq<string>)
    requires forall i :: 0 <= i < |lines| ==> OneLine(lines[i])
    ensures SplitLines(JoinLines(lines)) == lines
  {
    if lines != [] {
      var rest := JoinLines(lines[1..]);
      var s := lines[0] + "\n" + rest;
      LineEndOf(lines[0], rest);
      assert s[..|lines[0]|] == lines[0] && s[|lines[0]| + 1..] == rest;
      assert s[|lines[0]|] == '\n';
      SplitJoined(lines[1..]);
    }
  }

  // ----- What splitting does -----

  /** The lines, each followed by its line end. */
  function Weave(lines: seq<string>, ends: seq<string>): string
    requires |lines| == |ends|
  {
    if lines == [] then "" else lines[0] + (ends[0] + Weave(lines[1..], ends[1..]))
  }

  predicate LineEnding(e: string) {
    e == "\r\n" || (|e| == 1 && LineBreak(e[0]))
  }

  /**
   Lines without breaks, each with its line end; the last may go without one unless it is empty, and
   a return before a newline ends no line of its own.
   */
  ghost predicate LinesWith(lines: seq<string>, ends: seq<string>)
    requires |lines| == |ends|
  {
    lines != [] ==>
      && OneLine(lines[0])
      && (if ends[0] == "" then |lines| == 1 && lines[0] != "" else LineEnding(ends[0]))
      && (ends[0] == "\r" ==> !("\n" <= Weave(lines[1..], ends[1..])))
      && LinesWith(lines[1..], ends[1..])
  }

  /** The first line of a text, with its line end. */
  lemma {:induction false} FirstLine(s: string) returns (line: string, end: string, rest: string)
    requires s != ""
    ensures s == line + (end + rest) && OneLine(line) && |rest| < |s|
    ensures if end == "" then line != "" && rest == "" else LineEnding(end)
    ensures end == "\r" ==> !("\n" <= rest)
  {
    var n := LineEnd(s);
    line := s[..n];
    if n == |s| {
      end, rest := "", "";
      assert line + ("" + "") == s;
    } else {
      var skip := if s[n] == '\r' && n + 1 < |s| && s[n + 1] == '\n' then 2 else 1;
      end, rest := s[n..n + skip], s[n + skip..];
      assert s[n..] == end + rest;
      assert skip == 2 ==> end == "\r\n";
      assert skip == 1 ==> end == [s[n]] && (rest != "" ==> rest[0] == s[n + 1]);
    }
  }

  lemma {:induction false} EndOfLine(line: string, end: string, rest: string)
    requires OneLine(line) && (if end == "" then rest == "" else LineEnding(end))
    ensures LineEnd(line + (end + rest)) == |line|
  {
    var s := line + (end + rest);
    assert forall i :: 0 <= i < |line| ==> s[i] == line[i];
    if end != "" {
      assert s[|line|] == end[0];
    }
  }

  lemma {:induction false} SplitWoven(lines: seq<string>, ends: seq<string>)
    requires |lines| == |ends| && LinesWith(lines, ends)
    ensures SplitLines(Weave(lines, ends)) == lines
  {
    if lines != [] {
      var line, end, rest := lines[0], ends[0], Weave(lines[1..], ends[1..]);
      SplitWoven(lines[1..], ends[1..]);
      EndOfLine(line, end, rest);
      SplitOne(line, end, rest);
    }
  }

  lemma {:induction false} SplitOne(line: string, end: string, rest: string)
    requires LineEnd(line + (end + rest)) == |line|
    requires if end == "" then line != "" && rest == "" else LineEnding(end)
    requires end == "\r" ==> !("\n" <= rest)
    ensures SplitLines(line + (end + rest)) == [line] + SplitLines(rest)
  {
    var s := line + (end + rest);
    if end == "" {
      assert s == line;
    } else {
      EndTaken(line, end, rest);
    }
  }

  lemma {:induction false} EndTaken(line: string, end: string, rest: string)
    requires LineEnding(end) && (end == "\r" ==> !("\n" <= rest))
    ensures var s, n := line + (end + rest), |line|;
            && n < |s| && s[..n] == line && s[n + |end|..] == rest
            && |end| == if s[n] == '\r' && n + 1 < |s| && s[n + 1] == '\n' then 2 else 1
  {
    var s, n := line + (end + rest), |line|;
    assert s[n..] == end + rest;
    assert s[n] == end[0];
    if |end| == 1 && rest != "" {
      assert s[n + 1] == rest[0];
    }
    if |end| == 2 {
      assert s[n + 1] == end[1];
    }
  }

  lemma {:induction false} SplitEnds(s: string) returns (ends: seq<string>)
    ensures |ends| == |SplitLines(s)| && LinesWith(SplitLines(s), ends) && s == Weave(SplitLines(s), ends)
    decreases |s|
  {
    if s == "" {
      ends := [];
    } else {
      var line, end, rest := FirstLine(s);
      EndOfLine(line, end, rest);
      SplitOne(line, end, rest);
      var others := SplitEnds(rest);
      ends := [end] + others;
      WeaveOne(line, end, SplitLines(rest), others);
    }
  }

  lemma {:induction false} WeaveOne(line: string, end: string, lines: seq<string>, ends: seq<string>)
    requires |lines| == |ends| && LinesWith(lines, ends) && OneLine(line)
    requires if end == "" then line != "" && lines == [] else LineEnding(end)
    requires end == "\r" ==> !("\n" <= Weave(lines, ends))
    ensures LinesWith([line] + lines, [end] + ends)
    ensures Weave([line] + lines, [end] + ends) == line + (end + Weave(lines, ends))
  {
    assert ([line] + lines)[1..] == lines && ([end] + ends)[1..] == ends;
  }

  /** The lines of a text are the only ones that, with some line ends, make it up. */
  lemma {:induction false} SplitExactly(s: string, lines: seq<string>)
    ensures SplitLines(s) == lines <==>
            exists ends :: |ends| == |lines| && LinesWith(lines, ends) && s == Weave(lines, ends)
  {
    var found := SplitEnds(s);
    if ends :| |ends| == |lines| && LinesWith(lines, ends) && s == Weave(lines, ends) {
      SplitWoven(lines, ends);
    }
  }

  lemma {:induction false} CodeOneLine(line: string)
    requires OneLine(line)
    ensures OneLine(Code(line))
  {
    var code := Code(line);
    assert forall i :: 0 <= i < |code| ==> code[i] == line[i];
  }
}

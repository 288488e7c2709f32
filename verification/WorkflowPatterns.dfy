/** The line matchers accept exactly the languages of the patterns they stand for. */
module WorkflowPatterns {
  import opened Wrappers
  import opened WorkflowText

  predicate Spaces(s: string) {
    forall i :: 0 <= i < |s| ==> IsSpace(s[i])
  }

  /** Nothing, or a text that does not begin with white space. */
  predicate NoSpaceFirst(s: string) {
    s == "" || !IsSpace(s[0])
  }

  predicate ValueText(v: string) {
    v != "" && forall i :: 0 <= i < |v| ==> !IsSpace(v[i]) && v[i] != '#'
  }

  /** The optional dash of a list item and the white space after it. */
  predicate DashText(d: string) {
    d == "" || (|d| >= 2 && d[0] == '-' && Spaces(d[1..]))
  }

  // ----- Parts of a line -----

  lemma {:induction false} IndentIs(a: string, rest: string)
    requires Spaces(a) && NoSpaceFirst(rest)
    ensures Indent(a + rest) == |a|
  {
    if a == "" {
      assert a + rest == rest;
    } else {
      IndentIs(a[1..], rest);
      assert (a + rest)[1..] == a[1..] + rest;
    }
  }

  lemma {:induction false} IndentSpaces(s: string)
    ensures Spaces(s[..Indent(s)]) && NoSpaceFirst(s[Indent(s)..])
  {
    if s != "" && IsSpace(s[0]) {
      IndentSpaces(s[1..]);
      assert s[..Indent(s)] == [s[0]] + s[1..][..Indent(s[1..])];
      assert s[Indent(s)..] == s[1..][Indent(s[1..])..];
    }
  }

  lemma {:induction false} BlankIsSpaces(s: string)
    ensures Blank(s) <==> Spaces(s)
  {
    IndentSpaces(s);
    if Blank(s) {
      assert s[..Indent(s)] == s;
    }
    if Spaces(s) {
      IndentIs(s, "");
      assert s + "" == s;
    }
  }

  lemma {:induction false} ValueRunIs(v: string, c: string)
    requires ValueText(v) && Spaces(c)
    ensures ValueRun(v + c) == |v|
  {
    assert (v + c)[1..] == v[1..] + c;
    if |v| == 1 {
      assert v[1..] + c == c;
    } else {
      ValueRunIs(v[1..], c);
    }
  }

  lemma {:induction false} PrefixParts(p: string, rest: string)
    ensures p <= p + rest && (p + rest)[|p|..] == rest
  {
  }

  // ----- uses -----

  /** After the key and its colon: white space, a value, and white space to the end. */
  ghost predicate ValueAfter(after: string, v: string) {
    exists b, c :: after == b + (v + c) && b != "" && Spaces(b) && ValueText(v) && Spaces(c)
  }

  /** The pattern of a uses line, in its parts. */
  ghost predicate UsesLine(s: string, u: Uses) {
    exists a, d, after ::
      && s == a + (d + ("uses:" + after)) && Spaces(a) && DashText(d) && ValueAfter(after, u.value)
      && u.indent == |a| && u.dash == (d != "")
  }

  /** How the matcher reads what follows the colon. */
  function ReadValue(after: string): Option<string> {
    if after == "" || !IsSpace(after[0]) then None
    else
      var text := DropSpaces(after);
      var n := ValueRun(text);
      if n == 0 || !Blank(text[n..]) then None else Some(text[..n])
  }

  lemma {:induction false} ReadValueExactly(after: string, v: string)
    ensures ReadValue(after) == Some(v) <==> ValueAfter(after, v)
  {
    if ReadValue(after) == Some(v) {
      var k := Indent(after);
      IndentSpaces(after);
      var text := after[k..];
      BlankIsSpaces(text[|v|..]);
      assert after == after[..k] + (v + text[|v|..]);
      assert k > 0;
    }
    if ValueAfter(after, v) {
      var b, c :| after == b + (v + c) && b != "" && Spaces(b) && ValueText(v) && Spaces(c);
      assert (v + c)[0] == v[0];
      IndentIs(b, v + c);
      assert after[0] == b[0];
      assert DropSpaces(after) == v + c;
      ValueRunIs(v, c);
      BlankIsSpaces(c);
      assert (v + c)[|v|..] == c && (v + c)[..|v|] == v;
    }
  }

  /** The matcher on a line already split into its indent, dash and body. */
  function ReadBody(indent: nat, dash: bool, body: string): Option<Uses> {
    if !("uses:" <= body) then None
    else
      match ReadValue(body[5..])
      case None => None
      case Some(v) => Some(Uses(indent, dash, v))
  }

  function ReadUses(indent: nat, rest: string): Option<Uses> {
    var dash := DashStart(rest);
    ReadBody(indent, dash, if dash then DropSpaces(rest[1..]) else rest)
  }

  lemma {:induction false} MatchUsesParts(s: string)
    ensures MatchUses(s) == ReadUses(Indent(s), s[Indent(s)..])
  {
  }

  lemma {:induction false} DashParts(rest: string)
    requires DashStart(rest)
    ensures var k := Indent(rest[1..]);
            DashText(rest[..1 + k]) && rest == rest[..1 + k] + rest[1 + k..] && DropSpaces(rest[1..]) == rest[1 + k..]
  {
    var k := Indent(rest[1..]);
    IndentSpaces(rest[1..]);
    assert rest[..1 + k][1..] == rest[1..][..k];
    assert rest[1..][0] == rest[1];
  }

  lemma {:induction false} DashBody(d: string, after: string)
    requires DashText(d) && d != ""
    ensures var rest := d + ("uses:" + after); DashStart(rest) && DropSpaces(rest[1..]) == "uses:" + after
  {
    var rest := d + ("uses:" + after);
    assert rest[1..] == d[1..] + ("uses:" + after);
    assert rest[1] == d[1] == d[1..][0];
    IndentIs(d[1..], "uses:" + after);
  }

  /** A line matches exactly when it has the parts of the pattern, and the parts are those found. */
  lemma {:induction false} UsesExactly(s: string, u: Uses)
    ensures MatchUses(s) == Some(u) <==> UsesLine(s, u)
  {
    MatchUsesParts(s);
    if ReadUses(Indent(s), s[Indent(s)..]) == Some(u) {
      UsesInLine(s, Indent(s), u);
    }
    if UsesLine(s, u) {
      UsesLineRead(s, u);
    }
  }

  lemma {:induction false} UsesInLine(s: string, k: nat, u: Uses)
    requires k == Indent(s) && ReadUses(k, s[k..]) == Some(u)
    ensures UsesLine(s, u)
  {
    SplitLine(s);
    UsesFound(s, s[..k], s[k..], k, u);
  }

  lemma {:induction false} SplitLine(s: string)
    ensures s == s[..Indent(s)] + s[Indent(s)..] && Spaces(s[..Indent(s)])
  {
    IndentSpaces(s);
  }

  lemma {:induction false} UsesLineRead(s: string, u: Uses)
    requires UsesLine(s, u)
    ensures MatchUses(s) == Some(u)
  {
    var a, d, after :| s == a + (d + ("uses:" + after)) && Spaces(a) && DashText(d) && ValueAfter(after, u.value)
                       && u.indent == |a| && u.dash == (d != "");
    UsesRead(a, d, after, u.value);
  }

  lemma {:induction false} UsesFound(s: string, a: string, rest: string, k: nat, u: Uses)
    requires s == a + rest && Spaces(a) && k == |a|
    requires ReadUses(k, rest) == Some(u)
    ensures UsesLine(s, u)
  {
    if DashStart(rest) {
      DashParts(rest);
      var d, body := rest[..1 + Indent(rest[1..])], rest[1 + Indent(rest[1..])..];
      BodyFound(s, a, d, body, u);
    } else {
      assert "" + rest == rest;
      BodyFound(s, a, "", rest, u);
    }
  }

  lemma {:induction false} BodyFound(s: string, a: string, d: string, body: string, u: Uses)
    requires s == a + (d + body) && Spaces(a) && DashText(d) && ReadBody(|a|, d != "", body) == Some(u)
    ensures UsesLine(s, u)
  {
    ReadValueExactly(body[5..], u.value);
    assert body == "uses:" + body[5..];
  }

  lemma {:induction false} UsesRead(a: string, d: string, after: string, v: string)
    requires Spaces(a) && DashText(d) && ValueAfter(after, v)
    ensures MatchUses(a + (d + ("uses:" + after))) == Some(Uses(|a|, d != "", v))
  {
    var body := "uses:" + after;
    var s := a + (d + body);
    assert body[0] == 'u';
    assert (d + body)[0] == if d == "" then 'u' else '-';
    IndentIs(a, d + body);
    assert s[|a|..] == d + body;
    MatchUsesParts(s);
    if d != "" {
      DashBody(d, after);
    } else {
      assert d + body == body;
    }
    PrefixParts("uses:", after);
    ReadValueExactly(after, v);
  }

  // ----- with and persist-credentials -----

  ghost predicate WithLine(s: string, indent: nat) {
    exists a, c :: s == a + ("with:" + c) && Spaces(a) && Spaces(c) && |a| == indent
  }

  lemma {:induction false} WithExactly(s: string, indent: nat)
    ensures MatchWith(s) == Some(indent) <==> WithLine(s, indent)
  {
    if MatchWith(s) == Some(indent) {
      var rest := s[indent..];
      IndentSpaces(s);
      BlankIsSpaces(rest[5..]);
      assert rest == "with:" + rest[5..];
      assert s == s[..indent] + ("with:" + rest[5..]);
    }
    if WithLine(s, indent) {
      var a, c :| s == a + ("with:" + c) && Spaces(a) && Spaces(c) && |a| == indent;
      assert ("with:" + c)[0] == 'w';
      IndentIs(a, "with:" + c);
      PrefixParts("with:", c);
      PrefixParts(a, "with:" + c);
      BlankIsSpaces(c);
    }
  }

  /** A boolean written out. */
  function Word(value: bool): string {
    if value then "true" else "false"
  }

  /** White space, a boolean, and white space to the end. */
  ghost predicate WordAfter(after: string, value: bool) {
    exists b, c :: after == b + (Word(value) + c) && b != "" && Spaces(b) && Spaces(c)
  }

  /** A key that takes a boolean, in its parts. */
  ghost predicate FlagLine(s: string, key: string, p: Persist) {
    exists a, after :: s == a + (key + after) && Spaces(a) && WordAfter(after, p.value) && |a| == p.indent
  }

  /** How the matcher reads what follows the colon. */
  function ReadWord(after: string): Option<bool> {
    if after == "" || !IsSpace(after[0]) then None
    else
      var text := DropSpaces(after);
      if "true" <= text && Blank(text[4..]) then Some(true)
      else if "false" <= text && Blank(text[5..]) then Some(false)
      else None
  }

  lemma {:induction false} ReadWordExactly(after: string, value: bool)
    ensures ReadWord(after) == Some(value) <==> WordAfter(after, value)
  {
    if ReadWord(after) == Some(value) {
      ReadFollows(after, value);
    }
    if WordAfter(after, value) {
      var b, c :| after == b + (Word(value) + c) && b != "" && Spaces(b) && Spaces(c);
      WordRead(b, value, c);
    }
  }

  lemma {:induction false} ReadFollows(after: string, value: bool)
    requires ReadWord(after) == Some(value)
    ensures WordAfter(after, value)
  {
    var k := Indent(after);
    IndentSpaces(after);
    var c := WordTaken(after[k..], value);
    assert after == after[..k] + after[k..];
    WordAfterOf(after[..k], value, c);
  }

  lemma {:induction false} WordTaken(text: string, value: bool) returns (c: string)
    requires if value then "true" <= text && Blank(text[4..]) else "false" <= text && Blank(text[5..])
    ensures text == Word(value) + c && Spaces(c)
  {
    c := text[|Word(value)|..];
    BlankIsSpaces(c);
  }

  lemma {:induction false} WordAfterOf(b: string, value: bool, c: string)
    requires b != "" && Spaces(b) && Spaces(c)
    ensures WordAfter(b + (Word(value) + c), value)
  {
  }

  lemma {:induction false} WordRead(b: string, value: bool, c: string)
    requires b != "" && Spaces(b) && Spaces(c)
    ensures ReadWord(b + (Word(value) + c)) == Some(value)
  {
    var text := Word(value) + c;
    var after := b + text;
    assert text[0] == Word(value)[0];
    IndentIs(b, text);
    assert after[0] == b[0] && DropSpaces(after) == text;
    PrefixParts(Word(value), c);
    BlankIsSpaces(c);
  }

  /** A flag's line, with the key left open. */
  function ReadFlag(s: string, key: string): Option<Persist> {
    var rest := s[Indent(s)..];
    if key <= rest && ReadWord(rest[|key|..]).Some?
    then Some(Persist(Indent(s), ReadWord(rest[|key|..]).value)) else None
  }

  lemma {:induction false} FlagFound(s: string, key: string, p: Persist)
    requires ReadFlag(s, key) == Some(p)
    ensures FlagLine(s, key, p)
  {
    var k := Indent(s);
    IndentSpaces(s);
    ReadWordExactly(s[k..][|key|..], p.value);
    SplitAt(s, k, key);
    FlagOf(s[..k], key, s[k..][|key|..], p.value);
  }

  lemma {:induction false} FlagOf(a: string, key: string, after: string, value: bool)
    requires Spaces(a) && WordAfter(after, value)
    ensures FlagLine(a + (key + after), key, Persist(|a|, value))
  {
  }

  lemma {:induction false} SplitAt(s: string, k: nat, key: string)
    requires k <= |s| && key <= s[k..]
    ensures s == s[..k] + (key + s[k..][|key|..])
  {
    assert s[k..] == key + s[k..][|key|..];
  }

  lemma {:induction false} FlagRead(a: string, key: string, after: string, value: bool)
    requires key != "" && !IsSpace(key[0]) && Spaces(a) && WordAfter(after, value)
    ensures ReadFlag(a + (key + after), key) == Some(Persist(|a|, value))
  {
    assert (key + after)[0] == key[0];
    IndentIs(a, key + after);
    PrefixParts(a, key + after);
    PrefixParts(key, after);
    ReadWordExactly(after, value);
  }

  lemma {:induction false} ReadFlagExactly(s: string, key: string, p: Persist)
    requires key != "" && !IsSpace(key[0])
    ensures ReadFlag(s, key) == Some(p) <==> FlagLine(s, key, p)
  {
    if ReadFlag(s, key) == Some(p) {
      FlagFound(s, key, p);
    }
    if FlagLine(s, key, p) {
      var a, after :| s == a + (key + after) && Spaces(a) && WordAfter(after, p.value) && |a| == p.indent;
      FlagRead(a, key, after, p.value);
    }
  }

  lemma {:induction false} PersistExactly(s: string, p: Persist)
    ensures MatchPersist(s) == Some(p) <==> FlagLine(s, "persist-credentials:", p)
  {
    ReadFlagExactly(s, "persist-credentials:", p);
    assert MatchPersist(s) == ReadFlag(s, "persist-credentials:");
  }

  // ----- Action references -----

  predicate HexDigitChar(c: char) {
    c in "0123456789abcdefABCDEF"
  }

  ghost predicate Commit(s: string) {
    |s| == 40 && forall i :: 0 <= i < |s| ==> HexDigitChar(s[i])
  }

  /** The owner and name of an action: a text without at sign and white space. */
  ghost predicate Owner(s: string) {
    s != "" && forall i :: 0 <= i < |s| ==> s[i] != '@' && !IsSpace(s[i])
  }

  /** An action pinned to a commit. */
  ghost predicate PinnedText(v: string) {
    exists owner, commit :: v == owner + ("@" + commit) && Owner(owner) && Commit(commit)
  }

  lemma {:induction false} CommitParts(v: string)
    requires CommitSuffix(v)
    ensures v == v[..|v| - 41] + ("@" + v[|v| - 40..]) && Commit(v[|v| - 40..])
  {
    assert forall i :: |v| - 40 <= i < |v| ==> IsHex(v[i]);
    assert v[|v| - 41..] == "@" + v[|v| - 40..];
  }

  lemma {:induction false} CommitRead(before: string, commit: string)
    requires Commit(commit)
    ensures CommitSuffix(before + ("@" + commit))
  {
    var v := before + ("@" + commit);
    assert v[|before|] == '@';
    assert forall i :: 0 <= i < 40 ==> v[|before| + 1 + i] == commit[i];
  }

  lemma {:induction false} RemoteExactly(v: string)
    ensures RemoteAction(v) <==> PinnedText(v)
  {
    if RemoteAction(v) {
      CommitParts(v);
      assert Owner(v[..|v| - 41]);
    }
    if owner, commit :| v == owner + ("@" + commit) && Owner(owner) && Commit(commit) {
      PinnedRead(owner, commit);
    }
  }

  lemma {:induction false} PinnedRead(owner: string, commit: string)
    requires Owner(owner) && Commit(commit)
    ensures RemoteAction(owner + ("@" + commit))
  {
    var v := owner + ("@" + commit);
    CommitRead(owner, commit);
    assert v[..|v| - 41] == owner;
    assert forall i :: 0 <= i < |owner| ==> v[i] == owner[i];
  }

  /** A path below the repository: a non-empty text without white space or number sign after `./`. */
  ghost predicate LocalText(v: string) {
    exists path :: v == "./" + path && ValueText(path)
  }

  lemma {:induction false} LocalExactly(v: string)
    ensures LocalAction(v) <==> LocalText(v)
  {
    if LocalAction(v) {
      assert v == "./" + v[2..];
    }
  }

  ghost predicate CheckoutText(v: string) {
    exists commit :: v == "actions/checkout@" + commit && Commit(commit)
  }

  lemma {:induction false} CheckoutActionExactly(v: string)
    ensures CheckoutAction(v) <==> CheckoutText(v)
  {
    var name := "actions/checkout";
    assert name + "@" == "actions/checkout@";
    if CheckoutAction(v) {
      CommitParts(v);
      Regrouped(name, "@", v[|v| - 40..]);
    }
    if commit :| v == "actions/checkout@" + commit && Commit(commit) {
      CommitRead(name, commit);
      Regrouped(name, "@", commit);
      assert v[..|v| - 41] == name;
    }
  }

  lemma {:induction false} Regrouped(a: string, b: string, c: string)
    ensures a + (b + c) == (a + b) + c
  {
  }

  // ----- List items and keys -----

  ghost predicate ItemLine(s: string, indent: nat) {
    exists a, b, rest :: s == a + ("-" + (b + rest)) && Spaces(a) && b != "" && Spaces(b) && |a| == indent
  }

  lemma {:induction false} StepStartExactly(s: string, indent: nat)
    ensures MatchStepStart(s) == Some(indent) <==> ItemLine(s, indent)
  {
    if MatchStepStart(s) == Some(indent) {
      IndentSpaces(s);
      var rest := s[indent..];
      assert s == s[..indent] + ("-" + ([rest[1]] + rest[2..]));
    }
    if ItemLine(s, indent) {
      var a, b, rest :| s == a + ("-" + (b + rest)) && Spaces(a) && b != "" && Spaces(b) && |a| == indent;
      IndentIs(a, "-" + (b + rest));
      assert s[indent..] == "-" + (b + rest);
      assert s[indent..][1] == b[0];
    }
  }

  /** The key, bare or between quotation marks of either kind. */
  ghost predicate KeyWord(word: string, key: string) {
    word == key || exists q, r :: q in "'\"" && r in "'\"" && word == [q] + key + [r]
  }

  ghost predicate KeyMay(before: string) {
    before == "" || IsSpace(before[|before| - 1]) || before[|before| - 1] == '{' || before[|before| - 1] == ','
  }

  /** The key and a colon, at the start of the line or after white space, an open brace or a comma. */
  ghost predicate KeyText(s: string, key: string) {
    exists before, word, gap, rest ::
      s == before + (word + (gap + (":" + rest))) && KeyMay(before) && KeyWord(word, key) && Spaces(gap)
  }

  lemma {:induction false} ColonParts(s: string) returns (gap: string, rest: string)
    requires ColonNext(s)
    ensures s == gap + (":" + rest) && Spaces(gap)
  {
    IndentSpaces(s);
    gap, rest := s[..Indent(s)], s[Indent(s) + 1..];
  }

  lemma {:induction false} ColonRead(gap: string, rest: string)
    requires Spaces(gap)
    ensures ColonNext(gap + (":" + rest))
  {
    IndentIs(gap, ":" + rest);
    PrefixParts(gap, ":" + rest);
  }

  lemma {:induction false} KeyParts(s: string, key: string) returns (word: string, tail: string)
    requires KeyHere(s, key)
    ensures s == word + tail && KeyWord(word, key) && ColonNext(tail)
  {
    if key <= s && ColonNext(s[|key|..]) {
      word, tail := key, s[|key|..];
    } else {
      word, tail := [s[0]] + key + [s[|key| + 1]], s[|key| + 2..];
      QuotedParts(s, key);
    }
  }

  lemma {:induction false} QuotedParts(s: string, key: string)
    requires |s| >= |key| + 2 && key <= s[1..]
    ensures s == [s[0]] + key + [s[|key| + 1]] + s[|key| + 2..]
  {
    assert s == [s[0]] + s[1..];
    assert s[1..] == key + s[1..][|key|..];
    assert s[1..][|key|..] == [s[|key| + 1]] + s[|key| + 2..];
  }

  lemma {:induction false} BareRead(key: string, tail: string)
    requires ColonNext(tail)
    ensures KeyHere(key + tail, key)
  {
    PrefixParts(key, tail);
  }

  lemma {:induction false} QuotedRead(q: char, r: char, key: string, tail: string)
    requires IsQuote(q) && IsQuote(r) && ColonNext(tail)
    ensures KeyHere([q] + key + [r] + tail, key)
  {
    var s := [q] + key + [r] + tail;
    assert s[1..] == key + ([r] + tail);
    PrefixParts(key, [r] + tail);
    assert s[|key| + 1] == r && s[|key| + 2..] == tail;
  }

  lemma {:induction false} KeyWordRead(word: string, key: string, tail: string)
    requires KeyWord(word, key) && ColonNext(tail)
    ensures KeyHere(word + tail, key)
  {
    if word == key {
      BareRead(key, tail);
    } else {
      var q, r :| q in "'\"" && r in "'\"" && word == [q] + key + [r];
      QuotedRead(q, r, key, tail);
    }
  }

  lemma {:induction false} MentionsExactly(s: string, key: string)
    ensures MentionsKey(s, key) <==> KeyText(s, key)
  {
    if i: int :| 0 <= i <= |s| && (i == 0 || IsSpace(s[i - 1]) || s[i - 1] == '{' || s[i - 1] == ',')
                 && KeyHere(s[i..], key) {
      KeyFound(s, i, key);
    }
    if before, word, gap, rest :|
        s == before + (word + (gap + (":" + rest))) && KeyMay(before) && KeyWord(word, key) && Spaces(gap) {
      KeyRead(before, word, gap, rest, key);
    }
  }

  lemma {:induction false} KeyFound(s: string, i: nat, key: string)
    requires i <= |s| && KeyMay(s[..i]) && KeyHere(s[i..], key)
    ensures KeyText(s, key)
  {
    assert s == s[..i] + s[i..];
    KeyAfter(s[..i], s[i..], key);
  }

  lemma {:induction false} KeyAfter(before: string, here: string, key: string)
    requires KeyMay(before) && KeyHere(here, key)
    ensures KeyText(before + here, key)
  {
    var word, tail := KeyParts(here, key);
    var gap, rest := ColonParts(tail);
    KeyTextOf(before, word, gap, rest, key);
  }

  lemma {:induction false} KeyTextOf(before: string, word: string, gap: string, rest: string, key: string)
    requires KeyMay(before) && KeyWord(word, key) && Spaces(gap)
    ensures KeyText(before + (word + (gap + (":" + rest))), key)
  {
  }

  lemma {:induction false} KeyRead(before: string, word: string, gap: string, rest: string, key: string)
    requires KeyMay(before) && KeyWord(word, key) && Spaces(gap)
    ensures MentionsKey(before + (word + (gap + (":" + rest))), key)
  {
    var tail := gap + (":" + rest);
    ColonRead(gap, rest);
    KeyWordRead(word, key, tail);
    MentionAt(before, word + tail, key);
  }

  lemma {:induction false} MentionAt(before: string, here: string, key: string)
    requires KeyMay(before) && KeyHere(here, key)
    ensures MentionsKey(before + here, key)
  {
    var s := before + here;
    var i := |before|;
    PrefixParts(before, here);
    assert i > 0 ==> s[i - 1] == before[i - 1];
  }

  // ----- The character classes -----

  /** The white space of Unicode as str.isspace has it. */
  lemma {:induction false} SpaceList(c: char)
    ensures IsSpace(c) <==>
            || c in "\t\n\r \U{0B}\U{0C}\U{1C}\U{1D}\U{1E}\U{1F}\U{85}\U{A0}\U{1680}"
            || c in "\U{2000}\U{2001}\U{2002}\U{2003}\U{2004}\U{2005}\U{2006}\U{2007}\U{2008}\U{2009}\U{200A}"
            || c in "\U{2028}\U{2029}\U{202F}\U{205F}\U{3000}"
  {
  }

  /** The line boundaries of str.splitlines. */
  lemma {:induction false} BreakList(c: char)
    ensures LineBreak(c) <==> c in "\n\r\U{0B}\U{0C}\U{1C}\U{1D}\U{1E}\U{85}\U{2028}\U{2029}"
  {
  }

  /** Trimming takes away the white space at the end, and all of it. */
  lemma {:induction false} TrimExactly(s: string, r: string)
    ensures TrimRight(s) == r <==> Trimmed(r) && exists t :: s == r + t && Spaces(t)
  {
    var trimmed := TrimRight(s);
    TrimParts(s);
    assert s == trimmed + s[|trimmed|..];
    if t :| s == r + t && Spaces(t) && Trimmed(r) {
      TrimRead(r, t);
    }
  }

  ghost predicate Trimmed(r: string) {
    r == "" || !IsSpace(r[|r| - 1])
  }

  lemma {:induction false} TrimParts(s: string)
    ensures Spaces(s[|TrimRight(s)|..]) && Trimmed(TrimRight(s))
  {
    if s != "" && IsSpace(s[|s| - 1]) {
      var front := s[..|s| - 1];
      TrimParts(front);
      assert s[|TrimRight(s)|..] == front[|TrimRight(s)|..] + [s[|s| - 1]];
    }
  }

  lemma {:induction false} TrimRead(r: string, t: string)
    requires Trimmed(r) && Spaces(t)
    ensures TrimRight(r + t) == r
  {
    if t == "" {
      assert r + t == r;
    } else {
      assert (r + t)[..|r + t| - 1] == r + t[..|t| - 1];
      TrimRead(r, t[..|t| - 1]);
    }
  }
}

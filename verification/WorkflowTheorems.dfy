/** What a file without failures looks like, and which changes to its text no check can see. */
module WorkflowTheorems {
  import opened Wrappers
  import opened WorkflowText
  import opened WorkflowPatterns
  import opened Workflow

  // ----- Selections -----

  lemma {:induction false} SelectHas(s: nat, e: nat, test: nat -> bool, i: nat)
    requires s <= e
    ensures i in Select(s, e, test) <==> s <= i < e && test(i)
    decreases e
  {
    if s < e {
      SelectHas(s, e - 1, test, i);
    }
  }

  lemma {:induction false} SelectSorted(s: nat, e: nat, test: nat -> bool, j: nat, k: nat)
    requires s <= e && j < k < |Select(s, e, test)|
    ensures Select(s, e, test)[j] < Select(s, e, test)[k]
    decreases e
  {
    if k < |Select(s, e - 1, test)| {
      SelectSorted(s, e - 1, test, j, k);
    }
  }

  ghost predicate OnlyOne(s: nat, e: nat, test: nat -> bool, i: nat) {
    s <= i < e && test(i) && forall j: nat :: s <= j < e && test(j) ==> j == i
  }

  /** A selection has one element exactly when the test has one answer. */
  lemma {:induction false} SelectOne(s: nat, e: nat, test: nat -> bool)
    requires s <= e
    ensures |Select(s, e, test)| == 1 ==> OnlyOne(s, e, test, Select(s, e, test)[0])
    ensures forall i: nat :: OnlyOne(s, e, test, i) ==> Select(s, e, test) == [i]
  {
    var r := Select(s, e, test);
    if |r| == 1 {
      forall j: nat | s <= j < e && test(j) ensures j == r[0] {
        SelectHas(s, e, test, j);
      }
    }
    forall i: nat | OnlyOne(s, e, test, i) ensures r == [i] {
      SelectHas(s, e, test, i);
      if |r| > 1 {
        SelectSorted(s, e, test, 0, 1);
      }
    }
  }

  lemma {:induction false} SelectNone(s: nat, e: nat, test: nat -> bool)
    requires s <= e
    ensures Select(s, e, test) == [] <==> forall i: nat :: s <= i < e ==> !test(i)
  {
    var r := Select(s, e, test);
    forall i: nat | s <= i < e && test(i) ensures r != [] {
      SelectHas(s, e, test, i);
    }
    if r != [] {
      assert s <= r[0] < e && test(r[0]);
    }
  }

  // ----- Bounds -----

  /** The step of a uses line as indentation defines it: from its list item to the next one. */
  ghost predicate StepAround(lines: seq<Line>, u: nat, s: nat, e: nat) {
    && s <= u < e <= |lines|
    && (if lines[u].uses.Some? && lines[u].uses.value.dash then s == u
        else
          && s < u && !lines[s].blank && lines[s].item && lines[s].indent < lines[u].indent
          && forall k :: s < k < u ==> lines[k].blank || lines[k].indent >= lines[u].indent)
    && (forall k :: s < k < e ==> !EndsStep(lines[k], lines[s].indent))
    && (e < |lines| ==> EndsStep(lines[e], lines[s].indent))
  }

  lemma {:induction false} StartExactly(lines: seq<Line>, i: nat, indent: nat, s: nat)
    requires i <= |lines|
    ensures FindStart(lines, i, indent) == Some(s) <==>
      (s < i && !lines[s].blank && lines[s].item && lines[s].indent < indent
       && forall k :: s < k < i ==> lines[k].blank || lines[k].indent >= indent)
    decreases i
  {
    if i > 0 {
      StartExactly(lines, i - 1, indent, s);
    }
  }

  /** The bounds found for a uses line are those of the step around it, and they are found if it has one. */
  lemma {:induction false} BoundsExactly(lines: seq<Line>, u: nat, s: nat, e: nat)
    requires u < |lines| && lines[u].uses.Some?
    ensures StepBounds(lines, u) == Some((s, e)) <==> StepAround(lines, u, s, e)
  {
    StartExactly(lines, u, lines[u].indent, s);
    if StepBounds(lines, u) == Some((s, e)) {
      BoundsContain(lines, u);
    }
    if StepAround(lines, u, s, e) {
      var end := FindEnd(lines, s + 1, lines[s].indent);
      if end < e { assert EndsStep(lines[end], lines[s].indent); }
    }
  }

  // ----- Checkout inputs -----

  /** Line `i` belongs to the mapping whose key is on line `w`: every line down to it is indented more. */
  ghost predicate InMapping(lines: seq<Line>, w: nat, e: nat, i: nat)
    requires w < e <= |lines|
  {
    w < i < e && forall j :: w < j <= i ==> lines[j].blank || lines[j].indent > lines[w].indent
  }

  /** Line `i` is at the mapping's first level. */
  ghost predicate FirstLevel(lines: seq<Line>, w: nat, e: nat, i: nat)
    requires w < e <= |lines|
  {
    && InMapping(lines, w, e, i)
    && forall j: nat :: InMapping(lines, w, e, j) && !lines[j].blank ==> lines[i].indent <= lines[j].indent
  }

  /** Line `p` sets persist-credentials: false directly in the mapping, alone, and none is elsewhere. */
  ghost predicate CredentialsOff(lines: seq<Line>, s: nat, e: nat, w: nat, p: nat)
    requires w < e <= |lines|
  {
    && s <= p && FirstLevel(lines, w, e, p) && lines[p].persist == Some(false)
    && forall q :: s <= q < e && lines[q].persist.Some? ==>
         InMapping(lines, w, e, q) && (FirstLevel(lines, w, e, q) ==> q == p)
  }

  /** Line `w` is the step's only with: key at the indent. */
  ghost predicate OnlyWith(lines: seq<Line>, s: nat, e: nat, indent: nat, w: nat)
    requires e <= |lines|
  {
    s <= w < e && WithAt(indent)(lines[w]) && forall v :: s <= v < e && WithAt(indent)(lines[v]) ==> v == w
  }

  ghost predicate SafeCheckout(lines: seq<Line>, s: nat, e: nat, indent: nat)
    requires e <= |lines|
  {
    exists w, p :: OnlyWith(lines, s, e, indent, w) && CredentialsOff(lines, s, e, w, p)
  }

  lemma {:induction false} MappingExactly(lines: seq<Line>, w: nat, e: nat, i: nat)
    requires w < e <= |lines|
    ensures var (from, to) := MappingBounds(lines, w, e); InMapping(lines, w, e, i) <==> from <= i < to
  {
  }

  lemma {:induction false} LevelExactly(lines: seq<Line>, w: nat, e: nat, i: nat)
    requires w < e <= |lines| && InMapping(lines, w, e, i) && !lines[i].blank
    ensures var (from, to) := MappingBounds(lines, w, e);
            var content := Select(from, to, On(lines, HasText()));
            content != [] && (FirstLevel(lines, w, e, i) <==> lines[i].indent == Least(lines, content, |content|))
  {
    var (from, to) := MappingBounds(lines, w, e);
    var content := Select(from, to, On(lines, HasText()));
    forall j: nat ensures j in content <==> InMapping(lines, w, e, j) && !lines[j].blank {
      SelectHas(from, to, On(lines, HasText()), j);
      MappingExactly(lines, w, e, j);
    }
    assert i in content;
  }

  /** The input checks pass exactly when one line turns the credentials off as the mapping demands. */
  lemma {:induction false} InputsExactly(lines: seq<Line>, s: nat, e: nat, w: nat, number: nat)
    requires s <= w < e <= |lines|
    ensures var (from, to) := MappingBounds(lines, w, e);
            InputFailures(lines, s, e, from, to, number) == []
            <==> exists p: nat :: CredentialsOff(lines, s, e, w, p)
  {
    var (from, to) := MappingBounds(lines, w, e);
    if InputFailures(lines, s, e, from, to, number) == [] {
      InputsSafe(lines, s, e, w, number);
    }
    forall p: nat | CredentialsOff(lines, s, e, w, p) ensures InputFailures(lines, s, e, from, to, number) == [] {
      SafeInputs(lines, s, e, w, number, p);
    }
  }

  lemma {:induction false} InputsSafe(lines: seq<Line>, s: nat, e: nat, w: nat, number: nat)
    requires s <= w < e <= |lines|
    requires var (from, to) := MappingBounds(lines, w, e); InputFailures(lines, s, e, from, to, number) == []
    ensures exists p: nat :: CredentialsOff(lines, s, e, w, p)
  {
    var (from, to) := MappingBounds(lines, w, e);
    var content := Select(from, to, On(lines, HasText()));
    var level := Least(lines, content, |content|);
    var test := DirectIn(lines, from, to, level);
    SelectOne(s, e, test);
    SelectNone(s, e, OutsideOf(lines, from, to));
    var p := Select(s, e, test)[0];
    LevelExactly(lines, w, e, p);
    forall q: nat | s <= q < e && lines[q].persist.Some?
      ensures InMapping(lines, w, e, q) && (FirstLevel(lines, w, e, q) ==> q == p)
    {
      assert !OutsideOf(lines, from, to)(q);
      LevelExactly(lines, w, e, q);
      assert FirstLevel(lines, w, e, q) ==> test(q);
    }
    assert CredentialsOff(lines, s, e, w, p);
  }

  lemma {:induction false} SafeInputs(lines: seq<Line>, s: nat, e: nat, w: nat, number: nat, p: nat)
    requires s <= w < e <= |lines| && CredentialsOff(lines, s, e, w, p)
    ensures var (from, to) := MappingBounds(lines, w, e); InputFailures(lines, s, e, from, to, number) == []
  {
    var (from, to) := MappingBounds(lines, w, e);
    var content := Select(from, to, On(lines, HasText()));
    LevelExactly(lines, w, e, p);
    var level := Least(lines, content, |content|);
    var test := DirectIn(lines, from, to, level);
    forall q: nat | s <= q < e && test(q) ensures q == p {
      LevelExactly(lines, w, e, q);
    }
    assert OnlyOne(s, e, test, p);
    SelectOne(s, e, test);
    SelectNone(s, e, OutsideOf(lines, from, to));
  }

  /** A checkout step passes exactly when its credentials are off in its only with: mapping. */
  lemma {:induction false} CheckoutExactly(lines: seq<Line>, s: nat, e: nat, number: nat, indent: nat)
    requires s <= e <= |lines|
    ensures CheckoutFailures(lines, s, e, number, indent) == [] <==> SafeCheckout(lines, s, e, indent)
  {
    var test := On(lines, WithAt(indent));
    SelectOne(s, e, test);
    forall w: nat ensures OnlyOne(s, e, test, w) <==> OnlyWith(lines, s, e, indent, w) {
      forall v: nat | s <= v < e ensures test(v) == WithAt(indent)(lines[v]) {}
    }
    forall w: nat | s <= w < e
      ensures var (from, to) := MappingBounds(lines, w, e);
              InputFailures(lines, s, e, from, to, number) == []
              <==> exists p: nat :: CredentialsOff(lines, s, e, w, p)
    {
      InputsExactly(lines, s, e, w, number);
    }
  }

  // ----- Steps -----

  lemma {:induction false} ForEachNone(at: seq<nat>, n: nat, check: nat -> seq<Failure>)
    requires n <= |at|
    ensures ForEach(at, n, check) == [] <==> forall k :: 0 <= k < n ==> check(at[k]) == []
  {
    if n > 0 {
      ForEachNone(at, n - 1, check);
    }
  }

  /** Line `u` is its step's only uses line, and a checkout there has its credentials off. */
  ghost predicate SafeStep(lines: seq<Line>, u: nat, s: nat, e: nat)
    requires u < |lines| && e <= |lines|
  {
    && (forall v: nat :: s <= v < e && lines[v].uses.Some? ==> v == u)
    && (lines[u].uses.Some? && lines[u].uses.value.checkout ==> SafeCheckout(lines, s, e, lines[u].indent))
  }

  lemma {:induction false} StepExactly(lines: seq<Line>, u: nat, s: nat, e: nat)
    requires s <= u < e <= |lines| && lines[u].uses.Some?
    ensures StepFailures(lines, s, e) == [] <==> SafeStep(lines, u, s, e)
  {
    var test := On(lines, IsUses());
    var at := Select(s, e, test);
    var check := UsesCheck(lines, (s, e));
    SelectOne(s, e, test);
    SelectHas(s, e, test, u);
    ForEachNone(at, |at|, check);
    CheckoutExactly(lines, s, e, u + 1, lines[u].indent);
    assert OnlyOne(s, e, test, u) <==> forall v: nat :: s <= v < e && lines[v].uses.Some? ==> v == u by {
      forall v: nat | s <= v < e ensures test(v) == lines[v].uses.Some? {}
    }
    assert check(u) == UsesFailures(lines, s, e, u);
  }

  lemma {:induction false} CheckedHas(at: seq<nat>, n: nat, boundsOf: nat -> Option<Bounds>, b: Bounds)
    requires n <= |at|
    ensures b in Checked(at, n, boundsOf) <==> exists k :: 0 <= k < n && boundsOf(at[k]) == Some(b)
  {
    if n > 0 {
      CheckedHas(at, n - 1, boundsOf, b);
    }
  }

  /** Checking each step once loses nothing. */
  lemma {:induction false} SecondPassNone(
    at: seq<nat>, n: nat, boundsOf: nat -> Option<Bounds>, stepOf: Bounds -> seq<Failure>)
    requires n <= |at|
    ensures SecondPass(at, n, boundsOf, stepOf) == []
       <==> forall k :: 0 <= k < n && boundsOf(at[k]).Some? ==> stepOf(boundsOf(at[k]).value) == []
  {
    if n > 0 {
      SecondPassNone(at, n - 1, boundsOf, stepOf);
      if boundsOf(at[n - 1]).Some? {
        CheckedHas(at, n - 1, boundsOf, boundsOf(at[n - 1]).value);
      }
    }
  }

  // ----- The whole file -----

  /** Action references are pinned or local, and no key is written in a form the checks cannot read. */
  ghost predicate GoodLine(line: Line) {
    !line.blank ==>
      && (line.uses.None? ==> !line.usesKey)
      && (line.uses.Some? ==> GoodReference(line.uses.value.value))
      && (line.persistKey ==> line.persist.Some?)
  }

  ghost predicate GoodReference(value: string) {
    if "./" <= value then LocalAction(value) else RemoteAction(value)
  }

  lemma {:induction false} FirstPassNone(lines: seq<Line>, n: nat)
    requires n <= |lines|
    ensures FirstPass(lines, n) == [] <==> forall i :: 0 <= i < n ==> GoodLine(lines[i])
  {
    if n > 0 {
      FirstPassNone(lines, n - 1);
    }
  }

  ghost predicate SafeSteps(lines: seq<Line>) {
    forall u: nat, s: nat, e: nat ::
      u < |lines| && lines[u].uses.Some? && StepAround(lines, u, s, e) ==> SafeStep(lines, u, s, e)
  }

  lemma {:induction false} SecondPassSafe(lines: seq<Line>, at: seq<nat>)
    requires at == Select(0, |lines|, On(lines, IsUses()))
    requires SecondPass(at, |at|, BoundsOf(lines), StepOf(lines)) == []
    ensures SafeSteps(lines)
  {
    SecondPassNone(at, |at|, BoundsOf(lines), StepOf(lines));
    forall u: nat, s: nat, e: nat | u < |lines| && lines[u].uses.Some? && StepAround(lines, u, s, e)
      ensures SafeStep(lines, u, s, e)
    {
      SelectHas(0, |lines|, On(lines, IsUses()), u);
      BoundsExactly(lines, u, s, e);
      assert BoundsOf(lines)(u) == Some((s, e));
      StepExactly(lines, u, s, e);
    }
  }

  lemma {:induction false} SafeSecondPass(lines: seq<Line>, at: seq<nat>)
    requires at == Select(0, |lines|, On(lines, IsUses()))
    requires SafeSteps(lines)
    ensures SecondPass(at, |at|, BoundsOf(lines), StepOf(lines)) == []
  {
    forall k | 0 <= k < |at| && BoundsOf(lines)(at[k]).Some?
      ensures StepOf(lines)(BoundsOf(lines)(at[k]).value) == []
    {
      var u := at[k];
      var (s, e) := StepBounds(lines, u).value;
      BoundsExactly(lines, u, s, e);
      StepExactly(lines, u, s, e);
    }
    SecondPassNone(at, |at|, BoundsOf(lines), StepOf(lines));
  }

  /**
   A file passes exactly when every line is good and every step around a uses line is safe. A uses
   line with no step around it is checked as a line only.
   */
  lemma {:induction false} AcceptedExactly(lines: seq<Line>)
    ensures Failures(lines) == []
       <==> (forall i :: 0 <= i < |lines| ==> GoodLine(lines[i])) && SafeSteps(lines)
  {
    var at := Select(0, |lines|, On(lines, IsUses()));
    FirstPassNone(lines, |lines|);
    if SecondPass(at, |at|, BoundsOf(lines), StepOf(lines)) == [] {
      SecondPassSafe(lines, at);
    }
    if SafeSteps(lines) {
      SafeSecondPass(lines, at);
    }
  }

  // ----- The file as text -----

  /** What the patterns see of a line's code, in terms of the texts they stand for. */
  lemma {:induction false} ReadingExactly(raw: string)
    ensures var r, code := Parse(raw), Code(raw);
            && (r.blank <==> Spaces(code))
            && r.indent <= |code| && Spaces(code[..r.indent]) && NoSpaceFirst(code[r.indent..])
            && (r.item <==> ItemLine(code, r.indent))
            && (r.isWith <==> WithLine(code, r.indent))
            && (r.usesKey <==> KeyText(code, "uses"))
            && (r.persistKey <==> KeyText(code, "persist-credentials"))
  {
    var code := Code(raw);
    BlankIsSpaces(code);
    IndentSpaces(code);
    StepStartExactly(code, Indent(code));
    WithExactly(code, Indent(code));
    MentionsExactly(code, "uses");
    MentionsExactly(code, "persist-credentials");
  }

  lemma {:induction false} UsesReading(raw: string, dash: bool, value: string)
    ensures var r, code := Parse(raw), Code(raw);
            && (r.uses.Some? && r.uses.value.dash == dash && r.uses.value.value == value
                <==> UsesLine(code, Uses(r.indent, dash, value)))
            && (r.uses.Some? ==> (r.uses.value.checkout <==> CheckoutText(r.uses.value.value)))
  {
    var code := Code(raw);
    UsesExactly(code, Uses(Indent(code), dash, value));
    if MatchUses(code).Some? {
      CheckoutActionExactly(MatchUses(code).value.value);
    }
  }

  lemma {:induction false} FlagReading(raw: string, value: bool)
    ensures var r, code := Parse(raw), Code(raw);
            r.persist == Some(value) <==> FlagLine(code, "persist-credentials:", Persist(r.indent, value))
  {
    PersistExactly(Code(raw), Persist(Indent(Code(raw)), value));
  }

  /** A path below the repository, or an action pinned to a commit. */
  ghost predicate SafeReference(value: string) {
    if "./" <= value then LocalText(value) else PinnedText(value)
  }

  /** Every reference is safe, and neither key is written in a form the checks cannot read. */
  ghost predicate GoodCode(code: string) {
    && (forall u :: UsesLine(code, u) ==> SafeReference(u.value))
    && (KeyText(code, "uses") ==> exists u :: UsesLine(code, u))
    && (KeyText(code, "persist-credentials") ==> exists p :: FlagLine(code, "persist-credentials:", p))
  }

  lemma {:induction false} UsesGood(code: string)
    ensures (match MatchUses(code)
             case None => !MentionsKey(code, "uses")
             case Some(u) => GoodReference(u.value))
       <==> && (forall u :: UsesLine(code, u) ==> SafeReference(u.value))
            && (KeyText(code, "uses") ==> exists u :: UsesLine(code, u))
  {
    forall u ensures MatchUses(code) == Some(u) <==> UsesLine(code, u) {
      UsesExactly(code, u);
    }
    MentionsExactly(code, "uses");
    if MatchUses(code).Some? {
      var u := MatchUses(code).value;
      LocalExactly(u.value);
      RemoteExactly(u.value);
      assert UsesLine(code, u);
    }
  }

  lemma {:induction false} FlagGood(code: string)
    ensures (MentionsKey(code, "persist-credentials") ==> MatchPersist(code).Some?)
       <==> (KeyText(code, "persist-credentials") ==> exists p :: FlagLine(code, "persist-credentials:", p))
  {
    forall p ensures MatchPersist(code) == Some(p) <==> FlagLine(code, "persist-credentials:", p) {
      PersistExactly(code, p);
    }
    MentionsExactly(code, "persist-credentials");
    if MatchPersist(code).Some? {
      assert FlagLine(code, "persist-credentials:", MatchPersist(code).value);
    }
  }

  lemma {:induction false} BlankMentions(code: string, key: string)
    requires Blank(code) && key != "" && !IsSpace(key[0])
    ensures !MentionsKey(code, key)
  {
    BlankIsSpaces(code);
    forall i | 0 <= i <= |code| ensures !KeyHere(code[i..], key) {
      if KeyHere(code[i..], key) {
        BlankKey(code[i..], key);
      }
    }
  }

  lemma {:induction false} BlankKey(s: string, key: string)
    requires key != "" && !IsSpace(key[0]) && KeyHere(s, key)
    ensures !Spaces(s)
  {
  }

  lemma {:induction false} GoodExactly(raw: string)
    ensures GoodLine(Parse(raw)) <==> GoodCode(Code(raw))
  {
    var code := Code(raw);
    UsesGood(code);
    FlagGood(code);
    if Blank(code) {
      BlankMentions(code, "uses");
      BlankMentions(code, "persist-credentials");
    }
  }

  /** A text passes exactly when every line's code is good and every step around a uses line is safe. */
  lemma {:induction false} AcceptedText(text: string)
    ensures var raw := SplitLines(text);
            Failures(LinesOf(raw)) == []
            <==> (forall i :: 0 <= i < |raw| ==> GoodCode(Code(raw[i]))) && SafeSteps(LinesOf(raw))
  {
    var raw := SplitLines(text);
    AcceptedExactly(LinesOf(raw));
    forall i | 0 <= i < |raw| ensures GoodLine(LinesOf(raw)[i]) <==> GoodCode(Code(raw[i])) {
      LinesOfAt(raw, i);
      GoodExactly(raw[i]);
    }
  }

  /** In a text that passes, every action is a local path or ends in an at sign and 40 hex digits. */
  lemma {:induction false} AcceptedPinned(text: string, i: nat, u: Uses)
    requires Failures(LinesOf(SplitLines(text))) == []
    requires i < |SplitLines(text)| && UsesLine(Code(SplitLines(text)[i]), u)
    ensures LocalText(u.value) || PinnedText(u.value)
  {
    AcceptedText(text);
    assert GoodCode(Code(SplitLines(text)[i]));
  }

  // ----- Which line failures are reported -----

  predicate OfLine(f: Failure) {
    f.AmbiguousUses? || f.BadLocalAction? || f.Unpinned? || f.AmbiguousPersist?
  }

  /** A line's code has the fault. */
  ghost predicate Fault(code: string, f: Failure)
    requires OfLine(f)
  {
    match f
    case AmbiguousUses(_) => KeyText(code, "uses") && forall u :: !UsesLine(code, u)
    case BadLocalAction(_, v) => "./" <= v && !LocalText(v) && exists u :: UsesLine(code, u) && u.value == v
    case Unpinned(_, v) => !("./" <= v) && !PinnedText(v) && exists u :: UsesLine(code, u) && u.value == v
    case AmbiguousPersist(_) =>
      KeyText(code, "persist-credentials") && forall p :: !FlagLine(code, "persist-credentials:", p)
  }

  /** The same of the line's reading. */
  predicate Reported(line: Line, f: Failure)
    requires OfLine(f)
  {
    match f
    case AmbiguousUses(_) => line.uses.None? && line.usesKey
    case BadLocalAction(_, v) => line.uses.Some? && line.uses.value.value == v && "./" <= v && !LocalAction(v)
    case Unpinned(_, v) => line.uses.Some? && line.uses.value.value == v && !("./" <= v) && !RemoteAction(v)
    case AmbiguousPersist(_) => line.persistKey && line.persist.None?
  }

  lemma {:induction false} LineHas(line: Line, number: nat, f: Failure)
    requires OfLine(f)
    ensures f in LineFailures(line, number) <==> !line.blank && f.line == number && Reported(line, f)
  {
  }

  ghost predicate ReportedAt(lines: seq<Line>, n: nat, f: Failure)
    requires n <= |lines| && OfLine(f)
  {
    1 <= f.line <= n && !lines[f.line - 1].blank && Reported(lines[f.line - 1], f)
  }

  lemma {:induction false} FirstPassHas(lines: seq<Line>, n: nat, f: Failure)
    requires n <= |lines| && OfLine(f)
    ensures f in FirstPass(lines, n) <==> ReportedAt(lines, n, f)
  {
    if n > 0 {
      FirstPassHas(lines, n - 1, f);
      LastLineHas(lines, n, f);
      InJoined(FirstPass(lines, n - 1), LineFailures(lines[n - 1], n), f);
    }
  }

  lemma {:induction false} LastLineHas(lines: seq<Line>, n: nat, f: Failure)
    requires 0 < n <= |lines| && OfLine(f)
    ensures ReportedAt(lines, n, f) <==> ReportedAt(lines, n - 1, f) || f in LineFailures(lines[n - 1], n)
  {
    LineHas(lines[n - 1], n, f);
  }

  lemma {:induction false} InJoined(a: seq<Failure>, b: seq<Failure>, f: Failure)
    ensures f in a + b <==> f in a || f in b
  {
  }

  lemma {:induction false} UsesFaults(code: string, v: string)
    ensures (exists u :: UsesLine(code, u) && u.value == v) <==>
            MatchUses(code).Some? && MatchUses(code).value.value == v
    ensures (forall u :: !UsesLine(code, u)) <==> MatchUses(code).None?
  {
    forall u ensures MatchUses(code) == Some(u) <==> UsesLine(code, u) {
      UsesExactly(code, u);
    }
    if MatchUses(code).Some? {
      assert UsesLine(code, MatchUses(code).value);
    }
  }

  lemma {:induction false} FlagFaults(code: string)
    ensures (forall p :: !FlagLine(code, "persist-credentials:", p)) <==> MatchPersist(code).None?
  {
    forall p ensures MatchPersist(code) == Some(p) <==> FlagLine(code, "persist-credentials:", p) {
      PersistExactly(code, p);
    }
    if MatchPersist(code).Some? {
      assert FlagLine(code, "persist-credentials:", MatchPersist(code).value);
    }
  }

  /** What a reading reports of its key fields, in terms of the matchers. */
  lemma {:induction false} ReadingFields(raw: string)
    ensures var r, code := Parse(raw), Code(raw);
            && r.usesKey == MentionsKey(code, "uses") && r.persistKey == MentionsKey(code, "persist-credentials")
            && r.uses.Some? == MatchUses(code).Some? && r.persist.Some? == MatchPersist(code).Some?
            && (r.uses.Some? ==> r.uses.value.value == MatchUses(code).value.value)
  {
  }

  lemma {:induction false} BlankReading(raw: string)
    requires Parse(raw).blank
    ensures !Parse(raw).usesKey && !Parse(raw).persistKey && Parse(raw).uses.None?
  {
    BlankMentions(Code(raw), "uses");
    BlankMentions(Code(raw), "persist-credentials");
  }

  lemma {:induction false} FaultExactly(raw: string, f: Failure)
    requires OfLine(f)
    ensures !Parse(raw).blank && Reported(Parse(raw), f) <==> Fault(Code(raw), f)
  {
    var code := Code(raw);
    if Parse(raw).blank {
      BlankReading(raw);
    }
    ReadingFields(raw);
    match f
    case AmbiguousUses(_) =>
      MentionsExactly(code, "uses");
      UsesFaults(code, "");
    case BadLocalAction(_, v) =>
      UsesFaults(code, v);
      LocalExactly(v);
    case Unpinned(_, v) =>
      UsesFaults(code, v);
      RemoteExactly(v);
    case AmbiguousPersist(_) =>
      MentionsExactly(code, "persist-credentials");
      FlagFaults(code);
  }

  ghost predicate NoneOfLine(fs: seq<Failure>) {
    forall i :: 0 <= i < |fs| ==> !OfLine(fs[i])
  }

  lemma {:induction false} InputKinds(lines: seq<Line>, s: nat, e: nat, from: nat, to: nat, number: nat)
    requires s <= from <= to <= e <= |lines|
    ensures NoneOfLine(InputFailures(lines, s, e, from, to, number))
  {
  }

  lemma {:induction false} UsesKinds(lines: seq<Line>, s: nat, e: nat, u: nat)
    requires s <= e <= |lines| && u < |lines|
    ensures NoneOfLine(UsesFailures(lines, s, e, u))
  {
    var withs := Select(s, e, On(lines, WithAt(lines[u].indent)));
    if |withs| == 1 {
      var (from, to) := MappingBounds(lines, withs[0], e);
      InputKinds(lines, s, e, from, to, u + 1);
    }
  }

  lemma {:induction false} EachKinds(lines: seq<Line>, b: Bounds, at: seq<nat>, n: nat)
    requires n <= |at|
    ensures NoneOfLine(ForEach(at, n, UsesCheck(lines, b)))
  {
    if n > 0 {
      EachKinds(lines, b, at, n - 1);
      if b.0 <= b.1 <= |lines| && at[n - 1] < |lines| {
        UsesKinds(lines, b.0, b.1, at[n - 1]);
      }
      NoneJoined(ForEach(at, n - 1, UsesCheck(lines, b)), UsesCheck(lines, b)(at[n - 1]));
    }
  }

  lemma {:induction false} NoneJoined(a: seq<Failure>, b: seq<Failure>)
    requires NoneOfLine(a) && NoneOfLine(b)
    ensures NoneOfLine(a + b)
  {
  }

  lemma {:induction false} SecondKinds(lines: seq<Line>, at: seq<nat>, n: nat)
    requires n <= |at|
    ensures NoneOfLine(SecondPass(at, n, BoundsOf(lines), StepOf(lines)))
  {
    if n > 0 {
      SecondKinds(lines, at, n - 1);
      var bounds := BoundsOf(lines)(at[n - 1]);
      if bounds.Some? {
        StepKinds(lines, bounds.value);
        NoneJoined(SecondPass(at, n - 1, BoundsOf(lines), StepOf(lines)), StepOf(lines)(bounds.value));
      }
    }
  }

  lemma {:induction false} StepKinds(lines: seq<Line>, b: Bounds)
    ensures NoneOfLine(StepOf(lines)(b))
  {
    if b.0 <= b.1 <= |lines| {
      var at := Select(b.0, b.1, On(lines, IsUses()));
      EachKinds(lines, b, at, |at|);
      NoneJoined(if |at| > 1 then [DuplicateUses(LineNumbers(at))] else [],
                 ForEach(at, |at|, UsesCheck(lines, b)));
    }
  }

  lemma {:induction false} FailuresHas(lines: seq<Line>, f: Failure)
    requires OfLine(f)
    ensures f in Failures(lines) <==> ReportedAt(lines, |lines|, f)
  {
    var at := Select(0, |lines|, On(lines, IsUses()));
    var second := SecondPass(at, |at|, BoundsOf(lines), StepOf(lines));
    SecondKinds(lines, at, |at|);
    assert f !in second;
    FirstPassHas(lines, |lines|, f);
    InJoined(FirstPass(lines, |lines|), second, f);
  }

  lemma {:induction false} FaultAt(raw: seq<string>, k: nat, f: Failure)
    requires OfLine(f) && k < |raw|
    ensures !LinesOf(raw)[k].blank && Reported(LinesOf(raw)[k], f) <==> Fault(Code(raw[k]), f)
  {
    LinesOfAt(raw, k);
    FaultExactly(raw[k], f);
  }

  /** A line failure is reported exactly when the code of the line it names has that fault. */
  lemma {:induction false} ReportedExactly(raw: seq<string>, f: Failure)
    requires OfLine(f)
    ensures f in Failures(LinesOf(raw)) <==> 1 <= f.line <= |raw| && Fault(Code(raw[f.line - 1]), f)
  {
    FailuresHas(LinesOf(raw), f);
    if 1 <= f.line <= |raw| {
      FaultAt(raw, f.line - 1, f);
    }
  }

  /**
   A checkout written as the first key of its list item never passes when the rest of the step is
   indented past the dash: the with: key is looked for at the column of the dash.
   */
  lemma {:induction false} DashCheckoutRejected(lines: seq<Line>, u: nat)
    requires u < |lines| && lines[u].uses.Some? && lines[u].uses.value.dash && lines[u].uses.value.checkout
    requires var (_, e) := StepBounds(lines, u).value;
             forall k :: u < k < e && !lines[k].blank ==> lines[k].indent > lines[u].indent
    ensures Failures(lines) != []
  {
    var (s, e) := StepBounds(lines, u).value;
    BoundsExactly(lines, u, s, e);
    AcceptedExactly(lines);
    assert !SafeCheckout(lines, s, e, lines[u].indent);
    assert !SafeStep(lines, u, s, e);
  }

  // ----- Comments -----

  function Stripped(raw: seq<string>): (code: seq<string>)
    ensures |code| == |raw| && forall i :: 0 <= i < |code| ==> code[i] == Code(raw[i])
  {
    seq(|raw|, i requires 0 <= i < |raw| => Code(raw[i]))
  }

  lemma {:induction false} SameReadings(raw: seq<string>, other: seq<string>)
    requires |raw| == |other| && forall i :: 0 <= i < |raw| ==> Code(raw[i]) == Code(other[i])
    ensures LinesOf(raw) == LinesOf(other)
  {
    forall i | 0 <= i < |raw| ensures LinesOf(raw)[i] == LinesOf(other)[i] {
      LinesOfAt(raw, i);
      LinesOfAt(other, i);
    }
  }

  /** Stripping every comment leaves the failures as they are. */
  lemma {:induction false} StrippingInvisible(text: string)
    ensures Failures(LinesOf(SplitLines(JoinLines(Stripped(SplitLines(text)))))) == Failures(LinesOf(SplitLines(text)))
  {
    var raw := SplitLines(text);
    var code := Stripped(raw);
    SplitOneLine(text);
    forall i | 0 <= i < |raw| ensures Code(code[i]) == Code(raw[i]) && OneLine(code[i]) {
      CodeIdempotent(raw[i]);
      CodeOneLine(raw[i]);
    }
    SplitJoined(code);
    SameReadings(code, raw);
  }

  /** A text written out again line by line has the same failures. */
  lemma {:induction false} RewrittenLines(raw: seq<string>)
    requires forall i :: 0 <= i < |raw| ==> OneLine(raw[i])
    ensures LinesOf(SplitLines(JoinLines(raw))) == LinesOf(raw)
  {
    SplitJoined(raw);
  }

  /** A comment appended to a line whose quotes are closed leaves the failures as they are. */
  lemma {:induction false} CommentInvisible(text: string, i: nat, comment: string)
    requires i < |SplitLines(text)| && ModeAfter(SplitLines(text)[i]).Outside? && OneLine(comment)
    ensures var raw := SplitLines(text);
            Failures(LinesOf(SplitLines(JoinLines(raw[i := raw[i] + "#" + comment])))) == Failures(LinesOf(raw))
  {
    var raw := SplitLines(text);
    var commented := raw[i := raw[i] + "#" + comment];
    SplitOneLine(text);
    forall k | 0 <= k < |commented| ensures OneLine(commented[k]) {
      assert OneLine(raw[k]);
    }
    RewrittenLines(commented);
    AppendedComment(raw[i], comment);
    SameReadings(commented, raw);
  }
}

/**
 The workflow validator on the lines of a file: pinned actions, unambiguous keys, the bounds of
 the step around every uses line, and the inputs of checkout steps.
 */
module Workflow {
  import opened Wrappers
  import opened WorkflowText

  // ----- What the patterns see of one line -----

  datatype Action = Action(dash: bool, value: string, checkout: bool)

  datatype Reading = Reading(
    blank: bool,
    indent: nat,
    item: bool,
    uses: Option<Action>,
    isWith: bool,
    persist: Option<bool>,
    usesKey: bool,
    persistKey: bool)

  function ActionOf(uses: Uses): Action {
    Action(uses.dash, uses.value, CheckoutAction(uses.value))
  }

  /** Every pattern starts with the indent, so one indent serves them all. */
  type Line = l: Reading |
    && (l.blank ==> l.uses.None? && !l.isWith && l.persist.None?)
    && (l.uses.Some? ==> !l.isWith)
    witness Reading(true, 0, false, None, false, None, false, false)

  /** The line's code as the patterns see it; the validator looks at nothing else. */
  function Parse(raw: string): Line {
    var code := Code(raw);
    var uses := MatchUses(code);
    var persist := MatchPersist(code);
    Reading(
      Blank(code), Indent(code), MatchStepStart(code).Some?,
      if uses.Some? then Some(ActionOf(uses.value)) else None,
      MatchWith(code).Some?,
      if persist.Some? then Some(persist.value.value) else None,
      MentionsKey(code, "uses"), MentionsKey(code, "persist-credentials"))
  }

  function LinesOf(raw: seq<string>): (lines: seq<Line>)
    ensures |lines| == |raw|
  {
    if raw == [] then [] else LinesOf(raw[..|raw| - 1]) + [Parse(raw[|raw| - 1])]
  }

  lemma {:induction false} LinesOfAt(raw: seq<string>, i: nat)
    requires i < |raw|
    ensures LinesOf(raw)[i] == Parse(raw[i])
  {
    if i < |raw| - 1 {
      LinesOfAt(raw[..|raw| - 1], i);
    }
  }

  predicate At(i: nat) {
    true
  }

  /** The lines are the readings of the text; `At` keeps a proof from using more lines than it reads. */
  ghost predicate ReadsAs(raw: seq<string>, lines: seq<Line>) {
    |lines| == |raw| && forall i: nat {:trigger At(i)} :: At(i) && i < |raw| ==> lines[i] == Parse(raw[i])
  }

  lemma {:induction false} LinesRead(raw: seq<string>)
    ensures ReadsAs(raw, LinesOf(raw))
  {
    forall i: nat | i < |raw| ensures LinesOf(raw)[i] == Parse(raw[i]) {
      LinesOfAt(raw, i);
    }
  }

  /** Line numbers count from one, as the messages do. */
  datatype Failure =
    | AmbiguousUses(line: nat)
    | BadLocalAction(line: nat, value: string)
    | Unpinned(line: nat, value: string)
    | AmbiguousPersist(line: nat)
    | DuplicateUses(at: seq<nat>)
    | NotOneWith(line: nat)
    | EmptyWith(line: nat)
    | PersistOutside(line: nat)
    | PersistNotFalse(line: nat)

  type Bounds = (nat, nat)

  // ----- The step around a uses line -----

  /** Searching upwards from line `i - 1` for the list item that a key at `indent` belongs to. */
  function FindStart(lines: seq<Line>, i: nat, indent: nat): (r: Option<nat>)
    requires i <= |lines|
    ensures r.Some? ==> r.value < i && lines[r.value].item && lines[r.value].indent < indent
    ensures r.Some? ==> forall k :: r.value < k < i ==> lines[k].blank || lines[k].indent >= indent
  {
    if i == 0 then None
    else if !lines[i - 1].blank && lines[i - 1].indent < indent then
      if lines[i - 1].item then Some(i - 1) else None
    else FindStart(lines, i - 1, indent)
  }

  /** A line that ends the step whose dash is at `indent`. */
  predicate EndsStep(line: Line, indent: nat) {
    !line.blank && (line.indent < indent || (line.item && line.indent == indent))
  }

  function FindEnd(lines: seq<Line>, k: nat, indent: nat): (e: nat)
    requires k <= |lines|
    ensures k <= e <= |lines| && (e < |lines| ==> EndsStep(lines[e], indent))
    ensures forall j :: k <= j < e ==> !EndsStep(lines[j], indent)
    decreases |lines| - k
  {
    if k == |lines| || EndsStep(lines[k], indent) then k else FindEnd(lines, k + 1, indent)
  }

  function StepBounds(lines: seq<Line>, u: nat): Option<Bounds>
    requires u < |lines|
  {
    var uses :- lines[u].uses;
    var start :- if uses.dash then Some(u) else FindStart(lines, u, lines[u].indent);
    Some((start, FindEnd(lines, start + 1, lines[start].indent)))
  }

  // ----- The inputs of a checkout step -----

  function FindDedent(lines: seq<Line>, k: nat, end: nat, indent: nat): (e: nat)
    requires k <= end <= |lines|
    ensures k <= e <= end && (e < end ==> !lines[e].blank && lines[e].indent <= indent)
    ensures forall j :: k <= j < e ==> lines[j].blank || lines[j].indent > indent
    decreases end - k
  {
    if k == end || (!lines[k].blank && lines[k].indent <= indent) then k
    else FindDedent(lines, k + 1, end, indent)
  }

  function MappingBounds(lines: seq<Line>, start: nat, end: nat): Bounds
    requires start < end <= |lines|
  {
    (start + 1, FindDedent(lines, start + 1, end, lines[start].indent))
  }

  /** The positions in [s, e) that satisfy a test, in order. */
  function Select(s: nat, e: nat, test: nat -> bool): (r: seq<nat>)
    requires s <= e
    ensures forall k :: 0 <= k < |r| ==> s <= r[k] < e && test(r[k])
    decreases e
  {
    if s == e then [] else Select(s, e - 1, test) + if test(e - 1) then [e - 1] else []
  }

  /** The positions whose line satisfies a test. */
  function On(lines: seq<Line>, test: Line -> bool): nat -> bool {
    (i: nat) => i < |lines| && test(lines[i])
  }

  predicate AllBelow(at: seq<nat>, n: nat) {
    forall k :: 0 <= k < |at| ==> at[k] < n
  }

  /** The smallest indent among the first `n` lines listed. */
  function Least(lines: seq<Line>, at: seq<nat>, n: nat): (m: nat)
    requires 0 < n <= |at| && AllBelow(at, |lines|)
    ensures exists k :: 0 <= k < n && m == lines[at[k]].indent
    ensures forall k :: 0 <= k < n ==> m <= lines[at[k]].indent
  {
    var last := lines[at[n - 1]].indent;
    if n == 1 then last
    else
      var before := Least(lines, at, n - 1);
      if before <= last then before else last
  }

  function IsUses(): Line -> bool {
    (line: Line) => line.uses.Some?
  }

  function WithAt(indent: nat): Line -> bool {
    (line: Line) => line.isWith && line.indent == indent
  }

  function IsPersist(): Line -> bool {
    (line: Line) => line.persist.Some?
  }

  /** persist-credentials keys inside the mapping [from, to) at its first level. */
  function DirectIn(lines: seq<Line>, from: nat, to: nat, level: nat): nat -> bool {
    (i: nat) => i < |lines| && lines[i].persist.Some? && from <= i < to && lines[i].indent == level
  }

  /** persist-credentials keys outside the mapping. */
  function OutsideOf(lines: seq<Line>, from: nat, to: nat): nat -> bool {
    (i: nat) => i < |lines| && lines[i].persist.Some? && !(from <= i < to)
  }

  function HasText(): Line -> bool {
    (line: Line) => !line.blank
  }

  /** Failures once the mapping is known: its content is [from, to) in the step [s, e). */
  function InputFailures(lines: seq<Line>, s: nat, e: nat, from: nat, to: nat, number: nat): seq<Failure>
    requires s <= from <= to <= e <= |lines|
  {
    var content := Select(from, to, On(lines, HasText()));
    if content == [] then [EmptyWith(number)]
    else
      var level := Least(lines, content, |content|);
      var direct := Select(s, e, DirectIn(lines, from, to, level));
      var outside := Select(s, e, OutsideOf(lines, from, to));
      (if outside != [] then [PersistOutside(outside[0] + 1)] else [])
      + if |direct| == 1 && lines[direct[0]].persist == Some(false) then [] else [PersistNotFalse(number)]
  }

  function CheckoutFailures(lines: seq<Line>, s: nat, e: nat, number: nat, indent: nat): seq<Failure>
    requires s <= e <= |lines|
  {
    var withs := Select(s, e, On(lines, WithAt(indent)));
    if |withs| != 1 then [NotOneWith(number)]
    else
      var (from, to) := MappingBounds(lines, withs[0], e);
      InputFailures(lines, s, e, from, to, number)
  }

  // ----- The two passes -----

  function LineFailures(line: Line, number: nat): seq<Failure> {
    if line.blank then []
    else
      (match line.uses
       case None => if line.usesKey then [AmbiguousUses(number)] else []
       case Some(uses) =>
         if "./" <= uses.value then
           if LocalAction(uses.value) then [] else [BadLocalAction(number, uses.value)]
         else if RemoteAction(uses.value) then [] else [Unpinned(number, uses.value)])
      + if line.persistKey && line.persist.None? then [AmbiguousPersist(number)] else []
  }

  function FirstPass(lines: seq<Line>, n: nat): seq<Failure>
    requires n <= |lines|
  {
    if n == 0 then [] else FirstPass(lines, n - 1) + LineFailures(lines[n - 1], n)
  }

  function LineNumbers(at: seq<nat>): (r: seq<nat>)
    ensures |r| == |at| && forall i :: 0 <= i < |r| ==> r[i] == at[i] + 1
  {
    seq(|at|, i requires 0 <= i < |at| => at[i] + 1)
  }

  /** The checks of one uses line in its step. */
  function UsesFailures(lines: seq<Line>, s: nat, e: nat, u: nat): seq<Failure>
    requires s <= e <= |lines| && u < |lines|
  {
    match lines[u].uses
    case None => []
    case Some(uses) =>
      if uses.checkout then CheckoutFailures(lines, s, e, u + 1, lines[u].indent) else []
  }

  /** The failures of the first `n` lines listed, in turn. */
  function ForEach(at: seq<nat>, n: nat, check: nat -> seq<Failure>): seq<Failure>
    requires n <= |at|
  {
    if n == 0 then [] else ForEach(at, n - 1, check) + check(at[n - 1])
  }

  function UsesCheck(lines: seq<Line>, b: Bounds): nat -> seq<Failure> {
    (u: nat) => if b.0 <= b.1 <= |lines| && u < |lines| then UsesFailures(lines, b.0, b.1, u) else []
  }

  function StepFailures(lines: seq<Line>, s: nat, e: nat): seq<Failure>
    requires s <= e <= |lines|
  {
    var at := Select(s, e, On(lines, IsUses()));
    (if |at| > 1 then [DuplicateUses(LineNumbers(at))] else [])
    + ForEach(at, |at|, UsesCheck(lines, (s, e)))
  }

  /** The bounds of a uses line contain it. */
  lemma {:induction false} BoundsContain(lines: seq<Line>, u: nat)
    requires u < |lines| && StepBounds(lines, u).Some?
    ensures var (s, e) := StepBounds(lines, u).value; s <= u < e <= |lines|
  {
    var (s, e) := StepBounds(lines, u).value;
    if e < |lines| {
      assert EndsStep(lines[e], lines[s].indent);
    }
  }

  /** The steps of the first `n` uses lines. */
  function Checked(at: seq<nat>, n: nat, boundsOf: nat -> Option<Bounds>): set<Bounds>
    requires n <= |at|
  {
    if n == 0 then {}
    else Checked(at, n - 1, boundsOf) + if boundsOf(at[n - 1]).Some? then {boundsOf(at[n - 1]).value} else {}
  }

  /** The de-duplicating pass over the first `n` uses lines. */
  function SecondPass(at: seq<nat>, n: nat, boundsOf: nat -> Option<Bounds>, stepOf: Bounds -> seq<Failure>)
    : seq<Failure>
    requires n <= |at|
  {
    if n == 0 then []
    else
      var failures := SecondPass(at, n - 1, boundsOf, stepOf);
      var bounds := boundsOf(at[n - 1]);
      if bounds.Some? && bounds.value !in Checked(at, n - 1, boundsOf) then failures + stepOf(bounds.value)
      else failures
  }

  function BoundsOf(lines: seq<Line>): nat -> Option<Bounds> {
    (u: nat) => if u < |lines| then StepBounds(lines, u) else None
  }

  function StepOf(lines: seq<Line>): Bounds -> seq<Failure> {
    (b: Bounds) => if b.0 <= b.1 <= |lines| then StepFailures(lines, b.0, b.1) else []
  }

  function Failures(lines: seq<Line>): seq<Failure> {
    var at := Select(0, |lines|, On(lines, IsUses()));
    FirstPass(lines, |lines|) + SecondPass(at, |at|, BoundsOf(lines), StepOf(lines))
  }

  // ----- The validator's loops -----

  /** Strip one line's comment and match it. */
  method ReadLine(raw: seq<string>, ghost lines: seq<Line>, i: nat) returns (line: Line)
    requires ReadsAs(raw, lines)
    requires i < |raw|
    ensures line == lines[i]
  {
    assert At(i);
    var code := WithoutYamlComment(raw[i]);
    var uses := MatchUses(code);
    var persist := MatchPersist(code);
    return Reading(
      Blank(code), Indent(code), MatchStepStart(code).Some?,
      if uses.Some? then Some(ActionOf(uses.value)) else None,
      MatchWith(code).Some?,
      if persist.Some? then Some(persist.value.value) else None,
      MentionsKey(code, "uses"), MentionsKey(code, "persist-credentials"));
  }

  /** The upward scan; it stops at a list item or at the first line indented less. */
  method ScanStart(raw: seq<string>, ghost lines: seq<Line>, u: nat, indent: nat) returns (start: Option<nat>)
    requires ReadsAs(raw, lines)
    requires u <= |raw|
    ensures start == FindStart(lines, u, indent)
  {
    var i := u;
    while i > 0
      invariant 0 <= i <= u
      invariant FindStart(lines, u, indent) == FindStart(lines, i, indent)
    {
      var line := ReadLine(raw, lines, i - 1);
      if !line.blank {
        if line.item && line.indent < indent {
          return Some(i - 1);
        }
        if line.indent < indent {
          return None;
        }
      }
      i := i - 1;
    }
    return None;
  }

  /** The downward scan to the end of the step. */
  method ScanEnd(raw: seq<string>, ghost lines: seq<Line>, from: nat, indent: nat) returns (end: nat)
    requires ReadsAs(raw, lines)
    requires from <= |raw|
    ensures end == FindEnd(lines, from, indent)
  {
    end := from;
    while end < |raw|
      invariant from <= end <= |raw|
      invariant FindEnd(lines, from, indent) == FindEnd(lines, end, indent)
    {
      var line := ReadLine(raw, lines, end);
      if !line.blank {
        if line.indent < indent || (line.item && line.indent == indent) {
          return;
        }
      }
      end := end + 1;
    }
  }

  method FindStepBounds(raw: seq<string>, ghost lines: seq<Line>, u: nat) returns (bounds: Option<Bounds>)
    requires ReadsAs(raw, lines)
    requires u < |raw|
    ensures bounds == StepBounds(lines, u)
  {
    var line := ReadLine(raw, lines, u);
    if line.uses.None? {
      return None;
    }
    var start := u;
    if !line.uses.value.dash {
      var found := ScanStart(raw, lines, u, line.indent);
      if found.None? {
        return None;
      }
      start := found.value;
    }
    var first := ReadLine(raw, lines, start);
    var end := ScanEnd(raw, lines, start + 1, first.indent);
    return Some((start, end));
  }

  method FindMappingBounds(raw: seq<string>, ghost lines: seq<Line>, start: nat, end: nat) returns (bounds: Bounds)
    requires ReadsAs(raw, lines)
    requires start < end <= |raw|
    ensures bounds == MappingBounds(lines, start, end)
  {
    var key := ReadLine(raw, lines, start);
    var blockEnd := start + 1;
    while blockEnd < end
      invariant start < blockEnd <= end
      invariant FindDedent(lines, start + 1, end, key.indent) == FindDedent(lines, blockEnd, end, key.indent)
    {
      var line := ReadLine(raw, lines, blockEnd);
      if !line.blank && line.indent <= key.indent {
        break;
      }
      blockEnd := blockEnd + 1;
    }
    return (start + 1, blockEnd);
  }

  /** One scan of a run of lines, collecting those that satisfy a test. */
  method Collect(raw: seq<string>, ghost lines: seq<Line>, s: nat, e: nat, test: Line -> bool) returns (at: seq<nat>)
    requires ReadsAs(raw, lines)
    requires s <= e <= |raw|
    ensures at == Select(s, e, On(lines, test))
  {
    at := [];
    var i := s;
    while i < e
      invariant s <= i <= e
      invariant at == Select(s, i, On(lines, test))
    {
      var line := ReadLine(raw, lines, i);
      if test(line) {
        at := at + [i];
      }
      i := i + 1;
    }
  }

  /** One scan of a step for its with: keys at the indent and its persist-credentials keys. */
  method ScanInputs(raw: seq<string>, ghost lines: seq<Line>, s: nat, e: nat, indent: nat)
    returns (withs: seq<nat>, persists: seq<nat>)
    requires ReadsAs(raw, lines)
    requires s <= e <= |raw|
    ensures withs == Select(s, e, On(lines, WithAt(indent)))
    ensures persists == Select(s, e, On(lines, IsPersist()))
  {
    withs, persists := [], [];
    var i := s;
    while i < e
      invariant s <= i <= e
      invariant withs == Select(s, i, On(lines, WithAt(indent)))
      invariant persists == Select(s, i, On(lines, IsPersist()))
    {
      var line := ReadLine(raw, lines, i);
      if line.isWith && line.indent == indent {
        withs := withs + [i];
      }
      if line.persist.Some? {
        persists := persists + [i];
      }
      i := i + 1;
    }
  }

  method ValidateCheckoutInputs(raw: seq<string>, ghost lines: seq<Line>, s: nat, e: nat, number: nat, indent: nat)
    returns (failures: seq<Failure>)
    requires ReadsAs(raw, lines)
    requires s <= e <= |raw|
    ensures failures == CheckoutFailures(lines, s, e, number, indent)
  {
    var withs, persists := ScanInputs(raw, lines, s, e, indent);
    if |withs| != 1 {
      return [NotOneWith(number)];
    }
    assert s <= withs[0] < e;
    var bounds := FindMappingBounds(raw, lines, withs[0], e);
    failures := ValidateInputs(raw, lines, s, e, bounds.0, bounds.1, number, persists);
  }

  /** Those of the first `n` lines listed that pass a test, in order. */
  function Keep(at: seq<nat>, n: nat, test: nat -> bool): seq<nat>
    requires n <= |at|
  {
    if n == 0 then [] else Keep(at, n - 1, test) + if test(at[n - 1]) then [at[n - 1]] else []
  }

  method ValidateInputs(
    raw: seq<string>, ghost lines: seq<Line>, s: nat, e: nat, from: nat, to: nat, number: nat, persists: seq<nat>)
    returns (failures: seq<Failure>)
    requires ReadsAs(raw, lines)
    requires s <= from <= to <= e <= |raw|
    requires persists == Select(s, e, On(lines, IsPersist()))
    ensures failures == InputFailures(lines, s, e, from, to, number)
  {
    var content := Collect(raw, lines, from, to, HasText());
    if content == [] {
      return [EmptyWith(number)];
    }
    var level := LeastIndent(raw, lines, content);
    var direct, outside := SplitPersists(raw, lines, s, e, from, to, level, persists);
    failures := [];
    if outside != [] {
      failures := [PersistOutside(outside[0] + 1)];
    }
    var good := false;
    if |direct| == 1 {
      assert direct[0] < |raw|;
      var line := ReadLine(raw, lines, direct[0]);
      good := line.persist == Some(false);
    }
    if !good {
      failures := failures + [PersistNotFalse(number)];
    }
  }

  method SplitPersists(
    raw: seq<string>, ghost lines: seq<Line>, s: nat, e: nat, from: nat, to: nat, level: nat, persists: seq<nat>)
    returns (direct: seq<nat>, outside: seq<nat>)
    requires ReadsAs(raw, lines)
    requires s <= from <= to <= e <= |raw|
    requires persists == Select(s, e, On(lines, IsPersist()))
    ensures direct == Select(s, e, DirectIn(lines, from, to, level))
    ensures outside == Select(s, e, OutsideOf(lines, from, to))
  {
    direct := KeepDirect(raw, lines, persists, from, to, level);
    outside := Keep(persists, |persists|, OutsideTest(from, to));
    KeepSelected(s, e, On(lines, IsPersist()), DirectTest(lines, from, to, level), DirectIn(lines, from, to, level));
    KeepSelected(s, e, On(lines, IsPersist()), OutsideTest(from, to), OutsideOf(lines, from, to));
  }

  method LeastIndent(raw: seq<string>, ghost lines: seq<Line>, at: seq<nat>) returns (level: nat)
    requires ReadsAs(raw, lines)
    requires at != [] && AllBelow(at, |raw|)
    ensures level == Least(lines, at, |at|)
  {
    var first := ReadLine(raw, lines, at[0]);
    level := first.indent;
    var k := 1;
    while k < |at|
      invariant 1 <= k <= |at|
      invariant level == Least(lines, at, k)
    {
      var line := ReadLine(raw, lines, at[k]);
      if line.indent < level {
        level := line.indent;
      }
      k := k + 1;
    }
  }

  /** Listed lines inside the mapping at its first level. */
  method KeepDirect(raw: seq<string>, ghost lines: seq<Line>, persists: seq<nat>, from: nat, to: nat, level: nat)
    returns (direct: seq<nat>)
    requires ReadsAs(raw, lines)
    requires to <= |raw|
    ensures direct == Keep(persists, |persists|, DirectTest(lines, from, to, level))
  {
    ghost var test := DirectTest(lines, from, to, level);
    direct := [];
    var k := 0;
    while k < |persists|
      invariant 0 <= k <= |persists|
      invariant direct == Keep(persists, k, test)
    {
      if from <= persists[k] < to {
        var line := ReadLine(raw, lines, persists[k]);
        if line.indent == level {
          direct := direct + [persists[k]];
        }
      }
      k := k + 1;
    }
  }

  function DirectTest(lines: seq<Line>, from: nat, to: nat, level: nat): nat -> bool {
    (i: nat) => from <= i < to && i < |lines| && lines[i].indent == level
  }

  function OutsideTest(from: nat, to: nat): nat -> bool {
    (i: nat) => !(from <= i < to)
  }

  lemma {:induction false} KeepPrefix(at: seq<nat>, more: seq<nat>, n: nat, test: nat -> bool)
    requires n <= |at|
    ensures Keep(at + more, n, test) == Keep(at, n, test)
  {
    if n > 0 {
      KeepPrefix(at, more, n - 1, test);
    }
  }

  /** Filtering a selection selects by both tests. */
  lemma {:induction false} KeepSelected(
    s: nat, e: nat, test: nat -> bool, keep: nat -> bool, both: nat -> bool)
    requires s <= e
    requires forall i: nat :: s <= i < e ==> both(i) == (test(i) && keep(i))
    ensures Keep(Select(s, e, test), |Select(s, e, test)|, keep) == Select(s, e, both)
    decreases e
  {
    if s < e {
      KeepSelected(s, e - 1, test, keep, both);
      var before := Select(s, e - 1, test);
      if test(e - 1) {
        KeepPrefix(before, [e - 1], |before|, keep);
      } else {
        assert before + [] == before;
      }
    }
  }

  method ValidateStep(raw: seq<string>, ghost lines: seq<Line>, s: nat, e: nat) returns (failures: seq<Failure>)
    requires ReadsAs(raw, lines)
    requires s <= e <= |raw|
    ensures failures == StepFailures(lines, s, e)
  {
    var at := Collect(raw, lines, s, e, IsUses());
    failures := if |at| > 1 then [DuplicateUses(LineNumbers(at))] else [];
    var found := CheckEach(raw, lines, s, e, at, UsesCheck(lines, (s, e)));
    failures := failures + found;
  }

  /** The check of each uses line of a step, instantiated only where one is checked. */
  ghost predicate ChecksUses(lines: seq<Line>, b: Bounds, check: nat -> seq<Failure>) {
    forall u: nat {:trigger At(u)} :: At(u) && u < |lines| ==> check(u) == UsesCheck(lines, b)(u)
  }

  method CheckEach(
    raw: seq<string>, ghost lines: seq<Line>, s: nat, e: nat, at: seq<nat>, ghost check: nat -> seq<Failure>)
    returns (failures: seq<Failure>)
    requires ReadsAs(raw, lines) && ChecksUses(lines, (s, e), check)
    requires s <= e <= |raw| && AllBelow(at, |raw|)
    ensures failures == ForEach(at, |at|, check)
  {
    failures := [];
    var k := 0;
    while k < |at|
      invariant 0 <= k <= |at|
      invariant failures == ForEach(at, k, check)
    {
      var more := CheckUses(raw, lines, s, e, at[k], check);
      failures := failures + more;
      k := k + 1;
    }
  }

  method CheckUses(
    raw: seq<string>, ghost lines: seq<Line>, s: nat, e: nat, u: nat, ghost check: nat -> seq<Failure>)
    returns (failures: seq<Failure>)
    requires ReadsAs(raw, lines) && ChecksUses(lines, (s, e), check)
    requires s <= e <= |raw| && u < |raw|
    ensures failures == check(u)
  {
    assert At(u);
    UsesCheckIs(lines, s, e, u);
    failures := CheckUsesLine(raw, lines, s, e, u);
  }

  lemma {:induction false} UsesCheckIs(lines: seq<Line>, s: nat, e: nat, u: nat)
    requires s <= e <= |lines| && u < |lines|
    ensures UsesCheck(lines, (s, e))(u) == UsesFailures(lines, s, e, u)
  {
  }

  method CheckUsesLine(raw: seq<string>, ghost lines: seq<Line>, s: nat, e: nat, u: nat)
    returns (failures: seq<Failure>)
    requires ReadsAs(raw, lines)
    requires s <= e <= |raw| && u < |raw|
    ensures failures == UsesFailures(lines, s, e, u)
  {
    var line := ReadLine(raw, lines, u);
    failures := [];
    if line.uses.Some? && line.uses.value.checkout {
      failures := ValidateCheckoutInputs(raw, lines, s, e, u + 1, line.indent);
    }
  }

  /** The checks of one line that is not blank. */
  method CheckLine(line: Line, number: nat) returns (failures: seq<Failure>)
    requires !line.blank
    ensures failures == LineFailures(line, number)
  {
    failures := [];
    if line.usesKey && line.uses.None? {
      failures := failures + [AmbiguousUses(number)];
    } else if line.uses.Some? {
      var value := line.uses.value.value;
      if "./" <= value {
        if !LocalAction(value) {
          failures := failures + [BadLocalAction(number, value)];
        }
      } else if !RemoteAction(value) {
        failures := failures + [Unpinned(number, value)];
      }
    }
    if line.persistKey && line.persist.None? {
      failures := failures + [AmbiguousPersist(number)];
    }
  }

  /** The line checks, remembering the uses lines. */
  method CheckLines(raw: seq<string>, ghost lines: seq<Line>) returns (failures: seq<Failure>, allowedUses: seq<nat>)
    requires ReadsAs(raw, lines)
    ensures failures == FirstPass(lines, |raw|)
    ensures allowedUses == Select(0, |raw|, On(lines, IsUses()))
  {
    failures, allowedUses := [], [];
    var i := 0;
    while i < |raw|
      invariant 0 <= i <= |raw|
      invariant failures == FirstPass(lines, i)
      invariant allowedUses == Select(0, i, On(lines, IsUses()))
    {
      var line := ReadLine(raw, lines, i);
      if !line.blank {
        if line.uses.Some? {
          allowedUses := allowedUses + [i];
        }
        var found := CheckLine(line, i + 1);
        failures := failures + found;
      }
      i := i + 1;
    }
  }

  /** validate_workflow_text on its lines: the line checks, then each step once. */
  method ValidateLines(raw: seq<string>) returns (failures: seq<Failure>)
    ensures failures == Failures(LinesOf(raw))
  {
    ghost var lines := LinesOf(raw);
    LinesRead(raw);
    var allowedUses;
    failures, allowedUses := CheckLines(raw, lines);
    var found := CheckSteps(raw, lines, allowedUses, BoundsOf(lines), StepOf(lines));
    failures := failures + found;
  }

  predicate AtStep(b: Bounds) {
    true
  }

  /** The bounds and the failures of each step, instantiated only where a step is checked. */
  ghost predicate ChecksSteps(
    lines: seq<Line>, boundsOf: nat -> Option<Bounds>, stepOf: Bounds -> seq<Failure>) {
    && (forall u: nat {:trigger At(u)} :: At(u) ==> boundsOf(u) == BoundsOf(lines)(u))
    && forall b: Bounds {:trigger AtStep(b)} :: AtStep(b) ==> stepOf(b) == StepOf(lines)(b)
  }

  method CheckSteps(
    raw: seq<string>, ghost lines: seq<Line>, allowedUses: seq<nat>,
    ghost boundsOf: nat -> Option<Bounds>, ghost stepOf: Bounds -> seq<Failure>)
    returns (failures: seq<Failure>)
    requires ReadsAs(raw, lines) && ChecksSteps(lines, boundsOf, stepOf) && AllBelow(allowedUses, |raw|)
    ensures failures == SecondPass(allowedUses, |allowedUses|, boundsOf, stepOf)
  {
    var checkedSteps: set<Bounds> := {};
    failures := [];
    var k := 0;
    while k < |allowedUses|
      invariant 0 <= k <= |allowedUses|
      invariant failures == SecondPass(allowedUses, k, boundsOf, stepOf)
      invariant checkedSteps == Checked(allowedUses, k, boundsOf)
    {
      var bounds := ContainingStep(raw, lines, allowedUses[k], boundsOf, stepOf);
      if bounds.Some? && bounds.value !in checkedSteps {
        checkedSteps := checkedSteps + {bounds.value};
        var step := ValidateStepAt(raw, lines, bounds.value, boundsOf, stepOf);
        failures := failures + step;
      }
      k := k + 1;
    }
  }

  method ContainingStep(
    raw: seq<string>, ghost lines: seq<Line>, u: nat,
    ghost boundsOf: nat -> Option<Bounds>, ghost stepOf: Bounds -> seq<Failure>)
    returns (bounds: Option<Bounds>)
    requires ReadsAs(raw, lines) && ChecksSteps(lines, boundsOf, stepOf) && u < |raw|
    ensures bounds == boundsOf(u)
    ensures bounds.Some? ==> bounds.value.0 <= u < bounds.value.1 <= |raw|
  {
    assert At(u);
    bounds := FindStepBounds(raw, lines, u);
    if bounds.Some? {
      BoundsContain(lines, u);
    }
  }

  method ValidateStepAt(
    raw: seq<string>, ghost lines: seq<Line>, bounds: Bounds,
    ghost boundsOf: nat -> Option<Bounds>, ghost stepOf: Bounds -> seq<Failure>)
    returns (failures: seq<Failure>)
    requires ReadsAs(raw, lines) && ChecksSteps(lines, boundsOf, stepOf)
    requires bounds.0 <= bounds.1 <= |raw|
    ensures failures == stepOf(bounds)
  {
    assert AtStep(bounds);
    failures := ValidateStep(raw, lines, bounds.0, bounds.1);
  }

  method ValidateText(text: string) returns (failures: seq<Failure>)
    ensures failures == Failures(LinesOf(SplitLines(text)))
  {
    failures := ValidateLines(SplitLines(text));
  }
}

/** What the reader takes: white space around a value, integers in one spelling, no control characters. */
module JsonReader {
  import opened Wrappers
  import opened JsonText
  import opened Json

  predicate White(c: char) {
    c == ' ' || c == '\t' || c == '\n' || c == '\r'
  }

  predicate AllWhite(s: string) {
    forall i :: 0 <= i < |s| ==> White(s[i])
  }

  /** No control character but the three that are white space. */
  predicate Clean(s: string) {
    forall i :: 0 <= i < |s| ==> s[i] >= ' ' || White(s[i])
  }

  lemma {:induction false} CleanJoin(a: string, b: string)
    requires Clean(a) && Clean(b)
    ensures Clean(a + b)
  {
  }

  lemma {:induction false} SkipWhite(a: string, t: string)
    requires AllWhite(a)
    ensures SkipSpace(a + t) == SkipSpace(t)
  {
    if a == "" {
      assert a + t == t;
    } else {
      SkipWhite(a[1..], t);
      assert (a + t)[1..] == a[1..] + t;
    }
  }

  lemma {:induction false} SkipTakes(s: string)
    ensures |SkipSpace(s)| <= |s| && s == s[..|s| - |SkipSpace(s)|] + SkipSpace(s)
    ensures AllWhite(s[..|s| - |SkipSpace(s)|])
  {
    if SkipSpace(s) != s {
      SkipTakes(s[1..]);
      var k := |s| - |SkipSpace(s)|;
      assert s[..k] == [s[0]] + s[1..][..k - 1];
    }
  }

  // ----- Around a value -----

  /** White space before and after a text does not matter. */
  lemma {:induction false} WhiteIgnored(d: Dialect, v: Json, a: string, b: string)
    requires Plain(v) && AllWhite(a) && AllWhite(b)
    ensures Loads(a + (Print(d, v) + b)) == Some(v)
  {
    SkipWhite(a, Print(d, v) + b);
    PrintHead(d, v);
    assert (Print(d, v) + b)[0] == Print(d, v)[0];
    ValueRoundTrip(d, v, b);
    SkipWhite(b, "");
    assert b + "" == b;
  }

  // ----- Integers -----

  lemma {:induction false} DigitsSpell(s: string)
    requires s != "" && (forall c :: c in s ==> IsDigit(c)) && (s[0] == '0' ==> |s| == 1)
    ensures NatText(NatValue(s)) == s && (s[0] != '0' ==> NatValue(s) > 0)
    decreases |s|
  {
    var front := s[..|s| - 1];
    var last := s[|s| - 1];
    assert last in s;
    if front == "" {
      assert s == [last];
    } else {
      assert forall c :: c in front ==> c in s;
      DigitsSpell(front);
      assert NatValue(s) / 10 == NatValue(front);
      assert s == front + [last];
    }
  }

  lemma {:induction false} MagnitudeSpells(s: string, n: int, rest: string)
    requires ScanMagnitude(s) == Got(Num(n), rest)
    ensures n >= 0 && s == NatText(n) + rest
  {
    var digits := s[..WholeLength(s)];
    assert forall c :: c in digits ==> IsDigit(c);
    DigitsSpell(digits);
    assert s == digits + rest;
  }

  lemma {:induction false} NegativeSpells(s: string, m: nat, rest: string)
    requires s == "-" + (NatText(m) + rest)
    ensures s == IntText(0 - m) + rest || (m == 0 && s == "-0" + rest)
  {
    if m == 0 {
      assert NatText(0) == "0";
      Grouped("-", "0", rest);
    } else {
      Grouped("-", NatText(m), rest);
    }
  }

  lemma {:induction false} Grouped(a: string, b: string, c: string)
    ensures a + (b + c) == (a + b) + c
  {
  }

  /** An integer is read from its own decimal text only, or zero from a negated one. */
  lemma {:induction false} IntegerExactly(s: string, n: int, rest: string)
    requires ScanNumber(s) == Got(Num(n), rest)
    ensures s == IntText(n) + rest || (n == 0 && s == "-0" + rest)
  {
    if s != "" && s[0] == '-' {
      NegativeRead(s, n, rest);
      MagnitudeSpells(s[1..], 0 - n, rest);
      assert s == "-" + s[1..];
      NegativeSpells(s, 0 - n, rest);
    } else {
      MagnitudeSpells(s, n, rest);
    }
  }

  lemma {:induction false} NegativeRead(s: string, n: int, rest: string)
    requires s != "" && s[0] == '-' && ScanNumber(s) == Got(Num(n), rest)
    ensures n <= 0 && ScanMagnitude(s[1..]) == Got(Num(0 - n), rest)
  {
    MagnitudeSpells(s[1..], ScanMagnitude(s[1..]).value.n, rest);
  }

  // ----- No control characters -----

  lemma {:induction false} CleanFrom(s: string, rest: string, k: nat)
    requires k <= |s| && rest == s[k..] && Clean(s[..k]) && Clean(rest)
    ensures Clean(s)
  {
    assert s == s[..k] + rest;
    CleanJoin(s[..k], rest);
  }

  lemma {:induction false} WhiteClean(s: string)
    requires Clean(SkipSpace(s))
    ensures Clean(s)
  {
    SkipTakes(s);
    var k := |s| - |SkipSpace(s)|;
    CleanJoin(s[..k], SkipSpace(s));
  }

  lemma {:induction false} HexClean(s: string)
    requires Hex4Value(s) >= 0
    ensures Clean(s[..4])
  {
  }

  lemma {:induction false} UnicodeClean(s: string, c: char, rest: string)
    requires ScanUnicode(s) == Got(c, rest) && Clean(rest)
    ensures Clean(s)
  {
    HexClean(s);
    if rest == s[4..] {
      CleanFrom(s, rest, 4);
    } else {
      HexClean(s[6..]);
      assert s[..10] == s[..4] + [s[4], s[5]] + s[6..][..4];
      CleanFrom(s, rest, 10);
    }
  }

  lemma {:induction false} CharClean(s: string, c: char, rest: string)
    requires ScanChar(s) == Got(c, rest) && Clean(rest)
    ensures Clean(s)
  {
    if s[0] != '\\' {
      CleanFrom(s, rest, 1);
    } else if s[1] == 'u' {
      UnicodeClean(s[2..], c, rest);
      CleanFrom(s, s[2..], 2);
    } else {
      CleanFrom(s, rest, 2);
    }
  }

  lemma {:induction false} StringClean(s: string, cs: string, rest: string)
    requires ScanString(s) == Got(cs, rest) && Clean(rest)
    ensures Clean(s)
    decreases |s|
  {
    if s[0] == '"' {
      CleanFrom(s, rest, 1);
    } else {
      var next := ScanChar(s).rest;
      StringClean(next, cs[1..], rest);
      CharClean(s, cs[0], next);
    }
  }

  lemma {:induction false} RunClean(s: string)
    ensures Clean(s[..DigitRun(s)])
  {
  }

  lemma {:induction false} FractionClean(s: string)
    ensures Clean(s[..FractionLength(s)])
  {
    if FractionLength(s) > 0 {
      RunClean(s[1..]);
      assert s[..FractionLength(s)] == "." + s[1..][..DigitRun(s[1..])];
      CleanJoin(".", s[1..][..DigitRun(s[1..])]);
    }
  }

  lemma {:induction false} ExponentClean(s: string)
    ensures Clean(s[..ExponentLength(s)])
  {
    if ExponentLength(s) > 0 {
      var sign := if |s| >= 2 && (s[1] == '+' || s[1] == '-') then 2 else 1;
      RunClean(s[sign..]);
      assert s[..ExponentLength(s)] == s[..sign] + s[sign..][..DigitRun(s[sign..])];
      CleanJoin(s[..sign], s[sign..][..DigitRun(s[sign..])]);
    }
  }

  lemma {:induction false} LengthClean(s: string)
    ensures Clean(s[..NumberLength(s)])
  {
    var i := WholeLength(s);
    var j := i + FractionLength(s[i..]);
    RunClean(s);
    FractionClean(s[i..]);
    ExponentClean(s[j..]);
    Joined(s, i, j, NumberLength(s));
  }

  lemma {:induction false} Joined(s: string, i: nat, j: nat, k: nat)
    requires i <= j <= k <= |s| && Clean(s[..i]) && Clean(s[i..][..j - i]) && Clean(s[j..][..k - j])
    ensures Clean(s[..k])
  {
    assert s[..k] == s[..i] + (s[i..][..j - i] + s[j..][..k - j]);
  }

  lemma {:induction false} MagnitudeClean(s: string, v: Json, rest: string)
    requires ScanMagnitude(s) == Got(v, rest) && Clean(rest)
    ensures Clean(s)
  {
    LengthClean(s);
    CleanFrom(s, rest, NumberLength(s));
  }

  lemma {:induction false} NumberClean(s: string, v: Json, rest: string)
    requires ScanNumber(s) == Got(v, rest) && Clean(rest)
    ensures Clean(s)
  {
    if s != "" && s[0] == '-' {
      MagnitudeClean(s[1..], ScanMagnitude(s[1..]).value, rest);
      CleanFrom(s, s[1..], 1);
    } else {
      MagnitudeClean(s, v, rest);
    }
  }

  lemma {:induction false} WordClean(s: string, word: string, v: Json)
    requires word != "" && Clean(word) && ScanWord(s, word, v).Got? && Clean(ScanWord(s, word, v).rest)
    ensures Clean(s)
  {
    assert s == word + s[|word|..];
    CleanJoin(word, s[|word|..]);
  }

  lemma {:induction false} ScalarClean(s: string, v: Json, rest: string)
    requires s != "" && ScanScalar(s) == Got(v, rest) && Clean(rest)
    ensures Clean(s)
  {
    if s[0] == '-' && |s| > 1 && s[1] == 'I' {
      WordClean(s, "-Infinity", Real("-Infinity"));
    } else if s[0] in "ntfNI" {
      LiteralClean(s, v, rest);
    } else {
      NumberClean(s, v, rest);
    }
  }

  lemma {:induction false} LiteralClean(s: string, v: Json, rest: string)
    requires s != "" && s[0] in "ntfNI" && ScanScalar(s) == Got(v, rest) && Clean(rest)
    ensures Clean(s)
  {
    if s[0] == 'n' {
      WordClean(s, "null", Null);
    } else if s[0] == 't' {
      WordClean(s, "true", Bool(true));
    } else if s[0] == 'f' {
      WordClean(s, "false", Bool(false));
    } else if s[0] == 'N' {
      WordClean(s, "NaN", Real("NaN"));
    } else {
      WordClean(s, "Infinity", Real("Infinity"));
    }
  }

  lemma {:induction false} ValueClean(s: string, v: Json, rest: string)
    requires ScanValue(s) == Got(v, rest) && Clean(rest)
    ensures Clean(s)
    decreases |s|, 0
  {
    if s[0] == '[' {
      ArrayClean(SkipSpace(s[1..]), v, rest);
      WhiteClean(s[1..]);
      CleanFrom(s, s[1..], 1);
    } else if s[0] == '{' {
      ObjectClean(SkipSpace(s[1..]), v, rest);
      WhiteClean(s[1..]);
      CleanFrom(s, s[1..], 1);
    } else if s[0] == '"' {
      StringClean(s[1..], v.s, rest);
      CleanFrom(s, s[1..], 1);
    } else {
      ScalarClean(s, v, rest);
    }
  }

  lemma {:induction false} ArrayClean(s: string, v: Json, rest: string)
    requires ScanArray(s) == Got(v, rest) && Clean(rest)
    ensures Clean(s)
    decreases |s|, 2
  {
    if s[0] == ']' {
      CleanFrom(s, rest, 1);
    } else {
      var next := ScanValue(s).rest;
      ItemsClean(next, v.items[1..], rest);
      ValueClean(s, v.items[0], next);
    }
  }

  lemma {:induction false} ItemsClean(s: string, vs: seq<Json>, rest: string)
    requires ScanItems(s) == Got(vs, rest) && Clean(rest)
    ensures Clean(s)
    decreases |s|, 0
  {
    var next := SkipSpace(s);
    if next[0] == ']' {
      CleanFrom(next, rest, 1);
    } else {
      var start := SkipSpace(next[1..]);
      ItemsClean(ScanValue(start).rest, vs[1..], rest);
      ValueClean(start, vs[0], ScanValue(start).rest);
      WhiteClean(next[1..]);
      CleanFrom(next, next[1..], 1);
    }
    WhiteClean(s);
  }

  lemma {:induction false} FieldClean(s: string, f: Field, rest: string)
    requires ScanField(s) == Got(f, rest) && Clean(rest)
    ensures Clean(s)
    decreases |s|, 1
  {
    var afterKey := ScanString(s[1..]).rest;
    var colon := SkipSpace(afterKey);
    ValueClean(SkipSpace(colon[1..]), f.value, rest);
    WhiteClean(colon[1..]);
    CleanFrom(colon, colon[1..], 1);
    WhiteClean(afterKey);
    StringClean(s[1..], f.key, afterKey);
    CleanFrom(s, s[1..], 1);
  }

  lemma {:induction false} ObjectClean(s: string, v: Json, rest: string)
    requires ScanObject(s) == Got(v, rest) && Clean(rest)
    ensures Clean(s)
    decreases |s|, 2
  {
    if s[0] == '}' {
      CleanFrom(s, rest, 1);
    } else {
      var f, next := ScanField(s).value, ScanField(s).rest;
      FieldsClean(next, [f], v.fields, rest);
      FieldClean(s, f, next);
    }
  }

  lemma {:induction false} FieldsClean(s: string, acc: Fields, fs: Fields, rest: string)
    requires ScanFields(s, acc) == Got(fs, rest) && Clean(rest)
    ensures Clean(s)
    decreases |s|, 0
  {
    var next := SkipSpace(s);
    if next[0] == '}' {
      CleanFrom(next, rest, 1);
    } else {
      var start := SkipSpace(next[1..]);
      var f, after := ScanField(start).value, ScanField(start).rest;
      FieldsClean(after, Put(acc, f.key, f.value), fs, rest);
      FieldClean(start, f, after);
      WhiteClean(next[1..]);
      CleanFrom(next, next[1..], 1);
    }
    WhiteClean(s);
  }

  /** A text that is read holds no control character but white space, within the value and around it. */
  lemma {:induction false} LoadedClean(text: string)
    requires Loads(text).Some?
    ensures Clean(text)
  {
    var start := SkipSpace(text);
    var rest := ScanValue(start).rest;
    WhiteClean(rest);
    ValueClean(start, ScanValue(start).value, rest);
    WhiteClean(text);
  }
}

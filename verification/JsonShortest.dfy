/**
 The printers write the shortest text: no text that the reader takes for the same value is shorter
 than the printed one. This fixes white space, separators, escapes and the spelling of numbers.
 */
module JsonShortest {
  import opened Wrappers
  import opened JsonText
  import opened Json
  import opened Canonical

  /** Go's writer may not use five characters that the reader accepts; Python's may use them all. */
  ghost predicate Permitted(d: Dialect, t: string) {
    d.GoMarshal? ==>
      forall i :: 0 <= i < |t| ==>
        t[i] != '<' && t[i] != '>' && t[i] != '&' && t[i] != '\U{2028}' && t[i] != '\U{2029}'
  }

  lemma {:induction false} PermittedFrom(d: Dialect, t: string, k: nat)
    requires Permitted(d, t) && k <= |t|
    ensures Permitted(d, t[k..])
  {
  }

  // ----- Strings -----

  lemma {:induction false} UnicodeTaken(s: string, c: char, rest: string)
    requires ScanUnicode(s) == Got(c, rest)
    ensures |rest| + 4 <= |s| && rest == s[|s| - |rest|..]
  {
  }

  lemma {:induction false} CharShortest(d: Dialect, s: string, c: char, rest: string)
    requires ScanChar(s) == Got(c, rest) && Permitted(d, s)
    ensures |EscapeChar(d, c)| + |rest| <= |s| && rest == s[|s| - |rest|..]
  {
    EscapeForms(d, c);
    if s[0] == '\\' && s[1] == 'u' {
      UnicodeTaken(s[2..], c, rest);
    }
  }

  lemma {:induction false} StringShortest(d: Dialect, s: string, cs: string, rest: string)
    requires ScanString(s) == Got(cs, rest) && Permitted(d, s)
    ensures |EscapeAll(d, cs)| + 1 + |rest| <= |s| && Permitted(d, rest)
    decreases |s|
  {
    if s[0] == '"' {
      PermittedFrom(d, s, 1);
    } else {
      var next := ScanChar(s).rest;
      CharShortest(d, s, cs[0], next);
      PermittedFrom(d, s, |s| - |next|);
      StringShortest(d, next, cs[1..], rest);
    }
  }

  // ----- Numbers and literals -----

  lemma {:induction false} NatShortest(s: string)
    requires s != "" && forall c :: c in s ==> IsDigit(c)
    ensures |NatText(NatValue(s))| <= |s|
    decreases |s|
  {
    var front := s[..|s| - 1];
    assert IsDigit(s[|s| - 1]);
    if NatValue(s) >= 10 {
      assert front != "";
      assert forall c :: c in front ==> c in s;
      NatShortest(front);
      assert NatValue(s) / 10 == NatValue(front);
    }
  }

  lemma {:induction false} MagnitudeShortest(d: Dialect, s: string, v: Json, rest: string)
    requires ScanMagnitude(s) == Got(v, rest)
    ensures |Print(d, v)| + |rest| <= |s|
    ensures v.Num? ==> v.n >= 0
  {
    if v.Num? {
      var digits := s[..WholeLength(s)];
      assert forall c :: c in digits ==> IsDigit(c);
      NatShortest(digits);
    }
  }

  lemma {:induction false} NegativeLength(n: int)
    requires n >= 0
    ensures |IntText(-n)| <= |IntText(n)| + 1
  {
  }

  lemma {:induction false} NumberTaken(s: string, v: Json, rest: string)
    requires ScanNumber(s) == Got(v, rest)
    ensures |rest| <= |s| && rest == s[|s| - |rest|..]
  {
    if s != "" && s[0] == '-' {
      MagnitudeTaken(s[1..], ScanMagnitude(s[1..]).value, rest);
      assert s[1..][|s| - 1 - |rest|..] == s[|s| - |rest|..];
    } else {
      MagnitudeTaken(s, v, rest);
    }
  }

  lemma {:induction false} MagnitudeTaken(s: string, v: Json, rest: string)
    requires ScanMagnitude(s) == Got(v, rest)
    ensures |rest| <= |s| && rest == s[|s| - |rest|..]
  {
  }

  lemma {:induction false} NumberShortest(d: Dialect, s: string, v: Json, rest: string)
    requires ScanNumber(s) == Got(v, rest)
    ensures |Print(d, v)| + |rest| <= |s|
  {
    if s != "" && s[0] == '-' {
      var m := ScanMagnitude(s[1..]).value;
      MagnitudeShortest(d, s[1..], m, rest);
      if m.Num? {
        NegativeLength(m.n);
      }
    } else {
      MagnitudeShortest(d, s, v, rest);
    }
  }

  lemma {:induction false} ScalarShortest(d: Dialect, s: string, v: Json, rest: string)
    requires s != "" && ScanScalar(s) == Got(v, rest)
    ensures |Print(d, v)| + |rest| <= |s| && rest == s[|s| - |rest|..]
  {
    if s[0] == '-' && |s| > 1 && s[1] == 'I' {
      WordShortest(d, s, "-Infinity", Real("-Infinity"));
    } else if s[0] in "ntfNI" {
      LiteralShortest(d, s, v, rest);
    } else {
      NumberShortest(d, s, v, rest);
      NumberTaken(s, v, rest);
    }
  }

  lemma {:induction false} LiteralShortest(d: Dialect, s: string, v: Json, rest: string)
    requires s != "" && s[0] in "ntfNI" && ScanScalar(s) == Got(v, rest)
    ensures |Print(d, v)| + |rest| <= |s| && rest == s[|s| - |rest|..]
  {
    if s[0] == 'n' {
      WordShortest(d, s, "null", Null);
    } else if s[0] == 't' {
      WordShortest(d, s, "true", Bool(true));
    } else if s[0] == 'f' {
      WordShortest(d, s, "false", Bool(false));
    } else if s[0] == 'N' {
      WordShortest(d, s, "NaN", Real("NaN"));
    } else {
      WordShortest(d, s, "Infinity", Real("Infinity"));
    }
  }

  lemma {:induction false} WordShortest(d: Dialect, s: string, word: string, v: Json)
    requires word != "" && ScanWord(s, word, v).Got? && Print(d, v) == word
    ensures var rest := ScanWord(s, word, v).rest;
            |Print(d, v)| + |rest| <= |s| && rest == s[|s| - |rest|..]
  {
  }

  lemma {:induction false} SkipPermitted(d: Dialect, s: string)
    requires Permitted(d, s)
    ensures Permitted(d, SkipSpace(s))
  {
    if SkipSpace(s) != s {
      SkipPermitted(d, s[1..]);
    }
  }

  // ----- Values -----

  lemma {:induction false} ValueShortest(d: Dialect, s: string, v: Json, rest: string)
    requires ScanValue(s) == Got(v, rest) && Permitted(d, s)
    ensures |Print(d, v)| + |rest| <= |s| && Permitted(d, rest)
    decreases |s|, 0
  {
    if s[0] == '[' {
      SkipPermitted(d, s[1..]);
      ArrayShortest(d, SkipSpace(s[1..]), v, rest);
    } else if s[0] == '{' {
      SkipPermitted(d, s[1..]);
      ObjectShortest(d, SkipSpace(s[1..]), v, rest);
    } else if s[0] == '"' {
      StringShortest(d, s[1..], v.s, rest);
    } else {
      ScalarShortest(d, s, v, rest);
      PermittedFrom(d, s, |s| - |rest|);
    }
  }

  lemma {:induction false} ArrayShortest(d: Dialect, s: string, v: Json, rest: string)
    requires ScanArray(s) == Got(v, rest) && Permitted(d, s)
    ensures |Print(d, v)| + |rest| <= |s| + 1 && Permitted(d, rest)
    decreases |s|, 2
  {
    if s[0] == ']' {
      PermittedFrom(d, s, 1);
    } else {
      var next := ScanValue(s).rest;
      ValueShortest(d, s, v.items[0], next);
      ItemsShortest(d, next, v.items[1..], rest);
    }
  }

  lemma {:induction false} ItemsShortest(d: Dialect, s: string, vs: seq<Json>, rest: string)
    requires ScanItems(s) == Got(vs, rest) && Permitted(d, s)
    ensures |PrintItems(d, vs)| + |rest| <= |s| && Permitted(d, rest)
    decreases |s|, 0
  {
    var next := SkipSpace(s);
    SkipPermitted(d, s);
    PermittedFrom(d, next, 1);
    if next[0] != ']' {
      var start := SkipSpace(next[1..]);
      SkipPermitted(d, next[1..]);
      ValueShortest(d, start, vs[0], ScanValue(start).rest);
      ItemsShortest(d, ScanValue(start).rest, vs[1..], rest);
    }
  }

  lemma {:induction false} FieldShortest(d: Dialect, s: string, f: Field, rest: string)
    requires ScanField(s) == Got(f, rest) && Permitted(d, s)
    ensures |PrintField(d, f)| + |rest| <= |s| && Permitted(d, rest)
    decreases |s|, 1
  {
    var afterKey := ScanString(s[1..]).rest;
    StringShortest(d, s[1..], f.key, afterKey);
    var colon := SkipSpace(afterKey);
    SkipPermitted(d, afterKey);
    SkipPermitted(d, colon[1..]);
    ValueShortest(d, SkipSpace(colon[1..]), f.value, rest);
  }

  /** An object's text is as long as its fields with their commas and the closing brace. */
  lemma {:induction false} ObjectLength(d: Dialect, fs: Fields)
    requires fs != []
    ensures |Print(d, Obj(fs))| == |PrintFields(d, fs)|
  {
  }

  lemma {:induction false} ObjectShortest(d: Dialect, s: string, v: Json, rest: string)
    requires ScanObject(s) == Got(v, rest) && Permitted(d, s)
    ensures |Print(d, v)| + |rest| <= |s| + 1 && Permitted(d, rest)
    decreases |s|, 2
  {
    if s[0] == '}' {
      PermittedFrom(d, s, 1);
    } else {
      var f, next := ScanField(s).value, ScanField(s).rest;
      FieldShortest(d, s, f, next);
      FieldsShortest(d, next, [f], v.fields, rest);
      ObjectLength(d, v.fields);
      OneField(d, f);
    }
  }

  lemma {:induction false} OneField(d: Dialect, f: Field)
    ensures |PrintFields(d, [f])| == |PrintField(d, f)| + 2
  {
    assert [f][1..] == [];
  }

  lemma {:induction false} FieldsShortest(d: Dialect, s: string, acc: Fields, fs: Fields, rest: string)
    requires ScanFields(s, acc) == Got(fs, rest) && Permitted(d, s)
    ensures |PrintFields(d, fs)| + |rest| < |PrintFields(d, acc)| + |s| && Permitted(d, rest)
    ensures acc != [] ==> fs != []
    decreases |s|, 0
  {
    var next := SkipSpace(s);
    SkipPermitted(d, s);
    PermittedFrom(d, next, 1);
    if next[0] != '}' {
      var start := SkipSpace(next[1..]);
      SkipPermitted(d, next[1..]);
      var f, after := ScanField(start).value, ScanField(start).rest;
      FieldShortest(d, start, f, after);
      PutLength(d, acc, f.key, f.value);
      FieldsShortest(d, after, Put(acc, f.key, f.value), fs, rest);
    }
  }

  /** Putting a field lengthens the text by no more than the field and its comma. */
  lemma {:induction false} PutLength(d: Dialect, fs: Fields, k: string, v: Json)
    ensures |PrintFields(d, Put(fs, k, v))| <= |PrintFields(d, fs)| + 1 + |PrintField(d, Field(k, v))|
  {
    if fs == [] {
      OneField(d, Field(k, v));
    } else if fs[0].key == k {
      assert Put(fs, k, v)[1..] == fs[1..];
    } else {
      PutLength(d, fs[1..], k, v);
      assert Put(fs, k, v)[1..] == Put(fs[1..], k, v);
    }
  }

  /** No text that reads as a value is shorter than the printed one. */
  lemma {:induction false} PrintShortest(d: Dialect, t: string, v: Json)
    requires Loads(t) == Some(v) && Permitted(d, t)
    ensures |Print(d, v)| <= |t|
  {
    SkipPermitted(d, t);
    ValueShortest(d, SkipSpace(t), v, ScanValue(SkipSpace(t)).rest);
  }

  // ----- What Go's writer leaves out -----

  lemma {:induction false} PermittedJoin(d: Dialect, s: string, t: string)
    requires Permitted(d, s) && Permitted(d, t)
    ensures Permitted(d, s + t)
  {
  }

  lemma {:induction false} QuotePermitted(d: Dialect, s: string)
    ensures Permitted(d, EscapeAll(d, s)) && Permitted(d, Quote(d, s))
  {
    if s != "" {
      QuotePermitted(d, s[1..]);
      EscapeForms(d, s[0]);
      PermittedJoin(d, EscapeChar(d, s[0]), EscapeAll(d, s[1..]));
    }
  }

  lemma {:induction false} DigitsPermitted(d: Dialect, n: int)
    ensures Permitted(d, IntText(n))
  {
    var digits := NatText(if n < 0 then -n else n);
    assert forall i :: 0 <= i < |digits| ==> digits[i] in digits;
  }

  /** A printed text is itself one its writer may write. */
  lemma {:induction false} PrintPermitted(d: Dialect, v: Json)
    requires Plain(v)
    ensures Permitted(d, Print(d, v))
    decreases v, 1
  {
    match v
    case Num(n) => DigitsPermitted(d, n);
    case Str(s) => QuotePermitted(d, s);
    case Arr(items) =>
      if items != [] {
        PrintPermitted(d, items[0]);
        ItemsPermitted(d, items[1..]);
      }
    case Obj(fs) =>
      if fs != [] {
        FieldPermitted(d, fs[0]);
        FieldsPermitted(d, fs[1..]);
      }
    case _ =>
  }

  lemma {:induction false} ItemsPermitted(d: Dialect, items: seq<Json>)
    requires forall i :: 0 <= i < |items| ==> Plain(items[i])
    ensures Permitted(d, PrintItems(d, items))
    decreases items, 0
  {
    if items != [] {
      PrintPermitted(d, items[0]);
      ItemsPermitted(d, items[1..]);
    }
  }

  lemma {:induction false} FieldPermitted(d: Dialect, f: Field)
    requires Plain(f.value)
    ensures Permitted(d, PrintField(d, f))
    decreases f, 2
  {
    QuotePermitted(d, f.key);
    PrintPermitted(d, f.value);
  }

  lemma {:induction false} FieldsPermitted(d: Dialect, fs: Fields)
    requires forall i :: 0 <= i < |fs| ==> Plain(fs[i].value)
    ensures Permitted(d, PrintFields(d, fs))
    decreases fs, 0
  {
    if fs != [] {
      FieldPermitted(d, fs[0]);
      FieldsPermitted(d, fs[1..]);
    }
  }

  // ----- Sorting keeps the length -----

  lemma {:induction false} InsertLength(d: Dialect, f: Field, fs: Fields)
    ensures |PrintFields(d, Insert(f, fs))| == |PrintFields(d, fs)| + 1 + |PrintField(d, f)|
  {
    if fs == [] || !Before(fs[0].key, f.key) {
      assert Insert(f, fs)[1..] == fs;
    } else {
      InsertLength(d, f, fs[1..]);
      assert Insert(f, fs)[1..] == Insert(f, fs[1..]);
    }
  }

  lemma {:induction false} SortLength(d: Dialect, fs: Fields)
    ensures |PrintFields(d, SortFields(fs))| == |PrintFields(d, fs)| && |SortFields(fs)| == |fs|
  {
    if fs != [] {
      SortLength(d, fs[1..]);
      InsertLength(d, fs[0], SortFields(fs[1..]));
      InsertSize(fs[0], SortFields(fs[1..]));
    }
  }

  lemma {:induction false} InsertSize(f: Field, fs: Fields)
    ensures |Insert(f, fs)| == |fs| + 1
  {
    if fs != [] && Before(fs[0].key, f.key) {
      InsertSize(f, fs[1..]);
    }
  }

  lemma {:induction false} SortDeepLength(d: Dialect, v: Json)
    ensures |Print(d, SortDeep(v))| == |Print(d, v)|
    decreases v, 1
  {
    match v
    case Arr(items) =>
      if items != [] {
        SortDeepLength(d, items[0]);
        SortItemsLength(d, items[1..]);
      }
    case Obj(fs) =>
      SortValuesLength(d, fs);
      SortLength(d, SortValues(fs));
      if fs != [] {
        ObjectLength(d, fs);
        ObjectLength(d, SortFields(SortValues(fs)));
      }
    case _ =>
  }

  lemma {:induction false} SortItemsLength(d: Dialect, items: seq<Json>)
    ensures |PrintItems(d, SortItems(items))| == |PrintItems(d, items)|
    decreases items, 0
  {
    if items != [] {
      SortDeepLength(d, items[0]);
      SortItemsLength(d, items[1..]);
      assert SortItems(items)[1..] == SortItems(items[1..]);
    }
  }

  lemma {:induction false} SortValuesLength(d: Dialect, fs: Fields)
    ensures |PrintFields(d, SortValues(fs))| == |PrintFields(d, fs)|
    decreases fs, 0
  {
    if fs != [] {
      SortDeepLength(d, fs[0].value);
      SortValuesLength(d, fs[1..]);
      assert SortValues(fs)[1..] == SortValues(fs[1..]);
    }
  }

  /** Of all texts of a value, in whatever key order, the canonical one is a shortest. */
  lemma {:induction false} CanonicalShortest(v: Json, w: Json, t: string)
    requires Plain(v) && Plain(w) && Loads(t) == Some(w) && Alike(v, w)
    ensures |Canonicalize(v)| <= |t|
  {
    AlikeSorts(v, w);
    SortDeepLength(PythonDumps, w);
    PrintShortest(PythonDumps, t, w);
  }
}

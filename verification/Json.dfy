/**
 JSON values, the compact printer behind json.dumps and Go's json.Marshal, and the reader
 json.loads. An object is its key/value list in insertion order, as a Python dict keeps it.
 A number with a fraction or exponent is kept as its lexeme; the theorems exclude those.
 */
module Json {
  import opened Wrappers
  import opened JsonText

  datatype Json =
    | Null
    | Bool(b: bool)
    | Num(n: int)
    | Real(lexeme: string)
    | Str(s: string)
    | Arr(items: seq<Json>)
    | Obj(fields: seq<Field>)

  datatype Field = Field(key: string, value: Json)

  type Fields = seq<Field>

  // ----- Dictionary access -----

  predicate HasKey(fs: Fields, k: string) {
    exists i :: 0 <= i < |fs| && fs[i].key == k
  }

  /** dict.get without a default, with None kept apart from null. */
  function Find(fs: Fields, k: string): (v: Option<Json>)
    ensures v.None? <==> !HasKey(fs, k)
  {
    if fs == [] then None
    else if fs[0].key == k then Some(fs[0].value)
    else
      assert HasKey(fs, k) ==> HasKey(fs[1..], k) by {
        if HasKey(fs, k) {
          var i :| 0 <= i < |fs| && fs[i].key == k;
          assert fs[1..][i - 1].key == k;
        }
      }
      assert HasKey(fs[1..], k) ==> HasKey(fs, k) by {
        if HasKey(fs[1..], k) {
          var i :| 0 <= i < |fs[1..]| && fs[1..][i].key == k;
          assert fs[i + 1].key == k;
        }
      }
      Find(fs[1..], k)
  }

  /** dict.get, where a missing key and null are the same None. */
  function Get(fs: Fields, k: string): Json {
    match Find(fs, k)
    case None => Null
    case Some(v) => v
  }

  /** d[k] = v: an existing key keeps its position, a new one goes last. */
  function Put(fs: Fields, k: string, v: Json): Fields {
    if fs == [] then [Field(k, v)]
    else if fs[0].key == k then [Field(k, v)] + fs[1..]
    else [fs[0]] + Put(fs[1..], k, v)
  }

  lemma {:induction false} FindAfterPut(fs: Fields, k: string, v: Json, q: string)
    ensures Find(Put(fs, k, v), q) == if q == k then Some(v) else Find(fs, q)
  {
    if fs != [] && fs[0].key != k {
      FindAfterPut(fs[1..], k, v, q);
      assert Put(fs, k, v)[1..] == Put(fs[1..], k, v);
    } else {
      assert Put(fs, k, v)[1..] == if fs == [] then [] else fs[1..];
    }
  }

  ghost predicate DistinctKeys(fs: Fields) {
    forall i, j :: 0 <= i < j < |fs| ==> fs[i].key != fs[j].key
  }

  lemma {:induction false} FindAt(fs: Fields, i: nat)
    requires DistinctKeys(fs) && i < |fs|
    ensures Find(fs, fs[i].key) == Some(fs[i].value)
  {
    if i > 0 {
      assert fs[0].key != fs[i].key;
      assert fs[1..][i - 1] == fs[i];
      FindAt(fs[1..], i - 1);
    }
  }

  lemma {:induction false} PutFresh(fs: Fields, k: string, v: Json)
    requires !HasKey(fs, k)
    ensures Put(fs, k, v) == fs + [Field(k, v)]
  {
    if fs != [] {
      forall i | 0 <= i < |fs| - 1 ensures fs[1..][i].key != k {
        assert fs[1..][i] == fs[i + 1];
      }
      PutFresh(fs[1..], k, v);
    }
  }

  lemma {:induction false} PutSame(fs: Fields, k: string, v: Json)
    requires Find(fs, k) == Some(v)
    ensures Put(fs, k, v) == fs
  {
    if fs[0].key != k {
      PutSame(fs[1..], k, v);
    }
  }

  lemma {:induction false} PutTwice(fs: Fields, k: string, v: Json, w: Json)
    ensures Put(Put(fs, k, v), k, w) == Put(fs, k, w)
  {
    if fs != [] && fs[0].key != k {
      PutTwice(fs[1..], k, v, w);
      assert Put(fs, k, v)[1..] == Put(fs[1..], k, v);
    } else {
      assert Put(fs, k, v)[1..] == if fs == [] then [] else fs[1..];
    }
  }

  // ----- Printing -----

  function Print(d: Dialect, v: Json): string
    decreases v, 1
  {
    match v
    case Null => "null"
    case Bool(b) => if b then "true" else "false"
    case Num(n) => IntText(n)
    case Real(lexeme) => lexeme
    case Str(s) => Quote(d, s)
    case Arr(items) =>
      if items == [] then "[]"
      else "[" + Print(d, items[0]) + PrintItems(d, items[1..])
    case Obj(fields) =>
      if fields == [] then "{}"
      else "{" + PrintField(d, fields[0]) + PrintFields(d, fields[1..])
  }

  function PrintField(d: Dialect, f: Field): string
    decreases f, 2
  {
    Quote(d, f.key) + ":" + Print(d, f.value)
  }

  /** The elements after the first, with the closing bracket. */
  function PrintItems(d: Dialect, items: seq<Json>): (s: string)
    ensures s != "" && (s[0] == ',' || s[0] == ']')
    decreases items, 0
  {
    if items == [] then "]"
    else "," + Print(d, items[0]) + PrintItems(d, items[1..])
  }

  /** The fields after the first, with the closing brace. */
  function PrintFields(d: Dialect, fs: Fields): (s: string)
    ensures s != "" && (s[0] == ',' || s[0] == '}')
    decreases fs, 0
  {
    if fs == [] then "}"
    else "," + PrintField(d, fs[0]) + PrintFields(d, fs[1..])
  }

  // ----- Reading -----

  function SkipSpace(s: string): (r: string)
    ensures |r| <= |s|
  {
    if s != "" && (s[0] == ' ' || s[0] == '\t' || s[0] == '\n' || s[0] == '\r')
    then SkipSpace(s[1..])
    else s
  }

  function FractionLength(s: string): (k: nat)
    ensures k <= |s|
  {
    if |s| >= 2 && s[0] == '.' && IsDigit(s[1]) then 1 + DigitRun(s[1..]) else 0
  }

  function ExponentLength(s: string): (k: nat)
    ensures k <= |s|
  {
    if s == "" || (s[0] != 'e' && s[0] != 'E') then 0
    else
      var sign := if |s| >= 2 && (s[1] == '+' || s[1] == '-') then 2 else 1;
      var run := DigitRun(s[sign..]);
      if run == 0 then 0 else sign + run
  }

  /** Length of the digits before a fraction; a zero stands alone. */
  function WholeLength(s: string): (k: nat)
    ensures k <= DigitRun(s)
  {
    if s != "" && s[0] == '0' then 1 else DigitRun(s)
  }

  /** Length of a number without its sign. */
  function NumberLength(s: string): (k: nat)
    ensures WholeLength(s) <= k <= |s|
  {
    var decimal := WholeLength(s) + FractionLength(s[WholeLength(s)..]);
    decimal + ExponentLength(s[decimal..])
  }

  /** A number without its sign. */
  function ScanMagnitude(s: string): (r: Scan<Json>)
    ensures r.Got? ==> |r.rest| < |s| && (r.value.Num? || r.value.Real?)
  {
    if DigitRun(s) == 0 then Fail
    else if NumberLength(s) == WholeLength(s) then
      Got(Num(NatValue(s[..WholeLength(s)])), s[WholeLength(s)..])
    else Got(Real(s[..NumberLength(s)]), s[NumberLength(s)..])
  }

  function ScanNumber(s: string): (r: Scan<Json>)
    ensures r.Got? ==> |r.rest| < |s|
  {
    if s != "" && s[0] == '-' then
      match ScanMagnitude(s[1..])
      case Fail => Fail
      case Got(v, rest) => Got(if v.Num? then Num(-v.n) else Real("-" + v.lexeme), rest)
    else ScanMagnitude(s)
  }

  function ScanWord(s: string, word: string, v: Json): (r: Scan<Json>)
    requires word != ""
    ensures r.Got? ==> |r.rest| < |s|
  {
    if word <= s then Got(v, s[|word|..]) else Fail
  }

  /** The literals, Python's extra NaN and Infinity among them, and numbers. */
  function ScanScalar(s: string): (r: Scan<Json>)
    requires s != ""
    ensures r.Got? ==> |r.rest| < |s|
  {
    match s[0]
    case 'n' => ScanWord(s, "null", Null)
    case 't' => ScanWord(s, "true", Bool(true))
    case 'f' => ScanWord(s, "false", Bool(false))
    case 'N' => ScanWord(s, "NaN", Real("NaN"))
    case 'I' => ScanWord(s, "Infinity", Real("Infinity"))
    case _ =>
      if s[0] == '-' && |s| > 1 && s[1] == 'I' then ScanWord(s, "-Infinity", Real("-Infinity"))
      else ScanNumber(s)
  }

  function ScanValue(s: string): (r: Scan<Json>)
    ensures r.Got? ==> |r.rest| < |s|
    decreases |s|, 0
  {
    if s == "" then Fail
    else if s[0] == '[' then ScanArray(SkipSpace(s[1..]))
    else if s[0] == '{' then ScanObject(SkipSpace(s[1..]))
    else if s[0] == '"' then
      match ScanString(s[1..])
      case Fail => Fail
      case Got(cs, rest) => Got(Str(cs), rest)
    else ScanScalar(s)
  }

  /** An array body, from its first element or its closing bracket. */
  function ScanArray(s: string): (r: Scan<Json>)
    ensures r.Got? ==> |r.rest| < |s|
    decreases |s|, 2
  {
    if s != "" && s[0] == ']' then Got(Arr([]), s[1..])
    else
      match ScanValue(s)
      case Fail => Fail
      case Got(v, rest) =>
        match ScanItems(rest)
        case Fail => Fail
        case Got(vs, end) => Got(Arr([v] + vs), end)
  }

  /** An object body, from its first key or its closing brace. */
  function ScanObject(s: string): (r: Scan<Json>)
    ensures r.Got? ==> |r.rest| < |s|
    decreases |s|, 2
  {
    if s != "" && s[0] == '}' then Got(Obj([]), s[1..])
    else
      match ScanField(s)
      case Fail => Fail
      case Got(f, rest) =>
        match ScanFields(rest, [f])
        case Fail => Fail
        case Got(fs, end) => Got(Obj(fs), end)
  }

  /** What follows an array element: more elements, or the closing bracket. */
  function ScanItems(s: string): (r: Scan<seq<Json>>)
    ensures r.Got? ==> |r.rest| < |s|
    decreases |s|, 0
  {
    var next := SkipSpace(s);
    if next == "" then Fail
    else if next[0] == ']' then Got([], next[1..])
    else if next[0] != ',' then Fail
    else
      match ScanValue(SkipSpace(next[1..]))
      case Fail => Fail
      case Got(v, rest) =>
        match ScanItems(rest)
        case Fail => Fail
        case Got(vs, end) => Got([v] + vs, end)
  }

  function ScanField(s: string): (r: Scan<Field>)
    ensures r.Got? ==> |r.rest| < |s|
    decreases |s|, 1
  {
    if s == "" || s[0] != '"' then Fail
    else
      match ScanString(s[1..])
      case Fail => Fail
      case Got(key, rest) =>
        var colon := SkipSpace(rest);
        if colon == "" || colon[0] != ':' then Fail
        else
          match ScanValue(SkipSpace(colon[1..]))
          case Fail => Fail
          case Got(v, end) => Got(Field(key, v), end)
  }

  /** What follows an object field; a repeated key overwrites the earlier value. */
  function ScanFields(s: string, acc: Fields): (r: Scan<Fields>)
    ensures r.Got? ==> |r.rest| < |s|
    decreases |s|, 0
  {
    var next := SkipSpace(s);
    if next == "" then Fail
    else if next[0] == '}' then Got(acc, next[1..])
    else if next[0] != ',' then Fail
    else
      match ScanField(SkipSpace(next[1..]))
      case Fail => Fail
      case Got(f, rest) => ScanFields(rest, Put(acc, f.key, f.value))
  }

  /** json.loads: one value, surrounded by nothing but white space. */
  function Loads(text: string): Option<Json> {
    match ScanValue(SkipSpace(text))
    case Fail => None
    case Got(v, rest) => if SkipSpace(rest) == "" then Some(v) else None
  }

  // ----- The reader undoes the printer -----

  /** No fractional numbers, and distinct keys in every object. */
  ghost predicate Plain(v: Json) {
    match v
    case Real(_) => false
    case Arr(items) => forall i :: 0 <= i < |items| ==> Plain(items[i])
    case Obj(fields) =>
      && DistinctKeys(fields)
      && forall i :: 0 <= i < |fields| ==> Plain(fields[i].value)
    case _ => true
  }

  /** What can stand after a printed value: nothing, a separator, or white space. */
  predicate Follows(t: string) {
    || t == "" || t[0] == ',' || t[0] == ']' || t[0] == '}'
    || t[0] == ' ' || t[0] == '\t' || t[0] == '\n' || t[0] == '\r'
  }

  lemma {:induction false} DigitRunOf(digits: string, t: string)
    requires Follows(t)
    requires forall c :: c in digits ==> IsDigit(c)
    ensures DigitRun(digits + t) == |digits|
  {
    var s := digits + t;
    forall i | 0 <= i < |digits| ensures IsDigit(s[i]) {
      assert s[i] == digits[i];
      assert digits[i] in digits;
    }
    DigitRunIs(s, |digits|);
  }

  lemma {:induction false} ScanDigits(digits: string, t: string)
    requires Follows(t) && digits != "" && (digits[0] == '0' ==> |digits| == 1)
    requires forall c :: c in digits ==> IsDigit(c)
    requires DigitRun(digits + t) == |digits|
    ensures ScanMagnitude(digits + t) == Got(Num(NatValue(digits)), t)
  {
    var s := digits + t;
    var k := |digits|;
    assert s[0] == digits[0];
    assert s[..k] == digits && s[k..] == t;
    NoMore(t);
    assert k + 0 == k;
  }

  /** What follows a number is no fraction and no exponent of it. */
  lemma {:induction false} NoMore(t: string)
    requires Follows(t)
    ensures FractionLength(t) == 0 && ExponentLength(t) == 0
  {
  }

  lemma {:induction false} MagnitudeRoundTrip(n: nat, t: string)
    requires Follows(t)
    ensures ScanMagnitude(NatText(n) + t) == Got(Num(n), t)
  {
    DigitRunOf(NatText(n), t);
    ScanDigits(NatText(n), t);
    NatRoundTrip(n);
  }

  lemma {:induction false} SignedNumber(digits: string, t: string)
    requires digits != "" && digits[0] != '-'
    ensures ScanNumber(digits + t) == ScanMagnitude(digits + t)
    ensures "-" + digits + t == "-" + (digits + t)
  {
    assert (digits + t)[0] == digits[0];
  }

  lemma {:induction false} NegativeNumber(s: string, t: string, n: int)
    requires ScanMagnitude(s) == Got(Num(n), t)
    ensures ScanNumber("-" + s) == Got(Num(-n), t)
  {
    var all := "-" + s;
    assert all[0] == '-' && all[1..] == s;
  }

  lemma {:induction false} NatTextHead(n: nat)
    ensures IsDigit(NatText(n)[0])
  {
    assert NatText(n)[0] in NatText(n);
  }

  lemma {:induction false} NumberRoundTrip(n: int, t: string)
    requires Follows(t)
    ensures ScanNumber(IntText(n) + t) == Got(Num(n), t)
  {
    var m := if n < 0 then -n else n;
    MagnitudeRoundTrip(m, t);
    NatTextHead(m);
    SignedNumber(NatText(m), t);
    if n < 0 {
      NegativeNumber(NatText(m) + t, t, m);
    }
  }

  lemma {:induction false} NumberHead(n: int)
    ensures var s := IntText(n); IsDigit(s[0]) || (s[0] == '-' && |s| > 1 && IsDigit(s[1]))
  {
    var digits := NatText(if n < 0 then -n else n);
    assert digits[0] in digits;
  }

  lemma {:induction false} PrintHead(d: Dialect, v: Json)
    requires Plain(v)
    ensures var s := Print(d, v);
            s != "" && s[0] != ' ' && s[0] != '\t' && s[0] != '\n' && s[0] != '\r'
            && s[0] != ']' && s[0] != '}' && s[0] != ','
  {
    if v.Num? { NumberHead(v.n); }
  }

  lemma {:induction false} ScanValueNumber(s: string)
    requires s != "" && (IsDigit(s[0]) || (s[0] == '-' && |s| > 1 && IsDigit(s[1])))
    ensures ScanValue(s) == ScanNumber(s)
  {
    ScanValueScalar(s);
    ScanScalarNumber(s);
  }

  lemma {:induction false} ScanValueScalar(s: string)
    requires s != "" && s[0] != '[' && s[0] != '{' && s[0] != '"'
    ensures ScanValue(s) == ScanScalar(s)
  {
  }

  lemma {:induction false} ScanScalarNumber(s: string)
    requires s != "" && (IsDigit(s[0]) || (s[0] == '-' && |s| > 1 && IsDigit(s[1])))
    ensures ScanScalar(s) == ScanNumber(s)
  {
    assert s[0] == '-' ==> s[1] != 'I';
  }

  lemma {:induction false} NumRoundTrip(d: Dialect, n: int, t: string)
    requires Follows(t)
    ensures ScanValue(Print(d, Num(n)) + t) == Got(Num(n), t)
  {
    var s := IntText(n) + t;
    NumberRoundTrip(n, t);
    NumberHead(n);
    assert s[0] == IntText(n)[0] && (s[0] == '-' ==> s[1] == IntText(n)[1]);
    ScanValueNumber(s);
  }

  lemma {:induction false} StrRoundTrip(d: Dialect, cs: string, t: string)
    ensures ScanValue(Print(d, Str(cs)) + t) == Got(Str(cs), t)
  {
    assert (Quote(d, cs) + t)[1..] == EscapeAll(d, cs) + "\"" + t;
    StringRoundTrip(d, cs, t);
  }

  lemma {:induction false} ScalarRoundTrip(d: Dialect, v: Json, t: string)
    requires Plain(v) && Follows(t) && !v.Arr? && !v.Obj?
    ensures ScanValue(Print(d, v) + t) == Got(v, t)
  {
    var s := Print(d, v) + t;
    match v
    case Null =>
      assert s[4..] == t;
    case Bool(b) =>
      assert s[if b then 4 else 5..] == t;
    case Num(n) =>
      NumRoundTrip(d, n, t);
    case Str(cs) =>
      StrRoundTrip(d, cs, t);
  }

  lemma {:induction false} ValueRoundTrip(d: Dialect, v: Json, t: string)
    requires Plain(v) && Follows(t)
    ensures ScanValue(Print(d, v) + t) == Got(v, t)
    decreases v, 2
  {
    match v
    case Arr(items) => ArrayRoundTrip(d, items, t);
    case Obj(fields) => ObjectRoundTrip(d, fields, t);
    case _ => ScalarRoundTrip(d, v, t);
  }

  lemma {:induction false} ArrayRoundTrip(d: Dialect, items: seq<Json>, t: string)
    requires forall i :: 0 <= i < |items| ==> Plain(items[i])
    ensures ScanValue(Print(d, Arr(items)) + t) == Got(Arr(items), t)
    decreases items, 1
  {
    var s := Print(d, Arr(items)) + t;
    if items == [] {
      assert s[1..] == "]" + t;
      assert ("]" + t)[1..] == t;
    } else {
      var rest := PrintItems(d, items[1..]) + t;
      var body := Print(d, items[0]) + rest;
      assert s[1..] == body;
      PrintHead(d, items[0]);
      ValueRoundTrip(d, items[0], rest);
      ItemsRoundTrip(d, items[1..], t);
      assert ScanArray(body) == Got(Arr(items), t) by {
        assert [items[0]] + items[1..] == items;
      }
      assert SkipSpace(body) == body;
    }
  }

  lemma {:induction false} ScanValueObject(s: string, body: string)
    requires s != "" && s[0] == '{' && s[1..] == body && body != "" && body[0] == '"'
    ensures ScanValue(s) == ScanObject(body)
  {
  }

  lemma {:induction false} ScanObjectFrom(body: string, f: Field, rest: string)
    requires body != "" && body[0] == '"' && ScanField(body) == Got(f, rest)
    ensures ScanObject(body) == match ScanFields(rest, [f])
                                case Fail => Fail
                                case Got(fs, end) => Got(Obj(fs), end)
  {
  }

  lemma {:induction false} ScanFieldsStep(body: string, f: Field, rest: string, acc: Fields)
    requires body != "" && body[0] == '"' && ScanField(body) == Got(f, rest)
    ensures ScanFields("," + body, acc) == ScanFields(rest, Put(acc, f.key, f.value))
  {
    assert ("," + body)[1..] == body;
  }

  lemma {:induction false} ObjectRoundTrip(d: Dialect, fields: Fields, t: string)
    requires DistinctKeys(fields)
    requires forall i :: 0 <= i < |fields| ==> Plain(fields[i].value)
    ensures ScanValue(Print(d, Obj(fields)) + t) == Got(Obj(fields), t)
    decreases fields, 1
  {
    var s := Print(d, Obj(fields)) + t;
    if fields == [] {
      assert s[1..] == "}" + t;
      assert ("}" + t)[1..] == t;
    } else {
      var rest := PrintFields(d, fields[1..]) + t;
      var body := PrintField(d, fields[0]) + rest;
      Regroup("{", PrintField(d, fields[0]), PrintFields(d, fields[1..]), t);
      assert s[1..] == body;
      FieldRoundTrip(d, fields[0], rest);
      assert [fields[0]] + fields[1..] == fields;
      FieldsRoundTrip(d, fields[1..], [fields[0]], t);
      ScanObjectFrom(body, fields[0], rest);
      ScanValueObject(s, body);
    }
  }

  lemma {:induction false} ItemsRoundTrip(d: Dialect, items: seq<Json>, t: string)
    requires forall i :: 0 <= i < |items| ==> Plain(items[i])
    ensures ScanItems(PrintItems(d, items) + t) == Got(items, t)
    decreases items, 0
  {
    if items == [] {
      assert ("]" + t)[1..] == t;
    } else {
      var rest := PrintItems(d, items[1..]) + t;
      var body := Print(d, items[0]) + rest;
      Regroup(",", Print(d, items[0]), PrintItems(d, items[1..]), t);
      PrintHead(d, items[0]);
      ValueRoundTrip(d, items[0], rest);
      ItemsRoundTrip(d, items[1..], t);
      ScanItemsStep(body, items[0], rest, items[1..], t);
      assert [items[0]] + items[1..] == items;
    }
  }

  lemma {:induction false} ScanItemsStep(body: string, v: Json, rest: string, vs: seq<Json>, t: string)
    requires SkipSpace(body) == body && ScanValue(body) == Got(v, rest) && ScanItems(rest) == Got(vs, t)
    ensures ScanItems("," + body) == Got([v] + vs, t)
  {
    assert ("," + body)[1..] == body;
  }

  lemma {:induction false} FieldRoundTrip(d: Dialect, f: Field, t: string)
    requires Plain(f.value) && Follows(t)
    ensures ScanField(PrintField(d, f) + t) == Got(f, t)
    decreases f, 3
  {
    var value := Print(d, f.value) + t;
    var body := EscapeAll(d, f.key) + "\"" + (":" + value);
    RegroupField(EscapeAll(d, f.key), Print(d, f.value), t);
    StringRoundTrip(d, f.key, ":" + value);
    PrintHead(d, f.value);
    ValueRoundTrip(d, f.value, t);
    ScanFieldFrom(body, f.key, value, f.value, t);
  }

  lemma {:induction false} RegroupField(key: string, value: string, t: string)
    ensures ("\"" + key + "\"") + ":" + value + t == "\"" + (key + "\"" + (":" + (value + t)))
  {
  }

  lemma {:induction false} ScanFieldFrom(body: string, key: string, value: string, v: Json, rest: string)
    requires ScanString(body) == Got(key, ":" + value)
    requires SkipSpace(value) == value && ScanValue(value) == Got(v, rest)
    ensures ScanField("\"" + body) == Got(Field(key, v), rest)
  {
    assert ("\"" + body)[1..] == body;
    assert (":" + value)[1..] == value;
  }

  lemma {:induction false} FieldsRoundTrip(d: Dialect, fs: Fields, acc: Fields, t: string)
    requires DistinctKeys(acc + fs)
    requires forall i :: 0 <= i < |fs| ==> Plain(fs[i].value)
    ensures ScanFields(PrintFields(d, fs) + t, acc) == Got(acc + fs, t)
    decreases fs, 0
  {
    if fs == [] {
      assert ("}" + t)[1..] == t && acc + fs == acc;
    } else {
      var f := fs[0];
      var rest := PrintFields(d, fs[1..]) + t;
      var body := PrintField(d, f) + rest;
      assert PrintFields(d, fs) + t == "," + body by {
        Regroup(",", PrintField(d, f), PrintFields(d, fs[1..]), t);
      }
      FieldRoundTrip(d, f, rest);
      ScanFieldsStep(body, f, rest, acc);
      PutNext(acc, fs);
      FieldsRoundTrip(d, fs[1..], acc + [f], t);
    }
  }

  lemma {:induction false} Regroup(a: string, b: string, c: string, t: string)
    ensures a + b + c + t == a + (b + (c + t))
  {
  }

  lemma {:induction false} PutNext(acc: Fields, fs: Fields)
    requires DistinctKeys(acc + fs) && fs != []
    ensures Put(acc, fs[0].key, fs[0].value) == acc + [fs[0]]
    ensures acc + [fs[0]] + fs[1..] == acc + fs
  {
    assert (acc + fs)[|acc|] == fs[0];
    forall i | 0 <= i < |acc| ensures acc[i].key != fs[0].key {
      assert (acc + fs)[i] == acc[i];
    }
    PutFresh(acc, fs[0].key, fs[0].value);
  }

  /** json.loads reads back exactly the value either writer printed. */
  lemma {:induction false} LoadsPrint(d: Dialect, v: Json)
    requires Plain(v)
    ensures Loads(Print(d, v)) == Some(v)
  {
    ValueRoundTrip(d, v, "");
    assert Print(d, v) + "" == Print(d, v);
    PrintHead(d, v);
  }
}

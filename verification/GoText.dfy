/**
 json.Marshal on Go strings, which are byte strings and need not be valid UTF-8: a byte that begins
 no character is written as the escape of U+FFFD, and everything else as Go's encoder writes it.
 */
module GoText {
  import opened Wrappers
  import opened JsonText
  import opened Json
  import Utf8

  // ----- The units of a byte string -----

  /** A character, or one byte that begins none. */
  datatype Unit = Char(c: char) | Stray

  function Units(b: Bytes): seq<Unit>
    decreases |b|
  {
    if b == [] then []
    else
      match Utf8.DecodeChar(b)
      case Some((c, k)) => [Char(c)] + Units(b[k..])
      case None => [Stray] + Units(b[1..])
  }

  function Chars(s: string): (us: seq<Unit>)
    ensures |us| == |s| && forall i :: 0 <= i < |s| ==> us[i] == Char(s[i])
  {
    seq(|s|, i requires 0 <= i < |s| => Char(s[i]))
  }

  /** Valid bytes are exactly those without stray units, and their units are their characters. */
  lemma {:induction false} UnitsExactly(b: Bytes, s: string)
    ensures Utf8.Decode(b) == Some(s) <==> Units(b) == Chars(s)
    decreases |b|
  {
    if b != [] {
      match Utf8.DecodeChar(b)
      case Some((c, k)) =>
        if s != "" {
          UnitsExactly(b[k..], s[1..]);
          assert s == [s[0]] + s[1..] && Chars(s) == [Char(s[0])] + Chars(s[1..]);
          FirstUnits(Char(c), Units(b[k..]), Char(s[0]), Chars(s[1..]));
        }
      case None =>
        assert Units(b)[0] == Stray;
    }
  }

  lemma {:induction false} FirstUnits(x: Unit, xs: seq<Unit>, y: Unit, ys: seq<Unit>)
    ensures [x] + xs == [y] + ys <==> x == y && xs == ys
  {
    if [x] + xs == [y] + ys {
      assert ([x] + xs)[0] == ([y] + ys)[0] && ([x] + xs)[1..] == ([y] + ys)[1..];
      assert ([x] + xs)[1..] == xs && ([y] + ys)[1..] == ys;
    }
  }

  /** A valid byte string shares its units with no other byte string. */
  lemma {:induction false} ValidUnits(a: Bytes, b: Bytes)
    requires Units(a) == Units(b) && Utf8.Decode(a).Some?
    ensures a == b
  {
    var s := Utf8.Decode(a).value;
    UnitsExactly(a, s);
    UnitsExactly(b, s);
    Utf8.EncodeDecode(a);
    Utf8.EncodeDecode(b);
  }

  lemma {:induction false} UnitsEmpty(b: Bytes)
    ensures Units(b) == [] <==> b == []
  {
  }

  // ----- Writing and reading a string -----

  /** The bytes the units stand for. */
  function Weight(us: seq<Unit>): nat {
    if us == [] then 0 else (match us[0] case Char(c) => Utf8.CharSize(c) case Stray => 1) + Weight(us[1..])
  }

  /** The units account for every byte: a character for its encoding, a stray unit for one byte. */
  lemma {:induction false} UnitsWeigh(b: Bytes)
    ensures Weight(Units(b)) == |b|
    decreases |b|
  {
    if b != [] {
      match Utf8.DecodeChar(b)
      case Some((c, k)) =>
        Utf8.CharCanonical(b);
        assert |Utf8.EncodeChar(c)| == Utf8.CharSize(c);
        UnitsWeigh(b[k..]);
        assert Units(b)[1..] == Units(b[k..]);
      case None =>
        UnitsWeigh(b[1..]);
        assert Units(b)[1..] == Units(b[1..]);
    }
  }

  function EscapeUnit(u: Unit): (s: string)
    ensures s != ""
  {
    match u
    case Char(c) => EscapeChar(GoMarshal, c)
    case Stray => "\\ufffd"
  }

  function EscapeUnits(us: seq<Unit>): string {
    if us == [] then "" else EscapeUnit(us[0]) + EscapeUnits(us[1..])
  }

  function GoQuote(b: Bytes): (s: string)
    ensures s != "" && s[0] == '"'
  {
    "\"" + EscapeUnits(Units(b)) + "\""
  }

  /** A reader that keeps the escape of U+FFFD apart from the character itself. */
  function ScanUnit(s: string): (r: Scan<Unit>)
    ensures r.Got? ==> |r.rest| < |s|
  {
    if "\\ufffd" <= s then Got(Stray, s[6..])
    else
      match ScanChar(s)
      case Fail => Fail
      case Got(c, rest) => Got(Char(c), rest)
  }

  function ScanUnits(s: string): (r: Scan<seq<Unit>>)
    ensures r.Got? ==> |r.rest| < |s|
    decreases |s|
  {
    if s != "" && s[0] == '"' then Got([], s[1..])
    else
      match ScanUnit(s)
      case Fail => Fail
      case Got(u, rest) =>
        match ScanUnits(rest)
        case Fail => Fail
        case Got(us, end) => Got([u] + us, end)
  }

  /** No character is written as the escape of U+FFFD. */
  lemma {:induction false} NotStray(c: char, t: string)
    ensures !("\\ufffd" <= EscapeChar(GoMarshal, c) + t)
  {
    var e := EscapeChar(GoMarshal, c);
    var s := e + t;
    assert s[0] == e[0];
    if |e| >= 2 {
      assert s[1] == e[1];
    }
    if |e| >= 3 {
      assert s[2] == e[2];
    }
  }

  lemma {:induction false} UnitRoundTrip(u: Unit, t: string)
    ensures ScanUnit(EscapeUnit(u) + t) == Got(u, t)
    ensures (EscapeUnit(u) + t)[0] != '"'
  {
    match u
    case Char(c) =>
      NotStray(c, t);
      CharRoundTrip(GoMarshal, c, t);
    case Stray =>
      assert ("\\ufffd" + t)[6..] == t;
  }

  lemma {:induction false} UnitsRoundTrip(us: seq<Unit>, t: string)
    ensures ScanUnits(EscapeUnits(us) + ("\"" + t)) == Got(us, t)
  {
    if us == [] {
      assert EscapeUnits(us) + ("\"" + t) == "\"" + t;
    } else {
      var rest := EscapeUnits(us[1..]) + ("\"" + t);
      assert EscapeUnits(us) + ("\"" + t) == EscapeUnit(us[0]) + rest;
      UnitRoundTrip(us[0], rest);
      UnitsRoundTrip(us[1..], t);
      assert [us[0]] + us[1..] == us;
    }
  }

  /** A quoted string is read off the front of a text in one way. */
  lemma {:induction false} QuoteSplit(a: Bytes, b: Bytes, t: string, u: string)
    requires GoQuote(a) + t == GoQuote(b) + u
    ensures Units(a) == Units(b) && t == u
  {
    QuoteBody(a, t);
    QuoteBody(b, u);
    UnitsRoundTrip(Units(a), t);
    UnitsRoundTrip(Units(b), u);
  }

  lemma {:induction false} QuoteBody(b: Bytes, t: string)
    ensures (GoQuote(b) + t)[1..] == EscapeUnits(Units(b)) + ("\"" + t)
  {
  }

  // ----- Values -----

  datatype Entry = Entry(key: Bytes, value: Bytes)

  datatype GoValue = Text(b: Bytes) | Number(n: nat) | Dict(entries: seq<Entry>)

  datatype GoField = GoField(name: string, value: GoValue)

  /** What a JSON reader sees: the characters, and U+FFFD for every stray byte. */
  function Shown(us: seq<Unit>): string {
    if us == [] then ""
    else [match us[0] case Char(c) => c case Stray => '\U{FFFD}'] + Shown(us[1..])
  }

  lemma {:induction false} UnitReads(u: Unit, t: string)
    ensures ScanChar(EscapeUnit(u) + t) == Got(match u case Char(c) => c case Stray => '\U{FFFD}', t)
    ensures (EscapeUnit(u) + t)[0] != '"'
  {
    match u
    case Char(c) => CharRoundTrip(GoMarshal, c, t);
    case Stray =>
      var s := "\\ufffd" + t;
      assert s[2..] == "fffd" + t && ("fffd" + t)[4..] == t;
      assert Hex4Value("fffd" + t) == 0xFFFD;
  }

  /** A quoted string reads as its units, with the replacement character for bytes that begin none. */
  lemma {:induction false} QuoteReads(us: seq<Unit>, t: string)
    ensures ScanString(EscapeUnits(us) + ("\"" + t)) == Got(Shown(us), t)
    decreases |us|
  {
    if us == [] {
      assert "" + ("\"" + t) == "\"" + t && ("\"" + t)[1..] == t;
    } else {
      var rest := EscapeUnits(us[1..]) + ("\"" + t);
      assert EscapeUnits(us) + ("\"" + t) == EscapeUnit(us[0]) + rest;
      UnitReads(us[0], rest);
      QuoteReads(us[1..], t);
    }
  }

  function EntryText(e: Entry): (s: string)
    ensures s != "" && s[0] == '"'
  {
    GoQuote(e.key) + (":" + GoQuote(e.value))
  }

  /** The entries after the first, with the closing brace. */
  function EntriesText(es: seq<Entry>): (s: string)
    ensures s != "" && (s[0] == ',' || s[0] == '}')
  {
    if es == [] then "}" else "," + (EntryText(es[0]) + EntriesText(es[1..]))
  }

  function GoPrint(v: GoValue): string {
    match v
    case Text(b) => GoQuote(b)
    case Number(n) => NatText(n)
    case Dict(es) => if es == [] then "{}" else "{" + (EntryText(es[0]) + EntriesText(es[1..]))
  }

  function FieldText(f: GoField): string {
    Quote(GoMarshal, f.name) + (":" + GoPrint(f.value))
  }

  function FieldsText(fs: seq<GoField>): (s: string)
    ensures s != "" && (s[0] == ',' || s[0] == '}')
  {
    if fs == [] then "}" else "," + (FieldText(fs[0]) + FieldsText(fs[1..]))
  }

  function ObjectText(fs: seq<GoField>): string {
    if fs == [] then "{}" else "{" + (FieldText(fs[0]) + FieldsText(fs[1..]))
  }

  // ----- Which values share a text -----

  predicate SameEntries(a: seq<Entry>, b: seq<Entry>) {
    && |a| == |b|
    && forall i :: 0 <= i < |a| ==> Units(a[i].key) == Units(b[i].key) && Units(a[i].value) == Units(b[i].value)
  }

  predicate SameValue(v: GoValue, w: GoValue) {
    match (v, w)
    case (Text(a), Text(b)) => Units(a) == Units(b)
    case (Number(m), Number(n)) => m == n
    case (Dict(a), Dict(b)) => SameEntries(a, b)
    case _ => false
  }

  predicate SameFields(fs: seq<GoField>, gs: seq<GoField>) {
    |fs| == |gs| && forall i :: 0 <= i < |fs| ==> fs[i].name == gs[i].name && SameValue(fs[i].value, gs[i].value)
  }

  lemma {:induction false} Nested(a: string, b: string, c: string, t: string)
    ensures a + (b + c) + t == a + (b + (c + t))
  {
  }

  lemma {:induction false} EntrySplit(a: Entry, b: Entry, t: string, u: string)
    requires EntryText(a) + t == EntryText(b) + u
    ensures Units(a.key) == Units(b.key) && Units(a.value) == Units(b.value) && t == u
  {
    Nested(GoQuote(a.key), ":", GoQuote(a.value), t);
    Nested(GoQuote(b.key), ":", GoQuote(b.value), u);
    QuoteSplit(a.key, b.key, ":" + (GoQuote(a.value) + t), ":" + (GoQuote(b.value) + u));
    DropFirst(':', GoQuote(a.value) + t, GoQuote(b.value) + u);
    QuoteSplit(a.value, b.value, t, u);
  }

  lemma {:induction false} DropFirst(c: char, t: string, u: string)
    requires [c] + t == [c] + u
    ensures t == u
  {
    assert ([c] + t)[1..] == t && ([c] + u)[1..] == u;
  }

  lemma {:induction false} EntriesSplit(a: seq<Entry>, b: seq<Entry>, t: string, u: string)
    requires EntriesText(a) + t == EntriesText(b) + u
    ensures SameEntries(a, b) && t == u
  {
    assert (EntriesText(a) + t)[0] == EntriesText(a)[0] && (EntriesText(b) + u)[0] == EntriesText(b)[0];
    if a == [] {
      DropFirst('}', t, u);
    } else {
      var x, y := EntriesText(a[1..]) + t, EntriesText(b[1..]) + u;
      Nested(",", EntryText(a[0]), EntriesText(a[1..]), t);
      Nested(",", EntryText(b[0]), EntriesText(b[1..]), u);
      DropFirst(',', EntryText(a[0]) + x, EntryText(b[0]) + y);
      EntrySplit(a[0], b[0], x, y);
      EntriesSplit(a[1..], b[1..], t, u);
      SameEntriesLonger(a, b);
    }
  }

  lemma {:induction false} SameEntriesLonger(a: seq<Entry>, b: seq<Entry>)
    requires a != [] && b != [] && SameEntries(a[1..], b[1..])
    requires Units(a[0].key) == Units(b[0].key) && Units(a[0].value) == Units(b[0].value)
    ensures SameEntries(a, b)
  {
    forall i | 0 < i < |a| ensures Units(a[i].key) == Units(b[i].key) && Units(a[i].value) == Units(b[i].value) {
      assert a[i] == a[1..][i - 1] && b[i] == b[1..][i - 1];
    }
  }

  lemma {:induction false} DictSplit(a: seq<Entry>, b: seq<Entry>, t: string, u: string)
    requires GoPrint(Dict(a)) + t == GoPrint(Dict(b)) + u
    ensures SameEntries(a, b) && t == u
  {
    DictBody(a, t);
    DictBody(b, u);
    if a != [] && b != [] {
      var x, y := EntriesText(a[1..]) + t, EntriesText(b[1..]) + u;
      DropFirst('{', EntryText(a[0]) + x, EntryText(b[0]) + y);
      EntrySplit(a[0], b[0], x, y);
      EntriesSplit(a[1..], b[1..], t, u);
      SameEntriesLonger(a, b);
    } else {
      assert (GoPrint(Dict(a)) + t)[1] == (GoPrint(Dict(b)) + u)[1];
      assert a == [] && b == [];
      assert ("{}" + t)[2..] == t && ("{}" + u)[2..] == u;
    }
  }

  /** How a printed dictionary begins. */
  lemma {:induction false} DictBody(a: seq<Entry>, t: string)
    ensures var s := GoPrint(Dict(a)) + t;
            if a == [] then s == "{}" + t && s[1] == '}'
            else s == "{" + (EntryText(a[0]) + (EntriesText(a[1..]) + t)) && s[1] == '"'
  {
    if a != [] {
      var body := EntryText(a[0]) + (EntriesText(a[1..]) + t);
      Nested("{", EntryText(a[0]), EntriesText(a[1..]), t);
      assert body[0] == '"' && ("{" + body)[1] == body[0];
    }
  }

  /** How a printed value begins tells its kind. */
  lemma {:induction false} ValueHead(v: GoValue, t: string)
    ensures var c := (GoPrint(v) + t)[0];
            match v
            case Text(_) => c == '"'
            case Number(_) => IsDigit(c)
            case Dict(_) => c == '{'
  {
    if v.Number? {
      NatTextHead(v.n);
    }
  }

  lemma {:induction false} NumberSplit(m: nat, n: nat, t: string, u: string)
    requires NatText(m) + t == NatText(n) + u && Follows(t) && Follows(u)
    ensures m == n && t == u
  {
    MagnitudeRoundTrip(m, t);
    MagnitudeRoundTrip(n, u);
  }

  lemma {:induction false} ValueSplit(v: GoValue, w: GoValue, t: string, u: string)
    requires GoPrint(v) + t == GoPrint(w) + u && Follows(t) && Follows(u)
    ensures SameValue(v, w) && t == u
  {
    ValueHead(v, t);
    ValueHead(w, u);
    match (v, w)
    case (Text(a), Text(b)) => QuoteSplit(a, b, t, u);
    case (Number(m), Number(n)) => NumberSplit(m, n, t, u);
    case (Dict(a), Dict(b)) => DictSplit(a, b, t, u);
    case _ => assert false;
  }

  lemma {:induction false} FieldSplit(f: GoField, g: GoField, t: string, u: string)
    requires f.name == g.name && FieldText(f) + t == FieldText(g) + u && Follows(t) && Follows(u)
    ensures SameValue(f.value, g.value) && t == u
  {
    Nested(Quote(GoMarshal, f.name), ":", GoPrint(f.value), t);
    Nested(Quote(GoMarshal, f.name), ":", GoPrint(g.value), u);
    DropHead(Quote(GoMarshal, f.name), ":" + (GoPrint(f.value) + t), ":" + (GoPrint(g.value) + u));
    DropFirst(':', GoPrint(f.value) + t, GoPrint(g.value) + u);
    ValueSplit(f.value, g.value, t, u);
  }

  lemma {:induction false} DropHead(head: string, t: string, u: string)
    requires head + t == head + u
    ensures t == u
  {
    assert (head + t)[|head|..] == t && (head + u)[|head|..] == u;
  }

  /** Field lists that agree on names as far as both go and have one text have the same fields. */
  lemma {:induction false} FieldsSplit(fs: seq<GoField>, gs: seq<GoField>)
    requires forall i :: 0 <= i < |fs| && i < |gs| ==> fs[i].name == gs[i].name
    requires FieldsText(fs) == FieldsText(gs)
    ensures SameFields(fs, gs)
  {
    if fs != [] && gs != [] {
      var t, u := FieldsText(fs[1..]), FieldsText(gs[1..]);
      DropFirst(',', FieldText(fs[0]) + t, FieldText(gs[0]) + u);
      FieldSplit(fs[0], gs[0], t, u);
      FieldsSplit(fs[1..], gs[1..]);
      SameFieldsLonger(fs, gs);
    }
  }

  lemma {:induction false} SameFieldsLonger(fs: seq<GoField>, gs: seq<GoField>)
    requires fs != [] && gs != [] && fs[0].name == gs[0].name && SameValue(fs[0].value, gs[0].value)
    requires SameFields(fs[1..], gs[1..])
    ensures SameFields(fs, gs)
  {
    forall i | 0 < i < |fs| ensures fs[i].name == gs[i].name && SameValue(fs[i].value, gs[i].value) {
      assert fs[i] == fs[1..][i - 1] && gs[i] == gs[1..][i - 1];
    }
  }

  lemma {:induction false} ObjectSplit(fs: seq<GoField>, gs: seq<GoField>)
    requires fs != [] && gs != []
    requires forall i :: 0 <= i < |fs| && i < |gs| ==> fs[i].name == gs[i].name
    requires ObjectText(fs) == ObjectText(gs)
    ensures SameFields(fs, gs)
  {
    var t, u := FieldsText(fs[1..]), FieldsText(gs[1..]);
    DropFirst('{', FieldText(fs[0]) + t, FieldText(gs[0]) + u);
    FieldSplit(fs[0], gs[0], t, u);
    FieldsSplit(fs[1..], gs[1..]);
    SameFieldsLonger(fs, gs);
  }

  // ----- Same values, same text -----

  lemma {:induction false} EntriesAgree(a: seq<Entry>, b: seq<Entry>)
    requires SameEntries(a, b)
    ensures EntriesText(a) == EntriesText(b)
  {
    if a != [] {
      EntriesAgree(a[1..], b[1..]);
    }
  }

  lemma {:induction false} ValueAgrees(v: GoValue, w: GoValue)
    requires SameValue(v, w)
    ensures GoPrint(v) == GoPrint(w)
  {
    if v.Dict? && v.entries != [] {
      EntriesAgree(v.entries[1..], w.entries[1..]);
    }
  }

  lemma {:induction false} FieldsAgree(fs: seq<GoField>, gs: seq<GoField>)
    requires SameFields(fs, gs)
    ensures FieldsText(fs) == FieldsText(gs)
  {
    if fs != [] {
      ValueAgrees(fs[0].value, gs[0].value);
      FieldsAgree(fs[1..], gs[1..]);
    }
  }

  /** Objects with the same names share a text exactly when their values agree unit by unit. */
  lemma {:induction false} ObjectExactly(fs: seq<GoField>, gs: seq<GoField>)
    requires fs != [] && gs != []
    requires forall i :: 0 <= i < |fs| && i < |gs| ==> fs[i].name == gs[i].name
    ensures ObjectText(fs) == ObjectText(gs) <==> SameFields(fs, gs)
  {
    if ObjectText(fs) == ObjectText(gs) {
      ObjectSplit(fs, gs);
    }
    if SameFields(fs, gs) {
      ValueAgrees(fs[0].value, gs[0].value);
      FieldsAgree(fs[1..], gs[1..]);
    }
  }

  // ----- Valid strings: the text is the JSON of the values -----

  predicate ValidEntry(e: Entry) {
    Utf8.Decode(e.key).Some? && Utf8.Decode(e.value).Some?
  }

  predicate ValidValue(v: GoValue) {
    match v
    case Text(b) => Utf8.Decode(b).Some?
    case Number(_) => true
    case Dict(es) => forall i :: 0 <= i < |es| ==> ValidEntry(es[i])
  }

  function LiftEntry(e: Entry): Field
    requires ValidEntry(e)
  {
    Field(Utf8.Decode(e.key).value, Str(Utf8.Decode(e.value).value))
  }

  function LiftEntries(es: seq<Entry>): (fs: Fields)
    requires forall i :: 0 <= i < |es| ==> ValidEntry(es[i])
    ensures |fs| == |es| && forall i :: 0 <= i < |es| ==> fs[i] == LiftEntry(es[i])
  {
    if es == [] then [] else [LiftEntry(es[0])] + LiftEntries(es[1..])
  }

  function LiftValue(v: GoValue): Json
    requires ValidValue(v)
  {
    match v
    case Text(b) => Str(Utf8.Decode(b).value)
    case Number(n) => Num(n)
    case Dict(es) => Obj(LiftEntries(es))
  }

  function LiftFields(fs: seq<GoField>): (r: Fields)
    requires forall i :: 0 <= i < |fs| ==> ValidValue(fs[i].value)
    ensures |r| == |fs| && forall i :: 0 <= i < |fs| ==> r[i] == Field(fs[i].name, LiftValue(fs[i].value))
  {
    if fs == [] then [] else [Field(fs[0].name, LiftValue(fs[0].value))] + LiftFields(fs[1..])
  }

  lemma {:induction false} EscapeChars(s: string)
    ensures EscapeUnits(Chars(s)) == EscapeAll(GoMarshal, s)
  {
    if s != "" {
      EscapeChars(s[1..]);
      assert Chars(s)[1..] == Chars(s[1..]);
    }
  }

  lemma {:induction false} QuoteValid(b: Bytes)
    requires Utf8.Decode(b).Some?
    ensures GoQuote(b) == Quote(GoMarshal, Utf8.Decode(b).value)
  {
    var s := Utf8.Decode(b).value;
    UnitsExactly(b, s);
    EscapeChars(s);
  }

  lemma {:induction false} EntryValid(e: Entry)
    requires ValidEntry(e)
    ensures EntryText(e) == PrintField(GoMarshal, LiftEntry(e))
  {
    QuoteValid(e.key);
    QuoteValid(e.value);
    Flat(GoQuote(e.key), ":", GoQuote(e.value));
  }

  lemma {:induction false} Flat(a: string, b: string, c: string)
    ensures a + (b + c) == a + b + c
  {
  }

  lemma {:induction false} EntriesValid(es: seq<Entry>)
    requires forall i :: 0 <= i < |es| ==> ValidEntry(es[i])
    ensures EntriesText(es) == PrintFields(GoMarshal, LiftEntries(es))
  {
    if es != [] {
      EntryValid(es[0]);
      EntriesValid(es[1..]);
      assert LiftEntries(es)[1..] == LiftEntries(es[1..]);
      Flat(",", EntryText(es[0]), EntriesText(es[1..]));
    }
  }

  lemma {:induction false} ValueValid(v: GoValue)
    requires ValidValue(v)
    ensures GoPrint(v) == Print(GoMarshal, LiftValue(v))
  {
    match v
    case Text(b) => QuoteValid(b);
    case Number(n) =>
    case Dict(es) =>
      if es != [] {
        EntryValid(es[0]);
        EntriesValid(es[1..]);
        assert LiftEntries(es)[1..] == LiftEntries(es[1..]);
        Flat("{", EntryText(es[0]), EntriesText(es[1..]));
      }
  }

  lemma {:induction false} FieldValid(f: GoField)
    requires ValidValue(f.value)
    ensures FieldText(f) == PrintField(GoMarshal, Field(f.name, LiftValue(f.value)))
  {
    ValueValid(f.value);
    Flat(Quote(GoMarshal, f.name), ":", GoPrint(f.value));
  }

  lemma {:induction false} FieldsValid(fs: seq<GoField>)
    requires forall i :: 0 <= i < |fs| ==> ValidValue(fs[i].value)
    ensures FieldsText(fs) == PrintFields(GoMarshal, LiftFields(fs))
  {
    if fs != [] {
      FieldValid(fs[0]);
      FieldsValid(fs[1..]);
      assert LiftFields(fs)[1..] == LiftFields(fs[1..]);
      Flat(",", FieldText(fs[0]), FieldsText(fs[1..]));
    }
  }

  lemma {:induction false} PrintObject(fs: Fields)
    requires fs != []
    ensures Print(GoMarshal, Obj(fs)) == "{" + PrintField(GoMarshal, fs[0]) + PrintFields(GoMarshal, fs[1..])
  {
  }

  lemma {:induction false} LiftTail(fs: seq<GoField>)
    requires fs != [] && forall i :: 0 <= i < |fs| ==> ValidValue(fs[i].value)
    ensures LiftFields(fs)[0] == Field(fs[0].name, LiftValue(fs[0].value))
    ensures LiftFields(fs)[1..] == LiftFields(fs[1..])
  {
  }

  /** With valid strings the text is the JSON object of the fields, as its printer writes it. */
  lemma {:induction false} ObjectValid(fs: seq<GoField>)
    requires fs != [] && forall i :: 0 <= i < |fs| ==> ValidValue(fs[i].value)
    ensures ObjectText(fs) == Print(GoMarshal, Obj(LiftFields(fs)))
  {
    LiftTail(fs);
    FieldValid(fs[0]);
    FieldsValid(fs[1..]);
    Flat("{", FieldText(fs[0]), FieldsText(fs[1..]));
    PrintObject(LiftFields(fs));
  }
}

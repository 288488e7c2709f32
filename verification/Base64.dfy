/**
 Base64 and base64url (sections 4 and 5 of RFC 4648). Decoding is CPython's binascii scanner,
 a four-state automaton over the text that skips foreign characters unless it is strict.
 */
module Base64 {
  import opened Wrappers
  import opened Utf8

  type Sextet = n: int | 0 <= n < 64

  // ----- The two alphabets -----

  function StdChar(n: Sextet): (c: char)
    ensures c != '='
  {
    if n < 26 then 'A' + n as char
    else if n < 52 then 'a' + (n - 26) as char
    else if n < 62 then '0' + (n - 52) as char
    else if n == 62 then '+'
    else '/'
  }

  function UrlChar(n: Sextet): char {
    if n == 62 then '-' else if n == 63 then '_' else StdChar(n)
  }

  /** The value of a character of the standard alphabet, -1 for any other character. */
  function StdValue(c: char): (n: int)
    ensures -1 <= n < 64
    ensures n >= 0 ==> StdChar(n) == c
  {
    if 'A' <= c <= 'Z' then c as int - 'A' as int
    else if 'a' <= c <= 'z' then c as int - 'a' as int + 26
    else if '0' <= c <= '9' then c as int - '0' as int + 52
    else if c == '+' then 62
    else if c == '/' then 63
    else -1
  }

  /** The translation that precedes decoding with the url alphabet. */
  function FromUrl(c: char): char {
    if c == '-' then '+' else if c == '_' then '/' else c
  }

  predicate UrlAlphabet(c: char) {
    'A' <= c <= 'Z' || 'a' <= c <= 'z' || '0' <= c <= '9' || c == '-' || c == '_'
  }

  lemma {:induction false} CharValues(n: Sextet)
    ensures StdValue(StdChar(n)) == n
    ensures FromUrl(UrlChar(n)) == StdChar(n) && UrlAlphabet(UrlChar(n))
  {
  }

  lemma {:induction false} ValueChars(c: char)
    requires UrlAlphabet(c)
    ensures StdValue(FromUrl(c)) >= 0 && UrlChar(StdValue(FromUrl(c))) == c
  {
  }

  // ----- Three bytes as four sextets -----

  function Six0(x: Byte): Sextet { x / 4 }
  function Six1(x: Byte, y: Byte): Sextet { x % 4 * 16 + y / 16 }
  function Six2(y: Byte, z: Byte): Sextet { y % 16 * 4 + z / 64 }
  function Six3(z: Byte): Sextet { z % 64 }

  function Byte0(a: Sextet, b: Sextet): Byte { a * 4 + b / 16 }
  function Byte1(b: Sextet, c: Sextet): Byte { b % 16 * 16 + c / 4 }
  function Byte2(c: Sextet, d: Sextet): Byte { c % 4 * 64 + d }

  lemma {:induction false} SplitJoin(x: Byte, y: Byte, z: Byte)
    ensures Byte0(Six0(x), Six1(x, y)) == x
    ensures Byte1(Six1(x, y), Six2(y, z)) == y
    ensures Byte2(Six2(y, z), Six3(z)) == z
  {
    assert Six1(x, y) / 16 == x % 4 && Six1(x, y) % 16 == y / 16;
    assert Six2(y, z) / 4 == y % 16 && Six2(y, z) % 4 == z / 64;
  }

  lemma {:induction false} JoinSplit(a: Sextet, b: Sextet, c: Sextet, d: Sextet)
    ensures var x, y, z := Byte0(a, b), Byte1(b, c), Byte2(c, d);
            Six0(x) == a && Six1(x, y) == b && Six2(y, z) == c && Six3(z) == d
  {
    var x, y, z := Byte0(a, b), Byte1(b, c), Byte2(c, d);
    assert x / 4 == a && x % 4 == b / 16;
    assert y / 16 == b % 16 && y % 16 == c / 4;
    assert z / 64 == c % 4 && z % 64 == d;
  }

  // ----- Encoding -----

  function Sextets(b: Bytes): (r: seq<Sextet>) {
    if b == [] then []
    else if |b| == 1 then [Six0(b[0]), Six1(b[0], 0)]
    else if |b| == 2 then [Six0(b[0]), Six1(b[0], b[1]), Six2(b[1], 0)]
    else
      [Six0(b[0]), Six1(b[0], b[1]), Six2(b[1], b[2]), Six3(b[2])] + Sextets(b[3..])
  }

  function StdText(r: seq<Sextet>): (s: string)
    ensures |s| == |r| && forall i :: 0 <= i < |r| ==> s[i] == StdChar(r[i])
  {
    seq(|r|, i requires 0 <= i < |r| => StdChar(r[i]))
  }

  function UrlText(r: seq<Sextet>): (s: string)
    ensures |s| == |r| && forall i :: 0 <= i < |r| ==> s[i] == UrlChar(r[i])
  {
    seq(|r|, i requires 0 <= i < |r| => UrlChar(r[i]))
  }

  function Padding(n: nat): (s: string) {
    if n % 4 == 0 then "" else if n % 4 == 3 then "=" else if n % 4 == 2 then "==" else "==="
  }

  /** The padding fills the last group of four, with fewer than four characters. */
  lemma {:induction false} PaddingExactly(n: nat)
    ensures (n + |Padding(n)|) % 4 == 0 && |Padding(n)| < 4
    ensures forall i :: 0 <= i < |Padding(n)| ==> Padding(n)[i] == '='
  {
  }

  /** base64.b64encode(b).decode("ascii") */
  function EncodeStd(b: Bytes): string {
    var s := StdText(Sextets(b));
    s + Padding(|s|)
  }

  /** base64.urlsafe_b64encode(b).decode("ascii").rstrip("=") */
  function EncodeUrl(b: Bytes): string {
    UrlText(Sextets(b))
  }

  // ----- Decoding -----

  /**
   binascii.a2b_base64 from the middle of its input: `quad` characters of the current group
   were read, the last of them `last`, whose low bits are not yet emitted.
   */
  function Scan(s: string, strict: bool, quad: nat, last: Sextet, pads: nat): Option<Bytes>
    requires quad < 4
    decreases |s|
  {
    if s == "" then if quad == 0 then Some([]) else None
    else if s[0] == '=' then
      var seen := if quad >= 2 then pads + 1 else pads;
      if quad >= 2 && quad + seen >= 4 then
        if strict && |s| > 1 then None else Some([])
      else if strict && quad == 0 then None
      else Scan(s[1..], strict, quad, last, seen)
    else
      var v := StdValue(s[0]);
      if v < 0 then
        if strict then None else Scan(s[1..], strict, quad, last, pads)
      else if strict && pads > 0 then None
      else
        var rest :- Scan(s[1..], strict, (quad + 1) % 4, v, 0);
        Some(Emitted(quad, last, v) + rest)
  }

  /** The bytes completed by reading `v` as character number `quad` of its group. */
  function Emitted(quad: nat, last: Sextet, v: Sextet): Bytes
    requires quad < 4
  {
    if quad == 0 then []
    else if quad == 1 then [Byte0(last, v)]
    else if quad == 2 then [Byte1(last, v)]
    else [Byte2(last, v)]
  }

  function Translate(s: string): (r: string)
    ensures |r| == |s| && forall i :: 0 <= i < |s| ==> r[i] == FromUrl(s[i])
  {
    seq(|s|, i requires 0 <= i < |s| => FromUrl(s[i]))
  }

  /** The verifier's decoder: base64.urlsafe_b64decode after padding; None is a ValueError. */
  function DecodeLenient(s: string): Option<Bytes> {
    if !Ascii(s) then None
    else Scan(Translate(s + Padding(|s|)), false, 0, 0, 0)
  }

  /** The signing boundary's decoder: alphabet check, strict decoding, canonicality check. */
  function DecodeStrict(s: string): Option<Bytes> {
    if s == "" || exists i :: 0 <= i < |s| && !UrlAlphabet(s[i]) then None
    else
      var b :- Scan(Translate(s + Padding(|s|)), true, 0, 0, 0);
      if EncodeUrl(b) == s then Some(b) else None
  }

  /** base64.b64decode(s, validate=True) with the same-text check that follows it. */
  function DecodeStdCanonical(s: string): Option<Bytes> {
    if !Ascii(s) then None
    else
      var b :- Scan(s, true, 0, 0, 0);
      if EncodeStd(b) == s then Some(b) else None
  }

  // ----- What the lenient scanner skips -----

  /** A character outside the alphabet is as if it were not there, wherever it stands. */
  lemma {:induction false} ForeignSkipped(a: string, c: char, b: string, quad: nat, last: Sextet, pads: nat)
    requires quad < 4 && c != '=' && StdValue(c) < 0
    ensures Scan(a + ([c] + b), false, quad, last, pads) == Scan(a + b, false, quad, last, pads)
    decreases |a|
  {
    if a == "" {
      assert a + ([c] + b) == [c] + b && a + b == b;
      assert ([c] + b)[1..] == b;
    } else {
      var rest := a[1..];
      assert (a + ([c] + b))[1..] == rest + ([c] + b) && (a + b)[1..] == rest + b;
      if a[0] == '=' {
        ForeignSkipped(rest, c, b, quad, last, if quad >= 2 then pads + 1 else pads);
      } else if StdValue(a[0]) < 0 {
        ForeignSkipped(rest, c, b, quad, last, pads);
      } else {
        ForeignSkipped(rest, c, b, (quad + 1) % 4, StdValue(a[0]), 0);
      }
    }
  }

  // ----- The scanner undoes the encoder -----

  function Prepend(b: Bytes, r: Option<Bytes>): Option<Bytes> {
    match r
    case None => None
    case Some(rest) => Some(b + rest)
  }

  lemma {:induction false} ScanOne(v: Sextet, t: string, strict: bool, quad: nat, last: Sextet)
    requires quad < 4
    ensures Scan([StdChar(v)] + t, strict, quad, last, 0) ==
            Prepend(Emitted(quad, last, v), Scan(t, strict, (quad + 1) % 4, v, 0))
  {
    CharValues(v);
    assert ([StdChar(v)] + t)[1..] == t;
  }

  /** The first two characters of a group. */
  lemma {:induction false} ScanFirst(a: Sextet, b: Sextet, t: string, strict: bool)
    ensures Scan([StdChar(a)] + ([StdChar(b)] + t), strict, 0, 0, 0) == Prepend([Byte0(a, b)], Scan(t, strict, 2, b, 0))
  {
    ScanOne(a, [StdChar(b)] + t, strict, 0, 0);
    ScanOne(b, t, strict, 1, a);
    PrependNone(Prepend([Byte0(a, b)], Scan(t, strict, 2, b, 0)));
  }

  /** Its last two. */
  lemma {:induction false} ScanLast(b: Sextet, c: Sextet, d: Sextet, t: string, strict: bool)
    ensures Scan([StdChar(c)] + ([StdChar(d)] + t), strict, 2, b, 0)
         == Prepend([Byte1(b, c)], Prepend([Byte2(c, d)], Scan(t, strict, 0, d, 0)))
  {
    ScanOne(c, [StdChar(d)] + t, strict, 2, b);
    ScanOne(d, t, strict, 3, c);
  }

  lemma {:induction false} ScanGroup(a: Sextet, b: Sextet, c: Sextet, d: Sextet, t: string, strict: bool)
    ensures Scan([StdChar(a), StdChar(b), StdChar(c), StdChar(d)] + t, strict, 0, 0, 0) ==
            Prepend([Byte0(a, b), Byte1(b, c), Byte2(c, d)], Scan(t, strict, 0, d, 0))
  {
    var back := [StdChar(c)] + ([StdChar(d)] + t);
    assert [StdChar(a), StdChar(b), StdChar(c), StdChar(d)] + t == [StdChar(a)] + ([StdChar(b)] + back);
    ScanFirst(a, b, back, strict);
    ScanLast(b, c, d, t, strict);
    PrependAll(Byte0(a, b), Byte1(b, c), Byte2(c, d), Scan(t, strict, 0, d, 0));
  }

  lemma {:induction false} PrependNone(r: Option<Bytes>)
    ensures Prepend([], r) == r
  {
    if r.Some? {
      assert [] + r.value == r.value;
    }
  }

  lemma {:induction false} PrependAll(x: Byte, y: Byte, z: Byte, r: Option<Bytes>)
    ensures Prepend([x], Prepend([y], Prepend([z], r))) == Prepend([x, y, z], r)
  {
    if r.Some? {
      assert [x] + ([y] + ([z] + r.value)) == [x, y, z] + r.value;
    }
  }

  /** At a group boundary the previous character no longer matters. */
  lemma {:induction false} ScanFresh(s: string, strict: bool, last: Sextet)
    ensures Scan(s, strict, 0, last, 0) == Scan(s, strict, 0, 0, 0)
    decreases |s|
  {
    if s != "" && (s[0] == '=' || StdValue(s[0]) < 0) {
      ScanFresh(s[1..], strict, last);
    }
  }

  lemma {:induction false} ScanPads(strict: bool, last: Sextet)
    ensures Scan("=", strict, 3, last, 0) == Some([])
    ensures Scan("==", strict, 2, last, 0) == Some([])
  {
    assert "=="[1..] == "=";
    assert Scan("=", strict, 2, last, 1) == Some([]);
  }

  lemma {:induction false} ScanTail2(a: Sextet, b: Sextet, strict: bool)
    ensures Scan([StdChar(a), StdChar(b)] + "==", strict, 0, 0, 0) == Some([Byte0(a, b)])
  {
    assert [StdChar(a), StdChar(b)] + "==" == [StdChar(a)] + ([StdChar(b)] + "==");
    ScanFirst(a, b, "==", strict);
    ScanPads(strict, b);
    assert [Byte0(a, b)] + [] == [Byte0(a, b)];
  }

  lemma {:induction false} ScanTail3(a: Sextet, b: Sextet, c: Sextet, strict: bool)
    ensures Scan([StdChar(a), StdChar(b), StdChar(c)] + "=", strict, 0, 0, 0)
         == Some([Byte0(a, b), Byte1(b, c)])
  {
    var back := [StdChar(c)] + "=";
    assert [StdChar(a), StdChar(b), StdChar(c)] + "=" == [StdChar(a)] + ([StdChar(b)] + back);
    ScanFirst(a, b, back, strict);
    ScanThird(b, c, strict);
    assert [Byte0(a, b)] + [Byte1(b, c)] == [Byte0(a, b), Byte1(b, c)];
  }

  lemma {:induction false} ScanThird(b: Sextet, c: Sextet, strict: bool)
    ensures Scan([StdChar(c)] + "=", strict, 2, b, 0) == Some([Byte1(b, c)])
  {
    ScanOne(c, "=", strict, 2, b);
    ScanPads(strict, c);
    assert [Byte1(b, c)] + [] == [Byte1(b, c)];
  }

  lemma {:induction false} EncodeStdGroup(b: Bytes)
    requires |b| >= 3
    ensures EncodeStd(b) == [StdChar(Six0(b[0])), StdChar(Six1(b[0], b[1])),
                             StdChar(Six2(b[1], b[2])), StdChar(Six3(b[2]))] + EncodeStd(b[3..])
  {
    var q := Sextets(b[3..]);
    StdTextGroup(Six0(b[0]), Six1(b[0], b[1]), Six2(b[1], b[2]), Six3(b[2]), q);
    PaddingGroup(|q|);
  }

  lemma {:induction false} StdTextGroup(a: Sextet, b: Sextet, c: Sextet, d: Sextet, q: seq<Sextet>)
    ensures StdText([a, b, c, d] + q) == [StdChar(a), StdChar(b), StdChar(c), StdChar(d)] + StdText(q)
  {
  }

  lemma {:induction false} PaddingGroup(n: nat)
    ensures Padding(4 + n) == Padding(n)
  {
  }

  lemma {:induction false} EncodeStdShort(x: Byte, y: Byte)
    ensures EncodeStd([x]) == [StdChar(Six0(x)), StdChar(Six1(x, 0))] + "=="
    ensures EncodeStd([x, y]) == [StdChar(Six0(x)), StdChar(Six1(x, y)), StdChar(Six2(y, 0))] + "="
  {
  }

  /** Either mode of the scanner recovers the bytes from their padded encoding. */
  lemma {:induction false} ScanEncoded(b: Bytes, strict: bool)
    ensures Scan(EncodeStd(b), strict, 0, 0, 0) == Some(b)
    decreases |b|
  {
    if |b| >= 3 {
      ScanEncoded(b[3..], strict);
      ScanEncodedGroup(b, strict);
    } else if |b| == 2 {
      ScanEncodedTwo(b[0], b[1], strict);
      assert b == [b[0], b[1]];
    } else if |b| == 1 {
      ScanEncodedOne(b[0], strict);
      assert b == [b[0]];
    } else {
      assert EncodeStd([]) == "";
    }
  }

  lemma {:induction false} ScanEncodedOne(x: Byte, strict: bool)
    ensures Scan(EncodeStd([x]), strict, 0, 0, 0) == Some([x])
  {
    SplitJoin(x, 0, 0);
    EncodeStdShort(x, 0);
    ScanTail2(Six0(x), Six1(x, 0), strict);
  }

  lemma {:induction false} ScanEncodedTwo(x: Byte, y: Byte, strict: bool)
    ensures Scan(EncodeStd([x, y]), strict, 0, 0, 0) == Some([x, y])
  {
    SplitJoin(x, y, 0);
    EncodeStdShort(x, y);
    ScanTail3(Six0(x), Six1(x, y), Six2(y, 0), strict);
  }

  lemma {:induction false} ScanEncodedGroup(b: Bytes, strict: bool)
    requires |b| >= 3 && Scan(EncodeStd(b[3..]), strict, 0, 0, 0) == Some(b[3..])
    ensures Scan(EncodeStd(b), strict, 0, 0, 0) == Some(b)
  {
    var x, y, z := b[0], b[1], b[2];
    var t := EncodeStd(b[3..]);
    SplitJoin(x, y, z);
    EncodeStdGroup(b);
    ScanFresh(t, strict, Six3(z));
    ScanGroup(Six0(x), Six1(x, y), Six2(y, z), Six3(z), t, strict);
    assert b == [x, y, z] + b[3..];
  }

  lemma {:induction false} TranslateUrl(b: Bytes)
    ensures Translate(EncodeUrl(b) + Padding(|EncodeUrl(b)|)) == EncodeStd(b)
    ensures forall i :: 0 <= i < |EncodeUrl(b)| ==> UrlAlphabet(EncodeUrl(b)[i])
  {
    var r := Sextets(b);
    forall i | 0 <= i < |r|
      ensures FromUrl(UrlChar(r[i])) == StdChar(r[i]) && UrlAlphabet(UrlChar(r[i]))
    {
      CharValues(r[i]);
    }
  }

  lemma {:induction false} SextetsLength(b: Bytes)
    ensures |Sextets(b)| == |b| / 3 * 4 + (if |b| % 3 == 0 then 0 else |b| % 3 + 1)
    decreases |b|
  {
    if |b| >= 3 { SextetsLength(b[3..]); }
  }

  // ----- Main results -----

  /** The strict decoder accepts exactly the non-empty outputs of the encoder, as their inverse. */
  lemma {:induction false} StrictExactly(s: string, b: Bytes)
    ensures DecodeStrict(s) == Some(b) <==> b != [] && s == EncodeUrl(b)
  {
    ScanEncoded(b, true);
    TranslateUrl(b);
    SextetsLength(b);
  }

  lemma {:induction false} EncodeUrlInjective(a: Bytes, b: Bytes)
    requires EncodeUrl(a) == EncodeUrl(b)
    ensures a == b
  {
    TranslateUrl(a);
    TranslateUrl(b);
    ScanEncoded(a, true);
    ScanEncoded(b, true);
  }

  /** The verifier's lenient decoder reads every encoder output, and so every strict text, alike. */
  lemma {:induction false} LenientAgrees(s: string)
    ensures DecodeStrict(s).Some? ==> DecodeLenient(s) == DecodeStrict(s)
  {
    if DecodeStrict(s).Some? {
      StrictExactly(s, DecodeStrict(s).value);
      LenientReads(DecodeStrict(s).value);
    }
  }

  lemma {:induction false} LenientReads(b: Bytes)
    ensures DecodeLenient(EncodeUrl(b)) == Some(b)
  {
    TranslateUrl(b);
    ScanEncoded(b, false);
    forall i | 0 <= i < |EncodeUrl(b)| ensures EncodeUrl(b)[i] as int < 128 {
      assert UrlAlphabet(EncodeUrl(b)[i]);
    }
  }

  /** The canonical standard decoder accepts exactly the encoder's outputs. */
  lemma {:induction false} StdExactly(s: string, b: Bytes)
    ensures DecodeStdCanonical(s) == Some(b) <==> s == EncodeStd(b)
  {
    ScanEncoded(b, true);
  }

  // ----- Which texts are canonical -----

  /** The syntax of section 3.5 of RFC 4648: no lone character, and zero bits at the end. */
  predicate CanonicalText(s: string) {
    && (forall i :: 0 <= i < |s| ==> UrlAlphabet(s[i]))
    && |s| % 4 != 1
    && (|s| % 4 == 2 ==> StdValue(FromUrl(s[|s| - 1])) % 16 == 0)
    && (|s| % 4 == 3 ==> StdValue(FromUrl(s[|s| - 1])) % 4 == 0)
  }

  function Values(s: string): (r: seq<Sextet>)
    requires forall i :: 0 <= i < |s| ==> UrlAlphabet(s[i])
    ensures |r| == |s| && UrlText(r) == s
  {
    assert forall i :: 0 <= i < |s| ==>
        StdValue(FromUrl(s[i])) >= 0 && UrlChar(StdValue(FromUrl(s[i]))) == s[i] by {
      forall i | 0 <= i < |s|
        ensures StdValue(FromUrl(s[i])) >= 0 && UrlChar(StdValue(FromUrl(s[i]))) == s[i]
      {
        ValueChars(s[i]);
      }
    }
    seq(|s|, i requires 0 <= i < |s| => StdValue(FromUrl(s[i])))
  }

  predicate ZeroTail(r: seq<Sextet>) {
    |r| % 4 != 1 && (|r| % 4 == 2 ==> r[|r| - 1] % 16 == 0) && (|r| % 4 == 3 ==> r[|r| - 1] % 4 == 0)
  }

  /** The bytes a well-terminated sextet sequence stands for. */
  function Pack(r: seq<Sextet>): (b: Bytes)
    requires ZeroTail(r)
    decreases |r|
  {
    if r == [] then []
    else if |r| == 2 then [Byte0(r[0], r[1])]
    else if |r| == 3 then [Byte0(r[0], r[1]), Byte1(r[1], r[2])]
    else [Byte0(r[0], r[1]), Byte1(r[1], r[2]), Byte2(r[2], r[3])] + Pack(r[4..])
  }

  /** Three bytes packed from four sextets split back into them. */
  lemma {:induction false} SextetsGroup(a: Sextet, b: Sextet, c: Sextet, d: Sextet, rest: Bytes)
    ensures Sextets([Byte0(a, b), Byte1(b, c), Byte2(c, d)] + rest) == [a, b, c, d] + Sextets(rest)
  {
    var x, y, z := Byte0(a, b), Byte1(b, c), Byte2(c, d);
    JoinSplit(a, b, c, d);
    assert ([x, y, z] + rest)[3..] == rest;
  }

  lemma {:induction false} ZeroTailRest(r: seq<Sextet>)
    requires ZeroTail(r) && |r| >= 4
    ensures ZeroTail(r[4..]) && Pack(r) == [Byte0(r[0], r[1]), Byte1(r[1], r[2]), Byte2(r[2], r[3])] + Pack(r[4..])
  {
    TailOf(r);
  }

  lemma {:induction false} TailOf(r: seq<Sextet>)
    requires ZeroTail(r) && |r| >= 4
    ensures ZeroTail(r[4..])
  {
    var rest := r[4..];
    assert |rest| % 4 == |r| % 4;
    if rest != [] {
      assert rest[|rest| - 1] == r[|r| - 1];
    }
  }

  lemma {:induction false} SextetsPack(r: seq<Sextet>)
    requires ZeroTail(r)
    ensures Sextets(Pack(r)) == r
    decreases |r|
  {
    if |r| == 2 {
      JoinSplit(r[0], r[1], 0, 0);
    } else if |r| == 3 {
      JoinSplit(r[0], r[1], r[2], 0);
    } else if r != [] {
      ZeroTailRest(r);
      SextetsPack(r[4..]);
      SextetsGroup(r[0], r[1], r[2], r[3], Pack(r[4..]));
      assert r == [r[0], r[1], r[2], r[3]] + r[4..];
    }
  }

  /** The low bits of a final sextet are zero. */
  lemma {:induction false} LowBits(x: Byte, y: Byte)
    ensures Six1(x, 0) % 16 == 0 && Six2(y, 0) % 4 == 0
  {
    assert 0 / 16 == 0 && 0 / 64 == 0;
  }

  lemma {:induction false} ZeroTailLonger(a: Sextet, b: Sextet, c: Sextet, d: Sextet, rest: seq<Sextet>)
    requires ZeroTail(rest)
    ensures ZeroTail([a, b, c, d] + rest)
  {
    var r := [a, b, c, d] + rest;
    assert |r| % 4 == |rest| % 4;
    if rest != [] { assert r[|r| - 1] == rest[|rest| - 1]; }
  }

  lemma {:induction false} SextetsZeroTail(b: Bytes)
    ensures ZeroTail(Sextets(b))
    decreases |b|
  {
    if |b| >= 3 {
      SextetsZeroTail(b[3..]);
      ZeroTailLonger(Six0(b[0]), Six1(b[0], b[1]), Six2(b[1], b[2]), Six3(b[2]), Sextets(b[3..]));
    } else if |b| == 2 {
      LowBits(b[0], b[1]);
    } else if |b| == 1 {
      LowBits(b[0], 0);
    }
  }

  /** Acceptance by syntax alone: texts with a lone character or non-zero trailing bits are out. */
  lemma {:induction false} StrictBySyntax(s: string)
    ensures DecodeStrict(s).Some? <==> s != "" && CanonicalText(s)
  {
    if s != "" && CanonicalText(s) {
      var r := Values(s);
      SextetsPack(r);
      StrictExactly(s, Pack(r));
    }
    if DecodeStrict(s).Some? {
      var b := DecodeStrict(s).value;
      StrictExactly(s, b);
      SextetsZeroTail(b);
      TranslateUrl(b);
      var last := Sextets(b)[|s| - 1];
      CharValues(last);
    }
  }
}

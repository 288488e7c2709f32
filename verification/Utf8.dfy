/** str.encode("utf-8") and the strict bytes.decode("utf-8") on Unicode scalar values. */
module Utf8 {
  import opened Wrappers

  function EncodeChar(c: char): (b: Bytes)
    ensures 1 <= |b| <= 4
  {
    var n := c as int;
    if n < 0x80 then [n]
    else if n < 0x800 then [0xC0 + n / 64, 0x80 + n % 64]
    else if n < 0x10000 then [0xE0 + n / 4096, 0x80 + n / 64 % 64, 0x80 + n % 64]
    else [0xF0 + n / 262144, 0x80 + n / 4096 % 64, 0x80 + n / 64 % 64, 0x80 + n % 64]
  }

  function Encode(s: string): Bytes {
    if s == "" then [] else EncodeChar(s[0]) + Encode(s[1..])
  }

  /** The length of the encoding. */
  function Size(s: string): nat {
    if s == "" then 0 else CharSize(s[0]) + Size(s[1..])
  }

  function CharSize(c: char): nat {
    if c as int < 0x80 then 1 else if c as int < 0x800 then 2 else if c as int < 0x10000 then 3 else 4
  }

  lemma {:induction false} SizeExactly(s: string)
    ensures Size(s) == |Encode(s)|
  {
    if s != "" {
      SizeExactly(s[1..]);
    }
  }

  predicate Continuation(b: Byte) {
    0x80 <= b < 0xC0
  }

  predicate Scalar(n: int) {
    0 <= n < 0xD800 || 0xE000 <= n < 0x110000
  }

  /** Appending the six payload bits of a continuation byte. */
  function Append(high: int, b: Byte): int {
    high * 64 + (b - 0x80)
  }

  /** The first character and its length; overlong forms and surrogates are malformed. */
  function DecodeChar(b: Bytes): (r: Option<(char, nat)>)
    ensures r.Some? ==> 1 <= r.value.1 <= |b| && r.value.1 <= 4
  {
    if b == [] then None
    else if b[0] < 0x80 then Some((b[0] as char, 1))
    else if 0xC0 <= b[0] < 0xE0 && |b| >= 2 && Continuation(b[1]) then
      var n := Append(b[0] - 0xC0, b[1]);
      if n >= 0x80 then Some((n as char, 2)) else None
    else if 0xE0 <= b[0] < 0xF0 && |b| >= 3 && Continuation(b[1]) && Continuation(b[2]) then
      var n := Append(Append(b[0] - 0xE0, b[1]), b[2]);
      if n >= 0x800 && Scalar(n) then Some((n as char, 3)) else None
    else if 0xF0 <= b[0] && |b| >= 4 && Continuation(b[1]) && Continuation(b[2]) && Continuation(b[3]) then
      var n := Append(Append(Append(b[0] - 0xF0, b[1]), b[2]), b[3]);
      if n >= 0x10000 && Scalar(n) then Some((n as char, 4)) else None
    else None
  }

  function Decode(b: Bytes): Option<string> {
    if b == [] then Some("")
    else
      var (c, k) :- DecodeChar(b);
      var rest :- Decode(b[k..]);
      Some([c] + rest)
  }

  lemma {:induction false} SixBitDigits(n: nat)
    ensures n == n / 64 * 64 + n % 64
    ensures n / 4096 == n / 64 / 64 && n / 262144 == n / 64 / 64 / 64
  {
  }

  lemma {:induction false} CharRoundTrip(c: char, t: Bytes)
    ensures DecodeChar(EncodeChar(c) + t) == Some((c, |EncodeChar(c)|))
  {
    var n := c as int;
    SixBitDigits(n);
    SixBitDigits(n / 64);
    SixBitDigits(n / 4096);
    var e := EncodeChar(c);
    assert forall i :: 0 <= i < |e| ==> (e + t)[i] == e[i];
  }

  lemma {:induction false} CharCanonical(b: Bytes)
    requires DecodeChar(b).Some?
    ensures var (c, k) := DecodeChar(b).value; b[..k] == EncodeChar(c)
  {
    var (c, k) := DecodeChar(b).value;
    var n := c as int;
    SixBitDigits(n);
    SixBitDigits(n / 64);
    SixBitDigits(n / 4096);
    if k == 2 {
      AppendDigits(b[0] - 0xC0, b[1]);
    } else if k == 3 {
      AppendDigits(Append(b[0] - 0xE0, b[1]), b[2]);
      AppendDigits(b[0] - 0xE0, b[1]);
    } else if k == 4 {
      AppendDigits(Append(Append(b[0] - 0xF0, b[1]), b[2]), b[3]);
      AppendDigits(Append(b[0] - 0xF0, b[1]), b[2]);
      AppendDigits(b[0] - 0xF0, b[1]);
    }
  }

  lemma {:induction false} AppendDigits(high: int, b: Byte)
    requires Continuation(b)
    ensures Append(high, b) / 64 == high && 0x80 + Append(high, b) % 64 == b
  {
  }

  /** Decoding undoes encoding. */
  lemma {:induction false} DecodeEncode(s: string)
    ensures Decode(Encode(s)) == Some(s)
  {
    if s != "" {
      CharRoundTrip(s[0], Encode(s[1..]));
      assert Encode(s)[|EncodeChar(s[0])|..] == Encode(s[1..]);
      DecodeEncode(s[1..]);
      assert s == [s[0]] + s[1..];
    }
  }

  /** There is one byte form per text: decodable bytes are the encoding of what they decode to. */
  lemma {:induction false} EncodeDecode(b: Bytes)
    requires Decode(b).Some?
    ensures Encode(Decode(b).value) == b
    decreases |b|
  {
    if b != [] {
      var (c, k) := DecodeChar(b).value;
      var rest := Decode(b[k..]).value;
      CharCanonical(b);
      EncodeDecode(b[k..]);
      EncodeJoin(b, c, k, rest);
    }
  }

  lemma {:induction false} EncodeJoin(b: Bytes, c: char, k: nat, rest: string)
    requires k <= |b| && b[..k] == EncodeChar(c) && b[k..] == Encode(rest)
    ensures Encode([c] + rest) == b
  {
    assert ([c] + rest)[1..] == rest;
    assert b == b[..k] + b[k..];
  }

  lemma {:induction false} EncodeInjective(s: string, t: string)
    requires Encode(s) == Encode(t)
    ensures s == t
  {
    DecodeEncode(s);
    DecodeEncode(t);
  }

  // ----- ASCII -----

  predicate Ascii(s: string) {
    forall i :: 0 <= i < |s| ==> s[i] as int < 128
  }

  /** str.encode("ascii"): None stands for the UnicodeEncodeError. */
  function EncodeAscii(s: string): (r: Option<Bytes>)
    ensures r.Some? <==> Ascii(s)
    ensures r.Some? ==> |r.value| == |s| && forall i :: 0 <= i < |s| ==> r.value[i] == s[i] as int
  {
    if !Ascii(s) then None
    else
      var b: Bytes := seq(|s|, i requires 0 <= i < |s| => s[i] as int);
      Some(b)
  }

  lemma {:induction false} AsciiIsUtf8(s: string)
    requires Ascii(s)
    ensures EncodeAscii(s) == Some(Encode(s))
  {
    if s != "" {
      AsciiIsUtf8(s[1..]);
      var a, b := EncodeAscii(s).value, EncodeAscii(s[1..]).value;
      assert a == [s[0] as int] + b;
    }
  }
}

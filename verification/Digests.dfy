/**
 SHA-256 digests in the prefixed form both languages use. The hash itself is a parameter; its
 values are 32 bytes long and nothing else is assumed of it.
 */
module Digests {
  import opened Wrappers
  import opened JsonText
  import Utf8

  type Digest = d: Bytes | |d| == 32 witness seq(32, _ => 0)

  type HashFunction = Bytes -> Digest

  function Hex(b: Bytes): (s: string)
    ensures |s| == 2 * |b|
  {
    if b == [] then "" else [HexDigit(b[0] / 16), HexDigit(b[0] % 16)] + Hex(b[1..])
  }

  function Urn(d: Digest): string {
    "sha256:" + Hex(d)
  }

  /** sha256_prefixed of text. */
  function HashText(sha: HashFunction, text: string): string {
    Urn(sha(Utf8.Encode(text)))
  }

  predicate LowerHex(c: char) {
    '0' <= c <= '9' || 'a' <= c <= 'f'
  }

  /** The pattern sha256: followed by exactly 64 lower-case hex characters. */
  predicate IsUrn(s: string) {
    "sha256:" <= s && |s| == 71 && forall i :: 7 <= i < |s| ==> LowerHex(s[i])
  }

  const ZERO_URN: string := "sha256:" + seq(64, _ => '0')

  lemma {:induction false} HexInjective(a: Bytes, b: Bytes)
    requires Hex(a) == Hex(b)
    ensures a == b
  {
    if a != [] && b != [] {
      var s, t := Hex(a), Hex(b);
      assert s[0] == t[0] && s[1] == t[1];
      HexRoundTrip(a[0] / 16);
      HexRoundTrip(a[0] % 16);
      HexRoundTrip(b[0] / 16);
      HexRoundTrip(b[0] % 16);
      assert s[2..] == Hex(a[1..]) && t[2..] == Hex(b[1..]);
      HexInjective(a[1..], b[1..]);
      assert a == [a[0]] + a[1..] && b == [b[0]] + b[1..];
    }
  }

  /** The two digits of each byte, the high one first. */
  lemma {:induction false} HexReads(b: Bytes, i: nat)
    requires i < |b|
    ensures HexValue(Hex(b)[2 * i]) * 16 + HexValue(Hex(b)[2 * i + 1]) == b[i]
  {
    if i == 0 {
      HexRoundTrip(b[0] / 16);
      HexRoundTrip(b[0] % 16);
    } else {
      HexReads(b[1..], i - 1);
      assert Hex(b)[2..] == Hex(b[1..]);
      assert Hex(b)[2 * i] == Hex(b[1..])[2 * (i - 1)] && Hex(b)[2 * i + 1] == Hex(b[1..])[2 * (i - 1) + 1];
    }
  }

  /** Every lower-case hex text of even length spells some bytes. */
  lemma {:induction false} HexOfSome(s: string) returns (b: Bytes)
    requires |s| % 2 == 0 && forall i :: 0 <= i < |s| ==> LowerHex(s[i])
    ensures Hex(b) == s
  {
    if s == "" {
      b := [];
    } else {
      var rest := HexOfSome(s[2..]);
      var high, low := HexValue(s[0]), HexValue(s[1]);
      b := [high * 16 + low] + rest;
      assert b[1..] == rest;
      HexDigitOf(s[0]);
      HexDigitOf(s[1]);
      assert b[0] / 16 == high && b[0] % 16 == low;
      assert s == [s[0], s[1]] + s[2..];
    }
  }

  lemma {:induction false} HexDigitOf(c: char)
    requires LowerHex(c)
    ensures HexValue(c) >= 0 && HexDigit(HexValue(c)) == c
  {
  }

  /** The pattern is met exactly by the computed hashes. */
  lemma {:induction false} UrnExactly(s: string)
    ensures IsUrn(s) <==> exists d: Digest :: s == Urn(d)
  {
    if IsUrn(s) {
      var b := HexOfSome(s[7..]);
      assert |Hex(b)| == 2 * |b|;
      var d: Digest := b;
      assert s == s[..7] + s[7..];
      assert s == Urn(d);
    }
    if d: Digest :| s == Urn(d) {
      UrnShape(d);
    }
  }

  lemma {:induction false} HexZeros(b: Bytes)
    requires forall i :: 0 <= i < |b| ==> b[i] == 0
    ensures forall i :: 0 <= i < |Hex(b)| ==> Hex(b)[i] == '0'
  {
    if b != [] {
      HexZeros(b[1..]);
    }
  }

  /** The first previous hash is the hash text of a digest of zero bytes. */
  lemma {:induction false} ZeroUrnSpells(d: Digest)
    requires forall i :: 0 <= i < |d| ==> d[i] == 0
    ensures ZERO_URN == Urn(d)
  {
    HexZeros(d);
    assert |Hex(d)| == 64;
  }

  lemma {:induction false} HexIsLower(b: Bytes)
    ensures forall i :: 0 <= i < |Hex(b)| ==> LowerHex(Hex(b)[i])
  {
    if b != [] { HexIsLower(b[1..]); }
  }

  /** A computed hash always has the pattern the verifier asks of a previous hash. */
  lemma {:induction false} UrnShape(d: Digest)
    ensures IsUrn(Urn(d))
  {
    HexIsLower(d);
    var s := Urn(d);
    assert forall i :: 7 <= i < |s| ==> s[i] == Hex(d)[i - 7];
  }

  lemma {:induction false} UrnInjective(a: Digest, b: Digest)
    requires Urn(a) == Urn(b)
    ensures a == b
  {
    assert Urn(a)[7..] == Hex(a) && Urn(b)[7..] == Hex(b);
    HexInjective(a, b);
  }

  /** Texts with equal prefixed hashes are equal, or their encodings collide under the hash. */
  lemma {:induction false} HashTextBinds(sha: HashFunction, s: string, t: string)
    requires HashText(sha, s) == HashText(sha, t)
    ensures s == t || (Utf8.Encode(s) != Utf8.Encode(t) && sha(Utf8.Encode(s)) == sha(Utf8.Encode(t)))
  {
    UrnInjective(sha(Utf8.Encode(s)), sha(Utf8.Encode(t)));
    if s != t && Utf8.Encode(s) == Utf8.Encode(t) {
      Utf8.EncodeInjective(s, t);
    }
  }
}

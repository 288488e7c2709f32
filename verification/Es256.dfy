/**
 The ES256 signature form of section 3.4 of RFC 7518: R and S as 32-byte big-endian integers,
 concatenated, with both scalars in the P-256 group range.
 */
module Es256 {
  import opened Wrappers
  import opened Base64

  const P256_ORDER: int := 0xffffffff00000000ffffffffffffffffbce6faada7179e84f3b9cac2fc632551

  function BigEndian(b: Bytes): (n: nat) {
    if b == [] then 0 else BigEndian(b[..|b| - 1]) * 256 + b[|b| - 1]
  }

  function ToBytes(n: nat, k: nat): (b: Bytes)
    ensures |b| == k
    decreases k
  {
    if k == 0 then [] else ToBytes(n / 256, k - 1) + [n % 256]
  }

  function Range(k: nat): nat {
    if k == 0 then 1 else 256 * Range(k - 1)
  }

  lemma {:induction false} ToBytesBigEndian(b: Bytes)
    ensures ToBytes(BigEndian(b), |b|) == b && BigEndian(b) < Range(|b|)
  {
    if b != [] {
      ToBytesBigEndian(b[..|b| - 1]);
      assert BigEndian(b) / 256 == BigEndian(b[..|b| - 1]);
      assert b == b[..|b| - 1] + [b[|b| - 1]];
    }
  }

  lemma {:induction false} BigEndianToBytes(n: nat, k: nat)
    requires n < Range(k)
    ensures BigEndian(ToBytes(n, k)) == n
    decreases k
  {
    if k > 0 {
      BigEndianToBytes(n / 256, k - 1);
      assert ToBytes(n, k)[..k - 1] == ToBytes(n / 256, k - 1);
    }
  }

  lemma {:induction false} OrderFits()
    ensures P256_ORDER < Range(32)
  {
    assert Range(4) == 0x1_0000_0000;
    assert Range(8) == 0x1_0000_0000_0000_0000;
    assert Range(12) == 0x1_0000_0000_0000_0000_0000_0000;
    assert Range(16) == 0x1_0000_0000_0000_0000_0000_0000_0000_0000;
    assert Range(20) == 0x1_0000_0000_0000_0000_0000_0000_0000_0000_0000_0000;
    assert Range(24) == 0x1_0000_0000_0000_0000_0000_0000_0000_0000_0000_0000_0000_0000;
    assert Range(28) == 0x1_0000_0000_0000_0000_0000_0000_0000_0000_0000_0000_0000_0000_0000_0000;
    assert Range(32) == 0x1_0000_0000_0000_0000_0000_0000_0000_0000_0000_0000_0000_0000_0000_0000_0000_0000;
  }

  /** The order as FIPS 186-4 gives it for curve P-256, in decimal. */
  lemma {:induction false} OrderDecimal()
    ensures P256_ORDER == 115792089210356248762697446949407573529996955224135760342422259061068512044369
  {
  }

  predicate InGroup(n: int) {
    1 <= n < P256_ORDER
  }

  /** Reading adds up the bytes, the first one counting most. */
  lemma {:induction false} BigEndianFirst(b: Bytes)
    requires b != []
    ensures BigEndian(b) == b[0] * Range(|b| - 1) + BigEndian(b[1..])
  {
    var n := |b| - 1;
    if n > 0 {
      BigEndianFirst(b[..n]);
      assert b[..n][1..] == b[1..][..n - 1];
      assert b[1..][n - 1] == b[n];
    } else {
      assert b[..0] == [] && b[1..] == [];
    }
  }

  /** The base64url text of a scalar pair. */
  function SignatureText(r: nat, s: nat): string {
    EncodeUrl(ToBytes(r, 32) + ToBytes(s, 32))
  }

  /** finalize's shape checks on the text an external signer returns. */
  predicate WellShaped(text: string) {
    match DecodeStrict(text)
    case None => false
    case Some(raw) =>
      |raw| == 64 && InGroup(BigEndian(raw[..32])) && InGroup(BigEndian(raw[32..]))
  }

  lemma {:induction false} PairBytes(r: nat, s: nat)
    requires r < Range(32) && s < Range(32)
    ensures var raw := ToBytes(r, 32) + ToBytes(s, 32);
            && |raw| == 64 && DecodeStrict(SignatureText(r, s)) == Some(raw)
            && BigEndian(raw[..32]) == r && BigEndian(raw[32..]) == s
  {
    var raw := ToBytes(r, 32) + ToBytes(s, 32);
    assert raw[..32] == ToBytes(r, 32) && raw[32..] == ToBytes(s, 32);
    BigEndianToBytes(r, 32);
    BigEndianToBytes(s, 32);
    StrictExactly(SignatureText(r, s), raw);
  }

  /** A text passes the shape checks exactly when it spells a pair of group scalars. */
  lemma {:induction false} WellShapedExactly(text: string)
    ensures WellShaped(text) <==> exists r: nat, s: nat ::
              1 <= r < P256_ORDER && 1 <= s < P256_ORDER && text == SignatureText(r, s)
  {
    OrderFits();
    if WellShaped(text) {
      var raw := DecodeStrict(text).value;
      StrictExactly(text, raw);
      ToBytesBigEndian(raw[..32]);
      ToBytesBigEndian(raw[32..]);
      assert raw == raw[..32] + raw[32..];
      assert text == SignatureText(BigEndian(raw[..32]), BigEndian(raw[32..]));
    }
    if r: nat, s: nat :| 1 <= r < P256_ORDER && 1 <= s < P256_ORDER && text == SignatureText(r, s) {
      PairBytes(r, s);
    }
  }

  /** No scalar pair has two spellings and no text spells two pairs. */
  lemma {:induction false} SignatureTextInjective(r: nat, s: nat, r': nat, s': nat)
    requires InGroup(r) && InGroup(s) && InGroup(r') && InGroup(s')
    ensures SignatureText(r, s) == SignatureText(r', s') <==> r == r' && s == s'
  {
    OrderFits();
    PairBytes(r, s);
    PairBytes(r', s');
  }
}

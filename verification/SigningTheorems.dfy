/** What the signing boundary admits and what attaching a signature preserves. */
module SigningTheorems {
  import opened Wrappers
  import opened JsonText
  import opened Json
  import opened Canonical
  import opened Digests
  import opened Base64
  import opened Receipts
  import opened ReceiptOrder
  import opened ExternalSigning
  import Es256
  import Utf8

  // ----- Text facts -----

  lemma {:induction false} EncodeUrlAscii(b: Bytes)
    ensures Utf8.Ascii(EncodeUrl(b))
  {
    TranslateUrl(b);
    forall i | 0 <= i < |EncodeUrl(b)| ensures EncodeUrl(b)[i] as int < 128 {
      assert UrlAlphabet(EncodeUrl(b)[i]);
    }
  }

  lemma {:induction false} UrnAscii(d: Digest)
    ensures Utf8.Ascii(Urn(d))
  {
    UrnShape(d);
    var s := Urn(d);
    forall i | 0 <= i < |s| ensures s[i] as int < 128 {
      if i < 7 { assert s[i] == "sha256:"[i]; } else { assert LowerHex(s[i]); }
    }
  }

  lemma {:induction false} EncodeNonEmpty(s: string)
    ensures Utf8.Encode(s) == [] <==> s == ""
  {
  }

  // ----- The header profile -----

  lemma {:induction false} ProfilePlain(keyId: string)
    ensures Plain(Obj(HeaderFields(keyId))) && SortDeep(Obj(HeaderFields(keyId))) == Obj(HeaderFields(keyId))
    ensures MatchesProfile(Obj(HeaderFields(keyId)), keyId) && Ascending(HeaderFields(keyId))
  {
    var fs := HeaderFields(keyId);
    assert fs[0].key[0] == 'a' && fs[1].key[0] == 'k' && fs[2].key[0] == 't';
    FindAt(fs, 0);
    FindAt(fs, 1);
    FindAt(fs, 2);
    SortDeepFixed(Obj(fs));
  }

  lemma {:induction false} FindIndex(fs: Fields, k: string) returns (i: nat)
    requires Find(fs, k).Some?
    ensures i < |fs| && fs[i] == Field(k, Find(fs, k).value)
  {
    if fs[0].key == k {
      i := 0;
    } else {
      i := FindIndex(fs[1..], k);
      i := i + 1;
    }
  }

  /** Three fields that include the three of the profile are those three in some order. */
  lemma {:induction false} ProfileMembers(fs: Fields, keyId: string)
    requires MatchesProfile(Obj(fs), keyId)
    ensures DistinctKeys(fs)
    ensures forall f :: f in fs <==> f in HeaderFields(keyId)
  {
    var hs := HeaderFields(keyId);
    var a := FindIndex(fs, "alg");
    var k := FindIndex(fs, "kid");
    var t := FindIndex(fs, "typ");
    assert "alg"[0] == 'a' && "kid"[0] == 'k' && "typ"[0] == 't';
    assert fs[a] == hs[0] && fs[k] == hs[1] && fs[t] == hs[2];
    assert a != k && a != t && k != t;
    forall f ensures f in fs <==> f in hs {
      if f in fs {
        var i :| 0 <= i < 3 && fs[i] == f;
        assert i == a || i == k || i == t;
      }
    }
  }

  /** A parsed header equal to the profile prints the profile's canonical text. */
  lemma {:induction false} ProfileText(header: Json, keyId: string)
    requires MatchesProfile(header, keyId)
    ensures Canonicalize(header) == Canonicalize(Obj(HeaderFields(keyId)))
  {
    var fs, hs := header.fields, HeaderFields(keyId);
    ProfileMembers(fs, keyId);
    ProfilePlain(keyId);
    forall i | 0 <= i < |fs| ensures SortDeep(fs[i].value) == fs[i].value {
      assert fs[i] in hs;
    }
    assert SortValues(fs) == fs;
    SortAscending(fs);
    forall g ensures g in SortFields(fs) <==> g in hs { SortMembers(fs, g); }
    AscendingUnique(SortFields(fs), hs);
  }

  lemma {:induction false} HeaderExactly(p: Prepared, bytes: Bytes)
    ensures ValidateHeader(p, bytes).None?
       <==> bytes == Utf8.Encode(Canonicalize(Obj(HeaderFields(p.request.keyId))))
  {
    var expected := Obj(HeaderFields(p.request.keyId));
    if ValidateHeader(p, bytes).None? {
      ProfileText(Loads(Utf8.Decode(bytes).value).value, p.request.keyId);
    }
    if bytes == Utf8.Encode(Canonicalize(expected)) {
      Utf8.DecodeEncode(Canonicalize(expected));
      ProfilePlain(p.request.keyId);
      CanonicalInverse(expected);
    }
  }

  // ----- One context per payload, key and role -----

  lemma {:induction false} SigningInputExactly(sha: HashFunction, p: Prepared)
    requires Utf8.Ascii(p.protectedText) && Utf8.Ascii(p.payloadText)
    ensures ValidateSigningInput(sha, p).None? <==>
            && p.signingInput == p.protectedText + "." + p.payloadText
            && p.request.digest == DigestText(sha, p.signingInput)
  {
    var input := p.protectedText + "." + p.payloadText;
    assert Utf8.Ascii(input);
    Utf8.AsciiIsUtf8(input);
    EncodeUrlAscii(sha(Utf8.Encode(input)));
  }

  lemma {:induction false} TextsExactly(sha: HashFunction, p: Prepared)
    ensures ValidateTexts(sha, p).None? <==>
            && p.payload != ""
            && p.protectedText == HeaderText(p.request.keyId)
            && p.payloadText == EncodeUrl(Utf8.Encode(p.payload))
            && p.signingInput == p.protectedText + "." + p.payloadText
            && p.request.digest == DigestText(sha, p.signingInput)
  {
    var header := Utf8.Encode(Canonicalize(Obj(HeaderFields(p.request.keyId))));
    var payload := Utf8.Encode(p.payload);
    CanonicalNonEmpty(Obj(HeaderFields(p.request.keyId)));
    EncodeNonEmpty(Canonicalize(Obj(HeaderFields(p.request.keyId))));
    EncodeNonEmpty(p.payload);
    StrictExactly(p.protectedText, header);
    StrictExactly(p.payloadText, payload);
    Utf8.DecodeEncode(p.payload);
    HeaderExactly(p, header);
    EncodeUrlAscii(header);
    EncodeUrlAscii(payload);
    if ValidateTexts(sha, p).None? {
      HeaderExactly(p, DecodeStrict(p.protectedText).value);
      Utf8.EncodeDecode(DecodeStrict(p.payloadText).value);
      StrictExactly(p.payloadText, DecodeStrict(p.payloadText).value);
      StrictExactly(p.protectedText, DecodeStrict(p.protectedText).value);
    }
    if p.protectedText == HeaderText(p.request.keyId) && p.payloadText == EncodeUrl(payload) {
      SigningInputExactly(sha, p);
    }
  }

  lemma {:induction false} CanonicalNonEmpty(v: Json)
    requires Plain(v)
    ensures Canonicalize(v) != ""
  {
    SortDeepShape(v);
    PrintHead(PythonDumps, SortDeep(v));
  }

  /** The validator admits exactly the context rebuilt from payload, key and role. */
  lemma {:induction false} PreparedExactly(sha: HashFunction, keyIdOk: string -> bool, p: Prepared)
    ensures ValidatePrepared(sha, keyIdOk, p).None? <==>
            && keyIdOk(p.request.keyId) && RoleOk(p.signerRole) && p.payload != ""
            && p == Build(sha, p.payload, p.request.keyId, p.signerRole)
  {
    TextsExactly(sha, p);
    UrnAscii(sha(Utf8.Encode(p.payload)));
  }

  // ----- When prepare and finalize succeed -----

  lemma {:induction false} PayloadNonEmpty(receipt: Fields)
    ensures UnsignedPayload(receipt) != ""
  {
  }

  predicate Ready(sha: HashFunction, keyIdOk: string -> bool, receipt: Fields, keyId: string, role: string) {
    && ShapeOk(receipt) && keyIdOk(keyId) && RoleOk(role)
    && !SignedByKey(receipt, keyId) && HashOpen(receipt, ReceiptHash(sha, receipt))
  }

  /** The guards, in the receipt's own fields: no entry of the key, and no other hash recorded. */
  lemma {:induction false} ReadyExactly(
    sha: HashFunction, keyIdOk: string -> bool, receipt: Fields, keyId: string, role: string)
    ensures Ready(sha, keyIdOk, receipt, keyId, role) <==>
            && Get(receipt, "chain").Obj? && Get(receipt, "signatures").Arr? && keyIdOk(keyId) && RoleOk(role)
            && (forall entry :: entry in Get(receipt, "signatures").items && entry.Obj? ==>
                  Get(entry.fields, "kid") != Str(keyId))
            && var recorded := Get(Get(receipt, "chain").fields, "receipt_hash");
               recorded == Null || recorded == Str("") || recorded == Str(ReceiptHash(sha, receipt))
  {
    if ShapeOk(receipt) {
      assert Entries(receipt) == Get(receipt, "signatures").items;
      assert SignedByKey(receipt, keyId) <==>
             exists entry :: entry in Entries(receipt) && entry.Obj? && Get(entry.fields, "kid") == Str(keyId);
    }
  }

  /** A role grows character by character: a letter or digit first, up to 128 of the role characters. */
  lemma {:induction false} RoleGrows(role: string, c: char)
    ensures RoleOk(role + [c]) <==>
            if role == "" then 'A' <= c <= 'Z' || 'a' <= c <= 'z' || '0' <= c <= '9'
            else
              && RoleOk(role) && |role| < 128
              && ('A' <= c <= 'Z' || 'a' <= c <= 'z' || '0' <= c <= '9' || c == '.' || c == '_' || c == ':' || c == '-')
    ensures !RoleOk("")
  {
    var longer := role + [c];
    assert forall i :: 0 <= i < |role| ==> longer[i] == role[i];
    assert longer[|role|] == c;
  }

  /** Prepare succeeds exactly when its guards hold; its own validation never rejects. */
  lemma {:induction false} PrepareExactly(sha: HashFunction, keyIdOk: string -> bool, receipt: Fields, keyId: string,
    role: string)
    ensures Prepare(sha, keyIdOk, receipt, keyId, role).Ok? <==> Ready(sha, keyIdOk, receipt, keyId, role)
    ensures Ready(sha, keyIdOk, receipt, keyId, role) ==>
              Prepare(sha, keyIdOk, receipt, keyId, role)
              == Ok(Build(sha, UnsignedPayload(receipt), keyId, role))
  {
    PayloadNonEmpty(receipt);
    PreparedExactly(sha, keyIdOk, Build(sha, UnsignedPayload(receipt), keyId, role));
  }

  predicate AnswersRequest(p: Prepared, r: SignerResult) {
    r.algorithm == "ES256" && r.keyId == p.request.keyId && Es256.WellShaped(r.signature)
  }

  /** Finalize succeeds exactly on the context of this very receipt and a well-shaped answer. */
  lemma {:induction false} FinalizeExactly(sha: HashFunction, keyIdOk: string -> bool, receipt: Fields, p: Prepared,
    r: SignerResult)
    ensures Finalize(sha, keyIdOk, receipt, p, r).Ok? <==>
            && Ready(sha, keyIdOk, receipt, p.request.keyId, p.signerRole)
            && p == Build(sha, UnsignedPayload(receipt), p.request.keyId, p.signerRole)
            && AnswersRequest(p, r)
    ensures Finalize(sha, keyIdOk, receipt, p, r).Ok? ==>
            Finalize(sha, keyIdOk, receipt, p, r).value == Attach(receipt, p, r.signature)
  {
    PayloadNonEmpty(receipt);
    PreparedExactly(sha, keyIdOk, p);
    if Utf8.Encode(UnsignedPayload(receipt)) == Utf8.Encode(p.payload) {
      Utf8.EncodeInjective(UnsignedPayload(receipt), p.payload);
    }
    UrnAscii(sha(Utf8.Encode(p.payload)));
  }

  // ----- What attaching preserves -----

  lemma {:induction false} PutUnsigned(receipt: Fields, key: string, v: Json)
    requires key !in SIGNED_FIELDS && key != "chain"
    ensures UnsignedBody(Put(receipt, key, v)) == UnsignedBody(receipt)
    ensures Chain(Put(receipt, key, v)) == Chain(receipt)
  {
    FindAfterPut(receipt, key, v, "chain");
    PutElsewhere(receipt, key, v);
  }

  lemma {:induction false} PutHash(receipt: Fields, hash: string)
    ensures var other := Put(receipt, "chain", Obj(Put(Chain(receipt), "receipt_hash", Str(hash))));
            && UnsignedBody(other) == UnsignedBody(receipt)
            && Get(Chain(other), "receipt_hash") == Str(hash)
            && Get(Chain(other), "sequence") == Get(Chain(receipt), "sequence")
            && Get(Chain(other), "previous_hash") == Get(Chain(receipt), "previous_hash")
  {
    var chain := Put(Chain(receipt), "receipt_hash", Str(hash));
    FindAfterPut(receipt, "chain", Obj(chain), "chain");
    PutElsewhere(receipt, "chain", Obj(chain));
    FindAfterPut(Chain(receipt), "receipt_hash", Str(hash), "receipt_hash");
    FindAfterPut(Chain(receipt), "receipt_hash", Str(hash), "sequence");
    FindAfterPut(Chain(receipt), "receipt_hash", Str(hash), "previous_hash");
  }

  /** The two writes: everything but the recorded hash and the list of entries is kept. */
  lemma {:induction false} AttachKeeps(receipt: Fields, p: Prepared, signature: string)
    requires ShapeOk(receipt)
    ensures var signed := Attach(receipt, p, signature);
            && ShapeOk(signed)
            && UnsignedBody(signed) == UnsignedBody(receipt)
            && Entries(signed) == Entries(receipt) + [SignatureEntry(p, signature)]
            && Chain(signed) == Put(Chain(receipt), "receipt_hash", Str(p.receiptHash))
            && Get(Chain(signed), "receipt_hash") == Str(p.receiptHash)
    ensures SignedValues(Attach(receipt, p, signature)) == SignedValues(receipt)
  {
    var chain := Obj(Put(Chain(receipt), "receipt_hash", Str(p.receiptHash)));
    var list := Arr(Entries(receipt) + [SignatureEntry(p, signature)]);
    var hashed := Put(receipt, "chain", chain);
    PutHash(receipt, p.receiptHash);
    PutUnsigned(hashed, "signatures", list);
    FindAfterPut(receipt, "chain", chain, "chain");
    FindAfterPut(hashed, "signatures", list, "signatures");
    FindAfterPut(hashed, "signatures", list, "chain");
    PutElsewhere(receipt, "chain", chain);
    PutElsewhere(hashed, "signatures", list);
  }

  /** The signed fields by name. */
  lemma {:induction false} SignedGets(a: Fields, b: Fields)
    requires SignedValues(a) == SignedValues(b)
    ensures Get(a, "schema_version") == Get(b, "schema_version")
    ensures Get(a, "created_at") == Get(b, "created_at")
    ensures Get(a, "release_class") == Get(b, "release_class")
    ensures Get(a, "policy") == Get(b, "policy")
  {
    assert SIGNED_FIELDS[0] == "schema_version" && SIGNED_FIELDS[4] == "created_at";
    assert SIGNED_FIELDS[5] == "release_class" && SIGNED_FIELDS[6] == "policy";
    assert SignedValues(a)[0] == SignedValues(b)[0] && SignedValues(a)[4] == SignedValues(b)[4];
    assert SignedValues(a)[5] == SignedValues(b)[5] && SignedValues(a)[6] == SignedValues(b)[6];
  }

  /**
   A successful finalize leaves payload, hash and every earlier verdict as they were: entry by
   entry, whatever the verifier concluded before it concludes still.
   */
  lemma {:induction false} FinalizeKeeps(env: Env, keyIdOk: string -> bool, receipt: Fields, p: Prepared,
    r: SignerResult,
                      registry: Registry)
    requires Finalize(env.sha, keyIdOk, receipt, p, r).Ok?
    ensures var signed := Finalize(env.sha, keyIdOk, receipt, p, r).value;
            && UnsignedPayload(signed) == UnsignedPayload(receipt) == p.payload
            && ReceiptHash(env.sha, signed) == ReceiptHash(env.sha, receipt)
            && Get(Chain(signed), "receipt_hash") == Str(ReceiptHash(env.sha, signed))
            && Entries(signed) == Entries(receipt) + [SignatureEntry(p, r.signature)]
            && EntryResults(env, signed, registry)[..|Entries(receipt)|] == EntryResults(env, receipt, registry)
  {
    FinalizeExactly(env.sha, keyIdOk, receipt, p, r);
    var signed := Attach(receipt, p, r.signature);
    AttachKeeps(receipt, p, r.signature);
    SignedGets(signed, receipt);
    SameHash(env, signed, receipt);
    EarlierResults(env, receipt, signed, registry);
  }

  lemma {:induction false} EarlierResults(env: Env, receipt: Fields, signed: Fields, registry: Registry)
    requires Get(signed, "created_at") == Get(receipt, "created_at")
    requires UnsignedBody(signed) == UnsignedBody(receipt)
    requires Entries(receipt) <= Entries(signed)
    ensures EntryResults(env, signed, registry)[..|Entries(receipt)|] == EntryResults(env, receipt, registry)
  {
    SameChecks(env, signed, receipt, registry);
  }

  // ----- Signing in either order -----

  /** A second signature only lengthens the list: the hash is already recorded. */
  lemma {:induction false} AttachTwice(receipt: Fields, p: Prepared, s: string, q: Prepared, t: string)
    requires ShapeOk(receipt) && p.receiptHash == q.receiptHash
    ensures Attach(Attach(receipt, p, s), q, t) ==
            Put(Put(receipt, "chain", Obj(Put(Chain(receipt), "receipt_hash", Str(p.receiptHash)))),
                "signatures", Arr(Entries(receipt) + [SignatureEntry(p, s), SignatureEntry(q, t)]))
  {
    var hash := Str(p.receiptHash);
    var chain := Put(Chain(receipt), "receipt_hash", hash);
    var hashed := Put(receipt, "chain", Obj(chain));
    var first := Arr(Entries(receipt) + [SignatureEntry(p, s)]);
    var once := Attach(receipt, p, s);
    AttachKeeps(receipt, p, s);
    FindAfterPut(Chain(receipt), "receipt_hash", hash, "receipt_hash");
    PutSame(chain, "receipt_hash", hash);
    FindAfterPut(receipt, "chain", Obj(chain), "chain");
    FindAfterPut(hashed, "signatures", first, "chain");
    PutSame(once, "chain", Obj(chain));
    var both := Arr(Entries(once) + [SignatureEntry(q, t)]);
    PutTwice(hashed, "signatures", first, both);
    assert Entries(receipt) + [SignatureEntry(p, s)] + [SignatureEntry(q, t)]
        == Entries(receipt) + [SignatureEntry(p, s), SignatureEntry(q, t)];
  }

  lemma {:induction false} ReadyAfter(sha: HashFunction, keyIdOk: string -> bool, receipt: Fields, p: Prepared,
    s: string,
                   keyId: string, role: string)
    requires ShapeOk(receipt) && p.receiptHash == ReceiptHash(sha, receipt) && p.request.keyId != keyId
    ensures var signed := Attach(receipt, p, s);
            && UnsignedPayload(signed) == UnsignedPayload(receipt)
            && (SignedByKey(signed, keyId) <==> SignedByKey(receipt, keyId))
            && (Ready(sha, keyIdOk, signed, keyId, role) <==>
                keyIdOk(keyId) && RoleOk(role) && !SignedByKey(receipt, keyId))
  {
    var signed := Attach(receipt, p, s);
    AttachKeeps(receipt, p, s);
    assert UnsignedPayload(signed) == UnsignedPayload(receipt);
    var es, fs := Entries(receipt), Entries(signed);
    assert forall i :: 0 <= i < |es| ==> fs[i] == es[i];
    assert Get(fs[|es|].fields, "kid") == Str(p.request.keyId);
  }

  /** The two receipts hold the same new entries swapped, and agree on everything else. */
  ghost predicate SwappedTail(receipt: Fields, one: Fields, two: Fields) {
    var n := |Entries(receipt)|;
    && |Entries(one)| == n + 2 == |Entries(two)|
    && Entries(one)[..n] == Entries(receipt) == Entries(two)[..n]
    && Entries(one)[n] == Entries(two)[n + 1] && Entries(one)[n + 1] == Entries(two)[n]
    && one == Put(two, "signatures", Arr(Entries(one)))
  }

  lemma {:induction false} SwappedAttachments(receipt: Fields, p: Prepared, s: string, q: Prepared, t: string)
    requires ShapeOk(receipt) && p.receiptHash == q.receiptHash
    ensures SwappedTail(receipt, Attach(Attach(receipt, p, s), q, t), Attach(Attach(receipt, q, t), p, s))
  {
    AttachTwice(receipt, p, s, q, t);
    AttachTwice(receipt, q, t, p, s);
    var hashed := Put(receipt, "chain", Obj(Put(Chain(receipt), "receipt_hash", Str(p.receiptHash))));
    var one := Arr(Entries(receipt) + [SignatureEntry(p, s), SignatureEntry(q, t)]);
    var two := Arr(Entries(receipt) + [SignatureEntry(q, t), SignatureEntry(p, s)]);
    FindAfterPut(hashed, "signatures", one, "signatures");
    FindAfterPut(hashed, "signatures", two, "signatures");
    PutTwice(hashed, "signatures", two, one);
  }

  /** Signing with two keys in either order gives receipts that differ in list order alone. */
  lemma {:induction false} SigningCommutes(sha: HashFunction, keyIdOk: string -> bool, receipt: Fields, a: Signer,
    b: Signer)
    requires a.keyId != b.keyId
    requires SignAll(sha, keyIdOk, receipt, [a, b]).Ok?
    ensures SignAll(sha, keyIdOk, receipt, [b, a]).Ok?
    ensures SwappedTail(receipt, SignAll(sha, keyIdOk, receipt, [a, b]).value,
                        SignAll(sha, keyIdOk, receipt, [b, a]).value)
  {
    var payload := UnsignedPayload(receipt);
    var p, q := Build(sha, payload, a.keyId, a.role), Build(sha, payload, b.keyId, b.role);
    var s, t := a.sign(p.request).signature, b.sign(q.request).signature;
    SignTwo(sha, keyIdOk, receipt, a, b);
    SignExactly(sha, keyIdOk, receipt, a);
    ReadyAfter(sha, keyIdOk, receipt, p, s, b.keyId, b.role);
    SignExactly(sha, keyIdOk, Attach(receipt, p, s), b);
    SignTwo(sha, keyIdOk, receipt, b, a);
    SignExactly(sha, keyIdOk, receipt, b);
    ReadyAfter(sha, keyIdOk, receipt, q, t, a.keyId, a.role);
    SignExactly(sha, keyIdOk, Attach(receipt, q, t), a);
    SwappedAttachments(receipt, p, s, q, t);
  }

  lemma {:induction false} SignTwo(sha: HashFunction, keyIdOk: string -> bool, receipt: Fields, a: Signer, b: Signer)
    ensures SignAll(sha, keyIdOk, receipt, [a, b]) ==
            match Sign(sha, keyIdOk, receipt, a)
            case Err(problem) => Err(problem)
            case Ok(once) => Sign(sha, keyIdOk, once, b)
  {
    assert [a, b][..1] == [a] && [a][..0] == [];
    assert SignAll(sha, keyIdOk, receipt, [a]) == Sign(sha, keyIdOk, receipt, a);
  }

  /** One signing round, as guards, request and attachment. */
  lemma {:induction false} SignExactly(sha: HashFunction, keyIdOk: string -> bool, receipt: Fields, signer: Signer)
    ensures var p := Build(sha, UnsignedPayload(receipt), signer.keyId, signer.role);
            var answer := signer.sign(p.request);
            && (Sign(sha, keyIdOk, receipt, signer).Ok? <==>
                Ready(sha, keyIdOk, receipt, signer.keyId, signer.role) && AnswersRequest(p, answer))
            && (Sign(sha, keyIdOk, receipt, signer).Ok? ==>
                Sign(sha, keyIdOk, receipt, signer).value == Attach(receipt, p, answer.signature))
  {
    var p := Build(sha, UnsignedPayload(receipt), signer.keyId, signer.role);
    PrepareExactly(sha, keyIdOk, receipt, signer.keyId, signer.role);
    FinalizeExactly(sha, keyIdOk, receipt, p, signer.sign(p.request));
  }
}

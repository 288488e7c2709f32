/** Which receipts share a signed payload and a receipt hash. */
module ReceiptPayload {
  import opened Wrappers
  import opened Json
  import opened Canonical
  import opened Digests
  import opened Base64
  import opened Receipts
  import opened ReceiptTheorems
  import opened ChainLink
  import Utf8

  /** The fields a signature covers, beside the two of the chain. */
  predicate SignedName(key: string) {
    || key == "schema_version" || key == "receipt_id" || key == "receipt_type" || key == "subject"
    || key == "created_at" || key == "release_class" || key == "policy" || key == "evidence"
  }

  lemma {:induction false} NameListed(key: string) returns (i: nat)
    requires SignedName(key)
    ensures i < |SIGNED_FIELDS| && SIGNED_FIELDS[i] == key
  {
    i := if key == "schema_version" then 0 else if key == "receipt_id" then 1 else if key == "receipt_type" then 2
         else if key == "subject" then 3 else if key == "created_at" then 4 else if key == "release_class" then 5
         else if key == "policy" then 6 else 7;
  }

  lemma {:induction false} ListedName(i: nat)
    requires i < |SIGNED_FIELDS|
    ensures SignedName(SIGNED_FIELDS[i])
  {
  }

  /** Agreement on the signed projection; a missing field and a null one are the same. */
  ghost predicate SameSigned(a: Fields, b: Fields) {
    && (forall key :: SignedName(key) ==> Alike(Get(a, key), Get(b, key)))
    && Alike(Get(Chain(a), "sequence"), Get(Chain(b), "sequence"))
    && Alike(Get(Chain(a), "previous_hash"), Get(Chain(b), "previous_hash"))
  }

  lemma {:induction false} PlainFind(fs: Fields, k: string)
    requires Plain(Obj(fs))
    ensures Plain(Get(fs, k))
  {
    if fs != [] && fs[0].key != k {
      assert forall i :: 0 <= i < |fs| - 1 ==> fs[1..][i] == fs[i + 1];
      PlainFind(fs[1..], k);
    }
  }

  lemma {:induction false} SignedKeysDistinct(values: seq<Json>, sequence: Json, previous: Json)
    requires |values| == |SIGNED_FIELDS|
    ensures DistinctKeys(Body(values, sequence, previous)) && DistinctKeys(ChainBody(sequence, previous))
  {
    assert SIGNED_FIELDS[0][7] == 'v' && SIGNED_FIELDS[1][8] == 'i' && SIGNED_FIELDS[2][8] == 't';
    assert SIGNED_FIELDS[5][2] == 'l';
  }

  lemma {:induction false} BodyPlain(values: seq<Json>, sequence: Json, previous: Json)
    requires |values| == |SIGNED_FIELDS| && Plain(sequence) && Plain(previous)
    requires forall i :: 0 <= i < |values| ==> Plain(values[i])
    ensures Plain(Obj(Body(values, sequence, previous)))
  {
    SignedKeysDistinct(values, sequence, previous);
    assert Plain(Obj(ChainBody(sequence, previous)));
  }

  lemma {:induction false} UnsignedBodyPlain(receipt: Fields)
    requires Plain(Obj(receipt))
    ensures Plain(UnsignedBody(receipt))
  {
    forall k ensures Plain(Get(receipt, k)) { PlainFind(receipt, k); }
    if Get(receipt, "chain").Obj? {
      forall k ensures Plain(Get(Chain(receipt), k)) { PlainFind(Chain(receipt), k); }
    }
    BodyPlain(SignedValues(receipt), Get(Chain(receipt), "sequence"), Get(Chain(receipt), "previous_hash"));
  }

  /** Two objects with the same distinct keys in the same order are alike value by value. */
  lemma {:induction false} AlikeAligned(a: Fields, b: Fields)
    requires |a| == |b| && DistinctKeys(a)
    requires forall i :: 0 <= i < |a| ==> a[i].key == b[i].key
    ensures Alike(Obj(a), Obj(b)) <==> forall i :: 0 <= i < |a| ==> Alike(a[i].value, b[i].value)
  {
    forall k ensures HasKey(a, k) <==> HasKey(b, k) {
      if HasKey(a, k) { var i :| 0 <= i < |a| && a[i].key == k; assert b[i].key == k; }
      if HasKey(b, k) { var i :| 0 <= i < |b| && b[i].key == k; assert a[i].key == k; }
    }
    if Alike(Obj(a), Obj(b)) {
      forall i | 0 <= i < |a| ensures Alike(a[i].value, b[i].value) {
        assert a[i].key == b[i].key;
      }
    }
  }

  lemma {:induction false} AlikeChains(s: Json, p: Json, s': Json, p': Json)
    ensures Alike(Obj(ChainBody(s, p)), Obj(ChainBody(s', p'))) <==> Alike(s, s') && Alike(p, p')
  {
    var a, b := ChainBody(s, p), ChainBody(s', p');
    AlikeAligned(a, b);
    assert a[0].value == s && a[1].value == p && b[0].value == s' && b[1].value == p';
  }

  lemma {:induction false} AlikeBodies(v: seq<Json>, s: Json, p: Json, v': seq<Json>, s': Json, p': Json)
    requires |v| == |SIGNED_FIELDS| == |v'|
    ensures Alike(Obj(Body(v, s, p)), Obj(Body(v', s', p'))) <==>
            (forall i :: 0 <= i < |v| ==> Alike(v[i], v'[i])) && Alike(s, s') && Alike(p, p')
  {
    var a, b := Body(v, s, p), Body(v', s', p');
    SignedKeysDistinct(v, s, p);
    AlikeAligned(a, b);
    AlikeChains(s, p, s', p');
    var n := |v|;
    assert a[n].value == Obj(ChainBody(s, p)) && b[n].value == Obj(ChainBody(s', p'));
    assert forall i :: 0 <= i < n ==> a[i].value == v[i] && b[i].value == v'[i];
  }

  ghost predicate SameListed(a: Fields, b: Fields) {
    forall i :: 0 <= i < |SIGNED_FIELDS| ==> Alike(Get(a, SIGNED_FIELDS[i]), Get(b, SIGNED_FIELDS[i]))
  }

  lemma {:induction false} ListedExactly(a: Fields, b: Fields)
    ensures SameListed(a, b) <==> forall key :: SignedName(key) ==> Alike(Get(a, key), Get(b, key))
  {
    if SameListed(a, b) {
      forall key | SignedName(key) ensures Alike(Get(a, key), Get(b, key)) {
        var i := NameListed(key);
      }
    }
    if forall key :: SignedName(key) ==> Alike(Get(a, key), Get(b, key)) {
      forall i | 0 <= i < |SIGNED_FIELDS| ensures Alike(Get(a, SIGNED_FIELDS[i]), Get(b, SIGNED_FIELDS[i])) {
        ListedName(i);
      }
    }
  }

  /** Receipts share a payload exactly when they agree on the signed projection. */
  lemma {:induction false} PayloadExactly(a: Fields, b: Fields)
    requires Plain(Obj(a)) && Plain(Obj(b))
    ensures UnsignedPayload(a) == UnsignedPayload(b) <==> SameSigned(a, b)
  {
    UnsignedBodyPlain(a);
    UnsignedBodyPlain(b);
    CanonicalExactly(UnsignedBody(a), UnsignedBody(b));
    ListedExactly(a, b);
    AlikeBodies(SignedValues(a), Get(Chain(a), "sequence"), Get(Chain(a), "previous_hash"),
                SignedValues(b), Get(Chain(b), "sequence"), Get(Chain(b), "previous_hash"));
  }

  /** Equal receipt hashes mean equal signed projections, or the payloads are a SHA-256 collision. */
  lemma {:induction false} HashBindsProjection(sha: HashFunction, a: Fields, b: Fields)
    requires Plain(Obj(a)) && Plain(Obj(b))
    requires ReceiptHash(sha, a) == ReceiptHash(sha, b)
    ensures var p, q := Utf8.Encode(UnsignedPayload(a)), Utf8.Encode(UnsignedPayload(b));
            SameSigned(a, b) || (p != q && sha(p) == sha(q))
  {
    PayloadExactly(a, b);
    HashTextBinds(sha, UnsignedPayload(a), UnsignedPayload(b));
  }

  /** Receipts with one payload text have one payload: the text is an encoding, not a hash. */
  lemma {:induction false} PayloadTextExactly(a: Fields, b: Fields)
    ensures PayloadText(a) == PayloadText(b) <==> UnsignedPayload(a) == UnsignedPayload(b)
  {
    if PayloadText(a) == PayloadText(b) {
      EncodeUrlInjective(Utf8.Encode(UnsignedPayload(a)), Utf8.Encode(UnsignedPayload(b)));
      Utf8.EncodeInjective(UnsignedPayload(a), UnsignedPayload(b));
    }
  }

  /**
   No replay: an entry genuine for two receipts, under whatever registries, forces equal signed
   projections. A changed sequence or previous hash therefore invalidates every signature.
   */
  lemma {:induction false} EntryBindsReceipt(envA: Env, registryA: Registry, a: Fields, envB: Env, registryB: Registry,
                                             b: Fields, entry: Json)
    requires Plain(Obj(a)) && Plain(Obj(b))
    requires IsGenuine(envA, a, registryA, entry) && IsGenuine(envB, b, registryB, entry)
    ensures SameSigned(a, b)
  {
    EntryCarries(envA, registryA, a, entry);
    EntryCarries(envB, registryB, b, entry);
    PayloadTextExactly(a, b);
    PayloadExactly(a, b);
  }

  lemma {:induction false} EntryCarries(env: Env, registry: Registry, receipt: Fields, entry: Json)
    requires IsGenuine(env, receipt, registry, entry)
    ensures entry.Obj? && Get(entry.fields, "payload") == Str(PayloadText(receipt))
  {
  }

  // ----- Tampering -----

  /** Two verified receipts with one list of signatures agree on everything signed. */
  lemma {:induction false} VerifiedBinds(
    envA: Env, registryA: Registry, a: Fields, envB: Env, registryB: Registry, b: Fields)
    requires Plain(Obj(a)) && Plain(Obj(b)) && Entries(a) == Entries(b)
    requires IsVerified(Judge(envA, a, registryA)) && IsVerified(Judge(envB, b, registryB))
    ensures SameSigned(a, b)
  {
    VerifiedExactly(envA, a, registryA);
    VerifiedExactly(envB, b, registryB);
    EntryBindsReceipt(envA, registryA, a, envB, registryB, b, Entries(a)[0]);
  }

  /** A verified receipt does not survive the replacement of a signed field, under any registry. */
  lemma {:induction false} FieldTamperEvident(
    env: Env, registry: Registry, receipt: Fields, other: Registry, key: string, v: Json)
    requires IsVerified(Judge(env, receipt, registry)) && Plain(Obj(receipt)) && Plain(v)
    requires SignedName(key) && !Alike(v, Get(receipt, key))
    ensures !IsVerified(Judge(env, Put(receipt, key, v), other))
  {
    var tampered := Put(receipt, key, v);
    PutPlain(receipt, key, v);
    FindAfterPut(receipt, key, v, "signatures");
    FindAfterPut(receipt, key, v, key);
    SignaturesUnsigned(key);
    if IsVerified(Judge(env, tampered, other)) {
      VerifiedBinds(env, other, tampered, env, registry, receipt);
    }
  }

  lemma {:induction false} SignaturesUnsigned(key: string)
    requires SignedName(key)
    ensures key != "signatures" && key != "chain"
  {
    assert "signatures"[1] == 'i' && "subject"[1] == 'u' && "schema_version"[1] == 'c';
    assert "chain"[0] == 'c' && |"chain"| == 5;
  }

  /** Nor that of its place in the chain. */
  lemma {:induction false} ChainTamperEvident(
    env: Env, registry: Registry, receipt: Fields, other: Registry, key: string, v: Json)
    requires IsVerified(Judge(env, receipt, registry)) && Plain(Obj(receipt)) && Plain(v)
    requires key == "sequence" || key == "previous_hash"
    requires !Alike(v, Get(Chain(receipt), key))
    ensures !IsVerified(Judge(env, Put(receipt, "chain", Obj(Put(Chain(receipt), key, v))), other))
  {
    var chain := Obj(Put(Chain(receipt), key, v));
    var tampered := Put(receipt, "chain", chain);
    ChainPlain(receipt);
    PutPlain(Chain(receipt), key, v);
    PutPlain(receipt, "chain", chain);
    FindAfterPut(receipt, "chain", chain, "signatures");
    FindAfterPut(receipt, "chain", chain, "chain");
    FindAfterPut(Chain(receipt), key, v, key);
    assert "signatures"[0] == 's' && "chain"[0] == 'c';
    if IsVerified(Judge(env, tampered, other)) {
      VerifiedBinds(env, other, tampered, env, registry, receipt);
    }
  }

  lemma {:induction false} ChainPlain(receipt: Fields)
    requires Plain(Obj(receipt))
    ensures Plain(Obj(Chain(receipt)))
  {
    PlainFind(receipt, "chain");
  }

  // ----- What the payload says -----

  lemma {:induction false} BodyGet(values: seq<Json>, sequence: Json, previous: Json, key: string)
    requires |values| == |SIGNED_FIELDS|
    ensures var body := Body(values, sequence, previous);
            && (HasKey(body, key) <==> SignedName(key) || key == "chain")
            && Get(body, "chain") == Obj(ChainBody(sequence, previous))
            && forall i :: 0 <= i < |values| && SIGNED_FIELDS[i] == key ==> Get(body, key) == values[i]
  {
    var body := Body(values, sequence, previous);
    var n := |values|;
    SignedKeysDistinct(values, sequence, previous);
    FindAt(body, n);
    if SignedName(key) {
      var i := NameListed(key);
      FindAt(body, i);
      assert body[i].key == key;
    }
    if HasKey(body, key) && key != "chain" {
      var i :| 0 <= i < |body| && body[i].key == key;
      ListedName(i);
    }
    forall i | 0 <= i < n && SIGNED_FIELDS[i] == key ensures Get(body, key) == values[i] {
      FindAt(body, i);
    }
  }

  lemma {:induction false} ChainBodyGet(sequence: Json, previous: Json, key: string)
    ensures var chain := ChainBody(sequence, previous);
            && (HasKey(chain, key) <==> key == "sequence" || key == "previous_hash")
            && Get(chain, "sequence") == sequence && Get(chain, "previous_hash") == previous
  {
    var chain := ChainBody(sequence, previous);
    assert chain[0].key == "sequence" && chain[1].key == "previous_hash";
    assert chain[0].key[0] == 's' && chain[1].key[0] == 'p';
    FindAt(chain, 0);
    FindAt(chain, 1);
  }

  /**
   The payload is JSON: an object of exactly the nine named keys with the receipt's values, and
   under the chain exactly the two named keys with the chain's.
   */
  lemma {:induction false} PayloadReads(receipt: Fields) returns (fs: Fields, chain: Fields)
    requires Plain(Obj(receipt))
    ensures Loads(UnsignedPayload(receipt)) == Some(Obj(fs)) && DistinctKeys(fs)
    ensures forall key :: HasKey(fs, key) <==> SignedName(key) || key == "chain"
    ensures forall key :: SignedName(key) ==> Alike(Get(receipt, key), Get(fs, key))
    ensures Get(fs, "chain") == Obj(chain) && DistinctKeys(chain)
    ensures forall key :: HasKey(chain, key) <==> key == "sequence" || key == "previous_hash"
    ensures forall key :: key == "sequence" || key == "previous_hash" ==>
              Alike(Get(Chain(receipt), key), Get(chain, key))
  {
    var values, s, p := SignedValues(receipt), Get(Chain(receipt), "sequence"), Get(Chain(receipt), "previous_hash");
    UnsignedBodyPlain(receipt);
    fs := LoadedObject(Body(values, s, p));
    forall key
      ensures HasKey(fs, key) <==> SignedName(key) || key == "chain"
      ensures SignedName(key) ==> Alike(Get(receipt, key), Get(fs, key))
    {
      BodyGet(values, s, p, key);
      if SignedName(key) {
        var i := NameListed(key);
      }
    }
    BodyGet(values, s, p, "chain");
    chain := LoadedChain(fs, s, p);
  }

  /** A canonical object reads back as one with the same keys and values alike. */
  lemma {:induction false} LoadedObject(body: Fields) returns (fs: Fields)
    requires Plain(Obj(body))
    ensures Loads(Canonicalize(Obj(body))) == Some(Obj(fs)) && Plain(Obj(fs))
    ensures forall key :: HasKey(body, key) <==> HasKey(fs, key)
    ensures forall key :: HasKey(body, key) ==> Alike(Get(body, key), Get(fs, key))
  {
    CanonicalInverse(Obj(body));
    SortDeepShape(Obj(body));
    fs := SortDeep(Obj(body)).fields;
    AlikeGet(body, fs);
  }

  lemma {:induction false} AlikeGet(a: Fields, b: Fields)
    requires DistinctKeys(a) && DistinctKeys(b) && Alike(Obj(a), Obj(b))
    ensures forall key :: HasKey(a, key) <==> HasKey(b, key)
    ensures forall key :: HasKey(a, key) ==> Alike(Get(a, key), Get(b, key))
  {
    AlikeByKey(a, b);
    forall key ensures HasKey(a, key) <==> HasKey(b, key)
               ensures HasKey(a, key) ==> Alike(Get(a, key), Get(b, key))
    {
      assert AlikeAt(a, b, key);
    }
  }

  lemma {:induction false} LoadedChain(fs: Fields, s: Json, p: Json) returns (chain: Fields)
    requires Plain(Obj(fs)) && Alike(Obj(ChainBody(s, p)), Get(fs, "chain"))
    ensures Get(fs, "chain") == Obj(chain) && DistinctKeys(chain)
    ensures forall key :: HasKey(chain, key) <==> key == "sequence" || key == "previous_hash"
    ensures Alike(s, Get(chain, "sequence")) && Alike(p, Get(chain, "previous_hash"))
  {
    PlainFind(fs, "chain");
    chain := Get(fs, "chain").fields;
    ChainBodyGet(s, p, "sequence");
    SignedKeysDistinct(seq(|SIGNED_FIELDS|, _ => Null), s, p);
    AlikeGet(ChainBody(s, p), chain);
    forall key ensures HasKey(chain, key) <==> key == "sequence" || key == "previous_hash" {
      ChainBodyGet(s, p, key);
    }
  }
}

/**
 From an unsigned receipt through any number of honest external signers to the independent
 verifier: every signature is counted, and the verdict is the quorum decision alone.
 */
module EndToEnd {
  import opened Wrappers
  import opened Json
  import opened Canonical
  import opened Digests
  import opened Base64
  import opened Receipts
  import opened ReceiptTheorems
  import opened ReceiptOrder
  import opened ExternalSigning
  import opened SigningTheorems
  import Es256
  import Utf8

  /** On every digest sent for its key, the signer returns a signature the registered key verifies. */
  ghost predicate Honest(env: Env, jwk: Fields, signer: Signer) {
    forall d: Digest :: SignsDigest(env, jwk, signer, d)
  }

  ghost predicate SignsDigest(env: Env, jwk: Fields, signer: Signer, d: Digest) {
    var answer := signer.sign(Request("ES256", signer.keyId, EncodeUrl(d)));
    && answer.algorithm == "ES256" && answer.keyId == signer.keyId
    && exists r: nat, s: nat :: Es256.InGroup(r) && Es256.InGroup(s)
         && answer.signature == Es256.SignatureText(r, s) && env.ecdsa(jwk, d, r, s) == Genuine
  }

  /** The signer's key is registered, active, of its role, in its window, and honestly used. */
  ghost predicate Trusted(env: Env, keyIdOk: string -> bool, registry: Registry, at: Option<int>, signer: Signer) {
    && keyIdOk(signer.keyId) && RoleOk(signer.role)
    && signer.keyId in registry && UsableKey(env, registry[signer.keyId], signer.role, at)
    && exists jwk :: Find(registry[signer.keyId], "jwk") == Some(Obj(jwk)) && Honest(env, jwk, signer)
  }

  // ----- One honest signature -----

  lemma {:induction false} HeaderReads(keyId: string)
    ensures HeaderNames(HeaderText(keyId), keyId) && HeaderText(keyId) != ""
  {
    var text := Canonicalize(Obj(HeaderFields(keyId)));
    ProfilePlain(keyId);
    CanonicalInverse(Obj(HeaderFields(keyId)));
    CanonicalNonEmpty(Obj(HeaderFields(keyId)));
    EncodeNonEmpty(text);
    LenientReads(Utf8.Encode(text));
    Utf8.DecodeEncode(text);
    SextetsLength(Utf8.Encode(text));
    assert ReadHeader(HeaderText(keyId)) == Some(Obj(HeaderFields(keyId)));
  }

  lemma {:induction false} HonestVerifies(env: Env, jwk: Fields, signer: Signer, input: string)
    requires Honest(env, jwk, signer)
    ensures var answer := signer.sign(Request("ES256", signer.keyId, DigestText(env.sha, input)));
            && answer.algorithm == "ES256" && answer.keyId == signer.keyId
            && Es256.WellShaped(answer.signature) && answer.signature != ""
            && VerifyJws(env, jwk, input, answer.signature) == Genuine
  {
    var d := env.sha(Utf8.Encode(input));
    assert SignsDigest(env, jwk, signer, d);
    var answer := signer.sign(Request("ES256", signer.keyId, EncodeUrl(d)));
    var r: nat, s: nat :| Es256.InGroup(r) && Es256.InGroup(s)
      && answer.signature == Es256.SignatureText(r, s) && env.ecdsa(jwk, d, r, s) == Genuine;
    Es256.WellShapedExactly(answer.signature);
    Es256.OrderFits();
    Es256.PairBytes(r, s);
    LenientAgrees(answer.signature);
  }

  function Answer(sha: HashFunction, payload: string, signer: Signer): string {
    signer.sign(Build(sha, payload, signer.keyId, signer.role).request).signature
  }

  function EntryBy(sha: HashFunction, payload: string, signer: Signer): Json {
    SignatureEntry(Build(sha, payload, signer.keyId, signer.role), Answer(sha, payload, signer))
  }

  lemma {:induction false} EntryFields(p: Prepared, signature: string)
    ensures var fs := SignatureEntry(p, signature).fields;
            && Get(fs, "kid") == Str(p.request.keyId) && Get(fs, "alg") == Str("ES256")
            && Get(fs, "signer_role") == Str(p.signerRole) && Get(fs, "protected") == Str(p.protectedText)
            && Get(fs, "payload") == Str(p.payloadText) && Get(fs, "signature") == Str(signature)
  {
    var fs := SignatureEntry(p, signature).fields;
    assert fs[0].key[0] == 'k' && fs[1].key[0] == 'a' && fs[2].key[2] == 'g';
    assert fs[3].key[1] == 'r' && fs[4].key[1] == 'a' && fs[5].key[2] == 'g' && |fs[5].key| != |fs[2].key|;
    FindAt(fs, 0);
    FindAt(fs, 1);
    FindAt(fs, 2);
    FindAt(fs, 3);
    FindAt(fs, 4);
    FindAt(fs, 5);
  }

  /** The verifier accepts the entry an honest signing round produces. */
  lemma {:induction false} HonestEntryAccepted(env: Env, keyIdOk: string -> bool, registry: Registry, at: Option<int>,
                            payload: string, signer: Signer)
    requires Trusted(env, keyIdOk, registry, at, signer) && payload != ""
    ensures GenuineEntry(env, registry, at, EncodeUrl(Utf8.Encode(payload)), EntryBy(env.sha, payload, signer),
                         signer.keyId, signer.role)
    ensures AnswersRequest(Build(env.sha, payload, signer.keyId, signer.role),
                           signer.sign(Build(env.sha, payload, signer.keyId, signer.role).request))
  {
    var p := Build(env.sha, payload, signer.keyId, signer.role);
    var value := Answer(env.sha, payload, signer);
    var jwk :| Find(registry[signer.keyId], "jwk") == Some(Obj(jwk)) && Honest(env, jwk, signer);
    HonestVerifies(env, jwk, signer, p.signingInput);
    HeaderReads(signer.keyId);
    EncodeNonEmpty(payload);
    SextetsLength(Utf8.Encode(payload));
    EntryFields(p, value);
    assert SignedBy(env, registry[signer.keyId], p.protectedText, p.payloadText, value);
  }

  // ----- Any number of them -----

  function TeamEntries(sha: HashFunction, payload: string, team: seq<Signer>): (es: seq<Json>)
    ensures |es| == |team|
    ensures forall i :: 0 <= i < |es| ==> es[i] == EntryBy(sha, payload, team[i])
  {
    seq(|team|, i requires 0 <= i < |team| => EntryBy(sha, payload, team[i]))
  }

  function TeamKids(team: seq<Signer>): set<string> {
    set i | 0 <= i < |team| :: team[i].keyId
  }

  /** Pairwise distinct keys, none of them on the receipt yet. */
  ghost predicate FreshTeam(receipt: Fields, team: seq<Signer>) {
    && (forall i, j :: 0 <= i < j < |team| ==> team[i].keyId != team[j].keyId)
    && forall i :: 0 <= i < |team| ==> !SignedByKey(receipt, team[i].keyId)
  }

  ghost predicate TrustedTeam(env: Env, keyIdOk: string -> bool, registry: Registry, at: Option<int>,
                              team: seq<Signer>)
  {
    forall i :: 0 <= i < |team| ==> Trusted(env, keyIdOk, registry, at, team[i])
  }

  /** What a run of signings over one payload leaves behind. */
  ghost predicate SignedWith(sha: HashFunction, payload: string, receipt: Fields, signed: Fields,
                             team: seq<Signer>)
  {
    && ShapeOk(signed)
    && Entries(signed) == Entries(receipt) + TeamEntries(sha, payload, team)
    && SignedValues(signed) == SignedValues(receipt)
    && Get(Chain(signed), "sequence") == Get(Chain(receipt), "sequence")
    && Get(Chain(signed), "previous_hash") == Get(Chain(receipt), "previous_hash")
    && Get(Chain(signed), "receipt_hash")
       == if team == [] then Get(Chain(receipt), "receipt_hash") else Str(HashText(sha, payload))
  }

  /** Signing changes nothing of the signed projection. */
  lemma {:induction false} SameBody(sha: HashFunction, payload: string, receipt: Fields, signed: Fields,
    team: seq<Signer>)
    requires SignedWith(sha, payload, receipt, signed, team)
    ensures UnsignedBody(signed) == UnsignedBody(receipt)
  {
  }

  lemma {:induction false} SignedOnce(sha: HashFunction, payload: string, receipt: Fields, earlier: Fields,
                                      team: seq<Signer>)
    requires team != [] && SignedWith(sha, payload, receipt, earlier, team[..|team| - 1])
    ensures var last := team[|team| - 1];
            var p := Build(sha, payload, last.keyId, last.role);
            SignedWith(sha, payload, receipt, Attach(earlier, p, Answer(sha, payload, last)), team)
  {
    var last := team[|team| - 1];
    var p := Build(sha, payload, last.keyId, last.role);
    AttachKeeps(earlier, p, Answer(sha, payload, last));
    FindAfterPut(Chain(earlier), "receipt_hash", Str(p.receiptHash), "sequence");
    FindAfterPut(Chain(earlier), "receipt_hash", Str(p.receiptHash), "previous_hash");
    TeamGrows(sha, payload, Entries(receipt), team);
  }

  lemma {:induction false} TeamGrows(sha: HashFunction, payload: string, before: seq<Json>, team: seq<Signer>)
    requires team != []
    ensures before + TeamEntries(sha, payload, team[..|team| - 1]) + [EntryBy(sha, payload, team[|team| - 1])]
         == before + TeamEntries(sha, payload, team)
  {
    var n := |team| - 1;
    assert TeamEntries(sha, payload, team)
        == TeamEntries(sha, payload, team[..n]) + [EntryBy(sha, payload, team[n])];
  }

  lemma {:induction false} FrontTeam(env: Env, keyIdOk: string -> bool, registry: Registry, at: Option<int>,
    receipt: Fields,
                  team: seq<Signer>)
    requires team != [] && FreshTeam(receipt, team) && TrustedTeam(env, keyIdOk, registry, at, team)
    ensures var front, last := team[..|team| - 1], team[|team| - 1];
            && FreshTeam(receipt, front) && TrustedTeam(env, keyIdOk, registry, at, front)
            && Trusted(env, keyIdOk, registry, at, last)
  {
    var front := team[..|team| - 1];
    assert forall i :: 0 <= i < |front| ==> front[i] == team[i];
  }

  lemma {:induction false} SignedNone(sha: HashFunction, payload: string, receipt: Fields, team: seq<Signer>)
    requires ShapeOk(receipt) && team == []
    ensures SignedWith(sha, payload, receipt, receipt, team)
  {
    assert Entries(receipt) + TeamEntries(sha, payload, team) == Entries(receipt);
  }

  lemma {:induction false} StillUnsigned(sha: HashFunction, payload: string, receipt: Fields, earlier: Fields,
    team: seq<Signer>)
    requires team != [] && FreshTeam(receipt, team)
    requires SignedWith(sha, payload, receipt, earlier, team[..|team| - 1])
    ensures !SignedByKey(earlier, team[|team| - 1].keyId)
  {
    var n, last := |team| - 1, team[|team| - 1];
    var before := Entries(receipt);
    forall i | 0 <= i < |Entries(earlier)| && Entries(earlier)[i].Obj?
      ensures Get(Entries(earlier)[i].fields, "kid") != Str(last.keyId)
    {
      if i < |before| {
        assert Entries(earlier)[i] == before[i];
      } else {
        var m := team[..n][i - |before|];
        assert Entries(earlier)[i] == EntryBy(sha, payload, m);
        EntryFields(Build(sha, payload, m.keyId, m.role), Answer(sha, payload, m));
      }
    }
  }

  /** Signing in turn with a fresh, trusted team always succeeds. */
  lemma {:induction false} TeamSigns(env: Env, keyIdOk: string -> bool, registry: Registry, at: Option<int>,
                                     payload: string, receipt: Fields, team: seq<Signer>)
    requires ShapeOk(receipt) && HashOpen(receipt, HashText(env.sha, payload))
    requires payload == UnsignedPayload(receipt)
    requires FreshTeam(receipt, team) && TrustedTeam(env, keyIdOk, registry, at, team)
    ensures SignAll(env.sha, keyIdOk, receipt, team).Ok?
    ensures SignedWith(env.sha, payload, receipt, SignAll(env.sha, keyIdOk, receipt, team).value, team)
    decreases |team|
  {
    if team == [] {
      SignedNone(env.sha, payload, receipt, team);
    } else {
      var front := team[..|team| - 1];
      FrontTeam(env, keyIdOk, registry, at, receipt, team);
      TeamSigns(env, keyIdOk, registry, at, payload, receipt, front);
      StillUnsigned(env.sha, payload, receipt, SignAll(env.sha, keyIdOk, receipt, front).value, team);
      TeamStep(env, keyIdOk, registry, at, payload, receipt,
               SignAll(env.sha, keyIdOk, receipt, front).value, team);
    }
  }

  lemma {:induction false} TeamStep(env: Env, keyIdOk: string -> bool, registry: Registry, at: Option<int>,
                                    payload: string, receipt: Fields, earlier: Fields, team: seq<Signer>)
    requires HashOpen(receipt, HashText(env.sha, payload)) && payload == UnsignedPayload(receipt)
    requires team != [] && Trusted(env, keyIdOk, registry, at, team[|team| - 1])
    requires !SignedByKey(earlier, team[|team| - 1].keyId)
    requires SignAll(env.sha, keyIdOk, receipt, team[..|team| - 1]) == Ok(earlier)
    requires SignedWith(env.sha, payload, receipt, earlier, team[..|team| - 1])
    ensures SignAll(env.sha, keyIdOk, receipt, team).Ok?
    ensures SignedWith(env.sha, payload, receipt, SignAll(env.sha, keyIdOk, receipt, team).value, team)
  {
    var last := team[|team| - 1];
    SameBody(env.sha, payload, receipt, earlier, team[..|team| - 1]);
    assert UnsignedPayload(earlier) == payload;
    PayloadNonEmpty(receipt);
    HonestEntryAccepted(env, keyIdOk, registry, at, payload, last);
    SignExactly(env.sha, keyIdOk, earlier, last);
    SignedOnce(env.sha, payload, receipt, earlier, team);
    assert SignAll(env.sha, keyIdOk, receipt, team) == Sign(env.sha, keyIdOk, earlier, last);
  }

  // ----- The verdict -----

  /** Everything the verifier asks of the receipt besides policy, hash and signatures. */
  ghost predicate WellFormed(env: Env, receipt: Fields) {
    && ShapeOk(receipt) && HashOpen(receipt, ReceiptHash(env.sha, receipt))
    && Get(receipt, "schema_version") == Str("sentinel.receipt.v1")
    && CreatedAt(env, receipt).Some?
    && ClassIn(receipt, {"A", "B", "C"})
    && Get(Chain(receipt), "sequence").Num?
    && exists previous :: Get(Chain(receipt), "previous_hash") == Str(previous) && IsUrn(previous)
  }

  lemma {:induction false} TeamEntriesGenuine(env: Env, keyIdOk: string -> bool, registry: Registry, payload: string,
                           receipt: Fields, signed: Fields, team: seq<Signer>)
    requires SignedWith(env.sha, payload, receipt, signed, team) && payload == UnsignedPayload(receipt)
    requires TrustedTeam(env, keyIdOk, registry, CreatedAt(env, receipt), team)
    requires EveryEntryGenuine(env, receipt, registry)
    ensures EveryEntryGenuine(env, signed, registry)
  {
    SameBody(env.sha, payload, receipt, signed, team);
    SameHash(env, signed, receipt);
    SignedGets(signed, receipt);
    PayloadNonEmpty(receipt);
    assert CreatedAt(env, signed) == CreatedAt(env, receipt);
    var before := Entries(receipt);
    forall i | 0 <= i < |Entries(signed)| ensures IsGenuine(env, signed, registry, Entries(signed)[i]) {
      if i < |before| {
        assert Entries(signed)[i] == before[i];
        var kid, role :| SignsReceipt(env, receipt, registry, before[i], kid, role);
        assert SignsReceipt(env, signed, registry, before[i], kid, role);
      } else {
        var m := team[i - |before|];
        HonestEntryAccepted(env, keyIdOk, registry, CreatedAt(env, receipt), payload, m);
        assert SignsReceipt(env, signed, registry, Entries(signed)[i], m.keyId, m.role);
      }
    }
  }

  lemma {:induction false} TeamKidsNamed(sha: HashFunction, payload: string, receipt: Fields, signed: Fields,
    team: seq<Signer>)
    requires SignedWith(sha, payload, receipt, signed, team)
    ensures SigningKids(Entries(signed)) == SigningKids(Entries(receipt)) + TeamKids(team)
  {
    var before, added, all := Entries(receipt), TeamEntries(sha, payload, team), Entries(signed);
    forall i | 0 <= i < |team|
      ensures added[i].Obj? && Get(added[i].fields, "kid") == Str(team[i].keyId)
    {
      EntryFields(Build(sha, payload, team[i].keyId, team[i].role), Answer(sha, payload, team[i]));
    }
    NamedKids(before, added, all, TeamKids(team), team);
  }

  lemma {:induction false} NamedKids(before: seq<Json>, added: seq<Json>, all: seq<Json>, kids: set<string>,
    team: seq<Signer>)
    requires all == before + added && |added| == |team| && kids == TeamKids(team)
    requires forall i :: 0 <= i < |team| ==> added[i].Obj? && Get(added[i].fields, "kid") == Str(team[i].keyId)
    ensures SigningKids(all) == SigningKids(before) + kids
  {
    forall k ensures k in SigningKids(all) <==> k in SigningKids(before) || k in kids {
      if k in kids {
        var i :| 0 <= i < |team| && team[i].keyId == k;
        assert added[i] in all;
      }
      if k in SigningKids(all) {
        var e :| e in all && e.Obj? && Get(e.fields, "kid") == Str(k);
        if e !in before {
          var i :| 0 <= i < |added| && added[i] == e;
        }
      }
    }
  }

  lemma {:induction false} DistinctCount(receipt: Fields, team: seq<Signer>)
    requires FreshTeam(receipt, team)
    ensures |TeamKids(team)| == |team|
    ensures SigningKids(Entries(receipt)) !! TeamKids(team)
    decreases |team|
  {
    if team == [] {
      assert TeamKids(team) == {};
    } else {
      var n := |team| - 1;
      DistinctCount(receipt, team[..n]);
      TeamKidsSplit(team);
      assert team[n].keyId !in TeamKids(team[..n]);
    }
    NoneSigned(receipt, team);
  }

  lemma {:induction false} TeamKidsSplit(team: seq<Signer>)
    requires team != []
    ensures TeamKids(team) == TeamKids(team[..|team| - 1]) + {team[|team| - 1].keyId}
  {
    var n := |team| - 1;
    forall k ensures k in TeamKids(team) <==> k in TeamKids(team[..n]) || k == team[n].keyId {
      if k in TeamKids(team[..n]) {
        var i :| 0 <= i < n && team[..n][i].keyId == k;
        assert team[i].keyId == k;
      }
      if k in TeamKids(team) {
        var i :| 0 <= i < |team| && team[i].keyId == k;
        if i < n { assert team[..n][i].keyId == k; }
      }
    }
  }

  lemma {:induction false} NoneSigned(receipt: Fields, team: seq<Signer>)
    requires FreshTeam(receipt, team)
    ensures SigningKids(Entries(receipt)) !! TeamKids(team)
  {
    forall k | k in SigningKids(Entries(receipt)) ensures k !in TeamKids(team) {
      var e :| e in Entries(receipt) && e.Obj? && Get(e.fields, "kid") == Str(k);
      var i :| 0 <= i < |Entries(receipt)| && Entries(receipt)[i] == e;
      assert SignedByKey(receipt, k);
    }
  }

  /**
   Start from a well-formed receipt whose entries, if any, are genuine, and sign in turn with
   distinct new keys that are registered, active, in their window and honest. Every round
   succeeds, the verifier counts exactly the signatures there are, and it reports RC_VERIFIED
   exactly when policy, threshold, class floor and required roles are met.
   */
  lemma {:induction false} SignedReceiptVerdict(env: Env, keyIdOk: string -> bool, registry: Registry, receipt: Fields,
                             team: seq<Signer>)
    requires WellFormed(env, receipt) && EveryEntryGenuine(env, receipt, registry) && team != []
    requires FreshTeam(receipt, team)
    requires TrustedTeam(env, keyIdOk, registry, CreatedAt(env, receipt), team)
    ensures SignAll(env.sha, keyIdOk, receipt, team).Ok?
    ensures var verdict := Judge(env, SignAll(env.sha, keyIdOk, receipt, team).value, registry);
            var earlier := SigningKids(Entries(receipt));
            && verdict.Finished?
            && verdict.result.validSignatures == |earlier| + |team|
            && (verdict.result.status == RcVerified <==>
                && SoundPolicy(receipt)
                && MinOrZero(receipt) <= |earlier| + |team|
                && RolesCovered(RolesOrNone(receipt), registry, earlier + TeamKids(team)))
  {
    var payload := UnsignedPayload(receipt);
    TeamSigns(env, keyIdOk, registry, CreatedAt(env, receipt), payload, receipt, team);
    var signed := SignAll(env.sha, keyIdOk, receipt, team).value;
    TeamEntriesGenuine(env, keyIdOk, registry, payload, receipt, signed, team);
    TeamKidsNamed(env.sha, payload, receipt, signed, team);
    DistinctCount(receipt, team);
    assert team[0].keyId in registry;
    SignedVerdict(env, registry, payload, receipt, signed, team);
  }

  /** Receipts with the same policy and class have equally sound policies. */
  lemma {:induction false} SoundPolicyKept(a: Fields, b: Fields)
    requires Get(a, "policy") == Get(b, "policy") && Get(a, "release_class") == Get(b, "release_class")
    ensures SoundPolicy(a) <==> SoundPolicy(b)
    ensures MinOrZero(a) == MinOrZero(b) && RolesOrNone(a) == RolesOrNone(b)
  {
    SamePolicy(a, b, 0);
    assert ClassIn(a, {"A"}) == ClassIn(b, {"A"}) && ClassIn(a, {"B", "C"}) == ClassIn(b, {"B", "C"});
  }

  lemma {:induction false} SoundHeaderReached(env: Env, payload: string, receipt: Fields, signed: Fields,
    team: seq<Signer>)
    requires WellFormed(env, receipt) && team != [] && SignedWith(env.sha, payload, receipt, signed, team)
    ensures SoundHeader(env, signed, HashText(env.sha, payload))
    ensures !Unhashable(Get(signed, "release_class")) && Entries(signed) != []
  {
    SignedGets(signed, receipt);
    assert CreatedAt(env, signed) == CreatedAt(env, receipt);
    assert ClassIn(signed, {"A", "B", "C"}) == ClassIn(receipt, {"A", "B", "C"});
  }

  lemma {:induction false} SignedVerdict(env: Env, registry: Registry, payload: string, receipt: Fields, signed: Fields,
                      team: seq<Signer>)
    requires WellFormed(env, receipt) && team != [] && registry != map[]
    requires SignedWith(env.sha, payload, receipt, signed, team) && payload == UnsignedPayload(receipt)
    requires EveryEntryGenuine(env, signed, registry)
    ensures var verdict := Judge(env, signed, registry);
            var kids := SigningKids(Entries(signed));
            && verdict.Finished? && verdict.result.validSignatures == |kids|
            && (verdict.result.status == RcVerified <==>
                && SoundPolicy(receipt) && MinOrZero(receipt) <= |kids|
                && RolesCovered(RolesOrNone(receipt), registry, kids))
  {
    SoundHeaderReached(env, payload, receipt, signed, team);
    SameBody(env.sha, payload, receipt, signed, team);
    assert ReceiptHash(env.sha, signed) == HashText(env.sha, payload) by { SameHash(env, signed, receipt); }
    SignedGets(signed, receipt);
    VerdictTransfers(env, registry, receipt, signed);
  }

  lemma {:induction false} VerdictTransfers(env: Env, registry: Registry, receipt: Fields, signed: Fields)
    requires EveryEntryGenuine(env, signed, registry) && registry != map[]
    requires !Unhashable(Get(signed, "release_class")) && Entries(signed) != []
    requires SoundHeader(env, signed, ReceiptHash(env.sha, signed))
    requires Get(signed, "policy") == Get(receipt, "policy")
    requires Get(signed, "release_class") == Get(receipt, "release_class")
    ensures var verdict := Judge(env, signed, registry);
            var kids := SigningKids(Entries(signed));
            && verdict.Finished? && verdict.result.validSignatures == |kids|
            && (verdict.result.status == RcVerified <==>
                && SoundPolicy(receipt) && MinOrZero(receipt) <= |kids|
                && RolesCovered(RolesOrNone(receipt), registry, kids))
  {
    GenuineVerdict(env, signed, registry);
    SoundPolicyKept(signed, receipt);
  }
}

/**
 verify_evidence_record: staged checks that collect errors, trusted signature verification, and
 policy authorization bound to the role of the verified key.
 */
module EvidenceVerifier {
  import opened Wrappers
  import opened Json
  import opened ChainLink
  import opened Digests
  import opened Base64
  import opened Times
  import opened Trust
  import opened Policies
  import Utf8

  datatype Env = Env(
    sha: HashFunction,
    parseTime: Clock,
    schemaOk: Fields -> bool,
    eddsa: (Bytes, Bytes, Bytes) -> bool)  // key, payload, signature

  datatype Options = Options(
    expectedPreviousHash: string,
    expectedDigest: Option<string>,
    requireSignatureValue: bool,
    requireTrustedSignature: bool,
    requirePolicyAuthorization: bool)

  datatype Error =
    | SchemaInvalid | PreviousHashMismatch | DigestMismatch | SignatureValueMissing
    | TrustRegistryMissing | SignatureObjectMissing | SignatureMetadataMissing | IssuedAtMissing
    | Untrusted(reason: TrustError) | SignatureRejected | AlgorithmUnsupported
    | PolicyRegistryMissing | RoleMissing | Unauthorized(cause: PolicyError)

  datatype Warning = SignatureNotChecked | PolicyNotChecked

  datatype Evidence = Evidence(
    ok: bool,
    digest: string,
    errors: seq<Error>,
    warnings: seq<Warning>,
    actorRole: Option<string>,
    keyId: Option<string>)

  /** Raised: the OverflowError of a timestamp, which verify_evidence_record lets through. */
  datatype Outcome = Raised | Finished(result: Evidence)

  // ----- The stages as functions -----

  function Signature(record: Fields): Json {
    Get(record, "signature")
  }

  /** Python truth of the signature value. */
  predicate HasSignatureValue(record: Fields) {
    Signature(record).Obj? &&
    match Get(Signature(record).fields, "value")
    case Null => false
    case Bool(b) => b
    case Num(n) => n != 0
    case Real(_) => true
    case Str(s) => s != ""
    case Arr(items) => items != []
    case Obj(fields) => fields != []
  }

  function When(problem: bool, error: Error): seq<Error> {
    if problem then [error] else []
  }

  function BasicErrors(env: Env, record: Fields, options: Options): seq<Error> {
    When(!env.schemaOk(record), SchemaInvalid)
    + When(Get(record, "previous_hash") != Str(options.expectedPreviousHash), PreviousHashMismatch)
    + When(options.expectedDigest.Some? && options.expectedDigest.value != LinkDigest(env.sha, record),
           DigestMismatch)
    + When(options.requireSignatureValue && !HasSignatureValue(record), SignatureValueMissing)
  }

  /** verify_eddsa_record: the signature object is checked again, then decoded and verified. */
  predicate EddsaVerifies(env: Env, record: Fields, publicKey: string) {
    var signature := Signature(record);
    && signature.Obj? && Get(signature.fields, "alg") == Str("EdDSA")
    && Get(signature.fields, "value").Str? && Get(signature.fields, "value").s != ""
    && DecodeLenient(publicKey).Some? && DecodeLenient(Get(signature.fields, "value").s).Some?
    && env.eddsa(DecodeLenient(publicKey).value, Utf8.Encode(LinkPayload(record)),
                 DecodeLenient(Get(signature.fields, "value").s).value)
  }

  datatype TrustStage = TrustStage(key: Option<TrustKey>, errors: seq<Error>)

  function CheckTrust(env: Env, record: Fields, keys: Keys): TrustStage {
    var signature := Signature(record);
    if !signature.Obj? then TrustStage(None, [SignatureObjectMissing])
    else
      var keyId, alg := Get(signature.fields, "key_id"), Get(signature.fields, "alg");
      var issuedAt := Get(record, "issued_at");
      if !keyId.Str? || !alg.Str? then TrustStage(None, [SignatureMetadataMissing])
      else if !issuedAt.Str? then TrustStage(None, [IssuedAtMissing])
      else
        match ResolveActiveAt(env.parseTime, keys, keyId.s, alg.s, issuedAt.s)
        case Err(reason) => TrustStage(None, [Untrusted(reason)])
        case Ok(key) =>
          if key.alg != "EdDSA" then TrustStage(Some(key), [AlgorithmUnsupported])
          else if EddsaVerifies(env, record, key.publicKey) then TrustStage(Some(key), [])
          else TrustStage(Some(key), [SignatureRejected])
  }

  function TrustOrNot(env: Env, record: Fields, keys: Option<Keys>, options: Options): TrustStage {
    match keys
    case None => TrustStage(None, When(options.requireTrustedSignature, TrustRegistryMissing))
    case Some(k) => CheckTrust(env, record, k)
  }

  /** A resolved key's role is authoritative; the manual role is for runs without one. */
  function PolicyRole(key: Option<TrustKey>, actorRole: Option<string>): Option<string> {
    if key.Some? then Some(key.value.role) else actorRole
  }

  function PolicyErrors(record: Fields, role: Option<string>, policies: Option<Policies>, options: Options)
    : seq<Error>
  {
    match policies
    case None => When(options.requirePolicyAuthorization, PolicyRegistryMissing)
    case Some(p) =>
      if role.None? then [RoleMissing]
      else
        match Authorize(record, role.value, p)
        case None => []
        case Some(cause) => [Unauthorized(cause)]
  }

  function AllErrors(env: Env, record: Fields, options: Options, keys: Option<Keys>,
                     policies: Option<Policies>, actorRole: Option<string>): seq<Error>
  {
    var trust := TrustOrNot(env, record, keys, options);
    BasicErrors(env, record, options) + trust.errors
    + PolicyErrors(record, PolicyRole(trust.key, actorRole), policies, options)
  }

  predicate IsOk(env: Env, record: Fields, options: Options, keys: Option<Keys>,
                 policies: Option<Policies>, actorRole: Option<string>)
  {
    AllErrors(env, record, options, keys, policies, actorRole) == []
  }

  /** The trust stage meets a timestamp that overflows. */
  predicate Raises(env: Env, record: Fields, options: Options, keys: Option<Keys>) {
    TrustOrNot(env, record, keys, options).errors == [Untrusted(TimeOverflow)]
  }

  function AllWarnings(options: Options, keys: Option<Keys>, policies: Option<Policies>): seq<Warning> {
    (if keys.None? && !options.requireTrustedSignature then [SignatureNotChecked] else [])
    + if policies.None? && !options.requirePolicyAuthorization then [PolicyNotChecked] else []
  }

  /** The role reported: that of an authorized record, or else of the resolved key. */
  function ReportedRole(
    record: Fields, key: Option<TrustKey>, actorRole: Option<string>, policies: Option<Policies>, options: Options)
    : Option<string>
  {
    if policies.Some? && PolicyErrors(record, PolicyRole(key, actorRole), policies, options) == []
    then PolicyRole(key, actorRole)
    else if key.Some? then Some(key.value.role)
    else None
  }

  /** What is reported, for records accepted or not. */
  function Report(env: Env, record: Fields, options: Options, keys: Option<Keys>,
                  policies: Option<Policies>, actorRole: Option<string>): Evidence
  {
    var key := TrustOrNot(env, record, keys, options).key;
    Evidence(
      IsOk(env, record, options, keys, policies, actorRole), LinkDigest(env.sha, record),
      AllErrors(env, record, options, keys, policies, actorRole), AllWarnings(options, keys, policies),
      ReportedRole(record, key, actorRole, policies, options),
      if key.Some? then Some(key.value.keyId) else None)
  }

  // ----- The verifier -----

  function KeysIn(registry: TrustRegistry?): Option<Keys>
    reads registry
  {
    if registry == null then None else Some(registry.keys)
  }

  function PoliciesIn(registry: PolicyRegistry?): Option<Policies>
    reads registry
  {
    if registry == null then None else Some(registry.policies)
  }

  method CheckPolicy(record: Fields, role: Option<string>, policies: PolicyRegistry?, options: Options)
    returns (errors: seq<Error>)
    ensures errors == PolicyErrors(record, role, PoliciesIn(policies), options)
  {
    errors := [];
    if policies == null {
      if options.requirePolicyAuthorization {
        errors := [PolicyRegistryMissing];
      }
    } else if role.None? {
      errors := [RoleMissing];
    } else {
      match Authorize(record, role.value, policies.policies) {
        case None =>
        case Some(cause) => errors := [Unauthorized(cause)];
      }
    }
  }

  /** The trust stage: what it reports, and whether it was not asked for. */
  method RunTrust(env: Env, record: Fields, options: Options, trust: TrustRegistry?)
    returns (stage: TrustStage, warnings: seq<Warning>)
    ensures stage == TrustOrNot(env, record, KeysIn(trust), options)
    ensures warnings == if trust == null && !options.requireTrustedSignature then [SignatureNotChecked] else []
  {
    warnings := [];
    if trust == null {
      stage := TrustStage(None, []);
      if options.requireTrustedSignature {
        stage := TrustStage(None, [TrustRegistryMissing]);
      } else {
        warnings := [SignatureNotChecked];
      }
    } else {
      stage := CheckTrust(env, record, trust.keys);
    }
  }

  /** verify_evidence_record */
  method Verify(env: Env, record: Fields, options: Options, trust: TrustRegistry?,
                policies: PolicyRegistry?, actorRole: Option<string>)
    returns (outcome: Outcome)
    ensures outcome
         == if Raises(env, record, options, KeysIn(trust)) then Raised
            else Finished(Report(env, record, options, KeysIn(trust), PoliciesIn(policies), actorRole))
  {
    var errors := BasicErrors(env, record, options);
    var stage, warnings := RunTrust(env, record, options, trust);
    if stage.errors == [Untrusted(TimeOverflow)] {
      return Raised;
    }
    errors := errors + stage.errors;
    var resolvedKeyId := if stage.key.Some? then Some(stage.key.value.keyId) else None;
    var resolvedActorRole := if stage.key.Some? then Some(stage.key.value.role) else None;

    var policyRole := PolicyRole(stage.key, actorRole);
    var policyErrors := CheckPolicy(record, policyRole, policies, options);
    errors := errors + policyErrors;
    if policies == null && !options.requirePolicyAuthorization {
      warnings := warnings + [PolicyNotChecked];
    }
    if policies != null && policyErrors == [] {
      resolvedActorRole := policyRole;
    }
    return Finished(
      Evidence(errors == [], LinkDigest(env.sha, record), errors, warnings, resolvedActorRole, resolvedKeyId));
  }

  /**
   What the reported role and key mean, accepted or not: a resolved key's own, else no key and the
   manual role exactly when the record's policy permits it.
   */
  lemma {:induction false} ReportExactly(env: Env, record: Fields, options: Options, keys: Option<Keys>,
                                         policies: Option<Policies>, actorRole: Option<string>)
    ensures var report := Report(env, record, options, keys, policies, actorRole);
            match TrustOrNot(env, record, keys, options).key
            case Some(key) => report.actorRole == Some(key.role) && report.keyId == Some(key.keyId)
            case None =>
              && report.keyId == None
              && (report.actorRole.Some? ==> report.actorRole == actorRole)
              && (report.actorRole.Some? <==>
                  policies.Some? && actorRole.Some? && Permits(record, actorRole.value, policies.value))
  {
    if policies.Some? && actorRole.Some? {
      AuthorizeExactly(record, actorRole.value, policies.value);
    }
  }

  /** The key reported is the one resolved: registered, active and in its window at the time of issue. */
  lemma {:induction false} ReportedKey(env: Env, record: Fields, options: Options, keys: Option<Keys>, key: TrustKey)
    ensures TrustOrNot(env, record, keys, options).key == Some(key) <==>
            keys.Some? && ResolvedFor(env, record, keys.value, key)
  {
    var signature := Signature(record);
    if keys.Some? && signature.Obj? {
      var keyId, alg := Get(signature.fields, "key_id"), Get(signature.fields, "alg");
      var issuedAt := Get(record, "issued_at");
      if keyId.Str? && alg.Str? && issuedAt.Str? {
        ResolveExactly(env.parseTime, keys.value, keyId.s, alg.s, issuedAt.s, key);
      }
    }
  }

  ghost predicate ResolvedFor(env: Env, record: Fields, keys: Keys, key: TrustKey) {
    exists keyId, alg, issuedAt ::
      && Signature(record).Obj? && Get(Signature(record).fields, "key_id") == Str(keyId)
      && Get(Signature(record).fields, "alg") == Str(alg) && Get(record, "issued_at") == Str(issuedAt)
      && keyId in keys && keys[keyId] == key && ActiveAt(env.parseTime, key, alg, issuedAt)
  }

  // ----- Role binding -----

  /** With a trust registry, the manual role never decides acceptance. */
  lemma {:induction false} RoleIsBound(env: Env, record: Fields, options: Options, keys: Keys,
                                       policies: Option<Policies>, a: Option<string>, b: Option<string>)
    ensures IsOk(env, record, options, Some(keys), policies, a) <==> IsOk(env, record, options, Some(keys), policies, b)
  {
  }

  ghost predicate TrustedRecord(env: Env, record: Fields, keys: Keys, key: TrustKey) {
    && (exists keyId, issuedAt ::
          && Signature(record).Obj? && Get(Signature(record).fields, "key_id") == Str(keyId)
          && Get(record, "issued_at") == Str(issuedAt)
          && keyId in keys && keys[keyId] == key && ActiveAt(env.parseTime, key, "EdDSA", issuedAt))
    && SignedUnder(env, record, key.publicKey)
  }

  /** The signature value, decoded, is a signature over the record with that value blanked. */
  ghost predicate SignedUnder(env: Env, record: Fields, publicKey: string) {
    exists signature, value, key, raw ::
      && Get(record, "signature") == Obj(signature) && Get(signature, "alg") == Str("EdDSA")
      && Get(signature, "value") == Str(value) && value != ""
      && DecodeLenient(publicKey) == Some(key) && DecodeLenient(value) == Some(raw)
      && env.eddsa(key, Utf8.Encode(LinkPayload(record)), raw)
  }

  lemma {:induction false} EddsaExactly(env: Env, record: Fields, publicKey: string)
    ensures EddsaVerifies(env, record, publicKey) <==> SignedUnder(env, record, publicKey)
  {
    if EddsaVerifies(env, record, publicKey) {
      var signature := Signature(record).fields;
      var value := Get(signature, "value").s;
      assert Get(record, "signature") == Obj(signature) && Get(signature, "value") == Str(value);
      assert DecodeLenient(publicKey) == Some(DecodeLenient(publicKey).value);
      assert DecodeLenient(value) == Some(DecodeLenient(value).value);
    }
  }

  lemma {:induction false} TrustExactly(env: Env, record: Fields, keys: Keys, key: TrustKey)
    ensures CheckTrust(env, record, keys) == TrustStage(Some(key), []) <==> TrustedRecord(env, record, keys, key)
  {
    var signature := Signature(record);
    if signature.Obj? {
      var keyId, alg := Get(signature.fields, "key_id"), Get(signature.fields, "alg");
      var issuedAt := Get(record, "issued_at");
      if keyId.Str? && alg.Str? && issuedAt.Str? {
        ResolveExactly(env.parseTime, keys, keyId.s, alg.s, issuedAt.s, key);
      }
    }
    EddsaExactly(env, record, key.publicKey);
  }

  /** A signature object with a value that Python takes as true. */
  ghost predicate HasValue(record: Fields) {
    exists signature ::
      && Get(record, "signature") == Obj(signature)
      && var v := Get(signature, "value");
         && v != Null && v != Bool(false) && v != Num(0) && v != Str("") && v != Arr([]) && v != Obj([])
  }

  lemma {:induction false} ValueExactly(record: Fields)
    ensures HasSignatureValue(record) <==> HasValue(record)
  {
    match Signature(record)
    case Obj(signature) => assert Get(record, "signature") == Obj(signature);
    case _ =>
  }

  ghost predicate Sound(env: Env, record: Fields, options: Options) {
    && env.schemaOk(record)
    && Get(record, "previous_hash") == Str(options.expectedPreviousHash)
    && (options.expectedDigest.Some? ==> options.expectedDigest.value == LinkDigest(env.sha, record))
    && (options.requireSignatureValue ==> HasValue(record))
  }

  lemma {:induction false} BasicExactly(env: Env, record: Fields, options: Options)
    ensures BasicErrors(env, record, options) == [] <==> Sound(env, record, options)
  {
    ValueExactly(record);
  }

  /** Each basic error is reported exactly when the record has that fault. */
  lemma {:induction false} BasicReports(env: Env, record: Fields, options: Options, error: Error)
    ensures error in BasicErrors(env, record, options) <==>
            match error
            case SchemaInvalid => !env.schemaOk(record)
            case PreviousHashMismatch => Get(record, "previous_hash") != Str(options.expectedPreviousHash)
            case DigestMismatch =>
              options.expectedDigest.Some? && options.expectedDigest.value != LinkDigest(env.sha, record)
            case SignatureValueMissing => options.requireSignatureValue && !HasValue(record)
            case _ => false
  {
    ValueExactly(record);
  }

  /** What the trust stage reports is so. */
  lemma {:induction false} TrustReports(env: Env, record: Fields, keys: Keys, error: Error)
    requires error in CheckTrust(env, record, keys).errors
    ensures var signature := Get(record, "signature");
            var stage := CheckTrust(env, record, keys);
            match error
            case SignatureObjectMissing => !signature.Obj?
            case SignatureMetadataMissing =>
              signature.Obj? && !(Get(signature.fields, "key_id").Str? && Get(signature.fields, "alg").Str?)
            case IssuedAtMissing => !Get(record, "issued_at").Str?
            case Untrusted(reason) =>
              exists keyId, alg, issuedAt ::
                signature.Obj? && Get(signature.fields, "key_id") == Str(keyId)
                && Get(signature.fields, "alg") == Str(alg) && Get(record, "issued_at") == Str(issuedAt)
                && ResolveActiveAt(env.parseTime, keys, keyId, alg, issuedAt) == Err(reason)
            case AlgorithmUnsupported => stage.key.Some? && stage.key.value.alg != "EdDSA"
            case SignatureRejected => stage.key.Some? && !SignedUnder(env, record, stage.key.value.publicKey)
            case _ => false
  {
    var stage := CheckTrust(env, record, keys);
    if stage.key.Some? {
      EddsaExactly(env, record, stage.key.value.publicKey);
    } else if Get(record, "signature").Obj? && error.Untrusted? {
      var signature := Get(record, "signature").fields;
      assert Get(signature, "key_id") == Str(Get(signature, "key_id").s);
      assert Get(signature, "alg") == Str(Get(signature, "alg").s);
      assert Get(record, "issued_at") == Str(Get(record, "issued_at").s);
    }
  }

  /** What the policy stage reports is so. */
  lemma {:induction false} PolicyReports(
    record: Fields, role: Option<string>, policies: Option<Policies>, options: Options, error: Error)
    requires error in PolicyErrors(record, role, policies, options)
    ensures match error
            case PolicyRegistryMissing => policies.None? && options.requirePolicyAuthorization
            case RoleMissing => policies.Some? && role.None?
            case Unauthorized(cause) =>
              policies.Some? && role.Some? && Authorize(record, role.value, policies.value) == Some(cause)
            case _ => false
  {
  }

  /**
   With both registries, a record is accepted exactly when the basic checks hold and one active,
   in-window registered key signed its blanked payload and its own role is permitted by the
   record's policy.
   */
  lemma {:induction false} AcceptedExactly(env: Env, record: Fields, options: Options, keys: Keys,
                                           policies: Policies, actorRole: Option<string>)
    ensures IsOk(env, record, options, Some(keys), Some(policies), actorRole) <==>
            && Sound(env, record, options)
            && exists key :: TrustedRecord(env, record, keys, key) && Permits(record, key.role, policies)
  {
    BasicExactly(env, record, options);
    var stage := CheckTrust(env, record, keys);
    if stage.key.Some? {
      TrustExactly(env, record, keys, stage.key.value);
      AuthorizeExactly(record, stage.key.value.role, policies);
    }
    if key :| TrustedRecord(env, record, keys, key) && Permits(record, key.role, policies) {
      TrustExactly(env, record, keys, key);
    }
  }

  ghost predicate Stricter(a: Options, b: Options) {
    && a.expectedPreviousHash == b.expectedPreviousHash && a.expectedDigest == b.expectedDigest
    && (b.requireSignatureValue ==> a.requireSignatureValue)
    && (b.requireTrustedSignature ==> a.requireTrustedSignature)
    && (b.requirePolicyAuthorization ==> a.requirePolicyAuthorization)
  }

  /** Turning on any require flag never turns a rejection into an acceptance. */
  lemma {:induction false} FlagsOnlyReject(env: Env, record: Fields, strict: Options, loose: Options,
                                           keys: Option<Keys>, policies: Option<Policies>, actorRole: Option<string>)
    requires Stricter(strict, loose)
    requires IsOk(env, record, strict, keys, policies, actorRole)
    ensures IsOk(env, record, loose, keys, policies, actorRole)
  {
    BasicExactly(env, record, strict);
    BasicExactly(env, record, loose);
  }
}

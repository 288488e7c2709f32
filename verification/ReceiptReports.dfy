/** What the fields a verification reports mean, and what its checks read in a receipt. */
module ReceiptReports {
  import opened Wrappers
  import opened Json
  import opened Digests
  import opened Base64
  import opened Receipts
  import opened ReceiptTheorems
  import opened Times
  import Es256
  import Utf8

  // ----- What is read -----

  /** The policy's threshold: a non-negative integer, which a boolean is not. */
  lemma {:induction false} MinSignaturesExactly(receipt: Fields, n: nat)
    ensures MinSignatures(receipt) == Some(n) <==>
            exists policy :: Get(receipt, "policy") == Obj(policy) && Get(policy, "min_signatures") == Num(n)
  {
    match Get(receipt, "policy")
    case Obj(policy) => assert Get(receipt, "policy") == Obj(policy);
    case _ =>
  }

  /** A policy without the list requires no role; a list must hold texts only. */
  lemma {:induction false} RequiredRolesExactly(receipt: Fields, roles: seq<string>)
    ensures RequiredRoles(receipt) == Some(roles) <==>
            match Find(Policy(receipt), "required_roles")
            case None => roles == []
            case Some(v) =>
              v.Arr? && |v.items| == |roles| && forall i :: 0 <= i < |roles| ==> v.items[i] == Str(roles[i])
  {
    match Find(Policy(receipt), "required_roles")
    case None =>
    case Some(v) => if v.Arr? { StringsExactly(v.items, roles); }
  }

  lemma {:induction false} StringsExactly(items: seq<Json>, roles: seq<string>)
    ensures Strings(items) == Some(roles) <==>
            |items| == |roles| && forall i :: 0 <= i < |roles| ==> items[i] == Str(roles[i])
  {
    if items != [] && roles != [] {
      StringsExactly(items[1..], roles[1..]);
      assert items == [items[0]] + items[1..] && roles == [roles[0]] + roles[1..];
    }
  }

  /** The creation time: a text that ends in Z and parses. */
  lemma {:induction false} CreatedExactly(env: Env, receipt: Fields, t: int)
    ensures CreatedAt(env, receipt) == Some(t) <==>
            exists s :: Get(receipt, "created_at") == Str(s) && s != "" && s[|s| - 1] == 'Z'
              && env.parseTime(s) == Instant(t)
  {
    match Get(receipt, "created_at")
    case Str(s) => assert Get(receipt, "created_at") == Str(s);
    case _ =>
  }

  lemma {:induction false} ClassExactly(receipt: Fields, classes: set<string>)
    ensures ClassIn(receipt, classes) <==> exists c :: c in classes && Get(receipt, "release_class") == Str(c)
  {
    match Get(receipt, "release_class")
    case Str(c) => assert Get(receipt, "release_class") == Str(c);
    case _ =>
  }

  /** A protected header: base64url of UTF-8 of JSON. */
  lemma {:induction false} HeaderExactly(protected: string, header: Json)
    ensures ReadHeader(protected) == Some(header) <==>
            exists bytes, text ::
              DecodeLenient(protected) == Some(bytes) && Utf8.Decode(bytes) == Some(text) && Loads(text) == Some(header)
  {
    if DecodeLenient(protected).Some? && Utf8.Decode(DecodeLenient(protected).value).Some? {
      var bytes := DecodeLenient(protected).value;
      assert DecodeLenient(protected) == Some(bytes) && Utf8.Decode(bytes) == Some(Utf8.Decode(bytes).value);
    }
  }

  /** A signature verifies as the pair of big-endian halves of 64 bytes, over the hash of the input. */
  lemma {:induction false} JwsExactly(env: Env, jwk: Fields, input: string, signature: string)
    ensures VerifyJws(env, jwk, input, signature) == Genuine <==>
            exists raw :: DecodeLenient(signature) == Some(raw) && |raw| == 64
              && env.ecdsa(jwk, env.sha(Utf8.Encode(input)), Es256.BigEndian(raw[..32]), Es256.BigEndian(raw[32..]))
                 == Genuine
  {
    if DecodeLenient(signature).Some? {
      assert DecodeLenient(signature) == Some(DecodeLenient(signature).value);
    }
  }

  // ----- The fields of a verdict -----

  lemma {:induction false} ErrorsExactly(issues: seq<Issue>)
    ensures HasErrors(issues) <==> !NoErrors(issues)
  {
  }

  /** The fields of a verdict agree with each other and with its issues. */
  lemma {:induction false} VerdictConsistent(env: Env, receipt: Fields, registry: Registry)
    requires Judge(env, receipt, registry).Finished?
    ensures var v := Judge(env, receipt, registry).result;
            && (v.verified <==> v.status == RcVerified)
            && (v.status == ConfigError <==> registry == map[]) && (v.receiptHash.None? <==> registry == map[])
            && (v.receiptHash.Some? ==> v.receiptHash.value == ReceiptHash(env.sha, receipt))
            && (v.status == RcVerified <==> NoErrors(v.issues))
            && v.requiredSignatures == MinOrZero(receipt)
            && (registry == map[] ==>
                v.validSignatures == 0 && v.matchedRoles == {} && Issue(Error, TrustRegistryEmpty, "") in v.issues)
  {
    ErrorsExactly(Judge(env, receipt, registry).result.issues);
    if registry == map[] {
      var issues := NoRegistry(receipt).issues;
      assert issues[|issues| - 1].severity == Error;
    }
  }

  // ----- Which issues are reported before the signatures -----

  /** The receipt has the fault a code stands for. */
  ghost predicate Fault(env: Env, receipt: Fields, hash: string, code: Code) {
    match code
    case PolicyInvalid => !Get(receipt, "policy").Obj?
    case ReleasePolicyRequired => ClassIn(receipt, {"B", "C"}) && !HasKey(Policy(receipt), "min_signatures")
    case MinSignaturesInvalid => MinSignatures(receipt).None?
    case ReleasePolicyTooWeak =>
      ClassIn(receipt, {"B", "C"}) && forall n :: MinSignatures(receipt) == Some(n) ==> n == 0
    case SchemaVersionInvalid => Get(receipt, "schema_version") != Str("sentinel.receipt.v1")
    case CreatedAtInvalid => CreatedAt(env, receipt).None?
    case ReleaseClassInvalid => !ClassIn(receipt, {"A", "B", "C"})
    case ChainSequenceInvalid => forall n :: Get(Chain(receipt), "sequence") != Num(n)
    case PreviousHashInvalid => forall d: Digest :: Get(Chain(receipt), "previous_hash") != Str(Urn(d))
    case ReceiptHashMismatch => Get(Chain(receipt), "receipt_hash") != Str(hash)
    case SignaturesMissing => Entries(receipt) == []
    case RequiredRolesInvalid => RequiredRoles(receipt).None?
    case _ => false
  }

  lemma {:induction false} InWhen(problem: bool, code: Code, other: Code)
    ensures Issue(Error, other, "") in When(problem, code) <==> problem && other == code
  {
  }

  lemma {:induction false} InJoined(a: seq<Issue>, b: seq<Issue>, issue: Issue)
    ensures issue in a + b <==> issue in a || issue in b
  {
  }

  /** A code of the three, for which its condition holds. */
  predicate Among(a: bool, x: Code, b: bool, y: Code, c: bool, z: Code, code: Code) {
    (a && code == x) || (b && code == y) || (c && code == z)
  }

  lemma {:induction false} InThree(a: bool, x: Code, b: bool, y: Code, c: bool, z: Code, code: Code)
    ensures Issue(Error, code, "") in When(a, x) + When(b, y) + When(c, z) <==>
            Among(a, x, b, y, c, z, code)
  {
    InJoined(When(a, x), When(b, y), Issue(Error, code, ""));
    InJoined(When(a, x) + When(b, y), When(c, z), Issue(Error, code, ""));
    InWhen(a, x, code);
    InWhen(b, y, code);
    InWhen(c, z, code);
  }

  lemma {:induction false} PolicyFaults(env: Env, receipt: Fields, hash: string, code: Code)
    ensures var weak := ClassIn(receipt, {"B", "C"}) && MinOrZero(receipt) < 1;
            var missing := ClassIn(receipt, {"B", "C"}) && Find(Policy(receipt), "min_signatures").None?;
            OfPolicy(code) && Fault(env, receipt, hash, code) <==>
            || Among(!Get(receipt, "policy").Obj?, PolicyInvalid, missing, ReleasePolicyRequired,
                     MinSignatures(receipt).None?, MinSignaturesInvalid, code)
            || (weak && code == ReleasePolicyTooWeak)
  {
  }

  lemma {:induction false} PolicyReports(env: Env, receipt: Fields, hash: string, code: Code)
    ensures Issue(Error, code, "") in PolicyIssues(receipt) <==> OfPolicy(code) && Fault(env, receipt, hash, code)
  {
    var weak := ClassIn(receipt, {"B", "C"}) && MinOrZero(receipt) < 1;
    var missing := ClassIn(receipt, {"B", "C"}) && Find(Policy(receipt), "min_signatures").None?;
    PolicyFaults(env, receipt, hash, code);
    InPolicy(!Get(receipt, "policy").Obj?, missing, MinSignatures(receipt).None?, weak, code);
  }

  lemma {:induction false} InPolicy(a: bool, b: bool, c: bool, d: bool, code: Code)
    ensures Issue(Error, code, "") in When(a, PolicyInvalid) + When(b, ReleasePolicyRequired)
                                      + When(c, MinSignaturesInvalid) + When(d, ReleasePolicyTooWeak) <==>
            || Among(a, PolicyInvalid, b, ReleasePolicyRequired, c, MinSignaturesInvalid, code)
            || (d && code == ReleasePolicyTooWeak)
  {
    InThree(a, PolicyInvalid, b, ReleasePolicyRequired, c, MinSignaturesInvalid, code);
    InWhen(d, ReleasePolicyTooWeak, code);
    InJoined(When(a, PolicyInvalid) + When(b, ReleasePolicyRequired) + When(c, MinSignaturesInvalid),
             When(d, ReleasePolicyTooWeak), Issue(Error, code, ""));
  }

  lemma {:induction false} FormReports(env: Env, receipt: Fields, hash: string, code: Code)
    ensures Issue(Error, code, "") in FormIssues(env, receipt) <==> OfForm(code) && Fault(env, receipt, hash, code)
  {
    FormFaults(env, receipt, hash, code);
    InThree(Get(receipt, "schema_version") != Str("sentinel.receipt.v1"), SchemaVersionInvalid,
            CreatedAt(env, receipt).None?, CreatedAtInvalid,
            !ClassIn(receipt, {"A", "B", "C"}), ReleaseClassInvalid, code);
  }

  lemma {:induction false} FormFaults(env: Env, receipt: Fields, hash: string, code: Code)
    ensures OfForm(code) && Fault(env, receipt, hash, code) <==>
            Among(Get(receipt, "schema_version") != Str("sentinel.receipt.v1"), SchemaVersionInvalid,
                  CreatedAt(env, receipt).None?, CreatedAtInvalid,
                  !ClassIn(receipt, {"A", "B", "C"}), ReleaseClassInvalid, code)
  {
  }

  lemma {:induction false} ChainFaults(env: Env, receipt: Fields, hash: string, code: Code)
    ensures var chain := Chain(receipt);
            var previous := Get(chain, "previous_hash");
            OfChain(code) && Fault(env, receipt, hash, code) <==>
            Among(!Get(chain, "sequence").Num?, ChainSequenceInvalid,
                  !(previous.Str? && IsUrn(previous.s)), PreviousHashInvalid,
                  Get(chain, "receipt_hash") != Str(hash), ReceiptHashMismatch, code)
  {
    NoNumber(Get(Chain(receipt), "sequence"));
    NoUrn(Get(Chain(receipt), "previous_hash"));
  }

  lemma {:induction false} NoNumber(v: Json)
    ensures v.Num? <==> exists n :: v == Num(n)
  {
    if v.Num? {
      assert v == Num(v.n);
    }
  }

  lemma {:induction false} NoUrn(v: Json)
    ensures v.Str? && IsUrn(v.s) <==> exists d: Digest :: v == Str(Urn(d))
  {
    if v.Str? {
      UrnExactly(v.s);
    }
  }

  lemma {:induction false} ChainReports(env: Env, receipt: Fields, hash: string, code: Code)
    ensures Issue(Error, code, "") in ChainIssues(Chain(receipt), hash) <==>
            OfChain(code) && Fault(env, receipt, hash, code)
  {
    var chain := Chain(receipt);
    var previous := Get(chain, "previous_hash");
    ChainFaults(env, receipt, hash, code);
    InThree(!Get(chain, "sequence").Num?, ChainSequenceInvalid,
            !(previous.Str? && IsUrn(previous.s)), PreviousHashInvalid,
            Get(chain, "receipt_hash") != Str(hash), ReceiptHashMismatch, code);
  }

  lemma {:induction false} ListReports(env: Env, receipt: Fields, hash: string, code: Code)
    ensures Issue(Error, code, "") in ListIssues(receipt) <==>
            OfList(code) && Fault(env, receipt, hash, code)
  {
    InWhen(Entries(receipt) == [], SignaturesMissing, code);
    InWhen(RequiredRoles(receipt).None?, RequiredRolesInvalid, code);
    InJoined(When(Entries(receipt) == [], SignaturesMissing), When(RequiredRoles(receipt).None?, RequiredRolesInvalid),
             Issue(Error, code, ""));
  }

  predicate OfPolicy(code: Code) {
    || code == PolicyInvalid || code == ReleasePolicyRequired
    || code == MinSignaturesInvalid || code == ReleasePolicyTooWeak
  }

  predicate OfForm(code: Code) {
    code == SchemaVersionInvalid || code == CreatedAtInvalid || code == ReleaseClassInvalid
  }

  predicate OfChain(code: Code) {
    code == ChainSequenceInvalid || code == PreviousHashInvalid || code == ReceiptHashMismatch
  }

  predicate OfList(code: Code) {
    code == SignaturesMissing || code == RequiredRolesInvalid
  }

  lemma {:induction false} FaultCode(env: Env, receipt: Fields, hash: string, code: Code)
    requires Fault(env, receipt, hash, code)
    ensures OfPolicy(code) || OfForm(code) || OfChain(code) || OfList(code)
  {
  }

  lemma {:induction false} Combined(
    p: seq<Issue>, f: seq<Issue>, c: seq<Issue>, l: seq<Issue>, code: Code, fault: bool)
    requires Issue(Error, code, "") in p <==> OfPolicy(code) && fault
    requires Issue(Error, code, "") in f <==> OfForm(code) && fault
    requires Issue(Error, code, "") in c <==> OfChain(code) && fault
    requires Issue(Error, code, "") in l <==> OfList(code) && fault
    requires fault ==> OfPolicy(code) || OfForm(code) || OfChain(code) || OfList(code)
    ensures Issue(Error, code, "") in p + (f + c + l) <==> fault
  {
  }

  /** Before the signatures, a code is reported exactly when the receipt has that fault. */
  lemma {:induction false} LeadingReports(env: Env, receipt: Fields, hash: string, code: Code)
    ensures Issue(Error, code, "") in LeadingIssues(env, receipt, hash) <==> Fault(env, receipt, hash, code)
  {
    var fault := Fault(env, receipt, hash, code);
    PolicyReports(env, receipt, hash, code);
    FormReports(env, receipt, hash, code);
    ChainReports(env, receipt, hash, code);
    ListReports(env, receipt, hash, code);
    if fault {
      FaultCode(env, receipt, hash, code);
    }
    Combined(PolicyIssues(receipt), FormIssues(env, receipt), ChainIssues(Chain(receipt), hash), ListIssues(receipt),
             code, fault);
  }

  // ----- Why an entry is rejected -----

  /** The bound is a text the clock reads as a time on the wrong side. */
  ghost predicate Outside(env: Env, bound: Json, at: Option<int>, before: bool) {
    exists s, t, now :: bound == Str(s) && env.parseTime(s) == Instant(t) && at == Some(now)
      && if before then now < t else now > t
  }

  ghost predicate Unreadable(env: Env, bound: Json) {
    exists s :: bound == Str(s) && env.parseTime(s) == Malformed
  }

  ghost predicate NonEmpty(v: Json) {
    v.Str? && v.s != ""
  }

  /** The entry has the fault a rejection names. */
  ghost predicate EntryFault(env: Env, registry: Registry, at: Option<int>, expected: string, entry: Fields,
                             code: Code, about: string)
  {
    var key := if about in registry then registry[about] else [];
    var protected, payload := Get(entry, "protected"), Get(entry, "payload");
    match code
    case SignatureMetadataInvalid =>
      about == "" && !(Get(entry, "kid").Str? && Get(entry, "signer_role").Str? && Get(entry, "alg") == Str("ES256"))
    case UnknownKid => Get(entry, "kid") == Str(about) && about !in registry
    case KeyNotActive => Get(entry, "kid") == Str(about) && Get(key, "status") != Str("active")
    case AlgInvalid => Get(entry, "kid") == Str(about) && Get(key, "alg") != Str("ES256")
    case RoleMismatch => Get(entry, "kid") == Str(about) && Get(key, "role") != Get(entry, "signer_role")
    case KeyNotYetValid => Get(entry, "kid") == Str(about) && Outside(env, Get(key, "not_before"), at, true)
    case KeyExpired => Get(entry, "kid") == Str(about) && Outside(env, Get(key, "not_after"), at, false)
    case KeyWindowInvalid =>
      Get(entry, "kid") == Str(about)
      && (Unreadable(env, Get(key, "not_before")) || Unreadable(env, Get(key, "not_after")))
    case SignaturePartsMissing =>
      Get(entry, "kid") == Str(about)
      && !(NonEmpty(protected) && NonEmpty(payload) && NonEmpty(Get(entry, "signature")))
    case ProtectedHeaderInvalid =>
      Get(entry, "kid") == Str(about) && protected.Str? && forall fs :: ReadHeader(protected.s) != Some(Obj(fs))
    case ProtectedHeaderAlgInvalid =>
      Get(entry, "kid") == Str(about) && protected.Str?
      && exists fs :: ReadHeader(protected.s) == Some(Obj(fs)) && Get(fs, "alg") != Str("ES256")
    case ProtectedHeaderKidMismatch =>
      Get(entry, "kid") == Str(about) && protected.Str?
      && exists fs :: ReadHeader(protected.s) == Some(Obj(fs)) && Get(fs, "kid") != Str(about)
    case SignaturePayloadMismatch => Get(entry, "kid") == Str(about) && payload != Str(expected)
    case SignatureParseError =>
      Get(entry, "kid") == Str(about)
      && (!HasKey(key, "jwk")
          || exists jwk :: Find(key, "jwk") == Some(Obj(jwk)) && Verdicts(env, jwk, entry, Unusable))
    case SignatureInvalid =>
      Get(entry, "kid") == Str(about)
      && exists jwk :: Find(key, "jwk") == Some(Obj(jwk)) && Verdicts(env, jwk, entry, Forged)
    case _ => false
  }

  /** The check of the entry's signature under the key gives that verdict. */
  ghost predicate Verdicts(env: Env, jwk: Fields, entry: Fields, verdict: Verdict) {
    exists protected, payload, value ::
      && Get(entry, "protected") == Str(protected) && Get(entry, "payload") == Str(payload)
      && Get(entry, "signature") == Str(value)
      && VerifyJws(env, jwk, protected + "." + payload, value) == verdict
  }

  lemma {:induction false} KeyRejects(env: Env, key: Fields, role: string, at: Option<int>)
    ensures match CheckKey(env, key, role, at)
            case Bad(KeyNotActive) => Get(key, "status") != Str("active")
            case Bad(AlgInvalid) => Get(key, "alg") != Str("ES256")
            case Bad(RoleMismatch) => Get(key, "role") != Str(role)
            case Bad(KeyNotYetValid) => Outside(env, Get(key, "not_before"), at, true)
            case Bad(KeyExpired) => Outside(env, Get(key, "not_after"), at, false)
            case Bad(KeyWindowInvalid) =>
              Unreadable(env, Get(key, "not_before")) || Unreadable(env, Get(key, "not_after"))
            case Bad(_) => false
            case _ => true
  {
    var start, end := Get(key, "not_before"), Get(key, "not_after");
    if start.Str? {
      assert start == Str(start.s);
    }
    if end.Str? {
      assert end == Str(end.s);
    }
  }

  lemma {:induction false} HeaderRejects(protected: string, kid: string)
    ensures match HeaderProblem(protected, kid)
            case Some(ProtectedHeaderInvalid) => forall fs :: ReadHeader(protected) != Some(Obj(fs))
            case Some(ProtectedHeaderAlgInvalid) =>
              exists fs :: ReadHeader(protected) == Some(Obj(fs)) && Get(fs, "alg") != Str("ES256")
            case Some(ProtectedHeaderKidMismatch) =>
              exists fs :: ReadHeader(protected) == Some(Obj(fs)) && Get(fs, "kid") != Str(kid)
            case Some(_) => false
            case None => true
  {
    match ReadHeader(protected)
    case None =>
    case Some(header) =>
      if header.Obj? {
        assert header == Obj(header.fields);
      }
  }

  lemma {:induction false} HeaderFaults(
    env: Env, registry: Registry, at: Option<int>, kid: string, expected: string, entry: Fields, protected: string)
    requires Get(entry, "kid") == Str(kid) && Get(entry, "protected") == Str(protected)
    requires HeaderProblem(protected, kid).Some?
    ensures EntryFault(env, registry, at, expected, entry, HeaderProblem(protected, kid).value, kid)
  {
    HeaderRejects(protected, kid);
  }

  lemma {:induction false} SignatureFaults(
    env: Env, registry: Registry, at: Option<int>, kid: string, expected: string, entry: Fields, jwk: Fields,
    verdict: Verdict)
    requires Get(entry, "kid") == Str(kid) && kid in registry
    requires Find(registry[kid], "jwk") == Some(Obj(jwk)) && Verdicts(env, jwk, entry, verdict)
    ensures verdict == Unusable ==> EntryFault(env, registry, at, expected, entry, SignatureParseError, kid)
    ensures verdict == Forged ==> EntryFault(env, registry, at, expected, entry, SignatureInvalid, kid)
  {
  }

  lemma {:induction false} PartsReject(
    env: Env, registry: Registry, at: Option<int>, kid: string, role: string, expected: string, entry: Fields)
    requires Get(entry, "kid") == Str(kid) && kid in registry
    ensures var r := CheckParts(env, registry[kid], kid, role, expected, entry);
            r.Reject? ==> r.about == kid && EntryFault(env, registry, at, expected, entry, r.code, kid)
  {
    var protected, payload, value := Get(entry, "protected"), Get(entry, "payload"), Get(entry, "signature");
    if NonEmpty(protected) && NonEmpty(payload) && NonEmpty(value) {
      if HeaderProblem(protected.s, kid).Some? {
        HeaderFaults(env, registry, at, kid, expected, entry, protected.s);
      } else if payload.s == expected {
        KeyFaults(env, registry, at, kid, role, expected, entry, protected.s, value.s);
      }
    }
  }

  lemma {:induction false} KeyFaults(
    env: Env, registry: Registry, at: Option<int>, kid: string, role: string, expected: string, entry: Fields,
    protected: string, value: string)
    requires Get(entry, "kid") == Str(kid) && kid in registry && expected != "" && protected != "" && value != ""
    requires Get(entry, "protected") == Str(protected) && Get(entry, "payload") == Str(expected)
    requires Get(entry, "signature") == Str(value) && HeaderProblem(protected, kid).None?
    ensures var r := CheckParts(env, registry[kid], kid, role, expected, entry);
            r.Reject? ==> r.about == kid && EntryFault(env, registry, at, expected, entry, r.code, kid)
  {
    var key := registry[kid];
    if HasKey(key, "jwk") && Find(key, "jwk").value.Obj? {
      var jwk := Find(key, "jwk").value.fields;
      VerdictOf(env, jwk, entry, protected, expected, value);
      SignatureFaults(env, registry, at, kid, expected, entry, jwk,
                      VerifyJws(env, jwk, protected + "." + expected, value));
    }
  }

  lemma {:induction false} VerdictOf(
    env: Env, jwk: Fields, entry: Fields, protected: string, payload: string, value: string)
    requires Get(entry, "protected") == Str(protected) && Get(entry, "payload") == Str(payload)
    requires Get(entry, "signature") == Str(value)
    ensures Verdicts(env, jwk, entry, VerifyJws(env, jwk, protected + "." + payload, value))
  {
  }

  /** A rejected entry has the fault its code names, and the key named is its own. */
  lemma {:induction false} RejectHolds(env: Env, registry: Registry, at: Option<int>, expected: string, entry: Json)
    requires CheckEntry(env, registry, at, expected, entry).Reject?
    ensures var r := CheckEntry(env, registry, at, expected, entry);
            if entry.Obj? then EntryFault(env, registry, at, expected, entry.fields, r.code, r.about)
            else r == Reject(SignatureInvalid, "")
  {
    if entry.Obj? {
      var kid, role := Get(entry.fields, "kid"), Get(entry.fields, "signer_role");
      if kid.Str? && role.Str? && kid.s in registry {
        KeyRejects(env, registry[kid.s], role.s, at);
        PartsReject(env, registry, at, kid.s, role.s, expected, entry.fields);
      }
    }
  }

  // ----- When an exception gets through -----

  /** What makes an entry let an exception through: a key that is no object, or a bound out of range. */
  ghost predicate EntryRaises(env: Env, registry: Registry, at: Option<int>, entry: Fields) {
    exists kid ::
      && Get(entry, "kid") == Str(kid) && kid in registry
      && ((exists jwk: Json :: Find(registry[kid], "jwk") == Some(jwk) && !jwk.Obj?)
          || (at.Some? && BoundRaises(env, registry[kid])))
  }

  /** One of the bounds is a text whose time is out of range. */
  ghost predicate BoundRaises(env: Env, key: Fields) {
    exists s :: (Get(key, "not_before") == Str(s) || Get(key, "not_after") == Str(s)) && env.parseTime(s) == Overflow
  }

  lemma {:induction false} KeyRaises(env: Env, key: Fields, role: string, at: Option<int>)
    requires CheckKey(env, key, role, at).Raises?
    ensures at.Some? && BoundRaises(env, key)
  {
    var start, end := Get(key, "not_before"), Get(key, "not_after");
    if start.Str? && env.parseTime(start.s) == Overflow {
      assert start == Str(start.s);
    } else {
      assert end == Str(end.s) && env.parseTime(end.s) == Overflow;
    }
  }

  lemma {:induction false} CrashHolds(env: Env, registry: Registry, at: Option<int>, expected: string, entry: Json)
    requires CheckEntry(env, registry, at, expected, entry).Crash?
    ensures entry.Obj? && EntryRaises(env, registry, at, entry.fields)
  {
    var kid, role := Get(entry.fields, "kid"), Get(entry.fields, "signer_role");
    assert Get(entry.fields, "kid") == Str(kid.s) && kid.s in registry;
    if CheckKey(env, registry[kid.s], role.s, at).Raises? {
      KeyRaises(env, registry[kid.s], role.s, at);
    } else {
      assert Find(registry[kid.s], "jwk") == Some(Find(registry[kid.s], "jwk").value);
    }
  }

  lemma {:induction false} TallyNone(rs: seq<EntryResult>)
    ensures TallyAll(rs).None? <==> exists i :: 0 <= i < |rs| && rs[i].Crash?
  {
    if rs != [] {
      var n := |rs| - 1;
      TallyNone(rs[..n]);
      assert forall i :: 0 <= i < n ==> rs[..n][i] == rs[i];
    }
  }

  /** An exception gets through exactly for a container as class, or a time or an entry that raises. */
  lemma {:induction false} RaisedExactly(env: Env, receipt: Fields, registry: Registry)
    ensures var group, entries := Get(receipt, "release_class"), EntryResults(env, receipt, registry);
            Judge(env, receipt, registry).Raised? <==>
            || group.Arr? || group.Obj?
            || (registry != map[] && CreatedTime(env, receipt).Overflow?)
            || (registry != map[] && exists i :: 0 <= i < |entries| && entries[i].Crash?)
  {
    TallyNone(EntryResults(env, receipt, registry));
  }

  // ----- What the loop and the conclusion report -----

  ghost predicate RejectedWith(rs: seq<EntryResult>, code: Code, about: string) {
    exists i :: 0 <= i < |rs| && rs[i] == Reject(code, about)
  }

  ghost predicate AcceptedTwice(rs: seq<EntryResult>, kid: string) {
    exists i, j :: 0 <= i < j < |rs| && rs[i].Accept? && rs[j].Accept? && rs[i].kid == kid == rs[j].kid
  }

  lemma {:induction false} RejectedSplit(rs: seq<EntryResult>, code: Code, about: string)
    requires rs != []
    ensures var n := |rs| - 1;
            RejectedWith(rs, code, about) <==> RejectedWith(rs[..n], code, about) || rs[n] == Reject(code, about)
  {
    var n := |rs| - 1;
    if RejectedWith(rs[..n], code, about) {
      var i :| 0 <= i < n && rs[..n][i] == Reject(code, about);
      assert rs[i] == rs[..n][i];
    }
    if RejectedWith(rs, code, about) {
      var i :| 0 <= i < |rs| && rs[i] == Reject(code, about);
      if i < n { assert rs[..n][i] == rs[i]; }
    }
  }

  lemma {:induction false} TwiceSplit(rs: seq<EntryResult>, kid: string)
    requires rs != []
    ensures var n := |rs| - 1;
            AcceptedTwice(rs, kid) <==>
            AcceptedTwice(rs[..n], kid) || (rs[n].Accept? && rs[n].kid == kid && Accepted(rs[..n], kid))
  {
    var n := |rs| - 1;
    var front := rs[..n];
    assert forall i :: 0 <= i < n ==> front[i] == rs[i];
    if AcceptedTwice(front, kid) {
      var i, j :| 0 <= i < j < |front| && front[i].Accept? && front[j].Accept? && front[i].kid == kid == front[j].kid;
      assert rs[i].Accept? && rs[j].Accept?;
    }
    if AcceptedTwice(rs, kid) {
      var i, j :| 0 <= i < j < |rs| && rs[i].Accept? && rs[j].Accept? && rs[i].kid == kid == rs[j].kid;
      assert front[i] == rs[i];
      if j < n { assert front[j] == rs[j]; }
    }
    if rs[n].Accept? && rs[n].kid == kid && Accepted(front, kid) {
      var i :| 0 <= i < |front| && front[i].Accept? && front[i].kid == kid;
      assert rs[i].Accept? && rs[i].kid == kid;
    }
  }

  /** The loop reports each rejection as an error and each key counted before as a warning, nothing else. */
  lemma {:induction false} TallyReports(rs: seq<EntryResult>, issue: Issue)
    requires TallyAll(rs).Some?
    ensures issue in TallyAll(rs).value.issues <==>
            if issue.severity == Error then RejectedWith(rs, issue.code, issue.about)
            else issue.code == DuplicateSignatureIgnored && AcceptedTwice(rs, issue.about)
  {
    if rs != [] {
      var n := |rs| - 1;
      TallyReports(rs[..n], issue);
      TallyKids(rs[..n]);
      RejectedSplit(rs, issue.code, issue.about);
      TwiceSplit(rs, issue.about);
      OneReports(TallyAll(rs[..n]).value, rs[n], issue);
    }
  }

  lemma {:induction false} OneReports(t: Tally, r: EntryResult, issue: Issue)
    requires TallyOne(t, r).Some?
    ensures issue in TallyOne(t, r).value.issues <==>
            || issue in t.issues
            || (r.Reject? && issue == Issue(Error, r.code, r.about))
            || (r.Accept? && r.kid in t.kids && issue == Issue(Warning, DuplicateSignatureIgnored, r.kid))
  {
  }

  /** The missing roles, the threshold and the class A floor are reported exactly when they are not met. */
  lemma {:induction false} TrailingReports(receipt: Fields, t: Tally, code: Code, about: string)
    ensures Issue(Error, code, about) in TrailingIssues(receipt, t) <==>
            || (code == RequiredRoleMissing && about in RolesOrNone(receipt) && about !in t.roles)
            || (code == MinSignaturesNotMet && about == "" && t.valid < MinOrZero(receipt))
            || (code == ClassAPolicyTooWeak && about == "" && ClassIn(receipt, {"A"}) && MinOrZero(receipt) < 2)
  {
    var issue := Issue(Error, code, about);
    var a, b := t.valid < MinOrZero(receipt), ClassIn(receipt, {"A"}) && MinOrZero(receipt) < 2;
    RoleReports(RolesOrNone(receipt), t.roles, issue);
    InJoined(When(a, MinSignaturesNotMet), When(b, ClassAPolicyTooWeak), issue);
    InJoined(RoleIssues(RolesOrNone(receipt), t.roles), QuorumIssues(receipt, t.valid), issue);
  }

  lemma {:induction false} RoleReports(required: seq<string>, matched: set<string>, issue: Issue)
    ensures issue in RoleIssues(required, matched) <==>
            issue.severity == Error && issue.code == RequiredRoleMissing && issue.about in required
            && issue.about !in matched
  {
    if required != [] {
      RoleReports(required[1..], matched, issue);
      InJoined(if required[0] in matched then [] else [Issue(Error, RequiredRoleMissing, required[0])],
               RoleIssues(required[1..], matched), issue);
      assert required == [required[0]] + required[1..];
    }
  }
}

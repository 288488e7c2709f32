/**
 Receipt verification: the signed projection of a receipt, the checks on one signature entry,
 and the loop over all of them. Key material, SHA-256 and timestamp parsing are parameters.
 */
module Receipts {
  import opened Wrappers
  import opened Json
  import opened Canonical
  import opened Digests
  import opened Base64
  import opened Times
  import Es256
  import Utf8

  // ----- What verification is given -----

  /** Outcome of an ECDSA check: Unusable is the key loader's KeyError, ValueError or TypeError. */
  datatype Verdict = Genuine | Forged | Unusable

  datatype Env = Env(
    sha: HashFunction,
    parseTime: Clock,
    ecdsa: (Fields, Digest, nat, nat) -> Verdict)

  /** Key identifier to the fields of its trust key. */
  type Registry = map<string, Fields>

  // ----- What verification reports -----

  datatype Severity = Error | Warning

  datatype Code =
    | PolicyInvalid | ReleasePolicyRequired | MinSignaturesInvalid | ReleasePolicyTooWeak
    | TrustRegistryEmpty | SchemaVersionInvalid | CreatedAtInvalid | ReleaseClassInvalid
    | ChainSequenceInvalid | PreviousHashInvalid | ReceiptHashMismatch | SignaturesMissing
    | RequiredRolesInvalid | SignatureInvalid | SignatureMetadataInvalid | UnknownKid
    | KeyNotActive | AlgInvalid | RoleMismatch | KeyNotYetValid | KeyExpired | KeyWindowInvalid
    | SignaturePartsMissing | ProtectedHeaderInvalid | ProtectedHeaderAlgInvalid
    | ProtectedHeaderKidMismatch | SignaturePayloadMismatch | SignatureParseError
    | DuplicateSignatureIgnored | RequiredRoleMissing | MinSignaturesNotMet | ClassAPolicyTooWeak

  /** `about` is the key or role the message names. */
  datatype Issue = Issue(severity: Severity, code: Code, about: string)

  datatype Status = RcVerified | NotVerified | ConfigError

  datatype Verification = Verification(
    status: Status,
    verified: bool,
    validSignatures: nat,
    requiredSignatures: nat,
    matchedRoles: set<string>,
    receiptHash: Option<string>,
    issues: seq<Issue>)

  /** Raised: the TypeError, AttributeError or OverflowError that verify_receipt lets through. */
  datatype Outcome = Raised | Finished(result: Verification)

  // ----- The signed projection -----

  function AsFields(v: Json): Fields {
    if v.Obj? then v.fields else []
  }

  function Chain(receipt: Fields): Fields {
    AsFields(Get(receipt, "chain"))
  }

  const SIGNED_FIELDS: seq<string> := [
    "schema_version", "receipt_id", "receipt_type", "subject", "created_at", "release_class",
    "policy", "evidence"]

  function SignedValues(receipt: Fields): (values: seq<Json>)
    ensures |values| == |SIGNED_FIELDS|
    ensures forall i :: 0 <= i < |values| ==> values[i] == Get(receipt, SIGNED_FIELDS[i])
  {
    seq(|SIGNED_FIELDS|, i requires 0 <= i < |SIGNED_FIELDS| => Get(receipt, SIGNED_FIELDS[i]))
  }

  function ChainBody(sequence: Json, previous: Json): Fields {
    [Field("sequence", sequence), Field("previous_hash", previous)]
  }

  function Body(values: seq<Json>, sequence: Json, previous: Json): Fields
    requires |values| == |SIGNED_FIELDS|
  {
    seq(|values|, i requires 0 <= i < |values| => Field(SIGNED_FIELDS[i], values[i]))
    + [Field("chain", Obj(ChainBody(sequence, previous)))]
  }

  function UnsignedBody(receipt: Fields): Json {
    Obj(Body(SignedValues(receipt), Get(Chain(receipt), "sequence"), Get(Chain(receipt), "previous_hash")))
  }

  function UnsignedPayload(receipt: Fields): string {
    Canonicalize(UnsignedBody(receipt))
  }

  function ReceiptHash(sha: HashFunction, receipt: Fields): string {
    HashText(sha, UnsignedPayload(receipt))
  }

  function PayloadText(receipt: Fields): string {
    EncodeUrl(Utf8.Encode(UnsignedPayload(receipt)))
  }

  // ----- One signature entry -----

  datatype EntryResult =
    | Crash
    | Reject(code: Code, about: string)
    | Accept(kid: string, role: string)

  /** What is wrong with a key, if anything; Raises is an OverflowError from its window. */
  datatype KeyCheck = Usable | Bad(code: Code) | Raises

  function CheckEnd(env: Env, key: Fields, at: int): KeyCheck {
    var end := Get(key, "not_after");
    if !end.Str? then Usable
    else
      match env.parseTime(end.s)
      case Malformed => Bad(KeyWindowInvalid)
      case Overflow => Raises
      case Instant(t) => if at > t then Bad(KeyExpired) else Usable
  }

  function CheckWindow(env: Env, key: Fields, at: int): KeyCheck {
    var start := Get(key, "not_before");
    if !start.Str? then CheckEnd(env, key, at)
    else
      match env.parseTime(start.s)
      case Malformed => Bad(KeyWindowInvalid)
      case Overflow => Raises
      case Instant(t) => if at < t then Bad(KeyNotYetValid) else CheckEnd(env, key, at)
  }

  function CheckKey(env: Env, key: Fields, role: string, at: Option<int>): KeyCheck {
    if Get(key, "status") != Str("active") then Bad(KeyNotActive)
    else if Get(key, "alg") != Str("ES256") then Bad(AlgInvalid)
    else if Get(key, "role") != Str(role) then Bad(RoleMismatch)
    else if at.None? then Usable
    else CheckWindow(env, key, at.value)
  }

  function ReadHeader(protected: string): Option<Json> {
    var bytes :- DecodeLenient(protected);
    var text :- Utf8.Decode(bytes);
    Loads(text)
  }

  function HeaderProblem(protected: string, kid: string): Option<Code> {
    match ReadHeader(protected)
    case None => Some(ProtectedHeaderInvalid)
    case Some(header) =>
      if !header.Obj? then Some(ProtectedHeaderInvalid)
      else if Get(header.fields, "alg") != Str("ES256") then Some(ProtectedHeaderAlgInvalid)
      else if Get(header.fields, "kid") != Str(kid) then Some(ProtectedHeaderKidMismatch)
      else None
  }

  function VerifyJws(env: Env, jwk: Fields, input: string, signature: string): Verdict {
    match DecodeLenient(signature)
    case None => Unusable
    case Some(raw) =>
      if |raw| != 64 then Unusable
      else env.ecdsa(jwk, env.sha(Utf8.Encode(input)),
                     Es256.BigEndian(raw[..32]), Es256.BigEndian(raw[32..]))
  }

  function CheckParts(env: Env, key: Fields, kid: string, role: string, expected: string, entry: Fields)
    : EntryResult
  {
    var protected, payload, value :=
      Get(entry, "protected"), Get(entry, "payload"), Get(entry, "signature");
    if !(protected.Str? && payload.Str? && value.Str?) then Reject(SignaturePartsMissing, kid)
    else if protected.s == "" || payload.s == "" || value.s == "" then Reject(SignaturePartsMissing, kid)
    else
      match HeaderProblem(protected.s, kid)
      case Some(code) => Reject(code, kid)
      case None =>
        if payload.s != expected then Reject(SignaturePayloadMismatch, kid)
        else
          match Find(key, "jwk")
          case None => Reject(SignatureParseError, kid)
          case Some(jwk) =>
            if !jwk.Obj? then Crash
            else
              match VerifyJws(env, jwk.fields, protected.s + "." + payload.s, value.s)
              case Unusable => Reject(SignatureParseError, kid)
              case Forged => Reject(SignatureInvalid, kid)
              case Genuine => Accept(kid, role)
  }

  /** The exits of one loop iteration, in order, up to the duplicate check. */
  function CheckEntry(env: Env, registry: Registry, at: Option<int>, expected: string, entry: Json)
    : EntryResult
  {
    if !entry.Obj? then Reject(SignatureInvalid, "")
    else
      var kid, role := Get(entry.fields, "kid"), Get(entry.fields, "signer_role");
      if !kid.Str? || !role.Str? || Get(entry.fields, "alg") != Str("ES256")
      then Reject(SignatureMetadataInvalid, "")
      else if kid.s !in registry then Reject(UnknownKid, kid.s)
      else
        match CheckKey(env, registry[kid.s], role.s, at)
        case Raises => Crash
        case Bad(code) => Reject(code, kid.s)
        case Usable => CheckParts(env, registry[kid.s], kid.s, role.s, expected, entry.fields)
  }

  // ----- The loop state -----

  datatype Tally = Tally(issues: seq<Issue>, kids: set<string>, roles: set<string>, valid: nat)

  const EMPTY_TALLY := Tally([], {}, {}, 0)

  function TallyOne(t: Tally, r: EntryResult): Option<Tally> {
    match r
    case Crash => None
    case Reject(code, about) => Some(t.(issues := t.issues + [Issue(Error, code, about)]))
    case Accept(kid, role) =>
      if kid in t.kids
      then Some(t.(issues := t.issues + [Issue(Warning, DuplicateSignatureIgnored, kid)]))
      else Some(Tally(t.issues, t.kids + {kid}, t.roles + {role}, t.valid + 1))
  }

  function TallyAll(rs: seq<EntryResult>): Option<Tally> {
    if rs == [] then Some(EMPTY_TALLY)
    else
      var t :- TallyAll(rs[..|rs| - 1]);
      TallyOne(t, rs[|rs| - 1])
  }

  function CheckAll(check: Json -> EntryResult, entries: seq<Json>): (rs: seq<EntryResult>)
    ensures |rs| == |entries| && forall i :: 0 <= i < |rs| ==> rs[i] == check(entries[i])
  {
    seq(|entries|, i requires 0 <= i < |entries| => check(entries[i]))
  }

  // ----- The header -----

  predicate Unhashable(v: Json) {
    v.Arr? || v.Obj?
  }

  predicate ClassIn(receipt: Fields, classes: set<string>) {
    Get(receipt, "release_class").Str? && Get(receipt, "release_class").s in classes
  }

  function Policy(receipt: Fields): Fields {
    AsFields(Get(receipt, "policy"))
  }

  function MinSignatures(receipt: Fields): Option<nat> {
    var raw := Get(Policy(receipt), "min_signatures");
    if raw.Num? && raw.n >= 0 then Some(raw.n) else None
  }

  function MinOrZero(receipt: Fields): nat {
    if MinSignatures(receipt).Some? then MinSignatures(receipt).value else 0
  }

  /** A missing list is empty, any other non-list or non-string member is invalid. */
  function RequiredRoles(receipt: Fields): Option<seq<string>> {
    match Find(Policy(receipt), "required_roles")
    case None => Some([])
    case Some(v) => if v.Arr? then Strings(v.items) else None
  }

  function Strings(items: seq<Json>): Option<seq<string>> {
    if items == [] then Some([])
    else if !items[0].Str? then None
    else
      var rest :- Strings(items[1..]);
      Some([items[0].s] + rest)
  }

  /** created_at as parsed; a text that does not end in Z is not parsed at all. */
  function CreatedTime(env: Env, receipt: Fields): Parsed {
    var v := Get(receipt, "created_at");
    if v.Str? && v.s != "" && v.s[|v.s| - 1] == 'Z' then env.parseTime(v.s) else Malformed
  }

  function CreatedAt(env: Env, receipt: Fields): Option<int> {
    match CreatedTime(env, receipt)
    case Instant(t) => Some(t)
    case _ => None
  }

  function Entries(receipt: Fields): seq<Json> {
    var v := Get(receipt, "signatures");
    if v.Arr? then v.items else []
  }

  function When(problem: bool, code: Code): seq<Issue> {
    if problem then [Issue(Error, code, "")] else []
  }

  function PolicyIssues(receipt: Fields): seq<Issue> {
    When(!Get(receipt, "policy").Obj?, PolicyInvalid)
    + When(ClassIn(receipt, {"B", "C"}) && Find(Policy(receipt), "min_signatures").None?,
           ReleasePolicyRequired)
    + When(MinSignatures(receipt).None?, MinSignaturesInvalid)
    + When(ClassIn(receipt, {"B", "C"}) && MinOrZero(receipt) < 1, ReleasePolicyTooWeak)
  }

  function FormIssues(env: Env, receipt: Fields): seq<Issue> {
    When(Get(receipt, "schema_version") != Str("sentinel.receipt.v1"), SchemaVersionInvalid)
    + When(CreatedAt(env, receipt).None?, CreatedAtInvalid)
    + When(!ClassIn(receipt, {"A", "B", "C"}), ReleaseClassInvalid)
  }

  function ChainIssues(chain: Fields, hash: string): seq<Issue> {
    var previous := Get(chain, "previous_hash");
    When(!Get(chain, "sequence").Num?, ChainSequenceInvalid)
    + When(!(previous.Str? && IsUrn(previous.s)), PreviousHashInvalid)
    + When(Get(chain, "receipt_hash") != Str(hash), ReceiptHashMismatch)
  }

  function ListIssues(receipt: Fields): seq<Issue> {
    When(Entries(receipt) == [], SignaturesMissing) + When(RequiredRoles(receipt).None?, RequiredRolesInvalid)
  }

  function HeaderIssues(env: Env, receipt: Fields, hash: string): seq<Issue> {
    FormIssues(env, receipt) + ChainIssues(Chain(receipt), hash) + ListIssues(receipt)
  }

  function RoleIssues(required: seq<string>, matched: set<string>): seq<Issue> {
    if required == [] then []
    else
      (if required[0] in matched then [] else [Issue(Error, RequiredRoleMissing, required[0])])
      + RoleIssues(required[1..], matched)
  }

  function QuorumIssues(receipt: Fields, valid: nat): seq<Issue> {
    When(valid < MinOrZero(receipt), MinSignaturesNotMet)
    + When(ClassIn(receipt, {"A"}) && MinOrZero(receipt) < 2, ClassAPolicyTooWeak)
  }

  // ----- The result as a function -----

  function RolesOrNone(receipt: Fields): seq<string> {
    if RequiredRoles(receipt).Some? then RequiredRoles(receipt).value else []
  }

  /** The check of one entry, with everything the receipt fixes filled in. */
  function Checker(env: Env, receipt: Fields, registry: Registry): Json -> EntryResult {
    var at, expected := CreatedAt(env, receipt), PayloadText(receipt);
    entry => CheckEntry(env, registry, at, expected, entry)
  }

  function EntryResults(env: Env, receipt: Fields, registry: Registry): seq<EntryResult> {
    CheckAll(Checker(env, receipt, registry), Entries(receipt))
  }

  predicate HasErrors(issues: seq<Issue>) {
    exists i :: 0 <= i < |issues| && issues[i].severity == Error
  }

  function Summarize(issues: seq<Issue>, required: nat, hash: string, t: Tally): Verification {
    Verification(if HasErrors(issues) then NotVerified else RcVerified, !HasErrors(issues),
                 t.valid, required, t.roles, Some(hash), issues)
  }

  function LeadingIssues(env: Env, receipt: Fields, hash: string): seq<Issue> {
    PolicyIssues(receipt) + HeaderIssues(env, receipt, hash)
  }

  function TrailingIssues(receipt: Fields, t: Tally): seq<Issue> {
    RoleIssues(RolesOrNone(receipt), t.roles) + QuorumIssues(receipt, t.valid)
  }

  function Conclude(env: Env, receipt: Fields, hash: string, t: Tally): Verification {
    Summarize(LeadingIssues(env, receipt, hash) + t.issues + TrailingIssues(receipt, t),
              MinOrZero(receipt), hash, t)
  }

  function NoRegistry(receipt: Fields): Verification {
    Verification(ConfigError, false, 0, MinOrZero(receipt), {}, None,
                 PolicyIssues(receipt) + [Issue(Error, TrustRegistryEmpty, "")])
  }

  function JudgeTally(env: Env, receipt: Fields, registry: Registry, hash: string, tally: Option<Tally>)
    : Outcome
  {
    if Unhashable(Get(receipt, "release_class")) then Raised
    else if registry == map[] then
      Finished(NoRegistry(receipt))
    else if CreatedTime(env, receipt).Overflow? then Raised
    else
      match tally
      case None => Raised
      case Some(t) => Finished(Conclude(env, receipt, hash, t))
  }

  function Judge(env: Env, receipt: Fields, registry: Registry): Outcome {
    JudgeTally(env, receipt, registry, ReceiptHash(env.sha, receipt),
               TallyAll(EntryResults(env, receipt, registry)))
  }

  // ----- The verifier itself -----

  lemma {:induction false} TallyStops(rs: seq<EntryResult>, k: nat)
    requires k <= |rs| && TallyAll(rs[..k]).None?
    ensures TallyAll(rs).None?
    decreases |rs|
  {
    if k < |rs| {
      assert rs[..|rs| - 1][..k] == rs[..k];
      TallyStops(rs[..|rs| - 1], k);
    } else {
      assert rs[..k] == rs;
    }
  }

  lemma {:induction false} TallyNext(rs: seq<EntryResult>, i: nat)
    requires i < |rs| && TallyAll(rs[..i]).Some?
    ensures TallyAll(rs[..i + 1]) == TallyOne(TallyAll(rs[..i]).value, rs[i])
  {
    assert rs[..i + 1][..i] == rs[..i];
  }

  method CheckRoles(required: seq<string>, matched: set<string>) returns (issues: seq<Issue>)
    ensures issues == RoleIssues(required, matched)
  {
    issues := [];
    var i := 0;
    while i < |required|
      invariant 0 <= i <= |required|
      invariant issues + RoleIssues(required[i..], matched) == RoleIssues(required, matched)
    {
      assert required[i..][1..] == required[i + 1..];
      if required[i] !in matched {
        issues := issues + [Issue(Error, RequiredRoleMissing, required[i])];
      }
      i := i + 1;
    }
  }

  /** The loop over the signature entries; None when an entry makes the verifier raise. */
  method CountSignatures(check: Json -> EntryResult, entries: seq<Json>) returns (tally: Option<Tally>)
    ensures tally == TallyAll(CheckAll(check, entries))
  {
    ghost var results := CheckAll(check, entries);
    var issues: seq<Issue> := [];
    var seenValidKids: set<string> := {};
    var matchedRoles: set<string> := {};
    var validSignatures: nat := 0;
    var i := 0;
    while i < |entries|
      invariant 0 <= i <= |entries|
      invariant TallyAll(results[..i])
             == Some(Tally(issues, seenValidKids, matchedRoles, validSignatures))
    {
      TallyNext(results, i);
      match check(entries[i]) {
        case Crash =>
          TallyStops(results, i + 1);
          return None;
        case Reject(code, about) =>
          issues := issues + [Issue(Error, code, about)];
        case Accept(kid, role) =>
          if kid in seenValidKids {
            issues := issues + [Issue(Warning, DuplicateSignatureIgnored, kid)];
          } else {
            seenValidKids := seenValidKids + {kid};
            validSignatures := validSignatures + 1;
            matchedRoles := matchedRoles + {role};
          }
      }
      i := i + 1;
    }
    assert results[..i] == results;
    return Some(Tally(issues, seenValidKids, matchedRoles, validSignatures));
  }

  /** verify_receipt: header checks, the loop over the signatures, then roles and quorum. */
  method VerifyReceipt(env: Env, receipt: Fields, registry: Registry) returns (outcome: Outcome)
    ensures outcome == Judge(env, receipt, registry)
  {
    if Unhashable(Get(receipt, "release_class")) {
      return Raised;
    }
    var issues := PolicyIssues(receipt);
    var minSignatures := MinOrZero(receipt);
    if registry == map[] {
      issues := issues + [Issue(Error, TrustRegistryEmpty, "")];
      return Finished(Verification(ConfigError, false, 0, minSignatures, {}, None, issues));
    }
    if CreatedTime(env, receipt).Overflow? {
      return Raised;
    }
    var expectedHash := ReceiptHash(env.sha, receipt);
    issues := issues + HeaderIssues(env, receipt, expectedHash);
    var tally := CountSignatures(Checker(env, receipt, registry), Entries(receipt));
    if tally.None? {
      return Raised;
    }
    var Tally(found, kids, matchedRoles, validSignatures) := tally.value;
    issues := issues + found;
    var missing := CheckRoles(RolesOrNone(receipt), matchedRoles);
    issues := issues + (missing + QuorumIssues(receipt, validSignatures));
    var hasErrors := exists k :: 0 <= k < |issues| && issues[k].severity == Error;
    outcome := Finished(Verification(if hasErrors then NotVerified else RcVerified, !hasErrors,
                                     validSignatures, minSignatures, matchedRoles,
                                     Some(expectedHash), issues));
  }
}

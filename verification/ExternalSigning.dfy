/**
 The external signing boundary: preparing a digest request, validating a prepared context and
 attaching the returned signature. Parsing of key identifiers is the parameter `keyIdOk`.
 */
module ExternalSigning {
  import opened Wrappers
  import opened Json
  import opened Canonical
  import opened Digests
  import opened Base64
  import opened Receipts
  import Es256
  import Utf8

  /** The only object that crosses the boundary. */
  datatype Request = Request(algorithm: string, keyId: string, digest: string)

  datatype SignerResult = SignerResult(algorithm: string, keyId: string, signature: string)

  datatype Prepared = Prepared(
    request: Request,
    signerRole: string,
    receiptHash: string,
    payload: string,
    protectedText: string,
    payloadText: string,
    signingInput: string)

  datatype Problem =
    | BadReceipt | BadAlgorithm | BadKeyId | BadRole | AlreadySigned | HashConflict
    | BadPreparedHash | BadHeaderText | BadPayloadText | HeaderNotJson | PayloadNotText
    | HeaderOffProfile | HeaderNotCanonical | PayloadMismatch | BadSigningInput | BadDigest
    | ReceiptChanged | BadResult | BadSignatureText
    | NotAscii  // the TypeError of comparing non-ASCII text in constant time

  // ----- Guards -----

  predicate AlphaNumeric(c: char) {
    'A' <= c <= 'Z' || 'a' <= c <= 'z' || '0' <= c <= '9'
  }

  /** A letter or digit, then at most 127 letters, digits, dots, underscores, colons or hyphens. */
  predicate RoleOk(role: string) {
    && 1 <= |role| <= 128 && AlphaNumeric(role[0])
    && forall i :: 1 <= i < |role| ==>
         AlphaNumeric(role[i]) || role[i] == '.' || role[i] == '_' || role[i] == ':' || role[i] == '-'
  }

  predicate ShapeOk(receipt: Fields) {
    Get(receipt, "chain").Obj? && Get(receipt, "signatures").Arr?
  }

  predicate SignedByKey(receipt: Fields, keyId: string) {
    exists i :: 0 <= i < |Entries(receipt)|
      && Entries(receipt)[i].Obj? && Get(Entries(receipt)[i].fields, "kid") == Str(keyId)
  }

  /** The recorded hash is absent, empty, or the given one. */
  predicate HashOpen(receipt: Fields, hash: string) {
    var recorded := Get(Chain(receipt), "receipt_hash");
    recorded == Null || recorded == Str("") || recorded == Str(hash)
  }

  // ----- Building a context -----

  function HeaderFields(keyId: string): Fields {
    [Field("alg", Str("ES256")), Field("kid", Str(keyId)), Field("typ", Str("SENTINEL-JWS"))]
  }

  function HeaderText(keyId: string): string {
    EncodeUrl(Utf8.Encode(Canonicalize(Obj(HeaderFields(keyId)))))
  }

  function DigestText(sha: HashFunction, input: string): string {
    EncodeUrl(sha(Utf8.Encode(input)))
  }

  function Build(sha: HashFunction, payload: string, keyId: string, role: string): Prepared {
    var protectedText, payloadText := HeaderText(keyId), EncodeUrl(Utf8.Encode(payload));
    var input := protectedText + "." + payloadText;
    Prepared(Request("ES256", keyId, DigestText(sha, input)), role, HashText(sha, payload), payload,
             protectedText, payloadText, input)
  }

  // ----- Validating a context -----

  /** hmac.compare_digest on text. */
  function Compare(expected: string, actual: string, otherwise: Problem): Option<Problem> {
    if !Utf8.Ascii(expected) || !Utf8.Ascii(actual) then Some(NotAscii)
    else if expected != actual then Some(otherwise)
    else None
  }

  /** Python's == between a parsed object and the profile's header. */
  predicate MatchesProfile(header: Json, keyId: string) {
    && header.Obj? && |header.fields| == 3
    && Find(header.fields, "alg") == Some(Str("ES256"))
    && Find(header.fields, "kid") == Some(Str(keyId))
    && Find(header.fields, "typ") == Some(Str("SENTINEL-JWS"))
  }

  function ValidateHeader(p: Prepared, bytes: Bytes): Option<Problem> {
    match Utf8.Decode(bytes)
    case None => Some(HeaderNotJson)
    case Some(text) =>
      match Loads(text)
      case None => Some(HeaderNotJson)
      case Some(header) =>
        if !MatchesProfile(header, p.request.keyId) then Some(HeaderOffProfile)
        else if Utf8.Encode(Canonicalize(header)) != bytes then Some(HeaderNotCanonical)
        else None
  }

  function ValidateSigningInput(sha: HashFunction, p: Prepared): Option<Problem> {
    match Compare(p.protectedText + "." + p.payloadText, p.signingInput, BadSigningInput)
    case Some(problem) => Some(problem)
    case None =>
      match Utf8.EncodeAscii(p.signingInput)
      case None => Some(NotAscii)
      case Some(bytes) => Compare(EncodeUrl(sha(bytes)), p.request.digest, BadDigest)
  }

  function ValidateTexts(sha: HashFunction, p: Prepared): Option<Problem> {
    match DecodeStrict(p.protectedText)
    case None => Some(BadHeaderText)
    case Some(header) =>
      match DecodeStrict(p.payloadText)
      case None => Some(BadPayloadText)
      case Some(payload) =>
        if Utf8.Decode(payload).None? && ValidateHeader(p, header) != Some(HeaderNotJson)
        then Some(PayloadNotText)
        else
          match ValidateHeader(p, header)
          case Some(problem) => Some(problem)
          case None =>
            if Utf8.Decode(payload) != Some(p.payload) then Some(PayloadMismatch)
            else ValidateSigningInput(sha, p)
  }

  function ValidatePrepared(sha: HashFunction, keyIdOk: string -> bool, p: Prepared): Option<Problem> {
    if p.request.algorithm != "ES256" then Some(BadAlgorithm)
    else if !keyIdOk(p.request.keyId) then Some(BadKeyId)
    else if !RoleOk(p.signerRole) then Some(BadRole)
    else
      match Compare(HashText(sha, p.payload), p.receiptHash, BadPreparedHash)
      case Some(problem) => Some(problem)
      case None => ValidateTexts(sha, p)
  }

  // ----- Prepare, finalize, sign -----

  function Prepare(sha: HashFunction, keyIdOk: string -> bool, receipt: Fields, keyId: string, role: string)
    : Result<Prepared, Problem>
  {
    if !ShapeOk(receipt) then Err(BadReceipt)
    else if !keyIdOk(keyId) then Err(BadKeyId)
    else if !RoleOk(role) then Err(BadRole)
    else if SignedByKey(receipt, keyId) then Err(AlreadySigned)
    else if !HashOpen(receipt, ReceiptHash(sha, receipt)) then Err(HashConflict)
    else
      var prepared := Build(sha, UnsignedPayload(receipt), keyId, role);
      match ValidatePrepared(sha, keyIdOk, prepared)
      case Some(problem) => Err(problem)
      case None => Ok(prepared)
  }

  function SignatureEntry(p: Prepared, signature: string): Json {
    Obj([
      Field("kid", Str(p.request.keyId)),
      Field("alg", Str("ES256")),
      Field("signer_role", Str(p.signerRole)),
      Field("protected", Str(p.protectedText)),
      Field("payload", Str(p.payloadText)),
      Field("signature", Str(signature))])
  }

  /** The two writes to the deep copy: the recorded hash, then the appended entry. */
  function Attach(receipt: Fields, p: Prepared, signature: string): Fields {
    var hashed := Put(receipt, "chain", Obj(Put(Chain(receipt), "receipt_hash", Str(p.receiptHash))));
    Put(hashed, "signatures", Arr(Entries(receipt) + [SignatureEntry(p, signature)]))
  }

  function Finalize(sha: HashFunction, keyIdOk: string -> bool, receipt: Fields, p: Prepared, r: SignerResult)
    : Result<Fields, Problem>
  {
    if !ShapeOk(receipt) then Err(BadReceipt)
    else
      match ValidatePrepared(sha, keyIdOk, p)
      case Some(problem) => Err(problem)
      case None =>
        if r.algorithm != "ES256" || r.keyId != p.request.keyId then Err(BadResult)
        else if Utf8.Encode(UnsignedPayload(receipt)) != Utf8.Encode(p.payload) then Err(ReceiptChanged)
        else
          match Compare(ReceiptHash(sha, receipt), p.receiptHash, ReceiptChanged)
          case Some(problem) => Err(problem)
          case None =>
            if !HashOpen(receipt, p.receiptHash) then Err(HashConflict)
            else if SignedByKey(receipt, p.request.keyId) then Err(AlreadySigned)
            else if !Es256.WellShaped(r.signature) then Err(BadSignatureText)
            else Ok(Attach(receipt, p, r.signature))
  }

  /** finalize_receipt_signature: every check in turn, then the two writes to the copy. */
  method FinalizeReceipt(
    sha: HashFunction, keyIdOk: string -> bool, receipt: Fields, prepared: Prepared, answer: SignerResult)
    returns (result: Result<Fields, Problem>)
    ensures result == Finalize(sha, keyIdOk, receipt, prepared, answer)
  {
    if !ShapeOk(receipt) {
      return Err(BadReceipt);
    }
    var problem := ValidatePrepared(sha, keyIdOk, prepared);
    if problem.Some? {
      return Err(problem.value);
    }
    if answer.algorithm != "ES256" || answer.keyId != prepared.request.keyId {
      return Err(BadResult);
    }
    var currentPayload := UnsignedPayload(receipt);
    if Utf8.Encode(currentPayload) != Utf8.Encode(prepared.payload) {
      return Err(ReceiptChanged);
    }
    problem := Compare(HashText(sha, currentPayload), prepared.receiptHash, ReceiptChanged);
    if problem.Some? {
      return Err(problem.value);
    }
    if !HashOpen(receipt, prepared.receiptHash) {
      return Err(HashConflict);
    }
    if SignedByKey(receipt, prepared.request.keyId) {
      return Err(AlreadySigned);
    }
    if !Es256.WellShaped(answer.signature) {
      return Err(BadSignatureText);
    }
    var signed := receipt;
    signed := Put(signed, "chain", Obj(Put(Chain(receipt), "receipt_hash", Str(prepared.receiptHash))));
    signed := Put(signed, "signatures", Arr(Entries(receipt) + [SignatureEntry(prepared, answer.signature)]));
    return Ok(signed);
  }

  /** A signing key: its identifier, its role and the external signer behind it. */
  datatype Signer = Signer(keyId: string, role: string, sign: Request -> SignerResult)

  /** sign_receipt_with_external_digest_signer */
  function Sign(sha: HashFunction, keyIdOk: string -> bool, receipt: Fields, signer: Signer)
    : Result<Fields, Problem>
  {
    var prepared :- Prepare(sha, keyIdOk, receipt, signer.keyId, signer.role);
    Finalize(sha, keyIdOk, receipt, prepared, signer.sign(prepared.request))
  }

  /** Signing in turn with every member of a team. */
  function SignAll(sha: HashFunction, keyIdOk: string -> bool, receipt: Fields, team: seq<Signer>)
    : Result<Fields, Problem>
  {
    if team == [] then Ok(receipt)
    else
      var earlier :- SignAll(sha, keyIdOk, receipt, team[..|team| - 1]);
      Sign(sha, keyIdOk, earlier, team[|team| - 1])
  }
}

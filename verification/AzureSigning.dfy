/**
 The Azure CLI signer: the digest is transcoded to padded base64 for the command line and the
 response is accepted only as a canonical 64-byte signature by the requested key. The process
 itself is the parameter `runner`; URL rules for key identifiers are the parameter `vaultKeyOk`.
 */
module AzureSigning {
  import opened Wrappers
  import opened Json
  import opened Digests
  import opened Base64
  import opened Receipts
  import opened ExternalSigning
  import opened SigningTheorems
  import Es256
  import Utf8

  const MAX_RESPONSE_BYTES: int := 131072

  datatype AzureProblem =
    | BadRequest | BadDigestText | DigestLength | ProcessFailed | ResponseTooLarge | ResponseNotJson
    | WrongKey | NotOneValue | BadValue | SignatureLength

  /** The command line's digest argument; None when the process fails. */
  type Runner = (string, string) -> Option<string>

  function ParseResponse(stdout: string, keyId: string): Result<string, AzureProblem> {
    if |Utf8.Encode(stdout)| > MAX_RESPONSE_BYTES then Err(ResponseTooLarge)
    else
      match Loads(stdout)
      case None => Err(ResponseNotJson)
      case Some(payload) =>
        if !payload.Obj? then Err(ResponseNotJson)
        else if Get(payload.fields, "kid") != Str(keyId) then Err(WrongKey)
        else
          var value, result := Find(payload.fields, "value"), Find(payload.fields, "result");
          if value.Some? == result.Some? then Err(NotOneValue)
          else
            var signature := if value.Some? then value.value else result.value;
            if !signature.Str? then Err(BadValue)
            else
              match DecodeStrict(signature.s)
              case None => Err(BadValue)
              case Some(raw) => if |raw| != 64 then Err(SignatureLength) else Ok(signature.s)
  }

  /** The digest as the command line carries it. */
  function Transcode(text: string): Result<string, AzureProblem> {
    match DecodeStrict(text)
    case None => Err(BadDigestText)
    case Some(digest) => if |digest| != 32 then Err(DigestLength) else Ok(EncodeStd(digest))
  }

  function SignDigest(vaultKeyOk: string -> bool, runner: Runner, request: Request)
    : Result<SignerResult, AzureProblem>
  {
    if request.algorithm != "ES256" || !vaultKeyOk(request.keyId) then Err(BadRequest)
    else
      var argument :- Transcode(request.digest);
      match runner(request.keyId, argument)
      case None => Err(ProcessFailed)
      case Some(stdout) =>
        var signature :- ParseResponse(stdout, request.keyId);
        Ok(SignerResult("ES256", request.keyId, signature))
  }

  // ----- Properties -----

  /** Transcoding succeeds exactly on a canonical 32-byte digest and preserves every byte of it. */
  lemma {:induction false} TranscodePreserves(text: string, digest: Bytes)
    ensures Transcode(text).Ok? && DecodeStdCanonical(Transcode(text).value) == Some(digest) <==>
            |digest| == 32 && text == EncodeUrl(digest)
  {
    StrictExactly(text, digest);
    if Transcode(text).Ok? {
      var bytes := DecodeStrict(text).value;
      StrictExactly(text, bytes);
      StdExactly(EncodeStd(bytes), bytes);
      StdExactly(EncodeStd(bytes), digest);
    }
    if |digest| == 32 && text == EncodeUrl(digest) {
      StdExactly(EncodeStd(digest), digest);
    }
  }

  /** The argument is the request text in the other alphabet plus one padding character. */
  lemma {:induction false} TranscodedText(digest: Digest)
    ensures var argument := Transcode(EncodeUrl(digest));
            && argument.Ok? && |argument.value| == 44 && argument.value[43] == '='
            && argument.value[..43] == Translate(EncodeUrl(digest))
  {
    StrictExactly(EncodeUrl(digest), digest);
    SextetsLength(digest);
    forall i | 0 <= i < 43 ensures EncodeStd(digest)[i] == FromUrl(EncodeUrl(digest)[i]) {
      CharValues(Sextets(digest)[i]);
    }
  }

  ghost predicate Offers(fields: Fields, signature: string) {
    || (Find(fields, "value") == Some(Str(signature)) && Find(fields, "result").None?)
    || (Find(fields, "result") == Some(Str(signature)) && Find(fields, "value").None?)
  }

  /** A response is accepted exactly when it offers one canonical 64-byte signature by the key. */
  lemma {:induction false} ResponseExactly(stdout: string, keyId: string, signature: string)
    ensures ParseResponse(stdout, keyId) == Ok(signature) <==>
            && |Utf8.Encode(stdout)| <= 131_072
            && (exists fields :: Loads(stdout) == Some(Obj(fields))
                  && Get(fields, "kid") == Str(keyId) && Offers(fields, signature))
            && exists raw: Bytes :: |raw| == 64 && signature == EncodeUrl(raw)
  {
    CanonicalSignature(signature);
    match Loads(stdout)
    case None =>
    case Some(payload) =>
      if payload.Obj? {
        assert payload == Obj(payload.fields);
      }
  }

  lemma {:induction false} CanonicalSignature(signature: string)
    ensures (DecodeStrict(signature).Some? && |DecodeStrict(signature).value| == 64)
       <==> exists raw: Bytes :: |raw| == 64 && signature == EncodeUrl(raw)
  {
    if DecodeStrict(signature).Some? {
      StrictExactly(signature, DecodeStrict(signature).value);
    }
    forall raw: Bytes | |raw| == 64 && signature == EncodeUrl(raw) ensures DecodeStrict(signature) == Some(raw) {
      StrictExactly(signature, raw);
    }
  }

  /**
   Across the boundary: when the CLI answers a prepared request, finalize accepts the answer
   exactly when its two scalars lie in the group range, which the adapter does not check.
   */
  lemma {:induction false} FinalizesAzureAnswer(sha: HashFunction, keyIdOk: string -> bool, vaultKeyOk: string -> bool,
                                                runner: Runner, receipt: Fields, keyId: string, role: string)
    requires Prepare(sha, keyIdOk, receipt, keyId, role).Ok?
    requires SignDigest(vaultKeyOk, runner, Prepare(sha, keyIdOk, receipt, keyId, role).value.request).Ok?
    ensures var p := Prepare(sha, keyIdOk, receipt, keyId, role).value;
            var answer := SignDigest(vaultKeyOk, runner, p.request).value;
            && DecodeStrict(answer.signature).Some?
            && |DecodeStrict(answer.signature).value| == 64
            && (Finalize(sha, keyIdOk, receipt, p, answer).Ok? <==>
                && Es256.InGroup(Es256.BigEndian(DecodeStrict(answer.signature).value[..32]))
                && Es256.InGroup(Es256.BigEndian(DecodeStrict(answer.signature).value[32..])))
  {
    PrepareExactly(sha, keyIdOk, receipt, keyId, role);
    var p := Prepare(sha, keyIdOk, receipt, keyId, role).value;
    var answer := SignDigest(vaultKeyOk, runner, p.request).value;
    AnswerShape(vaultKeyOk, runner, p.request);
    FinalizeExactly(sha, keyIdOk, receipt, p, answer);
  }

  lemma {:induction false} AnswerShape(vaultKeyOk: string -> bool, runner: Runner, request: Request)
    requires SignDigest(vaultKeyOk, runner, request).Ok?
    ensures var answer := SignDigest(vaultKeyOk, runner, request).value;
            && answer.algorithm == "ES256" && answer.keyId == request.keyId
            && DecodeStrict(answer.signature).Some? && |DecodeStrict(answer.signature).value| == 64
  {
  }

  /** The request's digest reaches the command line: the argument decodes to the hash of the input. */
  lemma {:induction false} DigestReachesCommand(sha: HashFunction, payload: string, keyId: string, role: string)
    ensures var p := Build(sha, payload, keyId, role);
            && Transcode(p.request.digest).Ok?
            && DecodeStdCanonical(Transcode(p.request.digest).value) == Some(sha(Utf8.Encode(p.signingInput)))
  {
    var p := Build(sha, payload, keyId, role);
    TranscodePreserves(p.request.digest, sha(Utf8.Encode(p.signingInput)));
  }
}

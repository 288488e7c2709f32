# SENTINEL verification model

A Dafny model of the parts of SENTINEL that decide whether something may be trusted, with proofs of
what those decisions mean.

- **Receipts.** The path from a receipt through canonical JSON, base64url and the JWS signing input
  (sections 5.1 and 5.2 of RFC 7515) to an external ES256 signer, back through finalize, and into the
  independent verifier. Prepare, finalize and verify are separate pieces of code; the end-to-end
  theorem shows that they agree byte for byte for any number of signers.
- **Evidence chain.** The Go chain verifier and record hash, over strings of bytes. Equal heads mean
  histories that agree up to bytes that are no UTF-8, which the Go encoder replaces, or the backwards
  walk returns an explicit SHA-256 collision. Beside it, the staged evidence verifier with
  its trust and policy registries.
- **Workflow validator.** The scans that find comments, steps and mappings in workflow files, and
  exactly which files pass.
- **Voice session.** The bounded response collector, the client's connection and turns, WAV framing
  and the artifact set, with invariants that hold on every error path.

Hashing and signature checks are function parameters about which nothing is assumed but the length of
a digest, so every binding result has the form "equal, or here is a collision". Timestamp parsing, key
identifier parsing, schema validation and the manifest's JSON text are parameters as well. Code that
changes state step by step is written as methods and classes, each proved equal to a function; the
theorems are about those functions, and the methods' contracts carry them over. What a method and its
function share, down to the patterns, field names, constants and character classes, has a statement of
its own, in terms of the texts that arrive or leave.

`Wrappers`, `JsonText`, `Json`, `JsonReader`, `Canonical`, `JsonShortest`, `Utf8`, `Base64`, `Digests`, `Times` and `Es256` are the
shared text and byte formats, `GoText` is the Go encoder's view of strings. `Receipts`, `ReceiptTheorems`, `ReceiptReports`, `ReceiptOrder`, `ReceiptPayload`,
`ExternalSigning`, `SigningTheorems`, `EndToEnd`, `AzureSigning` and `ChainLink` are the receipt
pipeline; `EvidenceChain`, `EvidenceVerifier`, `Trust` and `Policies` the evidence side;
`WorkflowText`, `WorkflowPatterns`, `Workflow` and `WorkflowTheorems` the validator; `Wav`, `VoiceEvents`,
`VoiceCollector`, `VoiceClient`, `VoiceWire` and `VoiceArtifacts` the voice session. `dafny verify dfyconfig.toml`
checks everything.

## Where the code differs from what one might expect

- Keys sort by code point, not by the UTF-16 order of section 3.2.3 of RFC 8785; the model keeps the
  code's order.
- The signed projection reads fields with a default of null, so a missing field and a null one give
  one payload; `ReceiptPayload.PayloadExactly` is stated for that projection.
- `verify_receipt` lets three exceptions through, all the outcome `Raised`: a TypeError for an array or
  object as release class, an AttributeError for a registered key whose `jwk` is not an object, and an
  OverflowError for a timestamp whose offset moves it out of the years 1 to 9999, in the receipt or in a
  key's window. `verify_evidence_record` lets the last of them through too.
- The Go encoder writes the same six-character escape for every byte of a string that begins no
  character, so records that differ in such bytes share text and hash, and one may stand for the other
  in an accepted chain: both halves of `EvidenceChain.TamperingShows`. Records of valid UTF-8 share a
  text only with themselves (`EvidenceChain.SameHistoryEqual`).
- A checkout written as `- uses:` needs its `with:` at the column of the dash, so the usual form with
  `with:` at the column of the key is always rejected (`WorkflowTheorems.DashCheckoutRejected`);
  `WorkflowTheorems.AcceptedExactly` says exactly what passes.
- A comment begins at any unquoted number sign, also without white space before it, unlike section 6.6
  of YAML 1.2.2. A uses line with no list item above it, such as a reusable workflow at job level, is
  checked as a line only.
- The Azure adapter does not check that the two scalars are in the group range; finalize does
  (`AzureSigning.FinalizesAzureAnswer`).
- The collector counts and records the types of refused events too, and after a `response.done` with an
  odd number of audio bytes it stays active.

## Model

| member | source | states |
|---|---|---|
| `Canonical.CanonicalInverse` | src/sentinel_core/hashchain.py:21-28 | A JSON reader applied to the canonical text returns the value with its keys sorted at every depth, and that value equals the original up to key order. With `JsonShortest.CanonicalShortest` and `JsonText.EscapeForms` this fixes every byte. |
| `Canonical.CanonicalExactly` | src/sentinel_core/hashchain.py:21-28 | Two values have one canonical text exactly when they are equal up to key order at every nesting level. |
| `Canonical.BeforeExactly` | src/sentinel_core/hashchain.py:28 | Keys are ordered by the code point at their first difference, a prefix before what it begins. |
| `JsonShortest.CanonicalShortest` | src/sentinel_core/hashchain.py:28 | Of all texts of a value, in whatever key order, none is shorter than the canonical one: no white space, no longer escape, no other spelling of a number. |
| `JsonShortest.PrintShortest` | src/sentinel_core/hashchain.py:28 | No text the reader takes for a value is shorter than the printed one; for Go's writer, no text without the five characters it must escape. |
| `JsonShortest.PrintPermitted` | internal/evidence/record.go:59 | Go's text has none of the five characters it must escape. |
| `JsonText.EscapeForms` | src/sentinel_core/hashchain.py:28 | Which characters stand for themselves, which have a two-character escape, and which a `\u` escape with lower-case digits. |
| `JsonReader.LoadedClean` | src/sentinel_core/receipt.py:423 | A text the reader takes holds no control character but white space. |
| `JsonReader.IntegerExactly` | src/sentinel_core/receipt.py:423 | An integer is read from its own decimal text only, or zero from a negated one. |
| `JsonReader.WhiteIgnored` | src/sentinel_core/receipt.py:423 | White space around a printed text does not change what is read. |
| `Canonical.AlikeSorts` | src/sentinel_core/hashchain.py:21-28 | Equality up to key order is equality after deep sorting, both directions. |
| `Canonical.SortDeepIdempotent` | src/sentinel_core/hashchain.py:21-28 | Sorting sorted keys changes nothing, so canonicalizing a parsed canonical text is stable. |
| `Json.LoadsPrint` | src/sentinel_core/hashchain.py:28 | Either compact writer, Python's or Go's, is inverted by the reader on every value without fractional numbers and repeated keys. |
| `JsonText.StringRoundTrip` | src/sentinel_core/hashchain.py:28 | The string escapes of both writers are undone by the one string scanner, for every text and whatever follows it. |
| `Utf8.EncodeDecode` | src/sentinel_core/external_signing.py:156-163 | Bytes that decode as UTF-8 are the one encoding of what they decode to. |
| `Digests.HashTextBinds` | src/sentinel_core/hashchain.py:31-36 | Equal prefixed hashes mean equal texts, or the two encodings are a collision of the hash. |
| `Digests.UrnShape` | src/sentinel_core/receipt.py:280-286 | A computed hash always has the pattern the verifier asks of a previous hash. |
| `Digests.UrnExactly` | src/sentinel_core/receipt.py:26 | The pattern is met exactly by the hash texts of 32-byte digests. |
| `Digests.HexReads` | src/sentinel_core/hashchain.py:31-36 | Each byte is two hex digits, the high one first. |
| `Digests.ZeroUrnSpells` | src/sentinel_core/hashchain.py:9 | The first previous hash is the hash text of zero bytes. |
| `ChainLink.LinkPayloadExactly` | src/sentinel_core/hashchain.py:39-52 | Two records share a link payload exactly when they agree everywhere except in signature.value. |
| `ChainLink.LinkPayloadReads` | src/sentinel_core/hashchain.py:42-52 | The link payload is JSON of the record itself, but for an empty text as the value of its signature object. |
| `ChainLink.LinkDigestBinds` | src/sentinel_core/hashchain.py:39-52 | Equal link digests mean agreement outside signature.value, or an explicit collision. |
| `ChainLink.LinkIgnoresValue` | src/sentinel_core/hashchain.py:42-49 | Replacing the signature value of a record never moves its link payload. |
| `Base64.StrictExactly` | src/sentinel_core/external_signing.py:74-94 | The strict base64url decoder accepts exactly the non-empty encoder outputs, as their inverse. |
| `Base64.StrictBySyntax` | src/sentinel_core/external_signing.py:78-94 | Acceptance by syntax alone: alphabet, no lone last character, zero trailing bits (section 3.5 of RFC 4648). |
| `Base64.LenientAgrees` | src/sentinel_core/receipt.py:51-53 | The verifier's lenient decoder reads every strictly accepted text the same. |
| `Base64.LenientReads` | src/sentinel_core/receipt.py:51-57 | The lenient decoder inverts the encoder on every byte string, the empty one included. |
| `Base64.StdExactly` | src/sentinel_core/xai_voice.py:334-341 | The padded decoder with the same-text check accepts exactly the encoder's outputs. |
| `Base64.PaddingExactly` | src/sentinel_core/receipt.py:51-53 | The padding completes the last group of four. |
| `Base64.ForeignSkipped` | src/sentinel_core/receipt.py:51-53 | To the lenient scanner a character outside the alphabet is as if it were not there, wherever it stands. |
| `Receipts.VerifyReceipt` | src/sentinel_core/receipt.py:163-540 | The whole verifier: its outcome, or that one of its three exceptions gets through, is the specification function's, issue by issue. |
| `Receipts.CountSignatures` | src/sentinel_core/receipt.py:328-504 | The signature loop with its four mutable variables computes the left-to-right tally of the entry checks. |
| `Receipts.CheckRoles` | src/sentinel_core/receipt.py:506-513 | The required-role loop reports each missing role, in order. |
| `ReceiptTheorems.CheckEntryExactly` | src/sentinel_core/receipt.py:328-491 | The chain of early exits accepts an entry exactly when it is genuine: a registered, active, role-matched, in-window key signed this header and payload. |
| `ReceiptTheorems.TallyKids` | src/sentinel_core/receipt.py:493-503 | The loop counts each accepted key once: the count is the number of distinct accepted keys. |
| `ReceiptTheorems.TallyRoles` | src/sentinel_core/receipt.py:493-504 | The matched roles are exactly the roles of accepted entries, although duplicates are skipped. |
| `ReceiptTheorems.TallyErrors` | src/sentinel_core/receipt.py:328-504 | The loop reports an error exactly when some entry is not accepted; duplicates are warnings. |
| `ReceiptTheorems.ConcludeExactly` | src/sentinel_core/receipt.py:175-540 | The concluding verdict is the conjunction of policy, header, non-empty list, error-free entries, threshold and roles. |
| `ReceiptTheorems.VerifiedExactly` | src/sentinel_core/receipt.py:163-540 | RC_VERIFIED exactly when header and hash hold, the list is non-empty, every entry is genuine, the roles are covered by the registered roles of the signing keys and their number meets the threshold and class floor. |
| `ReceiptTheorems.GenuineVerdict` | src/sentinel_core/receipt.py:328-540 | On a receipt with genuine entries only, no exception gets through but those of the release class and the creation time, the verdict is the quorum decision, and every key is counted once. |
| `ReceiptTheorems.ClassANeedsTwoKeys` | src/sentinel_core/receipt.py:523-529 | A verified class A receipt holds genuine signatures over this payload by two distinct keys. |
| `ReceiptReports.LeadingReports` | src/sentinel_core/receipt.py:183-317 | Before the signatures, each code is reported exactly when the receipt has that fault. |
| `ReceiptReports.RejectHolds` | src/sentinel_core/receipt.py:328-491 | A rejected entry has the fault its code names, and the key named is its own. |
| `ReceiptReports.TallyReports` | src/sentinel_core/receipt.py:328-504 | The loop reports each rejection as an error and each key counted before as a warning, and nothing else. |
| `ReceiptReports.TrailingReports` | src/sentinel_core/receipt.py:506-529 | Missing roles, threshold and class A floor are reported exactly when they are not met. |
| `ReceiptReports.VerdictConsistent` | src/sentinel_core/receipt.py:531-540 | Status, verified flag, hash, threshold and issues of a verdict agree; an empty registry is a configuration error and never verified. |
| `ReceiptReports.RaisedExactly` | src/sentinel_core/receipt.py:187-190 | An exception gets through exactly for an array or object as release class, a creation time out of range, or an entry that raises. |
| `ReceiptReports.CrashHolds` | src/sentinel_core/receipt.py:378-470 | An entry raises only for a registered key whose jwk is no object or whose window is out of range. |
| `ReceiptReports.MinSignaturesExactly` | src/sentinel_core/receipt.py:202-214 | The threshold is read exactly from a non-negative integer, which a boolean is not. |
| `ReceiptReports.RequiredRolesExactly` | src/sentinel_core/receipt.py:308-317 | The required roles are those of a list of texts, none when the key is missing. |
| `ReceiptReports.CreatedExactly` | src/sentinel_core/receipt.py:247-260 | The creation time is that of a text that ends in Z and parses. |
| `ReceiptReports.ClassExactly` | src/sentinel_core/receipt.py:190-262 | A release class is one of a set exactly when it is that text. |
| `ReceiptReports.HeaderExactly` | src/sentinel_core/receipt.py:422-440 | A protected header is base64url of UTF-8 of JSON. |
| `ReceiptReports.JwsExactly` | src/sentinel_core/receipt.py:132-158 | A signature verifies as the two big-endian halves of 64 bytes over the hash of the signing input. |
| `ReceiptOrder.OrderIrrelevant` | src/sentinel_core/receipt.py:328-504 | Permuting the signatures list changes neither status, count, roles, hash nor the multiset of issues. |
| `ReceiptOrder.BagPermutation` | src/sentinel_core/receipt.py:328-504 | The tally of any permutation of coherent entry results is the same up to issue order. |
| `ReceiptPayload.PayloadExactly` | src/sentinel_core/receipt.py:85-108 | Two receipts share a signed payload exactly when they agree on the eight signed fields and the chain's sequence and previous hash, a missing field being null. |
| `ReceiptPayload.PayloadReads` | src/sentinel_core/receipt.py:92-108 | The payload is JSON of an object with exactly the nine named keys and the receipt's values, and two named keys under the chain. |
| `ReceiptPayload.PayloadTextExactly` | src/sentinel_core/receipt.py:85-108 | The payload text an entry carries determines the payload, without a hash. |
| `ReceiptPayload.EntryBindsReceipt` | src/sentinel_core/receipt.py:85-90 | No replay: an entry genuine for two receipts, under whatever registries, forces equal signed projections, with no collision clause. |
| `ReceiptPayload.VerifiedBinds` | src/sentinel_core/receipt.py:85-90 | Two verified receipts with one list of signatures agree on everything signed, under whatever registries. |
| `ReceiptPayload.FieldTamperEvident` | src/sentinel_core/receipt.py:93-102 | Replacing any of the eight signed fields by a different value makes a verified receipt unverifiable. |
| `ReceiptPayload.ChainTamperEvident` | src/sentinel_core/receipt.py:103-106 | The same for the sequence and the previous hash of its chain. |
| `ReceiptPayload.HashBindsProjection` | src/sentinel_core/receipt.py:111-114 | Equal receipt hashes mean equal signed projections, or the payloads are a SHA-256 collision. |
| `Es256.WellShapedExactly` | src/sentinel_core/external_signing.py:284-294 | A signature text passes the shape checks exactly when it spells a pair of scalars in the P-256 group range. |
| `Es256.SignatureTextInjective` | src/sentinel_core/external_signing.py:284-294 | No scalar pair has two accepted spellings and no text spells two pairs. |
| `Es256.PairBytes` | src/sentinel_core/receipt.py:132-137 | Splitting the 64 octets and reading them big-endian recovers R and S. |
| `Es256.BigEndianFirst` | src/sentinel_core/receipt.py:135-136 | The first byte counts most. |
| `Es256.OrderDecimal` | src/sentinel_core/external_signing.py:29 | The group order is that of curve P-256 in FIPS 186-4. |
| `ExternalSigning.FinalizeReceipt` | src/sentinel_core/external_signing.py:240-308 | Every check in the source's order, then the two writes to the copied receipt, as the specification function has them. |
| `SigningTheorems.PreparedExactly` | src/sentinel_core/external_signing.py:134-183 | The validator admits exactly the context rebuilt from payload, key and role: no other header spelling, repeated key or base64 variant. |
| `SigningTheorems.HeaderExactly` | src/sentinel_core/external_signing.py:155-173 | Header bytes pass exactly when they are the canonical profile header of the key. |
| `SigningTheorems.PrepareExactly` | src/sentinel_core/external_signing.py:186-237 | Prepare succeeds exactly when its guards hold, its result is the rebuilt context, and its own validation never rejects. |
| `SigningTheorems.ReadyExactly` | src/sentinel_core/external_signing.py:186-237 | The guards in the receipt's own fields: chain and list present, no entry of the key, no other hash recorded. |
| `SigningTheorems.RoleGrows` | src/sentinel_core/external_signing.py:119-121 | Which texts are roles, character by character. |
| `SigningTheorems.FinalizeExactly` | src/sentinel_core/external_signing.py:240-308 | Finalize succeeds exactly on the context of this very receipt and a well-shaped answer for its key. |
| `SigningTheorems.FinalizeKeeps` | src/sentinel_core/external_signing.py:261-308 | A successful finalize leaves payload, hash and every earlier entry verdict as they were and records the hash. |
| `SigningTheorems.AttachKeeps` | src/sentinel_core/external_signing.py:296-307 | The two writes keep the signed body and append exactly one entry. |
| `SigningTheorems.SignExactly` | src/sentinel_core/external_signing.py:311-326 | One signing round succeeds exactly when the guards hold and the answer is well shaped; the result is the attachment. |
| `SigningTheorems.SigningCommutes` | src/sentinel_core/external_signing.py:186-326 | Signing with two keys in either order gives receipts that differ only in list order. |
| `EndToEnd.HonestEntryAccepted` | src/sentinel_core/external_signing.py:186-308 | The entry an honest signing round produces is one the independent verifier accepts, byte for byte. |
| `EndToEnd.TeamSigns` | src/sentinel_core/external_signing.py:311-326 | Signing in turn with any number of fresh, trusted keys always succeeds. |
| `EndToEnd.SignedReceiptVerdict` | src/sentinel_core/external_signing.py:186-326 | After any number of such rounds the verifier counts exactly the signatures there are, and reports RC_VERIFIED exactly when policy, threshold, class floor and roles are met. |
| `AzureSigning.TranscodePreserves` | src/sentinel_core/azure_cli_signing.py:160-166 | The command-line digest exists exactly for canonical 32-byte texts and decodes to the same 32 bytes. |
| `AzureSigning.TranscodedText` | src/sentinel_core/azure_cli_signing.py:160-166 | The argument is the request's text in the other alphabet with one padding character, 44 in all. |
| `AzureSigning.ResponseExactly` | src/sentinel_core/azure_cli_signing.py:91-127 | A response is accepted exactly when it is small enough, names the key and offers one canonical 64-byte signature. |
| `AzureSigning.FinalizesAzureAnswer` | src/sentinel_core/azure_cli_signing.py:151-219 | An answer of the adapter to a prepared request is finalized exactly when its scalars are in range, which the adapter does not check. |
| `AzureSigning.DigestReachesCommand` | src/sentinel_core/azure_cli_signing.py:160-182 | The command line carries the hash of the signing input. |
| `EvidenceChain.VerifyChain` | internal/evidence/chain.go:10-38 | The loop reports the listed errors and succeeds exactly when every record is complete, numbered, hashable and names the hash before it. |
| `EvidenceChain.CheckRecord` | internal/evidence/chain.go:14-34 | One iteration with its continue exits: the errors it appends and the previous hash it carries on. |
| `EvidenceChain.ValidExactly` | internal/evidence/record.go:27-53 | A record is valid exactly when version, subject, kind, policy, actor and role are non-empty, both hashes are hash texts of digests, and the time is not zero. |
| `EvidenceChain.ReasonHolds` | internal/evidence/record.go:27-53 | The reason given for an invalid record is one. |
| `EvidenceChain.NamesExactly` | internal/evidence/chain.go:24-27 | A record names a hash exactly when its previous hash is that text. |
| `EvidenceChain.ErrorsExactly` | internal/evidence/chain.go:14-34 | The errors reported are exactly those there are, each at its record, with the hash carried over failing records. |
| `EvidenceChain.IncompleteRejected` | internal/evidence/chain.go:14-19 | A chain in which any record lacks what it must have is rejected. |
| `EvidenceChain.OkExactly` | internal/evidence/chain.go:10-38 | From any position with the right carried hash, no error is reported exactly when every later record is linked. |
| `EvidenceChain.AppendExactly` | internal/evidence/chain.go:10-38 | A chain grows by a record exactly when the record has the next number and names the head. |
| `GoText.ObjectExactly` | internal/evidence/record.go:13-25 | Marshalled objects with the same names share a text exactly when their values agree character by character, stray bytes counting as one another. |
| `GoText.QuoteSplit` | internal/evidence/record.go:13-25 | A quoted Go string is read off the front of any text: its units and what follows are determined. |
| `GoText.QuoteReads` | internal/evidence/record.go:13-25 | A quoted Go string reads as its characters, with U+FFFD for every byte that begins none. |
| `GoText.UnitsWeigh` | internal/evidence/record.go:13-25 | Every byte of a string is accounted for: by the character it belongs to, or alone. |
| `EvidenceChain.MarshalExactly` | internal/evidence/record.go:13-25 | Two records of arbitrary bytes marshal to one text exactly when they agree after that substitution. |
| `EvidenceChain.RecordReads` | internal/evidence/record.go:13-25 | The text of a record of valid UTF-8 is JSON of exactly the record's fields, under their names and in their order, and no text Go may write for them is shorter. |
| `EvidenceChain.EqualHashes` | internal/evidence/record.go:55-64 | Two hashable records with one hash that do not agree are a collision of their encodings. |
| `EvidenceChain.SameRecordHash` | internal/evidence/record.go:27-64 | Agreeing records have one hash and one validation answer: agreement is all the chain sees. |
| `EvidenceChain.Walk` | internal/evidence/chain.go:10-38 | Two accepted chains with one head, walked backwards: they agree throughout, exactly then Same is returned, or the two records where they differ have one hash. |
| `EvidenceChain.Compare` | internal/evidence/chain.go:10-38 | Two accepted chains with one head agree record by record, exactly then Same is returned, or a SHA-256 collision between one record of each is returned. |
| `EvidenceChain.SameHistoryEqual` | internal/evidence/chain.go:10-38 | For records of valid UTF-8, chains that agree are equal. |
| `EvidenceChain.TamperingShows` | internal/evidence/chain.go:24-34 | Replacing a record before the head of an accepted chain by an agreeing one is accepted; any other replacement is rejected, or is a collision. |
| `Trust.ResolveExactly` | src/sentinel_core/trust.py:58-90 | A key resolves exactly when it is registered, of the algorithm, active and in its window at the time of issue. |
| `Trust.RefusalHolds` | src/sentinel_core/trust.py:58-90 | The error given for a key that does not resolve is one. |
| `Trust.TrustRegistry.Add` | src/sentinel_core/trust.py:53-56 | Adding replaces one key, files it under its own identifier and leaves every other key resolving as before. |
| `Trust.TrustRegistry.constructor` | src/sentinel_core/trust.py:50-51 | The registry of a list: the last key of an identifier wins. |
| `Policies.RuleForRole` | src/sentinel_core/policy.py:40-46 | The rule found is the first for the role, and none is found exactly when no rule has the role. |
| `Policies.AuthorizeExactly` | src/sentinel_core/policy.py:89-112 | A record is authorized exactly when its own policy's first rule for the role lists its decision, and its source unless the rule lists none. |
| `Policies.RefusalHolds` | src/sentinel_core/policy.py:89-112 | The error given for a record that is not authorized is one. |
| `Policies.PolicyRegistry.Add` | src/sentinel_core/policy.py:60-63 | Adding replaces one policy and leaves records of every other policy judged as before. |
| `EvidenceVerifier.Verify` | src/sentinel_core/verifier.py:33-143 | The staged verifier: its errors in order, verdict, digest, warnings, role and key, accepted or not, or the OverflowError it lets through. |
| `EvidenceVerifier.ReportExactly` | src/sentinel_core/verifier.py:97-143 | The reported role and key, for acceptances and rejections: a resolved key's own; without one no key, and the manual role exactly when the record's policy permits it. |
| `EvidenceVerifier.ReportedKey` | src/sentinel_core/verifier.py:97-118 | A key is the one reported on exactly when the record names it and it is registered, active and in its window at the time of issue. |
| `EvidenceVerifier.CheckPolicy` | src/sentinel_core/verifier.py:120-134 | The policy stage reports what the stage function does for the role it is given. |
| `EvidenceVerifier.BasicReports` | src/sentinel_core/verifier.py:68-90 | Each basic error is reported exactly when the record has that fault, a signature value being present when Python takes it as true. |
| `EvidenceVerifier.TrustReports` | src/sentinel_core/verifier.py:92-118 | What the trust stage reports is so. |
| `EvidenceVerifier.PolicyReports` | src/sentinel_core/verifier.py:120-134 | What the policy stage reports is so. |
| `EvidenceVerifier.RoleIsBound` | src/sentinel_core/verifier.py:125-134 | With a trust registry, acceptance is the same for every manually supplied role. |
| `EvidenceVerifier.TrustExactly` | src/sentinel_core/verifier.py:97-118 | The trust stage resolves a key without error exactly when that active, in-window key verifies the blanked payload under an EdDSA signature object. |
| `EvidenceVerifier.AcceptedExactly` | src/sentinel_core/verifier.py:33-143 | With both registries, acceptance exactly when the basic checks hold and one trusted key signed the record and its own role is permitted. |
| `EvidenceVerifier.FlagsOnlyReject` | src/sentinel_core/verifier.py:33-44 | Turning on any require flag never turns a rejection into an acceptance. |
| `WorkflowText.WithoutYamlComment` | src/sentinel_core/workflow_security.py:27-47 | The quote and escape scan returns the code before the first marker outside quotes, right-trimmed. |
| `WorkflowText.CodeIdempotent` | src/sentinel_core/workflow_security.py:27-47 | Stripped code has no comment marker outside quotes, and stripping it again changes nothing. |
| `WorkflowText.AppendedComment` | src/sentinel_core/workflow_security.py:27-47 | A comment appended where no quote is open, or after an earlier comment, does not change the code. |
| `WorkflowText.SplitExactly` | src/sentinel_core/workflow_security.py:191 | The lines of a text are the only ones that, with some line ends, make it up; a return and newline end one line. |
| `WorkflowPatterns.UsesExactly` | src/sentinel_core/workflow_security.py:12-14 | A line matches the uses pattern exactly when it splits into its parts, and the indent, dash and value are those of the parts. |
| `WorkflowPatterns.WithExactly` | src/sentinel_core/workflow_security.py:15 | A line matches the with pattern exactly when it is white space, the key, and white space to the end. |
| `WorkflowPatterns.PersistExactly` | src/sentinel_core/workflow_security.py:16-18 | A line matches the persist-credentials pattern exactly when it splits into its parts, and the indent and boolean are those of the parts. |
| `WorkflowPatterns.RemoteExactly` | src/sentinel_core/workflow_security.py:11 | A remote action is accepted exactly as an owner part without at sign or white space, an at sign and 40 hex digits. |
| `WorkflowPatterns.LocalExactly` | src/sentinel_core/workflow_security.py:12 | A local action is accepted exactly as `./` and a text without white space and number sign. |
| `WorkflowPatterns.CheckoutActionExactly` | src/sentinel_core/workflow_security.py:23 | A checkout is `actions/checkout@` and 40 hex digits. |
| `WorkflowPatterns.StepStartExactly` | src/sentinel_core/workflow_security.py:19 | A list item is white space, a dash and white space. |
| `WorkflowPatterns.MentionsExactly` | src/sentinel_core/workflow_security.py:20-22 | A key is mentioned exactly when it stands, bare or quoted, before a colon and at the start or after white space, a brace or a comma. |
| `WorkflowPatterns.SpaceList` | src/sentinel_core/workflow_security.py:12-22 | White space is the 29 characters of str.isspace. |
| `WorkflowPatterns.BreakList` | src/sentinel_core/workflow_security.py:191 | The line boundaries are the ten characters of str.splitlines. |
| `WorkflowPatterns.TrimExactly` | src/sentinel_core/workflow_security.py:47 | Trimming takes away the white space at the end, and all of it. |
| `Workflow.ValidateLines` | src/sentinel_core/workflow_security.py:188-263 | The two passes with their mutable lists and the set of checked steps report exactly the specified failures, in order. |
| `Workflow.ValidateText` | src/sentinel_core/workflow_security.py:188-191 | Validating a text is validating its lines. |
| `Workflow.CheckLine` | src/sentinel_core/workflow_security.py:194-222 | The branches of the checks on one line report the specified failures. |
| `Workflow.FindStepBounds` | src/sentinel_core/workflow_security.py:54-95 | The upward and downward scans find the bounds of the step around a uses line. |
| `Workflow.FindMappingBounds` | src/sentinel_core/workflow_security.py:98-110 | The scan for the end of a block mapping. |
| `Workflow.ValidateCheckoutInputs` | src/sentinel_core/workflow_security.py:113-185 | The one scan for with and persist-credentials keys and the filters on it report the specified failures. |
| `Workflow.KeepSelected` | src/sentinel_core/workflow_security.py:165-174 | Filtering the scanned keys by position is selecting by both tests, which ties the filters to their meaning. |
| `WorkflowTheorems.BoundsExactly` | src/sentinel_core/workflow_security.py:54-95 | Bounds are found exactly when indentation gives the line a step: its list item above, and the next item or dedent below. |
| `WorkflowTheorems.LevelExactly` | src/sentinel_core/workflow_security.py:162-169 | A content line is at the least indent exactly when no content line of the mapping is indented less. |
| `WorkflowTheorems.CheckoutExactly` | src/sentinel_core/workflow_security.py:113-185 | A checkout passes exactly when its step has one with mapping at the uses column that directly turns the credentials off once, with none elsewhere in the step. |
| `WorkflowTheorems.SecondPassNone` | src/sentinel_core/workflow_security.py:224-263 | Checking each step once loses nothing: no failure exactly when no step of any uses line has one. |
| `WorkflowTheorems.AcceptedExactly` | src/sentinel_core/workflow_security.py:188-263 | A file passes exactly when every line is good and every uses line is alone in its step, with its checkout inputs safe. |
| `WorkflowTheorems.AcceptedText` | src/sentinel_core/workflow_security.py:188-263 | A text passes exactly when every line's code has only safe references and no key in an unreadable form, and every step around a uses line is safe. |
| `WorkflowTheorems.AcceptedPinned` | src/sentinel_core/workflow_security.py:204-214 | In a text that passes, every action is a local path or ends in an at sign and 40 hex digits. |
| `WorkflowTheorems.ReportedExactly` | src/sentinel_core/workflow_security.py:194-222 | A line failure is reported exactly when the code of the line it names has that fault. |
| `WorkflowTheorems.ReadingExactly` | src/sentinel_core/workflow_security.py:188-263 | What the checks read of a line, in terms of the texts the patterns stand for. |
| `WorkflowTheorems.UsesReading` | src/sentinel_core/workflow_security.py:12-23 | A line is read as a uses line exactly when it has the parts of one, and as a checkout by its value. |
| `WorkflowTheorems.FlagReading` | src/sentinel_core/workflow_security.py:16-18 | A line is read as setting the credentials exactly when it has the parts of such a line. |
| `WorkflowTheorems.DashCheckoutRejected` | src/sentinel_core/workflow_security.py:131-149 | A checkout written as the first key of its list item is rejected whenever the rest of its step is indented past the dash. |
| `WorkflowTheorems.StrippingInvisible` | src/sentinel_core/workflow_security.py:188-263 | Replacing every line of a text by its stripped form gives the same failure list. |
| `WorkflowTheorems.CommentInvisible` | src/sentinel_core/workflow_security.py:188-263 | In any text, appending a one-line comment to a line whose quotes are closed gives the same failure list. |
| `Wav.CreateRoundTrip` | src/sentinel_core/xai_voice.py:631-662 | A file is made exactly for an allowed rate, whole samples and a fitting size, and a chunk-walking RIFF reader returns the samples and their rate. |
| `Wav.SizeFields` | src/sentinel_core/xai_voice.py:644-660 | Both size fields hold the true sizes, without 32-bit overflow. |
| `Wav.FileLayout` | src/sentinel_core/xai_voice.py:644-660 | The chunk names are spelled in ASCII where the format has them, and the format chunk says 16 bytes of PCM. |
| `VoiceEvents.TextExactly` | src/sentinel_core/xai_voice.py:445-458 | A transcript event carries a text exactly when each of its delta and text fields that is not null is that text. |
| `VoiceEvents.ChunkExactly` | src/sentinel_core/xai_voice.py:329-341 | An audio event carries a chunk exactly when its delta is the one base64 text of that non-empty chunk. |
| `VoiceEvents.KindExactly` | src/sentinel_core/xai_voice.py:289-378 | Which event type each branch is for: every kind is tied to the type text as it arrived. |
| `VoiceEvents.IdExactly` | src/sentinel_core/xai_voice.py:305-313 | An id is read exactly when the object under the key has it and it is 1 to 256 letters, digits, dots, underscores, colons or hyphens. |
| `VoiceEvents.StatusExactly` | src/sentinel_core/xai_voice.py:356-362 | A status is the response object's text, or absent. |
| `VoiceCollector.ResponseCollector.Consume` | src/sentinel_core/xai_voice.py:289-378 | One event: the result or error and the whole state after it, on every path. |
| `VoiceCollector.NewCollector` | src/sentinel_core/xai_voice.py:272-287 | A collector is made exactly for limits in their ranges, and starts empty. |
| `VoiceCollector.StepValid` | src/sentinel_core/xai_voice.py:289-394 | Accepted or refused, an event keeps the counters true, the buffers and recorded types within their limits, and nothing buffered without an active response. |
| `VoiceCollector.AfterValid` | src/sentinel_core/xai_voice.py:289-394 | The same after every event sequence, going on after errors. |
| `VoiceCollector.ActiveHolds` | src/sentinel_core/xai_voice.py:300-352 | An active response is the one opened last, with exactly the deltas accepted since, in order. |
| `VoiceCollector.NamesKept` | src/sentinel_core/xai_voice.py:292-298 | The recorded types are those of the first events since the collector was last empty, refused events included, up to the limit. |
| `VoiceCollector.CompletedResponse` | src/sentinel_core/xai_voice.py:354-376 | A completed response has the created id, the in-order concatenation of the deltas accepted since, whole samples, and sizes within the limits. |
| `VoiceCollector.CompletesExactly` | src/sentinel_core/xai_voice.py:354-376 | Which events complete a response, in terms of the run so far, both directions. |
| `VoiceCollector.ResponseFitsWav` | src/sentinel_core/xai_voice.py:631-662 | The WAV writer never refuses a response of a validly configured collector. |
| `VoiceWire.AcceptsExactly` | src/sentinel_core/xai_voice.py:289-378 | Which events the collector accepts, by the type and fields as they arrived. |
| `VoiceWire.CompletedOnWire` | src/sentinel_core/xai_voice.py:289-376 | A response completes at an accepted response.done, was opened by a response.created with its id, and joins the texts and audio of exactly the transcript and audio events accepted in between; audio_done_seen tells whether an accepted end of audio came. |
| `VoiceClient.XaiVoiceClient.RunTurn` | src/sentinel_core/xai_voice.py:753-801 | At most the item and one response request are sent, in that order and within the size limit; the response is the first one completed by the events that arrived, each captured and none an error; a refused prompt sends nothing; any later failure clears socket and conversation id and has its stated cause; the sink's text joins to the transcript. |
| `VoiceClient.XaiVoiceClient.SendAndAwait` | src/sentinel_core/xai_voice.py:758-801 | The guarded part of a turn: undeliverable messages are ambiguous and nothing is awaited; any failure clears socket and conversation id. |
| `VoiceClient.XaiVoiceClient.Connect` | src/sentinel_core/xai_voice.py:705-738 | A connection becomes ready on the first session.updated that arrives, with no failure before it, or leaves nothing open and no conversation id, for the stated cause; the stored id is never refused by the URL builder. |
| `VoiceClient.XaiVoiceClient.Close` | src/sentinel_core/xai_voice.py:740-751 | The socket is closed and forgotten, its session no longer ready. |
| `VoiceClient.XaiVoiceClient.AwaitResponse` | src/sentinel_core/xai_voice.py:775-796 | The receive loop returns the first response that the arrived events complete, with a completed or absent status, and hands the sink exactly the accepted text; it fails only by what arrived, a refusal of the collector, the sink, or an unfinished response. |
| `VoiceClient.XaiVoiceClient.WaitForSessionReady` | src/sentinel_core/xai_voice.py:803-812 | Waiting consumes events up to the first session.updated and ends ready, or ends in the failure that arrived before one: an error event, a malformed conversation id, silence or a broken read. It sends nothing. |
| `VoiceClient.XaiVoiceClient.SendEvent` | src/sentinel_core/xai_voice.py:814-820 | A message goes out, once, exactly when the socket is open and its UTF-8 text is within the size limit; the failure is the first of the three conditions not met. |
| `VoiceClient.XaiVoiceClient.ReceiveEvent` | src/sentinel_core/xai_voice.py:822-833 | The event is the one that arrived next, and it alone is consumed; a timed-out wait closes the socket, any other answer leaves it as it is. |
| `VoiceClient.XaiVoiceClient.ReceiveNext` | src/sentinel_core/xai_voice.py:805-809 | The head of both receive loops: the next event with its conversation id captured, or the failure that it is. |
| `VoiceClient.XaiVoiceClient.CaptureConversationId` | src/sentinel_core/xai_voice.py:835-847 | A conversation id is stored exactly when the event carries a well-formed one and resumption is enabled; a malformed one is an error. |
| `VoiceClient.ReplaySafe` | src/sentinel_core/xai_voice.py:705-812 | Every log the client's phases allow is safe: turn messages only on open sockets on which the session update was sent and session.updated received, and no socket left open but the current one. |
| `VoiceClient.NextEvent` | src/sentinel_core/xai_voice.py:781-790 | An accepted event adds its text to what is collected, and the response it completes is the first and holds all of it. |
| `VoiceWire.NextOnWire` | src/sentinel_core/xai_voice.py:781-790 | What one arrived event is to a wait, by its type: an error, a malformed conversation id, no type, or the event. |
| `VoiceWire.CapturedOnWire` | src/sentinel_core/xai_voice.py:835-847 | Only a conversation.created with a well-formed id changes the conversation id. |
| `VoiceWire.ReadyOnWire` | src/sentinel_core/xai_voice.py:803-812 | A ready connection heard exactly one session.updated, last, and no error. |
| `VoiceWire.TurnOnWire` | src/sentinel_core/xai_voice.py:775-796 | The response of a turn ends at the first accepted response.done among the events that arrived and is what those events say. |
| `VoiceWire.HeardRest` | src/sentinel_core/xai_voice.py:753-790 | The events of a turn are those that arrived after the events of the connection made for it. |
| `VoiceWire.TurnSaid` | src/sentinel_core/xai_voice.py:501-514 | The two messages of a turn, field by field. |
| `VoiceWire.SentReads` | src/sentinel_core/xai_voice.py:814-820 | The text of a message reads as the message, and the size checked is that of its UTF-8 form. |
| `VoiceClient.PromptExactly` | src/sentinel_core/xai_voice.py:882-888 | Which prompts are sent. |
| `VoiceClient.Drive` | src/sentinel_core/xai_voice.py:705-812 | Over every sequence of calls and network answers: turn messages only on sockets that received session.updated, each turn's at most once and in order, no other socket left open. |
| `VoiceArtifacts.SafeComponentSafe` | src/sentinel_core/xai_voice.py:915-919 | Whatever the response id, the file component is non-empty, at most 120 long, of safe characters and does not begin with a dot, underscore or hyphen. |
| `VoiceArtifacts.SafeComponentIs` | src/sentinel_core/xai_voice.py:915-919 | The component is what is left of the squeezed id without its edges, cut at 120 characters, or `unknown`. |
| `VoiceArtifacts.SqueezeRun` | src/sentinel_core/xai_voice.py:916 | Safe characters stay and a whole run of others becomes one underscore. |
| `VoiceArtifacts.SafeIdKept` | src/sentinel_core/xai_voice.py:915-919 | An id that is already safe and short names its files. |
| `VoiceArtifacts.NamesSpell` | src/sentinel_core/xai_voice.py:542-547 | Each file name is the component between `response_` and the ending of its kind. |
| `VoiceArtifacts.OutputDirectory.AtomicWrite` | src/sentinel_core/xai_voice.py:926-958 | One step: a name already taken is refused, a failure leaves no file, and success adds exactly one; the files of others are those that were added. |
| `VoiceArtifacts.Persist` | src/sentinel_core/xai_voice.py:517-622 | The run is the specification function's, moment by moment; a requested name already there is refused as existing; a failing run whose unlinks work leaves only files of others, and exactly the files there were when no other process wrote. |
| `VoiceArtifacts.PersistSafe` | src/sentinel_core/xai_voice.py:597-616 | At every moment of a run: files there at its start are unchanged, files counted as others' are really theirs and unchanged, and a manifest of this run comes with every file it names and the digest it records. |
| `VoiceArtifacts.PersistRefuses` | src/sentinel_core/xai_voice.py:526-555 | Exactly when a run is refused for a taken name, and that every refusal before the writes changes nothing. |
| `VoiceArtifacts.PersistFails` | src/sentinel_core/xai_voice.py:597-613 | A failing run leaves no manifest of its own and, when its unlinks work, none of its files. |
| `VoiceArtifacts.PersistSucceeds` | src/sentinel_core/xai_voice.py:597-622 | A successful run leaves the complete set and no other file of its own; an undisturbed run does not fail in its writes. |
| `VoiceArtifacts.WriteAll` | src/sentinel_core/xai_voice.py:597-616 | The writes in order, audio, transcript, manifest, the first failure ending them, with the rollback of exactly what was written. |
| `VoiceArtifacts.RollBack` | src/sentinel_core/xai_voice.py:607-613 | Every created file, last first, each unlink on its own. |
| `VoiceArtifacts.RollBackSafe` | src/sentinel_core/xai_voice.py:607-613 | Every moment of a rollback is safe, whichever unlinks fail. |
| `VoiceArtifacts.RollBackClears` | src/sentinel_core/xai_voice.py:607-613 | When all unlinks work, exactly the files of others remain. |
| `VoiceArtifacts.CompleteReadsBack` | src/sentinel_core/xai_voice.py:561-572 | The files of a complete set read back as the response's samples, rate and transcript. |
| `VoiceArtifacts.ManifestTells` | src/sentinel_core/xai_voice.py:562-601 | The manifest of a complete set lists exactly the files there, with their digests, the sizes and digest of the samples that read back, and the response's own fields. |

## Left out

- Fractional JSON numbers are kept as their text and excluded from the JSON theorems (`Plain`); their printing is not modelled.
- Lone surrogates: a string is a sequence of Unicode scalar values, so `Loads` refuses the escapes that would make one, and the encoding errors they cause do not arise.
- Limits of the Python interpreter on JSON nesting and on the number of digits of an integer.
- Python's `==` between booleans, integers and floats of equal value; JSON values are compared with their type.
- The truth of a floating-point `signature.value` of zero, which the model takes as present.
- SHA-256, ECDSA, EdDSA, DER and the loading of JWK and Ed25519 keys: parameters.
- RFC 3339 parsing, key-identifier URLs and the JSON Schema engine: parameters.
- Message texts: an issue keeps its code, its severity and the key or role it names, a failure its kind and line.
- The order of `matched_roles`: a set here, a sorted tuple there.
- The second check of `min_signatures` in `verify_receipt`, which can never fire after the first.
- The deep copy in finalize is a functional update, so aliasing between the receipts is not captured.
- Go: a time is its marshalled RFC 3339 text or one of the two times without one, a map is its key-sorted list, and a chain has fewer than 2^63 records.
- `policy.Decide`, the Go receipt structure check, the Go trust registry and the loaders of registry files: single-branch validation that would add only easy members.
- `release_evidence.py`, `pilot.py`, command lines, environment variables, terminal output and the PowerShell bootstrap.
- Subprocess handling of the Azure adapter: the runner is a function from arguments to output or failure.
- `parse_server_event`: size limit, UTF-8, JSON and repeated keys are one answer, unreadable, of the network script.
- Asynchronous cancellation inside `connect` and the send block of `run_turn`, which catch `Exception` only: the lifecycle results are for runs without cancellation there.
- Instruction texts, override patterns and Unicode normalization of the voice session; the session update is a parameter.
- The WebSocket URL beyond the conversation id, agent ids, API keys and timeouts.
- VoiceArtifacts.OutputDirectory.AtomicWrite: the temporary file is not modelled, so its last unlink is taken to succeed.
- VoiceArtifacts.Persist: directory creation and permissions are one parameter, file modes are not modelled, and other processes add files but do not remove any.
- `duration_seconds` and the manifest's timestamp and JSON text, which is the parameter `render`.

/**
 The Go evidence core: a record, its validation and hash, and the verification of a chain of
 records. Go strings are bytes. A Go map is kept as its key-sorted list and a time as the RFC 3339
 text it marshals to.
 */
module EvidenceChain {
  import opened Wrappers
  import opened Json
  import opened Digests
  import opened GoText
  import opened JsonShortest
  import JsonText
  import Utf8

  type Uint64 = n: int | 0 <= n < 0x1_0000_0000_0000_0000

  /** OutOfRange: a year or offset that time.Time refuses to marshal. */
  datatype Timestamp = ZeroTime | At(text: string) | OutOfRange

  /** The order of Go strings, byte by byte. */
  predicate KeyBefore(a: Bytes, b: Bytes) {
    b != [] && (a == [] || a[0] < b[0] || (a[0] == b[0] && KeyBefore(a[1..], b[1..])))
  }

  ghost predicate IsMetadata(es: seq<Entry>) {
    forall i, j :: 0 <= i < j < |es| ==> KeyBefore(es[i].key, es[j].key)
  }

  type Metadata = es: seq<Entry> | IsMetadata(es) witness []

  datatype Record = Record(
    version: Bytes,
    sequence: Uint64,
    subject: Bytes,
    kind: Bytes,
    payloadHash: Bytes,
    previousHash: Bytes,
    policyId: Bytes,
    actor: Bytes,
    actorRole: Bytes,
    issuedAt: Timestamp,
    metadata: Metadata)

  datatype Invalid =
    | NoVersion | NoSubject | NoKind | BadPayloadHash | BadPreviousHash | NoPolicyId | NoActor | NoTime

  /** ValidateSHA256Digest on bytes: the prefix and 64 lower-case hex characters, and so valid UTF-8. */
  predicate IsDigest(b: Bytes) {
    Utf8.Decode(b).Some? && IsUrn(Utf8.Decode(b).value)
  }

  /** Record.Validate; None is a valid record. */
  function Validate(r: Record): Option<Invalid> {
    if r.version == [] then Some(NoVersion)
    else if r.subject == [] then Some(NoSubject)
    else if r.kind == [] then Some(NoKind)
    else if !IsDigest(r.payloadHash) then Some(BadPayloadHash)
    else if !IsDigest(r.previousHash) then Some(BadPreviousHash)
    else if r.policyId == [] then Some(NoPolicyId)
    else if r.actor == [] || r.actorRole == [] then Some(NoActor)
    else if r.issuedAt.ZeroTime? then Some(NoTime)
    else None
  }

  /** The bytes spell the prefixed hash of some digest. */
  ghost predicate DigestText(b: Bytes) {
    exists d: Digest :: b == Utf8.Encode(Urn(d))
  }

  /** What a record must have. */
  ghost predicate Complete(r: Record) {
    && r.version != [] && r.subject != [] && r.kind != []
    && DigestText(r.payloadHash) && DigestText(r.previousHash)
    && r.policyId != [] && r.actor != [] && r.actorRole != []
    && r.issuedAt != ZeroTime
  }

  lemma {:induction false} DigestExactly(b: Bytes)
    ensures IsDigest(b) <==> DigestText(b)
  {
    if IsDigest(b) {
      UrnExactly(Utf8.Decode(b).value);
      Utf8.EncodeDecode(b);
    }
    if d: Digest :| b == Utf8.Encode(Urn(d)) {
      Utf8.DecodeEncode(Urn(d));
      UrnExactly(Urn(d));
    }
  }

  lemma {:induction false} ValidExactly(r: Record)
    ensures Validate(r).None? <==> Complete(r)
  {
    DigestExactly(r.payloadHash);
    DigestExactly(r.previousHash);
  }

  /** The reason given is one: the record lacks what it names. */
  lemma {:induction false} ReasonHolds(r: Record)
    requires Validate(r).Some?
    ensures match Validate(r).value
            case NoVersion => r.version == []
            case NoSubject => r.subject == []
            case NoKind => r.kind == []
            case BadPayloadHash => !DigestText(r.payloadHash)
            case BadPreviousHash => !DigestText(r.previousHash)
            case NoPolicyId => r.policyId == []
            case NoActor => r.actor == [] || r.actorRole == []
            case NoTime => r.issuedAt == ZeroTime
  {
    DigestExactly(r.payloadHash);
    DigestExactly(r.previousHash);
  }

  // ----- Marshalling -----

  const FIELD_NAMES: seq<string> := [
    "version", "sequence", "subject", "kind", "payload_hash", "previous_hash", "policy_id", "actor",
    "actor_role", "issued_at", "metadata"]

  function Scalars(r: Record, issued: string): (vs: seq<GoValue>)
    ensures |vs| == 10
  {
    [Text(r.version), Number(r.sequence), Text(r.subject), Text(r.kind), Text(r.payloadHash), Text(r.previousHash),
     Text(r.policyId), Text(r.actor), Text(r.actorRole), Text(Utf8.Encode(issued))]
  }

  function FieldValues(r: Record, issued: string): (vs: seq<GoValue>)
    ensures |vs| == if r.metadata == [] then 10 else 11
  {
    Scalars(r, issued) + if r.metadata == [] then [] else [Dict(r.metadata)]
  }

  function Named(vs: seq<GoValue>): (fs: seq<GoField>)
    requires |vs| <= |FIELD_NAMES|
    ensures |fs| == |vs| && forall i :: 0 <= i < |fs| ==> fs[i] == GoField(FIELD_NAMES[i], vs[i])
  {
    seq(|vs|, i requires 0 <= i < |vs| => GoField(FIELD_NAMES[i], vs[i]))
  }

  /** json.Marshal of the record; an empty metadata map is omitted. */
  function Marshal(r: Record): Option<string> {
    match r.issuedAt
    case At(text) => Some(ObjectText(Named(FieldValues(r, text))))
    case _ => None
  }

  datatype HashError = InvalidRecord(reason: Invalid) | MarshalFailed

  function HashOf(sha: HashFunction, r: Record): Result<string, HashError> {
    match Validate(r)
    case Some(reason) => Err(InvalidRecord(reason))
    case None =>
      match Marshal(r)
      case None => Err(MarshalFailed)
      case Some(text) => Ok(HashText(sha, text))
  }

  /** How the chain verifier sees hashing: a record to its hash, or the reason there is none. */
  type RecordHash = Record -> Result<string, HashError>

  function Hashing(sha: HashFunction): RecordHash {
    r => HashOf(sha, r)
  }

  // ----- Which records share a text -----

  /** The records differ at most in which bytes that begin no character stand where such bytes stand. */
  predicate SameRecord(r: Record, s: Record) {
    && r.sequence == s.sequence && r.issuedAt == s.issuedAt
    && Units(r.version) == Units(s.version) && Units(r.subject) == Units(s.subject)
    && Units(r.kind) == Units(s.kind)
    && Units(r.payloadHash) == Units(s.payloadHash) && Units(r.previousHash) == Units(s.previousHash)
    && Units(r.policyId) == Units(s.policyId)
    && Units(r.actor) == Units(s.actor) && Units(r.actorRole) == Units(s.actorRole)
    && SameEntries(r.metadata, s.metadata)
  }

  ghost predicate SameValues(v: seq<GoValue>, w: seq<GoValue>) {
    |v| == |w| && forall i :: 0 <= i < |v| ==> SameValue(v[i], w[i])
  }

  lemma {:induction false} TimeUnits(t: string, u: string)
    ensures Units(Utf8.Encode(t)) == Units(Utf8.Encode(u)) <==> t == u
  {
    Utf8.DecodeEncode(t);
    if Units(Utf8.Encode(t)) == Units(Utf8.Encode(u)) {
      ValidUnits(Utf8.Encode(t), Utf8.Encode(u));
      Utf8.EncodeInjective(t, u);
    }
  }

  lemma {:induction false} ValuesSame(r: Record, s: Record, t: string, u: string)
    requires SameValues(FieldValues(r, t), FieldValues(s, u))
    ensures Units(Utf8.Encode(t)) == Units(Utf8.Encode(u))
    ensures r.sequence == s.sequence
    ensures Units(r.version) == Units(s.version) && Units(r.subject) == Units(s.subject)
    ensures Units(r.kind) == Units(s.kind) && Units(r.payloadHash) == Units(s.payloadHash)
    ensures Units(r.previousHash) == Units(s.previousHash) && Units(r.policyId) == Units(s.policyId)
    ensures Units(r.actor) == Units(s.actor) && Units(r.actorRole) == Units(s.actorRole)
    ensures SameEntries(r.metadata, s.metadata)
  {
    var v, w := FieldValues(r, t), FieldValues(s, u);
    assert SameValue(v[0], w[0]) && SameValue(v[1], w[1]) && SameValue(v[2], w[2]) && SameValue(v[3], w[3]);
    assert SameValue(v[4], w[4]) && SameValue(v[5], w[5]) && SameValue(v[6], w[6]) && SameValue(v[7], w[7]);
    assert SameValue(v[8], w[8]) && SameValue(v[9], w[9]);
    if |v| == 11 {
      assert SameValue(v[10], w[10]);
    }
  }

  lemma {:induction false} SameRecordValues(r: Record, s: Record, t: string)
    requires SameRecord(r, s)
    ensures SameValues(FieldValues(r, t), FieldValues(s, t))
  {
  }

  lemma {:induction false} ValuesExactly(r: Record, s: Record)
    requires r.issuedAt.At? && s.issuedAt.At?
    ensures SameValues(FieldValues(r, r.issuedAt.text), FieldValues(s, s.issuedAt.text)) <==> SameRecord(r, s)
  {
    if SameValues(FieldValues(r, r.issuedAt.text), FieldValues(s, s.issuedAt.text)) {
      ValuesSame(r, s, r.issuedAt.text, s.issuedAt.text);
      TimeUnits(r.issuedAt.text, s.issuedAt.text);
    }
    if SameRecord(r, s) {
      SameRecordValues(r, s, r.issuedAt.text);
    }
  }

  lemma {:induction false} NamedExactly(v: seq<GoValue>, w: seq<GoValue>)
    requires 0 < |v| <= |FIELD_NAMES| && 0 < |w| <= |FIELD_NAMES|
    ensures ObjectText(Named(v)) == ObjectText(Named(w)) <==> SameValues(v, w)
  {
    ObjectExactly(Named(v), Named(w));
    if SameFields(Named(v), Named(w)) {
      forall i | 0 <= i < |v| ensures SameValue(v[i], w[i]) {
        assert SameValue(Named(v)[i].value, Named(w)[i].value);
      }
    }
  }

  /** Two records marshal to one text exactly when they agree unit by unit. */
  lemma {:induction false} MarshalExactly(r: Record, s: Record)
    requires Marshal(r).Some? && Marshal(s).Some?
    ensures Marshal(r) == Marshal(s) <==> SameRecord(r, s)
  {
    NamedExactly(FieldValues(r, r.issuedAt.text), FieldValues(s, s.issuedAt.text));
    ValuesExactly(r, s);
  }

  predicate ValidText(r: Record) {
    && Utf8.Decode(r.version).Some? && Utf8.Decode(r.subject).Some? && Utf8.Decode(r.kind).Some?
    && Utf8.Decode(r.payloadHash).Some? && Utf8.Decode(r.previousHash).Some? && Utf8.Decode(r.policyId).Some?
    && Utf8.Decode(r.actor).Some? && Utf8.Decode(r.actorRole).Some?
    && forall i :: 0 <= i < |r.metadata| ==> ValidEntry(r.metadata[i])
  }

  /** Records of valid UTF-8 share a text only with themselves. */
  lemma {:induction false} MarshalInjective(r: Record, s: Record)
    requires Marshal(r).Some? && Marshal(r) == Marshal(s) && ValidText(r)
    ensures r == s
  {
    MarshalExactly(r, s);
    ValidUnits(r.version, s.version);
    ValidUnits(r.subject, s.subject);
    ValidUnits(r.kind, s.kind);
    ValidUnits(r.payloadHash, s.payloadHash);
    ValidUnits(r.previousHash, s.previousHash);
    ValidUnits(r.policyId, s.policyId);
    ValidUnits(r.actor, s.actor);
    ValidUnits(r.actorRole, s.actorRole);
    ValidEntries(r.metadata, s.metadata);
  }

  lemma {:induction false} ValidEntries(a: seq<Entry>, b: seq<Entry>)
    requires SameEntries(a, b) && forall i :: 0 <= i < |a| ==> ValidEntry(a[i])
    ensures a == b
  {
    forall i | 0 <= i < |a| ensures a[i] == b[i] {
      ValidUnits(a[i].key, b[i].key);
      ValidUnits(a[i].value, b[i].value);
    }
  }

  // ----- The text is JSON -----

  lemma {:induction false} KeyIrreflexive(a: Bytes)
    ensures !KeyBefore(a, a)
  {
    if a != [] {
      KeyIrreflexive(a[1..]);
    }
  }

  lemma {:induction false} MetadataPlain(m: Metadata)
    requires forall i :: 0 <= i < |m| ==> ValidEntry(m[i])
    ensures Plain(Obj(LiftEntries(m)))
  {
    var fs := LiftEntries(m);
    forall i, j | 0 <= i < j < |fs| ensures fs[i].key != fs[j].key {
      KeyIrreflexive(m[i].key);
      Utf8.EncodeDecode(m[i].key);
      Utf8.EncodeDecode(m[j].key);
    }
  }

  lemma {:induction false} NamesDistinct(i: nat, j: nat)
    requires i < j < |FIELD_NAMES|
    ensures FIELD_NAMES[i] != FIELD_NAMES[j]
  {
    var n := FIELD_NAMES;
    assert n[0][0] == 'v' && n[1][1] == 'e' && n[2][1] == 'u' && n[3][0] == 'k';
    assert |n[4]| == 12 && |n[5]| == 13 && |n[6]| == 9 && |n[7]| == 5;
    assert |n[8]| == 10 && |n[9]| == 9 && n[6][0] == 'p' && n[9][0] == 'i' && n[10][0] == 'm';
  }

  ghost predicate Readable(v: GoValue) {
    ValidValue(v) && Plain(LiftValue(v))
  }

  predicate AllValid(fs: seq<GoField>) {
    forall i :: 0 <= i < |fs| ==> ValidValue(fs[i].value)
  }

  ghost predicate AllReadable(vs: seq<GoValue>) {
    forall i :: 0 <= i < |vs| ==> Readable(vs[i])
  }

  lemma {:induction false} TextReadable(b: Bytes)
    requires Utf8.Decode(b).Some?
    ensures Readable(Text(b))
  {
  }

  lemma {:induction false} NumberReadable(n: nat)
    ensures Readable(Number(n))
  {
  }

  lemma {:induction false} DictReadable(m: Metadata)
    requires forall i :: 0 <= i < |m| ==> ValidEntry(m[i])
    ensures Readable(Dict(m))
  {
    MetadataPlain(m);
  }

  lemma {:induction false} TenReadable(
    a: GoValue, b: GoValue, c: GoValue, d: GoValue, e: GoValue, f: GoValue, g: GoValue, h: GoValue, i: GoValue,
    j: GoValue)
    requires Readable(a) && Readable(b) && Readable(c) && Readable(d) && Readable(e) && Readable(f) && Readable(g)
    requires Readable(h) && Readable(i) && Readable(j)
    ensures AllReadable([a, b, c, d, e, f, g, h, i, j])
  {
  }

  lemma {:induction false} ValuesReadable(r: Record, issued: string)
    requires ValidText(r)
    ensures AllReadable(FieldValues(r, issued))
  {
    ScalarsReadable(r, issued);
    if r.metadata != [] {
      DictReadable(r.metadata);
    }
  }

  lemma {:induction false} ScalarsReadable(r: Record, issued: string)
    requires ValidText(r)
    ensures AllReadable(Scalars(r, issued))
  {
    Utf8.DecodeEncode(issued);
    TextReadable(r.version);
    NumberReadable(r.sequence);
    TextReadable(r.subject);
    TextReadable(r.kind);
    TextReadable(r.payloadHash);
    TextReadable(r.previousHash);
    TextReadable(r.policyId);
    TextReadable(r.actor);
    TextReadable(r.actorRole);
    TextReadable(Utf8.Encode(issued));
    TenReadable(Text(r.version), Number(r.sequence), Text(r.subject), Text(r.kind), Text(r.payloadHash),
                Text(r.previousHash), Text(r.policyId), Text(r.actor), Text(r.actorRole), Text(Utf8.Encode(issued)));
  }

  lemma {:induction false} NamedPlain(vs: seq<GoValue>)
    requires 0 < |vs| <= |FIELD_NAMES| && AllReadable(vs)
    ensures AllValid(Named(vs)) && Plain(Obj(LiftFields(Named(vs))))
  {
    assert forall i :: 0 <= i < |vs| ==> Readable(vs[i]);
    var lifted := LiftFields(Named(vs));
    forall i, j | 0 <= i < j < |lifted| ensures lifted[i].key != lifted[j].key {
      NamesDistinct(i, j);
    }
  }

  lemma {:induction false} ObjectReadsBack(fs: seq<GoField>)
    requires fs != [] && AllValid(fs) && Plain(Obj(LiftFields(fs)))
    ensures Loads(ObjectText(fs)) == Some(Obj(LiftFields(fs)))
  {
    ObjectValid(fs);
    LoadsPrint(JsonText.GoMarshal, Obj(LiftFields(fs)));
  }

  lemma {:induction false} NamedReadsBack(vs: seq<GoValue>)
    requires 0 < |vs| <= |FIELD_NAMES| && AllReadable(vs)
    ensures AllValid(Named(vs)) && Loads(ObjectText(Named(vs))) == Some(Obj(LiftFields(Named(vs))))
  {
    NamedPlain(vs);
    ObjectReadsBack(Named(vs));
  }

  /** The text of a record of valid UTF-8 reads back, as JSON, as the record's fields. */
  lemma {:induction false} MarshalReadsBack(r: Record)
    requires Marshal(r).Some? && ValidText(r)
    ensures var fs := Named(FieldValues(r, r.issuedAt.text));
            && AllValid(fs)
            && Loads(Marshal(r).value) == Some(Obj(LiftFields(fs)))
  {
    ValuesReadable(r, r.issuedAt.text);
    NamedReadsBack(FieldValues(r, r.issuedAt.text));
  }

  /** The field is a text of those bytes. */
  ghost predicate TextField(f: Field, name: string, b: Bytes) {
    f.key == name && Utf8.Decode(b).Some? && f.value == Str(Utf8.Decode(b).value)
  }

  /** The metadata as an object: every entry's key and value as texts, in the order of the keys. */
  ghost predicate MetadataField(f: Field, m: Metadata) {
    && f.key == "metadata" && f.value.Obj? && |f.value.fields| == |m|
    && forall i :: 0 <= i < |m| ==>
         Utf8.Decode(m[i].key).Some? && TextField(f.value.fields[i], Utf8.Decode(m[i].key).value, m[i].value)
  }

  /** The record as JSON, field by field; empty metadata is left out. */
  ghost predicate RecordFields(fs: Fields, r: Record) {
    && |fs| == (if r.metadata == [] then 10 else 11)
    && TextField(fs[0], "version", r.version) && fs[1] == Field("sequence", Num(r.sequence))
    && TextField(fs[2], "subject", r.subject) && TextField(fs[3], "kind", r.kind)
    && TextField(fs[4], "payload_hash", r.payloadHash) && TextField(fs[5], "previous_hash", r.previousHash)
    && TextField(fs[6], "policy_id", r.policyId)
    && TextField(fs[7], "actor", r.actor) && TextField(fs[8], "actor_role", r.actorRole)
    && r.issuedAt.At? && fs[9] == Field("issued_at", Str(r.issuedAt.text))
    && (r.metadata != [] ==> MetadataField(fs[10], r.metadata))
  }

  lemma {:induction false} LiftedText(fs: seq<GoField>, i: nat, name: string, b: Bytes)
    requires AllValid(fs) && i < |fs| && fs[i] == GoField(name, Text(b))
    ensures TextField(LiftFields(fs)[i], name, b)
  {
    assert ValidValue(fs[i].value);
  }

  lemma {:induction false} LiftedMetadata(fs: seq<GoField>, i: nat, m: Metadata)
    requires AllValid(fs) && i < |fs| && fs[i] == GoField("metadata", Dict(m))
    ensures MetadataField(LiftFields(fs)[i], m)
  {
    assert ValidValue(fs[i].value);
    var lifted := LiftEntries(m);
    assert forall k :: 0 <= k < |m| ==> lifted[k] == LiftEntry(m[k]);
  }

  lemma {:induction false} NamedAt(r: Record)
    requires r.issuedAt.At?
    ensures var fs := Named(FieldValues(r, r.issuedAt.text));
            && |fs| == (if r.metadata == [] then 10 else 11)
            && fs[0] == GoField("version", Text(r.version)) && fs[1] == GoField("sequence", Number(r.sequence))
            && fs[2] == GoField("subject", Text(r.subject)) && fs[3] == GoField("kind", Text(r.kind))
            && fs[4] == GoField("payload_hash", Text(r.payloadHash))
            && fs[5] == GoField("previous_hash", Text(r.previousHash))
            && fs[6] == GoField("policy_id", Text(r.policyId)) && fs[7] == GoField("actor", Text(r.actor))
            && fs[8] == GoField("actor_role", Text(r.actorRole))
            && fs[9] == GoField("issued_at", Text(Utf8.Encode(r.issuedAt.text)))
            && (r.metadata != [] ==> fs[10] == GoField("metadata", Dict(r.metadata)))
  {
  }

  lemma {:induction false} LiftedRecord(r: Record, fs: seq<GoField>)
    requires r.issuedAt.At? && fs == Named(FieldValues(r, r.issuedAt.text)) && AllValid(fs)
    ensures RecordFields(LiftFields(fs), r)
  {
    NamedAt(r);
    LiftedText(fs, 0, "version", r.version);
    LiftedText(fs, 2, "subject", r.subject);
    LiftedText(fs, 3, "kind", r.kind);
    LiftedText(fs, 4, "payload_hash", r.payloadHash);
    LiftedText(fs, 5, "previous_hash", r.previousHash);
    LiftedText(fs, 6, "policy_id", r.policyId);
    LiftedText(fs, 7, "actor", r.actor);
    LiftedText(fs, 8, "actor_role", r.actorRole);
    LiftedText(fs, 9, "issued_at", Utf8.Encode(r.issuedAt.text));
    Utf8.DecodeEncode(r.issuedAt.text);
    if r.metadata != [] {
      LiftedMetadata(fs, 10, r.metadata);
    }
  }

  /**
   The text of a record of valid UTF-8 is JSON, of exactly the record's fields under their names and
   in their order, and no text Go may write for them is shorter.
   */
  lemma {:induction false} RecordReads(r: Record) returns (fs: Fields)
    requires Marshal(r).Some? && ValidText(r)
    ensures Loads(Marshal(r).value) == Some(Obj(fs)) && RecordFields(fs, r)
    ensures forall t :: Loads(t) == Some(Obj(fs)) && Permitted(JsonText.GoMarshal, t) ==> |Marshal(r).value| <= |t|
  {
    MarshalReadsBack(r);
    var named := Named(FieldValues(r, r.issuedAt.text));
    fs := LiftFields(named);
    LiftedRecord(r, named);
    ObjectValid(named);
    forall t | Loads(t) == Some(Obj(fs)) && Permitted(JsonText.GoMarshal, t) ensures |Marshal(r).value| <= |t| {
      PrintShortest(JsonText.GoMarshal, t, Obj(fs));
    }
  }

  // ----- The chain verifier -----

  datatype ChainError =
    | ValidationFailed(index: nat, reason: Invalid)
    | SequenceMismatch(index: nat)
    | PreviousHashMismatch(index: nat)
    | HashFailed(index: nat)

  datatype ChainResult = ChainResult(ok: bool, errors: seq<ChainError>)

  /** The record's previous hash is this one; as bytes, its encoding. */
  predicate Names(r: Record, previous: string) {
    Utf8.Decode(r.previousHash) == Some(previous)
  }

  lemma {:induction false} NamesExactly(r: Record, previous: string)
    ensures Names(r, previous) <==> r.previousHash == Utf8.Encode(previous)
  {
    Utf8.DecodeEncode(previous);
    if Names(r, previous) {
      Utf8.EncodeDecode(r.previousHash);
    }
  }

  function LinkErrors(r: Record, i: nat, previous: string): seq<ChainError> {
    (if r.sequence != i + 1 then [SequenceMismatch(i)] else [])
    + if !Names(r, previous) then [PreviousHashMismatch(i)] else []
  }

  /** One iteration: what it reports, and the previous hash it carries on. */
  function Step(hash: RecordHash, r: Record, i: nat, previous: string): (seq<ChainError>, string) {
    match Validate(r)
    case Some(reason) => ([ValidationFailed(i, reason)], previous)
    case None =>
      match hash(r)
      case Err(_) => (LinkErrors(r, i, previous) + [HashFailed(i)], previous)
      case Ok(next) => (LinkErrors(r, i, previous), next)
  }

  function ErrorsFrom(hash: RecordHash, records: seq<Record>, i: nat, previous: string): seq<ChainError>
    requires i <= |records|
    decreases |records| - i
  {
    if i == |records| then []
    else
      var (errors, next) := Step(hash, records[i], i, previous);
      errors + ErrorsFrom(hash, records, i + 1, next)
  }

  method CheckRecord(hash: RecordHash, record: Record, i: nat, previousHash: string)
    returns (errors: seq<ChainError>, next: string)
    ensures (errors, next) == Step(hash, record, i, previousHash)
  {
    errors, next := [], previousHash;
    match Validate(record) {
      case Some(reason) =>
        errors := [ValidationFailed(i, reason)];
      case None =>
        if record.sequence != i + 1 {
          errors := errors + [SequenceMismatch(i)];
        }
        if !Names(record, previousHash) {
          errors := errors + [PreviousHashMismatch(i)];
        }
        assert errors == LinkErrors(record, i, previousHash);
        match hash(record) {
          case Err(_) => errors := errors + [HashFailed(i)];
          case Ok(h) => next := h;
        }
    }
  }

  /** The loop of VerifyChain: a record that fails keeps the previous hash carried on. */
  method VerifyChain(hash: RecordHash, records: seq<Record>) returns (result: ChainResult)
    ensures result.errors == ErrorsFrom(hash, records, 0, ZERO_URN)
    ensures result.ok <==> result.errors == []
    ensures result.ok <==> WellChained(hash, records)
    ensures result.ok ==> forall i :: 0 <= i < |records| ==> Complete(records[i])
  {
    var errors: seq<ChainError> := [];
    var previousHash := ZERO_URN;
    var i := 0;
    while i < |records|
      invariant 0 <= i <= |records|
      invariant errors + ErrorsFrom(hash, records, i, previousHash) == ErrorsFrom(hash, records, 0, ZERO_URN)
    {
      var found, next := CheckRecord(hash, records[i], i, previousHash);
      ghost var rest := ErrorsFrom(hash, records, i + 1, next);
      assert errors + (found + rest) == errors + found + rest;
      errors, previousHash := errors + found, next;
      i := i + 1;
    }
    assert errors + [] == errors;
    OkExactly(hash, records, 0, ZERO_URN);
    if errors == [] {
      AllComplete(hash, records);
    }
    return ChainResult(errors == [], errors);
  }

  // ----- What a verified chain is -----

  /** The hash a record at position `i` must name. */
  function Link(hash: RecordHash, records: seq<Record>, i: nat): Result<string, HashError>
    requires i <= |records|
  {
    if i == 0 then Ok(ZERO_URN) else hash(records[i - 1])
  }

  ghost predicate WellChained(hash: RecordHash, records: seq<Record>) {
    forall i :: 0 <= i < |records| ==> Linked(hash, records, i)
  }

  lemma {:induction false} AllComplete(hash: RecordHash, records: seq<Record>)
    requires WellChained(hash, records)
    ensures forall i :: 0 <= i < |records| ==> Complete(records[i])
  {
    forall i | 0 <= i < |records| ensures Complete(records[i]) {
      assert Linked(hash, records, i);
    }
  }

  ghost predicate Linked(hash: RecordHash, records: seq<Record>, i: nat)
    requires i < |records|
  {
    && Complete(records[i]) && hash(records[i]).Ok?
    && records[i].sequence == i + 1
    && Link(hash, records, i).Ok? && records[i].previousHash == Utf8.Encode(Link(hash, records, i).value)
  }

  ghost predicate LinkedFrom(hash: RecordHash, records: seq<Record>, i: nat) {
    forall k :: i <= k < |records| ==> Linked(hash, records, k)
  }

  lemma {:induction false} LinkedFromStep(hash: RecordHash, records: seq<Record>, i: nat)
    requires i < |records|
    ensures LinkedFrom(hash, records, i) <==> Linked(hash, records, i) && LinkedFrom(hash, records, i + 1)
  {
  }

  lemma {:induction false} OkExactly(hash: RecordHash, records: seq<Record>, i: nat, previous: string)
    requires i <= |records| && Link(hash, records, i) == Ok(previous)
    ensures ErrorsFrom(hash, records, i, previous) == []
       <==> LinkedFrom(hash, records, i)
    decreases |records| - i
  {
    if i < |records| {
      LinkedExactly(hash, records, i, previous);
      LinkedFromStep(hash, records, i);
      var (errors, next) := Step(hash, records[i], i, previous);
      if errors == [] {
        OkExactly(hash, records, i + 1, next);
      }
    }
  }

  lemma {:induction false} LinkedExactly(hash: RecordHash, records: seq<Record>, i: nat, previous: string)
    requires i < |records| && Link(hash, records, i) == Ok(previous)
    ensures Step(hash, records[i], i, previous).0 == [] <==> Linked(hash, records, i)
    ensures Linked(hash, records, i) ==>
              Link(hash, records, i + 1) == Ok(Step(hash, records[i], i, previous).1)
  {
    StepExactly(hash, records[i], i, previous);
    ValidExactly(records[i]);
    NamesExactly(records[i], previous);
  }

  lemma {:induction false} StepExactly(hash: RecordHash, r: Record, i: nat, previous: string)
    ensures Step(hash, r, i, previous).0 == [] <==>
            && Validate(r).None? && hash(r).Ok? && r.sequence == i + 1 && Names(r, previous)
    ensures Step(hash, r, i, previous).0 == [] ==> hash(r) == Ok(Step(hash, r, i, previous).1)
  {
  }

  function Head(hash: RecordHash, records: seq<Record>): Result<string, HashError> {
    Link(hash, records, |records|)
  }

  /** A chain grows by a record exactly when the record carries the next number and the head. */
  lemma {:induction false} AppendExactly(hash: RecordHash, records: seq<Record>, r: Record)
    ensures WellChained(hash, records + [r]) <==>
            && WellChained(hash, records)
            && Complete(r) && hash(r).Ok? && r.sequence == |records| + 1
            && Head(hash, records).Ok? && r.previousHash == Utf8.Encode(Head(hash, records).value)
  {
    var all := records + [r];
    assert forall i :: 0 <= i < |records| ==> all[i] == records[i];
    assert forall i {:trigger Link(hash, all, i)} :: 0 <= i <= |records| ==>
      Link(hash, all, i) == Link(hash, records, i);
    assert forall i :: 0 <= i < |records| ==> (Linked(hash, all, i) <==> Linked(hash, records, i));
    assert all[|records|] == r;
    if WellChained(hash, all) {
      assert Linked(hash, all, |records|);
    }
  }

  lemma {:induction false} ValidAt(hash: RecordHash, records: seq<Record>, i: nat)
    requires WellChained(hash, records) && i < |records|
    ensures Validate(records[i]).None? && hash(records[i]).Ok?
  {
    assert Linked(hash, records, i);
    ValidExactly(records[i]);
  }

  /** A chain with an incomplete record is rejected, whatever the rest. */
  lemma {:induction false} IncompleteRejected(hash: RecordHash, records: seq<Record>, i: nat, r: Record)
    requires i < |records| && !Complete(r)
    ensures !WellChained(hash, records[i := r])
  {
    assert records[i := r][i] == r;
    assert !Linked(hash, records[i := r], i);
  }

  // ----- Which errors are reported -----

  /** The hash carried to position `i`: that of the last record before it that has one, or the zero hash. */
  function Carried(hash: RecordHash, records: seq<Record>, i: nat): string
    requires i <= |records|
  {
    if i == 0 then ZERO_URN
    else if Validate(records[i - 1]).None? && hash(records[i - 1]).Ok? then hash(records[i - 1]).value
    else Carried(hash, records, i - 1)
  }

  /** The error names a record that has it. */
  predicate HasError(hash: RecordHash, records: seq<Record>, e: ChainError) {
    && e.index < |records|
    && var r := records[e.index];
       match e
       case ValidationFailed(_, reason) => Validate(r) == Some(reason)
       case SequenceMismatch(_) => Validate(r).None? && r.sequence != e.index + 1
       case PreviousHashMismatch(_) => Validate(r).None? && !Names(r, Carried(hash, records, e.index))
       case HashFailed(_) => Validate(r).None? && hash(r).Err?
  }

  lemma {:induction false} StepHas(hash: RecordHash, records: seq<Record>, i: nat, e: ChainError)
    requires i < |records|
    ensures var (errors, next) := Step(hash, records[i], i, Carried(hash, records, i));
            && (e in errors <==> e.index == i && HasError(hash, records, e))
            && next == Carried(hash, records, i + 1)
  {
  }

  lemma {:induction false} ErrorsHave(hash: RecordHash, records: seq<Record>, i: nat, e: ChainError)
    requires i <= |records|
    ensures e in ErrorsFrom(hash, records, i, Carried(hash, records, i)) <==>
            e.index >= i && HasError(hash, records, e)
    decreases |records| - i
  {
    if i < |records| {
      StepHas(hash, records, i, e);
      ErrorsHave(hash, records, i + 1, e);
    }
  }

  /** The errors reported are exactly those there are, each at its record. */
  lemma {:induction false} ErrorsExactly(hash: RecordHash, records: seq<Record>, e: ChainError)
    ensures e in ErrorsFrom(hash, records, 0, ZERO_URN) <==> HasError(hash, records, e)
  {
    ErrorsHave(hash, records, 0, e);
  }

  // ----- Tamper evidence -----

  datatype Comparison = Same | Collision(x: Record, y: Record)

  /** Two records whose distinct encodings have one SHA-256 digest. */
  ghost predicate Collides(sha: HashFunction, x: Record, y: Record) {
    && !SameRecord(x, y) && Marshal(x).Some? && Marshal(y).Some?
    && Utf8.Encode(Marshal(x).value) != Utf8.Encode(Marshal(y).value)
    && sha(Utf8.Encode(Marshal(x).value)) == sha(Utf8.Encode(Marshal(y).value))
  }

  lemma {:induction false} EqualHashes(sha: HashFunction, x: Record, y: Record)
    requires Hashing(sha)(x).Ok? && Hashing(sha)(x) == Hashing(sha)(y) && !SameRecord(x, y)
    ensures Collides(sha, x, y)
  {
    MarshalExactly(x, y);
    HashTextBinds(sha, Marshal(x).value, Marshal(y).value);
  }

  ghost predicate SameHistory(a: seq<Record>, b: seq<Record>) {
    |a| == |b| && forall i :: 0 <= i < |a| ==> SameRecord(a[i], b[i])
  }

  /** Digests that agree unit by unit are equal: they are valid UTF-8. */
  lemma {:induction false} SameDigest(a: Bytes, b: Bytes)
    requires Units(a) == Units(b)
    ensures IsDigest(a) == IsDigest(b) && (IsDigest(a) ==> a == b)
  {
    if IsDigest(a) {
      ValidUnits(a, b);
    }
    if IsDigest(b) {
      ValidUnits(b, a);
    }
  }

  /** What the walk needs of a comparison: agreeing valid records have one number and one previous hash. */
  ghost predicate Links(same: (Record, Record) -> bool) {
    forall r, s :: same(r, s) && Validate(r).None? && Validate(s).None? ==>
      r.sequence == s.sequence && r.previousHash == s.previousHash
  }

  ghost predicate Agree(same: (Record, Record) -> bool, a: seq<Record>, b: seq<Record>) {
    |a| == |b| && forall k :: 0 <= k < |a| ==> same(a[k], b[k])
  }

  ghost predicate AgreeFrom(same: (Record, Record) -> bool, a: seq<Record>, b: seq<Record>, i: nat) {
    |a| == |b| && forall k :: i <= k < |a| ==> same(a[k], b[k])
  }

  /** Walking two verified chains with one head backwards, to the first pair that does not agree. */
  method Walk(hash: RecordHash, same: (Record, Record) -> bool, a: seq<Record>, b: seq<Record>)
    returns (c: Comparison)
    requires WellChained(hash, a) && WellChained(hash, b) && a != [] && b != []
    requires Head(hash, a) == Head(hash, b) && Links(same)
    ensures c.Same? <==> Agree(same, a, b)
    ensures c.Collision? ==> c.x in a && c.y in b && !same(c.x, c.y) && hash(c.x).Ok? && hash(c.x) == hash(c.y)
  {
    var i, j := |a|, |b|;
    while i > 0 && j > 0
      invariant 0 <= i <= |a| && 0 <= j <= |b|
      invariant if i == |a| then j == |b| else i == j && AgreeFrom(same, a, b, i)
      invariant i == |a| || i > 0 ==> Link(hash, a, i) == Link(hash, b, j)
    {
      if !same(a[i - 1], b[j - 1]) {
        ValidAt(hash, a, i - 1);
        return Collision(a[i - 1], b[j - 1]);
      }
      SameLink(hash, same, a, b, i - 1, j - 1);
      i, j := i - 1, j - 1;
    }
    return Same;
  }

  /** Agreeing records of two chains stand at one place and name one hash. */
  lemma {:induction false} SameLink(
    hash: RecordHash, same: (Record, Record) -> bool, a: seq<Record>, b: seq<Record>, i: nat, j: nat)
    requires i < |a| && j < |b| && WellChained(hash, a) && WellChained(hash, b) && Links(same)
    requires same(a[i], b[j])
    ensures i == j && Link(hash, a, i) == Link(hash, b, j)
  {
    ValidAt(hash, a, i);
    ValidAt(hash, b, j);
    assert Linked(hash, a, i) && Linked(hash, b, j);
    Utf8.EncodeInjective(Link(hash, a, i).value, Link(hash, b, j).value);
  }

  lemma {:induction false} SameRecordLinks()
    ensures Links(SameRecord)
  {
    forall r, s | SameRecord(r, s) && Validate(r).None? && Validate(s).None?
      ensures r.sequence == s.sequence && r.previousHash == s.previousHash
    {
      SameDigest(r.previousHash, s.previousHash);
    }
  }

  /**
   Two verified chains with one head are the same chain unit by unit, or the walk returns two
   records, one of each, that are an explicit SHA-256 collision.
   */
  method Compare(sha: HashFunction, a: seq<Record>, b: seq<Record>) returns (c: Comparison)
    requires WellChained(Hashing(sha), a) && WellChained(Hashing(sha), b) && a != [] && b != []
    requires Head(Hashing(sha), a) == Head(Hashing(sha), b)
    ensures c.Same? <==> SameHistory(a, b)
    ensures c.Collision? ==> c.x in a && c.y in b && Collides(sha, c.x, c.y)
  {
    SameRecordLinks();
    c := Walk(Hashing(sha), SameRecord, a, b);
    if c.Collision? {
      EqualHashes(sha, c.x, c.y);
    }
  }

  /** Chains of valid UTF-8 that agree unit by unit are equal, so for them Same means equal. */
  lemma {:induction false} SameHistoryEqual(a: seq<Record>, b: seq<Record>)
    requires SameHistory(a, b) && forall i :: 0 <= i < |a| ==> ValidText(a[i]) && Marshal(a[i]).Some?
    ensures a == b
  {
    forall i | 0 <= i < |a| ensures a[i] == b[i] {
      MarshalExactly(a[i], b[i]);
      MarshalInjective(a[i], b[i]);
    }
  }

  lemma {:induction false} SameMarshal(r: Record, s: Record)
    requires SameRecord(r, s)
    ensures Marshal(r) == Marshal(s)
  {
    if r.issuedAt.At? {
      MarshalExactly(r, s);
    }
  }

  /** Agreement unit by unit is all a hash sees: it keeps validity and the hash. */
  lemma {:induction false} SameRecordHash(sha: HashFunction, r: Record, s: Record)
    requires SameRecord(r, s)
    ensures Hashing(sha)(r) == Hashing(sha)(s) && Validate(r) == Validate(s)
  {
    SameMarshal(r, s);
    SameValidity(r, s);
  }

  lemma {:induction false} SameEmpty(a: Bytes, b: Bytes)
    requires Units(a) == Units(b)
    ensures a == [] <==> b == []
  {
    UnitsEmpty(a);
    UnitsEmpty(b);
  }

  lemma {:induction false} SameValidity(r: Record, s: Record)
    requires SameRecord(r, s)
    ensures Validate(r) == Validate(s)
  {
    SameEmpty(r.version, s.version);
    SameEmpty(r.subject, s.subject);
    SameEmpty(r.kind, s.kind);
    SameEmpty(r.policyId, s.policyId);
    SameEmpty(r.actor, s.actor);
    SameEmpty(r.actorRole, s.actorRole);
    SameDigest(r.payloadHash, s.payloadHash);
    SameDigest(r.previousHash, s.previousHash);
  }

  // ----- A forged record -----

  lemma {:induction false} ForgedAccepted(hash: RecordHash, records: seq<Record>, i: nat, forged: Record)
    requires WellChained(hash, records) && i < |records|
    requires hash(forged) == hash(records[i]) && Validate(forged).None?
    requires forged.sequence == records[i].sequence && forged.previousHash == records[i].previousHash
    ensures WellChained(hash, records[i := forged])
  {
    var other := records[i := forged];
    ValidExactly(forged);
    forall k | 0 <= k < |other| ensures Linked(hash, other, k) {
      assert Linked(hash, records, k);
      assert Link(hash, other, k) == Link(hash, records, k);
    }
  }

  lemma {:induction false} ForgedHash(hash: RecordHash, records: seq<Record>, i: nat, forged: Record)
    requires i + 1 < |records| && WellChained(hash, records) && WellChained(hash, records[i := forged])
    ensures hash(records[i]).Ok? && hash(records[i]) == hash(forged)
  {
    var other := records[i := forged];
    assert Linked(hash, records, i) && Linked(hash, records, i + 1);
    assert Linked(hash, other, i) && Linked(hash, other, i + 1);
    assert other[i] == forged && other[i + 1] == records[i + 1];
    Utf8.EncodeInjective(hash(records[i]).value, hash(forged).value);
  }

  /**
   Replacing a record before the head of a verified chain is accepted exactly when the forged
   record agrees with it unit by unit, unless the two are a collision.
   */
  lemma {:induction false} TamperingShows(sha: HashFunction, records: seq<Record>, i: nat, forged: Record)
    requires WellChained(Hashing(sha), records) && i + 1 < |records|
    ensures SameRecord(records[i], forged) ==> WellChained(Hashing(sha), records[i := forged])
    ensures WellChained(Hashing(sha), records[i := forged]) ==>
              SameRecord(records[i], forged) || Collides(sha, records[i], forged)
  {
    if SameRecord(records[i], forged) {
      SameAccepted(sha, records, i, forged);
    } else if WellChained(Hashing(sha), records[i := forged]) {
      ForgedHash(Hashing(sha), records, i, forged);
      EqualHashes(sha, records[i], forged);
    }
  }

  lemma {:induction false} SameRecordKeeps(sha: HashFunction, r: Record, s: Record)
    requires SameRecord(r, s) && Validate(r).None?
    ensures Hashing(sha)(r) == Hashing(sha)(s) && Validate(s).None?
    ensures r.sequence == s.sequence && r.previousHash == s.previousHash
  {
    SameRecordHash(sha, r, s);
    SameRecordLinks();
  }

  lemma {:induction false} SameAccepted(sha: HashFunction, records: seq<Record>, i: nat, forged: Record)
    requires WellChained(Hashing(sha), records) && i < |records| && SameRecord(records[i], forged)
    ensures WellChained(Hashing(sha), records[i := forged])
  {
    ValidAt(Hashing(sha), records, i);
    SameRecordKeeps(sha, records[i], forged);
    ForgedAccepted(Hashing(sha), records, i, forged);
  }
}

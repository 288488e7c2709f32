/** What the voice client reads in a server event: its kind, and the fields each kind must carry. */
module VoiceEvents {
  import opened Wrappers
  import opened Base64
  import opened Json

  datatype Problem =
    | BadType
    | TooManyEvents
    | AlreadyActive
    | NotActive
    | NoMetadata
    | BadId
    | Conflict
    | NotText
    | BadAudio
    | TooMuchText
    | TooMuchAudio
    | BadStatus
    | OddAudio

  datatype Kind =
    | ResponseCreated
    | TextDelta
    | AudioDelta
    | AudioDone
    | ResponseDone
    | ConversationCreated
    | SessionUpdated
    | RemoteError
    | Other

  /** An event as the checks see it; a field matters only for the kinds that carry it. */
  datatype Event = Event(
    name: Option<string>,
    kind: Kind,
    response: Result<string, Problem>,
    conversation: Result<string, Problem>,
    text: Result<string, Problem>,
    chunk: Result<Bytes, Problem>,
    status: Result<Option<string>, Problem>)

  function KindOf(name: string): Kind {
    if name == "response.created" then ResponseCreated
    else if name in {"response.output_audio_transcript.delta", "response.text.delta", "response.output_text.delta"}
    then TextDelta
    else if name in {"response.output_audio.delta", "response.audio.delta"} then AudioDelta
    else if name == "response.output_audio.done" then AudioDone
    else if name == "response.done" then ResponseDone
    else if name == "conversation.created" then ConversationCreated
    else if name == "session.updated" then SessionUpdated
    else if name == "error" then RemoteError
    else Other
  }

  /** The event's type, when it is a non-empty string. */
  function NameOf(event: Fields): Option<string> {
    match Get(event, "type")
    case Str(name) => if name == "" then None else Some(name)
    case _ => None
  }

  /** Letters, digits, dot, underscore, colon and hyphen: the pattern of response and conversation ids. */
  predicate IdChar(c: char) {
    'A' <= c <= 'Z' || 'a' <= c <= 'z' || '0' <= c <= '9' || c == '.' || c == '_' || c == ':' || c == '-'
  }

  predicate WellFormedId(id: string) {
    1 <= |id| <= 256 && forall i :: 0 <= i < |id| ==> IdChar(id[i])
  }

  /** The well-formed id inside the object under a key. */
  function ReadId(event: Fields, key: string): (r: Result<string, Problem>)
    ensures r.Ok? ==> WellFormedId(r.value)
  {
    match Get(event, key)
    case Obj(fields) =>
      (match Get(fields, "id")
       case Str(id) => if WellFormedId(id) then Ok(id) else Err(BadId)
       case _ => Err(BadId))
    case _ => Err(NoMetadata)
  }

  /** _validated_transcript_delta on an event of a transcript kind. */
  function ReadText(event: Fields): Result<string, Problem> {
    var delta := Get(event, "delta");
    var text := Get(event, "text");
    if delta != Null && text != Null && delta != text then Err(Conflict)
    else
      match if delta != Null then delta else text
      case Str(value) => Ok(value)
      case _ => Err(NotText)
  }

  function ReadChunk(event: Fields): Result<Bytes, Problem> {
    match Get(event, "delta")
    case Str(delta) =>
      if delta == "" then Err(BadAudio)
      else
        (match DecodeStdCanonical(delta)
         case None => Err(BadAudio)
         case Some(chunk) => if chunk == [] then Err(BadAudio) else Ok(chunk))
    case _ => Err(BadAudio)
  }

  function ReadStatus(event: Fields): Result<Option<string>, Problem> {
    match Get(event, "response")
    case Obj(fields) =>
      (match Get(fields, "status")
       case Null => Ok(None)
       case Str(status) => Ok(Some(status))
       case _ => Err(BadStatus))
    case _ => Ok(None)
  }

  function ReadEvent(event: Fields): (e: Event)
    ensures e.response.Ok? ==> WellFormedId(e.response.value)
    ensures e.conversation.Ok? ==> WellFormedId(e.conversation.value)
  {
    var name := NameOf(event);
    Event(name, if name.Some? then KindOf(name.value) else Other,
          ReadId(event, "response"), ReadId(event, "conversation"),
          ReadText(event), ReadChunk(event), ReadStatus(event))
  }

  // ----- What the readings mean -----

  predicate TranscriptType(v: Json) {
    || v == Str("response.output_audio_transcript.delta")
    || v == Str("response.text.delta") || v == Str("response.output_text.delta")
  }

  predicate AudioType(v: Json) {
    v == Str("response.output_audio.delta") || v == Str("response.audio.delta")
  }

  /** No two of the event types are the same text. */
  lemma {:induction false} NamesApart(name: string)
    ensures KindOf(name) == ResponseCreated <==> name == "response.created"
    ensures KindOf(name) == TextDelta <==> TranscriptType(Str(name))
    ensures KindOf(name) == AudioDelta <==> AudioType(Str(name))
    ensures KindOf(name) == AudioDone <==> name == "response.output_audio.done"
    ensures KindOf(name) == ResponseDone <==> name == "response.done"
    ensures KindOf(name) == ConversationCreated <==> name == "conversation.created"
    ensures KindOf(name) == SessionUpdated <==> name == "session.updated"
    ensures KindOf(name) == RemoteError <==> name == "error"
  {
    assert |"response.created"| == 16 && |"response.output_audio_transcript.delta"| == 38;
    assert |"response.text.delta"| == 19 && |"response.output_text.delta"| == 26;
    assert |"response.output_audio.delta"| == 27;
    assert |"response.audio.delta"| == 20 && |"response.output_audio.done"| == 26 && |"response.done"| == 13;
    assert |"conversation.created"| == 20 && |"session.updated"| == 15 && |"error"| == 5;
    assert "response.output_text.delta"[16] == 't' && "response.output_audio.done"[16] == 'a';
    assert "response.audio.delta"[0] == 'r' && "conversation.created"[0] == 'c';
  }

  lemma {:induction false} NoName()
    ensures KindOf("") == Other
  {
    NamesApart("");
    assert |"response.created"| == 16 && |"response.output_audio_transcript.delta"| == 38;
    assert |"response.text.delta"| == 19 && |"response.output_text.delta"| == 26;
    assert |"response.output_audio.delta"| == 27;
    assert |"response.audio.delta"| == 20 && |"response.output_audio.done"| == 26 && |"response.done"| == 13;
    assert |"conversation.created"| == 20 && |"session.updated"| == 15 && |"error"| == 5;
  }

  lemma {:induction false} KindRead(event: Fields)
    ensures ReadEvent(event).kind == if Get(event, "type").Str? then KindOf(Get(event, "type").s) else Other
  {
    NoName();
  }

  /** The kind of an event is its type as it arrived. */
  lemma {:induction false} KindExactly(event: Fields)
    ensures var t, kind := Get(event, "type"), ReadEvent(event).kind;
            && (kind == ResponseCreated <==> t == Str("response.created"))
            && (kind == TextDelta <==> TranscriptType(t)) && (kind == AudioDelta <==> AudioType(t))
            && (kind == AudioDone <==> t == Str("response.output_audio.done"))
            && (kind == ResponseDone <==> t == Str("response.done"))
            && (kind == ConversationCreated <==> t == Str("conversation.created"))
            && (kind == SessionUpdated <==> t == Str("session.updated"))
            && (kind == RemoteError <==> t == Str("error"))
  {
    var t := Get(event, "type");
    KindRead(event);
    if t.Str? {
      NamesApart(t.s);
    }
  }

  lemma {:induction false} NameExactly(event: Fields, name: string)
    ensures ReadEvent(event).name == Some(name) <==> name != "" && Get(event, "type") == Str(name)
  {
  }

  /** An id is read exactly when the object under the key has it and it is well formed. */
  lemma {:induction false} IdExactly(event: Fields, key: string, id: string)
    ensures ReadId(event, key) == Ok(id) <==>
            && (exists fs :: Get(event, key) == Obj(fs) && Get(fs, "id") == Str(id))
            && 1 <= |id| <= 256
            && forall i :: 0 <= i < |id| ==>
                 || 'A' <= id[i] <= 'Z' || 'a' <= id[i] <= 'z' || '0' <= id[i] <= '9'
                 || id[i] == '.' || id[i] == '_' || id[i] == ':' || id[i] == '-'
  {
    match Get(event, key)
    case Obj(fields) => assert Get(event, key) == Obj(fields);
    case _ =>
  }

  /** A status is read from the response object, when there is one; it is a text or absent. */
  lemma {:induction false} StatusExactly(event: Fields, status: Option<string>)
    ensures ReadStatus(event) == Ok(status) <==>
            match Get(event, "response")
            case Obj(fields) =>
              (match status
               case Some(text) => Get(fields, "status") == Str(text)
               case None => Get(fields, "status") == Null)
            case _ => status == None
  {
  }

  /** The text of a transcript event is the same in every field that carries one. */
  lemma {:induction false} TextExactly(event: Fields, t: string)
    ensures ReadText(event) == Ok(t)
       <==> (Get(event, "delta") == Str(t) && (Get(event, "text") == Null || Get(event, "text") == Str(t)))
            || (Get(event, "delta") == Null && Get(event, "text") == Str(t))
  {
  }

  /** An audio event carries a chunk exactly when its delta is the chunk's one base64 text. */
  lemma {:induction false} ChunkExactly(event: Fields, chunk: Bytes)
    ensures ReadChunk(event) == Ok(chunk) <==> chunk != [] && Get(event, "delta") == Str(EncodeStd(chunk))
  {
    match Get(event, "delta")
    case Str(delta) =>
      StdExactly(delta, chunk);
      match DecodeStdCanonical(delta) {
        case Some(b) => StdExactly(delta, b);
        case None =>
      }
      assert EncodeStd([]) == "";
      StdExactly("", chunk);
      StdExactly("", []);
    case _ =>
  }
}

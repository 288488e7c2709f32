/** What completed responses and finished waits mean for the events as they arrived on the wire. */
module VoiceWire {
  import opened Wrappers
  import opened Base64
  import opened JsonText
  import opened Json
  import opened VoiceEvents
  import opened VoiceCollector
  import VoiceClient
  import Utf8

  function ReadAll(raw: seq<Fields>): (events: seq<Event>)
    ensures |events| == |raw| && forall i :: 0 <= i < |raw| ==> events[i] == ReadEvent(raw[i])
  {
    seq(|raw|, i requires 0 <= i < |raw| => ReadEvent(raw[i]))
  }

  // ----- Which events the collector accepts -----

  /** The conditions an event must meet, by its type, in a state of the collector. */
  ghost predicate Acceptable(limits: Limits, s: State, event: Fields) {
    var t, active := Get(event, "type"), s.responseId.Some?;
    && t.Str? && t.s != "" && s.eventCount < limits.maxResponseEvents
    && (t == Str("response.created") ==> !active && exists id :: ReadId(event, "response") == Ok(id))
    && (TranscriptType(t) ==>
          active && exists text :: ReadText(event) == Ok(text)
                      && s.transcriptBytes + |Utf8.Encode(text)| <= limits.maxTranscriptBytes)
    && (AudioType(t) ==>
          active && exists chunk :: ReadChunk(event) == Ok(chunk)
                      && s.audioBytes + |chunk| <= limits.maxAudioBytes)
    && (t == Str("response.output_audio.done") ==> active)
    && (t == Str("response.done") ==>
          active && |Join(s.audioParts)| % 2 == 0 && exists status :: ReadStatus(event) == Ok(status))
  }

  lemma {:induction false} AcceptsExactly(limits: Limits, s: State, event: Fields)
    ensures Step(limits, s, ReadEvent(event)).1.Ok? <==> Acceptable(limits, s, event)
  {
    var e := ReadEvent(event);
    KindExactly(event);
    NameOrNone(event);
    if e.name.Some? && s.eventCount < limits.maxResponseEvents {
      var counted := Counted(s, e.name.value);
      assert Step(limits, s, e) == Dispatch(limits, counted, e);
      DispatchAccepts(limits, counted, e);
      if e.text.Ok? {
        Utf8.SizeExactly(e.text.value);
      }
    }
  }

  lemma {:induction false} NameOrNone(event: Fields)
    ensures ReadEvent(event).name.Some? <==> Get(event, "type").Str? && Get(event, "type").s != ""
  {
    if ReadEvent(event).name.Some? {
      NameExactly(event, ReadEvent(event).name.value);
    }
    if Get(event, "type").Str? {
      NameExactly(event, Get(event, "type").s);
    }
  }

  lemma {:induction false} DispatchAccepts(limits: Limits, s: State, e: Event)
    ensures Dispatch(limits, s, e).1.Ok? <==>
            match e.kind
            case ResponseCreated => s.responseId.None? && e.response.Ok?
            case TextDelta =>
              s.responseId.Some? && e.text.Ok?
              && s.transcriptBytes + Utf8.Size(e.text.value) <= limits.maxTranscriptBytes
            case AudioDelta =>
              s.responseId.Some? && e.chunk.Ok? && s.audioBytes + |e.chunk.value| <= limits.maxAudioBytes
            case AudioDone => s.responseId.Some?
            case ResponseDone => s.responseId.Some? && e.status.Ok? && |Join(s.audioParts)| % 2 == 0
            case _ => true
  {
  }

  // ----- A completed response -----

  /** Event `k` was accepted. */
  ghost predicate Taken(limits: Limits, raw: seq<Fields>, k: nat)
    requires k < |raw|
  {
    OutcomeAt(limits, ReadAll(raw), k).Ok?
  }

  /** Event `k` has the type. */
  predicate Is(raw: seq<Fields>, k: nat, name: string)
    requires k < |raw|
  {
    Get(raw[k], "type") == Str(name)
  }

  /** The text of a transcript event: its delta, or else its text field. */
  function WireText(event: Fields): seq<string> {
    match Get(event, "delta")
    case Str(delta) => [delta]
    case Null => (match Get(event, "text") case Str(text) => [text] case _ => [])
    case _ => []
  }

  /** The audio of an audio event. */
  function WireChunk(event: Fields): seq<Bytes> {
    match Get(event, "delta")
    case Str(delta) => (match DecodeStdCanonical(delta) case Some(chunk) => [chunk] case None => [])
    case _ => []
  }

  /** The parts after `c` and before `end`, in order. */
  ghost function Gather<T>(part: nat -> seq<T>, c: nat, end: nat): seq<T>
    requires c < end
    decreases end
  {
    if end == c + 1 then [] else Gather(part, c, end - 1) + part(end - 1)
  }

  /** What event `k` adds to the transcript: its text, if it was accepted and is a transcript event. */
  ghost function TextPart(limits: Limits, raw: seq<Fields>): nat -> seq<string> {
    (k: nat) =>
      if k < |raw| && Taken(limits, raw, k) && TranscriptType(Get(raw[k], "type")) then WireText(raw[k]) else []
  }

  ghost function ChunkPart(limits: Limits, raw: seq<Fields>): nat -> seq<Bytes> {
    (k: nat) => if k < |raw| && Taken(limits, raw, k) && AudioType(Get(raw[k], "type")) then WireChunk(raw[k]) else []
  }

  lemma {:induction false} TextTaken(limits: Limits, s: State, event: Fields)
    ensures var outcome := Step(limits, s, ReadEvent(event)).1;
            NewText(ReadEvent(event), outcome)
            == if outcome.Ok? && TranscriptType(Get(event, "type")) then WireText(event) else []
  {
    KindExactly(event);
    AcceptsExactly(limits, s, event);
    if ReadText(event).Ok? {
      TextExactly(event, ReadText(event).value);
    }
  }

  lemma {:induction false} ChunkTaken(limits: Limits, s: State, event: Fields)
    ensures var outcome := Step(limits, s, ReadEvent(event)).1;
            NewChunk(ReadEvent(event), outcome)
            == if outcome.Ok? && AudioType(Get(event, "type")) then WireChunk(event) else []
  {
    KindExactly(event);
    AcceptsExactly(limits, s, event);
  }

  lemma {:induction false} TakenAt(limits: Limits, raw: seq<Fields>, k: nat)
    requires k < |raw|
    ensures var events := ReadAll(raw);
            && NewText(events[k], OutcomeAt(limits, events, k))
               == (if Taken(limits, raw, k) && TranscriptType(Get(raw[k], "type")) then WireText(raw[k]) else [])
            && NewChunk(events[k], OutcomeAt(limits, events, k))
               == (if Taken(limits, raw, k) && AudioType(Get(raw[k], "type")) then WireChunk(raw[k]) else [])
  {
    TextTaken(limits, After(limits, ReadAll(raw), k), raw[k]);
    ChunkTaken(limits, After(limits, ReadAll(raw), k), raw[k]);
  }

  /** What grows by one part at a time is gathered from the parts. */
  lemma {:induction false} GatherIs<T>(part: nat -> seq<T>, c: nat, end: nat, grown: nat -> seq<T>)
    requires c < end && grown(c + 1) == []
    requires forall j: nat :: c < j < end ==> grown(j + 1) == grown(j) + part(j)
    ensures Gather(part, c, end) == grown(end)
    decreases end
  {
    if c + 1 < end {
      GatherIs(part, c, end - 1, grown);
      assert grown(end - 1 + 1) == grown(end - 1) + part(end - 1);
    }
  }

  ghost function TextsUpTo(limits: Limits, events: seq<Event>, c: nat): nat -> seq<string> {
    (k: nat) => if c < k <= |events| then Texts(limits, events, c, k) else []
  }

  ghost function ChunksUpTo(limits: Limits, events: seq<Event>, c: nat): nat -> seq<Bytes> {
    (k: nat) => if c < k <= |events| then Chunks(limits, events, c, k) else []
  }

  lemma {:induction false} TextsLast(limits: Limits, events: seq<Event>, c: nat, j: nat)
    requires c < j < |events|
    ensures TextsUpTo(limits, events, c)(j + 1)
         == TextsUpTo(limits, events, c)(j) + NewText(events[j], OutcomeAt(limits, events, j))
  {
  }

  lemma {:induction false} ChunksLast(limits: Limits, events: seq<Event>, c: nat, j: nat)
    requires c < j < |events|
    ensures ChunksUpTo(limits, events, c)(j + 1)
         == ChunksUpTo(limits, events, c)(j) + NewChunk(events[j], OutcomeAt(limits, events, j))
  {
  }

  lemma {:induction false} PartTaken(limits: Limits, raw: seq<Fields>, j: nat)
    requires j < |raw|
    ensures TextPart(limits, raw)(j) == NewText(ReadAll(raw)[j], OutcomeAt(limits, ReadAll(raw), j))
    ensures ChunkPart(limits, raw)(j) == NewChunk(ReadAll(raw)[j], OutcomeAt(limits, ReadAll(raw), j))
  {
    TakenAt(limits, raw, j);
  }

  lemma {:induction false} TextsOnWire(limits: Limits, raw: seq<Fields>, c: nat, k: nat)
    requires c < k <= |raw|
    ensures Texts(limits, ReadAll(raw), c, k) == Gather(TextPart(limits, raw), c, k)
  {
    forall j: nat | c < j < k
      ensures TextsUpTo(limits, ReadAll(raw), c)(j + 1)
           == TextsUpTo(limits, ReadAll(raw), c)(j) + TextPart(limits, raw)(j)
    {
      TextsLast(limits, ReadAll(raw), c, j);
      PartTaken(limits, raw, j);
    }
    GatherIs(TextPart(limits, raw), c, k, TextsUpTo(limits, ReadAll(raw), c));
  }

  lemma {:induction false} ChunksOnWire(limits: Limits, raw: seq<Fields>, c: nat, k: nat)
    requires c < k <= |raw|
    ensures Chunks(limits, ReadAll(raw), c, k) == Gather(ChunkPart(limits, raw), c, k)
  {
    forall j: nat | c < j < k
      ensures ChunksUpTo(limits, ReadAll(raw), c)(j + 1)
           == ChunksUpTo(limits, ReadAll(raw), c)(j) + ChunkPart(limits, raw)(j)
    {
      ChunksLast(limits, ReadAll(raw), c, j);
      PartTaken(limits, raw, j);
    }
    GatherIs(ChunkPart(limits, raw), c, k, ChunksUpTo(limits, ReadAll(raw), c));
  }

  /** Event `c` is the accepted response.created since which none was accepted and no response completed. */
  ghost predicate OpenedAt(limits: Limits, raw: seq<Fields>, c: nat, k: nat)
    requires k <= |raw|
  {
    && c < k && Taken(limits, raw, c) && Is(raw, c, "response.created")
    && forall j :: c < j < k ==>
         && !(Taken(limits, raw, j) && Is(raw, j, "response.created"))
         && !(Taken(limits, raw, j) && Is(raw, j, "response.done"))
  }

  /** The response is what the events from `c` to `k` say. */
  ghost predicate Carries(limits: Limits, raw: seq<Fields>, c: nat, k: nat, r: Response)
    requires c < k < |raw|
  {
    && ReadId(raw[c], "response") == Ok(r.responseId) && ReadStatus(raw[k]) == Ok(r.status)
    && r.sampleRate == limits.sampleRate
    && r.transcript == Join(Gather(TextPart(limits, raw), c, k))
    && r.pcmAudio == Join(Gather(ChunkPart(limits, raw), c, k)) && |r.pcmAudio| % 2 == 0
    && (r.audioDoneSeen <==>
        exists j :: c < j < k && Taken(limits, raw, j) && Is(raw, j, "response.output_audio.done"))
  }

  /** An accepted response.done completes, and nothing else does. */
  lemma {:induction false} DoneCompletes(limits: Limits, raw: seq<Fields>, k: nat)
    requires k < |raw|
    ensures Completes(limits, ReadAll(raw), k) <==> Taken(limits, raw, k) && Is(raw, k, "response.done")
  {
    KindExactly(raw[k]);
    DoneOnly(limits, After(limits, ReadAll(raw), k), ReadEvent(raw[k]));
  }

  lemma {:induction false} DoneOnly(limits: Limits, s: State, e: Event)
    ensures var outcome := Step(limits, s, e).1;
            outcome.Ok? && outcome.value.Some? <==> outcome.Ok? && e.kind == ResponseDone
  {
  }

  lemma {:induction false} OpenOnWire(limits: Limits, raw: seq<Fields>, c: nat, k: nat)
    requires k <= |raw| && OpenSince(limits, ReadAll(raw), c, k)
    ensures OpenedAt(limits, raw, c, k)
  {
    KindExactly(raw[c]);
    forall j | c < j < k
      ensures !(Taken(limits, raw, j) && Is(raw, j, "response.created"))
      ensures !(Taken(limits, raw, j) && Is(raw, j, "response.done"))
    {
      KindExactly(raw[j]);
      DoneCompletes(limits, raw, j);
    }
  }

  lemma {:induction false} AudioDoneOnWire(limits: Limits, raw: seq<Fields>, c: nat, k: nat)
    requires c < k <= |raw|
    ensures SawAudioDone(limits, ReadAll(raw), c, k) <==>
            exists j :: c < j < k && Taken(limits, raw, j) && Is(raw, j, "response.output_audio.done")
  {
    forall j: nat | c < j < k
      ensures Accepted(limits, ReadAll(raw), j, AudioDone)
         <==> Taken(limits, raw, j) && Is(raw, j, "response.output_audio.done")
    {
      KindExactly(raw[j]);
    }
  }

  /**
   A response completes at an accepted response.done. It was opened by a response.created, has that
   event's id, and joins the texts and the audio of exactly the transcript and audio events accepted
   in between.
   */
  lemma {:induction false} CompletedOnWire(limits: Limits, raw: seq<Fields>, k: nat) returns (c: nat)
    requires ValidLimits(limits) && k < |raw| && Completes(limits, ReadAll(raw), k)
    ensures Taken(limits, raw, k) && Is(raw, k, "response.done")
    ensures OpenedAt(limits, raw, c, k)
    ensures Carries(limits, raw, c, k, OutcomeAt(limits, ReadAll(raw), k).value.value)
  {
    c := CompletedParts(limits, ReadAll(raw), k);
    DoneCompletes(limits, raw, k);
    OpenOnWire(limits, raw, c, k);
    PartsOnWire(limits, raw, c, k, OutcomeAt(limits, ReadAll(raw), k).value.value);
  }

  lemma {:induction false} PartsOnWire(limits: Limits, raw: seq<Fields>, c: nat, k: nat, r: Response)
    requires c < k < |raw| && Parts(limits, ReadAll(raw), c, k, r)
    ensures Carries(limits, raw, c, k, r)
  {
    TextsOnWire(limits, raw, c, k);
    ChunksOnWire(limits, raw, c, k);
    AudioDoneOnWire(limits, raw, c, k);
  }

  /** What a completed response holds, in terms of the events as read. */
  ghost predicate Parts(limits: Limits, events: seq<Event>, c: nat, k: nat, r: Response)
    requires c < k < |events|
  {
    && events[c].response == Ok(r.responseId) && events[k].status == Ok(r.status) && r.sampleRate == limits.sampleRate
    && r.transcript == Join(Texts(limits, events, c, k))
    && r.pcmAudio == Join(Chunks(limits, events, c, k)) && |r.pcmAudio| % 2 == 0
    && (r.audioDoneSeen <==> SawAudioDone(limits, events, c, k))
  }

  lemma {:induction false} CompletedParts(limits: Limits, events: seq<Event>, k: nat) returns (c: nat)
    requires ValidLimits(limits) && k < |events| && Completes(limits, events, k)
    ensures OpenSince(limits, events, c, k) && Parts(limits, events, c, k, OutcomeAt(limits, events, k).value.value)
  {
    c := CompletedResponse(limits, events, k);
  }

  // ----- Waits of the client -----

  /** What one arrived event is to a wait, by its type. */
  lemma {:induction false} NextOnWire(event: Fields, rest: seq<VoiceClient.Incoming>)
    ensures var next, t := VoiceClient.Next([VoiceClient.Arrived(event)] + rest), Get(event, "type");
            && (next == Err(VoiceClient.BadEvent) <==> !t.Str? || t.s == "")
            && (next == Err(VoiceClient.RemoteFailure) <==> t == Str("error"))
            && (next.Err? && next.error.BadConversation? <==>
                t == Str("conversation.created") && forall id :: ReadId(event, "conversation") != Ok(id))
            && (next.Ok? <==>
                && t.Str? && t.s != "" && t != Str("error")
                && (t == Str("conversation.created") ==> exists id :: ReadId(event, "conversation") == Ok(id)))
            && (next.Ok? ==> next.value == ReadEvent(event))
  {
    KindExactly(event);
    NameOrNone(event);
    assert ([VoiceClient.Arrived(event)] + rest)[0] == VoiceClient.Arrived(event);
    KindsApart(Get(event, "type"));
    if ReadId(event, "conversation").Ok? {
      assert ReadId(event, "conversation") == Ok(ReadId(event, "conversation").value);
    }
  }

  lemma {:induction false} KindsApart(t: Json)
    ensures t == Str("error") ==> t != Str("conversation.created") && t.s != ""
    ensures t == Str("conversation.created") ==> t.s != ""
  {
    assert |"error"| == 5 && |"conversation.created"| == 20;
  }

  /** The conversation id changes only by a conversation.created that carries a well-formed one. */
  lemma {:induction false} CapturedOnWire(config: VoiceClient.SessionConfig, id: Option<string>, event: Fields)
    ensures VoiceClient.Captured(config, id, ReadEvent(event))
         == if Get(event, "type") == Str("conversation.created") && config.resumptionEnabled
               && ReadId(event, "conversation").Ok?
            then Some(ReadId(event, "conversation").value) else id
  {
    KindExactly(event);
  }

  /** The events a wait heard are the first that arrived; none of them is an error. */
  lemma {:induction false} HeardOnWire(incoming: seq<VoiceClient.Incoming>, events: seq<Event>)
    returns (raw: seq<Fields>)
    requires VoiceClient.Heard(incoming, events)
    ensures |raw| == |events| && events == ReadAll(raw)
    ensures forall k :: 0 <= k < |raw| ==> incoming[k] == VoiceClient.Arrived(raw[k]) && !Is(raw, k, "error")
  {
    forall k | 0 <= k < |events|
      ensures incoming[k].Arrived? && events[k] == ReadEvent(incoming[k].event)
      ensures Get(incoming[k].event, "type") != Str("error")
    {
      HeardAt(incoming, k, events[k]);
    }
    raw := seq(|events|, k requires 0 <= k < |events| => incoming[k].event);
  }

  lemma {:induction false} HeardAt(incoming: seq<VoiceClient.Incoming>, k: nat, event: Event)
    requires k < |incoming| && VoiceClient.Next(incoming[k..]) == Ok(event)
    ensures incoming[k].Arrived? && event == ReadEvent(incoming[k].event)
    ensures Get(incoming[k].event, "type") != Str("error")
  {
    assert incoming[k..][0] == incoming[k];
    assert incoming[k..] == [incoming[k]] + incoming[k + 1..];
    NextOnWire(incoming[k].event, incoming[k + 1..]);
  }

  /** What follows the first events heard was heard too, after them. */
  lemma {:induction false} HeardRest(incoming: seq<VoiceClient.Incoming>, a: seq<Event>, b: seq<Event>)
    requires VoiceClient.Heard(incoming, a + b)
    ensures VoiceClient.Heard(incoming[|a|..], b)
  {
    forall k | 0 <= k < |b| ensures VoiceClient.Next(incoming[|a|..][k..]) == Ok(b[k]) {
      assert incoming[|a|..][k..] == incoming[|a| + k..];
      assert (a + b)[|a| + k] == b[k];
    }
  }

  /** A ready connection heard one session.updated, last. */
  lemma {:induction false} ReadyOnWire(incoming: seq<VoiceClient.Incoming>, events: seq<Event>)
    returns (raw: seq<Fields>)
    requires VoiceClient.Heard(incoming, events) && VoiceClient.EndsReady(events)
    ensures |raw| == |events| > 0
    ensures forall k :: 0 <= k < |raw| ==> incoming[k] == VoiceClient.Arrived(raw[k]) && !Is(raw, k, "error")
    ensures forall k :: 0 <= k < |raw| ==> (Is(raw, k, "session.updated") <==> k == |raw| - 1)
  {
    raw := HeardOnWire(incoming, events);
    forall k | 0 <= k < |raw| ensures Is(raw, k, "session.updated") <==> k == |raw| - 1 {
      KindExactly(raw[k]);
      if k < |raw| - 1 {
        assert events[..|events| - 1][k] == events[k];
      }
    }
  }

  /**
   The response a turn returns ends at the first response.done accepted among the events that
   arrived, and is what those events say.
   */
  lemma {:induction false} TurnOnWire(
    limits: Limits, incoming: seq<VoiceClient.Incoming>, events: seq<Event>, response: Response)
    returns (raw: seq<Fields>, c: nat)
    requires ValidLimits(limits)
    requires VoiceClient.Heard(incoming, events) && VoiceClient.CompletedBy(limits, events, response)
    ensures |raw| == |events| > 0
    ensures forall k :: 0 <= k < |raw| ==> incoming[k] == VoiceClient.Arrived(raw[k]) && !Is(raw, k, "error")
    ensures forall k :: 0 <= k < |raw| ==>
              (Taken(limits, raw, k) && Is(raw, k, "response.done") <==> k == |raw| - 1)
    ensures OpenedAt(limits, raw, c, |raw| - 1) && Carries(limits, raw, c, |raw| - 1, response)
  {
    raw := HeardOnWire(incoming, events);
    c := CompletedOnWire(limits, raw, |raw| - 1);
    forall k | 0 <= k < |raw| ensures Taken(limits, raw, k) && Is(raw, k, "response.done") <==> k == |raw| - 1 {
      DoneCompletes(limits, raw, k);
    }
  }

  // ----- What a turn sends -----

  lemma {:induction false} Pair(a: string, v: Json, b: string, w: Json)
    requires a != b && Plain(v) && Plain(w)
    ensures var fs := [Field(a, v), Field(b, w)]; Plain(Obj(fs)) && Get(fs, a) == v && Get(fs, b) == w
  {
    var fs := [Field(a, v), Field(b, w)];
    FindAt(fs, 0);
    FindAt(fs, 1);
  }

  lemma {:induction false} Triple(u: Json, v: Json, w: Json)
    requires Plain(u) && Plain(v) && Plain(w)
    ensures var fs := [Field("type", u), Field("role", v), Field("content", w)];
            Plain(Obj(fs)) && Get(fs, "type") == u && Get(fs, "role") == v && Get(fs, "content") == w
  {
    var fs := [Field("type", u), Field("role", v), Field("content", w)];
    assert |"type"| == 4 && |"role"| == 4 && |"content"| == 7 && "type"[0] == 't' && "role"[0] == 'r';
    assert DistinctKeys(fs);
    FindAt(fs, 0);
    FindAt(fs, 1);
    FindAt(fs, 2);
  }

  /** An input text with the prompt. */
  ghost predicate SaysText(v: Json, prompt: string) {
    v.Obj? && Get(v.fields, "type") == Str("input_text") && Get(v.fields, "text") == Str(prompt)
  }

  /** A message of the user with one part, the prompt. */
  ghost predicate SaysMessage(v: Json, prompt: string) {
    && v.Obj? && Get(v.fields, "type") == Str("message") && Get(v.fields, "role") == Str("user")
    && var content := Get(v.fields, "content");
       content.Arr? && |content.items| == 1 && SaysText(content.items[0], prompt)
  }

  /** The creation of that message. */
  ghost predicate SaysPrompt(v: Json, prompt: string) {
    && v.Obj? && Get(v.fields, "type") == Str("conversation.item.create")
    && SaysMessage(Get(v.fields, "item"), prompt)
  }

  lemma {:induction false} TextSaid(prompt: string)
    ensures Plain(VoiceClient.TextPart(prompt)) && SaysText(VoiceClient.TextPart(prompt), prompt)
  {
    assert "type"[1] == 'y' && "text"[1] == 'e';
    Pair("type", Str("input_text"), "text", Str(prompt));
  }

  lemma {:induction false} MessageSaid(prompt: string)
    ensures Plain(VoiceClient.UserMessage(prompt)) && SaysMessage(VoiceClient.UserMessage(prompt), prompt)
  {
    TextSaid(prompt);
    Triple(Str("message"), Str("user"), Arr([VoiceClient.TextPart(prompt)]));
  }

  /** What a turn sends: the prompt's message, then the request for a response. */
  lemma {:induction false} TurnSaid(config: VoiceClient.SessionConfig, prompt: string)
    ensures |VoiceClient.Turn(prompt)| == 2
    ensures var v := VoiceClient.Payload(config, VoiceClient.Turn(prompt)[0]); SaysPrompt(v, prompt) && Plain(v)
    ensures VoiceClient.Payload(config, VoiceClient.Turn(prompt)[1]) == Obj([Field("type", Str("response.create"))])
  {
    MessageSaid(prompt);
    assert "item"[0] == 'i' && "type"[0] == 't';
    Pair("type", Str("conversation.item.create"), "item", VoiceClient.UserMessage(prompt));
  }

  /** The text of a message reads as the message. */
  lemma {:induction false} SentReads(config: VoiceClient.SessionConfig, message: VoiceClient.Message)
    requires Plain(VoiceClient.Payload(config, message))
    ensures Loads(Print(PythonDumps, VoiceClient.Payload(config, message)))
         == Some(VoiceClient.Payload(config, message))
    ensures VoiceClient.PayloadSize(config, message)
         == Utf8.Size(Print(PythonDumps, VoiceClient.Payload(config, message)))
  {
    Utf8.SizeExactly(Print(PythonDumps, VoiceClient.Payload(config, message)));
    LoadsPrint(PythonDumps, VoiceClient.Payload(config, message));
  }
}
